/** The pull-request backfill of ci_observe_prs.py.

    A pass plans its window, reads the closed pull requests of every repository
    page by page, stores what is new, prunes what left retention and records
    itself. GitHub is an oracle: any page may fail, any pull request may fail,
    the request budget may run low at any moment. */
module Backfill {
  import opened Common
  import opened Sequences
  import opened PassLog

  // -- the closed pull request listing ------------------------------------------

  /** One listed pull request. `ended` is its merge or close time. */
  datatype Listed = Listed(number: int, created: int, updated: Option<int>, ended: Option<int>)
  datatype Page = Page(ok: bool, prs: seq<Listed>)

  predicate EndedSince(pr: Listed, cutoff: int) {
    pr.ended.Some? && cutoff <= pr.ended.value
  }

  predicate UpdatedBefore(pr: Listed, since: int) {
    pr.updated.Some? && pr.updated.value < since
  }

  predicate WholePageOlder(prs: seq<Listed>, since: int) {
    prs != [] && forall i :: 0 <= i < |prs| ==> UpdatedBefore(prs[i], since)
  }

  /** What the listing returns: nothing when a page it needed failed. */
  function ClosedPrs(pages: seq<Page>, cutoff: int, since: int): Option<seq<Listed>> {
    if pages == [] then Some([])
    else if !pages[0].ok then None
    else
      var kept := Filter((pr: Listed) => EndedSince(pr, cutoff), pages[0].prs);
      if WholePageOlder(pages[0].prs, since) then Some(kept)
      else
        var rest := ClosedPrs(pages[1..], cutoff, since);
        if rest.None? then None else Some(kept + rest.value)
  }

  /** GitHub answers newest update first. */
  predicate NewestUpdateFirst(pages: seq<Page>) {
    forall p, q, i, j :: 0 <= p < q < |pages| && 0 <= i < |pages[p].prs| && 0 <= j < |pages[q].prs|
                         && pages[p].prs[i].updated.Some? && pages[q].prs[j].updated.Some? ==>
      pages[q].prs[j].updated.value <= pages[p].prs[i].updated.value
  }

  predicate OnPages(pages: seq<Page>, pr: Listed) {
    exists p :: 0 <= p < |pages| && pr in pages[p].prs
  }

  /** Stopping at the first page that is wholly too old loses nothing the pass
      asked for, and nothing outside retention is returned. */
  lemma {:induction false} ListingComplete(pages: seq<Page>, cutoff: int, since: int)
    requires NewestUpdateFirst(pages)
    requires ClosedPrs(pages, cutoff, since).Some?
    ensures var prs := ClosedPrs(pages, cutoff, since).value;
            && (forall pr :: pr in prs ==> OnPages(pages, pr) && EndedSince(pr, cutoff))
            && (forall pr :: OnPages(pages, pr) && EndedSince(pr, cutoff) && pr.updated.Some? && since <= pr.updated.value
                             ==> pr in prs)
  {
    if pages == [] {
      return;
    }
    var prs := ClosedPrs(pages, cutoff, since).value;
    var older := WholePageOlder(pages[0].prs, since);
    if !older {
      ListingComplete(pages[1..], cutoff, since);
    }
    forall pr | pr in prs ensures OnPages(pages, pr) && EndedSince(pr, cutoff) {
      if pr in pages[0].prs {
      } else {
        var p :| 0 <= p < |pages[1..]| && pr in pages[1..][p].prs;
        assert pr in pages[p + 1].prs;
      }
    }
    forall pr | OnPages(pages, pr) && EndedSince(pr, cutoff) && pr.updated.Some? && since <= pr.updated.value
      ensures pr in prs
    {
      var p :| 0 <= p < |pages| && pr in pages[p].prs;
      if p > 0 && !older {
        assert pr in pages[1..][p - 1].prs;
      }
    }
  }

  // -- one pass -----------------------------------------------------------------

  datatype PrKey = PrKey(repo: string, number: int)

  /** Everything outside the program that decides one pass. */
  datatype PassInput = PassInput(now: int,
                                 request: Request,
                                 force: bool,
                                 filtered: bool,
                                 repos: Option<seq<string>>,
                                 pages: string -> seq<Page>,
                                 fetchAnswers: PrKey -> bool,
                                 budgetLow: PrKey -> bool,
                                 limit: Option<nat>)

  /** The tables: the pass log, and the end time of every stored pull request. */
  datatype Tables = Tables(log: seq<PassRow>, events: map<PrKey, int>)

  /** The running totals of a pass. `storedKeys` and `failedKeys` name what `stored` and
      `failed` count. */
  datatype Tally = Tally(events: map<PrKey, int>, stored: nat, skipped: int, failed: nat,
                         storedKeys: set<PrKey>, failedKeys: set<PrKey>,
                         complete: bool, early: bool, stopped: bool)

  /** The column a row is pruned by: merged, else closed, else opened. */
  function EndOf(pr: Listed): int {
    if pr.ended.Some? then pr.ended.value else pr.created
  }

  function StoreOne(repo: string, pr: Listed, input: PassInput, t: Tally): Tally {
    var key := PrKey(repo, pr.number);
    var done := if input.fetchAnswers(key)
                then t.(events := t.events[key := EndOf(pr)], stored := t.stored + 1, storedKeys := t.storedKeys + {key})
                else t.(failed := t.failed + 1, failedKeys := t.failedKeys + {key});
    var stop := input.budgetLow(key) || (input.limit.Some? && input.limit.value <= done.stored);
    done.(stopped := stop, early := done.early || stop)
  }

  function StorePending(repo: string, pending: seq<Listed>, input: PassInput, t: Tally): Tally {
    if pending == [] || t.stopped then t
    else StorePending(repo, pending[1..], input, StoreOne(repo, pending[0], input, t))
  }

  function PruneEvents(events: map<PrKey, int>, repo: string, cutoff: int): map<PrKey, int> {
    map key | key in events && !(key.repo == repo && events[key] < cutoff) :: events[key]
  }

  function Pending(repo: string, prs: seq<Listed>, force: bool, events: map<PrKey, int>): seq<Listed> {
    Filter((pr: Listed) => force || PrKey(repo, pr.number) !in events, prs)
  }

  function VisitRepo(repo: string, mode: Mode, cutoff: int, since: int, input: PassInput, t: Tally): Tally {
    var listing := ClosedPrs(input.pages(repo), cutoff, since);
    if listing.None? then t.(complete := false, early := true)
    else
      var pending := Pending(repo, listing.value, input.force, t.events);
      var done := StorePending(repo, pending, input, t.(skipped := t.skipped + |listing.value| - |pending|));
      var pruned := if mode == Full then done.(events := PruneEvents(done.events, repo, cutoff)) else done;
      pruned.(complete := pruned.complete && !pruned.stopped)
  }

  function VisitRepos(repos: seq<string>, mode: Mode, cutoff: int, since: int, input: PassInput, t: Tally): Tally {
    if repos == [] || t.stopped then t
    else VisitRepos(repos[1..], mode, cutoff, since, input, VisitRepo(repos[0], mode, cutoff, since, input, t))
  }

  function PlanPass(tables: Tables, span: int, input: PassInput): (Mode, int) {
    Plan(tables.log, span, input.now, if input.force && input.request == Auto then AskFull else input.request)
  }

  /** The totals when a pass ends, before it records itself. */
  function FinalTally(tables: Tables, span: int, input: PassInput): Tally {
    var (mode, since) := PlanPass(tables, span, input);
    var start := Tally(tables.events, 0, 0, 0, {}, {}, input.repos.Some?, input.repos.None?, false);
    var repos := if input.repos.Some? then input.repos.value else [];
    var t := VisitRepos(repos, mode, input.now - span, since, input, start);
    if input.filtered then t.(complete := false, early := true) else t
  }

  function RecordedRow(tables: Tables, span: int, input: PassInput): PassRow {
    var (mode, since) := PlanPass(tables, span, input);
    var t := FinalTally(tables, span, input);
    PassRow(input.now, mode, since, input.now, t.complete, t.complete && !t.early && t.failed == 0)
  }

  function RunPass(tables: Tables, span: int, input: PassInput): Tables {
    Tables(PruneRuns(tables.log + [RecordedRow(tables, span, input)], input.now - span),
           FinalTally(tables, span, input).events)
  }

  // -- what one pass keeps ------------------------------------------------------

  /** A pull request that ended at `end` is only ever listed with that end. */
  predicate ListedWithEnd(prs: seq<Listed>, number: int, end: int) {
    forall i :: 0 <= i < |prs| && prs[i].number == number ==> prs[i].ended == Some(end)
  }

  predicate StoredWithEnd(events: map<PrKey, int>, key: PrKey, end: int) {
    key in events ==> events[key] == end
  }

  predicate Known(t: Tally, key: PrKey) {
    key in t.events || key in t.failedKeys
  }

  /** The pages show this pull request ended inside retention and updated since. */
  ghost predicate ShowsRecent(pages: seq<Page>, number: int, cutoff: int, since: int) {
    exists pr :: OnPages(pages, pr) && pr.number == number && EndedSince(pr, cutoff)
                 && pr.updated.Some? && since <= pr.updated.value
  }

  lemma {:induction false} StorePendingKeeps(repo: string, pending: seq<Listed>, input: PassInput, t: Tally, key: PrKey, end: int)
    requires repo == key.repo ==> ListedWithEnd(pending, key.number, end)
    requires StoredWithEnd(t.events, key, end)
    ensures var done := StorePending(repo, pending, input, t);
            && StoredWithEnd(done.events, key, end)
            && t.failed <= done.failed && (done.failed == 0 && t.failedKeys == {} ==> done.failedKeys == {})
            && (key in t.events ==> key in done.events) && (Known(t, key) ==> Known(done, key))
            && done.complete == t.complete
            && (!done.stopped && repo == key.repo ==> forall pr :: pr in pending && pr.number == key.number ==> Known(done, key))
            && (t.early ==> done.early) && (t.stopped ==> done.stopped)
            && (!t.early && !done.stopped ==> !done.early)
    decreases |pending|
  {
    if pending != [] && !t.stopped {
      StorePendingKeeps(repo, pending[1..], input, StoreOne(repo, pending[0], input, t), key, end);
    }
  }

  lemma VisitRepoKeeps(repo: string, mode: Mode, cutoff: int, since: int, input: PassInput, t: Tally, key: PrKey, end: int)
    requires forall p :: 0 <= p < |input.pages(key.repo)| ==> ListedWithEnd(input.pages(key.repo)[p].prs, key.number, end)
    requires NewestUpdateFirst(input.pages(key.repo)) || repo != key.repo
    requires StoredWithEnd(t.events, key, end)
    requires mode == Full ==> cutoff <= end
    ensures var done := VisitRepo(repo, mode, cutoff, since, input, t);
            && StoredWithEnd(done.events, key, end)
            && t.failed <= done.failed && (done.failed == 0 && t.failedKeys == {} ==> done.failedKeys == {})
            && (key in t.events ==> key in done.events) && (Known(t, key) ==> Known(done, key))
            && (done.complete ==> t.complete)
            && (done.complete && repo == key.repo && ShowsRecent(input.pages(repo), key.number, cutoff, since)
                ==> Known(done, key))
            && (done.complete ==> !done.stopped)
  {
    var listing := ClosedPrs(input.pages(repo), cutoff, since);
    if listing.None? {
      return;
    }
    var prs := listing.value;
    var pending := Pending(repo, prs, input.force, t.events);
    if repo == key.repo {
      ListingComplete(input.pages(repo), cutoff, since);
      forall i | 0 <= i < |pending| && pending[i].number == key.number ensures pending[i].ended == Some(end) {
        assert pending[i] in prs;
        var p :| 0 <= p < |input.pages(repo)| && pending[i] in input.pages(repo)[p].prs;
      }
    }
    StorePendingKeeps(repo, pending, input, t.(skipped := t.skipped + |prs| - |pending|), key, end);
  }

  lemma {:induction false} VisitReposKeeps(repos: seq<string>, mode: Mode, cutoff: int, since: int, input: PassInput, t: Tally,
                                           key: PrKey, end: int)
    requires forall p :: 0 <= p < |input.pages(key.repo)| ==> ListedWithEnd(input.pages(key.repo)[p].prs, key.number, end)
    requires NewestUpdateFirst(input.pages(key.repo))
    requires StoredWithEnd(t.events, key, end)
    requires mode == Full ==> cutoff <= end
    requires t.complete ==> !t.stopped
    ensures var done := VisitRepos(repos, mode, cutoff, since, input, t);
            && StoredWithEnd(done.events, key, end)
            && t.failed <= done.failed && (done.failed == 0 && t.failedKeys == {} ==> done.failedKeys == {})
            && (key in t.events ==> key in done.events) && (Known(t, key) ==> Known(done, key))
            && (done.complete ==> t.complete)
            && (done.complete && key.repo in repos && ShowsRecent(input.pages(key.repo), key.number, cutoff, since)
                ==> Known(done, key))
    decreases |repos|
  {
    if repos != [] && !t.stopped {
      VisitRepoKeeps(repos[0], mode, cutoff, since, input, t, key, end);
      VisitReposKeeps(repos[1..], mode, cutoff, since, input,
                      VisitRepo(repos[0], mode, cutoff, since, input, t), key, end);
    }
  }

  /** "ok" is the program's claim that a pass stored everything it listed: after such
      a pass, every pull request that ended in the pass's window is stored. */
  lemma OkPassStoredItsWindow(tables: Tables, span: int, input: PassInput, key: PrKey, end: int)
    requires RecordedRow(tables, span, input).ok
    requires RecordedRow(tables, span, input).windowFrom <= end <= input.now
    requires Shows(input, key, end) && StoredWithEnd(tables.events, key, end)
    ensures key in RunPass(tables, span, input).events
  {
    var (mode, since) := PlanPass(tables, span, input);
    var start := Tally(tables.events, 0, 0, 0, {}, {}, input.repos.Some?, input.repos.None?, false);
    ShownIsRecent(input, key, end, input.now - span, since);
    VisitReposKeeps(input.repos.value, mode, input.now - span, since, input, start, key, end);
  }

  lemma ShownIsRecent(input: PassInput, key: PrKey, end: int, cutoff: int, since: int)
    requires Shows(input, key, end) && cutoff <= end <= input.now && since <= end
    ensures ShowsRecent(input.pages(key.repo), key.number, cutoff, since)
  {
  }

  // -- what a pass says of itself -------------------------------------------------

  /** The mode a pass runs in: full when it is asked for, when force asks for everything
      again, when an automatic pass finds no complete full one within a day, and when
      nothing complete is on record to be incremental from. */
  lemma PassModeExactlyWhen(tables: Tables, span: int, input: PassInput)
    ensures var log := tables.log;
            PlanPass(tables, span, input).0 == Full <==>
              match input.request
              case AskFull => true
              case Auto => input.force || !exists i :: && 0 <= i < |log| && log[i].mode == Full && log[i].listingComplete
                                                       && input.now - 24 * HOUR <= log[i].ranAt
              case AskIncremental => !exists i :: 0 <= i < |log| && log[i].listingComplete
  {
    PlanMeaning(tables.log, span, input.now, if input.force && input.request == Auto then AskFull else input.request, 0);
  }

  lemma {:induction false} PendingStopsEarly(repo: string, pending: seq<Listed>, input: PassInput, t: Tally)
    ensures var done := StorePending(repo, pending, input, t);
            done.complete == t.complete && (done.early <==> t.early || (done.stopped && !t.stopped))
    decreases |pending|
  {
    if pending != [] && !t.stopped {
      PendingStopsEarly(repo, pending[1..], input, StoreOne(repo, pending[0], input, t));
    }
  }

  lemma {:induction false} VisitsSayEarly(repos: seq<string>, mode: Mode, cutoff: int, since: int, input: PassInput, t: Tally)
    requires (t.early <==> !t.complete) && (t.stopped ==> t.early)
    ensures var done := VisitRepos(repos, mode, cutoff, since, input, t);
            done.early <==> !done.complete
    decreases |repos|
  {
    if repos != [] && !t.stopped {
      var listing := ClosedPrs(input.pages(repos[0]), cutoff, since);
      if listing.Some? {
        var pending := Pending(repos[0], listing.value, input.force, t.events);
        PendingStopsEarly(repos[0], pending, input, t.(skipped := t.skipped + |listing.value| - |pending|));
      }
      VisitsSayEarly(repos[1..], mode, cutoff, since, input, VisitRepo(repos[0], mode, cutoff, since, input, t));
    }
  }

  /** A pass gives a reason for stopping early exactly when its listing is not complete, so
      it is ok exactly when it is complete and nothing failed; a pass over chosen
      repositories is neither. */
  lemma StoppedEarlyExactlyWhenIncomplete(tables: Tables, span: int, input: PassInput)
    ensures var t := FinalTally(tables, span, input);
            && (t.early <==> !t.complete)
            && (input.filtered || input.repos.None? ==> t.early)
            && (RecordedRow(tables, span, input).ok <==> t.complete && t.failed == 0)
  {
    var (mode, since) := PlanPass(tables, span, input);
    var start := Tally(tables.events, 0, 0, 0, {}, {}, input.repos.Some?, input.repos.None?, false);
    VisitsSayEarly(if input.repos.Some? then input.repos.value else [], mode, input.now - span, since, input, start);
  }

  // -- what one pass removes ------------------------------------------------------

  lemma {:induction false} ListedEndedSince(pages: seq<Page>, cutoff: int, since: int)
    requires ClosedPrs(pages, cutoff, since).Some?
    ensures forall pr :: pr in ClosedPrs(pages, cutoff, since).value ==> OnPages(pages, pr) && EndedSince(pr, cutoff)
  {
    if pages != [] {
      var older, prs := WholePageOlder(pages[0].prs, since), ClosedPrs(pages, cutoff, since).value;
      if !older {
        ListedEndedSince(pages[1..], cutoff, since);
      }
      forall pr | pr in prs ensures OnPages(pages, pr) && EndedSince(pr, cutoff) {
        if pr !in pages[0].prs {
          var p :| 0 <= p < |pages[1..]| && pr in pages[1..][p].prs;
          assert pr in pages[p + 1].prs;
        }
      }
    }
  }

  /** The pages show this pull request ended then. */
  ghost predicate ShowsEnd(pages: seq<Page>, number: int, end: int) {
    exists pr :: OnPages(pages, pr) && pr.number == number && pr.ended == Some(end)
  }

  /** What became of a key since the pass started with `before`: what the pass stored has an
      end inside retention that GitHub shows; any other row is there with its old end,
      unless its repository was cleared and that end lies before the cutoff. */
  ghost predicate RowIs(t: Tally, input: PassInput, key: PrKey, before: Option<int>, cleared: bool, cutoff: int) {
    if key in t.storedKeys then
      && key in t.events && cutoff <= t.events[key]
      && input.fetchAnswers(key) && ShowsEnd(input.pages(key.repo), key.number, t.events[key])
    else
      && (key in t.events <==> before.Some? && !(cleared && before.value < cutoff))
      && (key in t.events ==> Some(t.events[key]) == before)
  }

  lemma {:induction false} StorePendingRow(repo: string, pending: seq<Listed>, input: PassInput, t: Tally,
                                           key: PrKey, before: Option<int>, cleared: bool, cutoff: int)
    requires RowIs(t, input, key, before, cleared, cutoff)
    requires forall pr :: pr in pending ==> OnPages(input.pages(repo), pr) && EndedSince(pr, cutoff)
    ensures RowIs(StorePending(repo, pending, input, t), input, key, before, cleared, cutoff)
    decreases |pending|
  {
    if pending != [] && !t.stopped {
      var pr := pending[0];
      assert pr in pending && OnPages(input.pages(repo), pr);
      assert forall x :: x in pending[1..] ==> x in pending;
      assert PrKey(repo, pr.number) == key ==> ShowsEnd(input.pages(repo), key.number, EndOf(pr));
      StorePendingRow(repo, pending[1..], input, StoreOne(repo, pr, input, t), key, before, cleared, cutoff);
    }
  }

  predicate Answered(input: PassInput, repo: string, cutoff: int, since: int) {
    ClosedPrs(input.pages(repo), cutoff, since).Some?
  }

  lemma VisitRepoRow(repo: string, mode: Mode, cutoff: int, since: int, input: PassInput, t: Tally,
                     key: PrKey, before: Option<int>, cleared: bool)
    requires RowIs(t, input, key, before, cleared, cutoff)
    ensures var now := cleared || (mode == Full && repo == key.repo && Answered(input, repo, cutoff, since));
            RowIs(VisitRepo(repo, mode, cutoff, since, input, t), input, key, before, now, cutoff)
  {
    var listing := ClosedPrs(input.pages(repo), cutoff, since);
    if listing.Some? {
      ListedEndedSince(input.pages(repo), cutoff, since);
      var pending := Pending(repo, listing.value, input.force, t.events);
      StorePendingRow(repo, pending, input, t.(skipped := t.skipped + |listing.value| - |pending|), key, before, cleared, cutoff);
    }
  }

  lemma {:induction false} OneMoreRepo(repos: seq<string>, mode: Mode, cutoff: int, since: int, input: PassInput, t: Tally)
    requires repos != []
    ensures var before := VisitRepos(Front(repos), mode, cutoff, since, input, t);
            VisitRepos(repos, mode, cutoff, since, input, t) ==
            if before.stopped then before else VisitRepo(Last(repos), mode, cutoff, since, input, before)
    decreases |repos|
  {
    if |repos| > 1 && !t.stopped {
      assert Front(repos)[1..] == Front(repos[1..]);
      OneMoreRepo(repos[1..], mode, cutoff, since, input, VisitRepo(repos[0], mode, cutoff, since, input, t));
    } else {
      assert repos[1..] == [] || t.stopped;
      assert Front(repos) == [] || t.stopped;
    }
  }

  /** The totals after the first k repositories of the pass. */
  function TallyAfter(tables: Tables, span: int, input: PassInput, k: nat): Tally
    requires input.repos.Some? && k <= |input.repos.value|
  {
    var (mode, since) := PlanPass(tables, span, input);
    var start := Tally(tables.events, 0, 0, 0, {}, {}, true, false, false);
    VisitRepos(input.repos.value[..k], mode, input.now - span, since, input, start)
  }

  /** The pass got to the k-th repository, and its listing answered. */
  predicate Reads(tables: Tables, span: int, input: PassInput, k: nat)
    requires input.repos.Some? && k < |input.repos.value|
  {
    !TallyAfter(tables, span, input, k).stopped
    && Answered(input, input.repos.value[k], input.now - span, PlanPass(tables, span, input).1)
  }

  /** A full pass got to the repository, and its listing answered. */
  predicate Clears(tables: Tables, span: int, input: PassInput, repo: string) {
    && PlanPass(tables, span, input).0 == Full && input.repos.Some?
    && exists k :: 0 <= k < |input.repos.value| && input.repos.value[k] == repo && Reads(tables, span, input, k)
  }

  predicate ClearsBy(tables: Tables, span: int, input: PassInput, repo: string, n: nat) {
    && PlanPass(tables, span, input).0 == Full && input.repos.Some?
    && exists k :: 0 <= k < n && k < |input.repos.value| && input.repos.value[k] == repo && Reads(tables, span, input, k)
  }

  function StoredEnd(events: map<PrKey, int>, key: PrKey): Option<int> {
    if key in events then Some(events[key]) else None
  }

  lemma ClearsOneMore(tables: Tables, span: int, input: PassInput, repo: string, n: nat)
    requires input.repos.Some? && n < |input.repos.value|
    ensures ClearsBy(tables, span, input, repo, n + 1) <==>
            || ClearsBy(tables, span, input, repo, n)
            || (PlanPass(tables, span, input).0 == Full && input.repos.value[n] == repo && Reads(tables, span, input, n))
  {
  }

  lemma RowStep(tables: Tables, span: int, input: PassInput, key: PrKey, n: nat, before: Option<int>, cleared: bool)
    requires input.repos.Some? && n < |input.repos.value|
    requires RowIs(TallyAfter(tables, span, input, n), input, key, before, cleared, input.now - span)
    ensures var now := cleared || (PlanPass(tables, span, input).0 == Full && input.repos.value[n] == key.repo
                                   && Reads(tables, span, input, n));
            RowIs(TallyAfter(tables, span, input, n + 1), input, key, before, now, input.now - span)
  {
    var (mode, since) := PlanPass(tables, span, input);
    TallyStep(tables, span, input, n);
    if !TallyAfter(tables, span, input, n).stopped {
      VisitRepoRow(input.repos.value[n], mode, input.now - span, since, input, TallyAfter(tables, span, input, n),
                   key, before, cleared);
    }
  }

  lemma {:induction false} RowAfter(tables: Tables, span: int, input: PassInput, key: PrKey, n: nat)
    requires input.repos.Some? && n <= |input.repos.value|
    ensures RowIs(TallyAfter(tables, span, input, n), input, key, StoredEnd(tables.events, key),
                  ClearsBy(tables, span, input, key.repo, n), input.now - span)
  {
    if n > 0 {
      RowAfter(tables, span, input, key, n - 1);
      RowStep(tables, span, input, key, n - 1, StoredEnd(tables.events, key),
              ClearsBy(tables, span, input, key.repo, n - 1));
      ClearsOneMore(tables, span, input, key.repo, n - 1);
    }
  }

  /** What a pass does to any key. What it stored is there, with an end that GitHub shows
      and that lies inside retention. Any other row is gone exactly when a full pass got to
      its repository, the listing answered, and its end lies before retention; otherwise it
      is unchanged. */
  lemma PassRemovesExactlyWhen(tables: Tables, span: int, input: PassInput, key: PrKey)
    ensures var stored, after := FinalTally(tables, span, input).storedKeys, RunPass(tables, span, input).events;
            && (key in stored ==> key in after && input.now - span <= after[key]
                                  && ShowsEnd(input.pages(key.repo), key.number, after[key]))
            && (key !in stored ==>
                  && (key in after <==> key in tables.events &&
                                        !(Clears(tables, span, input, key.repo) && tables.events[key] < input.now - span))
                  && (key in after ==> after[key] == tables.events[key]))
  {
    if input.repos.Some? {
      var n := |input.repos.value|;
      assert input.repos.value[..n] == input.repos.value;
      RowAfter(tables, span, input, key, n);
      assert ClearsBy(tables, span, input, key.repo, n) <==> Clears(tables, span, input, key.repo);
    }
  }

  /** The pass left the row alone so far: it neither stored nor fetched it again. */
  predicate Skipped(t: Tally, key: PrKey, end: int) {
    key in t.events && t.events[key] == end && key !in t.storedKeys && key !in t.failedKeys
  }

  lemma {:induction false} PendingSkips(repo: string, pending: seq<Listed>, input: PassInput, t: Tally, key: PrKey, end: int)
    requires Skipped(t, key, end) && forall pr :: pr in pending ==> PrKey(repo, pr.number) != key
    ensures Skipped(StorePending(repo, pending, input, t), key, end)
    decreases |pending|
  {
    if pending != [] && !t.stopped {
      assert pending[0] in pending && forall pr :: pr in pending[1..] ==> pr in pending;
      PendingSkips(repo, pending[1..], input, StoreOne(repo, pending[0], input, t), key, end);
    }
  }

  lemma {:induction false} VisitsSkip(repos: seq<string>, mode: Mode, cutoff: int, since: int, input: PassInput, t: Tally,
                                      key: PrKey, end: int)
    requires !input.force && (mode == Full ==> cutoff <= end) && Skipped(t, key, end)
    ensures Skipped(VisitRepos(repos, mode, cutoff, since, input, t), key, end)
    decreases |repos|
  {
    if repos != [] && !t.stopped {
      var listing := ClosedPrs(input.pages(repos[0]), cutoff, since);
      if listing.Some? {
        var pending := Pending(repos[0], listing.value, input.force, t.events);
        PendingSkips(repos[0], pending, input, t.(skipped := t.skipped + |listing.value| - |pending|), key, end);
      }
      VisitsSkip(repos[1..], mode, cutoff, since, input, VisitRepo(repos[0], mode, cutoff, since, input, t), key, end);
    }
  }

  /** It is safe to run again: without force a pass does not fetch a stored pull request a
      second time, and changes nothing about one that is still inside retention. */
  lemma StoredIsSkipped(tables: Tables, span: int, input: PassInput, key: PrKey)
    requires !input.force && key in tables.events
    requires PlanPass(tables, span, input).0 == Full ==> input.now - span <= tables.events[key]
    ensures Skipped(FinalTally(tables, span, input), key, tables.events[key])
    ensures key in RunPass(tables, span, input).events && RunPass(tables, span, input).events[key] == tables.events[key]
  {
    var (mode, since) := PlanPass(tables, span, input);
    var start := Tally(tables.events, 0, 0, 0, {}, {}, input.repos.Some?, input.repos.None?, false);
    VisitsSkip(if input.repos.Some? then input.repos.value else [], mode, input.now - span, since, input, start,
               key, tables.events[key]);
  }

  /** One more repository. */
  lemma TallyStep(tables: Tables, span: int, input: PassInput, n: nat)
    requires input.repos.Some? && n < |input.repos.value|
    ensures var (mode, since) := PlanPass(tables, span, input);
            var before := TallyAfter(tables, span, input, n);
            TallyAfter(tables, span, input, n + 1) ==
            if before.stopped then before else VisitRepo(input.repos.value[n], mode, input.now - span, since, input, before)
  {
    var repos := input.repos.value;
    var (mode, since) := PlanPass(tables, span, input);
    assert Front(repos[..n + 1]) == repos[..n] && Last(repos[..n + 1]) == repos[n];
    OneMoreRepo(repos[..n + 1], mode, input.now - span, since, input, Tally(tables.events, 0, 0, 0, {}, {}, true, false, false));
  }

  lemma {:induction false} CompleteReadsAll(tables: Tables, span: int, input: PassInput, n: nat, k: nat)
    requires input.repos.Some? && k < n <= |input.repos.value| && TallyAfter(tables, span, input, n).complete
    ensures Reads(tables, span, input, k) && !TallyAfter(tables, span, input, n).stopped
  {
    var (mode, since) := PlanPass(tables, span, input);
    var before := TallyAfter(tables, span, input, n - 1);
    TallyStep(tables, span, input, n - 1);
    VisitKeepsIncomplete(input.repos.value[n - 1], mode, input.now - span, since, input, before);
    if n > 1 {
      CompleteReadsAll(tables, span, input, n - 1, if k < n - 1 then k else 0);
    } else {
      assert input.repos.value[..0] == [];
    }
  }

  lemma VisitKeepsIncomplete(repo: string, mode: Mode, cutoff: int, since: int, input: PassInput, t: Tally)
    ensures var done := VisitRepo(repo, mode, cutoff, since, input, t);
            done.complete ==> t.complete && !done.stopped && Answered(input, repo, cutoff, since)
  {
    var listing := ClosedPrs(input.pages(repo), cutoff, since);
    if listing.Some? {
      var pending := Pending(repo, listing.value, input.force, t.events);
      PendingStopsEarly(repo, pending, input, t.(skipped := t.skipped + |listing.value| - |pending|));
    }
  }

  /** So after a complete full pass no listed repository holds a row older than retention,
      and a pass that is not full, or did not read the repository, removes none of its rows. */
  lemma FullPassLeavesNothingOld(tables: Tables, span: int, input: PassInput, key: PrKey)
    requires key in RunPass(tables, span, input).events
    requires RecordedRow(tables, span, input).mode == Full && RecordedRow(tables, span, input).listingComplete
    requires key.repo in input.repos.value
    ensures input.now - span <= RunPass(tables, span, input).events[key]
  {
    var n := |input.repos.value|;
    assert input.repos.value[..n] == input.repos.value;
    var k :| 0 <= k < n && input.repos.value[k] == key.repo;
    CompleteReadsAll(tables, span, input, n, k);
    PassRemovesExactlyWhen(tables, span, input, key);
  }

  // -- the totals of a pass -------------------------------------------------------

  /** Stored and failed pull requests are the pending ones that were reached. */
  lemma {:induction false} StorePendingCounts(repo: string, pending: seq<Listed>, input: PassInput, t: Tally)
    ensures var done := StorePending(repo, pending, input, t);
            && done.skipped == t.skipped
            && done.stored + done.failed - t.stored - t.failed <= |pending|
            && (!done.stopped ==> done.stored + done.failed - t.stored - t.failed == |pending|)
  {
    if pending != [] && !t.stopped {
      StorePendingCounts(repo, pending[1..], input, StoreOne(repo, pending[0], input, t));
    }
  }

  /** Every pull request a repository lists is counted once, as stored, skipped or failed,
      unless the pass stopped in the middle, which the row says. */
  lemma VisitRepoCounts(repo: string, mode: Mode, cutoff: int, since: int, input: PassInput, t: Tally)
    requires ClosedPrs(input.pages(repo), cutoff, since).Some? && !t.stopped
    ensures var done := VisitRepo(repo, mode, cutoff, since, input, t);
            var listed := |ClosedPrs(input.pages(repo), cutoff, since).value|;
            var counted := done.stored + done.skipped + done.failed - t.stored - t.skipped - t.failed;
            && counted <= listed
            && (counted < listed ==> done.stopped && !done.complete)
  {
    var listing := ClosedPrs(input.pages(repo), cutoff, since).value;
    var pending := Pending(repo, listing, input.force, t.events);
    StorePendingCounts(repo, pending, input, t.(skipped := t.skipped + |listing| - |pending|));
  }

  lemma {:induction false} StorePendingLimit(repo: string, pending: seq<Listed>, input: PassInput, t: Tally)
    requires input.limit.Some? && (t.stopped || t.stored == 0 || t.stored < input.limit.value)
    requires t.stored <= Max(input.limit.value, 1)
    ensures var done := StorePending(repo, pending, input, t);
            && (done.stopped || done.stored == 0 || done.stored < input.limit.value)
            && done.stored <= Max(input.limit.value, 1)
  {
    if pending != [] && !t.stopped {
      StorePendingLimit(repo, pending[1..], input, StoreOne(repo, pending[0], input, t));
    }
  }

  lemma {:induction false} VisitReposLimit(repos: seq<string>, mode: Mode, cutoff: int, since: int, input: PassInput, t: Tally)
    requires input.limit.Some? && (t.stopped || t.stored == 0 || t.stored < input.limit.value)
    requires t.stored <= Max(input.limit.value, 1)
    ensures VisitRepos(repos, mode, cutoff, since, input, t).stored <= Max(input.limit.value, 1)
  {
    if repos != [] && !t.stopped {
      var listing := ClosedPrs(input.pages(repos[0]), cutoff, since);
      if listing.Some? {
        var pending := Pending(repos[0], listing.value, input.force, t.events);
        StorePendingLimit(repos[0], pending, input, t.(skipped := t.skipped + |listing.value| - |pending|));
      }
      VisitReposLimit(repos[1..], mode, cutoff, since, input, VisitRepo(repos[0], mode, cutoff, since, input, t));
    }
  }

  /** A pass stores at most its limit, over all repositories; a limit of zero still stores one. */
  lemma LimitIsKept(tables: Tables, span: int, input: PassInput)
    requires input.limit.Some?
    ensures FinalTally(tables, span, input).stored <= Max(input.limit.value, 1)
  {
    var (mode, since) := PlanPass(tables, span, input);
    var start := Tally(tables.events, 0, 0, 0, {}, {}, input.repos.Some?, input.repos.None?, false);
    VisitReposLimit(if input.repos.Some? then input.repos.value else [], mode, input.now - span, since, input, start);
  }

  // -- any history of passes ----------------------------------------------------

  /** The tables after some passes, and what those passes did: the window of every
      complete pass, the pull requests complete passes counted as failed, and the
      retention cutoffs full passes pruned with. */
  datatype History = History(tables: Tables, windows: set<(int, int)>, failed: set<PrKey>, cutoffs: set<int>)

  function Extend(h: History, span: int, input: PassInput): History {
    var row := RecordedRow(h.tables, span, input);
    var t := FinalTally(h.tables, span, input);
    History(RunPass(h.tables, span, input),
            if row.listingComplete then h.windows + {(row.windowFrom, row.windowTo)} else h.windows,
            if row.listingComplete then h.failed + t.failedKeys else h.failed,
            if row.mode == Full then h.cutoffs + {input.now - span} else h.cutoffs)
  }

  /** All passes, oldest first, over the same retention span, from an empty database. */
  function Replay(span: int, inputs: seq<PassInput>): History {
    if inputs == [] then History(Tables([], map[]), {}, {}, {})
    else Extend(Replay(span, Front(inputs)), span, Last(inputs))
  }

  predicate Covered(windows: set<(int, int)>, moment: int) {
    exists w :: w in windows && w.0 <= moment <= w.1
  }

  predicate NoGapUntil(windows: set<(int, int)>, span: int, coverage: Option<int>) {
    coverage.Some? ==> forall moment :: coverage.value - span <= moment <= coverage.value ==> Covered(windows, moment)
  }

  /** A pass moves the end of coverage forward, keeps it, or forgets it. */
  lemma PassCoverage(tables: Tables, span: int, input: PassInput)
    requires EndsAtRun(tables.log)
    ensures var row := RecordedRow(tables, span, input);
            var before, after := CoverageUntil(tables.log), CoverageUntil(RunPass(tables, span, input).log);
            && EndsAtRun(RunPass(tables, span, input).log)
            && after in {None, before, Some(input.now)}
            && (after.Some? && before.Some? ==> before.value <= after.value)
            && (after.Some? && after != before ==> row.listingComplete)
            && (after.Some? && row.listingComplete ==> input.now <= after.value)
  {
    var log := tables.log + [RecordedRow(tables, span, input)];
    CoverageIsLatest(tables.log);
    CoverageIsLatest(log);
    PruneKeepsOrForgetsCoverage(log, input.now - span);
    if CoverageUntil(tables.log).Some? {
      var j :| 0 <= j < |tables.log| && tables.log[j].listingComplete && tables.log[j].ranAt == CoverageUntil(tables.log).value;
      assert log[j] == tables.log[j];
    }
    assert Last(log) == log[|tables.log|];
  }

  lemma ExtendKeepsNoGap(h: History, span: int, input: PassInput)
    requires EndsAtRun(h.tables.log) && NoGapUntil(h.windows, span, CoverageUntil(h.tables.log))
    ensures var next := Extend(h, span, input);
            EndsAtRun(next.tables.log) && NoGapUntil(next.windows, span, CoverageUntil(next.tables.log))
  {
    var next := Extend(h, span, input);
    var row := RecordedRow(h.tables, span, input);
    var before, after := CoverageUntil(h.tables.log), CoverageUntil(next.tables.log);
    PassCoverage(h.tables, span, input);
    if after.Some? {
      forall moment | after.value - span <= moment <= after.value ensures Covered(next.windows, moment) {
        if after != before && row.windowFrom <= moment {
          assert (row.windowFrom, row.windowTo) in next.windows;
        } else {
          assert Covered(h.windows, moment);
          var w :| w in h.windows && w.0 <= moment <= w.1;
          assert w in next.windows;
        }
      }
    }
  }

  /** Whatever passes ran, in whatever order and on whatever clock, the windows of
      the complete ones cover the whole retention span behind the end of coverage. */
  lemma {:induction false} NoGap(span: int, inputs: seq<PassInput>)
    ensures EndsAtRun(Replay(span, inputs).tables.log)
    ensures NoGapUntil(Replay(span, inputs).windows, span, CoverageUntil(Replay(span, inputs).tables.log))
  {
    if inputs != [] {
      NoGap(span, Front(inputs));
      ExtendKeepsNoGap(Replay(span, Front(inputs)), span, Last(inputs));
    }
  }

  function CoverageAfter(span: int, inputs: seq<PassInput>): Option<int> {
    CoverageUntil(Replay(span, inputs).tables.log)
  }

  predicate PassesForward(inputs: seq<PassInput>) {
    forall i, j :: 0 <= i < j < |inputs| ==> inputs[i].now <= inputs[j].now
  }

  /** On a clock that is never set back, coverage never lies ahead of the last pass. */
  lemma {:induction false} CoverageIsInThePast(span: int, inputs: seq<PassInput>)
    requires PassesForward(inputs) && CoverageAfter(span, inputs).Some?
    ensures inputs != [] && CoverageAfter(span, inputs).value <= Last(inputs).now
  {
    if inputs != [] {
      var front := Front(inputs);
      NoGap(span, front);
      PassCoverage(Replay(span, front).tables, span, Last(inputs));
      if CoverageAfter(span, front).Some? {
        CoverageIsInThePast(span, front);
      }
    }
  }

  /** Then coverage never moves back: whatever passes follow, and even if it was forgotten
      in between, it is where it was or later whenever there is one. */
  lemma {:induction false} CoverageNeverMovesBack(span: int, inputs: seq<PassInput>, m: nat)
    requires PassesForward(inputs) && m <= |inputs|
    requires CoverageAfter(span, inputs[..m]).Some? && CoverageAfter(span, inputs).Some?
    ensures CoverageAfter(span, inputs[..m]).value <= CoverageAfter(span, inputs).value
    decreases |inputs|
  {
    if m == |inputs| {
      assert inputs[..m] == inputs;
    } else {
      var front, last := Front(inputs), Last(inputs);
      assert front[..m] == inputs[..m];
      CoverageIsInThePast(span, inputs[..m]);
      assert inputs[m - 1].now <= last.now;
      NoGap(span, front);
      PassCoverage(Replay(span, front).tables, span, last);
      if CoverageAfter(span, front).Some? {
        CoverageNeverMovesBack(span, front, m);
      }
    }
  }

  // -- nothing that ended in a covered window is lost -----------------------------

  /** What GitHub shows of one pull request that ended at `end`: from then on every
      listing of its repository has it, updated no earlier than it ended, and the
      organisation listing names the repository. */
  ghost predicate Shows(input: PassInput, key: PrKey, end: int) {
    var pages := input.pages(key.repo);
    && NewestUpdateFirst(pages)
    && (forall p :: 0 <= p < |pages| ==> ListedWithEnd(pages[p].prs, key.number, end))
    && (end <= input.now ==> exists pr :: OnPages(pages, pr) && pr.number == key.number && pr.ended == Some(end)
                                          && pr.updated.Some? && end <= pr.updated.value)
    && (input.repos.Some? && !input.filtered ==> key.repo in input.repos.value)
  }

  ghost predicate Accounted(h: History, key: PrKey, end: int) {
    && StoredWithEnd(h.tables.events, key, end)
    && (Covered(h.windows, end) && (forall cutoff :: cutoff in h.cutoffs ==> cutoff <= end) ==>
          key in h.tables.events || key in h.failed)
  }

  lemma ExtendKeepsAccounted(h: History, span: int, input: PassInput, key: PrKey, end: int)
    requires Shows(input, key, end) && Accounted(h, key, end)
    ensures (forall cutoff :: cutoff in Extend(h, span, input).cutoffs ==> cutoff <= end) ==>
              Accounted(Extend(h, span, input), key, end)
  {
    var next := Extend(h, span, input);
    if exists cutoff :: cutoff in next.cutoffs && end < cutoff {
      return;
    }
    var (mode, since) := PlanPass(h.tables, span, input);
    var cutoff := input.now - span;
    assert mode == Full ==> cutoff in next.cutoffs;
    var repos := if input.repos.Some? then input.repos.value else [];
    var start := Tally(h.tables.events, 0, 0, 0, {}, {}, input.repos.Some?, input.repos.None?, false);
    VisitReposKeeps(repos, mode, cutoff, since, input, start, key, end);
    var t := VisitRepos(repos, mode, cutoff, since, input, start);
    assert next.tables.events == t.events;
    if Covered(next.windows, end) && !Covered(h.windows, end) {
      assert since <= end <= input.now;
      assert cutoff <= since;
      var pr :| OnPages(input.pages(key.repo), pr) && pr.number == key.number && pr.ended == Some(end)
                && pr.updated.Some? && end <= pr.updated.value;
      assert ShowsRecent(input.pages(key.repo), key.number, cutoff, since);
      assert Known(t, key);
    }
    if Covered(h.windows, end) {
      assert forall c :: c in h.cutoffs ==> c in next.cutoffs;
    }
  }

  lemma {:induction false} ReplayAccounts(span: int, inputs: seq<PassInput>, key: PrKey, end: int)
    requires forall i :: 0 <= i < |inputs| ==> Shows(inputs[i], key, end)
    ensures (forall cutoff :: cutoff in Replay(span, inputs).cutoffs ==> cutoff <= end) ==>
              Accounted(Replay(span, inputs), key, end)
  {
    if inputs != [] && forall cutoff :: cutoff in Replay(span, inputs).cutoffs ==> cutoff <= end {
      var h := Replay(span, Front(inputs));
      assert h.cutoffs <= Replay(span, inputs).cutoffs;
      ReplayAccounts(span, Front(inputs), key, end);
      ExtendKeepsAccounted(h, span, Last(inputs), key, end);
    }
  }

  /** The promise of the backfill: a pull request that ended in the retention span
      behind the end of coverage, and after every cutoff a full pass pruned with, is
      stored, or a complete pass listed it and counted it as failed. */
  lemma CoveredPullRequestsAreAccountedFor(span: int, inputs: seq<PassInput>, key: PrKey, end: int)
    requires forall i :: 0 <= i < |inputs| ==> Shows(inputs[i], key, end)
    requires var coverage := CoverageUntil(Replay(span, inputs).tables.log);
             coverage.Some? && coverage.value - span <= end <= coverage.value
    requires forall cutoff :: cutoff in Replay(span, inputs).cutoffs ==> cutoff <= end
    ensures key in Replay(span, inputs).tables.events || key in Replay(span, inputs).failed
  {
    NoGap(span, inputs);
    ReplayAccounts(span, inputs, key, end);
  }
}

/** One polling cycle of workflow-exporter.py: the active list, the two ways a finished
    run is found, and what a cycle can lose. */
module ActiveRuns {
  import opened Common
  import opened Sequences
  import opened JobHistory

  /** A run object as GitHub returns it. */
  datatype Run = Run(id: int, attempt: int, completed: bool, ignored: bool, payload: string)

  /** One suite of a pull-request-flow run; its row takes the id of its test job. */
  datatype Suite = Suite(jobId: int, payload: string)

  /** A run object, and what would follow it: the answer of the job-details fetch, None
      when it fails or processing raises before the run's row is stored, and the suite at
      which processing raises after that. */
  datatype Seen = Seen(run: Run, details: Option<seq<Suite>>, raisesAt: Option<nat>)

  /** An entry of the active list; a suite entry carries a job id. */
  datatype Entry = Entry(id: int, suite: bool)

  /** A request that raises is told from one that is refused: a refused count reads 0. */
  datatype CountAnswer = CountRaised | CountRead(n: nat)
  datatype ActiveAnswer = ActiveRaised | ActiveFetched(entries: seq<Entry>, complete: bool)

  /** `recent` ends where processing raised, if it did. */
  datatype RepoAnswers = RepoAnswers(
    queued: CountAnswer, inProgress: CountAnswer, active: ActiveAnswer, recent: seq<Seen>)

  /** Everything GitHub answers during one cycle; an id without a lookup got no answer. */
  datatype Answers = Answers(pruned: set<int>, repos: seq<RepoAnswers>, lookups: map<int, Seen>)

  /** The exporter's own state, plus what happened to the table so far and the runs the
      catch-up handed over as completed in the last cycle. A re-run keeps its run id, so
      the hand-overs of earlier cycles say nothing about it. */
  datatype State = State(table: Table, active: seq<Entry>, counter: nat, history: seq<Event>, handed: set<int>)

  const INITIAL := State(map[], [], 0, [], {})

  // -- processing one completed run ---------------------------------------------

  function Offer(s: State, row: Row, uncounted: bool): State {
    s.(table := Upsert(s.table, row),
       counter := s.counter + (if Accepts(s.table, row) && !uncounted then 1 else 0),
       history := s.history + [Offered(row, uncounted)])
  }

  /** Retention removes rows at the start of a cycle. */
  function Retain(s: State, pruned: set<int>): State {
    s.(table := s.table - pruned, history := s.history + [Pruned(pruned)], handed := {})
  }

  function RowOf(run: Run): Row {
    Row(run.id, run.attempt, run.completed, run.payload)
  }

  /** A suite row exists only with a result. */
  function SuiteRow(run: Run, suite: Suite): Row {
    Row(suite.jobId, run.attempt, true, suite.payload)
  }

  function OfferSuites(s: State, run: Run, suites: seq<Suite>): State {
    if suites == [] then s
    else Offer(OfferSuites(s, run, Front(suites)), SuiteRow(run, Last(suites)), false)
  }

  /** The suites that are stored: all of them, or those before the one that raises. */
  function Reached(seen: Seen): (suites: seq<Suite>)
    requires seen.details.Some?
    ensures suites <= seen.details.value
  {
    var all := seen.details.value;
    if seen.raisesAt.Some? && seen.raisesAt.value < |all| then all[..seen.raisesAt.value] else all
  }

  /** The run's row, then its suites, then the counter: a raise in between leaves a stored
      row that is never counted. */
  function Process(s: State, seen: Seen): State {
    if seen.run.ignored || !NeedsUpsert(s.table, seen.run.id, seen.run.attempt) || seen.details == None then s
    else OfferSuites(Offer(s, RowOf(seen.run), seen.raisesAt.Some?), seen.run, Reached(seen))
  }

  function ProcessAll(s: State, seen: seq<Seen>): State {
    if seen == [] then s else Process(ProcessAll(s, Front(seen)), Last(seen))
  }

  // -- one cycle ------------------------------------------------------------------

  /** What the repositories' loop accumulates. */
  datatype Visit = Visit(s: State, current: seq<Entry>, complete: bool)

  predicate Counted(r: RepoAnswers) {
    r.queued.CountRead? && r.inProgress.CountRead?
  }

  /** A repository with no active run, as far as the counts say, is not fetched. */
  predicate Fetches(r: RepoAnswers) {
    Counted(r) && (r.queued.n > 0 || r.inProgress.n > 0)
  }

  function VisitRepo(v: Visit, r: RepoAnswers): Visit {
    if !Counted(r) then v
    else
      var current := if Fetches(r) && r.active.ActiveFetched? then v.current + r.active.entries else v.current;
      var complete := v.complete && (Fetches(r) ==> r.active.ActiveFetched? && r.active.complete);
      Visit(ProcessAll(v.s, r.recent), current, complete)
  }

  function VisitRepos(v: Visit, repos: seq<RepoAnswers>): Visit {
    if repos == [] then v else VisitRepo(VisitRepos(v, Front(repos)), Last(repos))
  }

  function Ids(entries: seq<Entry>): set<int> {
    set e | e in entries :: e.id
  }

  /** The runs a list tracks: its suite entries are not runs. */
  function Tracked(entries: seq<Entry>): set<int> {
    set e | e in entries && !e.suite :: e.id
  }

  /** The tracked ids in order of first appearance, each once. */
  function TrackedOrder(entries: seq<Entry>): (ids: seq<int>)
    ensures forall id :: id in ids <==> id in Tracked(entries)
    ensures Distinct(ids)
  {
    if entries == [] then []
    else
      var ids, e := TrackedOrder(Front(entries)), Last(entries);
      assert entries == Front(entries) + [e];
      if e.suite || e.id in ids then ids else ids + [e.id]
  }

  /** One dropped run: looked up by its id, then re-tracked or processed. */
  function CatchUpOne(v: Visit, still: set<int>, lookups: map<int, Seen>, id: int): Visit {
    if id in still || id !in lookups then v
    else if !lookups[id].run.completed then v.(current := v.current + [Entry(lookups[id].run.id, false)])
    else v.(s := Process(v.s, lookups[id]).(handed := v.s.handed + {id}))
  }

  function CatchUp(v: Visit, still: set<int>, lookups: map<int, Seen>, ids: seq<int>): Visit {
    if ids == [] then v
    else CatchUpOne(CatchUp(v, still, lookups, Front(ids)), still, lookups, Last(ids))
  }

  function Polled(s: State, a: Answers): Visit {
    VisitRepos(Visit(Retain(s, a.pruned), [], true), a.repos)
  }

  function Cycle(s: State, a: Answers): State {
    var v := Polled(s, a);
    var w := if v.complete then CatchUp(v, Ids(v.current), a.lookups, TrackedOrder(s.active)) else v;
    w.s.(active := w.current)
  }

  function Cycles(answers: seq<Answers>): State {
    if answers == [] then INITIAL else Cycle(Cycles(Front(answers)), Last(answers))
  }

  /** The folds over one element, and over one more cycle. */
  lemma Single(v: Visit, r: RepoAnswers, s: State, seen: Seen, still: set<int>, lookups: map<int, Seen>, id: int)
    ensures VisitRepos(v, [r]) == VisitRepo(v, r)
    ensures ProcessAll(s, [seen]) == Process(s, seen)
    ensures CatchUp(v, still, lookups, [id]) == CatchUpOne(v, still, lookups, id)
    ensures TrackedOrder([Entry(id, false)]) == [id] && Tracked([Entry(id, false)]) == {id}
  {
    assert Front([r]) == [] && Front([seen]) == [] && Front([id]) == [];
    assert Front([Entry(id, false)]) == [];
    assert Entry(id, false) in [Entry(id, false)];
  }

  lemma OneMoreCycle(answers: seq<Answers>, a: Answers)
    ensures Cycles(answers + [a]) == Cycle(Cycles(answers), a)
  {
    assert Front(answers + [a]) == answers;
  }

  // -- what a cycle loses -----------------------------------------------------------

  lemma {:induction false} ProcessKeepsHanded(s: State, seen: seq<Seen>)
    ensures ProcessAll(s, seen).handed == s.handed
  {
    if seen != [] {
      ProcessKeepsHanded(s, Front(seen));
      var before, last := ProcessAll(s, Front(seen)), Last(seen);
      if last.details.Some? {
        SuitesKeepHanded(Offer(before, RowOf(last.run), last.raisesAt.Some?), last.run, Reached(last));
      }
    }
  }

  lemma {:induction false} SuitesKeepHanded(s: State, run: Run, suites: seq<Suite>)
    ensures OfferSuites(s, run, suites).handed == s.handed
  {
    if suites != [] {
      SuitesKeepHanded(s, run, Front(suites));
    }
  }

  lemma {:induction false} VisitKeepsHanded(v: Visit, repos: seq<RepoAnswers>)
    ensures VisitRepos(v, repos).s.handed == v.s.handed
  {
    if repos != [] {
      VisitKeepsHanded(v, Front(repos));
      ProcessKeepsHanded(VisitRepos(v, Front(repos)).s, Last(repos).recent);
    }
  }

  /** Each lookup answers with the run that was asked for. */
  ghost predicate Faithful(lookups: map<int, Seen>) {
    forall id :: id in lookups ==> lookups[id].run.id == id
  }

  /** What the catch-up does with one id. */
  lemma {:induction false} CatchUpSorts(v: Visit, still: set<int>, lookups: map<int, Seen>, ids: seq<int>, id: int)
    requires Faithful(lookups)
    ensures var w, dropped := CatchUp(v, still, lookups, ids), id in ids && id !in still && id in lookups;
            && (id in Tracked(w.current) <==>
                id in Tracked(v.current) || (dropped && !lookups[id].run.completed))
            && (id in w.s.handed <==> id in v.s.handed || (dropped && lookups[id].run.completed))
  {
    if ids == [] {
      return;
    }
    var front, last := Front(ids), Last(ids);
    assert ids == front + [last];
    CatchUpSorts(v, still, lookups, front, id);
    var u, w := CatchUp(v, still, lookups, front), CatchUp(v, still, lookups, ids);
    if last !in still && last in lookups && !lookups[last].run.completed {
      assert w.current == u.current + [Entry(last, false)];
      assert Tracked(w.current) == Tracked(u.current) + {last};
    }
  }

  /** A cycle hands over exactly the tracked runs that its complete fetches no longer list
      and that their lookups report as completed. */
  lemma HandedExactlyWhen(s: State, a: Answers, id: int)
    requires Faithful(a.lookups)
    ensures var v := Polled(s, a);
            id in Cycle(s, a).handed <==>
            && v.complete && id in Tracked(s.active) && id !in Ids(v.current)
            && id in a.lookups && a.lookups[id].run.completed
  {
    var v := Polled(s, a);
    VisitKeepsHanded(Visit(Retain(s, a.pruned), [], true), a.repos);
    CatchUpSorts(v, Ids(v.current), a.lookups, TrackedOrder(s.active), id);
  }

  /** A tracked run leaves the active list without being handed over in that cycle, as a
      re-run too, exactly when the cycle's fetches were incomplete and missed it, or its
      lookup failed, or only a suite entry with the same id was listed. A count that
      wrongly reads 0, or raises, is not on the list. */
  lemma LostExactlyWhen(s: State, a: Answers, id: int)
    requires id in Tracked(s.active) && Faithful(a.lookups)
    ensures var v, after := Polled(s, a), Cycle(s, a);
            id !in Tracked(after.active) && id !in after.handed <==>
            && id !in Tracked(v.current)
            && (!v.complete || id in Ids(v.current) || id !in a.lookups)
  {
    var v := Polled(s, a);
    VisitKeepsHanded(Visit(Retain(s, a.pruned), [], true), a.repos);
    CatchUpSorts(v, Ids(v.current), a.lookups, TrackedOrder(s.active), id);
  }

  /** Both counts were read, and they say that runs are left to fetch. */
  predicate RunsLeft(r: RepoAnswers) {
    r.queued.CountRead? && r.inProgress.CountRead? && 0 < r.queued.n + r.inProgress.n
  }

  /** What a cycle lists: the entries of every repository that was counted, had active
      runs by that count and answered; and whether each fetch that ran was complete. */
  lemma {:induction false} PolledExactly(v: Visit, repos: seq<RepoAnswers>, e: Entry)
    ensures var after := VisitRepos(v, repos);
            && (e in after.current <==>
                e in v.current || exists r :: r in repos && RunsLeft(r) && r.active.ActiveFetched? && e in r.active.entries)
            && (after.complete <==>
                v.complete && forall r :: r in repos && RunsLeft(r) ==> r.active.ActiveFetched? && r.active.complete)
  {
    if repos != [] {
      assert repos == Front(repos) + [Last(repos)];
      PolledExactly(v, Front(repos), e);
    }
  }

  /** A cycle whose fetches are complete and whose lookups answer; suite entries never
      carry the id of a tracked run. */
  ghost predicate Good(s: State, a: Answers) {
    var v := Polled(s, a);
    && v.complete
    && Faithful(a.lookups)
    && (forall id :: id in Tracked(s.active) && id !in Ids(v.current) ==> id in a.lookups)
    && (forall e :: e in v.current && e.suite ==> e.id !in Tracked(s.active))
  }

  /** Every cycle after the first `from` is good. */
  ghost predicate GoodFrom(answers: seq<Answers>, from: nat) {
    forall n :: from <= n < |answers| ==> Good(Cycles(answers[..n]), answers[n])
  }

  /** Cycle n handed the run over. */
  predicate HandedBy(answers: seq<Answers>, n: int, id: int) {
    0 <= n < |answers| && id in Cycles(answers[..n + 1]).handed
  }

  /** Some cycle since `from` handed the run over. */
  ghost predicate HandedSince(answers: seq<Answers>, from: nat, id: int) {
    exists n :: from <= n && HandedBy(answers, n, id)
  }

  lemma HandedSinceGrows(answers: seq<Answers>, from: nat, id: int)
    requires answers != [] && HandedSince(Front(answers), from, id)
    ensures HandedSince(answers, from, id)
  {
    var n :| from <= n && HandedBy(Front(answers), n, id);
    assert Front(answers)[..n + 1] == answers[..n + 1];
    assert HandedBy(answers, n, id);
  }

  /** Over any series of good cycles a run that is tracked at some point is still tracked at
      the end, or a cycle since that point handed it over as completed. The point may be
      after earlier hand-overs, so this holds of every attempt anew. */
  lemma {:induction false} NothingIsLost(answers: seq<Answers>, from: nat, id: int)
    requires from <= |answers| && GoodFrom(answers, from)
    requires id in Tracked(Cycles(answers[..from]).active)
    ensures id in Tracked(Cycles(answers).active) || HandedSince(answers, from, id)
    decreases |answers|
  {
    if from == |answers| {
      assert answers[..from] == answers;
      return;
    }
    var front, last := Front(answers), Last(answers);
    assert front[..from] == answers[..from];
    assert forall n :: 0 <= n < |front| ==> front[..n] == answers[..n];
    NothingIsLost(front, from, id);
    if HandedSince(front, from, id) {
      HandedSinceGrows(answers, from, id);
    } else {
      assert answers[..|front|] == front;
      TrackedOrHanded(Cycles(front), last, id);
      HandedLast(answers, from, id);
    }
  }

  lemma HandedLast(answers: seq<Answers>, from: nat, id: int)
    requires from < |answers|
    ensures id in Cycles(answers).handed ==> HandedSince(answers, from, id)
  {
    assert answers[..|answers| - 1 + 1] == answers;
    if id in Cycles(answers).handed {
      assert HandedBy(answers, |answers| - 1, id);
    }
  }

  lemma TrackedOrHanded(s: State, a: Answers, id: int)
    requires Good(s, a) && id in Tracked(s.active)
    ensures id in Tracked(Cycle(s, a).active) || id in Cycle(s, a).handed
  {
    LostExactlyWhen(s, a, id);
    var v := Polled(s, a);
    if id in Ids(v.current) {
      var e :| e in v.current && e.id == id;
      assert !e.suite;
    }
  }

  /** The comment on the catch-up gate says a skipped catch-up is retried in the next
      cycle. It is not: the partial list replaces the active list, so a run the partial
      list misses is forgotten although every later cycle is good. */
  lemma IncompleteFetchForgets() returns (s: State, missed: Answers, good: Answers)
    ensures Tracked(s.active) == {7} && Good(Cycle(s, missed), good)
    ensures var after := Cycle(Cycle(s, missed), good);
            7 !in Tracked(after.active) && 7 !in after.handed && 7 !in after.table
  {
    s := INITIAL.(active := [Entry(7, false)]);
    var repo := RepoAnswers(CountRead(1), CountRead(0), ActiveFetched([], false), []);
    var finished := Seen(Run(7, 1, true, false, "done"), Some([]), None);
    missed := Answers({}, [repo], map[7 := finished]);
    good := Answers({}, [repo.(active := ActiveFetched([], true))], map[7 := finished]);
    Single(Visit(Retain(s, {}), [], true), repo, s, finished, {}, map[], 7);
    assert Polled(s, missed).current == [] && !Polled(s, missed).complete;
    var s1 := Cycle(s, missed);
    assert s1.active == [] && s1.table == map[] && s1.handed == {};
    Single(Visit(Retain(s1, {}), [], true), good.repos[0], s, finished, {}, map[], 7);
    assert Polled(s1, good).current == [] && Polled(s1, good).complete;
  }

  // -- what is stored -----------------------------------------------------------------

  ghost predicate AllCompleted(table: Table) {
    forall id :: id in table ==> table[id].completed
  }

  /** The completed-runs list holds completed runs. */
  ghost predicate ListsCompleted(a: Answers) {
    forall r, seen :: r in a.repos && seen in r.recent ==> seen.run.completed
  }

  lemma ProcessStoresCompleted(s: State, seen: Seen)
    requires AllCompleted(s.table) && seen.run.completed
    ensures AllCompleted(Process(s, seen).table)
  {
    if seen.details.Some? {
      var t := Offer(s, RowOf(seen.run), seen.raisesAt.Some?);
      SuitesStoreCompleted(t, seen.run, Reached(seen));
    }
  }

  lemma {:induction false} SuitesStoreCompleted(s: State, run: Run, suites: seq<Suite>)
    requires AllCompleted(s.table)
    ensures AllCompleted(OfferSuites(s, run, suites).table)
  {
    if suites != [] {
      SuitesStoreCompleted(s, run, Front(suites));
    }
  }

  lemma {:induction false} RecentStoresCompleted(s: State, seen: seq<Seen>)
    requires AllCompleted(s.table) && forall x :: x in seen ==> x.run.completed
    ensures AllCompleted(ProcessAll(s, seen).table)
  {
    if seen != [] {
      assert seen == Front(seen) + [Last(seen)];
      RecentStoresCompleted(s, Front(seen));
      ProcessStoresCompleted(ProcessAll(s, Front(seen)), Last(seen));
    }
  }

  lemma {:induction false} VisitStoresCompleted(v: Visit, repos: seq<RepoAnswers>)
    requires AllCompleted(v.s.table) && forall r, x :: r in repos && x in r.recent ==> x.run.completed
    ensures AllCompleted(VisitRepos(v, repos).s.table)
  {
    if repos != [] {
      assert repos == Front(repos) + [Last(repos)];
      VisitStoresCompleted(v, Front(repos));
      RecentStoresCompleted(VisitRepos(v, Front(repos)).s, Last(repos).recent);
    }
  }

  lemma {:induction false} CatchUpStoresCompleted(v: Visit, still: set<int>, lookups: map<int, Seen>, ids: seq<int>)
    requires AllCompleted(v.s.table)
    ensures AllCompleted(CatchUp(v, still, lookups, ids).s.table)
  {
    if ids != [] {
      CatchUpStoresCompleted(v, still, lookups, Front(ids));
      var u, id := CatchUp(v, still, lookups, Front(ids)), Last(ids);
      if id !in still && id in lookups && lookups[id].run.completed {
        ProcessStoresCompleted(u.s, lookups[id]);
      }
    }
  }

  /** No history row is ever written for a run that is not completed, whatever fails. */
  lemma {:induction false} OnlyCompletedRunsAreStored(answers: seq<Answers>)
    requires forall a :: a in answers ==> ListsCompleted(a)
    ensures AllCompleted(Cycles(answers).table)
  {
    if answers != [] {
      var front, a := Front(answers), Last(answers);
      assert answers == front + [a];
      assert ListsCompleted(a);
      OnlyCompletedRunsAreStored(front);
      var s := Cycles(front);
      VisitStoresCompleted(Visit(Retain(s, a.pruned), [], true), a.repos);
      var v := Polled(s, a);
      CatchUpStoresCompleted(v, Ids(v.current), a.lookups, TrackedOrder(s.active));
    }
  }

  // -- the table is the replay of its history ---------------------------------------------

  /** Table and counter are functions of what happened to the table. */
  ghost predicate Folded(s: State) {
    s.table == Replay(s.history) && s.counter == Counter(s.history)
  }

  /** A step keeps the fold and removes no row. */
  ghost predicate KeepsFold(before: State, after: State) {
    && (Folded(before) ==> Folded(after))
    && forall id :: NeverPruned(before.history, id) ==> NeverPruned(after.history, id)
  }

  lemma OfferFolds(s: State, row: Row, uncounted: bool)
    ensures KeepsFold(s, Offer(s, row, uncounted))
  {
    var history := s.history + [Offered(row, uncounted)];
    assert Front(history) == s.history && Last(history) == Offered(row, uncounted);
    assert history[..|s.history|] == s.history;
    forall id | NeverPruned(s.history, id) ensures NeverPruned(history, id) {
      forall p | 0 <= p < |history| ensures !Prunes(history[p], id) {
        assert p < |s.history| ==> history[p] == s.history[p];
      }
    }
  }

  lemma RetainFolds(s: State, pruned: set<int>)
    requires Folded(s)
    ensures Folded(Retain(s, pruned))
    ensures forall id :: id !in pruned && NeverPruned(s.history, id) ==> NeverPruned(Retain(s, pruned).history, id)
  {
    var history := s.history + [Pruned(pruned)];
    assert Front(history) == s.history && Last(history) == Pruned(pruned);
    forall id | id !in pruned && NeverPruned(s.history, id) ensures NeverPruned(history, id) {
      forall p | 0 <= p < |history| ensures !Prunes(history[p], id) {
        assert p < |s.history| ==> history[p] == s.history[p];
      }
    }
  }

  lemma {:induction false} SuitesFold(s: State, run: Run, suites: seq<Suite>)
    ensures KeepsFold(s, OfferSuites(s, run, suites))
  {
    if suites != [] {
      SuitesFold(s, run, Front(suites));
      OfferFolds(OfferSuites(s, run, Front(suites)), SuiteRow(run, Last(suites)), false);
    }
  }

  lemma ProcessFolds(s: State, seen: Seen)
    ensures KeepsFold(s, Process(s, seen))
  {
    if seen.details.Some? {
      OfferFolds(s, RowOf(seen.run), seen.raisesAt.Some?);
      SuitesFold(Offer(s, RowOf(seen.run), seen.raisesAt.Some?), seen.run, Reached(seen));
    }
  }

  lemma {:induction false} ProcessAllFolds(s: State, seen: seq<Seen>)
    ensures KeepsFold(s, ProcessAll(s, seen))
  {
    if seen != [] {
      ProcessAllFolds(s, Front(seen));
      ProcessFolds(ProcessAll(s, Front(seen)), Last(seen));
    }
  }

  lemma {:induction false} VisitFolds(v: Visit, repos: seq<RepoAnswers>)
    ensures KeepsFold(v.s, VisitRepos(v, repos).s)
  {
    if repos != [] {
      VisitFolds(v, Front(repos));
      ProcessAllFolds(VisitRepos(v, Front(repos)).s, Last(repos).recent);
    }
  }

  lemma {:induction false} CatchUpFolds(v: Visit, still: set<int>, lookups: map<int, Seen>, ids: seq<int>)
    ensures KeepsFold(v.s, CatchUp(v, still, lookups, ids).s)
  {
    if ids != [] {
      CatchUpFolds(v, still, lookups, Front(ids));
      var u, id := CatchUp(v, still, lookups, Front(ids)), Last(ids);
      if id in lookups {
        ProcessFolds(u.s, lookups[id]);
      }
    }
  }

  lemma CycleFolds(s: State, a: Answers)
    requires Folded(s)
    ensures Folded(Cycle(s, a))
    ensures forall id :: id !in a.pruned && NeverPruned(s.history, id) ==> NeverPruned(Cycle(s, a).history, id)
  {
    RetainFolds(s, a.pruned);
    VisitFolds(Visit(Retain(s, a.pruned), [], true), a.repos);
    var v := Polled(s, a);
    CatchUpFolds(v, Ids(v.current), a.lookups, TrackedOrder(s.active));
  }

  /** Over any cycles, pruning and raising ones included, and however the two discovery
      paths interleave, the table is the replay of its history and the counter counts it,
      so everything proved about JobHistory holds of the exporter. */
  lemma {:induction false} TableIsTheReplayOfItsHistory(answers: seq<Answers>)
    ensures Folded(Cycles(answers))
    ensures Cycles(answers).counter == |CountedSet(Cycles(answers).history)|
    ensures forall id :: (forall a :: a in answers ==> id !in a.pruned) ==> NeverPruned(Cycles(answers).history, id)
  {
    if answers != [] {
      var front, a := Front(answers), Last(answers);
      assert answers == front + [a];
      TableIsTheReplayOfItsHistory(front);
      CycleFolds(Cycles(front), a);
    }
    CounterCountsAccepted(Cycles(answers).history);
  }

  /** New suites: each with a job id of its own that neither the run nor the table has. */
  predicate NewSuites(table: Table, run: Run, suites: seq<Suite>) {
    && (forall x :: x in suites ==> x.jobId != run.id && x.jobId !in table)
    && forall i, j :: 0 <= i < j < |suites| ==> suites[i].jobId != suites[j].jobId
  }

  lemma {:induction false} EachSuiteCounts(s: State, run: Run, suites: seq<Suite>)
    requires forall x :: x in suites ==> x.jobId !in s.table
    requires forall i, j :: 0 <= i < j < |suites| ==> suites[i].jobId != suites[j].jobId
    ensures var after := OfferSuites(s, run, suites);
            after.counter == s.counter + |suites| && after.table.Keys == s.table.Keys + set x | x in suites :: x.jobId
  {
    if suites != [] {
      var front, last := Front(suites), Last(suites);
      assert suites == front + [last];
      EachSuiteCounts(s, run, front);
      assert last.jobId !in OfferSuites(s, run, front).table;
    }
  }

  /** What one accepted run adds to the counter: one for each of its new suites up to the one
      at which processing raises, and one for itself unless it raises. */
  lemma AcceptedRunCounts(s: State, seen: Seen)
    requires !seen.run.ignored && seen.details.Some? && Accepts(s.table, RowOf(seen.run))
    requires NewSuites(s.table, seen.run, seen.details.value)
    ensures var suites := |seen.details.value|;
            Process(s, seen).counter - s.counter ==
            if seen.raisesAt.Some? then Min(seen.raisesAt.value, suites) else suites + 1
  {
    var offered := Offer(s, RowOf(seen.run), seen.raisesAt.Some?);
    var suites := Reached(seen);
    assert suites <= seen.details.value;
    EachSuiteCounts(offered, seen.run, suites);
  }

  /** It is safe to process the same run object twice, as when both discovery paths find it
      in one cycle: the second time changes nothing, neither table nor counter. */
  lemma ProcessingTwiceIsOnce(s: State, seen: Seen)
    requires NoSuiteTakes(seen, seen.run.id)
    ensures Process(Process(s, seen), seen) == Process(s, seen)
  {
    ProcessedIsStoredExactlyWhen(s, seen, seen.run.id, seen.run.attempt);
  }

  /** For a run that no cycle prunes the table is the upsert of all rows ever offered,
      whatever the cycles prune of the others. */
  lemma UnprunedRunIsTheFoldOfItsRows(answers: seq<Answers>, id: int)
    requires forall a :: a in answers ==> id !in a.pruned
    ensures var s, all := Cycles(answers), UpsertAll(map[], OfferedRows(Cycles(answers).history));
            (id in s.table <==> id in all) && (id in all ==> s.table[id] == all[id])
  {
    TableIsTheReplayOfItsHistory(answers);
    UnprunedRunKeepsItsFold(Cycles(answers).history, id);
  }

  /** A run that no cycle prunes is counted at most once for each attempt. */
  lemma CountedAtMostOnce(answers: seq<Answers>, m: int, n: int)
    requires var history := Cycles(answers).history;
             && 0 <= m < n < |history| && CountedAt(history, m) && CountedAt(history, n)
             && forall a :: a in answers ==> history[n].row.id !in a.pruned
    ensures var history := Cycles(answers).history;
            (history[m].row.id, history[m].row.attempt) != (history[n].row.id, history[n].row.attempt)
  {
    TableIsTheReplayOfItsHistory(answers);
    EachAttemptCountsOnce(Cycles(answers).history, m, n);
  }

  /** With pruning it can happen twice, exactly as JobHistory.CountsTwiceExactlyWhen says:
      an old run is pruned and the catch-up or the completed list brings it back. */
  lemma PrunedRunIsCountedAgain() returns (first: Answers, second: Answers)
    ensures var row := Offered(Row(7, 1, true, "done"), false);
            Cycles([first, second]).history == [Pruned({}), row, Pruned({7}), row]
    ensures Cycles([first, second]).counter == 2
  {
    var seen := Seen(Run(7, 1, true, false, "done"), Some([]), None);
    var repo := RepoAnswers(CountRead(0), CountRead(0), ActiveRaised, [seen]);
    first := Answers({}, [repo], map[]);
    second := Answers({7}, [repo], map[]);
    OneMoreCycle([], first);
    OneMoreCycle([first], second);
    assert [] + [first] == [first] && [first] + [second] == [first, second];
    var start := Retain(INITIAL, {});
    Single(Visit(start, [], true), repo, start, seen, {}, map[], 7);
    var s1 := Cycle(INITIAL, first);
    assert s1.active == [] && s1.counter == 1 && s1.table == map[7 := RowOf(seen.run)];
    var pruned := Retain(s1, {7});
    Single(Visit(pruned, [], true), repo, pruned, seen, {}, map[], 7);
  }

  // -- handed over is stored, when the job details answer -----------------------------------

  predicate AtLeast(table: Table, id: int, attempt: int) {
    id in table && table[id].attempt >= attempt
  }

  /** No suite of the run object takes the id. */
  predicate NoSuiteTakes(seen: Seen, id: int) {
    seen.details.Some? ==> forall x :: x in seen.details.value ==> x.jobId != id
  }

  /** A run object that, processed, stores the id at the attempt or a later one. */
  predicate StoresRun(seen: Seen, id: int, attempt: int) {
    seen.run.id == id && seen.run.attempt >= attempt && !seen.run.ignored && seen.details.Some?
  }

  /** A processed run object stores an attempt of an id exactly when it was stored, at that
      attempt or a later one, or the object shows such a one, is not ignored and its job
      details answer. */
  lemma ProcessedIsStoredExactlyWhen(s: State, seen: Seen, id: int, attempt: int)
    requires NoSuiteTakes(seen, id)
    ensures AtLeast(Process(s, seen).table, id, attempt) <==> AtLeast(s.table, id, attempt) || StoresRun(seen, id, attempt)
  {
    if seen.details.Some? {
      assert forall x :: x in Reached(seen) ==> x in seen.details.value;
      SuitesKeepOtherRows(Offer(s, RowOf(seen.run), seen.raisesAt.Some?), seen.run, Reached(seen), id);
    }
  }

  lemma {:induction false} SuitesKeepOtherRows(s: State, run: Run, suites: seq<Suite>, id: int)
    requires forall x :: x in suites ==> x.jobId != id
    ensures id in OfferSuites(s, run, suites).table <==> id in s.table
    ensures id in s.table ==> OfferSuites(s, run, suites).table[id] == s.table[id]
  {
    if suites != [] {
      assert suites == Front(suites) + [Last(suites)];
      SuitesKeepOtherRows(s, run, Front(suites), id);
    }
  }

  lemma {:induction false} SuitesKeepAtLeast(s: State, run: Run, suites: seq<Suite>, id: int, attempt: int)
    requires AtLeast(s.table, id, attempt)
    ensures AtLeast(OfferSuites(s, run, suites).table, id, attempt)
  {
    if suites != [] {
      SuitesKeepAtLeast(s, run, Front(suites), id, attempt);
    }
  }

  lemma {:induction false} SuitesReachTheTable(s: State, run: Run, suites: seq<Suite>, suite: Suite)
    requires suite in suites
    ensures AtLeast(OfferSuites(s, run, suites).table, suite.jobId, run.attempt)
  {
    var front, last := Front(suites), Last(suites);
    assert suites == front + [last];
    if suite in front {
      SuitesReachTheTable(s, run, front, suite);
    }
  }

  /** Each suite of an accepted run has a row of its own, at least at the run's attempt,
      up to the one at which processing raises. */
  lemma AcceptedRunStoresItsSuites(s: State, seen: Seen, suite: Suite)
    requires !seen.run.ignored && seen.details.Some? && Accepts(s.table, RowOf(seen.run)) && suite in Reached(seen)
    ensures AtLeast(Process(s, seen).table, suite.jobId, seen.run.attempt)
  {
    SuitesReachTheTable(Offer(s, RowOf(seen.run), seen.raisesAt.Some?), seen.run, Reached(seen), suite);
  }

  lemma ProcessKeepsAtLeast(s: State, seen: Seen, id: int, attempt: int)
    requires AtLeast(s.table, id, attempt)
    ensures AtLeast(Process(s, seen).table, id, attempt)
  {
    if seen.details.Some? {
      SuitesKeepAtLeast(Offer(s, RowOf(seen.run), seen.raisesAt.Some?), seen.run, Reached(seen), id, attempt);
    }
  }

  lemma {:induction false} VisitKeepsAtLeast(v: Visit, repos: seq<RepoAnswers>, id: int, attempt: int)
    requires AtLeast(v.s.table, id, attempt)
    ensures AtLeast(VisitRepos(v, repos).s.table, id, attempt)
  {
    if repos != [] {
      VisitKeepsAtLeast(v, Front(repos), id, attempt);
      ProcessAllKeepsAtLeast(VisitRepos(v, Front(repos)).s, Last(repos).recent, id, attempt);
    }
  }

  lemma {:induction false} ProcessAllKeepsAtLeast(s: State, seen: seq<Seen>, id: int, attempt: int)
    requires AtLeast(s.table, id, attempt)
    ensures AtLeast(ProcessAll(s, seen).table, id, attempt)
  {
    if seen != [] {
      ProcessAllKeepsAtLeast(s, Front(seen), id, attempt);
      ProcessKeepsAtLeast(ProcessAll(s, Front(seen)), Last(seen), id, attempt);
    }
  }

  /** The catch-up stores a dropped run at the attempt its lookup reports, and keeps what
      was stored before. */
  lemma {:induction false} CatchUpStores(v: Visit, still: set<int>, lookups: map<int, Seen>, ids: seq<int>,
                                         id: int, attempt: int)
    requires Faithful(lookups)
    requires || AtLeast(v.s.table, id, attempt)
             || (&& id in ids && id !in still && id in lookups && lookups[id].run.completed
                 && !lookups[id].run.ignored && lookups[id].details.Some? && lookups[id].run.attempt == attempt)
    ensures AtLeast(CatchUp(v, still, lookups, ids).s.table, id, attempt)
  {
    if ids == [] {
      return;
    }
    var front, last := Front(ids), Last(ids);
    assert ids == front + [last];
    var u := CatchUp(v, still, lookups, front);
    if AtLeast(v.s.table, id, attempt) || id in front {
      CatchUpStores(v, still, lookups, front, id, attempt);
      if last in lookups {
        ProcessKeepsAtLeast(u.s, lookups[last], id, attempt);
      }
    } else {
      var seen := lookups[id];
      var offered := Offer(u.s, RowOf(seen.run), seen.raisesAt.Some?);
      SuitesKeepAtLeast(offered, seen.run, Reached(seen), id, Max(attempt, offered.table[id].attempt));
    }
  }

  /** The job details of every run the catch-up processes answer, and its event counts. */
  ghost predicate Detailed(a: Answers) {
    forall id :: id in a.lookups && a.lookups[id].run.completed ==>
        a.lookups[id].details.Some? && !a.lookups[id].run.ignored
  }

  /** Cycle n handed the run over, and the table has reached the attempt that its lookup
      reported then. */
  predicate StoredBy(answers: seq<Answers>, n: int, id: int, table: Table) {
    && HandedBy(answers, n, id)
    && id in answers[n].lookups && AtLeast(table, id, answers[n].lookups[id].run.attempt)
  }

  ghost predicate StoredSince(answers: seq<Answers>, from: nat, id: int, table: Table) {
    exists n :: from <= n && StoredBy(answers, n, id, table)
  }

  lemma StoredSinceGrows(answers: seq<Answers>, from: nat, id: int)
    requires answers != [] && StoredSince(Front(answers), from, id, Cycles(Front(answers)).table)
    requires id !in Last(answers).pruned && Faithful(Last(answers).lookups)
    ensures StoredSince(answers, from, id, Cycles(answers).table)
  {
    var front := Front(answers);
    var n :| from <= n && StoredBy(front, n, id, Cycles(front).table);
    CycleKeepsAtLeast(Cycles(front), Last(answers), id, front[n].lookups[id].run.attempt);
    assert front[..n + 1] == answers[..n + 1] && front[n] == answers[n];
    assert StoredBy(answers, n, id, Cycles(answers).table);
  }

  lemma TrackedOrStored(answers: seq<Answers>, from: nat, id: int)
    requires from < |answers| && id in Tracked(Cycles(Front(answers)).active)
    requires Good(Cycles(Front(answers)), Last(answers)) && Detailed(Last(answers))
    ensures id in Tracked(Cycles(answers).active) || StoredSince(answers, from, id, Cycles(answers).table)
  {
    var s, last, n := Cycles(Front(answers)), Last(answers), |answers| - 1;
    TrackedOrHanded(s, last, id);
    if id in Cycle(s, last).handed {
      HandedIsStored(s, last, id);
      assert answers[..n + 1] == answers && answers[n] == last;
      assert StoredBy(answers, n, id, Cycles(answers).table);
    }
  }

  /** With job details answering too, a run that is tracked at some point is still tracked,
      or it was handed over since and the table has its row at the attempt that was handed
      over or a later one, unless retention removed it. */
  lemma {:induction false} TrackedRunsReachTheTable(answers: seq<Answers>, from: nat, id: int)
    requires from <= |answers| && GoodFrom(answers, from)
    requires forall n :: from <= n < |answers| ==> Detailed(answers[n]) && id !in answers[n].pruned
    requires id in Tracked(Cycles(answers[..from]).active)
    ensures id in Tracked(Cycles(answers).active) || StoredSince(answers, from, id, Cycles(answers).table)
    decreases |answers|
  {
    if from == |answers| {
      assert answers[..from] == answers;
      return;
    }
    var front, last := Front(answers), Last(answers);
    assert front[..from] == answers[..from];
    assert forall n :: 0 <= n < |front| ==> front[..n] == answers[..n] && front[n] == answers[n];
    TrackedRunsReachTheTable(front, from, id);
    assert answers[..|front|] == front && answers[|front|] == last;
    assert Good(Cycles(front), last);
    if StoredSince(front, from, id, Cycles(front).table) {
      StoredSinceGrows(answers, from, id);
    } else {
      TrackedOrStored(answers, from, id);
    }
  }

  lemma CycleKeepsAtLeast(s: State, a: Answers, id: int, attempt: int)
    requires AtLeast(s.table, id, attempt) && id !in a.pruned && Faithful(a.lookups)
    ensures AtLeast(Cycle(s, a).table, id, attempt)
  {
    var v := Polled(s, a);
    VisitKeepsAtLeast(Visit(Retain(s, a.pruned), [], true), a.repos, id, attempt);
    CatchUpStores(v, Ids(v.current), a.lookups, TrackedOrder(s.active), id, attempt);
  }

  /** A run handed over with answering details is in the table at the attempt handed over. */
  lemma HandedIsStored(s: State, a: Answers, id: int)
    requires Faithful(a.lookups) && Detailed(a) && id in Cycle(s, a).handed
    ensures id in a.lookups && AtLeast(Cycle(s, a).table, id, a.lookups[id].run.attempt)
  {
    var v := Polled(s, a);
    HandedExactlyWhen(s, a, id);
    CatchUpStores(v, Ids(v.current), a.lookups, TrackedOrder(s.active), id, a.lookups[id].run.attempt);
  }

  // -- what "will retry next pass" comes to ------------------------------------------------------

  lemma {:induction false} RecentStoresExactlyWhen(s: State, seen: seq<Seen>, id: int, attempt: int)
    requires forall x :: x in seen ==> NoSuiteTakes(x, id)
    ensures AtLeast(ProcessAll(s, seen).table, id, attempt) <==>
            AtLeast(s.table, id, attempt) || exists x :: x in seen && StoresRun(x, id, attempt)
  {
    if seen != [] {
      assert seen == Front(seen) + [Last(seen)];
      RecentStoresExactlyWhen(s, Front(seen), id, attempt);
      ProcessedIsStoredExactlyWhen(ProcessAll(s, Front(seen)), Last(seen), id, attempt);
    }
  }

  /** A repository whose counts answered and whose completed list stores the attempt. */
  predicate RepoStores(r: RepoAnswers, id: int, attempt: int) {
    Counted(r) && exists x :: x in r.recent && StoresRun(x, id, attempt)
  }

  lemma {:induction false} VisitStoresExactlyWhen(v: Visit, repos: seq<RepoAnswers>, id: int, attempt: int)
    requires forall r, x :: r in repos && x in r.recent ==> NoSuiteTakes(x, id)
    ensures AtLeast(VisitRepos(v, repos).s.table, id, attempt) <==>
            AtLeast(v.s.table, id, attempt) || exists r :: r in repos && RepoStores(r, id, attempt)
  {
    if repos != [] {
      var front, last := Front(repos), Last(repos);
      assert repos == front + [last];
      VisitStoresExactlyWhen(v, front, id, attempt);
      RecentStoresExactlyWhen(VisitRepos(v, front).s, last.recent, id, attempt);
    }
  }

  lemma {:induction false} CatchUpLeavesOthers(v: Visit, still: set<int>, lookups: map<int, Seen>, ids: seq<int>,
                                               id: int, attempt: int)
    requires Faithful(lookups) && id !in ids && forall other :: other in lookups ==> NoSuiteTakes(lookups[other], id)
    ensures AtLeast(CatchUp(v, still, lookups, ids).s.table, id, attempt) <==> AtLeast(v.s.table, id, attempt)
  {
    if ids != [] {
      var front, last := Front(ids), Last(ids);
      assert ids == front + [last];
      CatchUpLeavesOthers(v, still, lookups, front, id, attempt);
      if last in lookups {
        ProcessedIsStoredExactlyWhen(CatchUp(v, still, lookups, front).s, lookups[last], id, attempt);
      }
    }
  }

  /** An attempt of a run that is neither tracked nor stored, as one is after the catch-up
      failed to read its job details, is stored by the next cycle exactly when the completed
      list of some counted repository still holds it, or a later one, and its details then
      answer. */
  lemma RetriedExactlyWhen(s: State, a: Answers, id: int, attempt: int)
    requires id !in Tracked(s.active) && !AtLeast(s.table, id, attempt) && Faithful(a.lookups)
    requires forall r, x :: r in a.repos && x in r.recent ==> NoSuiteTakes(x, id)
    requires forall other :: other in a.lookups ==> NoSuiteTakes(a.lookups[other], id)
    ensures AtLeast(Cycle(s, a).table, id, attempt) <==> exists r :: r in a.repos && RepoStores(r, id, attempt)
  {
    var v := Polled(s, a);
    VisitStoresExactlyWhen(Visit(Retain(s, a.pruned), [], true), a.repos, id, attempt);
    CatchUpLeavesOthers(v, Ids(v.current), a.lookups, TrackedOrder(s.active), id, attempt);
  }

  /** The log line of a failed job-details fetch promises a retry in the next pass. On
      the catch-up path there is none: the run has left the active list. */
  lemma FailedDetailsAreNotRetried() returns (s: State, a: Answers, later: Answers)
    ensures Tracked(s.active) == {7} && Good(s, a) && Good(Cycle(s, a), later)
    ensures 7 in later.lookups && later.lookups[7].details.Some?
    ensures 7 in Cycle(s, a).handed && 7 !in Cycle(Cycle(s, a), later).table
  {
    s := INITIAL.(active := [Entry(7, false)]);
    var run := Run(7, 1, true, false, "done");
    a := Answers({}, [], map[7 := Seen(run, None, None)]);
    later := Answers({}, [], map[7 := Seen(run, Some([]), None)]);
    var repo := RepoAnswers(CountRaised, CountRaised, ActiveRaised, []);
    var v := Polled(s, a);
    assert v == Visit(Retain(s, {}), [], true);
    Single(v, repo, s, a.lookups[7], {}, a.lookups, 7);
    var s1 := Cycle(s, a);
    assert Ids(v.current) == {} && Process(v.s, a.lookups[7]) == v.s;
    assert CatchUp(v, {}, a.lookups, [7]) == Visit(v.s.(handed := {} + {7}), [], true);
    assert s1.active == [] && s1.table == map[] && s1.handed == {7};
    assert Polled(s1, later) == Visit(Retain(s1, {}), [], true);
  }
}

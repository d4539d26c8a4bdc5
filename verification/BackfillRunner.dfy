/** The backfill as the program runs it: one object over two tables, nested loops
    over repositories, pages and pending pull requests, early exits included. */
module BackfillRunner {
  import opened Common
  import opened Sequences
  import opened PassLog
  import opened Backfill

  method FetchClosedPrs(pages: seq<Page>, cutoff: int, since: int) returns (result: Option<seq<Listed>>)
    ensures result == ClosedPrs(pages, cutoff, since)
  {
    var prs: seq<Listed> := [];
    var i := 0;
    assert pages[0..] == pages;
    assert var rest := ClosedPrs(pages, cutoff, since); rest.Some? ==> prs + rest.value == rest.value;
    while i < |pages|
      invariant 0 <= i <= |pages|
      invariant ClosedPrs(pages, cutoff, since) ==
                (var rest := ClosedPrs(pages[i..], cutoff, since);
                 if rest.None? then None else Some(prs + rest.value))
    {
      assert pages[i..][1..] == pages[i + 1..];
      if !pages[i].ok {
        return None;
      }
      var kept := Filter((pr: Listed) => EndedSince(pr, cutoff), pages[i].prs);
      ghost var rest := ClosedPrs(pages[i + 1..], cutoff, since);
      assert rest.Some? ==> prs + (kept + rest.value) == (prs + kept) + rest.value;
      prs := prs + kept;
      if WholePageOlder(pages[i].prs, since) {
        return Some(prs);
      }
      i := i + 1;
    }
    assert prs + [] == prs;
    return Some(prs);
  }

  class CIObservePRs {
    var log: seq<PassRow>
    var events: map<PrKey, int>

    constructor ()
      ensures log == [] && events == map[]
    {
      log, events := [], map[];
    }

    ghost function State(): Tables
      reads this
    {
      Tables(log, events)
    }

    /** Store the pending pull requests of one repository until told to stop. */
    method StoreAll(repo: string, pending: seq<Listed>, input: PassInput, start: Tally) returns (t: Tally)
      requires events == start.events && !start.stopped
      modifies `events
      ensures t == StorePending(repo, pending, input, start) && events == t.events
    {
      t := start;
      var i := 0;
      while i < |pending| && !t.stopped
        invariant 0 <= i <= |pending|
        invariant events == t.events
        invariant StorePending(repo, pending, input, start) == StorePending(repo, pending[i..], input, t)
      {
        var pr := pending[i];
        var key := PrKey(repo, pr.number);
        assert pending[i..][1..] == pending[i + 1..];
        ghost var before := t;
        if input.fetchAnswers(key) {
          events := events[key := EndOf(pr)];
          t := t.(events := events, stored := t.stored + 1, storedKeys := t.storedKeys + {key});
        } else {
          t := t.(failed := t.failed + 1, failedKeys := t.failedKeys + {key});
        }
        if input.budgetLow(key) {
          t := t.(stopped := true, early := true);
        }
        if input.limit.Some? && input.limit.value <= t.stored {
          t := t.(stopped := true, early := true);
        }
        assert t == StoreOne(repo, pr, input, before);
        i := i + 1;
      }
    }

    method VisitRepository(repo: string, mode: Mode, cutoff: int, since: int, input: PassInput, start: Tally)
      returns (t: Tally)
      requires events == start.events && !start.stopped
      modifies `events
      ensures t == VisitRepo(repo, mode, cutoff, since, input, start) && events == t.events
    {
      var listing := FetchClosedPrs(input.pages(repo), cutoff, since);
      if listing.None? {
        return start.(complete := false, early := true);
      }
      var pending := Pending(repo, listing.value, input.force, events);
      t := StoreAll(repo, pending, input, start.(skipped := start.skipped + |listing.value| - |pending|));
      if mode == Full {
        events := PruneEvents(events, repo, cutoff);
        t := t.(events := events);
      }
      if t.stopped {
        t := t.(complete := false);
      }
    }

    /** One pass. The tables end as the specification of a pass says. */
    method BackfillPass(span: int, input: PassInput) returns (t: Tally)
      modifies this
      ensures State() == RunPass(old(State()), span, input)
      ensures t == FinalTally(old(State()), span, input)
    {
      var cutoff := input.now - span;
      var (mode, since) := Plan(log, span, input.now,
                                if input.force && input.request == Auto then AskFull else input.request);
      t := Tally(events, 0, 0, 0, {}, {}, input.repos.Some?, input.repos.None?, false);
      var repos := if input.repos.Some? then input.repos.value else [];
      ghost var start := t;
      var i := 0;
      while i < |repos| && !t.stopped
        invariant 0 <= i <= |repos|
        invariant log == old(log) && events == t.events
        invariant VisitRepos(repos, mode, cutoff, since, input, start) ==
                  VisitRepos(repos[i..], mode, cutoff, since, input, t)
      {
        assert repos[i..][1..] == repos[i + 1..];
        t := VisitRepository(repos[i], mode, cutoff, since, input, t);
        i := i + 1;
      }
      if input.filtered {
        t := t.(complete := false, early := true);
      }
      var ok := t.complete && !t.early && t.failed == 0;
      log := PruneRuns(log + [PassRow(input.now, mode, since, input.now, t.complete, ok)], cutoff);
    }
  }
}

/** The polling cycle as the exporter runs it: fields updated in place by nested loops,
    each method tied to the step of ActiveRuns it performs. */
module ExporterCycle {
  import opened Common
  import opened Sequences
  import opened JobHistory
  import opened ActiveRuns

  class WorkflowExporter {
    var jobs: Table
    var activeRuns: seq<Entry>
    var completedRuns: nat

    /** For the contracts: what happened to the table, and the runs handed over in this cycle. */
    ghost var history: seq<Event>
    ghost var handed: set<int>

    ghost function View(): State
      reads this
    {
      State(jobs, activeRuns, completedRuns, history, handed)
    }

    constructor ()
      ensures View() == INITIAL
    {
      jobs, activeRuns, completedRuns := map[], [], 0;
      history, handed := [], {};
    }

    /** One guarded insert; the caller increments the counter when it stored. */
    method UpsertJob(row: Row, ghost uncounted: bool) returns (stored: bool)
      modifies `jobs, `history
      ensures jobs == Upsert(old(jobs), row) && stored == Accepts(old(jobs), row)
      ensures history == old(history) + [Offered(row, uncounted)]
    {
      stored := row.id !in jobs || row.attempt > jobs[row.id].attempt;
      if stored {
        jobs := jobs[row.id := row];
      }
      history := history + [Offered(row, uncounted)];
    }

    /** A raise after the run's row is stored skips the remaining suites and the counter. */
    method ProcessCompletedRun(seen: Seen) returns (stored: bool, raised: bool)
      modifies this
      ensures View() == Process(old(View()), seen)
      ensures stored ==> completedRuns > old(completedRuns)
      ensures !stored && !raised ==> jobs == old(jobs) && completedRuns == old(completedRuns)
    {
      stored, raised := false, false;
      var run := seen.run;
      if run.ignored {
        return;
      }
      if run.id in jobs && run.attempt <= jobs[run.id].attempt {
        return;
      }
      if seen.details == None {
        return;
      }
      // The source counts the run after its suites; the increments commute, and a raise
      // leaves this one out.
      raised := seen.raisesAt.Some?;
      var accepted := UpsertJob(RowOf(run), raised);
      if !raised {
        completedRuns := completedRuns + 1;
      }
      ghost var start := View();
      var suites := Reached(seen);
      for i := 0 to |suites|
        invariant View() == OfferSuites(start, run, suites[..i])
        invariant !raised ==> completedRuns > old(completedRuns)
      {
        assert Front(suites[..i + 1]) == suites[..i];
        var added := UpsertJob(SuiteRow(run, suites[i]), false);
        if added {
          completedRuns := completedRuns + 1;
        }
      }
      assert suites[..|suites|] == suites;
      stored := !raised;
    }

    /** The repositories' loop: counts, active list, recently completed runs. */
    method VisitRepositories(repos: seq<RepoAnswers>) returns (current: seq<Entry>, complete: bool)
      modifies this
      ensures Visit(View(), current, complete) == VisitRepos(Visit(old(View()), [], true), repos)
    {
      current, complete := [], true;
      for i := 0 to |repos|
        invariant Visit(View(), current, complete) == VisitRepos(Visit(old(View()), [], true), repos[..i])
      {
        assert Front(repos[..i + 1]) == repos[..i];
        var r := repos[i];
        if r.queued.CountRaised? || r.inProgress.CountRaised? {
          continue;
        }
        if r.queued.n > 0 || r.inProgress.n > 0 {
          if r.active.ActiveFetched? {
            current := current + r.active.entries;
            complete := complete && r.active.complete;
          } else {
            complete := false;
          }
        }
        ghost var before := View();
        for j := 0 to |r.recent|
          invariant View() == ProcessAll(before, r.recent[..j])
        {
          assert Front(r.recent[..j + 1]) == r.recent[..j];
          var _, _ := ProcessCompletedRun(r.recent[j]);
        }
        assert r.recent[..|r.recent|] == r.recent;
      }
      assert repos[..|repos|] == repos;
    }

    /** The tracked run ids of the list as the previous cycle left it, each once. */
    method PreviousActive() returns (ids: seq<int>)
      ensures ids == TrackedOrder(activeRuns)
    {
      ids := [];
      for i := 0 to |activeRuns|
        invariant ids == TrackedOrder(activeRuns[..i])
      {
        assert Front(activeRuns[..i + 1]) == activeRuns[..i];
        if !activeRuns[i].suite && activeRuns[i].id !in ids {
          ids := ids + [activeRuns[i].id];
        }
      }
      assert activeRuns[..|activeRuns|] == activeRuns;
    }

    method CatchUpDropped(listed: seq<Entry>, ids: seq<int>, lookups: map<int, Seen>) returns (current: seq<Entry>)
      modifies this
      ensures Visit(View(), current, true) ==
              CatchUp(Visit(old(View()), listed, true), Ids(listed), lookups, ids)
    {
      current := listed;
      var still := Ids(listed);
      for i := 0 to |ids|
        invariant Visit(View(), current, true) ==
                  CatchUp(Visit(old(View()), listed, true), still, lookups, ids[..i])
      {
        assert Front(ids[..i + 1]) == ids[..i];
        if ids[i] in still || ids[i] !in lookups {
          continue;
        }
        var seen := lookups[ids[i]];
        if !seen.run.completed {
          current := current + [Entry(seen.run.id, false)];
          continue;
        }
        ghost var before := View();
        var _, _ := ProcessCompletedRun(seen);
        handed := before.handed + {ids[i]};
      }
      assert ids[..|ids|] == ids;
    }

    /** One cycle; what it keeps and loses is proved about ActiveRuns.Cycle. */
    method Collect(a: Answers)
      modifies this
      ensures View() == Cycle(old(View()), a)
    {
      jobs := jobs - a.pruned;
      history := history + [Pruned(a.pruned)];
      handed := {};
      var previous := PreviousActive();
      var current, complete := VisitRepositories(a.repos);
      if complete {
        current := CatchUpDropped(current, previous, a.lookups);
      }
      activeRuns := current;
    }
  }
}

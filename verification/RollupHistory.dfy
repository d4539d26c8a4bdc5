/** What the per-test rollup keeps over any sequence of passes: the counts are counts of
    runs, the coverage rows name the stored runs, and a retained day only grows. */
module RollupHistory {
  import opened Common
  import opened Sequences
  import opened Percentiles
  import opened JUnitOutcomes
  import opened TestRollup

  predicate DistinctTests(cases: seq<Case>) {
    forall i, j :: 0 <= i < j < |cases| ==> cases[i].key != cases[j].key
  }

  /** What one pass hands over: each run once, each test once in a run. */
  predicate Proper(runs: seq<Run>) {
    runs == [] ||
    (Proper(Front(runs)) && DistinctTests(Last(runs).cases) && forall r :: r in Front(runs) ==> r.id != Last(runs).id)
  }

  lemma {:induction false} ProperFilter(runs: seq<Run>, day: int)
    requires Proper(runs)
    ensures Proper(DayRuns(runs, day))
  {
    if runs != [] {
      ProperFilter(Front(runs), day);
      var kept := DayRuns(Front(runs), day);
      if Last(runs).day == day {
        assert DayRuns(runs, day) == kept + [Last(runs)];
        assert Front(kept + [Last(runs)]) == kept;
      } else {
        assert DayRuns(runs, day) == kept;
      }
    }
  }

  /** Reading the files of a run gives each test once. */
  lemma ParsedTestsAreDistinct(elements: seq<Element>, cases: seq<Case>)
    requires var order := Order(elements);
             |cases| == |order| && forall k :: 0 <= k < |order| ==> Some(cases[k]) == Outcome(elements, order[k])
    ensures DistinctTests(cases)
  {
    var order := Order(elements);
    OrderIsDistinct(elements);
    forall i, j | 0 <= i < j < |cases| ensures cases[i].key != cases[j].key {
      assert Some(cases[i]) == Outcome(elements, order[i]) && Some(cases[j]) == Outcome(elements, order[j]);
    }
  }

  // -- runs counted once ---------------------------------------------------------------

  lemma {:induction false} OncePerRunAppend(a: seq<Raw>, b: seq<Raw>)
    requires OncePerRun(a) && OncePerRun(b)
    requires forall x, y :: x in a && y in b ==> x.key != y.key || x.run != y.run
    ensures OncePerRun(a + b)
  {
    if b == [] {
      assert a + b == a;
    } else {
      var front, last := Front(b), Last(b);
      assert b == front + [last];
      assert last in b && forall x, y :: x in a && y in front ==> x.key != y.key || x.run != y.run;
      OncePerRunAppend(a, front);
      assert Front(a + b) == a + front && Last(a + b) == last;
      assert Unseen(a + front, last);
    }
  }

  lemma {:induction false} OncePerRunFilter(keep: Raw -> bool, raws: seq<Raw>)
    requires OncePerRun(raws)
    ensures OncePerRun(Filter(keep, raws))
  {
    if raws != [] {
      OncePerRunFilter(keep, Front(raws));
      var kept := Filter(keep, Front(raws));
      if keep(Last(raws)) {
        assert Filter(keep, raws) == kept + [Last(raws)];
        assert Front(kept + [Last(raws)]) == kept;
      } else {
        assert Filter(keep, raws) == kept;
      }
    }
  }

  lemma {:induction false} OneRunOnce(run: Run, cases: seq<Case>)
    requires DistinctTests(cases)
    ensures OncePerRun(RawOf(run, cases))
  {
    if cases != [] {
      var rows := RawOf(run, cases);
      assert DistinctTests(Front(cases));
      OneRunOnce(run, Front(cases));
      assert Front(rows) == RawOf(run, Front(cases));
      forall r | r in Front(rows) ensures r.key != Last(rows).key {
        var k :| 0 <= k < |Front(rows)| && Front(rows)[k] == r;
        assert cases[k].key != cases[|cases| - 1].key;
      }
    }
  }

  /** Every raw row belongs to a run that was read, and every run that was read has one. */
  lemma {:induction false} RowsComeFromRuns(runs: seq<Run>, id: int)
    ensures (exists row :: row in RawRows(runs) && row.run == id) <==> id in ParsedIds(runs)
  {
    if runs != [] {
      var front, last := Front(runs), Last(runs);
      assert runs == front + [last];
      RowsComeFromRuns(front, id);
      var rows := RawOf(last, last.cases);
      assert last.cases != [] ==> rows[0] in rows && rows[0].run == last.id;
      assert forall row :: row in rows ==> row.run == last.id;
    }
  }

  lemma {:induction false} PassRowsOnce(runs: seq<Run>)
    requires Proper(runs)
    ensures OncePerRun(RawRows(runs))
  {
    if runs != [] {
      var front, last := Front(runs), Last(runs);
      PassRowsOnce(front);
      OneRunOnce(last, last.cases);
      forall x, y | x in RawRows(front) && y in RawOf(last, last.cases) ensures x.run != y.run {
        RowsComeFromRuns(front, x.run);
      }
      OncePerRunAppend(RawRows(front), RawOf(last, last.cases));
    }
  }

  lemma RollDayOnce(s: Store, runs: seq<Run>, force: bool, day: int)
    requires OncePerRun(s.raws) && Proper(runs)
    ensures OncePerRun(RollDay(s, runs, force, day).raws)
  {
    var dayRuns := DayRuns(runs, day);
    ProperFilter(runs, day);
    PassRowsOnce(dayRuns);
    RawRowsOfDay(dayRuns, day);
    OncePerRunFilter((r: Raw) => r.key.day != day, s.raws);
    OncePerRunAppend(OtherDays(s.raws, day), RawRows(dayRuns));
  }

  lemma {:induction false} RollDaysOnce(s: Store, runs: seq<Run>, force: bool, days: seq<int>)
    requires OncePerRun(s.raws) && Proper(runs)
    ensures OncePerRun(RollDays(s, runs, force, days).raws)
  {
    if days != [] {
      RollDaysOnce(s, runs, force, Front(days));
      RollDayOnce(RollDays(s, runs, force, Front(days)), runs, force, Last(days));
    }
  }

  ghost predicate AllProper(passes: seq<Pass>) {
    forall p :: p in passes ==> Proper(p.runs)
  }

  lemma AllProperFront(passes: seq<Pass>)
    requires passes != [] && AllProper(passes)
    ensures AllProper(Front(passes)) && Proper(Last(passes).runs)
  {
    assert passes == Front(passes) + [Last(passes)];
    assert Last(passes) in passes;
    assert forall p :: p in Front(passes) ==> p in passes;
  }

  lemma {:induction false} StoredOnce(passes: seq<Pass>)
    requires AllProper(passes)
    ensures OncePerRun(Passes(passes).raws)
  {
    if passes != [] {
      AllProperFront(passes);
      StoredOnce(Front(passes));
      var s, p := Passes(Front(passes)), Last(passes);
      OncePerRunFilter((r: Raw) => r.key.day >= p.cutoff, s.raws);
      RollDaysOnce(PruneDays(s, p.cutoff), p.runs, p.force, SortBy(Same, DaysOf(p.runs)));
    }
  }

  /** Every stored aggregate counts runs: its runs are its passes and its failures, and the
      number of distinct stored runs that contain the test; its percentiles are singled out
      by their fractions among the durations of those rows. */
  lemma AggregatesCountRuns(passes: seq<Pass>, key: Key)
    requires AllProper(passes) && key in Passes(passes).rollup
    ensures var s := Passes(passes);
            var row, g := s.rollup[key], GroupOf(s.raws, key);
            && row.runs == row.passes + row.failures == |RunsOf(s.raws, key)| > 0
            && row.passes == Count((r: Raw) => r.key == key && r.passed, s.raws)
            && (row.mean.None? <==> g.durations == [])
            && (g.durations != [] ==>
                  && row.mean.value == Mean(Sum(g.durations), |g.durations|)
                  && row.p50.Some? && SingledOut(g.durations, 1, 2, row.p50.value)
                  && row.p95.Some? && SingledOut(g.durations, 19, 20, row.p95.value)
                  && row.p99.Some? && SingledOut(g.durations, 99, 100, row.p99.value))
  {
    var s := Passes(passes);
    AggregateIsTheAggregation(passes, key);
    StoredOnce(passes);
    RunsAreDistinct(s.raws, key);
    GroupMeaning(s.raws, key);
    var g := GroupOf(s.raws, key);
    if g.durations != [] {
      NearestRankIsSingledOut(g.durations, 1, 2);
      NearestRankIsSingledOut(g.durations, 19, 20);
      NearestRankIsSingledOut(g.durations, 99, 100);
    }
  }

  // -- never thinner ---------------------------------------------------------------------

  /** The runs stored for a day. */
  function StoredRuns(raws: seq<Raw>, day: int): set<int> {
    set r | r in raws && r.key.day == day :: r.run
  }

  /** The coverage row of a day names exactly the runs stored for it, and the runs it
      listed are those and the unavailable ones. */
  predicate Named(s: Store, day: int) {
    if day in s.days then
      && s.days[day].ids == StoredRuns(s.raws, day)
      && s.days[day].parsed == |s.days[day].ids|
      && s.days[day].listed == s.days[day].parsed + s.days[day].unavailable
    else StoredRuns(s.raws, day) == {}
  }

  lemma {:induction false} ParsedAreCounted(runs: seq<Run>)
    requires Proper(runs)
    ensures Count((r: Run) => r.cases != [], runs) == |ParsedIds(runs)|
  {
    if runs != [] {
      var front, last := Front(runs), Last(runs);
      assert runs == front + [last];
      ParsedAreCounted(front);
      assert ParsedIds(runs) == ParsedIds(front) + if last.cases != [] then {last.id} else {};
      assert last.id !in ParsedIds(front);
    }
  }

  lemma StoredAfterWrite(s: Store, day: int, runs: seq<Run>, other: int)
    requires forall r :: r in runs ==> r.day == day
    ensures var raws := OtherDays(s.raws, day) + RawRows(runs);
            && (other != day ==> StoredRuns(raws, other) == StoredRuns(s.raws, other))
            && StoredRuns(raws, day) == ParsedIds(runs)
  {
    var rows, others := RawRows(runs), OtherDays(s.raws, day);
    RawRowsOfDay(runs, day);
    forall id ensures id in StoredRuns(others + rows, day) <==> id in ParsedIds(runs) {
      RowsComeFromRuns(runs, id);
      if row :| row in rows && row.run == id {
        assert row in others + rows && row.key.day == day;
      }
    }
    if other != day {
      forall id ensures id in StoredRuns(others + rows, other) <==> id in StoredRuns(s.raws, other) {
        if row :| row in s.raws && row.key.day == other && row.run == id {
          assert row in others;
          assert row in others + rows;
        }
      }
    }
  }

  lemma WriteDayNames(s: Store, day: int, dayRuns: seq<Run>, rollup: map<Key, Stats>, other: int)
    requires Proper(dayRuns) && (forall r :: r in dayRuns ==> r.day == day) && Named(s, other)
    ensures var after := WriteDay(s, day, rollup, RawRows(dayRuns), CoverageOf(dayRuns));
            && Named(after, other)
            && (other != day ==> StoredRuns(after.raws, other) == StoredRuns(s.raws, other))
            && (other == day ==> StoredRuns(after.raws, other) == CoverageOf(dayRuns).ids)
  {
    ParsedAreCounted(dayRuns);
    StoredAfterWrite(s, day, dayRuns, other);
  }

  lemma RollDayNames(s: Store, runs: seq<Run>, force: bool, day: int, other: int)
    requires Proper(runs) && Named(s, other)
    ensures var after := RollDay(s, runs, force, day);
            && Named(after, other)
            && (!force ==> StoredRuns(s.raws, other) <= StoredRuns(after.raws, other))
  {
    var dayRuns := DayRuns(runs, day);
    if MayReplace(s, runs, force, day) {
      ProperFilter(runs, day);
      WriteDayNames(s, day, dayRuns, Aggregated(RawRows(dayRuns)), other);
    }
  }

  lemma {:induction false} RollDaysNames(s: Store, runs: seq<Run>, force: bool, days: seq<int>, other: int)
    requires Proper(runs) && Named(s, other)
    ensures var after := RollDays(s, runs, force, days);
            && Named(after, other)
            && (!force ==> StoredRuns(s.raws, other) <= StoredRuns(after.raws, other))
  {
    if days != [] {
      RollDaysNames(s, runs, force, Front(days), other);
      RollDayNames(RollDays(s, runs, force, Front(days)), runs, force, Last(days), other);
    }
  }

  lemma PruneNames(s: Store, cutoff: int, day: int)
    requires Named(s, day)
    ensures Named(PruneDays(s, cutoff), day)
    ensures day >= cutoff ==> StoredRuns(PruneDays(s, cutoff).raws, day) == StoredRuns(s.raws, day)
  {
    var kept := PruneDays(s, cutoff).raws;
    if day >= cutoff {
      assert forall r :: r in s.raws && r.key.day == day ==> r in kept;
    }
  }

  /** Over any passes and prunes the coverage row of a day names its stored runs. */
  lemma {:induction false} CoverageNamesTheStoredRuns(passes: seq<Pass>, day: int)
    requires AllProper(passes)
    ensures Named(Passes(passes), day)
  {
    if passes != [] {
      AllProperFront(passes);
      var p := Last(passes);
      CoverageNamesTheStoredRuns(Front(passes), day);
      PruneNames(Passes(Front(passes)), p.cutoff, day);
      RollDaysNames(PruneDays(Passes(Front(passes)), p.cutoff), p.runs, p.force, SortBy(Same, DaysOf(p.runs)), day);
    }
  }

  /** So the second guard, on the number of runs read, never decides: it can only fire for
      coverage rows written before the ids were recorded. */
  lemma CountGuardNeverDecides(passes: seq<Pass>, runs: seq<Run>, day: int)
    requires AllProper(passes) && Proper(runs)
    requires var s := Passes(passes); day in s.days && s.days[day].ids <= CoverageOf(DayRuns(runs, day)).ids
    ensures Passes(passes).days[day].parsed <= CoverageOf(DayRuns(runs, day)).parsed
  {
    CoverageNamesTheStoredRuns(passes, day);
    ProperFilter(runs, day);
    ParsedAreCounted(DayRuns(runs, day));
    var a, b := Passes(passes).days[day].ids, ParsedIds(DayRuns(runs, day));
    assert b == a + (b - a);
  }

  /** Without force, the runs stored for a day that every pass retains only grow. */
  lemma {:induction false} RetainedDayOnlyGrows(passes: seq<Pass>, from: nat, day: int)
    requires AllProper(passes) && from <= |passes|
    requires forall n :: from <= n < |passes| ==> !passes[n].force && passes[n].cutoff <= day
    ensures StoredRuns(Passes(passes[..from]).raws, day) <= StoredRuns(Passes(passes).raws, day)
    decreases |passes|
  {
    if from == |passes| {
      assert passes[..from] == passes;
    } else {
      var front, p := Front(passes), Last(passes);
      assert front[..from] == passes[..from];
      AllProperFront(passes);
      assert forall n :: from <= n < |front| ==> !front[n].force && front[n].cutoff <= day;
      assert !passes[|passes| - 1].force && passes[|passes| - 1].cutoff <= day;
      RetainedDayOnlyGrows(front, from, day);
      CoverageNamesTheStoredRuns(front, day);
      PruneNames(Passes(front), p.cutoff, day);
      RollDaysNames(PruneDays(Passes(front), p.cutoff), p.runs, p.force, SortBy(Same, DaysOf(p.runs)), day);
    }
  }

  // -- the rollup as the program runs it ------------------------------------------------------

  class TrendsDb {
    var rollup: map<Key, Stats>
    var raws: seq<Raw>
    var days: map<int, Coverage>

    constructor ()
      ensures View() == EMPTY
    {
      rollup, raws, days := map[], [], map[];
    }

    ghost function View(): Store
      reads this
    {
      Store(rollup, raws, days)
    }

    method PruneOldDays(cutoff: int)
      modifies this
      ensures View() == PruneDays(old(View()), cutoff)
    {
      rollup := map key | key in rollup && key.day >= cutoff :: rollup[key];
      raws := Filter((r: Raw) => r.key.day >= cutoff, raws);
      days := map day | day in days && day >= cutoff :: days[day];
    }

    /** One transaction: delete the day from the three tables, insert the new rows. */
    method ReplaceDay(day: int, rows: map<Key, Stats>, runRows: seq<Raw>, coverage: Coverage)
      modifies this
      ensures View() == WriteDay(old(View()), day, rows, runRows, coverage)
    {
      rollup := (map key | key in rollup && key.day != day :: rollup[key]) + rows;
      raws := OtherDays(raws, day) + runRows;
      days := days[day := coverage];
    }

    method TestRunRows(runs: seq<Run>) returns (rows: seq<Raw>)
      ensures rows == RawRows(runs)
    {
      rows := [];
      for i := 0 to |runs|
        invariant rows == RawRows(runs[..i])
      {
        assert Front(runs[..i + 1]) == runs[..i];
        rows := rows + RawOf(runs[i], runs[i].cases);
      }
      assert runs[..|runs|] == runs;
    }

    /** The per-day loop: a stored day is kept unless this pass reads every run of it. */
    method RollUp(p: Pass)
      modifies this
      ensures View() == RunPass(old(View()), p)
    {
      PruneOldDays(p.cutoff);
      ghost var start := View();
      var order := SortBy(Same, DaysOf(p.runs));
      for i := 0 to |order|
        invariant View() == RollDays(start, p.runs, p.force, order[..i])
      {
        assert Front(order[..i + 1]) == order[..i];
        var day := order[i];
        var dayRuns := DayRuns(p.runs, day);
        var coverage := CoverageOf(dayRuns);
        if day in days && !p.force {
          if !(days[day].ids <= coverage.ids) {
            continue;
          }
          if days[day].parsed > coverage.parsed {
            continue;
          }
        }
        var rows := RollupRows(dayRuns);
        SameRollup(rows, RawRows(dayRuns));
        var runRows := TestRunRows(dayRuns);
        ReplaceDay(day, rows, runRows, coverage);
      }
      assert order[..|order|] == order;
    }
  }

  lemma SameRollup(rows: map<Key, Stats>, raws: seq<Raw>)
    requires forall key :: key in rows <==> HasKey(raws, key)
    requires forall key :: key in rows ==> rows[key] == StatsOf(GroupOf(raws, key))
    ensures rows == Aggregated(raws)
  {
    assert forall key :: key in rows <==> key in Aggregated(raws);
    assert forall key :: key in rows ==> rows[key] == Aggregated(raws)[key];
  }
}

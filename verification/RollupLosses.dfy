/** What a retained day of the per-test rollup can lose without force. The guards compare
    run ids, so a run whose artifacts have partly expired may replace its own outcomes by
    fewer ones. */
module RollupLosses {
  import opened Common
  import opened Sequences
  import opened Percentiles
  import opened JUnitOutcomes
  import opened TestRollup
  import opened RollupHistory
  import opened RollupRows

  /** One outcome is stored for a test of a run. */
  datatype Stored = Stored(run: int, test: TestKey)

  function StoredTests(raws: seq<Raw>, day: int): set<Stored> {
    set r | r in raws && r.key.day == day :: Stored(r.run, r.key.test)
  }

  predicate Reads(run: Run, day: int, t: Stored) {
    run.day == day && run.id == t.run && exists c :: c in run.cases && c.key == t.test
  }

  /** Some run of the pass still shows the test. */
  predicate Shows(runs: seq<Run>, day: int, t: Stored) {
    exists run :: run in runs && Reads(run, day, t)
  }

  predicate IsRowOf(row: Raw, day: int, t: Stored) {
    row.key.day == day && row.run == t.run && row.key.test == t.test
  }

  lemma ShownRow(runs: seq<Run>, day: int, t: Stored)
    ensures Shows(runs, day, t) <==> exists row :: ShowsRow(runs, row) && IsRowOf(row, day, t)
  {
    if run :| run in runs && Reads(run, day, t) {
      var c :| c in run.cases && c.key == t.test;
      var row := RawRow(run, c);
      assert Records(row, run, c) && RecordsRun(row, run);
      assert ShowsRow(runs, row) && IsRowOf(row, day, t);
    }
    if row :| ShowsRow(runs, row) && IsRowOf(row, day, t) {
      var run :| run in runs && RecordsRun(row, run);
      assert Reads(run, day, t);
    }
  }

  /** What the per-day loop leaves of a day's tests. */
  lemma DayAfterLoop(s: Store, runs: seq<Run>, force: bool, days: seq<int>, day: int, t: Stored)
    ensures var after := RollDays(s, runs, force, days);
            t in StoredTests(after.raws, day) <==>
            if Rewrites(s, runs, force, days, day) then Shows(runs, day, t) else t in StoredTests(s.raws, day)
  {
    var after := RollDays(s, runs, force, days);
    ShownRow(runs, day, t);
    forall row: Raw | row.key.day == day
      ensures row in after.raws <==> if Rewrites(s, runs, force, days, day) then ShowsRow(runs, row) else row in s.raws
    {
      RowAfterLoop(s, runs, force, days, row);
    }
    assert t in StoredTests(after.raws, day) <==> exists row :: row in after.raws && IsRowOf(row, day, t);
    assert t in StoredTests(s.raws, day) <==> exists row :: row in s.raws && IsRowOf(row, day, t);
  }

  /** The pass rewrites the day and no longer shows a test that is stored. */
  predicate Loses(s: Store, p: Pass, day: int) {
    && Rewrites(s, p.runs, p.force, DaysOf(p.runs), day)
    && exists t :: t in StoredTests(s.raws, day) && !Shows(p.runs, day, t)
  }

  /** Which pass writes a day, after any passes: one that lists a run of it and is forced, or
      has pruned it, or read every run stored for it again. */
  lemma WritesExactlyWhen(passes: seq<Pass>, p: Pass, day: int)
    requires AllProper(passes) && Proper(p.runs)
    ensures WritesDay(Passes(passes), p, day) <==>
            && (exists run :: run in p.runs && run.day == day)
            && (p.force || p.cutoff > day || StoredRuns(Passes(passes).raws, day) <= ParsedIds(DayRuns(p.runs, day)))
  {
    var s := Passes(passes);
    CoverageNamesTheStoredRuns(passes, day);
    ProperFilter(p.runs, day);
    ParsedAreCounted(DayRuns(p.runs, day));
    var read := ParsedIds(DayRuns(p.runs, day));
    if day in s.days && s.days[day].ids <= read {
      SubsetSize(s.days[day].ids, read);
    }
  }

  /** A pass keeps every stored outcome of a retained day's runs and tests exactly when it
      does not rewrite the day, or shows all of them again. */
  lemma PassKeepsTestsExactlyWhen(s: Store, p: Pass, day: int)
    requires p.cutoff <= day
    ensures StoredTests(s.raws, day) <= StoredTests(RunPass(s, p).raws, day) <==> !Loses(s, p, day)
  {
    var pruned, days := PruneDays(s, p.cutoff), SortBy(Same, DaysOf(p.runs));
    assert StoredTests(pruned.raws, day) == StoredTests(s.raws, day);
    forall t ensures t in StoredTests(RunPass(s, p).raws, day) <==>
        if Rewrites(s, p.runs, p.force, DaysOf(p.runs), day) then Shows(p.runs, day, t) else t in StoredTests(s.raws, day)
    {
      DayAfterLoop(pruned, p.runs, p.force, days, day, t);
    }
  }

  /** The n-th pass leaves the day with every run and test it had. */
  predicate KeepsTests(passes: seq<Pass>, n: nat, day: int)
    requires n < |passes|
  {
    StoredTests(Passes(passes[..n]).raws, day) <= StoredTests(Passes(passes[..n + 1]).raws, day)
  }

  /** So over any passes a retained day's stored runs and tests only grow exactly when no
      pass loses one. */
  lemma RetainedTestsOnlyGrowExactlyWhen(passes: seq<Pass>, from: nat, day: int)
    requires from <= |passes| && forall n :: from <= n < |passes| ==> passes[n].cutoff <= day
    ensures (forall n :: from <= n < |passes| ==> KeepsTests(passes, n, day)) <==>
            forall n :: from <= n < |passes| ==> !Loses(Passes(passes[..n]), passes[n], day)
  {
    forall n | from <= n < |passes| ensures KeepsTests(passes, n, day) <==> !Loses(Passes(passes[..n]), passes[n], day) {
      assert Front(passes[..n + 1]) == passes[..n];
      PassKeepsTestsExactlyWhen(Passes(passes[..n]), passes[n], day);
    }
  }

  /** A pass over one run of the day. */
  lemma OneRun(run: Run)
    requires run.cases != []
    ensures DayRuns([run], run.day) == [run] && SortBy(Same, DaysOf([run])) == [run.day]
    ensures CoverageOf([run]) == Coverage(1, 1, 0, {run.id})
    ensures DistinctTests(run.cases) ==> Proper([run])
  {
    assert Front([run]) == [] && run in [run];
    assert DaysOf([run]) == [run.day];
    assert Front([run.day]) == [];
    assert ParsedIds([run]) == {run.id};
  }

  lemma OneRunPass(s: Store, run: Run, t: Stored)
    requires run.cases != []
    ensures var after := RunPass(s, Pass([run], false, run.day));
            && (t in StoredTests(after.raws, run.day) <==>
                if MayReplace(s, [run], false, run.day) then Reads(run, run.day, t) else t in StoredTests(s.raws, run.day))
            && (MayReplace(s, [run], false, run.day) ==> run.day in after.days && after.days[run.day] == CoverageOf([run]))
  {
    OneRun(run);
    var pruned, day := PruneDays(s, run.day), run.day;
    assert StoredTests(pruned.raws, day) == StoredTests(s.raws, day);
    DayAfterLoop(pruned, [run], false, [day], day, t);
    assert run in [run];
    assert Front([day]) == [];
    assert RollDays(pruned, [run], false, [day]) == RollDay(pruned, [run], false, day);
  }

  /** A run read twice leaves its day with what the second reading shows. */
  lemma SecondReadingStays(run: Run, again: Run, t: Stored)
    requires run.cases != [] && again.cases != [] && again.id == run.id && again.day == run.day
    ensures var full, second := Pass([run], false, run.day), Pass([again], false, run.day);
            && (t in StoredTests(Passes([full]).raws, run.day) <==> Reads(run, run.day, t))
            && (t in StoredTests(Passes([full, second]).raws, run.day) <==> Reads(again, run.day, t))
  {
    var full, second := Pass([run], false, run.day), Pass([again], false, run.day);
    assert Front([full]) == [] && Front([full, second]) == [full];
    OneRunPass(EMPTY, run, t);
    OneRun(run);
    OneRun(again);
    OneRunPass(Passes([full]), again, t);
  }

  /** "Never replace a stored day with a thinner pass": the same run, read again after one
      of its artifacts expired, replaces its two outcomes by one. */
  lemma ThinnerPassReplacesTheDay(run: Run, rest: Run)
    requires |run.cases| == 2 && run.cases[0].key != run.cases[1].key && rest == run.(cases := run.cases[1..])
    ensures Proper([run]) && Proper([rest])
    ensures var full, thinner := Pass([run], false, run.day), Pass([rest], false, run.day);
            var t := Stored(run.id, run.cases[0].key);
            && t in StoredTests(Passes([full]).raws, run.day)
            && t !in StoredTests(Passes([full, thinner]).raws, run.day)
  {
    var t := Stored(run.id, run.cases[0].key);
    OneRun(run);
    OneRun(rest);
    assert Reads(run, run.day, t) && !Reads(rest, run.day, t) by {
      assert run.cases[0] in run.cases && rest.cases == [run.cases[1]];
    }
    SecondReadingStays(run, rest, t);
  }
}

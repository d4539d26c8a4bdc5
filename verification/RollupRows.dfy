/** Which raw rows the rollup stores: column by column the outcomes of the pass that last
    wrote the day, all of them and nothing else. */
module RollupRows {
  import opened Common
  import opened Sequences
  import opened Percentiles
  import opened JUnitOutcomes
  import opened TestRollup

  /** The row is the outcome of that test in that run, under the run's own labels. */
  predicate Records(row: Raw, run: Run, c: Case) {
    && row.run == run.id
    && row.key.day == run.day && row.key.repo == run.repo && row.key.workflow == run.workflow && row.key.sha == run.sha
    && row.key.test == c.key && row.passed == c.passed && row.duration == c.duration
  }

  predicate RecordsRun(row: Raw, run: Run) {
    exists c :: c in run.cases && Records(row, run, c)
  }

  predicate ShowsRow(runs: seq<Run>, row: Raw) {
    exists run :: run in runs && RecordsRun(row, run)
  }

  lemma RowsOfRun(run: Run, row: Raw)
    ensures row in RawOf(run, run.cases) <==> RecordsRun(row, run)
  {
    var rows := RawOf(run, run.cases);
    if c :| c in run.cases && Records(row, run, c) {
      var k :| 0 <= k < |run.cases| && run.cases[k] == c;
      assert rows[k] == row;
    }
    if row in rows {
      var k :| 0 <= k < |rows| && rows[k] == row;
      assert run.cases[k] in run.cases && Records(row, run, run.cases[k]);
    }
  }

  lemma {:induction false} RowsOfRuns(runs: seq<Run>, row: Raw)
    ensures row in RawRows(runs) <==> ShowsRow(runs, row)
  {
    if runs != [] {
      assert runs == Front(runs) + [Last(runs)];
      RowsOfRuns(Front(runs), row);
      RowsOfRun(Last(runs), row);
    }
  }

  lemma RowsOfDay(runs: seq<Run>, row: Raw)
    ensures row in RawRows(DayRuns(runs, row.key.day)) <==> ShowsRow(runs, row)
  {
    RowsOfRuns(DayRuns(runs, row.key.day), row);
  }

  /** The pass rewrites the day: it lists a run of it, and the guards let it. */
  predicate Rewrites(s: Store, runs: seq<Run>, force: bool, days: seq<int>, day: int) {
    day in days && MayReplace(s, runs, force, day)
  }

  /** What the per-day loop leaves of a day: the rows of this pass if it rewrites the day,
      and else what was there. */
  lemma {:induction false} RowAfterLoop(s: Store, runs: seq<Run>, force: bool, days: seq<int>, row: Raw)
    ensures var after, day := RollDays(s, runs, force, days), row.key.day;
            && (MayReplace(after, runs, force, day) <==> MayReplace(s, runs, force, day))
            && (row in after.raws <==> if Rewrites(s, runs, force, days, day) then ShowsRow(runs, row) else row in s.raws)
  {
    if days != [] {
      var front, d := Front(days), Last(days);
      assert days == front + [d];
      RowAfterLoop(s, runs, force, front, row);
      RowAfterRoll(RollDays(s, runs, force, front), runs, force, d, row);
    }
  }

  lemma RowAfterRoll(s: Store, runs: seq<Run>, force: bool, d: int, row: Raw)
    ensures var after, day := RollDay(s, runs, force, d), row.key.day;
            && (MayReplace(after, runs, force, day) <==> MayReplace(s, runs, force, day))
            && (row in after.raws <==> if d == day && MayReplace(s, runs, force, day) then ShowsRow(runs, row) else row in s.raws)
  {
    if MayReplace(s, runs, force, d) {
      RawRowsOfDay(DayRuns(runs, d), d);
      RowsOfDay(runs, row);
      assert row in OtherDays(s.raws, d) <==> row in s.raws && row.key.day != d;
    }
  }

  // -- over any passes --------------------------------------------------------------------

  predicate WritesDay(s: Store, p: Pass, day: int) {
    Rewrites(PruneDays(s, p.cutoff), p.runs, p.force, DaysOf(p.runs), day)
  }

  /** The n-th pass writes the day. */
  predicate Writes(passes: seq<Pass>, n: int, day: int) {
    0 <= n < |passes| && WritesDay(Passes(passes[..n]), passes[n], day)
  }

  /** The pass whose rows a day holds, -1 for none. */
  function Writer(passes: seq<Pass>, day: int): (w: int)
    ensures -1 <= w < |passes|
  {
    if passes == [] then -1
    else if WritesDay(Passes(Front(passes)), Last(passes), day) then |passes| - 1
    else if Last(passes).cutoff > day then -1
    else Writer(Front(passes), day)
  }

  lemma WritesOfFront(passes: seq<Pass>, m: int, day: int)
    requires passes != []
    ensures Writes(passes, m, day) <==>
            if m == |passes| - 1 then WritesDay(Passes(Front(passes)), Last(passes), day) else Writes(Front(passes), m, day)
  {
    assert 0 <= m < |passes| ==> passes[..m] == if m == |passes| - 1 then Front(passes) else Front(passes)[..m];
  }

  predicate Untouched(passes: seq<Pass>, m: int, day: int) {
    0 <= m < |passes| ==> !Writes(passes, m, day) && passes[m].cutoff <= day
  }

  /** It is the last pass that wrote the day, unless a later one pruned the day. */
  lemma {:induction false} WriterIsTheLast(passes: seq<Pass>, day: int, n: nat)
    requires n < |passes|
    ensures Writer(passes, day) == n <==> Writes(passes, n, day) && forall m :: n < m ==> Untouched(passes, m, day)
  {
    var front, k := Front(passes), |passes| - 1;
    WritesOfFront(passes, n, day);
    if n < k {
      WriterIsTheLast(front, day, n);
      WritesOfFront(passes, k, day);
      forall m | n < m ensures Untouched(passes, m, day) <==>
          if m == k then !WritesDay(Passes(front), Last(passes), day) && Last(passes).cutoff <= day else Untouched(front, m, day)
      {
        WritesOfFront(passes, m, day);
      }
      assert Untouched(passes, k, day) <==> !WritesDay(Passes(front), Last(passes), day) && Last(passes).cutoff <= day;
      assert Untouched(front, k, day);
    }
  }

  lemma RowAfterPass(s: Store, p: Pass, row: Raw)
    ensures row in RunPass(s, p).raws <==>
            if WritesDay(s, p, row.key.day) then ShowsRow(p.runs, row) else row in s.raws && row.key.day >= p.cutoff
  {
    RowAfterLoop(PruneDays(s, p.cutoff), p.runs, p.force, SortBy(Same, DaysOf(p.runs)), row);
  }

  /** Over any passes a row is stored exactly when it is the outcome of a test in a run of the
      pass whose rows its day holds. */
  lemma {:induction false} StoredRowsAreTheWritersOutcomes(passes: seq<Pass>, row: Raw)
    ensures row in Passes(passes).raws <==>
            var w := Writer(passes, row.key.day); w >= 0 && ShowsRow(passes[w].runs, row)
  {
    if passes != [] {
      StoredRowsAreTheWritersOutcomes(Front(passes), row);
      RowAfterPass(Passes(Front(passes)), Last(passes), row);
    }
  }
}

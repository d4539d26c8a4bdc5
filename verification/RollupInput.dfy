/** What one rollup pass is made of: the candidate runs of the exporter's rows, each with
    the outcomes of its JUnit files. Such passes meet the premises of RollupHistory. */
module RollupInput {
  import opened Common
  import opened Sequences
  import opened Percentiles
  import opened CandidateRuns
  import opened JUnitOutcomes
  import opened TestRollup
  import opened RollupHistory
  import opened RollupRows

  datatype Label = Label(repo: string, workflow: string)

  /** The rows read from the exporter, the label and the readable files of each run, and
      the one day asked for, if any. */
  datatype Input = Input(rows: seq<JobRow>, labels: int -> Label, files: int -> seq<File>,
                         only: Option<int>, force: bool, cutoff: int)

  /** A run without a creation time sorts before every date. */
  const NO_DAY := -1

  function CreatedKey(c: Option<int>): int {
    if c.None? then NO_DAY else c.value
  }

  function DayOf(c: Option<int>): int {
    if c.None? then NO_DAY else c.value / DAY
  }

  /** One outcome per test of the run's files; none when a file cannot be read. */
  function CasesOf(files: seq<File>): seq<Case> {
    var elements := Elements(files);
    if elements.None? then []
    else
      var order := Order(elements.value);
      seq(|order|, k requires 0 <= k < |order| && order[k] in order => Outcome(elements.value, order[k]).value)
  }

  lemma CasesAreDistinct(files: seq<File>)
    ensures DistinctTests(CasesOf(files))
  {
    if Elements(files).Some? {
      ParsedTestsAreDistinct(Elements(files).value, CasesOf(files));
    }
  }

  /** The candidate runs in order of first appearance, each once. */
  function RunIds(rows: seq<JobRow>): (ids: seq<int>)
    ensures forall run :: run in ids <==> IsCandidate(rows, run)
  {
    if rows == [] then []
    else
      var before, row := RunIds(Front(rows)), Last(rows);
      assert rows == Front(rows) + [row];
      if row.run.Some? && row.e2e && row.run.value !in before then before + [row.run.value] else before
  }

  lemma {:induction false} RunIdsAreDistinct(rows: seq<JobRow>)
    ensures Distinct(RunIds(rows))
  {
    if rows != [] {
      RunIdsAreDistinct(Front(rows));
    }
  }

  lemma {:induction false} DistinctMultiset<T>(xs: seq<T>)
    ensures Distinct(xs) <==> forall x :: multiset(xs)[x] <= 1
  {
    if xs != [] {
      DistinctMultiset(Front(xs));
      assert xs == Front(xs) + [Last(xs)];
      assert forall x :: multiset(xs)[x] == multiset(Front(xs))[x] + if x == Last(xs) then 1 else 0;
      assert Last(xs) in Front(xs) <==> multiset(Front(xs))[Last(xs)] > 0;
      if Distinct(xs) {
        assert Distinct(Front(xs)) && Last(xs) !in Front(xs);
      }
    }
  }

  /** Oldest first, the run id deciding between equal times: the source's sort key. */
  function Ordered(rows: seq<JobRow>): seq<int> {
    SortBy((run: int) => CreatedKey(Created(rows, run)), SortBy(Same, RunIds(rows)))
  }

  lemma OrderedIsDistinct(rows: seq<JobRow>)
    ensures Distinct(Ordered(rows))
    ensures forall run :: run in Ordered(rows) <==> IsCandidate(rows, run)
  {
    RunIdsAreDistinct(rows);
    DistinctMultiset(RunIds(rows));
    DistinctMultiset(Ordered(rows));
    assert multiset(Ordered(rows)) == multiset(RunIds(rows));
  }

  function FetchedRun(input: Input, run: int): Run {
    var created := Created(input.rows, run);
    Run(run, DayOf(created), input.labels(run).repo, input.labels(run).workflow, SourceSha(input.rows, run),
        CasesOf(input.files(run)))
  }

  function Fetched(input: Input, ids: seq<int>): seq<Run> {
    if ids == [] then [] else Fetched(input, Front(ids)) + [FetchedRun(input, Last(ids))]
  }

  function RunsOfPass(input: Input): seq<Run> {
    var runs := Fetched(input, Ordered(input.rows));
    if input.only.None? then runs else DayRuns(runs, input.only.value)
  }

  function PassOf(input: Input): Pass {
    Pass(RunsOfPass(input), input.force, input.cutoff)
  }

  function PassesOf(inputs: seq<Input>): seq<Pass> {
    if inputs == [] then [] else PassesOf(Front(inputs)) + [PassOf(Last(inputs))]
  }

  // -- the premises of the rollup's history ---------------------------------------------

  lemma {:induction false} FetchedIsProper(input: Input, ids: seq<int>)
    requires Distinct(ids)
    ensures Proper(Fetched(input, ids))
    ensures forall r :: r in Fetched(input, ids) ==> r.id in ids
  {
    if ids != [] {
      var front, last := Front(ids), Last(ids);
      assert ids == front + [last];
      assert Distinct(front) && last !in front;
      FetchedIsProper(input, front);
      CasesAreDistinct(input.files(last));
      assert Front(Fetched(input, ids)) == Fetched(input, front);
      assert Last(Fetched(input, ids)) == FetchedRun(input, last);
    }
  }

  /** Every run once, every test once in a run, whatever rows and files are read. */
  lemma RunsOfPassAreProper(input: Input)
    ensures Proper(RunsOfPass(input))
  {
    OrderedIsDistinct(input.rows);
    FetchedIsProper(input, Ordered(input.rows));
    if input.only.Some? {
      ProperFilter(Fetched(input, Ordered(input.rows)), input.only.value);
    }
  }

  lemma {:induction false} PassesAreProper(inputs: seq<Input>)
    ensures AllProper(PassesOf(inputs)) && |PassesOf(inputs)| == |inputs|
  {
    if inputs != [] {
      PassesAreProper(Front(inputs));
      RunsOfPassAreProper(Last(inputs));
    }
  }

  /** So over any sequence of rows, files, forces and cutoffs each stored aggregate counts
      the distinct stored runs with its test, and each day names its stored runs. */
  lemma RollupOfAnyInputs(inputs: seq<Input>, key: Key, day: int)
    ensures var s := Passes(PassesOf(inputs));
            && Named(s, day)
            && (key in s.rollup ==>
                  s.rollup[key].runs == s.rollup[key].passes + s.rollup[key].failures == |RunsOf(s.raws, key)| > 0)
  {
    PassesAreProper(inputs);
    CoverageNamesTheStoredRuns(PassesOf(inputs), day);
    if key in Passes(PassesOf(inputs)).rollup {
      AggregatesCountRuns(PassesOf(inputs), key);
    }
  }

  // -- what an aggregate counts, down to the rows and files that were read -------------------

  /** The run of the exporter's rows is rolled up under this key: it is a candidate of that
      day, with that label and SHA, and the day was asked for. */
  predicate RunsUnder(input: Input, key: Key, run: int) {
    && IsCandidate(input.rows, run) && DayOf(Created(input.rows, run)) == key.day
    && input.labels(run) == Label(key.repo, key.workflow) && SourceSha(input.rows, run) == key.sha
    && (input.only.Some? ==> input.only.value == key.day)
  }

  /** The run's files can all be read, and a testcase of the test ran. */
  predicate TestRan(files: seq<File>, test: TestKey) {
    (forall f :: f in files ==> f.Readable?) && exists f :: f in files && RanIn(f, test)
  }

  predicate RanIn(f: File, test: TestKey) {
    f.Readable? && exists e :: e in f.elements && e.named && !e.skipped && e.key == test
  }

  predicate FailedIn(f: File, test: TestKey) {
    f.Readable? && exists e :: e in f.elements && e.named && !e.skipped && e.key == test && e.failed
  }

  /** It ran, and no testcase of it that ran is marked as failed. */
  predicate TestPassed(files: seq<File>, test: TestKey) {
    TestRan(files, test) && forall f :: f in files ==> !FailedIn(f, test)
  }

  function RunsWith(input: Input, key: Key): set<int> {
    set run | run in RunIds(input.rows) && RunsUnder(input, key, run) && TestRan(input.files(run), key.test)
  }

  function RunsPassing(input: Input, key: Key): set<int> {
    set run | run in RunIds(input.rows) && RunsUnder(input, key, run) && TestPassed(input.files(run), key.test)
  }

  lemma RanInFiles(files: seq<File>, test: TestKey)
    requires Elements(files).Some?
    ensures TestRan(files, test) <==> Outcome(Elements(files).value, test).Some?
    ensures TestRan(files, test) ==> (TestPassed(files, test) <==> Outcome(Elements(files).value, test).value.passed)
  {
    var all := Elements(files).value;
    ReadableFiles(files);
    OutcomeMeaning(all, test);
    forall e ensures e in all <==> exists f :: f in files && InFile(f, e) {
      ElementsMeaning(files, e);
    }
    if e :| e in all && Ran(e) && e.key == test {
      var f :| f in files && InFile(f, e);
      assert RanIn(f, test);
    }
    if e :| e in all && Ran(e) && e.key == test && e.failed {
      var f :| f in files && InFile(f, e);
      assert FailedIn(f, test);
    }
    forall f, e | f in files && f.Readable? && e in f.elements ensures e in all {
      assert InFile(f, e);
    }
  }

  predicate HasCase(files: seq<File>, test: TestKey, passed: bool) {
    exists c :: c in CasesOf(files) && c.key == test && c.passed == passed
  }

  /** One run's outcome of a test, down to the files. */
  lemma CaseOfTest(files: seq<File>, test: TestKey, passed: bool)
    ensures HasCase(files, test, passed) <==> TestRan(files, test) && (TestPassed(files, test) <==> passed)
  {
    ReadableFiles(files);
    if Elements(files).Some? {
      var all := Elements(files).value;
      var order, cases := Order(all), CasesOf(files);
      RanInFiles(files, test);
      if c :| c in cases && c.key == test && c.passed == passed {
        var k :| 0 <= k < |cases| && cases[k] == c;
        assert Some(cases[k]) == Outcome(all, order[k]) && order[k] == test;
      }
      if test in order && Outcome(all, test).value.passed == passed {
        var k :| 0 <= k < |order| && order[k] == test;
        assert Some(cases[k]) == Outcome(all, test);
        assert cases[k] in cases;
      }
    }
  }

  lemma {:induction false} FetchedRuns(input: Input, ids: seq<int>, run: Run)
    ensures run in Fetched(input, ids) <==> run.id in ids && run == FetchedRun(input, run.id)
  {
    if ids != [] {
      assert ids == Front(ids) + [Last(ids)];
      FetchedRuns(input, Front(ids), run);
    }
  }

  lemma RunsOfPassMeaning(input: Input, run: Run)
    ensures run in RunsOfPass(input) <==>
            && IsCandidate(input.rows, run.id) && run == FetchedRun(input, run.id)
            && (input.only.Some? ==> run.day == input.only.value)
  {
    OrderedIsDistinct(input.rows);
    FetchedRuns(input, Ordered(input.rows), run);
  }

  /** A stored outcome of the run's test, whatever its duration. */
  predicate HasRow(raws: seq<Raw>, key: Key, run: int, passed: bool) {
    exists row :: row in raws && row.key == key && row.run == run && row.passed == passed
  }

  predicate ShowsOutcome(runs: seq<Run>, key: Key, run: int, passed: bool) {
    exists r :: r in runs && r.id == run && r.day == key.day && Label(r.repo, r.workflow) == Label(key.repo, key.workflow)
                && r.sha == key.sha && exists c :: c in r.cases && c.key == key.test && c.passed == passed
  }

  lemma RowsShowOutcomes(passes: seq<Pass>, key: Key, run: int, passed: bool)
    ensures HasRow(Passes(passes).raws, key, run, passed) <==>
            var w := Writer(passes, key.day); w >= 0 && ShowsOutcome(passes[w].runs, key, run, passed)
  {
    var w := Writer(passes, key.day);
    if row :| row in Passes(passes).raws && row.key == key && row.run == run && row.passed == passed {
      StoredRowsAreTheWritersOutcomes(passes, row);
      var r :| r in passes[w].runs && RecordsRun(row, r);
    }
    if w >= 0 && ShowsOutcome(passes[w].runs, key, run, passed) {
      var r :| r in passes[w].runs && r.id == run && r.day == key.day && Label(r.repo, r.workflow) == Label(key.repo, key.workflow)
               && r.sha == key.sha && exists c :: c in r.cases && c.key == key.test && c.passed == passed;
      var c :| c in r.cases && c.key == key.test && c.passed == passed;
      var row := Raw(key, run, passed, c.duration);
      assert Records(row, r, c) && RecordsRun(row, r) && ShowsRow(passes[w].runs, row);
      StoredRowsAreTheWritersOutcomes(passes, row);
    }
  }

  lemma InputShowsOutcomes(input: Input, key: Key, run: int, passed: bool)
    ensures ShowsOutcome(RunsOfPass(input), key, run, passed) <==>
            RunsUnder(input, key, run) && HasCase(input.files(run), key.test, passed)
  {
    var fetched := FetchedRun(input, run);
    RunsOfPassMeaning(input, fetched);
    if r :| && r in RunsOfPass(input) && r.id == run && r.day == key.day
            && Label(r.repo, r.workflow) == Label(key.repo, key.workflow)
            && r.sha == key.sha && exists c :: c in r.cases && c.key == key.test && c.passed == passed {
      RunsOfPassMeaning(input, r);
      assert r == fetched;
    }
  }

  lemma {:induction false} PassOfInput(inputs: seq<Input>, n: nat)
    requires n < |inputs|
    ensures |PassesOf(inputs)| == |inputs| && PassesOf(inputs)[n] == PassOf(inputs[n])
  {
    if n < |inputs| - 1 {
      PassOfInput(Front(inputs), n);
    }
    PassesAreProper(inputs);
  }

  /** The input whose runs a day holds, -1 for none. */
  function WriterOf(inputs: seq<Input>, day: int): (w: int)
    ensures -1 <= w < |inputs|
  {
    PassesAreProper(inputs);
    Writer(PassesOf(inputs), day)
  }

  lemma OutcomesAreStored(inputs: seq<Input>, key: Key, run: int, passed: bool)
    ensures HasRow(Passes(PassesOf(inputs)).raws, key, run, passed) <==>
            var w := WriterOf(inputs, key.day);
            w >= 0 && RunsUnder(inputs[w], key, run) && HasCase(inputs[w].files(run), key.test, passed)
  {
    RowsShowOutcomes(PassesOf(inputs), key, run, passed);
    var w := WriterOf(inputs, key.day);
    if w >= 0 {
      PassOfInput(inputs, w);
      InputShowsOutcomes(inputs[w], key, run, passed);
    }
  }

  lemma StoredRunsOfKey(inputs: seq<Input>, key: Key, run: int)
    ensures var raws, w := Passes(PassesOf(inputs)).raws, WriterOf(inputs, key.day);
            && (run in RunsOf(raws, key) <==> w >= 0 && run in RunsWith(inputs[w], key))
            && (run in PassingRuns(raws, key) <==> w >= 0 && run in RunsPassing(inputs[w], key))
  {
    var raws, w := Passes(PassesOf(inputs)).raws, WriterOf(inputs, key.day);
    OutcomesAreStored(inputs, key, run, true);
    OutcomesAreStored(inputs, key, run, false);
    assert run in RunsOf(raws, key) <==> HasRow(raws, key, run, true) || HasRow(raws, key, run, false);
    assert run in PassingRuns(raws, key) <==> HasRow(raws, key, run, true);
    if w >= 0 {
      CaseOfTest(inputs[w].files(run), key.test, true);
      CaseOfTest(inputs[w].files(run), key.test, false);
    }
  }

  lemma AggregateCountsStoredRuns(passes: seq<Pass>, key: Key)
    requires AllProper(passes)
    ensures var s := Passes(passes);
            && (key in s.rollup <==> RunsOf(s.raws, key) != {})
            && (key in s.rollup ==>
                  s.rollup[key].runs == |RunsOf(s.raws, key)| && s.rollup[key].passes == |PassingRuns(s.raws, key)|)
  {
    var s := Passes(passes);
    StoredOnce(passes);
    AggregateIsTheAggregation(passes, key);
    RunsAreDistinct(s.raws, key);
    PassesAreDistinct(s.raws, key);
    assert HasKey(s.raws, key) <==> RunsOf(s.raws, key) != {} by {
      if r :| r in s.raws && r.key == key {
        assert r.run in RunsOf(s.raws, key);
      }
    }
  }

  lemma SetsOfKey(inputs: seq<Input>, key: Key)
    ensures var raws, w := Passes(PassesOf(inputs)).raws, WriterOf(inputs, key.day);
            && RunsOf(raws, key) == (if w >= 0 then RunsWith(inputs[w], key) else {})
            && PassingRuns(raws, key) == (if w >= 0 then RunsPassing(inputs[w], key) else {})
  {
    var raws, w := Passes(PassesOf(inputs)).raws, WriterOf(inputs, key.day);
    forall run ensures run in RunsOf(raws, key) <==> w >= 0 && run in RunsWith(inputs[w], key) {
      StoredRunsOfKey(inputs, key, run);
    }
    forall run ensures run in PassingRuns(raws, key) <==> w >= 0 && run in RunsPassing(inputs[w], key) {
      StoredRunsOfKey(inputs, key, run);
    }
  }

  /** Over any sequence of inputs a stored aggregate counts runs of the input whose rows its
      day holds: those in which the test ran, and as passes those of them in which no
      testcase of it that ran is marked as failed. It is stored exactly when there is one. */
  lemma AggregatesCountTheFiles(inputs: seq<Input>, key: Key)
    ensures var s, w := Passes(PassesOf(inputs)), WriterOf(inputs, key.day);
            && (key in s.rollup <==> w >= 0 && RunsWith(inputs[w], key) != {})
            && (key in s.rollup ==>
                  && s.rollup[key].runs == |RunsWith(inputs[w], key)|
                  && s.rollup[key].passes == |RunsPassing(inputs[w], key)|)
  {
    PassesAreProper(inputs);
    AggregateCountsStoredRuns(PassesOf(inputs), key);
    SetsOfKey(inputs, key);
  }

  // -- as the program builds a pass ---------------------------------------------------------

  /** The candidates, oldest first, each with the outcomes of its files. */
  method ListAndFetch(input: Input) returns (runs: seq<Run>)
    ensures runs == RunsOfPass(input)
  {
    var candidates := Candidates(input.rows);
    OrderedIsDistinct(input.rows);
    runs := FetchAll(input, Ordered(input.rows), candidates);
    if input.only.Some? {
      runs := DayRuns(runs, input.only.value);
    }
  }

  method FetchAll(input: Input, order: seq<int>, candidates: map<int, Candidate>) returns (runs: seq<Run>)
    requires forall run :: run in order ==> run in candidates
    requires forall run :: run in candidates ==>
               candidates[run] == Candidate(SourceSha(input.rows, run), Created(input.rows, run))
    ensures runs == Fetched(input, order)
  {
    runs := [];
    for i := 0 to |order|
      invariant runs == Fetched(input, order[..i])
    {
      assert Front(order[..i + 1]) == order[..i];
      assert order[i] in order;
      var run := FetchOne(input, order[i], candidates[order[i]]);
      runs := runs + [run];
    }
    assert order[..|order|] == order;
  }

  /** One run's outcomes; a run whose files cannot be read keeps none. */
  method FetchOne(input: Input, run: int, candidate: Candidate) returns (fetched: Run)
    requires candidate == Candidate(SourceSha(input.rows, run), Created(input.rows, run))
    ensures fetched == FetchedRun(input, run)
  {
    var cases := ParseOutcomes(input.files(run));
    if cases.Some? {
      SameCases(input.files(run), cases.value);
    }
    var names := input.labels(run);
    return Run(run, DayOf(candidate.created), names.repo, names.workflow, candidate.sha,
               if cases.Some? then cases.value else []);
  }

  lemma SameCases(files: seq<File>, cases: seq<Case>)
    requires Elements(files).Some?
    requires var elements, order := Elements(files).value, Order(Elements(files).value);
             |cases| == |order| && forall k :: 0 <= k < |order| ==> Some(cases[k]) == Outcome(elements, order[k])
    ensures cases == CasesOf(files)
  {
    forall k | 0 <= k < |cases| ensures cases[k] == CasesOf(files)[k] {
      assert Some(cases[k]) == Outcome(Elements(files).value, Order(Elements(files).value)[k]);
    }
  }
}

/** The daily per-test rollup of ci_observe_trends.py: an aggregate table and the raw
    rows behind it, replaced together a day at a time, and without force only by a pass
    that read every run of the stored day; of such a run it may have read less. */
module TestRollup {
  import opened Common
  import opened Sequences
  import opened Percentiles
  import opened JUnitOutcomes

  /** A run of one pass; `cases` is empty when no artifact could be read. */
  datatype Run = Run(id: int, day: int, repo: string, workflow: string, sha: string, cases: seq<Case>)

  datatype Key = Key(day: int, repo: string, workflow: string, test: TestKey, sha: string)

  /** One row per test per run; durations are whole milliseconds. */
  datatype Raw = Raw(key: Key, run: int, passed: bool, duration: Option<int>)

  datatype Group = Group(runs: nat, passes: nat, failures: nat, durations: seq<int>)

  /** A sum and a count, instead of the rounded quotient. */
  datatype Mean = Mean(sum: int, count: nat)

  datatype Stats = Stats(runs: nat, passes: nat, failures: nat,
                         p50: Option<int>, p95: Option<int>, p99: Option<int>, mean: Option<Mean>)

  // -- from runs to raw rows, from raw rows to aggregates -----------------------------

  function RawRow(run: Run, c: Case): Raw {
    Raw(Key(run.day, run.repo, run.workflow, c.key, run.sha), run.id, c.passed, c.duration)
  }

  function RawOf(run: Run, cases: seq<Case>): (rows: seq<Raw>)
    ensures |rows| == |cases| && forall k :: 0 <= k < |rows| ==> rows[k] == RawRow(run, cases[k])
  {
    seq(|cases|, k requires 0 <= k < |cases| => RawRow(run, cases[k]))
  }

  function RawRows(runs: seq<Run>): seq<Raw> {
    if runs == [] then [] else RawRows(Front(runs)) + RawOf(Last(runs), Last(runs).cases)
  }

  const NO_GROUP := Group(0, 0, 0, [])

  function Extend(g: Group, r: Raw): Group {
    Group(g.runs + 1,
          if r.passed then g.passes + 1 else g.passes,
          if r.passed then g.failures else g.failures + 1,
          if r.duration.Some? then g.durations + [r.duration.value] else g.durations)
  }

  /** The rows of one key, folded. */
  function GroupOf(raws: seq<Raw>, key: Key): Group {
    if raws == [] then NO_GROUP
    else
      var before := GroupOf(Front(raws), key);
      if Last(raws).key == key then Extend(before, Last(raws)) else before
  }

  function Sum(xs: seq<int>): int {
    if xs == [] then 0 else Sum(Front(xs)) + Last(xs)
  }

  /** What makes it the sum: a single value is itself, and two lists add up. */
  lemma {:induction false} SumIsAdditive(a: seq<int>, b: seq<int>, x: int)
    ensures Sum([x]) == x && Sum(a + b) == Sum(a) + Sum(b)
  {
    assert Front([x]) == [];
    if b == [] {
      assert a + b == a;
    } else {
      assert Front(a + b) == a + Front(b) && Last(a + b) == Last(b);
      SumIsAdditive(a, Front(b), x);
    }
  }

  function StatsOf(g: Group): Stats {
    Stats(g.runs, g.passes, g.failures,
          NearestRank(g.durations, 1, 2), NearestRank(g.durations, 19, 20), NearestRank(g.durations, 99, 100),
          if g.durations == [] then None else Some(Mean(Sum(g.durations), |g.durations|)))
  }

  predicate HasKey(raws: seq<Raw>, key: Key) {
    exists r :: r in raws && r.key == key
  }

  /** Passes, failures and known durations are those of the key's rows. */
  lemma {:induction false} GroupMeaning(raws: seq<Raw>, key: Key)
    ensures var g := GroupOf(raws, key);
            && g.runs == Count((r: Raw) => r.key == key, raws)
            && g.passes == Count((r: Raw) => r.key == key && r.passed, raws)
            && g.runs == g.passes + g.failures
            && |g.durations| == Count((r: Raw) => r.key == key && r.duration.Some?, raws)
            && (g.runs > 0 <==> HasKey(raws, key))
  {
    if raws != [] {
      GroupMeaning(Front(raws), key);
      assert raws == Front(raws) + [Last(raws)];
    }
  }

  /** The ids of the runs that contain the test of a key. */
  function RunsOf(raws: seq<Raw>, key: Key): set<int> {
    set r | r in raws && r.key == key :: r.run
  }

  predicate Unseen(raws: seq<Raw>, row: Raw) {
    forall r :: r in raws ==> r.key != row.key || r.run != row.run
  }

  /** No test twice in one run. */
  predicate OncePerRun(raws: seq<Raw>) {
    raws == [] || (OncePerRun(Front(raws)) && Unseen(Front(raws), Last(raws)))
  }

  /** So the number of rows is the number of distinct runs. */
  lemma {:induction false} RunsAreDistinct(raws: seq<Raw>, key: Key)
    requires OncePerRun(raws)
    ensures GroupOf(raws, key).runs == |RunsOf(raws, key)|
  {
    if raws != [] {
      var front, last := Front(raws), Last(raws);
      assert raws == front + [last];
      RunsAreDistinct(front, key);
      assert RunsOf(raws, key) == RunsOf(front, key) + if last.key == key then {last.run} else {};
    }
  }

  /** The ids of the runs in which the test of a key passed. */
  function PassingRuns(raws: seq<Raw>, key: Key): set<int> {
    set r | r in raws && r.key == key && r.passed :: r.run
  }

  /** And so is the number of passes. */
  lemma {:induction false} PassesAreDistinct(raws: seq<Raw>, key: Key)
    requires OncePerRun(raws)
    ensures GroupOf(raws, key).passes == |PassingRuns(raws, key)|
  {
    if raws != [] {
      var front, last := Front(raws), Last(raws);
      assert raws == front + [last];
      PassesAreDistinct(front, key);
      assert PassingRuns(raws, key) == PassingRuns(front, key) + if last.key == key && last.passed then {last.run} else {};
    }
  }

  // -- the loop that builds the aggregates -----------------------------------------------

  ghost predicate GroupsAgree(groups: map<Key, Group>, raws: seq<Raw>) {
    && (forall key :: key in groups <==> HasKey(raws, key))
    && (forall key :: key in groups ==> groups[key] == GroupOf(raws, key))
  }

  lemma GroupsAgreeStep(groups: map<Key, Group>, raws: seq<Raw>, r: Raw)
    requires GroupsAgree(groups, raws)
    ensures GroupsAgree(groups[r.key := Extend(if r.key in groups then groups[r.key] else NO_GROUP, r)], raws + [r])
  {
    assert Front(raws + [r]) == raws;
    if r.key !in groups {
      GroupMeaning(raws, r.key);
      NoRowsNoGroup(raws, r.key);
    }
  }

  lemma {:induction false} NoRowsNoGroup(raws: seq<Raw>, key: Key)
    requires !HasKey(raws, key)
    ensures GroupOf(raws, key) == NO_GROUP
  {
    if raws != [] {
      assert raws == Front(raws) + [Last(raws)];
      NoRowsNoGroup(Front(raws), key);
    }
  }

  /** `rollup_rows`: a dictionary of groups, one pass over every run's cases. */
  method RollupRows(runs: seq<Run>) returns (rows: map<Key, Stats>)
    ensures forall key :: key in rows <==> HasKey(RawRows(runs), key)
    ensures forall key :: key in rows ==> rows[key] == StatsOf(GroupOf(RawRows(runs), key))
  {
    var groups: map<Key, Group> := map[];
    for i := 0 to |runs|
      invariant GroupsAgree(groups, RawRows(runs[..i]))
    {
      assert Front(runs[..i + 1]) == runs[..i];
      groups := AddRun(runs[i], groups, RawRows(runs[..i]));
    }
    assert runs[..|runs|] == runs;
    rows := map key | key in groups :: StatsOf(groups[key]);
  }

  method AddRun(run: Run, groups0: map<Key, Group>, ghost before: seq<Raw>) returns (groups: map<Key, Group>)
    requires GroupsAgree(groups0, before)
    ensures GroupsAgree(groups, before + RawOf(run, run.cases))
  {
    groups := groups0;
    ghost var added := RawOf(run, run.cases);
    assert before + added[..0] == before;
    for k := 0 to |run.cases|
      invariant GroupsAgree(groups, before + added[..k])
    {
      var c := run.cases[k];
      var key := Key(run.day, run.repo, run.workflow, c.key, run.sha);
      var group := if key in groups then groups[key] else NO_GROUP;
      assert added[k] == RawRow(run, c);
      group := CountCase(group, c, added[k]);
      GroupsAgreeStep(groups, before + added[..k], added[k]);
      assert before + added[..k] + [added[k]] == before + added[..k + 1];
      groups := groups[key := group];
    }
    assert added[..|added|] == added;
  }

  method CountCase(before: Group, c: Case, ghost row: Raw) returns (group: Group)
    requires row.passed == c.passed && row.duration == c.duration
    ensures group == Extend(before, row)
  {
    group := before.(runs := before.runs + 1);
    if c.passed {
      group := group.(passes := group.passes + 1);
    } else {
      group := group.(failures := group.failures + 1);
    }
    if c.duration.Some? {
      group := group.(durations := group.durations + [c.duration.value]);
    }
  }

  // -- the store ---------------------------------------------------------------------------

  /** The coverage row of a day. */
  datatype Coverage = Coverage(listed: nat, parsed: nat, unavailable: nat, ids: set<int>)

  /** The three tables. */
  datatype Store = Store(rollup: map<Key, Stats>, raws: seq<Raw>, days: map<int, Coverage>)

  const EMPTY := Store(map[], [], map[])

  function Aggregated(raws: seq<Raw>): (rollup: map<Key, Stats>)
    ensures forall key :: key in rollup <==> HasKey(raws, key)
  {
    map key | key in (set r | r in raws :: r.key) :: StatsOf(GroupOf(raws, key))
  }

  function OtherDays(raws: seq<Raw>, day: int): seq<Raw> {
    Filter((r: Raw) => r.key.day != day, raws)
  }

  function WriteDay(s: Store, day: int, rollup: map<Key, Stats>, raws: seq<Raw>, coverage: Coverage): Store {
    Store((map key | key in s.rollup && key.day != day :: s.rollup[key]) + rollup,
          OtherDays(s.raws, day) + raws,
          s.days[day := coverage])
  }

  function PruneDays(s: Store, cutoff: int): Store {
    Store(map key | key in s.rollup && key.day >= cutoff :: s.rollup[key],
          Filter((r: Raw) => r.key.day >= cutoff, s.raws),
          map day | day in s.days && day >= cutoff :: s.days[day])
  }

  function DayRuns(runs: seq<Run>, day: int): seq<Run> {
    Filter((r: Run) => r.day == day, runs)
  }

  function ParsedIds(runs: seq<Run>): set<int> {
    set r | r in runs && r.cases != [] :: r.id
  }

  function CoverageOf(dayRuns: seq<Run>): Coverage {
    var parsed := Count((r: Run) => r.cases != [], dayRuns);
    Coverage(|dayRuns|, parsed, |dayRuns| - parsed, ParsedIds(dayRuns))
  }

  /** Whether this pass may replace the stored day. */
  predicate MayReplace(s: Store, runs: seq<Run>, force: bool, day: int) {
    var now := CoverageOf(DayRuns(runs, day));
    force || day !in s.days || (s.days[day].ids <= now.ids && s.days[day].parsed <= now.parsed)
  }

  function RollDay(s: Store, runs: seq<Run>, force: bool, day: int): Store {
    var dayRuns := DayRuns(runs, day);
    if !MayReplace(s, runs, force, day) then s
    else WriteDay(s, day, Aggregated(RawRows(dayRuns)), RawRows(dayRuns), CoverageOf(dayRuns))
  }

  function RollDays(s: Store, runs: seq<Run>, force: bool, days: seq<int>): Store {
    if days == [] then s else RollDay(RollDays(s, runs, force, Front(days)), runs, force, Last(days))
  }

  /** The days of a pass, each once. */
  function DaysOf(runs: seq<Run>): (days: seq<int>)
    ensures forall d :: d in days <==> exists r :: r in runs && r.day == d
  {
    if runs == [] then []
    else
      var before, d := DaysOf(Front(runs)), Last(runs).day;
      assert runs == Front(runs) + [Last(runs)];
      if d in before then before else before + [d]
  }

  datatype Pass = Pass(runs: seq<Run>, force: bool, cutoff: int)

  /** `main`: prune, then every listed day in order. */
  function RunPass(s: Store, p: Pass): Store {
    RollDays(PruneDays(s, p.cutoff), p.runs, p.force, SortBy(Same, DaysOf(p.runs)))
  }

  function Passes(passes: seq<Pass>): Store {
    if passes == [] then EMPTY else RunPass(Passes(Front(passes)), Last(passes))
  }

  // -- the aggregate table is the aggregation of the raw table -------------------------------

  /** For one key: present exactly when a raw row has it, with the statistics of its rows. */
  predicate Agrees(s: Store, key: Key) {
    && (key in s.rollup <==> HasKey(s.raws, key))
    && (key in s.rollup ==> s.rollup[key] == StatsOf(GroupOf(s.raws, key)))
  }

  lemma {:induction false} GroupOfAppend(a: seq<Raw>, b: seq<Raw>, key: Key)
    ensures !HasKey(a, key) ==> GroupOf(a + b, key) == GroupOf(b, key)
    ensures !HasKey(b, key) ==> GroupOf(a + b, key) == GroupOf(a, key)
  {
    if b == [] {
      assert a + b == a;
      if !HasKey(a, key) {
        NoRowsNoGroup(a, key);
      }
    } else {
      assert Front(a + b) == a + Front(b);
      assert b == Front(b) + [Last(b)];
      GroupOfAppend(a, Front(b), key);
    }
  }

  /** Dropping rows of other keys changes nothing for a key. */
  lemma {:induction false} GroupOfFilter(keep: Raw -> bool, raws: seq<Raw>, key: Key)
    requires forall r :: r in raws && r.key == key ==> keep(r)
    ensures GroupOf(Filter(keep, raws), key) == GroupOf(raws, key)
  {
    if raws != [] {
      var front, last := Front(raws), Last(raws);
      assert raws == front + [last];
      assert last in raws && (last.key == key ==> keep(last));
      assert forall r :: r in front && r.key == key ==> keep(r);
      GroupOfFilter(keep, front, key);
      var kept := Filter(keep, front);
      if keep(last) {
        assert Filter(keep, raws) == kept + [last];
        assert Front(kept + [last]) == kept;
      } else {
        assert Filter(keep, raws) == kept;
      }
    }
  }

  lemma WriteDayAgrees(s: Store, day: int, raws: seq<Raw>, coverage: Coverage, key: Key)
    requires Agrees(s, key) && forall r :: r in raws ==> r.key.day == day
    ensures Agrees(WriteDay(s, day, Aggregated(raws), raws, coverage), key)
  {
    var others := OtherDays(s.raws, day);
    GroupOfAppend(others, raws, key);
    if key.day != day {
      GroupOfFilter((r: Raw) => r.key.day != day, s.raws, key);
      assert !HasKey(raws, key);
      assert HasKey(others, key) <==> HasKey(s.raws, key);
      assert HasKey(others + raws, key) <==> HasKey(others, key);
    } else {
      assert !HasKey(others, key);
      assert HasKey(others + raws, key) <==> HasKey(raws, key);
    }
  }

  lemma PruneAgrees(s: Store, cutoff: int, key: Key)
    requires Agrees(s, key)
    ensures Agrees(PruneDays(s, cutoff), key)
  {
    var kept := PruneDays(s, cutoff).raws;
    if key.day >= cutoff {
      GroupOfFilter((r: Raw) => r.key.day >= cutoff, s.raws, key);
      assert HasKey(kept, key) <==> HasKey(s.raws, key);
    } else {
      assert !HasKey(kept, key);
    }
  }

  lemma {:induction false} RawRowsOfDay(runs: seq<Run>, day: int)
    requires forall r :: r in runs ==> r.day == day
    ensures forall row :: row in RawRows(runs) ==> row.key.day == day
  {
    if runs != [] {
      assert runs == Front(runs) + [Last(runs)];
      assert Last(runs) in runs && forall r :: r in Front(runs) ==> r.day == day;
      RawRowsOfDay(Front(runs), day);
    }
  }

  lemma {:induction false} RollDaysAgree(s: Store, runs: seq<Run>, force: bool, days: seq<int>, key: Key)
    requires Agrees(s, key)
    ensures Agrees(RollDays(s, runs, force, days), key)
  {
    if days != [] {
      RollDaysAgree(s, runs, force, Front(days), key);
      var dayRuns := DayRuns(runs, Last(days));
      RawRowsOfDay(dayRuns, Last(days));
      WriteDayAgrees(RollDays(s, runs, force, Front(days)), Last(days), RawRows(dayRuns), CoverageOf(dayRuns), key);
    }
  }

  /** After any passes, forced or not, and any prunes. */
  lemma {:induction false} AggregateIsTheAggregation(passes: seq<Pass>, key: Key)
    ensures Agrees(Passes(passes), key)
  {
    if passes != [] {
      var p := Last(passes);
      AggregateIsTheAggregation(Front(passes), key);
      PruneAgrees(Passes(Front(passes)), p.cutoff, key);
      RollDaysAgree(PruneDays(Passes(Front(passes)), p.cutoff), p.runs, p.force, SortBy(Same, DaysOf(p.runs)), key);
    }
  }
}

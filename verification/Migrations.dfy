/** The job-table migrations that run at every start of workflow-exporter.py, in order,
    and why one pass is enough. */
module Migrations {
  import opened Common
  import opened Sequences
  import opened Strings
  import opened FailedSteps

  /** One stored job row; `steps` holds the stored step names, none when the JSON is empty
      or malformed. */
  datatype Row = Row(
    id: int,
    repo: string,
    workflow: string,
    displayName: string,
    category: Category,
    conclusion: Conclusion,
    event: string,
    failedStep: string,
    reason: Reason,
    steps: seq<string>,
    runnerName: string)

  /** The rows of the table; `id` is its key, which no migration touches. */
  type Table = seq<Row>

  /** What the source decides by name: the workflow categories, the gate jobs, and the
      run names the pull-request flow used before it had a stable name. */
  datatype Naming = Naming(
    categorize: string -> Category,
    gate: string -> bool,
    runName: string -> bool)

  const PULL_REQUESTS := "E2E for pull requests"
  const PIPELINE_NAMES := {PULL_REQUESTS, "E2E for the merge queue", "E2E review relay", "E2E comment"}
  const IGNORED_EVENTS := {"dynamic"}
  const COMMA := ", "
  const HOSTED := "GitHub Actions "

  // -- the migrations, row by row ------------------------------------------------------

  function CategoryOfRun(names: Naming, workflow: string, conclusion: Conclusion): Category {
    var category := names.categorize(workflow);
    if category == E2e && conclusion == Skipped then Automation else category
  }

  /** A pipeline row's category was decided by its jobs. */
  function Recategorize(names: Naming, row: Row): Row {
    if row.workflow in PIPELINE_NAMES then row
    else row.(category := CategoryOfRun(names, row.workflow, row.conclusion))
  }

  function Reclassify(names: Naming, row: Row): Row {
    if row.conclusion != Failure || row.category == Ai then row
    else row.(reason := Rederived(names.gate, row.category, row.failedStep, row.reason))
  }

  function ReclassifyAi(row: Row): Row {
    if row.category != Ai || (row.steps == [] && row.reason == NotApplicable) then row
    else row.(reason := if AI_DIAGNOSIS_STEP in row.steps then Ran else SkippedAi)
  }

  predicate OwnRunner(name: string) {
    name != "" && !(HOSTED <= name)
  }

  function Cleaned(runnerName: string): string {
    Join(Filter((n: string) => OwnRunner(n), Split(runnerName, COMMA)), COMMA)
  }

  /** Only rows that mention a hosted runner at all are looked at; `LIKE` ignores case,
      so `mentions` may hold for more rows than the prefix test removes. */
  function CleanRunner(mentions: string -> bool, row: Row): Row {
    if mentions(row.runnerName) then row.(runnerName := Cleaned(row.runnerName)) else row
  }

  function Normalize(names: Naming, row: Row): Row {
    if row.workflow !in PIPELINE_NAMES && !names.runName(row.workflow) then row
    else
      var stable := if row.workflow in PIPELINE_NAMES then row.workflow else PULL_REQUESTS;
      if stable == row.workflow && row.category == Automation then row
      else row.(workflow := stable, displayName := row.repo + " / " + stable,
                category := Automation, reason := NotApplicable)
  }

  /** One start, for one row. */
  function Pass(names: Naming, mentions: string -> bool, row: Row): Row {
    Normalize(names, CleanRunner(mentions, ReclassifyAi(Reclassify(names, Recategorize(names, row)))))
  }

  // -- one pass reaches a fixpoint -------------------------------------------------------

  lemma CommaIsBorderless()
    ensures Borderless(COMMA)
  {
    forall k | 0 < k < |COMMA| ensures !Border(COMMA, k) {
      assert COMMA[..k][0] == ',' && COMMA[|COMMA| - k..][0] == ' ';
    }
  }

  /** Cleaning a cleaned list of runners leaves it alone. */
  lemma CleanedTwice(runnerName: string)
    ensures Cleaned(Cleaned(runnerName)) == Cleaned(runnerName)
  {
    var keep := (n: string) => OwnRunner(n);
    var pieces := Split(runnerName, COMMA);
    var kept := Filter(keep, pieces);
    CommaIsBorderless();
    if kept == [] {
      FreeSplits("", COMMA);
      assert Split("", COMMA) == [""];
      assert Filter(keep, [""]) == [];
    } else {
      forall k | 0 <= k < |kept| ensures Free(kept[k], COMMA) {
        assert kept[k] in pieces;
        var n :| 0 <= n < |pieces| && pieces[n] == kept[k];
        PiecesAreFree(runnerName, COMMA, n);
      }
      SplitJoin(kept, COMMA);
      assert forall n :: n in kept ==> keep(n);
      AllKept(keep, kept);
    }
  }

  /** The derived reason is derived again, whatever the stored text. */
  lemma RederivedTwice(gate: string -> bool, category: Category, text: string, stored: Reason)
    ensures var r := Rederived(gate, category, text, stored); Rederived(gate, category, text, r) == r
  {
  }

  /** A row no migration finds anything to change in. */
  predicate Settled(names: Naming, mentions: string -> bool, row: Row) {
    && row.event !in IGNORED_EVENTS
    && Recategorize(names, row) == row
    && Reclassify(names, row) == row
    && ReclassifyAi(row) == row
    && CleanRunner(mentions, row) == row
    && Normalize(names, row) == row
  }

  lemma NamesAreSettled(names: Naming, mentions: string -> bool, row: Row)
    ensures var r := Pass(names, mentions, row);
            Recategorize(names, r) == r && CleanRunner(mentions, r) == r && Normalize(names, r) == r
  {
    CleanedTwice(row.runnerName);
  }

  lemma ReasonsAreSettled(names: Naming, mentions: string -> bool, row: Row)
    ensures var r := Pass(names, mentions, row); Reclassify(names, r) == r && ReclassifyAi(r) == r
  {
    var r1 := Recategorize(names, row);
    RederivedTwice(names.gate, r1.category, r1.failedStep, r1.reason);
    RederivedTwice(names.gate, Automation, r1.failedStep, NotApplicable);
  }

  /** After one pass no migration finds anything to change in a row, so a second start
      updates nothing. */
  lemma OnePassIsEnough(names: Naming, mentions: string -> bool, row: Row)
    requires row.event !in IGNORED_EVENTS
    ensures Settled(names, mentions, Pass(names, mentions, row))
  {
    NamesAreSettled(names, mentions, row);
    ReasonsAreSettled(names, mentions, row);
  }

  /** What a settled row looks like, in the terms of its columns. */
  lemma SettledMeaning(names: Naming, mentions: string -> bool, row: Row)
    requires Settled(names, mentions, row)
    ensures row.workflow in PIPELINE_NAMES ==> row.category == Automation
    ensures row.workflow !in PIPELINE_NAMES ==>
              && !names.runName(row.workflow)
              && row.category == CategoryOfRun(names, row.workflow, row.conclusion)
    ensures row.category == E2e ==> row.conclusion != Skipped
    ensures row.conclusion == Failure && row.category !in {E2e, Ai} ==> row.reason == NotApplicable
    ensures row.conclusion == Failure && row.category == E2e ==> row.reason in {Gate, Test, Infra}
    ensures row.category == Ai ==> row.reason in {Ran, SkippedAi, NotApplicable}
    ensures row.category == Ai && row.steps != [] ==> (row.reason == Ran <==> AI_DIAGNOSIS_STEP in row.steps)
    ensures mentions(row.runnerName) ==>
              row.runnerName == "" || forall n :: n in Split(row.runnerName, COMMA) ==> OwnRunner(n)
  {
    if mentions(row.runnerName) {
      CleanedListsOwnRunners(row.runnerName);
    }
  }

  /** The cleaned list names own runners only. */
  lemma CleanedListsOwnRunners(runnerName: string)
    ensures Cleaned(runnerName) == "" || forall n :: n in Split(Cleaned(runnerName), COMMA) ==> OwnRunner(n)
  {
    var pieces := Split(runnerName, COMMA);
    var kept := Filter((n: string) => OwnRunner(n), pieces);
    CommaIsBorderless();
    if kept != [] {
      forall k | 0 <= k < |kept| ensures Free(kept[k], COMMA) {
        assert kept[k] in pieces;
        PieceIsFree(runnerName, COMMA, kept[k]);
      }
      SplitJoin(kept, COMMA);
    }
  }

  predicate Hosted(name: string) {
    |name| >= 15 && name[..15] == "GitHub Actions "
  }

  /** Cleaning removes exactly the hosted runners and empty names from the list. */
  lemma CleanedExactly(runnerName: string, n: string)
    requires n != ""
    ensures n in Split(Cleaned(runnerName), COMMA) <==> n in Split(runnerName, COMMA) && !Hosted(n)
  {
    var pieces := Split(runnerName, COMMA);
    var kept := Filter((x: string) => OwnRunner(x), pieces);
    HostedExactly(n);
    CommaIsBorderless();
    if kept != [] {
      forall k | 0 <= k < |kept| ensures Free(kept[k], COMMA) {
        assert kept[k] in pieces;
        PieceIsFree(runnerName, COMMA, kept[k]);
      }
      SplitJoin(kept, COMMA);
    } else {
      FreeSplits("", COMMA);
      assert Split("", COMMA) == [""];
    }
  }

  lemma HostedExactly(n: string)
    ensures Hosted(n) <==> HOSTED <= n
  {
    assert |HOSTED| == 15;
  }

  /** A row of the pull-request flow, under its stable name or an old run name. */
  predicate FlowRow(names: Naming, row: Row) {
    row.workflow in PIPELINE_NAMES || names.runName(row.workflow)
  }

  /** What one start makes of a row, column by column. A flow row goes under a stable name,
      is filed under automation, and keeps its display name only if it was there already;
      every other row keeps both names and goes by its category. */
  lemma StartOfRow(names: Naming, mentions: string -> bool, row: Row)
    ensures var after := Pass(names, mentions, row);
            && after.id == row.id && after.repo == row.repo && after.conclusion == row.conclusion && after.event == row.event
            && after.failedStep == row.failedStep && after.steps == row.steps
            && after.runnerName == (if mentions(row.runnerName) then Cleaned(row.runnerName) else row.runnerName)
            && (if FlowRow(names, row) then
                  && after.workflow == (if row.workflow in PIPELINE_NAMES then row.workflow else PULL_REQUESTS)
                  && after.category == Automation
                else
                  && after.workflow == row.workflow && after.displayName == row.displayName
                  && after.category == CategoryOfRun(names, row.workflow, row.conclusion))
    ensures var after := Pass(names, mentions, row);
            FlowRow(names, row) ==>
              after.displayName == if row.workflow in PIPELINE_NAMES && row.category == Automation then row.displayName
                                   else row.repo + " / " + after.workflow
  {
  }

  /** The reason one start leaves: a flow row that moves loses it, an "ai" row goes by its
      stored steps unless it has neither steps nor a reason, any other failure by its text,
      and what did not fail keeps it. */
  lemma ReasonAfterStart(names: Naming, mentions: string -> bool, row: Row)
    ensures var after, category := Pass(names, mentions, row).reason, CategoryOfRun(names, row.workflow, row.conclusion);
            && (FlowRow(names, row) && !(row.workflow in PIPELINE_NAMES && row.category == Automation) ==>
                  after == NotApplicable)
            && (!FlowRow(names, row) && category == Ai ==>
                  after == if AI_DIAGNOSIS_STEP in row.steps then Ran
                           else if row.steps == [] && row.reason == NotApplicable then NotApplicable else SkippedAi)
            && (!FlowRow(names, row) && category != Ai && row.conclusion == Failure ==>
                  after == if category == E2e then Rederived(names.gate, E2e, row.failedStep, row.reason) else NotApplicable)
            && (!FlowRow(names, row) && category != Ai && row.conclusion != Failure ==> after == row.reason)
  {
  }

  // -- the whole table -----------------------------------------------------------------------

  predicate Wanted(row: Row) {
    row.event !in IGNORED_EVENTS
  }

  function UpdateAll<T>(f: T -> T, rows: seq<T>): (after: seq<T>)
    ensures |after| == |rows| && forall k :: 0 <= k < |rows| ==> after[k] == f(rows[k])
  {
    seq(|rows|, k requires 0 <= k < |rows| => f(rows[k]))
  }

  function Startup(names: Naming, mentions: string -> bool, table: Table): Table {
    var t0 := Filter(Wanted, table);
    var t1 := UpdateAll((row: Row) => Recategorize(names, row), t0);
    var t2 := UpdateAll((row: Row) => Reclassify(names, row), t1);
    var t3 := UpdateAll(ReclassifyAi, t2);
    var t4 := UpdateAll((row: Row) => CleanRunner(mentions, row), t3);
    UpdateAll((row: Row) => Normalize(names, row), t4)
  }

  lemma StartupIsRowByRow(names: Naming, mentions: string -> bool, table: Table, k: nat)
    requires k < |Filter(Wanted, table)|
    ensures |Startup(names, mentions, table)| == |Filter(Wanted, table)|
    ensures Startup(names, mentions, table)[k] == Pass(names, mentions, Filter(Wanted, table)[k])
  {
  }

  /** Every row left after one start is settled. */
  lemma StartupSettles(names: Naming, mentions: string -> bool, table: Table, k: nat)
    requires k < |Startup(names, mentions, table)|
    ensures Settled(names, mentions, Startup(names, mentions, table)[k])
  {
    var purged := Filter(Wanted, table);
    assert purged[k] in purged;
    StartupIsRowByRow(names, mentions, table, k);
    OnePassIsEnough(names, mentions, purged[k]);
  }

  /** A start leaves a table of settled rows alone. */
  lemma SettledTableStays(names: Naming, mentions: string -> bool, table: Table)
    requires forall k :: 0 <= k < |table| ==> Settled(names, mentions, table[k])
    ensures Startup(names, mentions, table) == table
  {
    AllKept(Wanted, table);
    forall k | 0 <= k < |table| ensures Startup(names, mentions, table)[k] == table[k] {
      StartupIsRowByRow(names, mentions, table, k);
      SettledRowStays(names, mentions, table[k]);
    }
  }

  lemma SettledRowStays(names: Naming, mentions: string -> bool, row: Row)
    requires Settled(names, mentions, row)
    ensures Pass(names, mentions, row) == row
  {
  }

  /** Starting twice gives the table that starting once gives, whatever the table. */
  lemma StartupTwice(names: Naming, mentions: string -> bool, table: Table)
    ensures var once := Startup(names, mentions, table); Startup(names, mentions, once) == once
  {
    var once := Startup(names, mentions, table);
    forall k | 0 <= k < |once| ensures Settled(names, mentions, once[k]) {
      StartupSettles(names, mentions, table, k);
    }
    SettledTableStays(names, mentions, once);
  }

  // -- a freshly stored row is left alone ------------------------------------------------------

  /** The row an ingested failure of an ordinary e2e workflow gets: its category by name,
      its reason and failed steps from the jobs, its runners without the hosted ones. */
  predicate FreshFailure(names: Naming, row: Row, jobs: seq<Job>, runners: seq<string>) {
    && row.workflow !in PIPELINE_NAMES && !names.runName(row.workflow)
    && row.conclusion == Failure
    && row.category == CategoryOfRun(names, row.workflow, row.conclusion) == E2e
    && row.reason == LiveReason(names.gate, jobs)
    && row.failedStep == Text(Extract(names.gate, jobs))
    && row.runnerName == Join(runners, COMMA)
    && (forall n :: n in runners ==> OwnRunner(n))
  }

  /** A start leaves a freshly stored e2e failure unchanged when the names print cleanly. */
  lemma FreshFailureIsLeftAlone(names: Naming, mentions: string -> bool, row: Row, jobs: seq<Job>, runners: seq<string>)
    requires FreshFailure(names, row, jobs, runners)
    requires forall f :: f in Extract(names.gate, jobs) ==> Clean(f)
    requires forall n :: n in runners ==> Free(n, COMMA)
    ensures Pass(names, mentions, row) == row
  {
    LiveReasonSurvives(names.gate, jobs);
    assert Cleaned(row.runnerName) == row.runnerName by {
      var keep := (n: string) => OwnRunner(n);
      CommaIsBorderless();
      if runners == [] {
        FreeSplits("", COMMA);
        assert Filter(keep, [""]) == [];
      } else {
        SplitJoin(runners, COMMA);
        AllKept(keep, runners);
      }
    }
  }

  // -- the migrations as the program runs them ---------------------------------------------------

  class JobsTable {
    var jobs: Table

    constructor (jobs: Table)
      ensures this.jobs == jobs
    {
      this.jobs := jobs;
    }

    method PurgeIgnoredEvents()
      modifies this
      ensures jobs == Filter(Wanted, old(jobs))
    {
      jobs := Filter(Wanted, jobs);
    }

    /** The walk all five updates share: an UPDATE for each row that would change. */
    method UpdateRows(f: Row -> Row) returns (updated: nat)
      modifies this
      ensures jobs == UpdateAll(f, old(jobs))
      ensures updated == 0 <==> forall k :: 0 <= k < |old(jobs)| ==> f(old(jobs)[k]) == old(jobs)[k]
    {
      updated := 0;
      for k := 0 to |jobs|
        invariant |jobs| == |old(jobs)|
        invariant forall i :: 0 <= i < k ==> jobs[i] == f(old(jobs)[i])
        invariant forall i :: k <= i < |jobs| ==> jobs[i] == old(jobs)[i]
        invariant updated == 0 <==> forall i :: 0 <= i < k ==> f(old(jobs)[i]) == old(jobs)[i]
      {
        var row := f(jobs[k]);
        if row != jobs[k] {
          jobs := jobs[k := row];
          updated := updated + 1;
        }
      }
    }

    /** The migrations of one start, in the source's order. */
    method RunMigrations(names: Naming, mentions: string -> bool) returns (updated: nat)
      modifies this
      ensures jobs == Startup(names, mentions, old(jobs))
    {
      PurgeIgnoredEvents();
      var recategorized := UpdateRows((row: Row) => Recategorize(names, row));
      var reclassified := UpdateRows((row: Row) => Reclassify(names, row));
      var ai := UpdateRows(ReclassifyAi);
      var cleaned := UpdateRows((row: Row) => CleanRunner(mentions, row));
      var moved := UpdateRows((row: Row) => Normalize(names, row));
      updated := recategorized + reclassified + ai + cleaned + moved;
    }
  }
}

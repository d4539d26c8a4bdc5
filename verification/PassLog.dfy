/** The pass log of ci_observe_prs.py: planning, coverage and pruning.

    A pass lists what GitHub updated in [windowFrom, windowTo]. The log keeps
    one row per pass in insertion order; the table's id is that order. The
    clock is whatever the caller passes as `now`, so it may run backwards. */
module PassLog {
  import opened Common
  import opened Sequences

  const INCREMENTAL_OVERLAP := 2 * HOUR
  const FULL_PASS_INTERVAL := 24 * HOUR
  const BACKFILL_RUNS_KEEP := 2000

  datatype Mode = Full | Incremental
  datatype Request = Auto | AskFull | AskIncremental
  datatype PassRow = PassRow(ranAt: int, mode: Mode, windowFrom: int, windowTo: int, listingComplete: bool, ok: bool)

  // -- reading the log ---------------------------------------------------------

  /** `ORDER BY ran_at DESC, id DESC LIMIT 1` over the complete passes. */
  function NewestComplete(log: seq<PassRow>): Option<PassRow> {
    if log == [] then None
    else
      var earlier := NewestComplete(Front(log));
      var row := Last(log);
      if row.listingComplete && (earlier.None? || earlier.value.ranAt <= row.ranAt) then Some(row) else earlier
  }

  function CoverageUntil(log: seq<PassRow>): Option<int> {
    var newest := NewestComplete(log);
    if newest.None? then None else Some(newest.value.windowTo)
  }

  predicate FullPassDue(log: seq<PassRow>, now: int) {
    forall i :: 0 <= i < |log| ==>
      !(log[i].mode == Full && log[i].listingComplete && now - FULL_PASS_INTERVAL <= log[i].ranAt)
  }

  /** The mode a pass really runs in, and the floor of what it lists. */
  function Plan(log: seq<PassRow>, span: int, now: int, request: Request): (Mode, int) {
    var fullSince := now - span;
    if request == AskFull || (request == Auto && FullPassDue(log, now)) then (Full, fullSince)
    else
      var coverage := CoverageUntil(log);
      if coverage.None? then (Full, fullSince)
      else (Incremental, Max(coverage.value - INCREMENTAL_OVERLAP, fullSince))
  }

  /** What a plan promises. Nothing older than retention is listed. An automatic pass is
      incremental exactly when a complete full pass ran within the last day, a pass asked
      to be incremental when anything is covered at all; and an incremental pass lists
      again exactly the last two hours of coverage that are inside retention. */
  lemma PlanMeaning(log: seq<PassRow>, span: int, now: int, request: Request, moment: int)
    ensures var (mode, since) := Plan(log, span, now, request);
            && now - span <= since
            && (mode == Full ==> since == now - span)
            && (request == AskFull ==> mode == Full)
            && (request == Auto ==>
                  (mode == Incremental <==>
                   exists i :: && 0 <= i < |log| && log[i].mode == Full && log[i].listingComplete
                               && now - 24 * HOUR <= log[i].ranAt))
            && (request == AskIncremental ==>
                  (mode == Incremental <==> exists i :: 0 <= i < |log| && log[i].listingComplete))
            && (mode == Incremental ==>
                  && CoverageUntil(log).Some?
                  && (since <= moment <==>
                      CoverageUntil(log).value - 2 * HOUR <= moment && now - span <= moment))
  {
    var _ := NewestCompleteIs(log);
  }

  // -- pruning the log ---------------------------------------------------------

  /** Row i sorts before row j in `ORDER BY ran_at DESC, id DESC`. */
  predicate Newer(log: seq<PassRow>, i: int, j: int)
    requires 0 <= i < |log| && 0 <= j < |log|
  {
    log[i].ranAt > log[j].ranAt || (log[i].ranAt == log[j].ranAt && i > j)
  }

  function Rank(log: seq<PassRow>, j: int): nat
    requires 0 <= j < |log|
  {
    |set i | 0 <= i < |log| && Newer(log, i, j)|
  }

  predicate Kept(log: seq<PassRow>, cutoff: int, keep: int, j: int)
    requires 0 <= j < |log|
  {
    cutoff <= log[j].ranAt && Rank(log, j) < keep
  }

  /** The kept rows among the first n. Rows newer than a row that is at or after
      the cutoff are at or after it too, so ranking before or after the first
      DELETE gives the same answer. */
  function KeptPrefix(log: seq<PassRow>, cutoff: int, keep: int, n: nat): seq<PassRow>
    requires n <= |log|
  {
    if n == 0 then []
    else KeptPrefix(log, cutoff, keep, n - 1) + (if Kept(log, cutoff, keep, n - 1) then [log[n - 1]] else [])
  }

  function PruneRuns(log: seq<PassRow>, cutoff: int): seq<PassRow> {
    KeptPrefix(log, cutoff, BACKFILL_RUNS_KEEP, |log|)
  }

  lemma {:induction false} KeptPrefixMembers(log: seq<PassRow>, cutoff: int, keep: int, n: nat)
    requires n <= |log|
    ensures forall j :: 0 <= j < n && Kept(log, cutoff, keep, j) ==> log[j] in KeptPrefix(log, cutoff, keep, n)
    ensures forall row :: row in KeptPrefix(log, cutoff, keep, n) ==>
              exists j :: 0 <= j < n && Kept(log, cutoff, keep, j) && log[j] == row
  {
    if n > 0 {
      KeptPrefixMembers(log, cutoff, keep, n - 1);
    }
  }

  lemma NewerRanksLower(log: seq<PassRow>, cutoff: int, keep: int, i: int, j: int)
    requires 0 <= i < |log| && 0 <= j < |log| && Newer(log, i, j)
    requires Kept(log, cutoff, keep, j)
    ensures Kept(log, cutoff, keep, i)
  {
    var above := set k | 0 <= k < |log| && Newer(log, k, i);
    var aboveToo := set k | 0 <= k < |log| && Newer(log, k, j);
    assert above <= aboveToo;
    SubsetSize(above, aboveToo);
  }

  // -- how many rows are kept ------------------------------------------------------

  function RecentRows(log: seq<PassRow>, cutoff: int): set<int> {
    set i | 0 <= i < |log| && cutoff <= log[i].ranAt
  }

  function KeptRows(log: seq<PassRow>, cutoff: int, keep: int): set<int> {
    KeptAmong(log, cutoff, keep, |log|)
  }

  /** A row goes only when it is older than the cutoff or `keep` rows are newer. */
  lemma FewRowsAllStay(log: seq<PassRow>, cutoff: int, keep: int, j: int)
    requires 0 <= j < |log| && cutoff <= log[j].ranAt && |RecentRows(log, cutoff)| <= keep
    ensures Kept(log, cutoff, keep, j)
  {
    var newer := set i | 0 <= i < |log| && Newer(log, i, j);
    assert newer <= RecentRows(log, cutoff) - {j};
    SubsetSize(newer, RecentRows(log, cutoff) - {j});
  }

  /** Among some rows one is older than all others. */
  lemma {:induction false} OldestOf(log: seq<PassRow>, rows: set<int>) returns (oldest: int)
    requires |rows| > 0 && forall i :: i in rows ==> 0 <= i < |log|
    ensures oldest in rows && forall i :: i in rows ==> i == oldest || Newer(log, i, oldest)
    decreases |rows|
  {
    assert exists i :: i in rows;
    var one :| one in rows;
    var rest := rows - {one};
    oldest := one;
    if |rest| > 0 {
      var last := OldestOf(log, rest);
      if !Newer(log, last, one) {
        oldest := last;
      }
      forall i | i in rows ensures i == oldest || Newer(log, i, oldest) {
        assert i == one || i in rest;
      }
    } else {
      assert rest == {};
      assert forall i :: i in rows ==> i == one || i in rest;
    }
  }

  lemma KeptRowsAreBounded(log: seq<PassRow>, cutoff: int, keep: nat)
    ensures |KeptRows(log, cutoff, keep)| <= keep
    ensures |RecentRows(log, cutoff)| <= keep ==> KeptRows(log, cutoff, keep) == RecentRows(log, cutoff)
  {
    var kept := KeptRows(log, cutoff, keep);
    if kept != {} {
      var oldest := OldestOf(log, kept);
      var newer := set i | 0 <= i < |log| && Newer(log, i, oldest);
      assert kept - {oldest} <= newer;
      SubsetSize(kept - {oldest}, newer);
    }
    if |RecentRows(log, cutoff)| <= keep {
      forall j | j in RecentRows(log, cutoff) ensures j in kept {
        FewRowsAllStay(log, cutoff, keep, j);
      }
    }
  }

  lemma {:induction false} KeptPrefixSize(log: seq<PassRow>, cutoff: int, keep: int, n: nat)
    requires n <= |log|
    ensures |KeptPrefix(log, cutoff, keep, n)| == |KeptAmong(log, cutoff, keep, n)|
  {
    if n > 0 {
      KeptPrefixSize(log, cutoff, keep, n - 1);
      KeptOneMore(log, cutoff, keep, n - 1);
    }
  }

  function KeptAmong(log: seq<PassRow>, cutoff: int, keep: int, n: nat): set<int>
    requires n <= |log|
  {
    set i | 0 <= i < n && Kept(log, cutoff, keep, i)
  }

  lemma KeptOneMore(log: seq<PassRow>, cutoff: int, keep: int, n: nat)
    requires n < |log|
    ensures n !in KeptAmong(log, cutoff, keep, n)
    ensures KeptAmong(log, cutoff, keep, n + 1) ==
            KeptAmong(log, cutoff, keep, n) + if Kept(log, cutoff, keep, n) then {n} else {}
  {
  }

  /** The pruned log never holds more than 2000 rows, none older than the cutoff, and it
      loses none of the recent ones while they are that few. */
  lemma PrunedLogIsBounded(log: seq<PassRow>, cutoff: int)
    ensures |PruneRuns(log, cutoff)| <= 2000
    ensures forall row :: row in PruneRuns(log, cutoff) ==> row in log && cutoff <= row.ranAt
    ensures |RecentRows(log, cutoff)| <= 2000 ==>
              && |PruneRuns(log, cutoff)| == |RecentRows(log, cutoff)|
              && forall row :: row in log && cutoff <= row.ranAt ==> row in PruneRuns(log, cutoff)
  {
    KeptPrefixMembers(log, cutoff, BACKFILL_RUNS_KEEP, |log|);
    KeptPrefixSize(log, cutoff, BACKFILL_RUNS_KEEP, |log|);
    KeptRowsAreBounded(log, cutoff, BACKFILL_RUNS_KEEP);
    if |RecentRows(log, cutoff)| <= 2000 {
      forall row | row in log && cutoff <= row.ranAt ensures row in PruneRuns(log, cutoff) {
        var j :| 0 <= j < |log| && log[j] == row;
        FewRowsAllStay(log, cutoff, BACKFILL_RUNS_KEEP, j);
      }
    }
  }

  // -- what coverage means -----------------------------------------------------

  /** A pass records itself at the end of its own window. */
  predicate EndsAtRun(log: seq<PassRow>) {
    forall i :: 0 <= i < |log| ==> log[i].windowTo == log[i].ranAt
  }

  /** Row m is the newest complete pass of the log. */
  predicate IsNewestComplete(log: seq<PassRow>, m: int) {
    && 0 <= m < |log| && log[m].listingComplete
    && forall j :: 0 <= j < |log| && log[j].listingComplete && j != m ==> Newer(log, m, j)
  }

  lemma {:induction false} NewestCompleteIs(log: seq<PassRow>) returns (m: int)
    ensures NewestComplete(log).None? ==> forall j :: 0 <= j < |log| ==> !log[j].listingComplete
    ensures NewestComplete(log).Some? ==> IsNewestComplete(log, m) && NewestComplete(log) == Some(log[m])
  {
    m := -1;
    if log != [] {
      m := NewestCompleteIs(Front(log));
      var earlier := NewestComplete(Front(log));
      if Last(log).listingComplete && (earlier.None? || earlier.value.ranAt <= Last(log).ranAt) {
        m := |log| - 1;
      }
    }
  }

  /** The end of coverage is the latest moment a complete pass ran. */
  lemma CoverageIsLatest(log: seq<PassRow>)
    requires EndsAtRun(log)
    ensures CoverageUntil(log).None? <==> forall j :: 0 <= j < |log| ==> !log[j].listingComplete
    ensures CoverageUntil(log).Some? ==>
              && (exists j :: 0 <= j < |log| && log[j].listingComplete && log[j].ranAt == CoverageUntil(log).value)
              && forall j :: 0 <= j < |log| && log[j].listingComplete ==> log[j].ranAt <= CoverageUntil(log).value
  {
    var _ := NewestCompleteIs(log);
  }

  /** Pruning the log either leaves coverage where it was or forgets it whole:
      it never moves coverage back. It forgets it exactly when the newest complete
      pass is older than the cutoff or outranked by 2000 newer rows. */
  lemma PruneKeepsOrForgetsCoverage(log: seq<PassRow>, cutoff: int)
    requires EndsAtRun(log)
    ensures EndsAtRun(PruneRuns(log, cutoff))
    ensures CoverageUntil(PruneRuns(log, cutoff)) in {None, CoverageUntil(log)}
    ensures forall m :: IsNewestComplete(log, m) ==>
              (CoverageUntil(PruneRuns(log, cutoff)).Some? <==> Kept(log, cutoff, BACKFILL_RUNS_KEEP, m))
  {
    var pruned := PruneRuns(log, cutoff);
    KeptPrefixMembers(log, cutoff, BACKFILL_RUNS_KEEP, |log|);
    forall i | 0 <= i < |pruned| ensures pruned[i] in log {
      assert pruned[i] in pruned;
    }
    CoverageIsLatest(log);
    CoverageIsLatest(pruned);
    var _ := NewestCompleteIs(log);
    forall m | IsNewestComplete(log, m)
      ensures CoverageUntil(pruned) == if Kept(log, cutoff, BACKFILL_RUNS_KEEP, m) then CoverageUntil(log) else None
    {
      PruneKeepsNewest(log, cutoff, m);
    }
  }

  lemma PruneKeepsNewest(log: seq<PassRow>, cutoff: int, m: int)
    requires EndsAtRun(log) && IsNewestComplete(log, m)
    ensures Kept(log, cutoff, BACKFILL_RUNS_KEEP, m) ==> CoverageUntil(PruneRuns(log, cutoff)) == CoverageUntil(log)
    ensures !Kept(log, cutoff, BACKFILL_RUNS_KEEP, m) ==> CoverageUntil(PruneRuns(log, cutoff)) == None
  {
    var pruned := PruneRuns(log, cutoff);
    KeptPrefixMembers(log, cutoff, BACKFILL_RUNS_KEEP, |log|);
    forall i | 0 <= i < |pruned| ensures pruned[i] in log {
      assert pruned[i] in pruned;
    }
    CoverageIsLatest(log);
    CoverageIsLatest(pruned);
    if Kept(log, cutoff, BACKFILL_RUNS_KEEP, m) {
      assert log[m] in pruned;
      var k :| 0 <= k < |pruned| && pruned[k] == log[m];
      assert pruned[k].listingComplete;
    } else if CoverageUntil(pruned).Some? {
      var k :| 0 <= k < |pruned| && pruned[k].listingComplete;
      assert pruned[k] in pruned;
      var j :| 0 <= j < |log| && Kept(log, cutoff, BACKFILL_RUNS_KEEP, j) && log[j] == pruned[k];
      if j != m {
        NewerRanksLower(log, cutoff, BACKFILL_RUNS_KEEP, m, j);
      }
      assert false;
    }
  }
}

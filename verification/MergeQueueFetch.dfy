/** The merge-queue listing of ci_observe_prs.py: one query per window, split in
    half while the window is too full to list, glued back without duplicates.

    The GitHub API is a snapshot that may refuse any query. Window ends are
    microseconds, as Python datetimes are; a query only carries whole seconds,
    so both halves of a split cover the second that holds their midpoint. */
module MergeQueueFetch {
  import opened Common
  import opened Sequences

  const SAFE_RESULT_LIMIT := 900
  const PAGE_SIZE := 100
  const MICROSECONDS := 1_000_000
  const HOUR_MICROSECONDS := 3600 * MICROSECONDS

  datatype Event = MergeGroup | OtherEvent
  datatype Run = Run(id: int, created: int, event: Event)

  /** The runs of one repository, newest first, and which requests fail.
      A list stops after `cap` results whatever its total says. */
  datatype Api = Api(runs: seq<Run>,
                     cap: nat,
                     probeFails: (int, int) -> bool,
                     pageFails: (int, int, int) -> bool)

  predicate DistinctIds(runs: seq<Run>) {
    forall i, j :: 0 <= i < j < |runs| ==> runs[i].id != runs[j].id
  }

  /** What the model takes from GitHub: ids identify runs, and a list that is
      within the safe limit is not cut. */
  predicate Snapshot(api: Api) {
    DistinctIds(api.runs) && SAFE_RESULT_LIMIT <= api.cap
  }

  function Seconds(moment: int): int {
    moment / MICROSECONDS
  }

  predicate InWindow(run: Run, from: int, to: int) {
    run.event == MergeGroup && from <= run.created <= to
  }

  /** The answer to `event=merge_group&created=from..to`, before any cap. */
  function Matching(api: Api, from: int, to: int): seq<Run> {
    Filter((run: Run) => InWindow(run, from, to), api.runs)
  }

  /** What a listing can return at most. */
  function Listable(api: Api, from: int, to: int): seq<Run> {
    var all := Matching(api, from, to);
    all[..Min(api.cap, |all|)]
  }

  /** Half of a window, rounded to the even microsecond like timedelta division. */
  function HalfWindow(width: int): int {
    if width % 2 == 0 || (width / 2) % 2 == 0 then width / 2 else width / 2 + 1
  }

  /** The split is at the microsecond nearest to the middle, the even one of two. */
  lemma HalfWindowIsNearest(width: int, half: int)
    ensures HalfWindow(width) == half <==> -1 <= 2 * half - width <= 1 && (2 * half != width ==> half % 2 == 0)
  {
  }

  predicate HasId(runs: seq<Run>, id: int) {
    exists i :: 0 <= i < |runs| && runs[i].id == id
  }

  /** One entry per run id, the first one seen. */
  function UniqueRuns(runs: seq<Run>): seq<Run> {
    if runs == [] then []
    else
      var unique := UniqueRuns(Front(runs));
      if HasId(unique, Last(runs).id) then unique else unique + [Last(runs)]
  }

  lemma {:induction false} UniqueRunsKeepsEveryId(runs: seq<Run>)
    ensures DistinctIds(UniqueRuns(runs))
    ensures forall run :: run in UniqueRuns(runs) ==> run in runs
    ensures forall run :: run in runs ==> HasId(UniqueRuns(runs), run.id)
  {
    if runs == [] {
      return;
    }
    var front, last := Front(runs), Last(runs);
    var before, after := UniqueRuns(front), UniqueRuns(runs);
    assert runs == front + [last];
    UniqueRunsKeepsEveryId(front);
    assert before <= after;
    forall run | run in runs ensures HasId(after, run.id) {
      if HasId(before, run.id) {
        var i :| 0 <= i < |before| && before[i].id == run.id;
        assert after[i].id == run.id;
      } else {
        assert run == last;
        assert after[|after| - 1] == last;
      }
    }
  }

  /** `found` holds every merge_group run of the window, each once, and no other run. */
  ghost predicate Exactly(found: seq<Run>, api: Api, from: int, to: int) {
    && DistinctIds(found)
    && forall run :: run in found <==> run in api.runs && InWindow(run, from, to)
  }

  ghost predicate NarrowWindowsFit(api: Api) {
    forall since: int, until: int {:trigger Matching(api, Seconds(since), Seconds(until))} ::
      until - since <= HOUR_MICROSECONDS ==> |Matching(api, Seconds(since), Seconds(until))| <= api.cap
  }

  ghost predicate FailsWithin(api: Api, from: int, to: int) {
    exists a: int, b: int :: from <= a && b <= to && FailsAt(api, a, b)
  }

  ghost predicate FailsAt(api: Api, from: int, to: int) {
    api.probeFails(from, to) || exists page: int :: api.pageFails(from, to, page)
  }

  lemma {:induction false} FilterKeepsDistinctIds(keep: Run -> bool, runs: seq<Run>)
    requires DistinctIds(runs)
    ensures DistinctIds(Filter(keep, runs))
  {
    if runs != [] {
      FilterKeepsDistinctIds(keep, Front(runs));
      var kept := Filter(keep, Front(runs));
      forall i | 0 <= i < |kept| ensures kept[i].id != Last(runs).id {
        assert kept[i] in Front(runs);
      }
    }
  }

  /** A listing is complete exactly when the cap did not cut it. */
  lemma ListableComplete(api: Api, from: int, to: int)
    requires Snapshot(api)
    ensures Exactly(Listable(api, from, to), api, from, to) <==> |Matching(api, from, to)| <= api.cap
  {
    var all := Matching(api, from, to);
    FilterKeepsDistinctIds((run: Run) => InWindow(run, from, to), api.runs);
    if |all| <= api.cap {
      assert Listable(api, from, to) == all;
    } else {
      var lost := all[api.cap];
      assert lost in all;
      assert lost !in Listable(api, from, to);
    }
  }

  lemma KeepAllMergeGroup(runs: seq<Run>)
    requires forall run :: run in runs ==> run.event == MergeGroup
    ensures Filter((run: Run) => run.event == MergeGroup, runs) == runs
  {
    if runs != [] {
      assert runs == Front(runs) + [Last(runs)];
      KeepAllMergeGroup(Front(runs));
    }
  }

  /** Two halves that overlap in their common second lose and duplicate nothing. */
  lemma HalvesGlue(api: Api, left: seq<Run>, right: seq<Run>, from: int, mid: int, to: int)
    requires DistinctIds(api.runs) && from <= mid <= to
    requires Exactly(left, api, from, mid) && Exactly(right, api, mid, to)
    ensures Exactly(UniqueRuns(left + right), api, from, to)
  {
    var glued := UniqueRuns(left + right);
    UniqueRunsKeepsEveryId(left + right);
    forall run ensures run in glued <==> run in api.runs && InWindow(run, from, to) {
      if run in glued {
        assert run in left || run in right;
      }
      if run in api.runs && InWindow(run, from, to) {
        assert run in left || run in right;
        assert run in left + right;
        var i :| 0 <= i < |glued| && glued[i].id == run.id;
        assert glued[i] in left + right;
        assert glued[i] in api.runs;
      }
    }
  }

  // -- which runs a bisection lists ---------------------------------------------------------

  predicate Splits(api: Api, since: int, until: int) {
    |Matching(api, Seconds(since), Seconds(until))| > SAFE_RESULT_LIMIT && until - since > HOUR_MICROSECONDS
  }

  function Middle(since: int, until: int): int {
    since + HalfWindow(until - since)
  }

  /** Some window that is listed rather than split lists the run. */
  predicate ListedBy(api: Api, since: int, until: int, run: Run)
    decreases Max(0, until - since)
  {
    if Splits(api, since, until) then
      ListedBy(api, since, Middle(since, until), run) || ListedBy(api, Middle(since, until), until, run)
    else run in Listable(api, Seconds(since), Seconds(until))
  }

  /** No window that is listed rather than split is cut by the cap. */
  predicate EveryListFits(api: Api, since: int, until: int)
    decreases Max(0, until - since)
  {
    if Splits(api, since, until) then
      EveryListFits(api, since, Middle(since, until)) && EveryListFits(api, Middle(since, until), until)
    else |Matching(api, Seconds(since), Seconds(until))| <= api.cap
  }

  /** No run was created in the second in which two halves meet. */
  predicate NoneWhereHalvesMeet(api: Api, since: int, until: int)
    decreases Max(0, until - since)
  {
    Splits(api, since, until) ==>
      && (forall run :: run in api.runs && run.event == MergeGroup ==> run.created != Seconds(Middle(since, until)))
      && NoneWhereHalvesMeet(api, since, Middle(since, until))
      && NoneWhereHalvesMeet(api, Middle(since, until), until)
  }

  lemma HalvesMeet(since: int, until: int)
    requires until - since > HOUR_MICROSECONDS
    ensures since < Middle(since, until) < until
    ensures Seconds(since) <= Seconds(Middle(since, until)) <= Seconds(until)
  {
  }

  lemma {:induction false} ListedIsInWindow(api: Api, since: int, until: int, run: Run)
    requires ListedBy(api, since, until, run)
    ensures run in api.runs && InWindow(run, Seconds(since), Seconds(until))
    decreases Max(0, until - since)
  {
    if Splits(api, since, until) {
      HalvesMeet(since, until);
      if ListedBy(api, since, Middle(since, until), run) {
        ListedIsInWindow(api, since, Middle(since, until), run);
      } else {
        ListedIsInWindow(api, Middle(since, until), until, run);
      }
    } else {
      assert run in Matching(api, Seconds(since), Seconds(until));
    }
  }

  lemma {:induction false} FittingListsListAll(api: Api, since: int, until: int, run: Run)
    requires EveryListFits(api, since, until)
    requires run in api.runs && InWindow(run, Seconds(since), Seconds(until))
    ensures ListedBy(api, since, until, run)
    decreases Max(0, until - since)
  {
    if Splits(api, since, until) {
      HalvesMeet(since, until);
      if run.created <= Seconds(Middle(since, until)) {
        FittingListsListAll(api, since, Middle(since, until), run);
      } else {
        FittingListsListAll(api, Middle(since, until), until, run);
      }
    } else {
      var all := Matching(api, Seconds(since), Seconds(until));
      assert all[..|all|] == all && run in all;
    }
  }

  /** Every run of the window is listed. */
  ghost predicate AllListed(api: Api, since: int, until: int) {
    forall run :: run in api.runs && InWindow(run, Seconds(since), Seconds(until)) ==> ListedBy(api, since, until, run)
  }

  lemma {:induction false} CutListsLoseRuns(api: Api, since: int, until: int)
    requires Snapshot(api) && NoneWhereHalvesMeet(api, since, until) && AllListed(api, since, until)
    ensures EveryListFits(api, since, until)
    decreases Max(0, until - since)
  {
    var from, to := Seconds(since), Seconds(until);
    if Splits(api, since, until) {
      var mid := Middle(since, until);
      HalvesMeet(since, until);
      forall run | run in api.runs && InWindow(run, from, Seconds(mid)) ensures ListedBy(api, since, mid, run) {
        if ListedBy(api, mid, until, run) {
          ListedIsInWindow(api, mid, until, run);
        }
      }
      CutListsLoseRuns(api, since, mid);
      forall run | run in api.runs && InWindow(run, Seconds(mid), to) ensures ListedBy(api, mid, until, run) {
        if ListedBy(api, since, mid, run) {
          ListedIsInWindow(api, since, mid, run);
        }
      }
      CutListsLoseRuns(api, mid, until);
    } else if |Matching(api, from, to)| > api.cap {
      var lost := CutRun(api, from, to);
    }
  }

  /** A run the cap cuts off a listing. */
  lemma CutRun(api: Api, from: int, to: int) returns (lost: Run)
    requires DistinctIds(api.runs) && |Matching(api, from, to)| > api.cap
    ensures lost in api.runs && InWindow(lost, from, to) && lost !in Listable(api, from, to)
  {
    var all := Matching(api, from, to);
    FilterKeepsDistinctIds((run: Run) => InWindow(run, from, to), api.runs);
    lost := all[api.cap];
    assert lost in all;
  }

  /** `found` holds the runs some listed window lists, each once. */
  ghost predicate HoldsListed(found: seq<Run>, api: Api, since: int, until: int) {
    DistinctIds(found) && forall run :: run in found <==> ListedBy(api, since, until, run)
  }

  lemma GluedHoldsListed(left: seq<Run>, right: seq<Run>, api: Api, since: int, until: int)
    requires Snapshot(api) && Splits(api, since, until)
    requires HoldsListed(left, api, since, Middle(since, until)) && HoldsListed(right, api, Middle(since, until), until)
    ensures HoldsListed(UniqueRuns(left + right), api, since, until)
  {
    var glued := UniqueRuns(left + right);
    UniqueRunsKeepsEveryId(left + right);
    forall run ensures run in glued <==> ListedBy(api, since, until, run) {
      if run in glued {
        assert run in left || run in right;
      }
      if ListedBy(api, since, until, run) {
        assert run in left + right;
        var i :| 0 <= i < |glued| && glued[i].id == run.id;
        assert glued[i] in glued && glued[i] in left + right;
        assert ListedBy(api, since, until, glued[i]);
        ListedIsInWindow(api, since, until, run);
        ListedIsInWindow(api, since, until, glued[i]);
      }
    }
  }

  /** What the bisection returns is complete exactly when every run of the window is in the
      uncut part of some listed window. It is when every listed window fits the cap; and
      only then, unless a run that one half cuts off was created in the second it shares
      with its neighbour, which may still list it. */
  lemma CompleteExactlyWhen(found: seq<Run>, api: Api, since: int, until: int)
    requires Snapshot(api) && HoldsListed(found, api, since, until)
    ensures Exactly(found, api, Seconds(since), Seconds(until)) <==> AllListed(api, since, until)
    ensures EveryListFits(api, since, until) ==> AllListed(api, since, until)
    ensures NoneWhereHalvesMeet(api, since, until) ==> (AllListed(api, since, until) <==> EveryListFits(api, since, until))
  {
    forall run | ListedBy(api, since, until, run) ensures run in api.runs && InWindow(run, Seconds(since), Seconds(until)) {
      ListedIsInWindow(api, since, until, run);
    }
    if EveryListFits(api, since, until) {
      forall run | run in api.runs && InWindow(run, Seconds(since), Seconds(until)) ensures ListedBy(api, since, until, run) {
        FittingListsListAll(api, since, until, run);
      }
    }
    if NoneWhereHalvesMeet(api, since, until) && AllListed(api, since, until) {
      CutListsLoseRuns(api, since, until);
    }
  }

  /** `_fetch_merge_group_range`: the probe, the split, or the page walk.
      Either failure, or exactly the runs an unlimited query would return. */
  method FetchRange(api: Api, since: int, until: int) returns (result: Option<seq<Run>>)
    ensures Snapshot(api) && NarrowWindowsFit(api) && result.Some? ==>
              Exactly(result.value, api, Seconds(since), Seconds(until))
    ensures Snapshot(api) && until - since <= HOUR_MICROSECONDS && result.Some? ==>
              (Exactly(result.value, api, Seconds(since), Seconds(until)) <==>
               |Matching(api, Seconds(since), Seconds(until))| <= api.cap)
    ensures Snapshot(api) && result.Some? ==> HoldsListed(result.value, api, since, until)
    ensures result.None? ==> FailsWithin(api, Seconds(since), Seconds(until))
    ensures api.probeFails(Seconds(since), Seconds(until)) ==> result.None?
    ensures until - since <= HOUR_MICROSECONDS && result.Some? ==>
              forall page :: 1 <= page && page * PAGE_SIZE < |Listable(api, Seconds(since), Seconds(until))| ==>
                !api.pageFails(Seconds(since), Seconds(until), page)
    decreases Max(0, until - since)
  {
    var from, to := Seconds(since), Seconds(until);
    if api.probeFails(from, to) {
      assert FailsAt(api, from, to);
      return None;
    }
    var total := |Matching(api, from, to)|;
    if total > SAFE_RESULT_LIMIT && until - since > HOUR_MICROSECONDS {
      var mid := Middle(since, until);
      var left := FetchRange(api, since, mid);
      var right := FetchRange(api, mid, until);
      if left.None? || right.None? {
        return None;
      }
      if Snapshot(api) && NarrowWindowsFit(api) {
        HalvesGlue(api, left.value, right.value, from, Seconds(mid), to);
      }
      if Snapshot(api) {
        GluedHoldsListed(left.value, right.value, api, since, until);
      }
      return Some(UniqueRuns(left.value + right.value));
    }
    var runs := ListPages(api, from, to);
    if runs.None? {
      return None;
    }
    forall run | run in runs.value ensures run.event == MergeGroup {
      assert run in Matching(api, from, to);
    }
    KeepAllMergeGroup(runs.value);
    if Snapshot(api) {
      ListableComplete(api, from, to);
      FilterKeepsDistinctIds((run: Run) => InWindow(run, from, to), api.runs);
    }
    return Some(Filter((run: Run) => run.event == MergeGroup, runs.value));
  }

  /** The pages of one listing, the probe's answer being the first. */
  method ListPages(api: Api, from: int, to: int) returns (result: Option<seq<Run>>)
    ensures result.Some? ==> result.value == Listable(api, from, to)
    ensures result.Some? ==>
              forall page :: 1 <= page && page * PAGE_SIZE < |Listable(api, from, to)| ==> !api.pageFails(from, to, page)
    ensures result.None? ==> FailsAt(api, from, to)
  {
    var listed := Listable(api, from, to);
    var runs := listed[..Min(PAGE_SIZE, |listed|)];
    var page := 1;
    while page * PAGE_SIZE < |listed|
      invariant page >= 1
      invariant runs == listed[..Min(page * PAGE_SIZE, |listed|)]
      invariant forall n :: 1 <= n < page ==> !api.pageFails(from, to, n)
      decreases |listed| - page * PAGE_SIZE
    {
      if api.pageFails(from, to, page) {
        return None;
      }
      var next := listed[page * PAGE_SIZE..Min((page + 1) * PAGE_SIZE, |listed|)];
      assert runs + next == listed[..Min((page + 1) * PAGE_SIZE, |listed|)];
      runs, page := runs + next, page + 1;
    }
    assert runs == listed;
    return Some(runs);
  }
}

/** Merge-queue attempts of one pull request: which runs are its own, which runs
    form one queue entry, and which entries were ejected (ci_observe_prs.py).

    `created` orders runs as their creation text does. */
module QueueAttempts {
  import opened Common
  import opened Sequences

  datatype Conclusion = Failure | TimedOut | StartupFailure | ActionRequired | Cancelled
                      | Success | Skipped | Neutral | NoConclusion | OtherConclusion

  datatype Run = Run(id: int, branch: string, sha: string, prOfBranch: Option<int>, created: int, conclusion: Conclusion)

  /** What groups runs into one queue entry. A run without both parts stands alone. */
  datatype EntryKey = Entry(branch: string, sha: string) | Alone(branch: string, sha: string, id: int)

  datatype Attempt = Attempt(runId: int, runIds: seq<int>, conclusion: Conclusion, ejected: bool)

  function KeyOf(run: Run): EntryKey {
    if run.branch != "" && run.sha != "" then Entry(run.branch, run.sha) else Alone(run.branch, run.sha, run.id)
  }

  /** Two runs belong to one entry exactly when they share branch and commit, both known,
      or are the same run. */
  lemma SameEntryExactlyWhen(a: Run, b: Run)
    ensures KeyOf(a) == KeyOf(b) <==>
            a.branch == b.branch && a.sha == b.sha && ((a.branch != "" && a.sha != "") || a.id == b.id)
  {
  }

  predicate Has(runs: seq<Run>, c: Conclusion) {
    exists i :: 0 <= i < |runs| && runs[i].conclusion == c
  }

  /** One conclusion for the entry: a real failure outranks the cancellations it caused. */
  function EntryConclusion(runs: seq<Run>): Conclusion {
    if Has(runs, Failure) then Failure
    else if Has(runs, TimedOut) then TimedOut
    else if Has(runs, StartupFailure) then StartupFailure
    else if Has(runs, ActionRequired) then ActionRequired
    else if Has(runs, Cancelled) then Cancelled
    else if runs != [] && forall i :: 0 <= i < |runs| ==> runs[i].conclusion in {Success, Skipped, Neutral} then Success
    else NoConclusion
  }

  /** The merged conclusion in words: success exactly when every workflow passed or
      stepped aside, a failure exactly when some workflow failed or was cancelled. */
  lemma EntryConclusionMeaning(runs: seq<Run>)
    ensures EntryConclusion(runs) == Success <==>
              runs != [] && forall run :: run in runs ==> run.conclusion in {Success, Skipped, Neutral}
    ensures EntryConclusion(runs) !in {NoConclusion, Success} <==>
              exists run :: run in runs && run.conclusion in {Failure, TimedOut, StartupFailure, ActionRequired, Cancelled}
    ensures EntryConclusion(runs) == Cancelled ==>
              forall run :: run in runs ==> run.conclusion !in {Failure, TimedOut, StartupFailure, ActionRequired}
  {
  }

  const UNSUCCESSFUL := {Failure, TimedOut, StartupFailure, ActionRequired, Cancelled}

  /** A smaller rank is a more telling conclusion. */
  function Rank(c: Conclusion): nat {
    match c
    case Failure => 0
    case TimedOut => 1
    case StartupFailure => 2
    case ActionRequired => 3
    case Cancelled => 4
    case _ => 5
  }

  /** Which of the five conclusions an entry without success gets: one that some run of it
      has and no other run outranks. */
  lemma EntryConclusionIsTheMostTelling(runs: seq<Run>, c: Conclusion)
    requires c in UNSUCCESSFUL
    ensures EntryConclusion(runs) == c <==>
            (exists run :: run in runs && run.conclusion == c) && forall run :: run in runs ==> Rank(c) <= Rank(run.conclusion)
  {
    forall x ensures Has(runs, x) <==> exists run :: run in runs && run.conclusion == x {
      if run :| run in runs && run.conclusion == x {
        var i :| 0 <= i < |runs| && runs[i] == run;
      }
    }
    var found := EntryConclusion(runs);
    if found == c {
      assert Has(runs, c);
      forall run | run in runs ensures Rank(c) <= Rank(run.conclusion) {
        assert Has(runs, run.conclusion);
      }
    }
  }

  // -- which runs belong to the pull request -------------------------------------

  /** By the queue branch that names it, or by a comment that links the run. */
  predicate IsMine(run: Run, number: int, linked: set<int>) {
    run.prOfBranch == Some(number) || run.id in linked
  }

  function Created(run: Run): int {
    run.created
  }

  /** The pull request's runs, oldest first. */
  function Mine(runs: seq<Run>, number: int, linked: set<int>): seq<Run> {
    SortBy(Created, Filter((run: Run) => IsMine(run, number, linked), runs))
  }

  // -- grouping runs into queue entries --------------------------------------------

  /** The entry keys in the order their first run was seen. */
  function Keys(runs: seq<Run>): seq<EntryKey> {
    if runs == [] then []
    else
      var keys := Keys(Front(runs));
      if KeyOf(Last(runs)) in keys then keys else keys + [KeyOf(Last(runs))]
  }

  function Group(runs: seq<Run>, key: EntryKey): seq<Run> {
    Filter((run: Run) => KeyOf(run) == key, runs)
  }

  function Groups(runs: seq<Run>): seq<seq<Run>> {
    seq(|Keys(runs)|, i requires 0 <= i < |Keys(runs)| => Group(runs, Keys(runs)[i]))
  }

  /** The grouping loop: a dictionary of lists, in insertion order. */
  method GroupRuns(runs: seq<Run>) returns (groups: seq<seq<Run>>)
    ensures groups == Groups(runs)
  {
    var entries: map<EntryKey, seq<Run>> := map[];
    var order: seq<EntryKey> := [];
    for i := 0 to |runs|
      invariant order == Keys(runs[..i])
      invariant forall key :: key in entries <==> key in order
      invariant forall key :: key in order ==> entries[key] == Group(runs[..i], key)
      invariant forall key :: key !in order ==> Group(runs[..i], key) == []
    {
      var key := KeyOf(runs[i]);
      assert Front(runs[..i + 1]) == runs[..i] && Last(runs[..i + 1]) == runs[i];
      if key !in entries {
        entries, order := entries[key := []], order + [key];
      }
      entries := entries[key := entries[key] + [runs[i]]];
    }
    assert runs[..|runs|] == runs;
    groups := seq(|order|, i requires 0 <= i < |order| && order[i] in entries => entries[order[i]]);
  }

  lemma {:induction false} KeysAreTheKeys(runs: seq<Run>)
    ensures Distinct(Keys(runs))
    ensures forall key :: key in Keys(runs) <==> exists run :: run in runs && KeyOf(run) == key
  {
    if runs != [] {
      KeysAreTheKeys(Front(runs));
      assert runs == Front(runs) + [Last(runs)];
    }
  }

  /** A key's group keeps its first run while later runs arrive. */
  lemma FirstRunStays(runs: seq<Run>, key: EntryKey)
    requires runs != []
    ensures key in Keys(Front(runs)) ==>
              && Group(Front(runs), key) != [] && Group(runs, key) != []
              && Group(runs, key)[0] == Group(Front(runs), key)[0]
    ensures key !in Keys(Front(runs)) && key == KeyOf(Last(runs)) ==> Group(runs, key) == [Last(runs)]
  {
    var front := Front(runs);
    KeysAreTheKeys(front);
    var group := Group(front, key);
    if key in Keys(front) {
      var run :| run in front && KeyOf(run) == key;
      assert run in group;
    } else {
      assert forall run :: run in front ==> KeyOf(run) != key;
      assert group == [] || group[0] in group;
    }
  }

  /** Over oldest-first runs the groups come in the order of their first runs. */
  lemma {:induction false} GroupsInOrder(runs: seq<Run>)
    requires SortedBy(Created, runs)
    ensures forall i :: 0 <= i < |Keys(runs)| ==> Group(runs, Keys(runs)[i]) != []
    ensures forall i, j :: 0 <= i < j < |Keys(runs)| ==>
              Group(runs, Keys(runs)[i])[0].created <= Group(runs, Keys(runs)[j])[0].created
  {
    if runs == [] {
      return;
    }
    var front, last, keys := Front(runs), Last(runs), Keys(runs);
    GroupsInOrder(front);
    KeysAreTheKeys(front);
    KeysAreTheKeys(runs);
    forall i | 0 <= i < |keys| ensures Group(runs, keys[i]) != [] {
      FirstRunStays(runs, keys[i]);
    }
    forall i, j | 0 <= i < j < |keys| ensures Group(runs, keys[i])[0].created <= Group(runs, keys[j])[0].created {
      FirstRunStays(runs, keys[i]);
      FirstRunStays(runs, keys[j]);
      if j == |Keys(front)| {
        var first := Group(front, keys[i])[0];
        assert first in Group(front, keys[i]);
        var k :| 0 <= k < |front| && front[k] == first;
        assert Created(runs[k]) <= Created(runs[|runs| - 1]);
      }
    }
  }

  // -- the attempts -------------------------------------------------------------

  function MinCreated(group: seq<Run>): int {
    if group == [] then 0
    else if |group| == 1 then group[0].created
    else Min(MinCreated(Front(group)), Last(group).created)
  }

  function Ids(runs: seq<Run>): seq<int> {
    seq(|runs|, i requires 0 <= i < |runs| => runs[i].id)
  }

  function BuildAttempt(group: seq<Run>, hasSuccessor: bool): Attempt
    requires group != []
  {
    var runs := SortBy(Created, group);
    var conclusion := EntryConclusion(runs);
    var failed := conclusion !in {NoConclusion, Success};
    Attempt(runs[0].id, Ids(runs), conclusion, failed || hasSuccessor)
  }

  function BuildAttempts(runs: seq<Run>, number: int, linked: set<int>): seq<Attempt> {
    var ordered := SortBy(MinCreated, Groups(Mine(runs, number, linked)));
    seq(|ordered|, i requires 0 <= i < |ordered| =>
      if ordered[i] == [] then Attempt(0, [], NoConclusion, false)
      else BuildAttempt(ordered[i], i + 1 < |ordered|))
  }

  lemma {:induction false} MinCreatedOfSorted(group: seq<Run>)
    requires group != [] && SortedBy(Created, group)
    ensures MinCreated(group) == group[0].created
  {
    if |group| > 1 {
      MinCreatedOfSorted(Front(group));
      assert Created(group[0]) <= Created(group[|group| - 1]);
    }
  }

  lemma GroupsAreSorted(runs: seq<Run>, number: int, linked: set<int>)
    ensures SortedBy(Created, Mine(runs, number, linked))
    ensures forall key :: SortedBy(Created, Group(Mine(runs, number, linked), key))
  {
    var mine := Mine(runs, number, linked);
    SortBySorted(Created, Filter((run: Run) => IsMine(run, number, linked), runs));
    forall key ensures SortedBy(Created, Group(mine, key)) {
      FilterSorted(Created, (run: Run) => KeyOf(run) == key, mine);
    }
  }

  /** Both sorts after the grouping change nothing: attempt i is entry i. */
  lemma AttemptsFollowEntries(runs: seq<Run>, number: int, linked: set<int>)
    ensures var mine := Mine(runs, number, linked);
            var attempts := BuildAttempts(runs, number, linked);
            && |attempts| == |Keys(mine)|
            && forall i :: 0 <= i < |attempts| ==>
                 var group := Group(mine, Keys(mine)[i]);
                 && group != []
                 && attempts[i].runIds == Ids(group)
                 && attempts[i].runId == group[0].id
                 && attempts[i].conclusion == EntryConclusion(group)
                 && (attempts[i].ejected <==> i + 1 < |attempts| || EntryConclusion(group) !in {NoConclusion, Success})
  {
    var mine := Mine(runs, number, linked);
    GroupsAreSorted(runs, number, linked);
    GroupsInOrder(mine);
    var groups: seq<seq<Run>> := Groups(mine);
    forall i: int | 0 <= i < |groups| ensures groups[i] != [] && MinCreated(groups[i]) == groups[i][0].created {
      MinCreatedOfSorted(groups[i]);
    }
    SortByIdentity(MinCreated, groups);
    forall i | 0 <= i < |groups| ensures SortBy(Created, groups[i]) == groups[i] {
      SortByIdentity(Created, groups[i]);
    }
  }

  // -- what the table of attempts means --------------------------------------------

  predicate DistinctIds(runs: seq<Run>) {
    forall i, j :: 0 <= i < j < |runs| ==> runs[i].id != runs[j].id
  }

  lemma DistinctIdsMember(runs: seq<Run>, a: Run, b: Run)
    requires DistinctIds(runs) && a in runs && b in runs && a.id == b.id
    ensures a == b
  {
  }

  lemma RunInAttempt(runs: seq<Run>, number: int, linked: set<int>, run: Run, i: int)
    requires DistinctIds(runs) && run in runs
    requires 0 <= i < |BuildAttempts(runs, number, linked)|
    ensures |Keys(Mine(runs, number, linked))| == |BuildAttempts(runs, number, linked)|
    ensures run.id in BuildAttempts(runs, number, linked)[i].runIds <==>
              IsMine(run, number, linked) && KeyOf(run) == Keys(Mine(runs, number, linked))[i]
  {
    AttemptsFollowEntries(runs, number, linked);
    var mine := Mine(runs, number, linked);
    var group := Group(mine, Keys(mine)[i]);
    if run.id in Ids(group) {
      var k :| 0 <= k < |group| && group[k].id == run.id;
      assert group[k] in mine;
      DistinctIdsMember(runs, group[k], run);
    }
    if IsMine(run, number, linked) && KeyOf(run) == Keys(mine)[i] {
      assert run in group;
      var k :| 0 <= k < |group| && group[k] == run;
      assert Ids(group)[k] == run.id;
    }
  }

  /** Every run of the pull request is in exactly one attempt, and attempts hold no other run. */
  lemma AttemptsPartitionRuns(runs: seq<Run>, number: int, linked: set<int>, run: Run)
    requires DistinctIds(runs) && run in runs
    ensures var attempts := BuildAttempts(runs, number, linked);
            && (run.prOfBranch == Some(number) || run.id in linked <==>
                exists i :: 0 <= i < |attempts| && run.id in attempts[i].runIds)
            && forall i, j | 0 <= i < |attempts| && 0 <= j < |attempts| ::
                 run.id in attempts[i].runIds && run.id in attempts[j].runIds ==> i == j
  {
    var attempts, keys := BuildAttempts(runs, number, linked), Keys(Mine(runs, number, linked));
    KeysAreTheKeys(Mine(runs, number, linked));
    AttemptsFollowEntries(runs, number, linked);
    forall i | 0 <= i < |attempts|
      ensures run.id in attempts[i].runIds <==> IsMine(run, number, linked) && KeyOf(run) == keys[i]
    {
      RunInAttempt(runs, number, linked, run, i);
    }
    if IsMine(run, number, linked) {
      assert KeyOf(run) in keys;
      var i :| 0 <= i < |keys| && keys[i] == KeyOf(run);
      assert run.id in attempts[i].runIds;
    }
  }

  predicate InAttempt(attempts: seq<Attempt>, i: int, run: Run) {
    0 <= i < |attempts| && run.id in attempts[i].runIds
  }

  /** Two runs of the pull request, named by the queue branch or by a comment, are in one
      attempt exactly when they share branch and commit, both known, or are the same run. */
  lemma SameAttemptExactlyWhen(runs: seq<Run>, number: int, linked: set<int>, a: Run, b: Run)
    requires DistinctIds(runs) && a in runs && b in runs
    requires a.prOfBranch == Some(number) || a.id in linked
    requires b.prOfBranch == Some(number) || b.id in linked
    ensures var attempts := BuildAttempts(runs, number, linked);
            (exists i :: InAttempt(attempts, i, a) && InAttempt(attempts, i, b)) <==>
            a.branch == b.branch && a.sha == b.sha && ((a.branch != "" && a.sha != "") || a.id == b.id)
  {
    var attempts, keys := BuildAttempts(runs, number, linked), Keys(Mine(runs, number, linked));
    SameEntryExactlyWhen(a, b);
    AttemptsFollowEntries(runs, number, linked);
    forall i | 0 <= i < |attempts|
      ensures InAttempt(attempts, i, a) <==> KeyOf(a) == keys[i]
      ensures InAttempt(attempts, i, b) <==> KeyOf(b) == keys[i]
    {
      RunInAttempt(runs, number, linked, a, i);
      RunInAttempt(runs, number, linked, b, i);
    }
    AttemptsPartitionRuns(runs, number, linked, a);
  }

  /** The keyed table `(repo, number, run_id)` after the attempts are inserted. */
  function Written(attempts: seq<Attempt>): map<int, Attempt> {
    if attempts == [] then map[] else Written(Front(attempts))[Last(attempts).runId := Last(attempts)]
  }

  lemma {:induction false} WrittenKeepsAll(attempts: seq<Attempt>)
    requires forall i, j :: 0 <= i < j < |attempts| ==> attempts[i].runId != attempts[j].runId
    ensures forall i :: 0 <= i < |attempts| ==>
              attempts[i].runId in Written(attempts) && Written(attempts)[attempts[i].runId] == attempts[i]
    ensures forall id :: id in Written(attempts) ==> exists i :: 0 <= i < |attempts| && attempts[i].runId == id
  {
    if attempts != [] {
      WrittenKeepsAll(Front(attempts));
    }
  }

  /** Primary run ids are pairwise different, so the keyed replace loses no attempt. */
  lemma EveryAttemptIsWritten(runs: seq<Run>, number: int, linked: set<int>)
    requires DistinctIds(runs)
    ensures var attempts := BuildAttempts(runs, number, linked);
            && (forall i, j :: 0 <= i < j < |attempts| ==> attempts[i].runId != attempts[j].runId)
            && forall i :: 0 <= i < |attempts| ==>
                 attempts[i].runId in Written(attempts) && Written(attempts)[attempts[i].runId] == attempts[i]
  {
    AttemptsFollowEntries(runs, number, linked);
    var mine := Mine(runs, number, linked);
    var attempts := BuildAttempts(runs, number, linked);
    KeysAreTheKeys(mine);
    forall i, j | 0 <= i < j < |attempts| ensures attempts[i].runId != attempts[j].runId {
      var a, b := Group(mine, Keys(mine)[i])[0], Group(mine, Keys(mine)[j])[0];
      assert a in Group(mine, Keys(mine)[i]) && b in Group(mine, Keys(mine)[j]);
      if a.id == b.id {
        DistinctIdsMember(runs, a, b);
      }
    }
    WrittenKeepsAll(attempts);
  }

  lemma LastAttempt(runs: seq<Run>, number: int, linked: set<int>)
    ensures var attempts, mine := BuildAttempts(runs, number, linked), Mine(runs, number, linked);
            attempts != [] ==>
              && Keys(mine) != []
              && (Last(attempts).ejected <==> EntryConclusion(Group(mine, Last(Keys(mine)))) !in {NoConclusion, Success})
  {
    AttemptsFollowEntries(runs, number, linked);
  }

  /** All attempts but the last are ejected; the last is ejected exactly when one
      of its workflows failed or was cancelled. */
  lemma EjectionRule(runs: seq<Run>, number: int, linked: set<int>)
    ensures var attempts := BuildAttempts(runs, number, linked);
            forall i :: 0 <= i < |attempts| - 1 ==> attempts[i].ejected
    ensures var attempts := BuildAttempts(runs, number, linked);
            var mine := Mine(runs, number, linked);
            attempts != [] ==>
              && Keys(mine) != []
              && (Last(attempts).ejected <==>
                  exists run :: run in Group(mine, Last(Keys(mine)))
                                && run.conclusion in {Failure, TimedOut, StartupFailure, ActionRequired, Cancelled})
  {
    AttemptsFollowEntries(runs, number, linked);
    LastAttempt(runs, number, linked);
    var mine := Mine(runs, number, linked);
    if Keys(mine) != [] {
      EntryConclusionMeaning(Group(mine, Last(Keys(mine))));
    }
  }

  /** Attempts come in chronological order, each led by its earliest run. */
  lemma AttemptsAreChronological(runs: seq<Run>, number: int, linked: set<int>)
    ensures var mine := Mine(runs, number, linked);
            forall i, j :: 0 <= i < j < |Keys(mine)| ==>
              && Group(mine, Keys(mine)[i]) != [] && Group(mine, Keys(mine)[j]) != []
              && Group(mine, Keys(mine)[i])[0].created <= Group(mine, Keys(mine)[j])[0].created
    ensures var mine := Mine(runs, number, linked);
            forall key, k :: 0 <= k < |Group(mine, key)| ==> Group(mine, key)[0].created <= Group(mine, key)[k].created
  {
    var mine := Mine(runs, number, linked);
    GroupsAreSorted(runs, number, linked);
    GroupsInOrder(mine);
    forall key, k | 0 <= k < |Group(mine, key)|
      ensures Group(mine, key)[0].created <= Group(mine, key)[k].created
    {
      var group := Group(mine, key);
      assert SortedBy(Created, group);
      assert k == 0 || Created(group[0]) <= Created(group[k]);
    }
  }

  lemma {:induction false} FilterMultiset(keep: Run -> bool, xs: seq<Run>, run: Run)
    ensures multiset(Filter(keep, xs))[run] == if keep(run) then multiset(xs)[run] else 0
  {
    if xs != [] {
      FilterMultiset(keep, Front(xs), run);
      assert xs == Front(xs) + [Last(xs)];
    }
  }

  lemma SameMine(runs: seq<Run>, shuffled: seq<Run>, number: int, linked: set<int>)
    requires multiset(runs) == multiset(shuffled)
    requires forall i, j :: 0 <= i < j < |runs| ==> runs[i].created != runs[j].created
    ensures Mine(runs, number, linked) == Mine(shuffled, number, linked)
  {
    var keep := (run: Run) => IsMine(run, number, linked);
    var a, b := Filter(keep, runs), Filter(keep, shuffled);
    forall run ensures multiset(a)[run] == multiset(b)[run] {
      FilterMultiset(keep, runs, run);
      FilterMultiset(keep, shuffled, run);
    }
    assert multiset(a) == multiset(b);
    SortBySorted(Created, a);
    SortBySorted(Created, b);
    var sorted := SortBy(Created, a);
    forall i, j | 0 <= i < |sorted| && 0 <= j < |sorted| && Created(sorted[i]) == Created(sorted[j])
      ensures sorted[i] == sorted[j]
    {
      assert sorted[i] in a && sorted[j] in a;
      assert sorted[i] in runs && sorted[j] in runs;
    }
    SortedUnique(Created, sorted, SortBy(Created, b));
  }

  /** When creation times differ, the attempts do not depend on the order GitHub
      returned the runs in. */
  lemma ArrivalOrderIrrelevant(runs: seq<Run>, shuffled: seq<Run>, number: int, linked: set<int>)
    requires multiset(runs) == multiset(shuffled)
    requires forall i, j :: 0 <= i < j < |runs| ==> runs[i].created != runs[j].created
    ensures BuildAttempts(runs, number, linked) == BuildAttempts(shuffled, number, linked)
  {
    SameMine(runs, shuffled, number, linked);
  }
}

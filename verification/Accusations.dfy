/** When exactly a run with a capture is accused: by an exact lookup once retention has
    removed the capture, and by a request that reads beside a poll. */
module Accusations {
  import opened Common
  import opened Sequences
  import opened CaptureRegistry
  import opened RegistryPoll
  import opened Verdict

  // -- exact lookups ------------------------------------------------------------------

  /** A prune leaves a run its captures exactly when one of them was seen within retention:
      the guard of the DELETE, for whatever run and at whatever time. */
  lemma PruneKeepsCapturedExactlyWhen(t: Tables, at: int, run: RunRow, now: int)
    ensures VerdictOf(Apply(t, PruneStep(at)), run, now) == Captured <==>
            exists id :: id in t.captures && RunOf(t.captures[id]) == run.id && at - 30 * DAY <= t.captures[id].lastSeen
  {
    var after := Prune(t.captures, at);
    if id :| id in t.captures && RunOf(t.captures[id]) == run.id && at - RETENTION <= t.captures[id].lastSeen {
      assert id in CaptureIds(after, run.id);
    }
    if CaptureIds(after, run.id) != {} {
      var id :| id in CaptureIds(after, run.id);
      assert id in t.captures && after[id] == t.captures[id];
    }
  }

  predicate Tagged(identity: Identity, run: string) {
    RunId in identity && identity[RunId] == run
  }

  predicate TagsRun(entries: seq<Found>, id: string, run: string) {
    forall i :: 0 <= i < |entries| && entries[i].id == id ==> Tagged(entries[i].identity, run)
  }

  predicate RowIsTagged(captures: map<string, CaptureRow>, id: string, run: string) {
    id in captures ==> Tagged(captures[id].identity, run)
  }

  lemma {:induction false} UpsertTags(captures: map<string, CaptureRow>, entries: seq<Found>, now: int, id: string, run: string)
    requires RowIsTagged(captures, id, run) && TagsRun(entries, id, run)
    ensures var after := Upsert(captures, entries, now);
            && RowIsTagged(after, id, run)
            && (id in captures ==> id in after && after[id].lastSeen in {captures[id].lastSeen, now})
            && (Mentions(entries, id) ==> id in after && after[id].lastSeen == now)
  {
    if entries != [] {
      UpsertTags(captures, Front(entries), now, id, run);
      if Mentions(entries, id) && Last(entries).id != id {
        var i :| 0 <= i < |entries| && entries[i].id == id;
        assert Front(entries)[i].id == id;
      }
    }
  }

  /** Every capture any step upserts is filed under the run its id names. */
  ghost predicate StepsTagged(steps: seq<Step>, runOfId: string -> string) {
    forall n, id :: 0 <= n < |steps| && steps[n].UpsertStep? ==> TagsRun(steps[n].found, id, runOfId(id))
  }

  lemma {:induction false} StoredUnderItsRun(steps: seq<Step>, id: string, runOfId: string -> string)
    requires StepsTagged(steps, runOfId)
    ensures RowIsTagged(ApplyAll(EMPTY, steps).captures, id, runOfId(id))
  {
    if steps != [] {
      var front, last := Front(steps), Last(steps);
      forall n, i | 0 <= n < |front| && front[n].UpsertStep? ensures TagsRun(front[n].found, i, runOfId(i)) {
        assert front[n] == steps[n];
      }
      StoredUnderItsRun(front, id, runOfId);
      if last.UpsertStep? {
        assert last == steps[|steps| - 1];
        UpsertTags(ApplyAll(EMPTY, front).captures, last.found, last.now, id, runOfId(id));
      }
    }
  }

  /** Some capture of the run was upserted, and no prune since found that sighting older
      than retention. */
  ghost predicate RetainsSome(steps: seq<Step>, run: RunRow, runOfId: string -> string) {
    exists id :: Retained(steps, id) && runOfId(id) == run.id
  }

  lemma JoinedExactlyWhen(steps: seq<Step>, run: RunRow, runOfId: string -> string)
    requires StepsTagged(steps, runOfId)
    ensures CaptureIds(ApplyAll(EMPTY, steps).captures, run.id) != {} <==> RetainsSome(steps, run, runOfId)
  {
    var captures := ApplyAll(EMPTY, steps).captures;
    if id :| Retained(steps, id) && runOfId(id) == run.id {
      StoredExactlyWhenRetained(steps, id);
      StoredUnderItsRun(steps, id, runOfId);
      assert id in CaptureIds(captures, run.id);
    }
    if CaptureIds(captures, run.id) != {} {
      var id :| id in CaptureIds(captures, run.id);
      StoredExactlyWhenRetained(steps, id);
      StoredUnderItsRun(steps, id, runOfId);
    }
  }

  /** After any history an exact lookup reads "capture" exactly when some capture of the run
      was upserted and no prune since found that sighting older than retention. */
  lemma CapturedExactlyWhen(steps: seq<Step>, run: RunRow, now: int, runOfId: string -> string)
    requires StepsTagged(steps, runOfId)
    ensures VerdictOf(ApplyAll(EMPTY, steps), run, now) == Captured <==> RetainsSome(steps, run, runOfId)
  {
    JoinedExactlyWhen(steps, run, runOfId);
  }

  lemma PrefixTagged(steps: seq<Step>, n: nat, runOfId: string -> string)
    requires StepsTagged(steps, runOfId) && n <= |steps|
    ensures StepsTagged(steps[..n], runOfId)
  {
    forall m, i | 0 <= m < n && steps[..n][m].UpsertStep? ensures TagsRun(steps[..n][m].found, i, runOfId(i)) {
      assert steps[..n][m] == steps[m];
    }
  }

  /** Step n leaves the run some capture: one that is stored by then and whose last sighting
      the step, if it is a prune, does not find older than retention. */
  ghost predicate SparesSome(steps: seq<Step>, n: nat, run: RunRow, runOfId: string -> string)
    requires n < |steps|
  {
    exists id :: && Retained(steps[..n], id) && runOfId(id) == run.id
                 && Spares(steps[n], steps[LastSighting(steps[..n], id)].now)
  }

  /** A prune keeps what it spares and nothing else; no other step removes a capture. */
  lemma RetainedAfter(steps: seq<Step>, n: nat, id: string)
    requires n < |steps|
    ensures Retained(steps[..n], id) && Spares(steps[n], steps[LastSighting(steps[..n], id)].now) ==>
              Retained(steps[..n + 1], id)
    ensures steps[n].PruneStep? && Retained(steps[..n + 1], id) ==>
              Retained(steps[..n], id) && Spares(steps[n], steps[LastSighting(steps[..n], id)].now)
  {
    var before, after := steps[..n], steps[..n + 1];
    assert Front(after) == before && Last(after) == steps[n];
    assert forall q :: 0 <= q < n ==> after[q] == before[q] == steps[q];
    if steps[n].PruneStep? {
      assert LastSighting(after, id) == LastSighting(before, id);
      assert after[n] == steps[n];
    }
  }

  /** From a moment at which it reads "capture", an exact lookup keeps reading it through
      every later step exactly when every later prune spares some capture of the run. */
  lemma ExactLookupKeepsItsPromiseExactlyWhen(steps: seq<Step>, from: nat, run: RunRow, now: int, runOfId: string -> string)
    requires StepsTagged(steps, runOfId) && from <= |steps|
    requires VerdictOf(ApplyAll(EMPTY, steps[..from]), run, now) == Captured
    ensures (forall n :: from <= n <= |steps| ==> VerdictOf(ApplyAll(EMPTY, steps[..n]), run, now) == Captured) <==>
            forall n :: from <= n < |steps| && steps[n].PruneStep? ==> SparesSome(steps, n, run, runOfId)
  {
    if forall n :: from <= n <= |steps| ==> VerdictOf(ApplyAll(EMPTY, steps[..n]), run, now) == Captured {
      forall n | from <= n < |steps| && steps[n].PruneStep? ensures SparesSome(steps, n, run, runOfId) {
        PrefixTagged(steps, n + 1, runOfId);
        CapturedExactlyWhen(steps[..n + 1], run, now, runOfId);
        var id :| Retained(steps[..n + 1], id) && runOfId(id) == run.id;
        RetainedAfter(steps, n, id);
      }
    }
    if forall n :: from <= n < |steps| && steps[n].PruneStep? ==> SparesSome(steps, n, run, runOfId) {
      forall n | from <= n <= |steps| ensures VerdictOf(ApplyAll(EMPTY, steps[..n]), run, now) == Captured {
        PrefixTagged(steps, from, runOfId);
        CapturedExactlyWhen(steps[..from], run, now, runOfId);
        StaysRetained(steps, from, n, run, runOfId);
        PrefixTagged(steps, n, runOfId);
        CapturedExactlyWhen(steps[..n], run, now, runOfId);
      }
    }
  }

  lemma SparedStays(steps: seq<Step>, n: nat, run: RunRow, runOfId: string -> string)
    requires n < |steps| && SparesSome(steps, n, run, runOfId)
    ensures RetainsSome(steps[..n + 1], run, runOfId)
  {
    var id :| Retained(steps[..n], id) && runOfId(id) == run.id && Spares(steps[n], steps[LastSighting(steps[..n], id)].now);
    RetainedAfter(steps, n, id);
  }

  /** A step that is no prune spares whatever is stored. */
  lemma OthersSpare(steps: seq<Step>, n: nat, run: RunRow, runOfId: string -> string)
    requires n < |steps| && !steps[n].PruneStep? && RetainsSome(steps[..n], run, runOfId)
    ensures SparesSome(steps, n, run, runOfId)
  {
    var id :| Retained(steps[..n], id) && runOfId(id) == run.id;
    assert Spares(steps[n], steps[LastSighting(steps[..n], id)].now);
  }

  /** A prune at step n leaves the run some capture. */
  ghost predicate SparedAt(steps: seq<Step>, n: int, run: RunRow, runOfId: string -> string) {
    0 <= n < |steps| && steps[n].PruneStep? ==> SparesSome(steps, n, run, runOfId)
  }

  lemma OneStepSpares(steps: seq<Step>, n: nat, run: RunRow, runOfId: string -> string)
    requires n < |steps| && SparedAt(steps, n, run, runOfId) && RetainsSome(steps[..n], run, runOfId)
    ensures RetainsSome(steps[..n + 1], run, runOfId)
  {
    if !steps[n].PruneStep? {
      OthersSpare(steps, n, run, runOfId);
    }
    SparedStays(steps, n, run, runOfId);
  }

  lemma {:induction false} StaysRetained(steps: seq<Step>, from: nat, n: nat, run: RunRow, runOfId: string -> string)
    requires from <= n <= |steps| && RetainsSome(steps[..from], run, runOfId)
    requires forall m :: from <= m < n ==> SparedAt(steps, m, run, runOfId)
    ensures RetainsSome(steps[..n], run, runOfId)
    decreases n
  {
    if from < n {
      StaysRetained(steps, from, n - 1, run, runOfId);
      OneStepSpares(steps, n - 1, run, runOfId);
    }
  }

  // -- requests beside the poller ------------------------------------------------------------

  datatype Poll = Poll(answers: map<Source, Answer>, entries: seq<Found>, now: int)

  /** Every capture an answer names is filed under the run its id names. */
  predicate AnswerNamesItsRuns(answer: Answer, runOfId: string -> string) {
    answer.Complete? ==>
      forall i :: 0 <= i < |answer.captures| ==> Tagged(answer.captures[i].identity, runOfId(answer.captures[i].id))
  }

  ghost predicate PollOk(poll: Poll, runOfId: string -> string) {
    && AllSources(poll.answers)
    && Lists(poll.entries, MergedAnswers(poll.answers))
    && forall s :: s in poll.answers ==> AnswerNamesItsRuns(poll.answers[s], runOfId)
  }

  lemma {:induction false} MergeFoundTags(found: map<string, Found>, captures: seq<Found>, id: string, run: string)
    requires id in found ==> Tagged(found[id].identity, run)
    requires TagsRun(captures, id, run)
    ensures var merged := MergeFound(found, captures);
            && (id in merged ==> Tagged(merged[id].identity, run))
            && (id in found || Mentions(captures, id) ==> id in merged)
  {
    if captures != [] {
      MergeFoundTags(found, Front(captures), id, run);
      if Mentions(captures, id) && Last(captures).id != id {
        var i :| 0 <= i < |captures| && captures[i].id == id;
        assert Front(captures)[i].id == id;
      }
    }
  }

  lemma MergeTags(found: map<string, Found>, answer: Answer, id: string, runOfId: string -> string)
    requires id in found ==> Tagged(found[id].identity, runOfId(id))
    requires AnswerNamesItsRuns(answer, runOfId)
    ensures var merged := Merge(found, answer);
            && (id in merged ==> Tagged(merged[id].identity, runOfId(id)))
            && (id in found || (answer.Complete? && Mentions(answer.captures, id)) ==> id in merged)
  {
    if answer.Complete? {
      MergeFoundTags(found, answer.captures, id, runOfId(id));
    }
  }

  lemma EntriesOfPoll(poll: Poll, id: string, runOfId: string -> string)
    requires PollOk(poll, runOfId)
    ensures TagsRun(poll.entries, id, runOfId(id))
    ensures forall s :: s in poll.answers && poll.answers[s].Complete? && Mentions(poll.answers[s].captures, id) ==>
              Mentions(poll.entries, id)
  {
    var p := Merge(map[], poll.answers[Prometheus]);
    MergeTags(map[], poll.answers[Prometheus], id, runOfId);
    MergeTags(p, poll.answers[Loki], id, runOfId);
    MergeTags(Merge(p, poll.answers[Loki]), poll.answers[Info], id, runOfId);
    forall s | s in poll.answers && poll.answers[s].Complete? && Mentions(poll.answers[s].captures, id)
      ensures Mentions(poll.entries, id)
    {
      assert s == Prometheus || s == Loki || s == Info;
      assert id in MergedAnswers(poll.answers);
    }
  }

  predicate PollsForward(polls: seq<Poll>) {
    forall i, j :: 0 <= i < j < |polls| ==> polls[i].now <= polls[j].now
  }


  ghost predicate PollsOk(polls: seq<Poll>, runOfId: string -> string)
    ensures PollsOk(polls, runOfId) ==> AllAsked(polls)
  {
    forall n :: 0 <= n < |polls| ==> PollOk(polls[n], runOfId)
  }

  ghost predicate AllAsked(polls: seq<Poll>) {
    forall n :: 0 <= n < |polls| ==> AllSources(polls[n].answers)
  }

  /** The statements of all polls, five a poll. */
  function StatementAt(polls: seq<Poll>, k: nat): Step
    requires AllAsked(polls) && k < 5 * |polls|
  {
    var poll := polls[k / 5];
    assert AllSources(poll.answers);
    PollSteps(poll.answers, poll.entries, poll.now)[k % 5]
  }

  function Statements(polls: seq<Poll>): seq<Step>
    requires AllAsked(polls)
  {
    seq(5 * |polls|, k requires 0 <= k < 5 * |polls| && AllAsked(polls) => StatementAt(polls, k))
  }

  lemma PollsTag(polls: seq<Poll>, runOfId: string -> string)
    requires PollsOk(polls, runOfId)
    ensures StepsTagged(Statements(polls), runOfId)
  {
    forall n, id | 0 <= n < |Statements(polls)| && Statements(polls)[n].UpsertStep?
      ensures TagsRun(Statements(polls)[n].found, id, runOfId(id))
    {
      EntriesOfPoll(polls[n / 5], id, runOfId);
    }
  }

  /** The upsert of the poll that the statement belongs to. */
  function UpsertOf(k: nat): nat {
    5 * (k / 5) + 3
  }

  /** A sighting that no later step precedes and no later prune finds too old is retained. */
  lemma SightingIsRetained(steps: seq<Step>, u: nat, id: string)
    requires u < |steps| && Sights(steps[u], id)
    requires forall n :: u <= n < |steps| ==> steps[u].now <= steps[n].now && Spares(steps[n], steps[u].now)
    ensures Retained(steps, id)
  {
    assert u <= LastSighting(steps, id);
  }

  lemma StatementMeaning(polls: seq<Poll>, k: nat)
    requires AllAsked(polls) && k < 5 * |polls|
    ensures var step, poll := StatementAt(polls, k), polls[k / 5];
            && step.now == poll.now
            && (step.RecordStep? ==> step.source in poll.answers && step.answer == poll.answers[step.source])
            && UpsertOf(k) < 5 * |polls| && StatementAt(polls, UpsertOf(k)) == UpsertStep(poll.entries, poll.now)
  {
    assert AllSources(polls[k / 5].answers);
    assert UpsertOf(k) / 5 == k / 5 && UpsertOf(k) % 5 == 3;
  }

  /** What a complete answer lists, its poll upserts. */
  lemma ListedIsSighted(polls: seq<Poll>, k: nat, id: string, runOfId: string -> string)
    requires PollsOk(polls, runOfId) && k < 5 * |polls|
    requires var step := StatementAt(polls, k); step.RecordStep? && step.answer.Complete? && Mentions(step.answer.captures, id)
    ensures UpsertOf(k) < 5 * |polls| && Sights(StatementAt(polls, UpsertOf(k)), id)
  {
    StatementMeaning(polls, k);
    EntriesOfPoll(polls[k / 5], id, runOfId);
  }

  /** It is stored from then on, until a prune finds that poll older than retention. */
  lemma SightedIsRetained(polls: seq<Poll>, k: nat, i: nat, id: string)
    requires AllAsked(polls) && PollsForward(polls)
    requires k < 5 * |polls| && UpsertOf(k) < i <= 5 * |polls| && Sights(StatementAt(polls, UpsertOf(k)), id)
    requires forall n :: 0 <= n < |polls| ==> polls[n].now - RETENTION <= polls[k / 5].now
    ensures Retained(Statements(polls)[..i], id)
  {
    var steps, u := Statements(polls)[..i], UpsertOf(k);
    StatementMeaning(polls, k);
    forall n | u <= n < |steps| ensures steps[u].now <= steps[n].now && Spares(steps[n], steps[u].now) {
      StatementMeaning(polls, n);
      assert k / 5 <= n / 5;
    }
    SightingIsRetained(steps, u, id);
  }

  /** A run that the answers a request reads list is accused exactly when the request reads
      the captures before the poll of that answer has stored them, no capture was stored
      under the run by then, it is judgeable, and all sources vouch for its absence. The
      two reads may be polls apart, in either order; the request ends within a month. */
  lemma ListedRunIsAccusedExactlyWhen(polls: seq<Poll>, i: nat, j: nat, s: Source, id: string, run: RunRow, now: int,
                                      runOfId: string -> string)
    requires PollsOk(polls, runOfId) && PollsForward(polls) && i <= 5 * |polls| && j <= 5 * |polls|
    requires forall n :: 0 <= n < |polls| ==> polls[n].now <= now + RETENTION - STALE_SECONDS
    requires var k := LastAnswer(Statements(polls)[..j], s);
             k >= 0 && Mentions(StatementAt(polls, k).answer.captures, id) && runOfId(id) == run.id
    ensures var t, k := Request(Statements(polls), i, j), LastAnswer(Statements(polls)[..j], s);
            VerdictOf(t, run, now) == NotCollected <==>
              && i <= UpsertOf(k)
              && CaptureIds(t.captures, run.id) == {}
              && RunIsJudgeable(run, now)
              && forall other: Source :: Vouches(RowOf(t.sources, other), run.created.value, run.updated.value, now)
  {
    var steps := Statements(polls);
    var t, k := Request(steps, i, j), LastAnswer(steps[..j], s);
    NotCollectedExactlyWhen(steps, i, j, run, now);
    if VerdictOf(t, run, now) == NotCollected && UpsertOf(k) < i {
      LastAnswerIsRecorded(steps[..j], s);
      assert Vouches(RowOf(t.sources, s), run.created.value, run.updated.value, now);
      StatementMeaning(polls, k);
      ListedIsSighted(polls, k, id, runOfId);
      SightedIsRetained(polls, k, i, id);
      PollsTag(polls, runOfId);
      PrefixTagged(steps, i, runOfId);
      JoinedExactlyWhen(steps[..i], run, runOfId);
    }
  }

  lemma PollPrefixes(t: Tables, answers: map<Source, Answer>, entries: seq<Found>, now: int)
    requires AllSources(answers)
    ensures var steps := PollSteps(answers, entries, now);
            && steps[..0] == [] && steps[..5] == steps
            && ApplyAll(t, steps[..3]) == Tables(ApplyAll(t, steps).sources, t.captures)
  {
    var steps := PollSteps(answers, entries, now);
    forall n | 0 <= n < 5 ensures ApplyAll(t, steps[..n + 1]) == Apply(ApplyAll(t, steps[..n]), steps[n]) {
      assert Front(steps[..n + 1]) == steps[..n];
    }
    assert steps[..0] == [] && steps[..5] == steps;
    var one := ApplyAll(t, steps[..1]);
    assert one == Apply(t, steps[0]);
    var two := ApplyAll(t, steps[..2]);
    assert two == Apply(one, steps[1]);
    var three := ApplyAll(t, steps[..3]);
    assert three == Apply(two, steps[2]);
    var four := ApplyAll(t, steps[..4]);
    assert four == Apply(three, steps[3]);
    assert ApplyAll(t, steps[..5]) == Apply(four, steps[4]);
  }

  lemma ListsOne(f: Found)
    requires f.id == "c"
    ensures MergedAnswers(map[Prometheus := Complete([f]), Loki := Complete([]), Info := Complete([])]) == map["c" := f]
  {
    assert Front([f]) == [] && Last([f]) == f;
    assert MergeFound(map[], [f]) == map["c" := f] by {
      assert f.identity == map[] + f.identity;
    }
  }

  /** The answers are recorded before the captures are stored: a request that reads both in
      between accuses a run whose capture was just listed, and so does one that read the
      captures before the poll and reads the sources after it. */
  lemma AccusedBesideThePoll() returns (poll: Poll, run: RunRow, now: int)
    ensures AllAsked([poll]) && AllSources(poll.answers) && Lists(poll.entries, MergedAnswers(poll.answers))
    ensures poll.answers[Prometheus].Complete? && Mentions(poll.answers[Prometheus].captures, "c")
    ensures TagsRun(poll.answers[Prometheus].captures, "c", run.id)
    ensures var steps := Statements([poll]);
            && VerdictOf(Request(steps, 3, 3), run, now) == NotCollected
            && VerdictOf(Request(steps, 0, 5), run, now) == NotCollected
            && VerdictOf(Request(steps, 5, 5), run, now) == Captured
  {
    var f := Found("c", map[RunId := "7"], false);
    var answers := map[Prometheus := Complete([f]), Loki := Complete([]), Info := Complete([])];
    poll, run, now := Poll(answers, [f], 1000), RunRow("7", "success", "completed", Some(0), Some(0)), 1000;
    ListsOne(f);
    assert [f][0].id == "c";
    var steps := Statements([poll]);
    assert steps == PollSteps(answers, [f], now);
    PollStepsUnfold(EMPTY, answers, [f], now);
    PollPrefixes(EMPTY, answers, [f], now);
    assert CaptureIds(EMPTY.captures, "7") == {};
    UpsertSingle(map[], f, now);
    assert "c" in CaptureIds(ApplyAll(EMPTY, steps).captures, "7");
  }

  /** The rows of a page and the cards above them read the captures at different moments, so
      they can disagree about a run: exactly when one moment, and not the other, has some
      capture of it upserted and retained. */
  lemma CardsDisagreeExactlyWhen(steps: seq<Step>, i: nat, j: nat, later: nat, run: RunRow, now: int, runOfId: string -> string)
    requires StepsTagged(steps, runOfId) && i <= |steps| && j <= |steps| && later <= |steps|
    ensures VerdictOf(Request(steps, i, j), run, now) != VerdictOf(Request(steps, later, j), run, now) <==>
            RetainsSome(steps[..i], run, runOfId) != RetainsSome(steps[..later], run, runOfId)
  {
    PrefixTagged(steps, i, runOfId);
    PrefixTagged(steps, later, runOfId);
    JoinedExactlyWhen(steps[..i], run, runOfId);
    JoinedExactlyWhen(steps[..later], run, runOfId);
  }
}

/** The capture registry of workflow-exporter.py: three discovery sources polled
    independently into two tables.

    An identity maps each known column to its non-empty value; a column the
    registry does not know is absent. */
module CaptureRegistry {
  import opened Common
  import opened Sequences

  const RETENTION := 30 * DAY
  const STALE_SECONDS := 900

  datatype Source = Prometheus | Loki | Info

  datatype Column = RunId | RunAttempt | Suite | Pr | Workflow | TestRef | TestSha | TestInfraRef | TestInfraSha
                  | TestInfraWorkflowSha | TestSuite | TestFilter | TestMarker

  type Identity = columns: map<Column, string> | forall c :: c in columns ==> columns[c] != ""

  /** One capture of one answer. */
  datatype Found = Found(id: string, identity: Identity, fromInfo: bool)

  datatype Answer = Failed | Complete(captures: seq<Found>)

  datatype SourceRow = SourceRow(coverageFrom: Option<int>, lastOk: Option<int>, failing: bool)
  datatype CaptureRow = CaptureRow(identity: Identity, fromInfo: bool, traceId: string, firstSeen: int, lastSeen: int)

  datatype Tables = Tables(sources: map<Source, SourceRow>, captures: map<string, CaptureRow>)

  const EMPTY := Tables(map[], map[])

  // -- the statements the poll executes ---------------------------------------------

  /** Coverage starts one day inside retention and is written once. */
  function RecordSuccess(sources: map<Source, SourceRow>, source: Source, now: int): map<Source, SourceRow> {
    var start := Some(now - (RETENTION - DAY));
    if source in sources then
      var row := sources[source];
      sources[source := SourceRow(if row.coverageFrom.None? then start else row.coverageFrom, Some(now), false)]
    else sources[source := SourceRow(start, Some(now), false)]
  }

  function RecordFailure(sources: map<Source, SourceRow>, source: Source): map<Source, SourceRow> {
    if source in sources then sources[source := sources[source].(failing := true)]
    else sources[source := SourceRow(None, None, true)]
  }

  function Record(sources: map<Source, SourceRow>, source: Source, answer: Answer, now: int): map<Source, SourceRow> {
    if answer.Failed? then RecordFailure(sources, source) else RecordSuccess(sources, source, now)
  }

  /** The union of the answers so far: a later known value wins, no value is emptied. */
  function MergeFound(found: map<string, Found>, captures: seq<Found>): map<string, Found> {
    if captures == [] then found
    else
      var before := MergeFound(found, Front(captures));
      var c := Last(captures);
      var entry := if c.id in before then before[c.id] else Found(c.id, map[], false);
      before[c.id := Found(c.id, entry.identity + c.identity, entry.fromInfo || c.fromInfo)]
  }

  function Merge(found: map<string, Found>, answer: Answer): map<string, Found> {
    if answer.Failed? then found else MergeFound(found, answer.captures)
  }

  function Upserted(captures: map<string, CaptureRow>, f: Found, now: int): CaptureRow {
    if f.id in captures then
      var row := captures[f.id];
      CaptureRow(row.identity + f.identity, row.fromInfo || f.fromInfo, row.traceId, row.firstSeen, now)
    else CaptureRow(f.identity, f.fromInfo, "", now, now)
  }

  function Upsert(captures: map<string, CaptureRow>, found: seq<Found>, now: int): map<string, CaptureRow> {
    if found == [] then captures
    else
      var before := Upsert(captures, Front(found), now);
      before[Last(found).id := Upserted(before, Last(found), now)]
  }

  function Prune(captures: map<string, CaptureRow>, now: int): map<string, CaptureRow> {
    map id | id in captures && now - RETENTION <= captures[id].lastSeen :: captures[id]
  }

  /** The capture view stores a trace id only where none is stored. */
  function WriteTrace(captures: map<string, CaptureRow>, id: string, trace: string): map<string, CaptureRow> {
    if id in captures && captures[id].traceId == "" then captures[id := captures[id].(traceId := trace)] else captures
  }

  // -- every committed statement is a step a reader can observe -----------------------

  datatype Step = RecordStep(source: Source, answer: Answer, now: int)
                | UpsertStep(found: seq<Found>, now: int)
                | PruneStep(now: int)
                | TraceStep(id: string, trace: string, now: int)

  function Apply(t: Tables, step: Step): Tables {
    match step
    case RecordStep(source, answer, now) => t.(sources := Record(t.sources, source, answer, now))
    case UpsertStep(found, now) => t.(captures := Upsert(t.captures, found, now))
    case PruneStep(now) => t.(captures := Prune(t.captures, now))
    case TraceStep(id, trace, _) => t.(captures := WriteTrace(t.captures, id, trace))
  }

  function ApplyAll(t: Tables, steps: seq<Step>): Tables {
    if steps == [] then t else Apply(ApplyAll(t, Front(steps)), Last(steps))
  }

  lemma UpsertSingle(captures: map<string, CaptureRow>, f: Found, now: int)
    ensures Upsert(captures, [f], now) == captures[f.id := Upserted(captures, f, now)]
  {
    assert Front([f]) == [] && Last([f]) == f;
  }

  /** The entries of the merged answers, one per capture, in some order. */
  ghost predicate Lists(entries: seq<Found>, found: map<string, Found>) {
    && (forall i :: 0 <= i < |entries| ==> entries[i].id in found && found[entries[i].id] == entries[i])
    && (forall i, j :: 0 <= i < j < |entries| ==> entries[i].id != entries[j].id)
    && (forall id :: id in found ==> exists i :: 0 <= i < |entries| && entries[i].id == id)
  }

  /** One poll as its steps: three answers recorded, their union upserted, old rows pruned. */
  function PollSteps(answers: map<Source, Answer>, entries: seq<Found>, now: int): seq<Step>
    requires Prometheus in answers && Loki in answers && Info in answers
  {
    [RecordStep(Prometheus, answers[Prometheus], now), RecordStep(Loki, answers[Loki], now),
     RecordStep(Info, answers[Info], now), UpsertStep(entries, now), PruneStep(now)]
  }

  function MergedAnswers(answers: map<Source, Answer>): map<string, Found>
    requires Prometheus in answers && Loki in answers && Info in answers
  {
    Merge(Merge(Merge(map[], answers[Prometheus]), answers[Loki]), answers[Info])
  }

  // -- what every step keeps ----------------------------------------------------------

  /** A source has a coverage start exactly when it has answered. */
  predicate CoverageIffAnswered(sources: map<Source, SourceRow>) {
    forall s :: s in sources ==> (sources[s].coverageFrom.Some? <==> sources[s].lastOk.Some?)
  }

  lemma {:induction false} StepsKeepCoverageIffAnswered(t: Tables, steps: seq<Step>)
    requires CoverageIffAnswered(t.sources)
    ensures CoverageIffAnswered(ApplyAll(t, steps).sources)
  {
    if steps != [] {
      StepsKeepCoverageIffAnswered(t, Front(steps));
    }
  }

  predicate Between(steps: seq<Step>, from: int, to: int) {
    forall i :: 0 <= i < |steps| ==> from <= steps[i].now <= to
  }

  predicate ClockForward(steps: seq<Step>) {
    forall i, j :: 0 <= i < j < |steps| ==> steps[i].now <= steps[j].now
  }

  /** A coverage start never moves once written, and a last answer never moves back. */
  lemma {:induction false} CoverageFrozenAnswersForward(t: Tables, steps: seq<Step>, source: Source)
    requires source in t.sources
    requires t.sources[source].lastOk.Some? ==> forall i :: 0 <= i < |steps| ==> t.sources[source].lastOk.value <= steps[i].now
    requires ClockForward(steps)
    ensures source in ApplyAll(t, steps).sources
    ensures t.sources[source].coverageFrom.Some? ==>
              ApplyAll(t, steps).sources[source].coverageFrom == t.sources[source].coverageFrom
    ensures t.sources[source].lastOk.Some? ==>
              && ApplyAll(t, steps).sources[source].lastOk.Some?
              && t.sources[source].lastOk.value <= ApplyAll(t, steps).sources[source].lastOk.value
  {
    if steps != [] {
      CoverageFrozenAnswersForward(t, Front(steps), source);
    }
  }

  /** When a source first answered completely. */
  function FirstAnswer(steps: seq<Step>, source: Source): Option<int> {
    if steps == [] then None
    else
      var before, step := FirstAnswer(Front(steps), source), Last(steps);
      if before.None? && step.RecordStep? && step.source == source && step.answer.Complete? then Some(step.now) else before
  }

  /** A source's coverage starts one day inside its retention at its first complete answer,
      whatever happens before and after. */
  lemma {:induction false} CoverageIsSetByTheFirstAnswer(steps: seq<Step>, source: Source)
    ensures var sources, first := ApplyAll(EMPTY, steps).sources, FirstAnswer(steps, source);
            && (first.Some? ==> source in sources && sources[source].coverageFrom == Some(first.value - 29 * DAY))
            && (first.None? && source in sources ==> sources[source].coverageFrom == None)
  {
    if steps != [] {
      CoverageIsSetByTheFirstAnswer(Front(steps), source);
    }
  }

  predicate Answers(step: Step, source: Source) {
    step.RecordStep? && step.source == source && step.answer.Complete?
  }

  /** The last statement that recorded a complete answer of the source, -1 for none. */
  function LastAnswer(steps: seq<Step>, source: Source): (k: int)
    ensures -1 <= k < |steps|
    ensures k >= 0 ==> Answers(steps[k], source)
    ensures forall n :: k < n < |steps| ==> !Answers(steps[n], source)
  {
    if steps == [] then -1
    else if Answers(Last(steps), source) then |steps| - 1
    else LastAnswer(Front(steps), source)
  }

  /** What the source row says of it. */
  lemma {:induction false} LastAnswerIsRecorded(steps: seq<Step>, source: Source)
    ensures var sources, k := ApplyAll(EMPTY, steps).sources, LastAnswer(steps, source);
            && (k >= 0 ==> source in sources && sources[source].lastOk == Some(steps[k].now))
            && (k < 0 && source in sources ==> sources[source].lastOk == None)
  {
    if steps != [] {
      LastAnswerIsRecorded(Front(steps), source);
    }
  }

  /** A source that ever answered completely has a first such answer, and a last one. */
  lemma {:induction false} AnsweredFirstAndLast(steps: seq<Step>, source: Source)
    ensures FirstAnswer(steps, source).None? <==> LastAnswer(steps, source) < 0
    ensures FirstAnswer(steps, source).None? <==> forall n :: 0 <= n < |steps| ==> !Answers(steps[n], source)
  {
    if steps != [] {
      AnsweredFirstAndLast(Front(steps), source);
      assert forall n :: 0 <= n < |Front(steps)| ==> steps[n] == Front(steps)[n];
      assert Last(steps) == steps[|steps| - 1];
    }
  }

  /** The last answer of the source, complete or failed, None if it never was asked. */
  function LastAsked(steps: seq<Step>, source: Source): Option<Answer> {
    if steps == [] then None
    else if Last(steps).RecordStep? && Last(steps).source == source then Some(Last(steps).answer)
    else LastAsked(Front(steps), source)
  }

  /** A source shows an error exactly when its last answer was one. */
  lemma {:induction false} FailingExactlyWhen(steps: seq<Step>, source: Source)
    ensures var sources, asked := ApplyAll(EMPTY, steps).sources, LastAsked(steps, source);
            && (source in sources <==> asked.Some?)
            && (source in sources ==> (sources[source].failing <==> asked.value.Failed?))
  {
    if steps != [] {
      FailingExactlyWhen(Front(steps), source);
    }
  }

  /** What may happen to a row while it lives: columns are filled but never emptied,
      "info" never reverts, a trace id is written once, the first sighting stays. */
  predicate Grew(before: CaptureRow, after: CaptureRow) {
    && before.identity.Keys <= after.identity.Keys
    && (before.fromInfo ==> after.fromInfo)
    && (before.traceId != "" ==> after.traceId == before.traceId)
    && before.firstSeen == after.firstSeen
  }

  lemma {:induction false} UpsertGrows(captures: map<string, CaptureRow>, found: seq<Found>, now: int, id: string)
    requires id in captures
    ensures id in Upsert(captures, found, now) && Grew(captures[id], Upsert(captures, found, now)[id])
  {
    if found != [] {
      UpsertGrows(captures, Front(found), now, id);
    }
  }

  lemma {:induction false} RowsGrowWhileTheyLive(t: Tables, steps: seq<Step>, id: string)
    requires forall n :: 0 <= n <= |steps| ==> id in ApplyAll(t, steps[..n]).captures
    ensures id in t.captures && id in ApplyAll(t, steps).captures
    ensures Grew(t.captures[id], ApplyAll(t, steps).captures[id])
  {
    assert steps[..0] == [] && steps[..|steps|] == steps;
    assert id in ApplyAll(t, steps[..0]).captures;
    if steps != [] {
      var front := Front(steps);
      forall n | 0 <= n <= |front| ensures id in ApplyAll(t, front[..n]).captures {
        assert front[..n] == steps[..n];
      }
      RowsGrowWhileTheyLive(t, front, id);
      if Last(steps).UpsertStep? {
        UpsertGrows(ApplyAll(t, front).captures, Last(steps).found, Last(steps).now, id);
      }
    }
  }

  /** The first trace id written for a capture that had none. */
  function FirstTrace(known: string, steps: seq<Step>, id: string): string {
    if steps == [] then known
    else
      var before := FirstTrace(known, Front(steps), id);
      if before == "" && Last(steps).TraceStep? && Last(steps).id == id then Last(steps).trace else before
  }

  lemma {:induction false} UpsertKeepsTrace(captures: map<string, CaptureRow>, found: seq<Found>, now: int, id: string)
    requires id in captures
    ensures id in Upsert(captures, found, now) && Upsert(captures, found, now)[id].traceId == captures[id].traceId
  {
    if found != [] {
      UpsertKeepsTrace(captures, Front(found), now, id);
    }
  }

  /** While a row lives its trace id is the first one written for it. */
  lemma {:induction false} TraceIsTheFirstWritten(t: Tables, steps: seq<Step>, id: string)
    requires forall n :: 0 <= n <= |steps| ==> id in ApplyAll(t, steps[..n]).captures
    ensures id in t.captures && id in ApplyAll(t, steps).captures
    ensures ApplyAll(t, steps).captures[id].traceId == FirstTrace(t.captures[id].traceId, steps, id)
  {
    assert steps[..0] == [] && steps[..|steps|] == steps;
    assert id in ApplyAll(t, steps[..0]).captures;
    if steps != [] {
      var front, last := Front(steps), Last(steps);
      forall n | 0 <= n <= |front| ensures id in ApplyAll(t, front[..n]).captures {
        assert front[..n] == steps[..n];
      }
      TraceIsTheFirstWritten(t, front, id);
      if last.UpsertStep? {
        UpsertKeepsTrace(ApplyAll(t, front).captures, last.found, last.now, id);
      }
    }
  }

  // -- when a capture is stored -----------------------------------------------------------

  predicate Mentions(entries: seq<Found>, id: string) {
    exists i :: 0 <= i < |entries| && entries[i].id == id
  }

  /** A step that upserts the capture. */
  predicate Sights(step: Step, id: string) {
    step.UpsertStep? && Mentions(step.found, id)
  }

  /** The last step that upserted the capture, -1 for none. */
  function LastSighting(steps: seq<Step>, id: string): (k: int)
    ensures -1 <= k < |steps|
    ensures k >= 0 ==> Sights(steps[k], id)
    ensures forall q :: k < q < |steps| ==> !Sights(steps[q], id)
  {
    if steps == [] then -1
    else if Sights(Last(steps), id) then |steps| - 1
    else LastSighting(Front(steps), id)
  }

  /** The guard of the DELETE: a prune spares a capture last seen at `seen`. */
  predicate Spares(step: Step, seen: int) {
    step.PruneStep? ==> step.now - 30 * DAY <= seen
  }

  /** The capture was upserted, and no prune since found that sighting older than retention. */
  predicate Retained(steps: seq<Step>, id: string) {
    var k := LastSighting(steps, id);
    k >= 0 && forall n :: k < n < |steps| ==> Spares(steps[n], steps[k].now)
  }

  lemma {:induction false} UpsertSights(captures: map<string, CaptureRow>, found: seq<Found>, now: int, id: string)
    ensures var after := Upsert(captures, found, now);
            && (Mentions(found, id) ==> id in after && after[id].lastSeen == now)
            && (!Mentions(found, id) ==> (id in after <==> id in captures) && (id in after ==> after[id] == captures[id]))
  {
    if found != [] {
      UpsertSights(captures, Front(found), now, id);
      assert forall i :: 0 <= i < |Front(found)| ==> Front(found)[i] == found[i];
      assert Mentions(found, id) <==> Mentions(Front(found), id) || Last(found).id == id;
    }
  }

  /** In every history a capture is stored exactly while retention keeps its last sighting. */
  lemma {:induction false} StoredExactlyWhenRetained(steps: seq<Step>, id: string)
    ensures var captures := ApplyAll(EMPTY, steps).captures;
            && (id in captures <==> Retained(steps, id))
            && (id in captures ==> captures[id].lastSeen == steps[LastSighting(steps, id)].now)
  {
    if steps != [] {
      var front, last := Front(steps), Last(steps);
      StoredExactlyWhenRetained(front, id);
      if last.UpsertStep? {
        UpsertSights(ApplyAll(EMPTY, front).captures, last.found, last.now, id);
      }
      if !Sights(last, id) {
        var k := LastSighting(front, id);
        assert LastSighting(steps, id) == k;
        assert forall n :: 0 <= n < |front| ==> steps[n] == front[n];
        assert Retained(steps, id) <==> Retained(front, id) && Spares(last, steps[k].now);
      }
    }
  }

  // -- the run a capture belongs to -----------------------------------------------------

  function RunOf(row: CaptureRow): string {
    if RunId in row.identity then row.identity[RunId] else ""
  }

  /** An answer that names this capture names it under this run, or under no run. */
  predicate SameRun(found: seq<Found>, id: string, run: string) {
    forall i :: 0 <= i < |found| && found[i].id == id ==>
      (RunId in found[i].identity ==> found[i].identity[RunId] == run)
  }

  predicate StepsSameRun(steps: seq<Step>, id: string, run: string) {
    forall i :: 0 <= i < |steps| && steps[i].UpsertStep? ==> SameRun(steps[i].found, id, run)
  }

  /** An upsert that mentions a capture once keeps its run exactly when it names the
      same run or none: a different run label takes the capture away from its run. */
  lemma UpsertKeepsRunExactlyWhen(captures: map<string, CaptureRow>, f: Found, now: int)
    requires f.id in captures
    ensures RunOf(Upsert(captures, [f], now)[f.id]) == RunOf(captures[f.id]) <==>
              (RunId in f.identity ==> f.identity[RunId] == RunOf(captures[f.id]))
  {
    UpsertSingle(captures, f, now);
  }

  lemma {:induction false} UpsertKeepsRun(captures: map<string, CaptureRow>, found: seq<Found>, now: int, id: string)
    requires id in captures && SameRun(found, id, RunOf(captures[id]))
    ensures id in Upsert(captures, found, now)
    ensures RunOf(Upsert(captures, found, now)[id]) == RunOf(captures[id])
    ensures Upsert(captures, found, now)[id].lastSeen in {captures[id].lastSeen, now}
  {
    if found != [] {
      UpsertKeepsRun(captures, Front(found), now, id);
    }
  }

  /** A capture upserted under a run stays under it until retention has passed it by. */
  lemma {:induction false} CaptureStaysOrExpires(t: Tables, steps: seq<Step>, id: string, created: int, now: int)
    requires id in t.captures && created <= t.captures[id].lastSeen
    requires Between(steps, created, now) && StepsSameRun(steps, id, RunOf(t.captures[id]))
    requires now - RETENTION <= created
    ensures id in ApplyAll(t, steps).captures
    ensures RunOf(ApplyAll(t, steps).captures[id]) == RunOf(t.captures[id])
    ensures created <= ApplyAll(t, steps).captures[id].lastSeen
  {
    if steps != [] {
      CaptureStaysOrExpires(t, Front(steps), id, created, now);
      var before := ApplyAll(t, Front(steps));
      if Last(steps).UpsertStep? {
        UpsertKeepsRun(before.captures, Last(steps).found, Last(steps).now, id);
      }
    }
  }
}

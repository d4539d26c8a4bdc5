/** The verdict of ci_observe_runs.py: "capture", "not collected" or unknown with a
    reason. Only "not collected" blames CI, so this module proves what it takes. */
module Verdict {
  import opened Common
  import opened Sequences
  import opened CaptureRegistry
  import opened RegistryPoll

  const JUST_ENDED := 15 * MINUTE

  const FINISHED_STATUSES := {"completed", "success", "failure", "cancelled", "skipped", "timed_out",
                              "action_required", "neutral", "stale"}

  /** A run row: texts trimmed, times parsed where they parse. */
  datatype RunRow = RunRow(id: string, conclusion: string, status: string, created: Option<int>, updated: Option<int>)

  datatype Reason = NotFinished | NoFinishTime | JustEnded | NoAnswer | AnswerPredatesRun | NoCoverage
                  | StaleAnswer | NoCreation | PredatesCoverage

  datatype Verdict = Captured | NotCollected | Unknown(reason: Reason)

  // -- the aggregate over the three sources -------------------------------------------

  datatype Health = Ok | Partial | NeverAnswered
  datatype Summary = Summary(health: Health, lastOk: Option<int>, coverageFrom: Option<int>)

  function RowOf(sources: map<Source, SourceRow>, s: Source): SourceRow {
    if s in sources then sources[s] else SourceRow(None, None, false)
  }

  /** The older of two answers, ignoring a source without one. */
  function Oldest(a: Option<int>, b: Option<int>): Option<int> {
    if a.None? then b else if b.None? then a else Some(Min(a.value, b.value))
  }

  function SourceSummary(sources: map<Source, SourceRow>, now: int): Summary {
    var p, l, i := RowOf(sources, Prometheus), RowOf(sources, Loki), RowOf(sources, Info);
    var answered := Oldest(Oldest(p.lastOk, l.lastOk), i.lastOk);
    var all := p.lastOk.Some? && l.lastOk.Some? && i.lastOk.Some?;
    var health := if answered.None? then NeverAnswered
                  else if all && now - answered.value <= STALE_SECONDS then Ok
                  else Partial;
    var coverage := if answered.Some? && p.coverageFrom.Some? && l.coverageFrom.Some? && i.coverageFrom.Some?
                    then Some(Max(Max(p.coverageFrom.value, l.coverageFrom.value), i.coverageFrom.value))
                    else None;
    Summary(health, answered, coverage)
  }

  // -- the chain of checks ----------------------------------------------------------

  predicate Ended(run: RunRow) {
    run.conclusion != "" || run.status in FINISHED_STATUSES
  }

  /** The captures joined to a run on the run id. */
  function CaptureIds(captures: map<string, CaptureRow>, runId: string): set<string> {
    set id | id in captures && RunOf(captures[id]) == runId
  }

  function Judge(captureIds: set<string>, run: RunRow, source: Summary, now: int): Verdict {
    if captureIds != {} then Captured
    else if !Ended(run) then Unknown(NotFinished)
    else if run.updated.None? then Unknown(NoFinishTime)
    else if now - run.updated.value < JUST_ENDED then Unknown(JustEnded)
    else if source.lastOk.None? then Unknown(NoAnswer)
    else if source.lastOk.value < run.updated.value then Unknown(AnswerPredatesRun)
    else if source.coverageFrom.None? then Unknown(NoCoverage)
    else if now - source.lastOk.value > STALE_SECONDS then Unknown(StaleAnswer)
    else if run.created.None? then Unknown(NoCreation)
    else if run.created.value < source.coverageFrom.value then Unknown(PredatesCoverage)
    else NotCollected
  }

  function VerdictOf(t: Tables, run: RunRow, now: int): Verdict {
    Judge(CaptureIds(t.captures, run.id), run, SourceSummary(t.sources, now), now)
  }

  // -- what "not collected" proves ------------------------------------------------------

  /** One source has completely answered at or after the run's finish, at most 900
      seconds ago, and its frozen coverage reaches back to the run's creation. */
  predicate Vouches(row: SourceRow, created: int, finished: int, now: int) {
    && row.lastOk.Some? && row.coverageFrom.Some?
    && finished <= row.lastOk.value
    && now - row.lastOk.value <= 900
    && row.coverageFrom.value <= created
  }

  predicate RunIsJudgeable(run: RunRow, now: int) {
    && (run.conclusion != "" || run.status in FINISHED_STATUSES)
    && run.created.Some? && run.updated.Some? && 15 * MINUTE <= now - run.updated.value
  }

  /** A request makes two reads, and the poller may run in between: it sees the captures as
      they are after i statements and the sources as they are after j. A row of the list reads
      its captures first; the cards read the sources first. */
  function Request(steps: seq<Step>, i: nat, j: nat): Tables
    requires i <= |steps| && j <= |steps|
  {
    Tables(ApplyAll(EMPTY, steps[..j]).sources, ApplyAll(EMPTY, steps[..i]).captures)
  }

  /** Whichever two moments between the poller's statements a request reads at, "not
      collected" is said exactly when no capture is joined to the run, the run ended
      long enough ago, and all three sources vouch for its absence. */
  lemma NotCollectedExactlyWhen(steps: seq<Step>, i: nat, j: nat, run: RunRow, now: int)
    requires i <= |steps| && j <= |steps|
    ensures var t := Request(steps, i, j);
            VerdictOf(t, run, now) == NotCollected <==>
              && CaptureIds(t.captures, run.id) == {}
              && RunIsJudgeable(run, now)
              && forall s: Source :: Vouches(RowOf(t.sources, s), run.created.value, run.updated.value, now)
  {
    StepsKeepCoverageIffAnswered(EMPTY, steps[..j]);
    AccusedExactlyWhen(Request(steps, i, j), run, now);
  }

  /** The same in any state in which each source has a coverage start exactly when it answered. */
  lemma AccusedExactlyWhen(t: Tables, run: RunRow, now: int)
    requires CoverageIffAnswered(t.sources)
    ensures VerdictOf(t, run, now) == NotCollected <==>
              && CaptureIds(t.captures, run.id) == {}
              && RunIsJudgeable(run, now)
              && forall s: Source :: Vouches(RowOf(t.sources, s), run.created.value, run.updated.value, now)
  {
    var p, l, i := RowOf(t.sources, Prometheus), RowOf(t.sources, Loki), RowOf(t.sources, Info);
    if RunIsJudgeable(run, now) && Vouches(p, run.created.value, run.updated.value, now)
       && Vouches(l, run.created.value, run.updated.value, now) && Vouches(i, run.created.value, run.updated.value, now) {
      forall s: Source ensures Vouches(RowOf(t.sources, s), run.created.value, run.updated.value, now) {
        assert s == Prometheus || s == Loki || s == Info;
      }
    }
  }

  /** So a run is accused only if each source already answered completely while everything
      the run could have sent, and one day more, was inside its retention. */
  lemma NotCollectedNeedsRetainedTelemetry(steps: seq<Step>, i: nat, j: nat, run: RunRow, now: int, s: Source)
    requires i <= |steps| && j <= |steps|
    requires VerdictOf(Request(steps, i, j), run, now) == NotCollected
    ensures FirstAnswer(steps[..j], s).Some? && run.created.Some?
    ensures FirstAnswer(steps[..j], s).value - 29 * DAY <= run.created.value
  {
    NotCollectedExactlyWhen(steps, i, j, run, now);
    CoverageIsSetByTheFirstAnswer(steps[..j], s);
    assert Vouches(RowOf(Request(steps, i, j).sources, s), run.created.value, run.updated.value, now);
  }

  /** "Not collected" is never said while the registry calls itself partial or unknown. */
  lemma NotCollectedNeedsHealthyRegistry(steps: seq<Step>, i: nat, j: nat, run: RunRow, now: int)
    requires i <= |steps| && j <= |steps|
    requires VerdictOf(Request(steps, i, j), run, now) == NotCollected
    ensures SourceSummary(Request(steps, i, j).sources, now).health == Ok
  {
    NotCollectedExactlyWhen(steps, i, j, run, now);
    var sources := Request(steps, i, j).sources;
    assert Vouches(RowOf(sources, Prometheus), run.created.value, run.updated.value, now);
    assert Vouches(RowOf(sources, Loki), run.created.value, run.updated.value, now);
    assert Vouches(RowOf(sources, Info), run.created.value, run.updated.value, now);
  }

  /** A source's last complete answer is at most 900 seconds old. */
  predicate AnsweredRecently(steps: seq<Step>, s: Source, now: int) {
    var k := LastAnswer(steps, s);
    k >= 0 && now - steps[k].now <= 900
  }

  /** What the registry says of itself after any statements: ok exactly when all three
      sources answered completely within 900 seconds, unknown exactly when none ever
      answered, partial in every other case. */
  lemma RegistryStateExactlyWhen(steps: seq<Step>, now: int)
    ensures var health := SourceSummary(ApplyAll(EMPTY, steps).sources, now).health;
            && (health == Ok <==> forall s: Source :: AnsweredRecently(steps, s, now))
            && (health == NeverAnswered <==> forall s: Source :: FirstAnswer(steps, s).None?)
            && (health == Partial <==>
                  (exists s: Source :: FirstAnswer(steps, s).Some?) && (exists s: Source :: !AnsweredRecently(steps, s, now)))
  {
    var sources := ApplyAll(EMPTY, steps).sources;
    var p, l, i := RowOf(sources, Prometheus), RowOf(sources, Loki), RowOf(sources, Info);
    SourceSays(steps, Prometheus, now);
    SourceSays(steps, Loki, now);
    SourceSays(steps, Info, now);
    StateOfThree(sources, now);
    assert (forall s: Source :: AnsweredRecently(steps, s, now)) <==> Recent(p, now) && Recent(l, now) && Recent(i, now) by {
      if Recent(p, now) && Recent(l, now) && Recent(i, now) {
        forall s: Source ensures AnsweredRecently(steps, s, now) {
          assert s == Prometheus || s == Loki || s == Info;
        }
      }
    }
    assert (forall s: Source :: FirstAnswer(steps, s).None?) <==> p.lastOk.None? && l.lastOk.None? && i.lastOk.None? by {
      if p.lastOk.None? && l.lastOk.None? && i.lastOk.None? {
        forall s: Source ensures FirstAnswer(steps, s).None? {
          assert s == Prometheus || s == Loki || s == Info;
        }
      }
    }
  }

  lemma SourceSays(steps: seq<Step>, s: Source, now: int)
    ensures var row := RowOf(ApplyAll(EMPTY, steps).sources, s);
            && (AnsweredRecently(steps, s, now) <==> Recent(row, now))
            && (FirstAnswer(steps, s).None? <==> row.lastOk.None?)
  {
    LastAnswerIsRecorded(steps, s);
    AnsweredFirstAndLast(steps, s);
  }

  predicate Recent(row: SourceRow, now: int) {
    row.lastOk.Some? && now - row.lastOk.value <= STALE_SECONDS
  }

  lemma StateOfThree(sources: map<Source, SourceRow>, now: int)
    ensures var p, l, i := RowOf(sources, Prometheus), RowOf(sources, Loki), RowOf(sources, Info);
            var health := SourceSummary(sources, now).health;
            && (health == Ok <==> Recent(p, now) && Recent(l, now) && Recent(i, now))
            && (health == NeverAnswered <==> p.lastOk.None? && l.lastOk.None? && i.lastOk.None?)
  {
  }

  /** The oldest answer, the latest coverage start and their sources do the judging: any
      three sources with coverage starts, of which one has answered, can accuse some run.
      Only the pairing of coverage and answer makes that mean three answers. */
  lemma PairingIsNeeded(sources: map<Source, SourceRow>)
    ensures (exists run, now :: Judge({}, run, SourceSummary(sources, now), now) == NotCollected) <==>
            && (forall s: Source :: RowOf(sources, s).coverageFrom.Some?)
            && (exists s: Source :: RowOf(sources, s).lastOk.Some?)
  {
    var p, l, i := RowOf(sources, Prometheus), RowOf(sources, Loki), RowOf(sources, Info);
    forall s: Source ensures RowOf(sources, s) in {p, l, i} {
      assert s == Prometheus || s == Loki || s == Info;
    }
    if p.coverageFrom.Some? && l.coverageFrom.Some? && i.coverageFrom.Some? && (p.lastOk.Some? || l.lastOk.Some? || i.lastOk.Some?) {
      var summary := SourceSummary(sources, 0);
      var last, start := summary.lastOk.value, summary.coverageFrom.value;
      var run := RunRow("7", "failure", "completed", Some(start), Some(last));
      assert Judge({}, run, SourceSummary(sources, last + STALE_SECONDS), last + STALE_SECONDS) == NotCollected;
    }
  }

  // -- why a run without a capture is not accused ------------------------------------------

  /** What a source's answers leave open about a run. */
  predicate NeverAnswers(steps: seq<Step>, s: Source) {
    LastAnswer(steps, s) < 0
  }

  predicate AnsweredBefore(steps: seq<Step>, s: Source, moment: int) {
    LastAnswer(steps, s) >= 0 && steps[LastAnswer(steps, s)].now < moment
  }

  predicate WentStale(steps: seq<Step>, s: Source, now: int) {
    AnsweredBefore(steps, s, now - 900)
  }

  predicate CoversOnlyAfter(steps: seq<Step>, s: Source, moment: int) {
    FirstAnswer(steps, s).Some? && moment < FirstAnswer(steps, s).value - 29 * DAY
  }

  /** A reason applies, in terms of the run and of the answers. */
  ghost predicate Gap(steps: seq<Step>, run: RunRow, now: int, reason: Reason) {
    match reason
    case NotFinished => run.conclusion == "" && run.status !in FINISHED_STATUSES
    case NoFinishTime => run.updated.None?
    case JustEnded => run.updated.Some? && now - 15 * MINUTE < run.updated.value
    case NoAnswer => forall s: Source :: NeverAnswers(steps, s)
    case AnswerPredatesRun => run.updated.Some? && exists s: Source :: AnsweredBefore(steps, s, run.updated.value)
    case NoCoverage => exists s: Source :: NeverAnswers(steps, s)
    case StaleAnswer => exists s: Source :: WentStale(steps, s, now)
    case NoCreation => run.created.None?
    case PredatesCoverage => run.created.Some? && exists s: Source :: CoversOnlyAfter(steps, s, run.created.value)
  }

  /** The order of the checks. */
  function Position(reason: Reason): nat {
    match reason
    case NotFinished => 0
    case NoFinishTime => 1
    case JustEnded => 2
    case NoAnswer => 3
    case AnswerPredatesRun => 4
    case NoCoverage => 5
    case StaleAnswer => 6
    case NoCreation => 7
    case PredatesCoverage => 8
  }

  lemma OfThreeSources(steps: seq<Step>, moment: int)
    ensures (forall s: Source :: NeverAnswers(steps, s)) <==>
            NeverAnswers(steps, Prometheus) && NeverAnswers(steps, Loki) && NeverAnswers(steps, Info)
    ensures (exists s: Source :: NeverAnswers(steps, s)) <==>
            NeverAnswers(steps, Prometheus) || NeverAnswers(steps, Loki) || NeverAnswers(steps, Info)
    ensures (exists s: Source :: AnsweredBefore(steps, s, moment)) <==>
            AnsweredBefore(steps, Prometheus, moment) || AnsweredBefore(steps, Loki, moment) || AnsweredBefore(steps, Info, moment)
    ensures (exists s: Source :: WentStale(steps, s, moment)) <==>
            WentStale(steps, Prometheus, moment) || WentStale(steps, Loki, moment) || WentStale(steps, Info, moment)
    ensures (exists s: Source :: CoversOnlyAfter(steps, s, moment)) <==>
            CoversOnlyAfter(steps, Prometheus, moment) || CoversOnlyAfter(steps, Loki, moment) || CoversOnlyAfter(steps, Info, moment)
  {
    if s: Source :| AnsweredBefore(steps, s, moment) {
      assert s == Prometheus || s == Loki || s == Info;
    }
    if s: Source :| WentStale(steps, s, moment) {
      assert s == Prometheus || s == Loki || s == Info;
    }
    if s: Source :| CoversOnlyAfter(steps, s, moment) {
      assert s == Prometheus || s == Loki || s == Info;
    }
    if s: Source :| NeverAnswers(steps, s) {
      assert s == Prometheus || s == Loki || s == Info;
    }
    if s: Source :| !NeverAnswers(steps, s) {
      assert s == Prometheus || s == Loki || s == Info;
    }
  }

  lemma SourceRowSays(steps: seq<Step>, s: Source, moment: int)
    ensures var row := RowOf(ApplyAll(EMPTY, steps).sources, s);
            && (NeverAnswers(steps, s) <==> row.lastOk.None?) && (row.lastOk.None? <==> row.coverageFrom.None?)
            && (AnsweredBefore(steps, s, moment) <==> row.lastOk.Some? && row.lastOk.value < moment)
            && (CoversOnlyAfter(steps, s, moment) <==> row.coverageFrom.Some? && moment < row.coverageFrom.value)
  {
    LastAnswerIsRecorded(steps, s);
    AnsweredFirstAndLast(steps, s);
    CoverageIsSetByTheFirstAnswer(steps, s);
  }

  /** The gaps of a run, over the three source rows. */
  predicate RowsLeaveOpen(p: SourceRow, l: SourceRow, i: SourceRow, run: RunRow, now: int, reason: Reason) {
    match reason
    case NotFinished => !Ended(run)
    case NoFinishTime => run.updated.None?
    case JustEnded => run.updated.Some? && now - run.updated.value < JUST_ENDED
    case NoAnswer => p.lastOk.None? && l.lastOk.None? && i.lastOk.None?
    case AnswerPredatesRun => run.updated.Some? && (Before(p, run.updated.value) || Before(l, run.updated.value)
                                                    || Before(i, run.updated.value))
    case NoCoverage => p.lastOk.None? || l.lastOk.None? || i.lastOk.None?
    case StaleAnswer => Before(p, now - STALE_SECONDS) || Before(l, now - STALE_SECONDS) || Before(i, now - STALE_SECONDS)
    case NoCreation => run.created.None?
    case PredatesCoverage => run.created.Some? && (Starts(p, run.created.value) || Starts(l, run.created.value)
                                                   || Starts(i, run.created.value))
  }

  predicate Before(row: SourceRow, moment: int) {
    row.lastOk.Some? && row.lastOk.value < moment
  }

  predicate Starts(row: SourceRow, moment: int) {
    row.coverageFrom.Some? && moment < row.coverageFrom.value
  }

  lemma FirstOpen(sources: map<Source, SourceRow>, ids: set<string>, run: RunRow, now: int, reason: Reason)
    requires CoverageIffAnswered(sources)
    ensures var p, l, i := RowOf(sources, Prometheus), RowOf(sources, Loki), RowOf(sources, Info);
            Judge(ids, run, SourceSummary(sources, now), now) == Unknown(reason) <==>
              && ids == {} && RowsLeaveOpen(p, l, i, run, now, reason)
              && forall other :: Position(other) < Position(reason) ==> !RowsLeaveOpen(p, l, i, run, now, other)
  {
    var p, l, i := RowOf(sources, Prometheus), RowOf(sources, Loki), RowOf(sources, Info);
    forall other
      ensures !RowsLeaveOpen(p, l, i, run, now, other) <==>
        match other
        case NotFinished => Ended(run)
        case NoFinishTime => run.updated.Some?
        case JustEnded => run.updated.Some? ==> JUST_ENDED <= now - run.updated.value
        case NoAnswer => SourceSummary(sources, now).lastOk.Some?
        case AnswerPredatesRun => run.updated.Some? && SourceSummary(sources, now).lastOk.Some? ==>
                                    run.updated.value <= SourceSummary(sources, now).lastOk.value
        case NoCoverage => SourceSummary(sources, now).coverageFrom.Some?
        case StaleAnswer => SourceSummary(sources, now).lastOk.Some? ==>
                              now - SourceSummary(sources, now).lastOk.value <= STALE_SECONDS
        case NoCreation => run.created.Some?
        case PredatesCoverage => run.created.Some? ==> !(Starts(p, run.created.value) || Starts(l, run.created.value)
                                                         || Starts(i, run.created.value))
    {
    }
    assert Position(NotFinished) == 0 && Position(NoFinishTime) == 1 && Position(JustEnded) == 2;
    assert Position(NoAnswer) == 3 && Position(AnswerPredatesRun) == 4 && Position(NoCoverage) == 5;
    assert Position(StaleAnswer) == 6 && Position(NoCreation) == 7 && Position(PredatesCoverage) == 8;
  }

  lemma GapIsOpen(steps: seq<Step>, run: RunRow, now: int, reason: Reason)
    ensures var sources := ApplyAll(EMPTY, steps).sources;
            Gap(steps, run, now, reason) <==>
            RowsLeaveOpen(RowOf(sources, Prometheus), RowOf(sources, Loki), RowOf(sources, Info), run, now, reason)
  {
    match reason
    case NotFinished =>
    case NoFinishTime =>
    case JustEnded =>
    case NoCreation =>
    case NoAnswer => ThreeRows(steps, 0);
    case NoCoverage => ThreeRows(steps, 0);
    case AnswerPredatesRun => if run.updated.Some? { ThreeRows(steps, run.updated.value); }
    case StaleAnswer => ThreeRows(steps, now);
    case PredatesCoverage => if run.created.Some? { ThreeRows(steps, run.created.value); }
  }

  lemma ThreeRows(steps: seq<Step>, moment: int)
    ensures var sources := ApplyAll(EMPTY, steps).sources;
            var p, l, i := RowOf(sources, Prometheus), RowOf(sources, Loki), RowOf(sources, Info);
            && ((forall s: Source :: NeverAnswers(steps, s)) <==> p.lastOk.None? && l.lastOk.None? && i.lastOk.None?)
            && ((exists s: Source :: NeverAnswers(steps, s)) <==> p.lastOk.None? || l.lastOk.None? || i.lastOk.None?)
            && ((exists s: Source :: AnsweredBefore(steps, s, moment)) <==> Before(p, moment) || Before(l, moment) || Before(i, moment))
            && ((exists s: Source :: WentStale(steps, s, moment)) <==>
                Before(p, moment - 900) || Before(l, moment - 900) || Before(i, moment - 900))
            && ((exists s: Source :: CoversOnlyAfter(steps, s, moment)) <==> Starts(p, moment) || Starts(l, moment) || Starts(i, moment))
  {
    OfThreeSources(steps, moment);
    SourceRowSays(steps, Prometheus, moment);
    SourceRowSays(steps, Loki, moment);
    SourceRowSays(steps, Info, moment);
    SourceRowSays(steps, Prometheus, moment - 900);
    SourceRowSays(steps, Loki, moment - 900);
    SourceRowSays(steps, Info, moment - 900);
  }

  /** A run reads "unknown" with a reason exactly when no capture is joined to it and that
      reason is the first, in the order of the checks, that its times and the sources'
      answers leave open. */
  lemma ReasonIsTheFirstGap(steps: seq<Step>, i: nat, j: nat, run: RunRow, now: int, reason: Reason)
    requires i <= |steps| && j <= |steps|
    ensures VerdictOf(Request(steps, i, j), run, now) == Unknown(reason) <==>
              && CaptureIds(Request(steps, i, j).captures, run.id) == {}
              && Gap(steps[..j], run, now, reason)
              && forall other :: Position(other) < Position(reason) ==> !Gap(steps[..j], run, now, other)
  {
    StepsKeepCoverageIffAnswered(EMPTY, steps[..j]);
    FirstOpen(ApplyAll(EMPTY, steps[..j]).sources, CaptureIds(Request(steps, i, j).captures, run.id), run, now, reason);
    forall other ensures Gap(steps[..j], run, now, other) <==>
        (var sources := ApplyAll(EMPTY, steps[..j]).sources;
         RowsLeaveOpen(RowOf(sources, Prometheus), RowOf(sources, Loki), RowOf(sources, Info), run, now, other))
    {
      GapIsOpen(steps[..j], run, now, other);
    }
  }

  // -- a captured run is not accused ------------------------------------------------------

  /** A window query of at most 30 days lists only runs created inside it. */
  predicate InWindow(run: RunRow, days: int, now: int) {
    days <= 30 && run.created.Some? && now - days * DAY <= run.created.value
  }

  /** Once a capture is stored under a run, not before the run's creation, every window
      query reads "capture": whatever the sources answer, fail or leave out, whenever the
      query reads them, whatever is pruned, as long as no answer moves the capture to
      another run. */
  lemma CapturedRunStaysCaptured(t: Tables, steps: seq<Step>, id: string, run: RunRow, days: int, now: int)
    requires id in t.captures && RunOf(t.captures[id]) == run.id
    requires InWindow(run, days, now) && run.created.value <= t.captures[id].lastSeen
    requires Between(steps, run.created.value, now) && StepsSameRun(steps, id, run.id)
    ensures forall sources :: VerdictOf(Tables(sources, ApplyAll(t, steps).captures), run, now) == Captured
  {
    CaptureStaysOrExpires(t, steps, id, run.created.value, now);
    assert id in CaptureIds(ApplyAll(t, steps).captures, run.id);
  }

  /** An exact run lookup ignores the window. There the promise fails: coverage never
      moves, so once retention has pruned the capture the run is accused. */
  lemma PrunedCaptureIsAccusedByExactLookup() returns (t: Tables, prune: Step, id: string, run: RunRow, now: int)
    ensures id in t.captures && RunOf(t.captures[id]) == run.id
    ensures run.created.Some? && run.created.value <= t.captures[id].lastSeen
    ensures prune == PruneStep(now)
    ensures VerdictOf(Apply(t, prune), run, now) == NotCollected
  {
    id, now := "c", 31 * DAY;
    var healthy := SourceRow(Some(-29 * DAY), Some(now), false);
    t := Tables(map[Prometheus := healthy, Loki := healthy, Info := healthy],
                map[id := CaptureRow(map[RunId := "7"], false, "", 0, 0)]);
    run, prune := RunRow("7", "success", "completed", Some(0), Some(0)), PruneStep(now);
    assert id !in Prune(t.captures, now);
    assert CaptureIds(Prune(t.captures, now), "7") == {};
  }

  /** A run label that disagrees with the capture id takes the capture from its run,
      and the run is then accused inside the window. */
  lemma RelabelledCaptureAccusesItsRun() returns (t: Tables, found: Found, run: RunRow, now: int)
    ensures found.id in t.captures && RunOf(t.captures[found.id]) == run.id
    ensures InWindow(run, 30, now) && run.created.value <= t.captures[found.id].lastSeen
    ensures VerdictOf(t, run, now) == Captured
    ensures VerdictOf(Apply(t, UpsertStep([found], now)), run, now) == NotCollected
  {
    var healthy := SourceRow(Some(0), Some(2000), false);
    t := Tables(map[Prometheus := healthy, Loki := healthy, Info := healthy],
                map["c" := CaptureRow(map[RunId := "7"], false, "", 1000, 1000)]);
    found, run, now := Found("c", map[RunId := "8"], true), RunRow("7", "success", "completed", Some(500), Some(900)), 2000;
    assert "c" in CaptureIds(t.captures, "7");
    UpsertSingle(t.captures, found, now);
    assert CaptureIds(Upsert(t.captures, [found], now), "7") == {};
  }

  // -- the cards above the table ----------------------------------------------------------

  /** The counters equal the number of rows with each verdict, and together all rows. */
  method VerdictCounts(t: Tables, rows: seq<RunRow>, now: int) returns (captured: nat, notCollected: nat, unknown: nat)
    ensures captured + notCollected + unknown == |rows|
    ensures captured == Count((run: RunRow) => VerdictOf(t, run, now) == Captured, rows)
    ensures notCollected == Count((run: RunRow) => VerdictOf(t, run, now) == NotCollected, rows)
  {
    captured, notCollected, unknown := 0, 0, 0;
    var source := SourceSummary(t.sources, now);
    for i := 0 to |rows|
      invariant captured + notCollected + unknown == i
      invariant captured == Count((run: RunRow) => VerdictOf(t, run, now) == Captured, rows[..i])
      invariant notCollected == Count((run: RunRow) => VerdictOf(t, run, now) == NotCollected, rows[..i])
    {
      assert Front(rows[..i + 1]) == rows[..i] && Last(rows[..i + 1]) == rows[i];
      match Judge(CaptureIds(t.captures, rows[i].id), rows[i], source, now)
      case Captured => captured := captured + 1;
      case NotCollected => notCollected := notCollected + 1;
      case Unknown(_) => unknown := unknown + 1;
    }
    assert rows[..|rows|] == rows;
  }
}

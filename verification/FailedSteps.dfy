/** The failed steps of a run: extracted from its jobs, printed into one text column,
    and read back from that text at every start of workflow-exporter.py. */
module FailedSteps {
  import opened Common
  import opened Sequences
  import opened Strings

  datatype Conclusion = NoConclusion | Success | Failure | Skipped | OtherConclusion

  datatype Step = Step(name: string, conclusion: Conclusion)

  /** `flagged` is the mark of an orchestration or suite job of the pull-request flow. */
  datatype Job = Job(name: string, conclusion: Conclusion, flagged: bool, steps: seq<Step>)

  /** One failed step of one job. */
  datatype Failed = Failed(job: string, step: string)

  datatype Category = E2e | Ai | Automation | OtherCategory(name: string)

  datatype Reason = NotApplicable | Gate | Test | Infra | Ran | SkippedAi | Legacy(text: string)

  const ARROW := " \U{2192} "
  const SEMICOLON := "; "

  const TEST_STEPS := {
    "Install OSAC",
    "Install infrastructure operators",
    "Deploy OSAC (make deploy-osac)",
    "Deploy OSAC from snapshot (make deploy-osac)",
    "Run E2E tests",
    "Run CaaS e2e tests"
  }

  const AI_DIAGNOSIS_STEP := "Run AI failure diagnosis"

  // -- from the jobs -------------------------------------------------------------

  predicate Plumbing(gate: string -> bool, job: Job) {
    job.flagged || gate(job.name)
  }

  function FailedOf(job: Job, steps: seq<Step>): seq<Failed> {
    if steps == [] then []
    else
      var rest, last := FailedOf(job, Front(steps)), Last(steps);
      if last.conclusion == Failure then rest + [Failed(job.name, last.name)] else rest
  }

  predicate Reports(gate: string -> bool, job: Job) {
    !Plumbing(gate, job) && job.conclusion == Failure
  }

  function Extract(gate: string -> bool, jobs: seq<Job>): seq<Failed> {
    if jobs == [] then []
    else
      var rest, last := Extract(gate, Front(jobs)), Last(jobs);
      if Reports(gate, last) then rest + FailedOf(last, last.steps) else rest
  }

  /** Some job failed, and every failed job is plumbing. */
  predicate GateOnly(gate: string -> bool, jobs: seq<Job>) {
    && (exists j :: j in jobs && j.conclusion == Failure)
    && (forall j :: j in jobs && j.conclusion == Failure ==> Plumbing(gate, j))
  }

  /** The reason the step names alone give an e2e run. */
  function StepReason(steps: seq<string>): (r: Reason)
    ensures r == Test <==> exists s :: s in steps && s in TEST_STEPS
    ensures r == Test || r == Infra
  {
    if exists s :: s in steps && s in TEST_STEPS then Test else Infra
  }

  predicate Diagnosed(jobs: seq<Job>) {
    exists j, s :: j in jobs && s in j.steps && s.name == AI_DIAGNOSIS_STEP && s.conclusion !in {NoConclusion, Skipped}
  }

  function StepNames(failed: seq<Failed>): (steps: seq<string>)
    ensures |steps| == |failed| && forall k :: 0 <= k < |steps| ==> steps[k] == failed[k].step
  {
    seq(|failed|, k requires 0 <= k < |failed| => failed[k].step)
  }

  function Classify(gate: string -> bool, category: Category, steps: seq<string>, jobs: Option<seq<Job>>): Reason {
    match category
    case Ai => if jobs == None || jobs.value == [] then NotApplicable
               else if Diagnosed(jobs.value) then Ran else SkippedAi
    case E2e => if jobs.Some? && GateOnly(gate, jobs.value) then Gate else StepReason(steps)
    case _ => NotApplicable
  }

  function LiveReason(gate: string -> bool, jobs: seq<Job>): Reason {
    Classify(gate, E2e, StepNames(Extract(gate, jobs)), Some(jobs))
  }

  method ExtractFailedSteps(gate: string -> bool, jobs: seq<Job>) returns (failed: seq<Failed>)
    ensures failed == Extract(gate, jobs)
  {
    failed := [];
    for i := 0 to |jobs|
      invariant failed == Extract(gate, jobs[..i])
    {
      assert Front(jobs[..i + 1]) == jobs[..i];
      var job := jobs[i];
      if Plumbing(gate, job) || job.conclusion != Failure {
        continue;
      }
      ghost var before := failed;
      for k := 0 to |job.steps|
        invariant failed == before + FailedOf(job, job.steps[..k])
      {
        assert Front(job.steps[..k + 1]) == job.steps[..k];
        if job.steps[k].conclusion == Failure {
          failed := failed + [Failed(job.name, job.steps[k].name)];
        }
      }
      assert job.steps[..|job.steps|] == job.steps;
    }
    assert jobs[..|jobs|] == jobs;
  }

  method ClassifyFailureReason(gate: string -> bool, category: Category, failed: seq<Failed>, jobs: Option<seq<Job>>)
    returns (reason: Reason)
    ensures reason == Classify(gate, category, StepNames(failed), jobs)
  {
    if category == Ai {
      if jobs == None || jobs.value == [] {
        return NotApplicable;
      }
      for i := 0 to |jobs.value|
        invariant !Diagnosed(jobs.value[..i])
      {
        var steps := jobs.value[i].steps;
        for k := 0 to |steps|
          invariant forall s :: s in steps[..k] ==> s.name != AI_DIAGNOSIS_STEP || s.conclusion in {NoConclusion, Skipped}
        {
          if steps[k].name == AI_DIAGNOSIS_STEP && steps[k].conclusion !in {NoConclusion, Skipped} {
            assert jobs.value[i] in jobs.value && steps[k] in jobs.value[i].steps;
            return Ran;
          }
        }
        assert steps[..|steps|] == steps;
        assert jobs.value[..i + 1] == jobs.value[..i] + [jobs.value[i]];
      }
      assert jobs.value[..|jobs.value|] == jobs.value;
      return SkippedAi;
    }
    if category != E2e {
      return NotApplicable;
    }
    if jobs.Some? && GateOnly(gate, jobs.value) {
      return Gate;
    }
    for i := 0 to |failed|
      invariant forall k :: 0 <= k < i ==> failed[k].step !in TEST_STEPS
    {
      if failed[i].step in TEST_STEPS {
        assert StepNames(failed)[i] in TEST_STEPS;
        return Test;
      }
    }
    return Infra;
  }

  // -- to text and back --------------------------------------------------------------

  function Display(f: Failed): string {
    f.job + ARROW + f.step
  }

  function Displays(failed: seq<Failed>): (texts: seq<string>)
    ensures |texts| == |failed| && forall k :: 0 <= k < |texts| ==> texts[k] == Display(failed[k])
  {
    seq(|failed|, k requires 0 <= k < |failed| => Display(failed[k]))
  }

  function Text(failed: seq<Failed>): string {
    Join(Displays(failed), SEMICOLON)
  }

  function Entries(text: string): (entries: seq<string>)
    ensures forall e :: e in entries <==> e in Split(text, SEMICOLON) && e != ""
  {
    Filter((e: string) => e != "", Split(text, SEMICOLON))
  }

  function JobOf(entry: string): string {
    Split(entry, ARROW)[0]
  }

  function StepOf(entry: string): string {
    Last(Split(entry, ARROW))
  }

  function StepsOf(entries: seq<string>): (steps: seq<string>)
    ensures |steps| == |entries| && forall k :: 0 <= k < |steps| ==> steps[k] == StepOf(entries[k])
  {
    seq(|entries|, k requires 0 <= k < |entries| => StepOf(entries[k]))
  }

  /** What the migration derives for a failed row of a category other than "ai". */
  function Rederived(gate: string -> bool, category: Category, text: string, stored: Reason): Reason {
    var entries := Entries(text);
    if category == E2e && entries != [] && forall e :: e in entries ==> gate(JobOf(e)) then Gate
    else if category == E2e && entries == [] && stored == Gate then Gate
    else Classify(gate, category, StepsOf(entries), None)
  }

  // -- one entry -----------------------------------------------------------------------

  /** A job name and a step name that survive the arrow. */
  predicate ArrowClean(f: Failed) {
    Free(f.job, ARROW) && !EndsWith(f.job, ARROW[..2]) && Free(f.step, ARROW)
  }

  lemma SemicolonAt(t: string, j: int)
    ensures At(t, SEMICOLON, j) <==> 0 <= j < |t| - 1 && t[j] == ';' && t[j + 1] == ' '
  {
    if 0 <= j < |t| - 1 {
      assert t[j..j + 2] == [t[j], t[j + 1]];
      assert SEMICOLON == [';', ' '];
    }
  }

  lemma ArrowAt(t: string, j: int)
    ensures At(t, ARROW, j) <==> 0 <= j < |t| - 2 && t[j] == ' ' && t[j + 1] == '\U{2192}' && t[j + 2] == ' '
  {
    if 0 <= j < |t| - 2 {
      assert t[j..j + 3] == [t[j], t[j + 1], t[j + 2]];
      assert ARROW == [' ', '\U{2192}', ' '];
    }
  }

  /** Where a printed entry holds an arrow before the one that was put there. The arrow
      starts and ends with a blank, so it overlaps itself by one. */
  lemma EarlierArrow(job: string, step: string, j: int)
    requires 0 <= j < |job|
    ensures At(job + ARROW + step, ARROW, j) <==>
            At(job, ARROW, j) || (j == |job| - 2 && EndsWith(job, ARROW[..2]))
  {
    var s := job + ARROW + step;
    ArrowAt(s, j);
    ArrowAt(job, j);
    assert forall i :: 0 <= i < |job| ==> s[i] == job[i];
    assert s[|job|] == ' ' && s[|job| + 1] == '\U{2192}';
    if j == |job| - 2 {
      assert job[j..] == [job[j], job[j + 1]];
      assert ARROW[..2] == [' ', '\U{2192}'];
    }
  }

  lemma FirstArrow(job: string, step: string)
    ensures Find(job + ARROW + step, ARROW, 0) == |job| <==> Free(job, ARROW) && !EndsWith(job, ARROW[..2])
  {
    var s := job + ARROW + step;
    ArrowAt(s, |job|);
    if Free(job, ARROW) && !EndsWith(job, ARROW[..2]) {
      forall j | 0 <= j < |job| ensures !At(s, ARROW, j) {
        EarlierArrow(job, step, j);
      }
    } else if EndsWith(job, ARROW[..2]) {
      EarlierArrow(job, step, |job| - 2);
    } else {
      var j :| 0 <= j <= |job| && At(job, ARROW, j);
      EarlierArrow(job, step, j);
    }
  }

  /** A printed entry gives back its own job and step names exactly when they are clean;
      being free of the arrow is not enough for the job name. */
  lemma EntryRoundTrip(f: Failed)
    ensures JobOf(Display(f)) == f.job && StepOf(Display(f)) == f.step <==> ArrowClean(f)
  {
    var s := Display(f);
    var i := Find(s, ARROW, 0);
    FirstArrow(f.job, f.step);
    if i == |f.job| {
      LastPiece(f.job, ARROW, f.step);
    } else {
      assert s[|f.job|..|f.job| + 3] == ARROW;
      assert At(s, ARROW, |f.job|);
      assert JobOf(s) == s[..i];
      assert |s[..i]| != |f.job|;
    }
  }

  // -- the whole column ------------------------------------------------------------------

  lemma SemicolonIsBorderless()
    ensures Borderless(SEMICOLON)
  {
    forall k | 0 < k < |SEMICOLON| ensures !Border(SEMICOLON, k) {
      assert SEMICOLON[..k][0] == ';' && SEMICOLON[|SEMICOLON| - k..][0] == ' ';
    }
  }

  lemma DisplayIsNotEmpty(f: Failed)
    ensures Display(f) != ""
  {
    assert Display(f)[|f.job|] == ' ';
  }

  /** The column holds exactly the printed entries exactly when no printed entry holds
      the semicolon separator. */
  lemma ColumnRoundTrip(failed: seq<Failed>)
    requires failed != []
    ensures Entries(Text(failed)) == Displays(failed) <==>
            forall k :: 0 <= k < |failed| ==> Free(Display(failed[k]), SEMICOLON)
  {
    if forall k :: 0 <= k < |failed| ==> Free(Display(failed[k]), SEMICOLON) {
      FreeEntriesComeBack(failed);
    }
    if Entries(Text(failed)) == Displays(failed) {
      forall k | 0 <= k < |failed| ensures Free(Display(failed[k]), SEMICOLON) {
        assert Displays(failed)[k] in Entries(Text(failed));
        PieceIsFree(Text(failed), SEMICOLON, Display(failed[k]));
      }
    }
  }

  lemma PieceIsFree(s: string, sep: string, piece: string)
    requires sep != "" && piece in Split(s, sep)
    ensures Free(piece, sep)
  {
    var n :| 0 <= n < |Split(s, sep)| && Split(s, sep)[n] == piece;
    PiecesAreFree(s, sep, n);
  }

  lemma FreeEntriesComeBack(failed: seq<Failed>)
    requires failed != [] && forall k :: 0 <= k < |failed| ==> Free(Display(failed[k]), SEMICOLON)
    ensures Entries(Text(failed)) == Displays(failed)
  {
    var texts := Displays(failed);
    SemicolonIsBorderless();
    assert forall k :: 0 <= k < |texts| ==> Free(texts[k], SEMICOLON);
    JoinedPiecesComeBack(texts, SEMICOLON);
    forall e | e in texts ensures e != "" {
      var k :| 0 <= k < |texts| && texts[k] == e;
      DisplayIsNotEmpty(failed[k]);
    }
    AllKept((e: string) => e != "", texts);
  }

  /** Where a printed entry holds the semicolon separator. */
  lemma SemicolonInDisplay(f: Failed, j: int)
    ensures At(Display(f), SEMICOLON, j) <==>
            || At(f.job, SEMICOLON, j)
            || (j == |f.job| - 1 && EndsWith(f.job, ";"))
            || At(f.step, SEMICOLON, j - |f.job| - 3)
  {
    var s, n := Display(f), |f.job|;
    SemicolonAt(s, j);
    SemicolonAt(f.job, j);
    SemicolonAt(f.step, j - n - 3);
    assert s[n] == ' ' && s[n + 1] == '\U{2192}' && s[n + 2] == ' ';
    if j == n - 1 && n > 0 {
      assert f.job[n - 1..] == [f.job[n - 1]];
      assert s[n - 1] == f.job[n - 1];
    }
  }

  /** In terms of the names themselves: neither holds the separator and the job name does
      not end with the semicolon, which the blank before the arrow would complete. */
  lemma DisplayIsFree(f: Failed)
    ensures Free(Display(f), SEMICOLON) <==>
            Free(f.job, SEMICOLON) && !EndsWith(f.job, ";") && Free(f.step, SEMICOLON)
  {
    var s, n := Display(f), |f.job|;
    if Free(s, SEMICOLON) {
      forall j | 0 <= j <= n ensures !At(f.job, SEMICOLON, j) {
        SemicolonInDisplay(f, j);
      }
      SemicolonInDisplay(f, n - 1);
      forall j | 0 <= j <= |f.step| ensures !At(f.step, SEMICOLON, j) {
        SemicolonInDisplay(f, n + 3 + j);
      }
    } else {
      var j :| 0 <= j <= |s| && At(s, SEMICOLON, j);
      SemicolonInDisplay(f, j);
    }
  }

  // -- the live reason survives the column ---------------------------------------------------

  predicate Clean(f: Failed) {
    ArrowClean(f) && Free(f.job, SEMICOLON) && !EndsWith(f.job, ";") && Free(f.step, SEMICOLON)
  }

  lemma {:induction false} FailedOfItsJob(job: Job, steps: seq<Step>, f: Failed)
    ensures f in FailedOf(job, steps) <==>
            f.job == job.name && exists s :: s in steps && s.name == f.step && s.conclusion == Failure
  {
    if steps != [] {
      FailedOfItsJob(job, Front(steps), f);
      assert steps == Front(steps) + [Last(steps)];
    }
  }

  /** The extracted steps are the failing steps of failing jobs that are not plumbing. */
  lemma {:induction false} ExtractedExactly(gate: string -> bool, jobs: seq<Job>, f: Failed)
    ensures f in Extract(gate, jobs) <==>
            exists j :: && j in jobs && Reports(gate, j) && f.job == j.name
                        && exists s :: s in j.steps && s.name == f.step && s.conclusion == Failure
  {
    if jobs != [] {
      ExtractedExactly(gate, Front(jobs), f);
      FailedOfItsJob(Last(jobs), Last(jobs).steps, f);
      assert jobs == Front(jobs) + [Last(jobs)];
    }
  }

  /** Joining the failed steps of a live e2e failure to text, storing the text with the
      live reason and deriving the reason again gives the live reason, the gate case with
      its empty text included, for names that print cleanly. */
  lemma LiveReasonSurvives(gate: string -> bool, jobs: seq<Job>)
    requires forall f :: f in Extract(gate, jobs) ==> Clean(f)
    ensures var failed := Extract(gate, jobs);
            Rederived(gate, E2e, Text(failed), LiveReason(gate, jobs)) == LiveReason(gate, jobs)
  {
    var failed := Extract(gate, jobs);
    var entries := Entries(Text(failed));
    if failed == [] {
      assert Text(failed) == "";
      assert Split("", SEMICOLON) == [""];
      assert entries == [];
      return;
    }
    forall k | 0 <= k < |failed|
      ensures Free(Display(failed[k]), SEMICOLON)
      ensures JobOf(Display(failed[k])) == failed[k].job && StepOf(Display(failed[k])) == failed[k].step
    {
      assert failed[k] in failed;
      DisplayIsFree(failed[k]);
      EntryRoundTrip(failed[k]);
    }
    ColumnRoundTrip(failed);
    assert entries == Displays(failed);
    ExtractedExactly(gate, jobs, failed[0]);
    var j :| j in jobs && Reports(gate, j) && failed[0].job == j.name;
    assert !gate(JobOf(entries[0])) && entries[0] in entries;
    assert StepsOf(entries) == StepNames(failed);
  }

  // -- the live reasons, job by job ----------------------------------------------------------

  /** A job failed that is neither flagged nor named like a gate. */
  predicate RealFailure(gate: string -> bool, j: Job) {
    j.conclusion == Failure && !j.flagged && !gate(j.name)
  }

  predicate FailsTestStep(j: Job) {
    exists s :: s in j.steps && s.conclusion == Failure && s.name in TEST_STEPS
  }

  /** The live reason of a failed e2e run: "gate" exactly when some job failed and no real
      one did, "test" exactly when a test step failed in a real one, "infra" otherwise. */
  lemma LiveReasonExactly(gate: string -> bool, jobs: seq<Job>)
    ensures LiveReason(gate, jobs) == Gate <==>
              (exists j :: j in jobs && j.conclusion == Failure) && forall j :: j in jobs ==> !RealFailure(gate, j)
    ensures LiveReason(gate, jobs) == Test <==> exists j :: j in jobs && RealFailure(gate, j) && FailsTestStep(j)
    ensures LiveReason(gate, jobs) in {Gate, Test, Infra}
  {
    var failed := Extract(gate, jobs);
    if j :| j in jobs && RealFailure(gate, j) && FailsTestStep(j) {
      var s :| s in j.steps && s.conclusion == Failure && s.name in TEST_STEPS;
      ExtractedExactly(gate, jobs, Failed(j.name, s.name));
      assert ShowsTest(failed);
    }
    if failed != [] {
      LiveReasonOf(gate, jobs);
      if f :| f in failed && f.step in TEST_STEPS {
        ExtractedExactly(gate, jobs, f);
      }
      ExtractedExactly(gate, jobs, failed[0]);
    }
  }

  predicate RanDiagnosis(j: Job) {
    exists s :: s in j.steps && s.name == AI_DIAGNOSIS_STEP && s.conclusion !in {NoConclusion, Skipped}
  }

  /** The reason of a failed "ai" run: what became of its diagnosis step, and none without
      jobs. A run of another category has no reason. */
  lemma OtherReasonsExactly(gate: string -> bool, category: Category, steps: seq<string>, jobs: Option<seq<Job>>)
    requires category != E2e
    ensures var reason := Classify(gate, category, steps, jobs);
            if category != Ai || jobs.None? || jobs.value == [] then reason == NotApplicable
            else if exists j :: j in jobs.value && RanDiagnosis(j) then reason == Ran
            else reason == SkippedAi
  {
    if category == Ai && jobs.Some? {
      if j, s :| j in jobs.value && s in j.steps && s.name == AI_DIAGNOSIS_STEP && s.conclusion !in {NoConclusion, Skipped} {
        assert RanDiagnosis(j);
      }
    }
  }

  // -- exactly when it survives, for any names ------------------------------------------------

  /** What reading the column back makes of one failed step. */
  predicate ReadBack(failed: seq<Failed>, entry: string) {
    exists f :: f in failed && entry in Entries(Display(f))
  }

  /** The column is cut into the pieces of its printed entries, and there is one. */
  lemma ColumnPieces(failed: seq<Failed>, entry: string)
    requires failed != []
    ensures entry in Entries(Text(failed)) <==> ReadBack(failed, entry)
    ensures Entries(Text(failed)) != []
  {
    var texts := Displays(failed);
    SemicolonIsBorderless();
    SplitMany(texts, SEMICOLON, entry);
    if t :| t in texts && entry in Split(t, SEMICOLON) {
      var k :| 0 <= k < |texts| && texts[k] == t;
      assert failed[k] in failed;
    }
    if f :| f in failed && entry in Entries(Display(f)) {
      var k :| 0 <= k < |failed| && failed[k] == f;
      assert texts[k] in texts;
    }
    var first := Display(failed[0]);
    assert first == texts[0] && first[|failed[0].job| + 1] == ARROW[1];
    SomePiece(first, SEMICOLON, |failed[0].job| + 1);
    var piece :| piece in Split(first, SEMICOLON) && piece != "";
    SplitMany(texts, SEMICOLON, piece);
    assert piece in Entries(Text(failed));
  }

  predicate ShowsTest(failed: seq<Failed>) {
    exists f :: f in failed && f.step in TEST_STEPS
  }

  ghost predicate StillShowsTest(failed: seq<Failed>) {
    exists entry :: ReadBack(failed, entry) && StepOf(entry) in TEST_STEPS
  }

  ghost predicate OnlyGatesLeft(gate: string -> bool, failed: seq<Failed>) {
    forall entry :: ReadBack(failed, entry) ==> gate(JobOf(entry))
  }

  /** A failed step that is reported is no plumbing, so its live reason is not the gate. */
  lemma LiveReasonOf(gate: string -> bool, jobs: seq<Job>)
    requires Extract(gate, jobs) != []
    ensures LiveReason(gate, jobs) == if ShowsTest(Extract(gate, jobs)) then Test else Infra
  {
    var failed := Extract(gate, jobs);
    ExtractedExactly(gate, jobs, failed[0]);
    var steps := StepNames(failed);
    if f :| f in failed && f.step in TEST_STEPS {
      var k :| 0 <= k < |failed| && failed[k] == f;
      assert steps[k] in steps;
    }
    if s :| s in steps && s in TEST_STEPS {
      var k :| 0 <= k < |steps| && steps[k] == s;
      assert failed[k] in failed;
    }
  }

  lemma StepReasonOf(entries: seq<string>)
    ensures StepReason(StepsOf(entries)) == Test <==> exists e :: e in entries && StepOf(e) in TEST_STEPS
  {
    var steps := StepsOf(entries);
    if e :| e in entries && StepOf(e) in TEST_STEPS {
      var k :| 0 <= k < |entries| && entries[k] == e;
      assert steps[k] in steps;
    }
    if s :| s in steps && s in TEST_STEPS {
      var k :| 0 <= k < |steps| && steps[k] == s;
      assert entries[k] in entries;
    }
  }

  lemma RederivedFrom(gate: string -> bool, text: string, stored: Reason)
    requires Entries(text) != []
    ensures Rederived(gate, E2e, text, stored) ==
            if forall e :: e in Entries(text) ==> gate(JobOf(e)) then Gate
            else if exists e :: e in Entries(text) && StepOf(e) in TEST_STEPS then Test else Infra
  {
    StepReasonOf(Entries(text));
  }

  lemma RederivedOf(gate: string -> bool, failed: seq<Failed>, stored: Reason)
    requires failed != []
    ensures Rederived(gate, E2e, Text(failed), stored) ==
            if OnlyGatesLeft(gate, failed) then Gate else if StillShowsTest(failed) then Test else Infra
  {
    var entries := Entries(Text(failed));
    forall e ensures e in entries <==> ReadBack(failed, e) {
      ColumnPieces(failed, e);
    }
    ColumnPieces(failed, Display(failed[0]));
    RederivedFrom(gate, Text(failed), stored);
  }

  /** For any names the reason derived from the stored text is the live reason exactly when
      nothing was stored, or the pieces that the cuts leave are not all named like gates
      and show a test step exactly if the failed steps did. */
  lemma LiveReasonSurvivesExactlyWhen(gate: string -> bool, jobs: seq<Job>)
    ensures var failed := Extract(gate, jobs);
            Rederived(gate, E2e, Text(failed), LiveReason(gate, jobs)) == LiveReason(gate, jobs) <==>
            failed == [] || (!OnlyGatesLeft(gate, failed) && (StillShowsTest(failed) <==> ShowsTest(failed)))
  {
    var failed := Extract(gate, jobs);
    if failed == [] {
      assert Text(failed) == "";
      assert Split("", SEMICOLON) == [""];
    } else {
      LiveReasonOf(gate, jobs);
      RederivedOf(gate, failed, LiveReason(gate, jobs));
    }
  }

  /** The pieces of a printed entry whose names are free of the semicolon separator. */
  lemma PiecesOfFreeNames(f: Failed)
    requires Free(f.job, SEMICOLON) && Free(f.step, SEMICOLON)
    ensures Entries(Display(f)) ==
            if !EndsWith(f.job, ";") then [Display(f)]
            else (if f.job == ";" then [] else [Front(f.job)]) + [ARROW[1..] + f.step]
  {
    if EndsWith(f.job, ";") {
      var name := Front(f.job);
      assert f.job == name + ";";
      forall j ensures !At(name, SEMICOLON, j) {
        SemicolonAt(name, j);
        SemicolonAt(f.job, j);
      }
      CutBeforeTheArrow(name, f.step);
      assert Text([f]) == Display(f);
    } else {
      DisplayIsFree(f);
      DisplayIsNotEmpty(f);
      FreeSplits(Display(f), SEMICOLON);
      AllKept((e: string) => e != "", [Display(f)]);
    }
  }

  // -- names that are free of the separators and still do not survive ---------------------

  lemma TestStepInitials(step: string)
    requires step in TEST_STEPS
    ensures step != "" && step[0] in {'I', 'D', 'R'}
  {
  }

  /** The text of a job name that ends with a semicolon is cut before the arrow. */
  lemma CutBeforeTheArrow(name: string, step: string)
    requires Free(name, SEMICOLON) && Free(step, SEMICOLON)
    ensures Entries(Text([Failed(name + ";", step)])) == (if name == "" then [] else [name]) + [ARROW[1..] + step]
  {
    var text, rest := Text([Failed(name + ";", step)]), ARROW[1..] + step;
    assert text == name + SEMICOLON + rest;
    forall j ensures !At(rest, SEMICOLON, j) {
      SemicolonAt(rest, j);
      SemicolonAt(step, j - 2);
    }
    SemicolonIsBorderless();
    FirstSeparator(name, SEMICOLON, rest);
    SplitOnce(name, SEMICOLON, rest);
    FreeSplits(rest, SEMICOLON);
    if name == "" {
      assert Front([name, rest]) == [name] && Front([name]) == [] && rest[0] == ARROW[1];
      var keep := (e: string) => e != "";
      assert Filter(keep, [name]) == [];
      assert Filter(keep, [name, rest]) == Filter(keep, [name]) + [rest];
    } else {
      AllKept((e: string) => e != "", [name, rest]);
    }
  }

  lemma OneFailedStep(gate: string -> bool, job: string, step: string) returns (jobs: seq<Job>)
    requires !gate(job) && step in TEST_STEPS
    ensures Extract(gate, jobs) == [Failed(job, step)] && LiveReason(gate, jobs) == Test
  {
    var f, failing := Failed(job, step), [Step(step, Failure)];
    jobs := [Job(job, Failure, false, failing)];
    assert Front(jobs) == [] && Front(failing) == [];
    assert FailedOf(jobs[0], failing) == [] + [f];
    assert Extract(gate, jobs) == [] + [f];
    assert jobs[0] in jobs && StepNames([f])[0] == step;
  }

  /** Names free of both separators are not enough: whatever the job, a name that ends
      with a semicolon hides its failed test step from the next start. */
  lemma TrailingSemicolonHidesTheTest(gate: string -> bool, name: string, step: string) returns (jobs: seq<Job>)
    requires Free(name, SEMICOLON) && Free(name, ARROW) && name != "" && name !in TEST_STEPS
    requires step in TEST_STEPS && Free(step, SEMICOLON) && Free(step, ARROW) && !gate(name + ";")
    ensures Extract(gate, jobs) == [Failed(name + ";", step)] && LiveReason(gate, jobs) == Test
    ensures Rederived(gate, E2e, Text(Extract(gate, jobs)), Test) != Test
  {
    var f := Failed(name + ";", step);
    jobs := OneFailedStep(gate, f.job, step);
    CutBeforeTheArrow(name, step);
    var rest := ARROW[1..] + step;
    TestStepInitials(step);
    forall j ensures !At(rest, ARROW, j) {
      ArrowAt(rest, j);
      ArrowAt(step, j - 2);
    }
    FreeSplits(name, ARROW);
    FreeSplits(rest, ARROW);
    NoTestStepLeft(gate, Text([f]), name, rest);
  }

  lemma NoTestStepLeft(gate: string -> bool, text: string, name: string, rest: string)
    requires Entries(text) == [name, rest] && Split(name, ARROW) == [name] && Split(rest, ARROW) == [rest]
    requires name !in TEST_STEPS && rest != "" && rest[0] == '\U{2192}'
    ensures Rederived(gate, E2e, text, Test) != Test
  {
    if rest in TEST_STEPS {
      TestStepInitials(rest);
    }
    assert StepsOf(Entries(text)) == [name, rest];
  }
}

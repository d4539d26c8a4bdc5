/** Single flight comes to an end: without new requests every schedule of the threads' own
    steps is bounded, and when nobody can move every request is answered. */
module SingleFlightProgress {
  import opened Common
  import opened Sequences
  import opened DocumentCache
  import opened SingleFlight

  /** A step a thread takes by itself, without a timeout and without a new request. */
  predicate OwnStep(step: Step) {
    !step.Call? && !step.Tick? && (step.Wake? ==> !step.timedOut)
  }

  /** The threads of a state, each once. */
  ghost predicate Lists(tids: seq<Tid>, s: State) {
    Distinct(tids) && forall t :: t in s.threads <==> t in tids
  }

  lemma {:induction false} ThreadsCanBeListed(threads: set<Tid>) returns (tids: seq<Tid>)
    ensures Distinct(tids) && |tids| == |threads| && forall t :: t in tids <==> t in threads
    decreases |threads|
  {
    tids := [];
    if t :| t in threads {
      var rest := ThreadsCanBeListed(threads - {t});
      tids := rest + [t];
    }
  }

  /** How much a thread can still do while no further event is set. A waiter whose event is
      set can still look again; one whose event is not set must wait for another thread. */
  function Rank(s: State, t: Tid): nat {
    if t !in s.threads then 0
    else
      match s.threads[t]
      case Waiting(_, event) => if event in s.signalled then 7 else 5
      case Ready(_) => 6
      case Building(_) => 4
      case Built(_, _) => 3
      case Stored(_, _) => 2
      case Raising(_) => 2
      case Popped(_, _) => 1
      case Returned(_, _) => 0
      case Raised(_) => 0
  }

  /** An unfinished thread may still set one event, which moves every waiter by two. */
  function Weight(s: State, n: nat, t: Tid): nat {
    Rank(s, t) + if t in s.threads && !Finished(s.threads[t]) then 2 * n else 0
  }

  function Sum(s: State, n: nat, tids: seq<Tid>): nat {
    if tids == [] then 0 else Sum(s, n, Front(tids)) + Weight(s, n, Last(tids))
  }

  function Measure(s: State, tids: seq<Tid>): nat {
    Sum(s, |tids|, tids)
  }

  /** By how much n threads can rise together. */
  function Lift(lifts: bool, n: nat): nat {
    if lifts then 2 * n else 0
  }

  lemma {:induction false} SumMoves(before: State, after: State, n: nat, tids: seq<Tid>, u: Tid, lifts: bool)
    requires Distinct(tids)
    requires forall t :: t in tids && t != u ==> Weight(after, n, t) <= Weight(before, n, t) + Lift(lifts, 1)
    ensures u in tids ==>
              Sum(after, n, tids) + Weight(before, n, u) <= Sum(before, n, tids) + Weight(after, n, u) + Lift(lifts, |tids| - 1)
    ensures u !in tids ==> Sum(after, n, tids) <= Sum(before, n, tids) + Lift(lifts, |tids|)
  {
    if tids != [] {
      var front, last := Front(tids), Last(tids);
      assert tids == front + [last];
      assert Distinct(front) && last !in front && last in tids;
      assert forall t :: t in front && t != u ==> t in tids;
      SumMoves(before, after, n, front, u, lifts);
      assert last != u ==> Weight(after, n, last) <= Weight(before, n, last) + Lift(lifts, 1);
    }
  }

  function ActorOf(step: Step): Tid
    requires OwnStep(step)
  {
    match step
    case Look(t) => t
    case Wake(t, _) => t
    case Build(t, _) => t
    case BuildRaises(t) => t
    case Store(t) => t
    case StoreRaises(t) => t
    case Pop(t) => t
    case Signal(t) => t
  }

  /** A step changes its actor only, except that setting an event lets its waiters look. */
  lemma OthersMove(s: State, step: Step, n: nat, t: Tid)
    requires Inv(s) && Enabled(s, step) && OwnStep(step) && t != ActorOf(step)
    ensures Weight(Apply(s, step), n, t) <= Weight(s, n, t) + if step.Signal? then 2 else 0
  {
  }

  /** The actor comes down by more than its event can lift the others. */
  lemma ActorComesDown(s: State, step: Step, n: nat)
    requires Inv(s) && Enabled(s, step) && OwnStep(step)
    ensures var u := ActorOf(step);
            && u in s.threads
            && Weight(Apply(s, step), n, u) < Weight(s, n, u)
            && (step.Signal? ==> Weight(Apply(s, step), n, u) + 2 * n < Weight(s, n, u))
  {
    var u := ActorOf(step);
    if step.Look? && s.threads[u].key in s.inflight {
      assert LeaderOf(s, s.inflight[s.threads[u].key], s.threads[u].key);
    }
  }

  /** Every own step of a thread brings the measure down. */
  lemma StepComesDown(s: State, step: Step, tids: seq<Tid>)
    requires Inv(s) && Lists(tids, s) && Enabled(s, step) && OwnStep(step)
    ensures Lists(tids, Apply(s, step)) && Inv(Apply(s, step))
    ensures Measure(Apply(s, step), tids) < Measure(s, tids)
  {
    var u := ActorOf(step);
    var after, n := Apply(s, step), |tids|;
    StepKeepsInv(s, step);
    ActorComesDown(s, step, n);
    forall t | t in tids && t != u ensures Weight(after, n, t) <= Weight(s, n, t) + Lift(step.Signal?, 1) {
      OthersMove(s, step, n, t);
    }
    SumMoves(s, after, n, tids, u, step.Signal?);
  }

  /** Every step of the schedule is a thread's own and happens. */
  ghost predicate Effective(s: State, steps: seq<Step>) {
    forall n :: 0 <= n < |steps| ==> OwnStep(steps[n]) && Enabled(Run(s, steps[..n]), steps[n])
  }

  lemma {:induction false} ScheduleComesDown(s: State, steps: seq<Step>, tids: seq<Tid>)
    requires Inv(s) && Lists(tids, s) && Effective(s, steps)
    ensures Inv(Run(s, steps)) && Lists(tids, Run(s, steps))
    ensures |steps| + Measure(Run(s, steps), tids) <= Measure(s, tids)
  {
    if steps != [] {
      var front := Front(steps);
      forall n | 0 <= n < |front| ensures OwnStep(front[n]) && Enabled(Run(s, front[..n]), front[n]) {
        assert front[..n] == steps[..n] && front[n] == steps[n];
      }
      ScheduleComesDown(s, front, tids);
      assert steps[..|front|] == front;
      StepComesDown(Run(s, front), Last(steps), tids);
    }
  }

  /** How many steps n requests can take together. */
  function Bound(n: nat): nat {
    n * (2 * n + 7)
  }

  lemma {:induction false} SumIsBounded(s: State, n: nat, tids: seq<Tid>)
    ensures Sum(s, n, tids) <= |tids| * (2 * n + 7)
  {
    if tids != [] {
      SumIsBounded(s, n, Front(tids));
      assert |tids| * (2 * n + 7) == |Front(tids)| * (2 * n + 7) + 2 * n + 7;
    }
  }

  lemma MeasureIsBounded(s: State, tids: seq<Tid>)
    ensures Measure(s, tids) <= Bound(|tids|)
  {
    SumIsBounded(s, |tids|, tids);
  }

  lemma ListedBound(s: State, steps: seq<Step>, tids: seq<Tid>)
    requires Inv(s) && Lists(tids, s) && Effective(s, steps)
    ensures |steps| <= Bound(|tids|)
  {
    ScheduleComesDown(s, steps, tids);
    MeasureIsBounded(s, tids);
  }

  lemma ThreadsBoundSchedules(s: State, steps: seq<Step>)
    requires Inv(s) && Effective(s, steps)
    ensures |steps| <= Bound(|s.threads|)
  {
    var tids := ThreadsCanBeListed(s.threads.Keys);
    ListedBound(s, steps, tids);
    assert |tids| == |s.threads|;
  }

  /** From any reachable state, without new requests and without a timeout, no schedule of
      the threads' own steps is longer than a bound in the number of requests, finished ones
      included. */
  lemma EverySchedule(past: seq<Step>, steps: seq<Step>)
    requires Effective(Run(INITIAL, past), steps)
    ensures |steps| <= Bound(|Run(INITIAL, past).threads|)
  {
    Reachable(past);
    ThreadsBoundSchedules(Run(INITIAL, past), steps);
  }

  lemma {:induction false} RunAppend(s: State, first: seq<Step>, second: seq<Step>)
    ensures Run(s, first + second) == Run(Run(s, first), second)
  {
    if second == [] {
      assert first + second == first;
    } else {
      assert Front(first + second) == first + Front(second) && Last(first + second) == Last(second);
      RunAppend(s, first, Front(second));
    }
  }

  /** And when such a schedule can go no further every request has returned or raised: no
      thread waits for another for ever, and none needs its timeout. */
  lemma EndsWithAllFinished(past: seq<Step>, steps: seq<Step>, t: Tid)
    requires forall step: Step :: OwnStep(step) ==> !Enabled(Run(Run(INITIAL, past), steps), step)
    requires t in Run(Run(INITIAL, past), steps).threads
    ensures Finished(Run(Run(INITIAL, past), steps).threads[t])
  {
    RunAppend(INITIAL, past, steps);
    var s := Run(INITIAL, past + steps);
    if !Finished(s.threads[t]) {
      var step, u := NeverStuck(past + steps, t);
      assert OwnStep(step) && Enabled(s, step);
    }
  }
}

/** Zombie detection of workflow-exporter.py: two caches per run attempt, a grace period
    on the wall clock and a recheck time on the monotonic clock. */
module ZombieRuns {
  import opened Common
  import opened Sequences

  /** A re-run keeps its run id, so both caches are keyed by the attempt too. */
  datatype Key = Key(run: int, attempt: int)

  /** The jobs fetch: failed, or answered with this many jobs. */
  datatype Answer = Failed | Jobs(count: nat)

  /** One call for a queued run. `queuedAt` is missing or unreadable when None; `answer` is
      what the jobs fetch gives if the call gets that far. */
  datatype Poll = Poll(key: Key, queuedAt: Option<int>, wall: int, mono: nat, answer: Answer)

  datatype Settings = Settings(grace: nat, recheck: nat)

  const CACHE_LIMIT := 5000

  datatype Caches = Caches(withJobs: set<Key>, recheckAt: map<Key, int>)

  /** What happened to one poll. */
  datatype Outcome = Outcome(caches: Caches, zombie: bool, fetched: bool)

  predicate PastGrace(settings: Settings, p: Poll) {
    p.queuedAt.Some? && p.wall - p.queuedAt.value >= settings.grace
  }

  function RememberJobs(c: Caches, key: Key): Caches {
    Caches((if |c.withJobs| > CACHE_LIMIT then {} else c.withJobs) + {key}, c.recheckAt - {key})
  }

  function RememberEmpty(c: Caches, key: Key, at: int): Caches {
    c.(recheckAt := (if |c.recheckAt| > CACHE_LIMIT then map[] else c.recheckAt)[key := at])
  }

  function IsZombie(settings: Settings, c: Caches, p: Poll): Outcome {
    var next := p.mono + settings.recheck;
    if p.key in c.withJobs then Outcome(c, false, false)
    else if p.key in c.recheckAt && p.mono < c.recheckAt[p.key] then Outcome(c, true, false)
    else if !PastGrace(settings, p) then Outcome(c, false, false)
    else
      match p.answer
      case Failed =>
        if p.key !in c.recheckAt then Outcome(c, false, true)
        else Outcome(c.(recheckAt := c.recheckAt[p.key := next]), true, true)
      case Jobs(count) =>
        if count > 0 then Outcome(RememberJobs(c, p.key), false, true)
        else Outcome(RememberEmpty(c, p.key, next), true, true)
  }

  // -- histories --------------------------------------------------------------------

  /** The caches after a history, and the polls that fetched, oldest first. */
  datatype World = World(caches: Caches, fetches: seq<Poll>)

  function Step(settings: Settings, w: World, p: Poll): World {
    var o := IsZombie(settings, w.caches, p);
    World(o.caches, if o.fetched then w.fetches + [p] else w.fetches)
  }

  function After(settings: Settings, polls: seq<Poll>): World {
    if polls == [] then World(Caches({}, map[]), [])
    else Step(settings, After(settings, Front(polls)), Last(polls))
  }

  /** The last fetch of an attempt, answered or not. */
  function LastFetch(fetches: seq<Poll>, key: Key): (last: Option<Poll>)
    ensures last.Some? ==> last.value in fetches && last.value.key == key
  {
    if fetches == [] then None
    else if Last(fetches).key == key then Some(Last(fetches))
    else
      var last := LastFetch(Front(fetches), key);
      assert fetches == Front(fetches) + [Last(fetches)];
      last
  }

  /** The last fetch of an attempt that was answered. */
  function LastAnswer(fetches: seq<Poll>, key: Key): (last: Option<Poll>)
    ensures last.Some? ==> last.value in fetches && last.value.key == key && last.value.answer.Jobs?
  {
    if fetches == [] then None
    else if Last(fetches).key == key && Last(fetches).answer.Jobs? then Some(Last(fetches))
    else
      var last := LastAnswer(Front(fetches), key);
      assert fetches == Front(fetches) + [Last(fetches)];
      last
  }

  /** The attempt's last answered fetch was empty and came after the grace period. */
  predicate KnownEmpty(settings: Settings, fetches: seq<Poll>, key: Key) {
    var last := LastAnswer(fetches, key);
    last.Some? && last.value.answer.count == 0 && PastGrace(settings, last.value)
  }

  predicate KnownBusy(fetches: seq<Poll>, key: Key) {
    var last := LastAnswer(fetches, key);
    last.Some? && last.value.answer.count > 0
  }

  predicate Small(c: Caches) {
    |c.withJobs| <= 5001 && |c.recheckAt| <= 5001
  }

  /** The two caches say nothing of an attempt that the answers did not. */
  predicate SoundFor(settings: Settings, w: World, key: Key) {
    && !(key in w.caches.withJobs && key in w.caches.recheckAt)
    && (key in w.caches.withJobs ==> KnownBusy(w.fetches, key))
    && (key in w.caches.recheckAt ==>
          && KnownEmpty(settings, w.fetches, key)
          && LastFetch(w.fetches, key).Some?
          && w.caches.recheckAt[key] == LastFetch(w.fetches, key).value.mono + settings.recheck)
  }

  /** A fetch changes what is known of its own attempt only. */
  lemma OtherAttempts(settings: Settings, fetches: seq<Poll>, p: Poll, key: Key)
    ensures key != p.key ==>
              && LastFetch(fetches + [p], key) == LastFetch(fetches, key)
              && LastAnswer(fetches + [p], key) == LastAnswer(fetches, key)
    ensures p.answer.Failed? ==> LastAnswer(fetches + [p], key) == LastAnswer(fetches, key)
    ensures p.answer.Jobs? ==> LastAnswer(fetches + [p], p.key) == Some(p)
    ensures LastFetch(fetches + [p], p.key) == Some(p)
  {
    assert Front(fetches + [p]) == fetches && Last(fetches + [p]) == p;
  }

  lemma MapSizes(m: map<Key, int>, key: Key, at: int)
    ensures |m[key := at]| <= |m| + 1 && (key in m ==> |m[key := at]| == |m|)
    ensures |m - {key}| <= |m|
  {
    assert m[key := at].Keys == m.Keys + {key};
    assert (m - {key}).Keys == m.Keys - {key};
    assert |m.Keys + {key}| <= |m.Keys| + 1;
  }

  lemma StepKeepsSmall(settings: Settings, w: World, p: Poll)
    requires Small(w.caches)
    ensures Small(Step(settings, w, p).caches)
  {
    MapSizes(w.caches.recheckAt, p.key, p.mono + settings.recheck);
    MapSizes(map[], p.key, p.mono + settings.recheck);
  }

  lemma StepKeepsSound(settings: Settings, w: World, p: Poll, key: Key)
    requires SoundFor(settings, w, key)
    ensures SoundFor(settings, Step(settings, w, p), key)
  {
    OtherAttempts(settings, w.fetches, p, key);
  }

  /** Over any sequence of polls, failures and clock readings. */
  lemma {:induction false} CachesStaySound(settings: Settings, polls: seq<Poll>, key: Key)
    ensures SoundFor(settings, After(settings, polls), key) && Small(After(settings, polls).caches)
  {
    if polls != [] {
      CachesStaySound(settings, Front(polls), key);
      StepKeepsSound(settings, After(settings, Front(polls)), Last(polls), key);
      StepKeepsSmall(settings, After(settings, Front(polls)), Last(polls));
    }
  }

  /** A run is reported as a zombie only if the last answered fetch of that very attempt
      was empty and happened after the grace period. */
  lemma ZombieNeedsAnEmptyAnswer(settings: Settings, polls: seq<Poll>, p: Poll)
    requires IsZombie(settings, After(settings, polls).caches, p).zombie
    ensures KnownEmpty(settings, After(settings, polls + [p]).fetches, p.key)
  {
    var w := After(settings, polls);
    CachesStaySound(settings, polls, p.key);
    StepKeepsSound(settings, w, p, p.key);
    assert Front(polls + [p]) == polls && Last(polls + [p]) == p;
  }

  /** A cached zombie is not fetched again before its recheck time. */
  lemma RecheckWaits(settings: Settings, polls: seq<Poll>, p: Poll)
    requires var w := After(settings, polls);
             p.key in w.caches.recheckAt && IsZombie(settings, w.caches, p).fetched
    ensures var last := LastFetch(After(settings, polls).fetches, p.key);
            last.Some? && p.mono >= last.value.mono + settings.recheck
  {
    CachesStaySound(settings, polls, p.key);
  }

  // -- while the caches are not full, they are exact -----------------------------------

  function Attempts(polls: seq<Poll>): set<Key> {
    set p | p in polls :: p.key
  }

  predicate ExactFor(settings: Settings, w: World, key: Key) {
    && (key in w.caches.withJobs <==> KnownBusy(w.fetches, key))
    && (key in w.caches.recheckAt <==> KnownEmpty(settings, w.fetches, key))
  }

  lemma StepKeepsExact(settings: Settings, w: World, p: Poll, key: Key)
    requires |w.caches.withJobs| <= CACHE_LIMIT && |w.caches.recheckAt| <= CACHE_LIMIT
    requires ExactFor(settings, w, key)
    ensures ExactFor(settings, Step(settings, w, p), key)
  {
    OtherAttempts(settings, w.fetches, p, key);
  }

  lemma StepOnlyAddsItsKey(settings: Settings, w: World, p: Poll)
    ensures Step(settings, w, p).caches.withJobs <= w.caches.withJobs + {p.key}
    ensures Step(settings, w, p).caches.recheckAt.Keys <= w.caches.recheckAt.Keys + {p.key}
  {
  }

  lemma {:induction false} OnlyPolledAttempts(settings: Settings, polls: seq<Poll>)
    ensures After(settings, polls).caches.withJobs <= Attempts(polls)
    ensures After(settings, polls).caches.recheckAt.Keys <= Attempts(polls)
  {
    if polls != [] {
      OnlyPolledAttempts(settings, Front(polls));
      StepOnlyAddsItsKey(settings, After(settings, Front(polls)), Last(polls));
      AttemptsStep(polls);
    }
  }

  lemma AttemptsStep(polls: seq<Poll>)
    requires polls != []
    ensures Attempts(polls) == Attempts(Front(polls)) + {Last(polls).key}
  {
    assert polls == Front(polls) + [Last(polls)];
  }

  /** With at most CACHE_LIMIT attempts ever polled nothing is cleared, and the caches are
      exactly the attempts whose last answer was empty, and was not. */
  lemma {:induction false} SmallHistoriesAreExact(settings: Settings, polls: seq<Poll>, key: Key)
    requires |Attempts(polls)| <= CACHE_LIMIT
    ensures ExactFor(settings, After(settings, polls), key)
  {
    if polls == [] {
      return;
    }
    var front, p := Front(polls), Last(polls);
    AttemptsStep(polls);
    SubsetSize(Attempts(front), Attempts(polls));
    SmallHistoriesAreExact(settings, front, key);
    var w := After(settings, front);
    OnlyPolledAttempts(settings, front);
    SubsetSize(w.caches.withJobs, Attempts(front));
    SubsetSize(w.caches.recheckAt.Keys, Attempts(front));
    assert |w.caches.recheckAt| == |w.caches.recheckAt.Keys|;
    StepKeepsExact(settings, w, p, key);
  }

  /** The last answer said empty, and its recheck time has not come. */
  predicate Waits(settings: Settings, fetches: seq<Poll>, p: Poll) {
    && KnownEmpty(settings, fetches, p.key)
    && LastFetch(fetches, p.key).Some?
    && p.mono < LastFetch(fetches, p.key).value.mono + settings.recheck
  }

  /** A run seen with jobs costs no further call, and a zombie at most one call per
      recheck interval: a call happens exactly for a run past the grace period whose
      attempt has no answer yet, or a known-empty one whose recheck time has come. */
  lemma FetchesAreRationed(settings: Settings, polls: seq<Poll>, p: Poll)
    requires |Attempts(polls)| <= CACHE_LIMIT
    ensures var fetches := After(settings, polls).fetches;
            IsZombie(settings, After(settings, polls).caches, p).fetched <==>
            && p.queuedAt.Some? && p.queuedAt.value + settings.grace <= p.wall
            && !KnownBusy(fetches, p.key) && !Waits(settings, fetches, p)
  {
    SmallHistoriesAreExact(settings, polls, p.key);
    CachesStaySound(settings, polls, p.key);
  }

  /** While nothing was cleared, a run is reported as a zombie exactly when the last
      answered fetch of its attempt, this poll's included, was empty and after the grace
      period, and the answer is still fresh or the run is past the grace period itself.
      A failed fetch keeps the last known answer. */
  lemma ZombieExactlyWhen(settings: Settings, polls: seq<Poll>, p: Poll)
    requires |Attempts(polls)| <= CACHE_LIMIT
    ensures var before, after := After(settings, polls), After(settings, polls + [p]);
            IsZombie(settings, before.caches, p).zombie <==>
            KnownEmpty(settings, after.fetches, p.key) && (Waits(settings, before.fetches, p) || PastGrace(settings, p))
  {
    var w := After(settings, polls);
    SmallHistoriesAreExact(settings, polls, p.key);
    CachesStaySound(settings, polls, p.key);
    OtherAttempts(settings, w.fetches, p, p.key);
    assert Front(polls + [p]) == polls && Last(polls + [p]) == p;
    assert After(settings, polls + [p]) == Step(settings, w, p);
  }

  // -- the exporter's method ---------------------------------------------------------------

  class ZombieDetector {
    var runsWithJobs: set<Key>
    var zombieRecheckAt: map<Key, int>
    const settings: Settings

    constructor (settings: Settings)
      ensures View() == Caches({}, map[]) && this.settings == settings
    {
      runsWithJobs, zombieRecheckAt := {}, map[];
      this.settings := settings;
    }

    ghost function View(): Caches
      reads this
    {
      Caches(runsWithJobs, zombieRecheckAt)
    }

    method IsZombieRun(p: Poll) returns (zombie: bool)
      modifies this
      ensures View() == IsZombie(settings, old(View()), p).caches
      ensures zombie == IsZombie(settings, old(View()), p).zombie
    {
      if p.key in runsWithJobs {
        return false;
      }
      var due := if p.key in zombieRecheckAt then zombieRecheckAt[p.key] else 0;
      if p.mono < due {
        return true;
      }
      if p.queuedAt == None || p.wall - p.queuedAt.value < settings.grace {
        return false;
      }
      match p.answer {
        case Failed =>
          if p.key !in zombieRecheckAt {
            return false;
          }
          zombieRecheckAt := zombieRecheckAt[p.key := p.mono + settings.recheck];
          return true;
        case Jobs(count) =>
          if count > 0 {
            zombieRecheckAt := zombieRecheckAt - {p.key};
            if |runsWithJobs| > CACHE_LIMIT {
              runsWithJobs := {};
            }
            runsWithJobs := runsWithJobs + {p.key};
            return false;
          }
          if |zombieRecheckAt| > CACHE_LIMIT {
            zombieRecheckAt := map[];
          }
          zombieRecheckAt := zombieRecheckAt[p.key := p.mono + settings.recheck];
          return true;
      }
    }
  }
}

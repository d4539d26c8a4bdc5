/** Single flight around the document cache: threads take turns under one lock,
    the first reader of a capture builds, the others wait for its event.

    A step is one locked section or one action outside the lock. A wait may end by
    the event or by its timeout, a build or a store may raise. One thread is one
    request, and it leads at most once, so an event is named after the thread that
    made it. */
module SingleFlight {
  import opened Common
  import opened Sequences
  import opened DocumentCache

  type Tid = nat

  datatype Pc = Ready(key: Key)
              | Waiting(key: Key, event: Tid)
              | Building(key: Key)
              | Built(key: Key, doc: Document)
              | Stored(key: Key, doc: Document)
              | Raising(key: Key)
              | Popped(key: Key, outcome: Option<Document>)
              | Returned(key: Key, doc: Document)
              | Raised(key: Key)

  datatype State = State(threads: map<Tid, Pc>, inflight: map<Key, Tid>, signalled: set<Tid>, cache: seq<Entry>, clock: int)

  const INITIAL := State(map[], map[], {}, [], 0)

  datatype Step = Call(t: Tid, key: Key)
                | Look(t: Tid)
                | Wake(t: Tid, timedOut: bool)
                | Build(t: Tid, doc: Document)
                | BuildRaises(t: Tid)
                | Store(t: Tid)
                | StoreRaises(t: Tid)
                | Pop(t: Tid)
                | Signal(t: Tid)
                | Tick(seconds: nat)

  predicate Enabled(s: State, step: Step) {
    match step
    case Call(t, _) => t !in s.threads
    case Look(t) => t in s.threads && s.threads[t].Ready?
    case Wake(t, timedOut) => t in s.threads && s.threads[t].Waiting? && (timedOut || s.threads[t].event in s.signalled)
    case Build(t, doc) => t in s.threads && s.threads[t].Building? && doc.captureId == s.threads[t].key
    case BuildRaises(t) => t in s.threads && s.threads[t].Building?
    case Store(t) => t in s.threads && s.threads[t].Built?
    case StoreRaises(t) => t in s.threads && s.threads[t].Built?
    case Pop(t) => t in s.threads && (s.threads[t].Stored? || s.threads[t].Raising?)
    case Signal(t) => t in s.threads && s.threads[t].Popped?
    case Tick(_) => true
  }

  function Move(s: State, t: Tid, pc: Pc): State {
    s.(threads := s.threads[t := pc])
  }

  /** The locked section at the top of the loop. */
  function LookUp(s: State, t: Tid, key: Key): State {
    var touched := s.(cache := Touch(s.cache, key, s.clock));
    if FreshHit(s.cache, key, s.clock) then Move(touched, t, Returned(key, Find(s.cache, key).value.document))
    else if key in s.inflight then Move(touched, t, Waiting(key, s.inflight[key]))
    else Move(touched, t, Building(key)).(inflight := s.inflight[key := t])
  }

  function Apply(s: State, step: Step): State
    requires Enabled(s, step)
  {
    match step
    case Call(t, key) => Move(s, t, Ready(key))
    case Look(t) => LookUp(s, t, s.threads[t].key)
    case Wake(t, _) => Move(s, t, Ready(s.threads[t].key))
    case Build(t, doc) => Move(s, t, Built(s.threads[t].key, doc))
    case BuildRaises(t) => Move(s, t, Raising(s.threads[t].key))
    case Store(t) =>
      var pc := s.threads[t];
      Move(s, t, Stored(pc.key, pc.doc)).(cache := StoreDocument(s.cache, pc.doc, s.clock))
    case StoreRaises(t) => Move(s, t, Raising(s.threads[t].key))
    case Pop(t) =>
      var pc := s.threads[t];
      Move(s, t, Popped(pc.key, if pc.Stored? then Some(pc.doc) else None)).(inflight := s.inflight - {pc.key})
    case Signal(t) =>
      var pc := s.threads[t];
      Move(s, t, if pc.outcome.Some? then Returned(pc.key, pc.outcome.value) else Raised(pc.key))
      .(signalled := s.signalled + {t})
    case Tick(seconds) => s.(clock := s.clock + seconds)
  }

  /** Any schedule: a step that is not enabled when its turn comes does not happen. */
  function Run(s: State, steps: seq<Step>): State {
    if steps == [] then s
    else
      var before := Run(s, Front(steps));
      if Enabled(before, Last(steps)) then Apply(before, Last(steps)) else before
  }

  // -- the invariant -----------------------------------------------------------------

  /** A key's leader: from taking the key until it pops its in-flight entry. */
  predicate Leads(pc: Pc) {
    pc.Building? || pc.Built? || pc.Stored? || pc.Raising?
  }

  predicate LeaderOf(s: State, t: Tid, key: Key) {
    t in s.threads && Leads(s.threads[t]) && s.threads[t].key == key
  }

  /** A thread that has made an event for the key and still has to set it. */
  predicate WillSignal(s: State, t: Tid, key: Key) {
    t in s.threads && (Leads(s.threads[t]) || s.threads[t].Popped?) && s.threads[t].key == key
  }

  predicate InflightIffLeader(s: State) {
    && (forall key :: key in s.inflight ==> LeaderOf(s, s.inflight[key], key))
    && (forall t :: t in s.threads && Leads(s.threads[t]) ==>
          s.threads[t].key in s.inflight && s.inflight[s.threads[t].key] == t)
  }

  predicate SignalledAreDone(s: State) {
    forall t :: t in s.signalled ==> t in s.threads && (s.threads[t].Returned? || s.threads[t].Raised?)
  }

  predicate WaitersWillWake(s: State) {
    forall t :: t in s.threads && s.threads[t].Waiting? ==>
      s.threads[t].event in s.signalled || WillSignal(s, s.threads[t].event, s.threads[t].key)
  }

  predicate OwnDocument(pc: Pc) {
    && (pc.Built? || pc.Stored? || pc.Returned? ==> pc.doc.captureId == pc.key)
    && (pc.Popped? && pc.outcome.Some? ==> pc.outcome.value.captureId == pc.key)
  }

  predicate OwnDocuments(s: State) {
    forall t :: t in s.threads ==> OwnDocument(s.threads[t])
  }

  predicate Inv(s: State) {
    InflightIffLeader(s) && SignalledAreDone(s) && WaitersWillWake(s) && OwnDocuments(s) && Sound(s.cache)
  }

  lemma CacheKeepsInv(s: State, cache: seq<Entry>)
    requires Inv(s) && Sound(cache)
    ensures Inv(s.(cache := cache))
  {
  }

  /** A thread that leads nothing moves to another phase that leads nothing. */
  lemma BystanderKeepsInv(s: State, t: Tid, pc: Pc)
    requires Inv(s) && OwnDocument(pc)
    requires t in s.threads ==> s.threads[t].Ready? || s.threads[t].Waiting?
    requires pc.Ready? || pc.Returned? || (pc.Waiting? && pc.key in s.inflight && s.inflight[pc.key] == pc.event)
    ensures Inv(Move(s, t, pc))
  {
  }

  /** A leader moves on and keeps its key. */
  lemma LeaderKeepsInv(s: State, t: Tid, pc: Pc)
    requires Inv(s) && t in s.threads && Leads(s.threads[t])
    requires Leads(pc) && pc.key == s.threads[t].key && OwnDocument(pc)
    ensures Inv(Move(s, t, pc))
  {
  }

  lemma NewLeaderKeepsInv(s: State, t: Tid, key: Key)
    requires Inv(s) && t in s.threads && s.threads[t].Ready? && key !in s.inflight
    ensures Inv(Move(s, t, Building(key)).(inflight := s.inflight[key := t]))
  {
  }

  lemma LookKeepsInv(s: State, t: Tid)
    requires Inv(s) && Enabled(s, Look(t))
    ensures Inv(Apply(s, Look(t)))
  {
    var key := s.threads[t].key;
    var touched := s.(cache := Touch(s.cache, key, s.clock));
    TouchKeepsSound(s.cache, key, s.clock);
    CacheKeepsInv(s, touched.cache);
    if FreshHit(s.cache, key, s.clock) {
      var doc := Find(s.cache, key).value.document;
      assert doc.captureId == key by { FindIs(s.cache, key); }
      BystanderKeepsInv(touched, t, Returned(key, doc));
    } else if key in s.inflight {
      BystanderKeepsInv(touched, t, Waiting(key, s.inflight[key]));
    } else {
      NewLeaderKeepsInv(touched, t, key);
    }
  }

  lemma StoreStepKeepsInv(s: State, t: Tid)
    requires Inv(s) && Enabled(s, Store(t))
    ensures Inv(Apply(s, Store(t)))
  {
    var pc := s.threads[t];
    StoreKeepsSound(s.cache, pc.doc, s.clock);
    LeaderKeepsInv(s, t, Stored(pc.key, pc.doc));
    CacheKeepsInv(Move(s, t, Stored(pc.key, pc.doc)), StoreDocument(s.cache, pc.doc, s.clock));
  }

  lemma PopKeepsInv(s: State, t: Tid)
    requires Inv(s) && Enabled(s, Pop(t))
    ensures Inv(Apply(s, Pop(t)))
  {
  }

  lemma SignalKeepsInv(s: State, t: Tid)
    requires Inv(s) && Enabled(s, Signal(t))
    ensures Inv(Apply(s, Signal(t)))
  {
  }

  lemma StepKeepsInv(s: State, step: Step)
    requires Inv(s) && Enabled(s, step)
    ensures Inv(Apply(s, step))
  {
    match step
    case Call(t, key) => BystanderKeepsInv(s, t, Ready(key));
    case Look(t) => LookKeepsInv(s, t);
    case Wake(t, _) => BystanderKeepsInv(s, t, Ready(s.threads[t].key));
    case Build(t, doc) => LeaderKeepsInv(s, t, Built(s.threads[t].key, doc));
    case BuildRaises(t) => LeaderKeepsInv(s, t, Raising(s.threads[t].key));
    case Store(t) => StoreStepKeepsInv(s, t);
    case StoreRaises(t) => LeaderKeepsInv(s, t, Raising(s.threads[t].key));
    case Pop(t) => PopKeepsInv(s, t);
    case Signal(t) => SignalKeepsInv(s, t);
    case Tick(_) => assert Inv(s.(clock := s.clock + step.seconds));
  }

  lemma {:induction false} Reachable(steps: seq<Step>)
    ensures Inv(Run(INITIAL, steps))
  {
    if steps != [] {
      Reachable(Front(steps));
      var before := Run(INITIAL, Front(steps));
      if Enabled(before, Last(steps)) {
        StepKeepsInv(before, Last(steps));
      }
    }
  }

  // -- what the protocol promises ------------------------------------------------------

  /** Under any schedule at most one thread builds a capture's document, and an
      in-flight entry exists exactly while that leader lives. */
  lemma OneLeaderPerCapture(steps: seq<Step>, key: Key)
    ensures var s := Run(INITIAL, steps);
            && (forall t, u :: LeaderOf(s, t, key) && LeaderOf(s, u, key) ==> t == u)
            && (key in s.inflight <==> exists t :: LeaderOf(s, t, key))
  {
    Reachable(steps);
    var s := Run(INITIAL, steps);
    if key in s.inflight {
      assert LeaderOf(s, s.inflight[key], key);
    }
  }

  /** No wake-up is lost: the event a waiter holds is set, or a live thread that is
      working on the same capture will set it, also when its build raises. */
  lemma NoLostWakeUp(steps: seq<Step>, t: Tid)
    requires t in Run(INITIAL, steps).threads && Run(INITIAL, steps).threads[t].Waiting?
    ensures var s := Run(INITIAL, steps);
            s.threads[t].event in s.signalled || WillSignal(s, s.threads[t].event, s.threads[t].key)
  {
    Reachable(steps);
  }

  /** Every document handed to a reader was built for the capture it asked for. */
  lemma ReadersGetTheirOwnDocument(steps: seq<Step>, t: Tid)
    requires t in Run(INITIAL, steps).threads && Run(INITIAL, steps).threads[t].Returned?
    ensures Run(INITIAL, steps).threads[t].doc.captureId == Run(INITIAL, steps).threads[t].key
  {
    Reachable(steps);
  }

  predicate Finished(pc: Pc) {
    pc.Returned? || pc.Raised?
  }

  /** How far a thread is from its end; a waiter only comes closer by its event. */
  function Distance(pc: Pc): nat {
    match pc
    case Returned(_, _) => 0
    case Raised(_) => 0
    case Popped(_, _) => 1
    case Stored(_, _) => 2
    case Raising(_) => 2
    case Built(_, _) => 3
    case Building(_) => 4
    case Ready(_) => 5
    case Waiting(_, _) => 6
  }

  /** Nobody is ever stuck: while some request is unfinished, some thread can take a
      step of its own that brings it closer to its end, without any timeout. Only a
      woken waiter that finds a new leader goes back to waiting. */
  lemma NeverStuck(steps: seq<Step>, t: Tid) returns (step: Step, u: Tid)
    requires t in Run(INITIAL, steps).threads && !Finished(Run(INITIAL, steps).threads[t])
    ensures var s := Run(INITIAL, steps);
            && Enabled(s, step) && !step.Tick? && !step.Call? && (step.Wake? ==> !step.timedOut)
            && u in s.threads && u in Apply(s, step).threads
            && (Distance(Apply(s, step).threads[u]) < Distance(s.threads[u])
                || (s.threads[u].Ready? && Apply(s, step).threads[u].Waiting?))
  {
    Reachable(steps);
    var s := Run(INITIAL, steps);
    u := t;
    if s.threads[t].Waiting? && s.threads[t].event !in s.signalled {
      u := s.threads[t].event;
    }
    match s.threads[u]
    case Ready(_) => step := Look(u);
    case Waiting(_, _) => step := Wake(u, false);
    case Building(_) => step := BuildRaises(u);
    case Built(_, _) => step := Store(u);
    case Stored(_, _) => step := Pop(u);
    case Raising(_) => step := Pop(u);
    case Popped(_, _) => step := Signal(u);
  }

  /** A reader becomes a builder only when nothing fresh is cached and nobody leads. */
  lemma BuildsOnlyWhenNeeded(steps: seq<Step>, t: Tid)
    requires Enabled(Run(INITIAL, steps), Look(t))
    ensures var s := Run(INITIAL, steps);
            var key := s.threads[t].key;
            LeaderOf(Apply(s, Look(t)), t, key) <==>
              !FreshHit(s.cache, key, s.clock) && forall u :: !LeaderOf(s, u, key)
  {
    Reachable(steps);
    var s := Run(INITIAL, steps);
    var key := s.threads[t].key;
    if key in s.inflight {
      assert LeaderOf(s, s.inflight[key], key);
    }
  }

  // -- store before wake ------------------------------------------------------------------

  lemma {:induction false} FindSkipsOthers(entries: seq<Entry>, other: Key, key: Key)
    requires other != key
    ensures Find(Without(entries, other), key) == Find(entries, key)
  {
    if entries != [] {
      FindSkipsOthers(entries[1..], other, key);
      if entries[0].key != other {
        assert Without(entries, other)[1..] == Without(entries[1..], other);
      }
    }
  }

  lemma {:induction false} FindIgnoresAppended(entries: seq<Entry>, e: Entry, key: Key)
    requires e.key != key
    ensures Find(entries + [e], key) == Find(entries, key)
  {
    if entries != [] {
      assert (entries + [e])[1..] == entries[1..] + [e];
      FindIgnoresAppended(entries[1..], e, key);
    } else {
      assert [] + [e] == [e] && [e][1..] == [];
    }
  }

  /** Reads never lose a fresh entry. */
  lemma TouchKeepsFresh(entries: seq<Entry>, touched: Key, key: Key, now: int)
    requires Sound(entries) && FreshHit(entries, key, now)
    ensures Find(Touch(entries, touched, now), key) == Find(entries, key)
  {
    FindIs(entries, touched);
    FindIs(entries, key);
    var entry := Find(entries, touched);
    if touched == key {
      FindAppended(Without(entries, key), entry.value);
    } else if entry.Some? {
      FindSkipsOthers(entries, touched, key);
      FindIgnoresAppended(Without(entries, touched), entry.value, key);
    }
  }

  /** While no other document is stored and the entry has not expired, it stays. */
  lemma {:induction false} FreshEntryStays(s: State, steps: seq<Step>, e: Entry)
    requires Inv(s) && Find(s.cache, e.key) == Some(e)
    requires forall i :: 0 <= i < |steps| ==> !steps[i].Store?
    requires Run(s, steps).clock < e.expiresAt
    ensures Inv(Run(s, steps)) && Find(Run(s, steps).cache, e.key) == Some(e)
  {
    if steps != [] {
      var before := Run(s, Front(steps));
      assert before.clock <= Run(s, steps).clock;
      FreshEntryStays(s, Front(steps), e);
      if Enabled(before, Last(steps)) {
        StepKeepsInv(before, Last(steps));
        if Last(steps).Look? {
          TouchKeepsFresh(before.cache, before.threads[Last(steps).t].key, e.key, before.clock);
        }
      }
    }
  }

  lemma FreshReaderReturns(s: State, reader: Tid, e: Entry)
    requires Enabled(s, Look(reader)) && s.threads[reader].key == e.key
    requires Find(s.cache, e.key) == Some(e) && s.clock < e.expiresAt
    ensures Apply(s, Look(reader)).threads[reader] == Returned(e.key, e.document)
  {
    assert FreshHit(s.cache, e.key, s.clock);
  }

  lemma StoreThenFind(entries: seq<Entry>, doc: Document, now: int)
    requires Sound(entries)
    ensures Find(StoreDocument(entries, doc, now), doc.captureId) == Some(Entry(doc.captureId, now + Ttl(doc), doc))
  {
    StoreKeepsSound(entries, doc, now);
  }

  lemma StoredEntryIsFound(s: State, t: Tid)
    requires Sound(s.cache) && Enabled(s, Store(t))
    ensures var doc := s.threads[t].doc;
            Find(Apply(s, Store(t)).cache, doc.captureId) == Some(Entry(doc.captureId, s.clock + Ttl(doc), doc))
  {
    StoreThenFind(s.cache, s.threads[t].doc, s.clock);
  }

  /** The leader stores before it wakes anyone: from its store on, until the entry
      expires or another document is stored, every reader of the capture that looks,
      a woken waiter included, gets the leader's document and starts no second build. */
  lemma StoredBeforeWoken(before: State, t: Tid, doc: Document, steps: seq<Step>, reader: Tid)
    requires Inv(before) && Enabled(before, Store(t)) && before.threads[t].doc == doc
    requires forall i :: 0 <= i < |steps| ==> !steps[i].Store?
    requires var s := Run(Apply(before, Store(t)), steps);
             s.clock < before.clock + Ttl(doc) && Enabled(s, Look(reader)) && s.threads[reader].key == doc.captureId
    ensures var s := Run(Apply(before, Store(t)), steps);
            Apply(s, Look(reader)).threads[reader] == Returned(doc.captureId, doc)
  {
    StoredEntryIsFound(before, t);
    StepKeepsInv(before, Store(t));
    var e := Entry(doc.captureId, before.clock + Ttl(doc), doc);
    FreshEntryStays(Apply(before, Store(t)), steps, e);
    FreshReaderReturns(Run(Apply(before, Store(t)), steps), reader, e);
  }
}

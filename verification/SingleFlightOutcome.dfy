/** What a request gets from the single flight: an exception exactly when its own build or
    store raised, the very document it built and stored, or else a fresh cached one. */
module SingleFlightOutcome {
  import opened Common
  import opened Sequences
  import opened DocumentCache
  import opened SingleFlight

  /** The n-th step of the schedule is this one, and it took effect. */
  predicate Takes(steps: seq<Step>, n: int, step: Step) {
    0 <= n < |steps| && steps[n] == step && Enabled(Run(INITIAL, steps[..n]), step)
  }

  ghost predicate Took(steps: seq<Step>, step: Step) {
    exists n :: Takes(steps, n, step)
  }

  ghost predicate ItselfRaised(steps: seq<Step>, t: Tid) {
    Took(steps, BuildRaises(t)) || Took(steps, StoreRaises(t))
  }

  ghost predicate NeverBuilt(steps: seq<Step>, t: Tid) {
    forall doc :: !Took(steps, Build(t, doc))
  }

  ghost predicate BuiltOnly(steps: seq<Step>, t: Tid, doc: Document) {
    Took(steps, Build(t, doc)) && forall other :: Took(steps, Build(t, other)) ==> other == doc
  }

  /** A look of its own found the document fresh in the cache. */
  predicate ServedAt(steps: seq<Step>, n: int, t: Tid, key: Key, doc: Document) {
    && Takes(steps, n, Look(t))
    && var s := Run(INITIAL, steps[..n]);
       s.threads[t].key == key && FreshHit(s.cache, key, s.clock) && Find(s.cache, key).value.document == doc
  }

  ghost predicate Served(steps: seq<Step>, t: Tid, key: Key, doc: Document) {
    exists n :: ServedAt(steps, n, t, key, doc)
  }

  lemma OneMoreStep(steps: seq<Step>, step: Step)
    requires steps != []
    ensures Took(steps, step) <==>
            Took(Front(steps), step) || (step == Last(steps) && Enabled(Run(INITIAL, Front(steps)), step))
  {
    var front := Front(steps);
    assert steps[..|front|] == front;
    if n :| Takes(front, n, step) {
      assert front[..n] == steps[..n];
      assert Takes(steps, n, step);
    }
    if n :| Takes(steps, n, step) {
      if n < |front| {
        assert front[..n] == steps[..n];
        assert Takes(front, n, step);
      }
    }
    if step == Last(steps) && Enabled(Run(INITIAL, front), step) {
      assert Takes(steps, |front|, step);
    }
  }

  lemma StillServed(steps: seq<Step>, t: Tid, key: Key, doc: Document)
    requires steps != [] && Served(Front(steps), t, key, doc)
    ensures Served(steps, t, key, doc)
  {
    var n :| ServedAt(Front(steps), n, t, key, doc);
    assert Front(steps)[..n] == steps[..n];
    assert ServedAt(steps, n, t, key, doc);
  }

  // -- what each phase of a request remembers ---------------------------------------------

  ghost predicate Idle(steps: seq<Step>, t: Tid) {
    !ItselfRaised(steps, t) && !Took(steps, Store(t)) && NeverBuilt(steps, t)
  }

  ghost predicate Delivered(steps: seq<Step>, t: Tid, doc: Document) {
    !ItselfRaised(steps, t) && Took(steps, Store(t)) && BuiltOnly(steps, t, doc)
  }

  ghost predicate Failed(steps: seq<Step>, t: Tid) {
    ItselfRaised(steps, t) && !Took(steps, Store(t))
  }

  ghost predicate Phase(steps: seq<Step>, t: Tid, pc: Pc) {
    match pc
    case Ready(_) => Idle(steps, t)
    case Waiting(_, _) => Idle(steps, t)
    case Building(_) => Idle(steps, t)
    case Built(_, doc) => !ItselfRaised(steps, t) && !Took(steps, Store(t)) && BuiltOnly(steps, t, doc)
    case Stored(_, doc) => Delivered(steps, t, doc)
    case Raising(_) => Failed(steps, t)
    case Popped(_, outcome) => if outcome.Some? then Delivered(steps, t, outcome.value) else Failed(steps, t)
    case Returned(key, doc) => Delivered(steps, t, doc) || (Idle(steps, t) && Served(steps, t, key, doc))
    case Raised(_) => Failed(steps, t)
  }

  ghost predicate Remembers(steps: seq<Step>, t: Tid) {
    var s := Run(INITIAL, steps);
    if t in s.threads then Phase(steps, t, s.threads[t]) else Idle(steps, t)
  }

  /** The thread a step moves; time passes for none. */
  function ThreadOf(step: Step): Option<Tid> {
    match step
    case Call(t, _) => Some(t)
    case Look(t) => Some(t)
    case Wake(t, _) => Some(t)
    case Build(t, _) => Some(t)
    case BuildRaises(t) => Some(t)
    case Store(t) => Some(t)
    case StoreRaises(t) => Some(t)
    case Pop(t) => Some(t)
    case Signal(t) => Some(t)
    case Tick(_) => None
  }

  /** A step that is none of the thread's own builds, stores or raises changes no memory. */
  lemma SameMemory(steps: seq<Step>, t: Tid)
    requires steps != []
    ensures ItselfRaised(steps, t) <==>
            || ItselfRaised(Front(steps), t)
            || (Last(steps) in {BuildRaises(t), StoreRaises(t)} && Enabled(Run(INITIAL, Front(steps)), Last(steps)))
    ensures Took(steps, Store(t)) <==>
            Took(Front(steps), Store(t)) || (Last(steps) == Store(t) && Enabled(Run(INITIAL, Front(steps)), Last(steps)))
    ensures forall doc :: Took(steps, Build(t, doc)) <==>
            Took(Front(steps), Build(t, doc)) || (Last(steps) == Build(t, doc) && Enabled(Run(INITIAL, Front(steps)), Last(steps)))
  {
    OneMoreStep(steps, BuildRaises(t));
    OneMoreStep(steps, StoreRaises(t));
    OneMoreStep(steps, Store(t));
    forall doc ensures Took(steps, Build(t, doc)) <==>
        Took(Front(steps), Build(t, doc)) || (Last(steps) == Build(t, doc) && Enabled(Run(INITIAL, Front(steps)), Last(steps)))
    {
      OneMoreStep(steps, Build(t, doc));
    }
  }

  lemma LookRemembers(steps: seq<Step>, t: Tid)
    requires steps != [] && Last(steps) == Look(t) && Remembers(Front(steps), t)
    requires Enabled(Run(INITIAL, Front(steps)), Last(steps))
    ensures Remembers(steps, t)
  {
    var front, s := Front(steps), Run(INITIAL, Front(steps));
    SameMemory(steps, t);
    assert steps[..|front|] == front;
    assert FreshHit(s.cache, s.threads[t].key, s.clock) ==>
        ServedAt(steps, |front|, t, s.threads[t].key, Find(s.cache, s.threads[t].key).value.document);
  }

  lemma OwnStepRemembers(steps: seq<Step>, t: Tid)
    requires steps != [] && ThreadOf(Last(steps)) == Some(t) && !Last(steps).Look? && Remembers(Front(steps), t)
    requires Enabled(Run(INITIAL, Front(steps)), Last(steps))
    ensures Remembers(steps, t)
  {
    SameMemory(steps, t);
  }

  lemma OthersStay(s: State, step: Step, t: Tid)
    requires ThreadOf(step) != Some(t)
    ensures Enabled(s, step) ==>
              (t in Apply(s, step).threads <==> t in s.threads) && (t in s.threads ==> Apply(s, step).threads[t] == s.threads[t])
  {
  }

  lemma OtherStepRemembers(steps: seq<Step>, t: Tid)
    requires steps != [] && Remembers(Front(steps), t)
    requires ThreadOf(Last(steps)) == Some(t) ==> !Enabled(Run(INITIAL, Front(steps)), Last(steps))
    ensures Remembers(steps, t)
  {
    var s := Run(INITIAL, Front(steps));
    SameMemory(steps, t);
    if ThreadOf(Last(steps)) != Some(t) {
      OthersStay(s, Last(steps), t);
    }
    assert t in Run(INITIAL, steps).threads <==> t in s.threads;
    assert t in s.threads ==> Run(INITIAL, steps).threads[t] == s.threads[t];
    if t in s.threads && s.threads[t].Returned? && Served(Front(steps), t, s.threads[t].key, s.threads[t].doc) {
      StillServed(steps, t, s.threads[t].key, s.threads[t].doc);
    }
  }

  lemma {:induction false} AlwaysRemembers(steps: seq<Step>, t: Tid)
    ensures Remembers(steps, t)
  {
    if steps != [] {
      AlwaysRemembers(Front(steps), t);
      if ThreadOf(Last(steps)) != Some(t) || !Enabled(Run(INITIAL, Front(steps)), Last(steps)) {
        OtherStepRemembers(steps, t);
      } else if Last(steps).Look? {
        LookRemembers(steps, t);
      } else {
        OwnStepRemembers(steps, t);
      }
    }
  }

  // -- what a request gets ----------------------------------------------------------------

  /** Under any schedule a finished request has raised exactly when its own build or its own
      store did: a waiter never gets its leader's exception. */
  lemma RaisesExactlyWhen(steps: seq<Step>, t: Tid)
    requires t in Run(INITIAL, steps).threads && Finished(Run(INITIAL, steps).threads[t])
    ensures Run(INITIAL, steps).threads[t].Raised? <==> ItselfRaised(steps, t)
  {
    AlwaysRemembers(steps, t);
  }

  /** A request that built a document and stored it can only end by returning that very
      document. */
  lemma LeaderReturnsItsDocument(steps: seq<Step>, t: Tid, doc: Document)
    requires Took(steps, Build(t, doc)) && Took(steps, Store(t))
    ensures t in Run(INITIAL, steps).threads
    ensures var pc := Run(INITIAL, steps).threads[t];
            Finished(pc) ==> pc == Returned(pc.key, doc)
  {
    AlwaysRemembers(steps, t);
  }

  /** A request that returns without having built anything returns what a look of its own
      found fresh in the cache, under its own key. */
  lemma OthersAreServedFromTheCache(steps: seq<Step>, t: Tid)
    requires t in Run(INITIAL, steps).threads && Run(INITIAL, steps).threads[t].Returned? && NeverBuilt(steps, t)
    ensures var pc := Run(INITIAL, steps).threads[t];
            Served(steps, t, pc.key, pc.doc)
  {
    AlwaysRemembers(steps, t);
  }
}

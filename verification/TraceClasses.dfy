/** One trace, classified (ci_observe_capture_view.py): every readable span in one
    class, and every span's xdist worker found by a bounded walk up its parents.

    Span ids are numbers, 0 standing for a missing id. The worker a span names
    itself, by attribute or by its own name, arrives parsed; "" means neither. */
module TraceClasses {
  import opened Common
  import opened Sequences
  import Strings

  const MAX_HOPS := 32

  datatype SpanType = NoType | TestType | FixtureType | FixtureUseType | WaitType | RunType | UnknownType
  datatype Class = Test | Fixture | FixtureUse | Wait | Session | Other

  /** A span as the trace carries it; an unreadable one has no usable timestamps. */
  datatype RawSpan = Unreadable
                   | Span(id: nat, parent: nat, name: string, spanType: SpanType, polls: bool,
                          workerAttribute: string, workerInName: string)

  datatype Entry = Entry(id: nat, parent: nat, name: string, class_: Class,
                         workerAttribute: string, workerInName: string, worker: string)

  datatype Coverage = Coverage(total: nat, classified: nat, unclassified: nat)

  /** Where a span's row goes. A phase of a test is counted, not shown as a row. */
  datatype Bucket = TestRows | PhaseSpans | WaitRows | FixtureRows | FixtureUseRows | SessionSpans | Unclassified

  function SpanClass(spanType: SpanType, polls: bool): (c: Class)
    ensures c == Wait <==> spanType == WaitType || (spanType == NoType && polls)
    ensures c == Other <==> spanType == UnknownType || (spanType == NoType && !polls)
    ensures c == Test <==> spanType == TestType
    ensures c == Session <==> spanType == RunType
  {
    match spanType
    case TestType => Test
    case FixtureType => Fixture
    case FixtureUseType => FixtureUse
    case WaitType => Wait
    case RunType => Session
    case NoType => if polls then Wait else Other
    case UnknownType => Other
  }

  function EntryOf(s: RawSpan): Option<Entry> {
    if s.Unreadable? then None
    else Some(Entry(s.id, s.parent, s.name, SpanClass(s.spanType, s.polls), s.workerAttribute, s.workerInName, ""))
  }

  predicate IsPhase(name: string) {
    Strings.EndsWith(name, "::setup") || Strings.EndsWith(name, "::call") || Strings.EndsWith(name, "::teardown")
  }

  function BucketOf(e: Entry): Bucket {
    match e.class_
    case Test => if IsPhase(e.name) then PhaseSpans else TestRows
    case Wait => WaitRows
    case Fixture => FixtureRows
    case FixtureUse => FixtureUseRows
    case Session => SessionSpans
    case Other => Unclassified
  }

  function Rows(entries: seq<Entry>, b: Bucket): seq<Entry> {
    Filter((e: Entry) => BucketOf(e) == b, entries)
  }

  function Readable(spans: seq<RawSpan>): seq<Entry> {
    if spans == [] then []
    else Readable(Front(spans)) + (if Last(spans).Unreadable? then [] else [EntryOf(Last(spans)).value])
  }

  predicate Carries(s: RawSpan, e: Entry) {
    && s.Span? && e.id == s.id && e.parent == s.parent && e.name == s.name
    && e.workerAttribute == s.workerAttribute && e.workerInName == s.workerInName && e.worker == ""
  }

  /** The entries are the readable spans in the trace's order, with what they carry. */
  lemma {:induction false} EntriesCarrySpans(spans: seq<RawSpan>, k: nat)
    requires k < |Readable(spans)|
    ensures exists i :: && 0 <= i < |spans| && Carries(spans[i], Readable(spans)[k])
                        && k == Count((s: RawSpan) => s.Span?, spans[..i])
  {
    var front, last := Front(spans), Last(spans);
    ReadableOnes(front);
    if k < |Readable(front)| {
      EntriesCarrySpans(front, k);
      var i :| && 0 <= i < |front| && Carries(front[i], Readable(front)[k])
               && k == Count((s: RawSpan) => s.Span?, front[..i]);
      assert front[..i] == spans[..i] && spans[i] == front[i];
    } else {
      assert spans[..|front|] == front && spans[|front|] == last;
    }
  }

  lemma {:induction false} ReadableOnes(spans: seq<RawSpan>)
    ensures |Readable(spans)| == Count((s: RawSpan) => s.Span?, spans)
  {
    if spans != [] {
      ReadableOnes(Front(spans));
    }
  }

  lemma {:induction false} ReadableCount(spans: seq<RawSpan>)
    ensures |Readable(spans)| <= |spans|
    ensures |Readable(spans)| == |spans| <==> forall i :: 0 <= i < |spans| ==> spans[i].Span?
  {
    if spans != [] {
      ReadableCount(Front(spans));
    }
  }

  lemma RowsStep(entries: seq<Entry>, b: Bucket)
    requires entries != []
    ensures Rows(entries, b) ==
            Rows(Front(entries), b) + if BucketOf(Last(entries)) == b then [Last(entries)] else []
  {
  }

  lemma {:induction false} UnclassifiedAreOther(entries: seq<Entry>)
    ensures |Rows(entries, Unclassified)| == Count((e: Entry) => e.class_ == Other, entries)
  {
    if entries != [] {
      UnclassifiedAreOther(Front(entries));
      RowsStep(entries, Unclassified);
    }
  }

  function RowCount(entries: seq<Entry>): nat {
    |Rows(entries, TestRows)| + |Rows(entries, PhaseSpans)| + |Rows(entries, WaitRows)|
    + |Rows(entries, FixtureRows)| + |Rows(entries, FixtureUseRows)| + |Rows(entries, SessionSpans)|
    + |Rows(entries, Unclassified)|
  }

  /** Every entry is in exactly one bucket: nothing is lost and nothing counted twice. */
  lemma {:induction false} BucketsConserveSpans(entries: seq<Entry>)
    ensures RowCount(entries) == |entries|
  {
    if entries != [] {
      BucketsConserveSpans(Front(entries));
      RowsStep(entries, TestRows);
      RowsStep(entries, PhaseSpans);
      RowsStep(entries, WaitRows);
      RowsStep(entries, FixtureRows);
      RowsStep(entries, FixtureUseRows);
      RowsStep(entries, SessionSpans);
      RowsStep(entries, Unclassified);
    }
  }

  /** A span that says nothing a table shows: its type is unknown, or it has none and does
      not poll. */
  predicate SaysNothing(s: RawSpan) {
    s.Span? && (s.spanType == UnknownType || (s.spanType == NoType && !s.polls))
  }

  predicate Polls(s: RawSpan) {
    s.Span? && (s.spanType == WaitType || (s.spanType == NoType && s.polls))
  }

  /** The rows of a bucket are the readable spans that belong there, counted in the trace. */
  lemma {:induction false} RowsOfTrace(spans: seq<RawSpan>, b: Bucket, belongs: RawSpan -> bool)
    requires forall s :: belongs(s) <==> s.Span? && BucketOf(EntryOf(s).value) == b
    ensures |Rows(Readable(spans), b)| == Count(belongs, spans)
  {
    if spans != [] {
      var before, last := Readable(Front(spans)), Last(spans);
      RowsOfTrace(Front(spans), b, belongs);
      assert belongs(last) <==> last.Span? && BucketOf(EntryOf(last).value) == b;
      if last.Span? {
        var entry := EntryOf(last).value;
        assert Readable(spans) == before + [entry];
        assert Front(before + [entry]) == before;
        RowsStep(before + [entry], b);
      } else {
        assert Readable(spans) == before;
      }
    }
  }

  predicate OfType(s: RawSpan, spanType: SpanType) {
    s.Span? && s.spanType == spanType
  }

  const PHASES := {"::setup", "::call", "::teardown"}

  /** A phase of a test repeats the test under a longer name. */
  predicate ShowsPhase(s: RawSpan) {
    OfType(s, TestType) && exists suffix :: suffix in PHASES && Strings.EndsWith(s.name, suffix)
  }

  predicate ShowsTest(s: RawSpan) {
    OfType(s, TestType) && forall suffix :: suffix in PHASES ==> !Strings.EndsWith(s.name, suffix)
  }

  lemma PhaseByName(name: string)
    ensures IsPhase(name) <==> exists suffix :: suffix in PHASES && Strings.EndsWith(name, suffix)
  {
    assert "::setup" in PHASES && "::call" in PHASES && "::teardown" in PHASES;
  }

  /** Over the raw trace: the unclassified rows are exactly the spans that say nothing, the
      wait rows exactly the waits and the untyped polls. */
  lemma UnclassifiedAndWaits(spans: seq<RawSpan>)
    ensures |Rows(Readable(spans), Unclassified)| == Count(SaysNothing, spans)
    ensures |Rows(Readable(spans), WaitRows)| == Count(Polls, spans)
  {
    RowsOfTrace(spans, Unclassified, SaysNothing);
    RowsOfTrace(spans, WaitRows, Polls);
  }

  /** The tests over the raw trace: a test span is a row, or a phase that is only counted
      when its name says so. */
  lemma TestsAndPhases(spans: seq<RawSpan>)
    ensures |Rows(Readable(spans), TestRows)| == Count(ShowsTest, spans)
    ensures |Rows(Readable(spans), PhaseSpans)| == Count(ShowsPhase, spans)
  {
    forall s: RawSpan | s.Span?
      ensures ShowsTest(s) <==> BucketOf(EntryOf(s).value) == TestRows
      ensures ShowsPhase(s) <==> BucketOf(EntryOf(s).value) == PhaseSpans
    {
      PhaseByName(s.name);
    }
    RowsOfTrace(spans, TestRows, ShowsTest);
    RowsOfTrace(spans, PhaseSpans, ShowsPhase);
  }

  predicate ShowsFixture(s: RawSpan) {
    OfType(s, FixtureType)
  }

  predicate ShowsFixtureUse(s: RawSpan) {
    OfType(s, FixtureUseType)
  }

  predicate ShowsRun(s: RawSpan) {
    OfType(s, RunType)
  }

  /** Fixtures, their uses and runs go by their type. */
  lemma TypedRows(spans: seq<RawSpan>)
    ensures |Rows(Readable(spans), FixtureRows)| == Count(ShowsFixture, spans)
    ensures |Rows(Readable(spans), FixtureUseRows)| == Count(ShowsFixtureUse, spans)
    ensures |Rows(Readable(spans), SessionSpans)| == Count(ShowsRun, spans)
  {
    RowsOfTrace(spans, FixtureRows, ShowsFixture);
    RowsOfTrace(spans, FixtureUseRows, ShowsFixtureUse);
    RowsOfTrace(spans, SessionSpans, ShowsRun);
  }

  const ALL_BUCKETS := {TestRows, PhaseSpans, WaitRows, FixtureRows, FixtureUseRows, SessionSpans, Unclassified}

  method ReadEntries(spans: seq<RawSpan>) returns (entries: seq<Entry>)
    ensures entries == Readable(spans)
  {
    entries := [];
    for i := 0 to |spans|
      invariant entries == Readable(spans[..i])
    {
      assert Front(spans[..i + 1]) == spans[..i];
      var entry := EntryOf(spans[i]);
      if entry.Some? {
        entries := entries + [entry.value];
      }
    }
    assert spans[..|spans|] == spans;
  }

  lemma NoRows(buckets: map<Bucket, seq<Entry>>)
    requires buckets == map[TestRows := [], PhaseSpans := [], WaitRows := [], FixtureRows := [],
                            FixtureUseRows := [], SessionSpans := [], Unclassified := []]
    ensures buckets.Keys == ALL_BUCKETS && forall b :: b in ALL_BUCKETS ==> buckets[b] == []
  {
  }

  method FillBuckets(entries: seq<Entry>) returns (buckets: map<Bucket, seq<Entry>>)
    ensures buckets.Keys == ALL_BUCKETS
    ensures forall b :: b in ALL_BUCKETS ==> buckets[b] == Rows(entries, b)
  {
    buckets := map[TestRows := [], PhaseSpans := [], WaitRows := [], FixtureRows := [],
                   FixtureUseRows := [], SessionSpans := [], Unclassified := []];
    NoRows(buckets);
    for i := 0 to |entries|
      invariant buckets.Keys == ALL_BUCKETS
      invariant forall b :: b in ALL_BUCKETS ==> buckets[b] == Rows(entries[..i], b)
    {
      assert Front(entries[..i + 1]) == entries[..i];
      var bucket := BucketOf(entries[i]);
      forall b ensures Rows(entries[..i + 1], b) == Rows(entries[..i], b) + if bucket == b then [entries[i]] else [] {
        RowsStep(entries[..i + 1], b);
      }
      buckets := buckets[bucket := buckets[bucket] + [entries[i]]];
    }
    assert entries[..|entries|] == entries;
  }

  /** The classification as a whole. Every readable span lands in one bucket, and the
      classified and unclassified counts add up to the spans exactly when every span
      was readable, which is what the caller checks before it shows a table. */
  method Classify(spans: seq<RawSpan>) returns (coverage: Coverage, buckets: map<Bucket, seq<Entry>>)
    ensures coverage.total == |spans|
    ensures buckets.Keys == ALL_BUCKETS
    ensures forall b :: b in ALL_BUCKETS ==> buckets[b] == Rows(Readable(spans), b)
    ensures coverage.classified + coverage.unclassified == coverage.total <==>
              forall i :: 0 <= i < |spans| ==> spans[i].Span?
    ensures coverage.unclassified == |buckets[Unclassified]|
    ensures coverage.classified == |buckets[TestRows]| + |buckets[PhaseSpans]| + |buckets[WaitRows]|
                                   + |buckets[FixtureRows]| + |buckets[FixtureUseRows]| + |buckets[SessionSpans]|
  {
    var entries := ReadEntries(spans);
    buckets := FillBuckets(entries);
    var classified, unclassified := 0, 0;
    for i := 0 to |entries|
      invariant classified + unclassified == i
      invariant unclassified == Count((e: Entry) => e.class_ == Other, entries[..i])
    {
      assert Front(entries[..i + 1]) == entries[..i];
      if entries[i].class_ == Other {
        unclassified := unclassified + 1;
      } else {
        classified := classified + 1;
      }
    }
    assert entries[..|entries|] == entries;
    ReadableCount(spans);
    BucketsConserveSpans(entries);
    UnclassifiedAreOther(entries);
    coverage := Coverage(|spans|, classified, unclassified);
  }

  // -- workers --------------------------------------------------------------------------

  /** The worker a span names itself: its attribute first, else its name. */
  function OwnWorker(e: Entry): string {
    if e.workerAttribute != "" then e.workerAttribute else e.workerInName
  }

  /** The span a parent id resolves to: the last one with that id; 0 resolves to none. */
  function IndexOf(es: seq<Entry>, id: nat): Option<nat> {
    if es == [] || id == 0 then None
    else if Last(es).id == id then Some(|es| - 1)
    else IndexOf(Front(es), id)
  }

  /** A span names its worker by its attribute, and by its name only without one. */
  lemma OwnWorkerExactly(e: Entry, worker: string)
    requires worker != ""
    ensures OwnWorker(e) == worker <==> e.workerAttribute == worker || (e.workerAttribute == "" && e.workerInName == worker)
  {
  }

  /** A parent id resolves exactly to the last span of the trace that carries it. */
  lemma {:induction false} ResolvesExactlyWhen(es: seq<Entry>, id: nat, k: nat)
    ensures IndexOf(es, id) == Some(k) <==>
            && id != 0 && k < |es| && es[k].id == id && forall j :: k < j < |es| ==> es[j].id != id
  {
    if es != [] && id != 0 && Last(es).id != id {
      ResolvesExactlyWhen(Front(es), id, k);
      assert forall j :: 0 <= j < |es| - 1 ==> Front(es)[j] == es[j];
    }
  }

  lemma {:induction false} IndexInRange(es: seq<Entry>, id: nat)
    ensures IndexOf(es, id).Some? ==> IndexOf(es, id).value < |es| && es[IndexOf(es, id).value].id == id
  {
    if es != [] && id != 0 && Last(es).id != id {
      IndexInRange(Front(es), id);
    }
  }

  /** The ancestor `hops` steps up; the span itself is zero hops away. */
  function Ancestor(es: seq<Entry>, i: nat, hops: nat): Option<nat> {
    if hops == 0 then if i < |es| then Some(i) else None
    else
      var below := Ancestor(es, i, hops - 1);
      if below.None? || below.value >= |es| then None else IndexOf(es, es[below.value].parent)
  }

  /** The ancestor `hops` steps up exists and names a worker. */
  predicate NamesWorker(es: seq<Entry>, i: nat, hops: nat) {
    var a := Ancestor(es, i, hops);
    a.Some? && a.value < |es| && OwnWorker(es[a.value]) != ""
  }

  /** `worker` is that of the nearest ancestor within the bound that names one. */
  predicate NearestWorker(es: seq<Entry>, i: nat, bound: nat, worker: string) {
    if exists hops :: 0 <= hops <= bound && NamesWorker(es, i, hops) then
      exists hops :: 0 <= hops <= bound && NamesWorker(es, i, hops)
                     && (forall fewer :: 0 <= fewer < hops ==> !NamesWorker(es, i, fewer))
                     && worker == OwnWorker(es[Ancestor(es, i, hops).value])
    else worker == ""
  }

  /** A lookup does not depend on which spans already have their worker filled in. */
  predicate SameSpans(a: seq<Entry>, b: seq<Entry>) {
    |a| == |b| && forall i :: 0 <= i < |a| ==> b[i] == a[i].(worker := b[i].worker)
  }

  lemma {:induction false} SameIndex(a: seq<Entry>, b: seq<Entry>, id: nat)
    requires SameSpans(a, b)
    ensures IndexOf(a, id) == IndexOf(b, id)
  {
    if a != [] && id != 0 && Last(a).id != id {
      SameIndex(Front(a), Front(b), id);
    }
  }

  lemma {:induction false} AncestorOnceGone(es: seq<Entry>, i: nat, hops: nat, more: nat)
    requires hops <= more && Ancestor(es, i, hops).None?
    ensures Ancestor(es, i, more).None?
  {
    if hops < more {
      AncestorOnceGone(es, i, hops, more - 1);
    }
  }

  lemma ParentIs(es: seq<Entry>, now: seq<Entry>, i: nat, hops: nat, current: nat)
    requires SameSpans(es, now) && current < |es| && Ancestor(es, i, hops) == Some(current)
    ensures Ancestor(es, i, hops + 1) == IndexOf(now, now[current].parent)
    ensures IndexOf(now, now[current].parent).Some? ==> IndexOf(now, now[current].parent).value < |es|
  {
    SameIndex(es, now, now[current].parent);
    IndexInRange(es, es[current].parent);
  }

  /** The climb of one span: up to 32 parents, until one names a worker or none is left. */
  method Climb(entries: array<Entry>, ghost es: seq<Entry>, i: nat) returns (worker: string)
    requires i < entries.Length && SameSpans(es, entries[..])
    ensures NearestWorker(es, i, MAX_HOPS, worker)
  {
    ghost var now := entries[..];
    worker := OwnWorker(entries[i]);
    var current, depth := i, 0;
    while worker == "" && depth < MAX_HOPS
      invariant 0 <= depth <= MAX_HOPS && current < entries.Length
      invariant Ancestor(es, i, depth) == Some(current) && worker == OwnWorker(es[current])
      invariant forall fewer :: 0 <= fewer < depth ==> !NamesWorker(es, i, fewer)
      decreases MAX_HOPS - depth
    {
      ParentIs(es, now, i, depth, current);
      var parent := IndexOf(entries[..], entries[current].parent);
      if parent.None? {
        forall hops | 0 <= hops <= MAX_HOPS ensures !NamesWorker(es, i, hops) {
          if hops > depth {
            AncestorOnceGone(es, i, depth + 1, hops);
          }
        }
        return;
      }
      current, depth := parent.value, depth + 1;
      worker := OwnWorker(entries[current]);
      assert now[current] == entries[current];
    }
    assert worker != "" ==> NamesWorker(es, i, depth);
  }

  /** The in-place pass: worker fields are filled one span after the other, and what
      is already filled does not change what is found. */
  method ResolveWorkers(entries: array<Entry>)
    modifies entries
    ensures SameSpans(old(entries[..]), entries[..])
    ensures forall i :: 0 <= i < entries.Length ==> NearestWorker(old(entries[..]), i, 32, entries[i].worker)
  {
    ghost var es := entries[..];
    for i := 0 to entries.Length
      invariant SameSpans(es, entries[..])
      invariant forall j :: 0 <= j < i ==> NearestWorker(es, j, MAX_HOPS, entries[j].worker)
    {
      var worker := Climb(entries, es, i);
      entries[i] := entries[i].(worker := worker);
    }
  }

  /** At most one worker is the nearest one. */
  lemma NearestWorkerUnique(es: seq<Entry>, i: nat, bound: nat, a: string, b: string)
    requires NearestWorker(es, i, bound, a) && NearestWorker(es, i, bound, b)
    ensures a == b
  {
  }

  // -- the bound never matters for small traces ---------------------------------------------

  lemma {:induction false} AncestorInRange(es: seq<Entry>, i: nat, hops: nat)
    ensures Ancestor(es, i, hops).Some? ==> Ancestor(es, i, hops).value < |es|
  {
    if hops > 0 {
      AncestorInRange(es, i, hops - 1);
      if Ancestor(es, i, hops - 1).Some? {
        IndexInRange(es, es[Ancestor(es, i, hops - 1).value].parent);
      }
    }
  }

  /** From equal ancestors the walk goes on equally: a cycle repeats itself. */
  lemma {:induction false} AncestorRepeats(es: seq<Entry>, i: nat, a: nat, b: nat, more: nat)
    requires Ancestor(es, i, a) == Ancestor(es, i, b)
    ensures Ancestor(es, i, a + more) == Ancestor(es, i, b + more)
  {
    if more > 0 {
      AncestorRepeats(es, i, a, b, more - 1);
    }
  }

  function Range(n: nat): (r: set<int>)
    ensures |r| == n && forall k: int :: k in r <==> 0 <= k < n
  {
    if n == 0 then {} else Range(n - 1) + {n - 1}
  }

  lemma Pigeonhole(f: seq<int>, n: nat)
    requires |f| > n && forall k :: 0 <= k < |f| ==> 0 <= f[k] < n
    ensures exists a, b :: 0 <= a < b < |f| && f[a] == f[b]
  {
    var image := set x | x in f;
    assert Range(n) == image + (Range(n) - image);
    if Distinct(f) {
      DistinctCardinality(f);
    }
  }

  /** However long a chain or cycle of parents is, the nearest named worker is less
      than one hop per span away. */
  lemma {:induction false} NearestIsWithinTheTrace(es: seq<Entry>, i: nat, hops: nat)
    requires NamesWorker(es, i, hops)
    ensures exists near :: 0 <= near <= |es| && near <= hops && NamesWorker(es, i, near)
    decreases hops
  {
    if hops > |es| {
      forall k | 0 <= k <= hops ensures Ancestor(es, i, k).Some? && Ancestor(es, i, k).value < |es| {
        if Ancestor(es, i, k).None? {
          AncestorOnceGone(es, i, k, hops);
        }
        AncestorInRange(es, i, k);
      }
      var chain: seq<int> := seq(hops + 1, k requires 0 <= k <= hops && Ancestor(es, i, k).Some? => Ancestor(es, i, k).value);
      Pigeonhole(chain, |es|);
      var a, b :| 0 <= a < b < |chain| && chain[a] == chain[b];
      AncestorRepeats(es, i, a, b, hops - b);
      assert NamesWorker(es, i, a + (hops - b));
      NearestIsWithinTheTrace(es, i, a + (hops - b));
    }
  }

  /** In a trace of at most 32 spans the hop bound loses nothing: an empty worker means
      that no ancestor at any distance names one. */
  lemma BoundIsEnoughForSmallTraces(es: seq<Entry>, i: nat, worker: string, hops: nat)
    requires |es| <= MAX_HOPS && NearestWorker(es, i, MAX_HOPS, worker)
    requires NamesWorker(es, i, hops)
    ensures worker != ""
  {
    NearestIsWithinTheTrace(es, i, hops);
    var near :| 0 <= near <= |es| && near <= hops && NamesWorker(es, i, near);
  }
}

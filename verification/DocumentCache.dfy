/** The capture view's document cache: least recently used first, entries expire,
    stores evict from the front while the total is over the cap. */
module DocumentCache {
  import opened Common
  import opened Sequences

  const CACHE_MAX_BYTES := 64 * 1024 * 1024
  const CACHE_TTL := 600
  const NEGATIVE_CACHE_TTL := 30
  const INCOMPLETE_CACHE_TTL := 60

  type Key = string

  datatype DocState = DocOk | NotIndexed | Busy | Missing | TooLarge | DocUnknown
  datatype Document = Document(captureId: Key, state: DocState, transient: bool, sessionSpan: bool, size: nat, body: string)

  datatype Entry = Entry(key: Key, expiresAt: int, document: Document)

  /** Ten minutes only for an answer that is final: not transient, not about to clear,
      and with its session span when it is a trace. */
  function Ttl(d: Document): (ttl: int)
    ensures 0 < ttl <= CACHE_TTL
    ensures ttl == CACHE_TTL <==>
            !d.transient && d.state !in {NotIndexed, Busy, Missing} && (d.state == DocOk ==> d.sessionSpan)
    ensures ttl == INCOMPLETE_CACHE_TTL <==> !d.transient && d.state == DocOk && !d.sessionSpan
  {
    if d.state in {NotIndexed, Busy, Missing} || d.transient then NEGATIVE_CACHE_TTL
    else if d.state == DocOk && !d.sessionSpan then INCOMPLETE_CACHE_TTL
    else CACHE_TTL
  }

  predicate DistinctKeys(entries: seq<Entry>) {
    forall i, j :: 0 <= i < j < |entries| ==> entries[i].key != entries[j].key
  }

  function TotalSize(entries: seq<Entry>): nat {
    if entries == [] then 0 else entries[0].document.size + TotalSize(entries[1..])
  }

  /** All entries but the key's, in order. */
  function Without(entries: seq<Entry>, key: Key): (r: seq<Entry>)
    ensures forall e :: e in r <==> e in entries && e.key != key
    ensures |r| <= |entries|
  {
    if entries == [] then []
    else if entries[0].key == key then Without(entries[1..], key)
    else [entries[0]] + Without(entries[1..], key)
  }

  lemma {:induction false} WithoutKeepsDistinct(entries: seq<Entry>, key: Key)
    requires DistinctKeys(entries)
    ensures DistinctKeys(Without(entries, key))
  {
    if entries != [] {
      WithoutKeepsDistinct(entries[1..], key);
      forall e | e in Without(entries[1..], key) ensures e.key != entries[0].key {
        var i :| 0 <= i < |entries[1..]| && entries[1..][i] == e;
        assert entries[i + 1] == e;
      }
    }
  }

  predicate Holds(entries: seq<Entry>, key: Key) {
    exists i :: 0 <= i < |entries| && entries[i].key == key
  }

  function Find(entries: seq<Entry>, key: Key): Option<Entry> {
    if entries == [] then None else if entries[0].key == key then Some(entries[0]) else Find(entries[1..], key)
  }

  lemma {:induction false} FindIs(entries: seq<Entry>, key: Key)
    ensures Find(entries, key).Some? ==> Find(entries, key).value in entries && Find(entries, key).value.key == key
    ensures Find(entries, key).Some? <==> Holds(entries, key)
  {
    if entries != [] && entries[0].key != key {
      FindIs(entries[1..], key);
      if Holds(entries[1..], key) {
        var i :| 0 <= i < |entries[1..]| && entries[1..][i].key == key;
        assert entries[i + 1].key == key;
      }
    }
  }

  /** A fresh hit becomes the most recent entry; an expired one is dropped. */
  function Touch(entries: seq<Entry>, key: Key, now: int): seq<Entry> {
    var entry := Find(entries, key);
    if entry.None? then entries
    else if now < entry.value.expiresAt then Without(entries, key) + [entry.value]
    else Without(entries, key)
  }

  predicate FreshHit(entries: seq<Entry>, key: Key, now: int) {
    Find(entries, key).Some? && now < Find(entries, key).value.expiresAt
  }

  /** Drop from the front while the total is over the cap and more than one entry is left. */
  function Evict(entries: seq<Entry>): seq<Entry> {
    if |entries| > 1 && TotalSize(entries) > CACHE_MAX_BYTES then Evict(entries[1..]) else entries
  }

  /** The entries by recency once the new one is in, before eviction. */
  function Recency(entries: seq<Entry>, d: Document, now: int): seq<Entry> {
    Without(entries, d.captureId) + [Entry(d.captureId, now + Ttl(d), d)]
  }

  function StoreDocument(entries: seq<Entry>, d: Document, now: int): seq<Entry> {
    Evict(Recency(entries, d, now))
  }

  // -- what eviction keeps --------------------------------------------------------------

  predicate Bounded(entries: seq<Entry>) {
    TotalSize(entries) <= 64 * 1024 * 1024 || |entries| <= 1
  }

  /** The survivors are the longest suffix of the recency order that fits the cap, or
      the newest entry alone: nothing is dropped unless the total was over the cap. */
  lemma {:induction false} EvictKeepsLongestSuffix(entries: seq<Entry>)
    ensures var n := |entries| - |Evict(entries)|;
            && 0 <= n && Evict(entries) == entries[n..]
            && Bounded(Evict(entries))
            && forall k :: 0 <= k < n ==> TotalSize(entries[k..]) > 64 * 1024 * 1024
    ensures entries != [] ==> Evict(entries) != [] && Last(Evict(entries)) == Last(entries)
  {
    if |entries| > 1 && TotalSize(entries) > CACHE_MAX_BYTES {
      EvictKeepsLongestSuffix(entries[1..]);
      var n := |entries[1..]| - |Evict(entries[1..])|;
      assert entries[1..][n..] == entries[n + 1..];
      forall k | 0 <= k < n + 1 ensures TotalSize(entries[k..]) > CACHE_MAX_BYTES {
        if k > 0 {
          assert entries[1..][k - 1..] == entries[k..];
        } else {
          assert entries[0..] == entries;
        }
      }
    } else {
      assert entries[0..] == entries;
    }
  }

  lemma {:induction false} TotalSizeAppend(entries: seq<Entry>, e: Entry)
    ensures TotalSize(entries + [e]) == TotalSize(entries) + e.document.size
    ensures TotalSize([e]) == e.document.size
  {
    assert [e][1..] == [];
    if entries == [] {
      assert [] + [e] == [e] && [e][1..] == [];
    } else {
      assert (entries + [e])[1..] == entries[1..] + [e];
      TotalSizeAppend(entries[1..], e);
    }
  }

  lemma {:induction false} WithoutFindIsLighter(entries: seq<Entry>, key: Key)
    requires DistinctKeys(entries) && Find(entries, key).Some?
    ensures TotalSize(Without(entries, key)) + Find(entries, key).value.document.size == TotalSize(entries)
    ensures |Without(entries, key)| == |entries| - 1
  {
    if entries[0].key == key {
      assert forall e :: e in entries[1..] ==> e.key != key;
      WithoutAbsent(entries[1..], key);
    } else {
      WithoutFindIsLighter(entries[1..], key);
      assert Without(entries, key)[1..] == Without(entries[1..], key);
    }
  }

  lemma {:induction false} WithoutAbsent(entries: seq<Entry>, key: Key)
    requires forall e :: e in entries ==> e.key != key
    ensures Without(entries, key) == entries
  {
    if entries != [] {
      assert entries[0] in entries;
      WithoutAbsent(entries[1..], key);
    }
  }

  /** A cache any sequence of reads and stores can produce. */
  predicate Sound(entries: seq<Entry>) {
    && DistinctKeys(entries) && Bounded(entries)
    && forall i :: 0 <= i < |entries| ==> entries[i].document.captureId == entries[i].key
  }

  lemma TouchKeepsSound(entries: seq<Entry>, key: Key, now: int)
    requires Sound(entries)
    ensures Sound(Touch(entries, key, now))
    ensures FreshHit(entries, key, now) ==> Last(Touch(entries, key, now)).key == key
    ensures FreshHit(Touch(entries, key, now), key, now) <==> FreshHit(entries, key, now)
    ensures forall e :: e in Touch(entries, key, now) <==> e in entries && (e.key != key || now < e.expiresAt)
  {
    FindIs(entries, key);
    WithoutKeepsDistinct(entries, key);
    var rest := Without(entries, key);
    forall i | 0 <= i < |rest| ensures rest[i].document.captureId == rest[i].key {
      assert rest[i] in entries;
    }
    var entry := Find(entries, key);
    if entry.Some? {
      WithoutFindIsLighter(entries, key);
      TotalSizeAppend(rest, entry.value);
      FindAppended(rest, entry.value);
      FindIs(rest, key);
    }
  }

  lemma {:induction false} FindAppended(entries: seq<Entry>, e: Entry)
    requires forall x :: x in entries ==> x.key != e.key
    ensures Find(entries + [e], e.key) == Some(e)
  {
    if entries != [] {
      assert entries[0] in entries;
      assert (entries + [e])[1..] == entries[1..] + [e];
      FindAppended(entries[1..], e);
    } else {
      assert ([] + [e])[0] == e;
    }
  }

  /** What survives beside the stored entry was there before, under another key. */
  lemma OlderSurvive(entries: seq<Entry>, d: Document, now: int)
    ensures var stored := StoreDocument(entries, d, now);
            && stored != [] && Last(stored) == Entry(d.captureId, now + Ttl(d), d)
            && forall x :: x in Front(stored) ==> x in Without(entries, d.captureId)
  {
    var recency, stored := Recency(entries, d, now), StoreDocument(entries, d, now);
    EvictKeepsLongestSuffix(recency);
    var n := |recency| - |stored|;
    forall i | 0 <= i < |Front(stored)| ensures Front(stored)[i] in Without(entries, d.captureId) {
      assert Front(stored)[i] == recency[n + i];
    }
  }

  /** Storing keeps the cache sound, never evicts the stored entry, and keeps the
      longest suffix of the recency order that fits. */
  lemma StoreKeepsSound(entries: seq<Entry>, d: Document, now: int)
    requires Sound(entries)
    ensures Sound(StoreDocument(entries, d, now))
    ensures StoreDocument(entries, d, now) != []
    ensures Last(StoreDocument(entries, d, now)) == Entry(d.captureId, now + Ttl(d), d)
    ensures Find(StoreDocument(entries, d, now), d.captureId) == Some(Entry(d.captureId, now + Ttl(d), d))
    ensures forall e :: e in StoreDocument(entries, d, now) && e.key != d.captureId ==> e in entries
  {
    var recency := Recency(entries, d, now);
    var stored := StoreDocument(entries, d, now);
    EvictKeepsLongestSuffix(recency);
    WithoutKeepsDistinct(entries, d.captureId);
    var n := |recency| - |stored|;
    forall i | 0 <= i < |stored| ensures stored[i].document.captureId == stored[i].key {
      assert stored[i] == recency[n + i];
      if n + i < |recency| - 1 {
        assert recency[n + i] in Without(entries, d.captureId);
      }
    }
    OlderSurvive(entries, d, now);
    FindAppended(Front(stored), Last(stored));
    assert stored == Front(stored) + [Last(stored)];
  }

  // -- what a reader is served -----------------------------------------------------------

  datatype Op = Read(key: Key, now: int) | Put(doc: Document, now: int)

  function After(ops: seq<Op>): seq<Entry> {
    if ops == [] then []
    else
      match Last(ops)
      case Read(key, now) => Touch(After(Front(ops)), key, now)
      case Put(doc, now) => StoreDocument(After(Front(ops)), doc, now)
  }

  /** The last document stored for a capture, and when. */
  function LastPut(ops: seq<Op>, key: Key): Option<(Document, int)> {
    if ops == [] then None
    else if Last(ops).Put? && Last(ops).doc.captureId == key then Some((Last(ops).doc, Last(ops).now))
    else LastPut(Front(ops), key)
  }

  lemma FindMember(entries: seq<Entry>, e: Entry)
    requires DistinctKeys(entries)
    ensures e in entries <==> Find(entries, e.key) == Some(e)
  {
    FindIs(entries, e.key);
  }

  lemma {:induction false} CachedIsLastPut(ops: seq<Op>, key: Key)
    ensures Sound(After(ops))
    ensures Find(After(ops), key).Some? ==>
              && LastPut(ops, key).Some?
              && var (doc, at) := LastPut(ops, key).value; Find(After(ops), key).value == Entry(key, at + Ttl(doc), doc)
  {
    if ops != [] {
      var before, op := After(Front(ops)), Last(ops);
      CachedIsLastPut(Front(ops), key);
      match op {
        case Read(read, now) => TouchKeepsSound(before, read, now);
        case Put(doc, now) => StoreKeepsSound(before, doc, now);
      }
      if Find(After(ops), key).Some? && !(op.Put? && op.doc.captureId == key) {
        FindIs(After(ops), key);
        var e := Find(After(ops), key).value;
        assert e in before;
        FindMember(before, e);
      }
    }
  }

  /** Whatever was read, stored and evicted, a reader is served the last document stored for
      its capture, and not for long: an answer that is expected to clear less than 30
      seconds after it was stored, a trace without its session span less than a minute,
      anything less than ten. */
  lemma ServedDocumentsAreRecent(ops: seq<Op>, key: Key, now: int)
    requires FreshHit(After(ops), key, now)
    ensures LastPut(ops, key).Some?
    ensures var (doc, at) := LastPut(ops, key).value;
            && Find(After(ops), key).Some? && Find(After(ops), key).value.document == doc
            && now < at + 600
            && (doc.transient || doc.state in {NotIndexed, Busy, Missing} ==> now < at + 30)
            && (doc.state == DocOk && !doc.sessionSpan ==> now < at + 60)
  {
    CachedIsLastPut(ops, key);
  }

  // -- as the program runs it -----------------------------------------------------------

  class Cache {
    var entries: seq<Entry>

    constructor ()
      ensures entries == []
    {
      entries := [];
    }

    /** The locked lookup. */
    method Lookup(key: Key, now: int) returns (hit: Option<Document>)
      modifies this
      ensures entries == Touch(old(entries), key, now)
      ensures hit == if FreshHit(old(entries), key, now) then Some(Find(old(entries), key).value.document) else None
    {
      var entry := Find(entries, key);
      if entry.None? {
        return None;
      }
      entries := Without(entries, key);
      if now < entry.value.expiresAt {
        entries := entries + [entry.value];
        return Some(entry.value.document);
      }
      return None;
    }

    /** The locked store, with its eviction loop. The loop keeps a running total. */
    method Store(d: Document, now: int)
      modifies this
      ensures entries == StoreDocument(old(entries), d, now)
    {
      entries := Without(entries, d.captureId) + [Entry(d.captureId, now + Ttl(d), d)];
      var total: int := TotalSize(entries);
      ghost var recency := entries;
      while total > CACHE_MAX_BYTES && |entries| > 1
        invariant total == TotalSize(entries)
        invariant Evict(entries) == Evict(recency)
        decreases |entries|
      {
        total := total - entries[0].document.size;
        entries := entries[1..];
      }
    }
  }
}

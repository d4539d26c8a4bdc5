/** One run's JUnit files read into one outcome per test: ci_observe_trends.py. */
module JUnitOutcomes {
  import opened Common
  import opened Sequences

  datatype TestKey = TestKey(suite: string, test: string)

  /** A testcase element; a test without a name or with <skipped> did not run. */
  datatype Element = Element(key: TestKey, named: bool, skipped: bool, failed: bool, duration: Option<int>)

  /** A file that is no XML or has no testsuite spoils the whole run. */
  datatype File = Unreadable | Readable(elements: seq<Element>)

  datatype Case = Case(key: TestKey, passed: bool, duration: Option<int>)

  predicate Ran(e: Element) {
    e.named && !e.skipped
  }

  function Longer(a: Option<int>, b: Option<int>): Option<int> {
    if b.Some? && (a.None? || b.value > a.value) then b else a
  }

  function Outcome(elements: seq<Element>, key: TestKey): (c: Option<Case>)
    ensures c.Some? ==> c.value.key == key
  {
    if elements == [] then None
    else
      var before, e := Outcome(Front(elements), key), Last(elements);
      if e.key != key || !Ran(e) then before
      else if before.None? then Some(Case(key, !e.failed, e.duration))
      else Some(Case(key, before.value.passed && !e.failed, Longer(before.value.duration, e.duration)))
  }

  /** The tests in order of first appearance. */
  function Order(elements: seq<Element>): (keys: seq<TestKey>)
    ensures forall key :: key in keys <==> Outcome(elements, key).Some?
  {
    if elements == [] then []
    else
      var before, e := Order(Front(elements)), Last(elements);
      if !Ran(e) || e.key in before then before else before + [e.key]
  }

  lemma {:induction false} OrderIsDistinct(elements: seq<Element>)
    ensures Distinct(Order(elements))
  {
    if elements != [] {
      OrderIsDistinct(Front(elements));
    }
  }

  /** One outcome per test that ran: it passed exactly when no copy of it failed, and its
      duration is the longest one known. */
  lemma {:induction false} OutcomeMeaning(elements: seq<Element>, key: TestKey)
    ensures var c := Outcome(elements, key);
            && (c.Some? <==> exists e :: e in elements && Ran(e) && e.key == key)
            && (c.Some? ==>
                  && (c.value.passed <==> forall e :: e in elements && Ran(e) && e.key == key ==> !e.failed)
                  && LongestKnown(elements, key, c.value.duration))
  {
    if elements != [] {
      OutcomeMeaning(Front(elements), key);
      assert elements == Front(elements) + [Last(elements)];
    }
  }

  predicate LongestKnown(elements: seq<Element>, key: TestKey, duration: Option<int>) {
    && (duration.Some? ==> exists e :: e in elements && Ran(e) && e.key == key && e.duration == duration)
    && (forall e :: e in elements && Ran(e) && e.key == key && e.duration.Some? ==>
          duration.Some? && e.duration.value <= duration.value)
  }

  /** All elements of the files, or None when one of them cannot be read. */
  function Elements(files: seq<File>): Option<seq<Element>> {
    if files == [] then Some([])
    else
      var before := Elements(Front(files));
      if before.None? || Last(files).Unreadable? then None else Some(before.value + Last(files).elements)
  }

  predicate InFile(f: File, e: Element) {
    f.Readable? && e in f.elements
  }

  lemma {:induction false} ReadableFiles(files: seq<File>)
    ensures Elements(files).Some? <==> forall f :: f in files ==> f.Readable?
  {
    if files != [] {
      var front, last := Front(files), Last(files);
      ReadableFiles(front);
      assert files == front + [last];
      assert last in files;
      assert forall f :: f in front ==> f in files;
    }
  }

  lemma {:induction false} ElementsMeaning(files: seq<File>, e: Element)
    requires Elements(files).Some?
    ensures e in Elements(files).value <==> exists f :: f in files && InFile(f, e)
  {
    if files != [] {
      var front, last := Front(files), Last(files);
      ElementsMeaning(front, e);
      assert files == front + [last];
      assert (exists f :: f in files && InFile(f, e)) <==> (exists f :: f in front && InFile(f, e)) || InFile(last, e);
    }
  }

  lemma {:induction false} UnreadablePrefix(files: seq<File>, i: nat)
    requires i <= |files| && Elements(files[..i]).None?
    ensures Elements(files).None?
    decreases |files|
  {
    if i < |files| {
      assert Front(files)[..i] == files[..i];
      UnreadablePrefix(Front(files), i);
    } else {
      assert files[..i] == files;
    }
  }

  /** The two dictionaries of the loop hold the outcomes of the elements read so far. */
  ghost predicate HoldsOutcomes(merged: map<TestKey, Case>, order: seq<TestKey>, elements: seq<Element>) {
    && order == Order(elements)
    && (forall key :: key in merged <==> key in order)
    && (forall key :: key in merged ==> Some(merged[key]) == Outcome(elements, key))
  }

  lemma SkipStep(merged: map<TestKey, Case>, order: seq<TestKey>, elements: seq<Element>, e: Element)
    requires HoldsOutcomes(merged, order, elements) && !Ran(e)
    ensures HoldsOutcomes(merged, order, elements + [e])
  {
    assert Front(elements + [e]) == elements;
  }

  lemma FirstStep(merged: map<TestKey, Case>, order: seq<TestKey>, elements: seq<Element>, e: Element)
    requires HoldsOutcomes(merged, order, elements) && Ran(e) && e.key !in merged
    ensures HoldsOutcomes(merged[e.key := Case(e.key, !e.failed, e.duration)], order + [e.key], elements + [e])
  {
    assert Front(elements + [e]) == elements;
    assert Outcome(elements, e.key).None?;
  }

  lemma RepeatStep(merged: map<TestKey, Case>, order: seq<TestKey>, elements: seq<Element>, e: Element, entry: Case)
    requires HoldsOutcomes(merged, order, elements) && Ran(e) && e.key in merged
    requires entry == Case(e.key, merged[e.key].passed && !e.failed, Longer(merged[e.key].duration, e.duration))
    ensures HoldsOutcomes(merged[e.key := entry], order, elements + [e])
  {
    assert Front(elements + [e]) == elements;
  }

  /** `parse_junit_outcomes`: nested loops over files and testcases, one pass. */
  method ParseOutcomes(files: seq<File>) returns (cases: Option<seq<Case>>)
    ensures cases.None? <==> Elements(files).None?
    ensures cases.Some? ==> var elements, order := Elements(files).value, Order(Elements(files).value);
              |cases.value| == |order| && forall k :: 0 <= k < |order| ==> Some(cases.value[k]) == Outcome(elements, order[k])
  {
    var merged: map<TestKey, Case> := map[];
    var order: seq<TestKey> := [];
    for i := 0 to |files|
      invariant Elements(files[..i]).Some?
      invariant HoldsOutcomes(merged, order, Elements(files[..i]).value)
    {
      assert Front(files[..i + 1]) == files[..i];
      if files[i].Unreadable? {
        UnreadablePrefix(files, i + 1);
        return None;
      }
      ghost var before := Elements(files[..i]).value;
      merged, order := MergeFile(files[i].elements, merged, order, before);
    }
    assert files[..|files|] == files;
    return Some(seq(|order|, k requires 0 <= k < |order| => merged[order[k]]));
  }

  method MergeFile(elements: seq<Element>, merged0: map<TestKey, Case>, order0: seq<TestKey>, ghost before: seq<Element>)
    returns (merged: map<TestKey, Case>, order: seq<TestKey>)
    requires HoldsOutcomes(merged0, order0, before)
    ensures HoldsOutcomes(merged, order, before + elements)
  {
    merged, order := merged0, order0;
    assert before + elements[..0] == before;
    for k := 0 to |elements|
      invariant HoldsOutcomes(merged, order, before + elements[..k])
    {
      assert before + elements[..k + 1] == (before + elements[..k]) + [elements[k]];
      var e := elements[k];
      if !e.named || e.skipped {
        SkipStep(merged, order, before + elements[..k], e);
        continue;
      }
      if e.key !in merged {
        FirstStep(merged, order, before + elements[..k], e);
        merged := merged[e.key := Case(e.key, !e.failed, e.duration)];
        order := order + [e.key];
        continue;
      }
      var entry := merged[e.key];
      if e.failed {
        entry := entry.(passed := false);
      }
      if e.duration.Some? && (entry.duration.None? || e.duration.value > entry.duration.value) {
        entry := entry.(duration := e.duration);
      }
      assert merged[e.key].key == e.key by {
        assert Outcome(before + elements[..k], e.key) == Some(merged[e.key]);
      }
      RepeatStep(merged, order, before + elements[..k], e, entry);
      merged := merged[e.key := entry];
    }
    assert elements[..|elements|] == elements;
  }
}

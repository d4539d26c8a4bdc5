/** The poll as the program runs it: a loop over the sources, a dictionary of what
    they found, one upsert loop, one prune. */
module RegistryPoll {
  import opened Common
  import opened Sequences
  import opened CaptureRegistry

  predicate AllSources(answers: map<Source, Answer>) {
    Prometheus in answers && Loki in answers && Info in answers
  }

  class Registry {
    var sources: map<Source, SourceRow>
    var captures: map<string, CaptureRow>

    constructor ()
      ensures State() == EMPTY
    {
      sources, captures := map[], map[];
    }

    ghost function State(): Tables
      reads this
    {
      Tables(sources, captures)
    }

    method Record(source: Source, answer: Answer, now: int)
      modifies `sources
      ensures sources == CaptureRegistry.Record(old(sources), source, answer, now)
    {
      var known := source in sources;
      if answer.Failed? {
        var row := if known then sources[source] else SourceRow(None, None, true);
        sources := sources[source := row.(failing := true)];
      } else {
        var start := if known && sources[source].coverageFrom.Some? then sources[source].coverageFrom
                     else Some(now - (RETENTION - DAY));
        sources := sources[source := SourceRow(start, Some(now), false)];
      }
    }

    static method Collect(found: map<string, Found>, answer: Answer) returns (merged: map<string, Found>)
      ensures merged == Merge(found, answer)
    {
      merged := found;
      if answer.Complete? {
        for i := 0 to |answer.captures|
          invariant merged == MergeFound(found, answer.captures[..i])
        {
          var c := answer.captures[i];
          assert Front(answer.captures[..i + 1]) == answer.captures[..i];
          var entry := if c.id in merged then merged[c.id] else Found(c.id, map[], false);
          merged := merged[c.id := Found(c.id, entry.identity + c.identity, entry.fromInfo || c.fromInfo)];
        }
        assert answer.captures[..|answer.captures|] == answer.captures;
      }
    }

    /** The dictionary's values, in some order. */
    static method Values(found: map<string, Found>) returns (entries: seq<Found>)
      requires KeyedById(found)
      ensures Lists(entries, found)
    {
      entries := [];
      var todo := found.Keys;
      while todo != {}
        invariant todo <= found.Keys
        invariant Lists(entries, found - todo)
      {
        var id :| id in todo;
        assert found - (todo - {id}) == (found - todo)[id := found[id]];
        ListsOneMore(entries, found - todo, found[id], found - (todo - {id}));
        entries, todo := entries + [found[id]], todo - {id};
      }
      assert found - todo == found;
    }

    method UpsertAll(entries: seq<Found>, now: int)
      modifies `captures
      ensures captures == Upsert(old(captures), entries, now)
    {
      for i := 0 to |entries|
        invariant captures == Upsert(old(captures), entries[..i], now)
      {
        assert Front(entries[..i + 1]) == entries[..i];
        captures := captures[entries[i].id := Upserted(captures, entries[i], now)];
      }
      assert entries[..|entries|] == entries;
    }

    /** One poll is its five steps, with the merged answers upserted once each. */
    method Refresh(now: int, answers: map<Source, Answer>) returns (ghost entries: seq<Found>)
      requires AllSources(answers)
      modifies this
      ensures Lists(entries, MergedAnswers(answers))
      ensures State() == ApplyAll(old(State()), PollSteps(answers, entries, now))
    {
      var found: map<string, Found> := map[];
      ghost var start := State();
      Record(Prometheus, answers[Prometheus], now);
      found := Collect(found, answers[Prometheus]);
      Record(Loki, answers[Loki], now);
      found := Collect(found, answers[Loki]);
      Record(Info, answers[Info], now);
      found := Collect(found, answers[Info]);
      MergedKeysMatch(answers);
      var rows := Values(found);
      UpsertAll(rows, now);
      entries := rows;
      captures := Prune(captures, now);
      PollStepsUnfold(start, answers, entries, now);
    }
  }

  predicate KeyedById(found: map<string, Found>) {
    forall id :: id in found ==> found[id].id == id
  }

  lemma ListsOneMore(entries: seq<Found>, before: map<string, Found>, f: Found, after: map<string, Found>)
    requires Lists(entries, before) && f.id !in before && after == before[f.id := f]
    ensures Lists(entries + [f], after)
  {
    forall id | id in after ensures exists i :: 0 <= i < |entries + [f]| && (entries + [f])[i].id == id {
      if id == f.id {
        assert (entries + [f])[|entries|].id == id;
      } else {
        var i :| 0 <= i < |entries| && entries[i].id == id;
        assert (entries + [f])[i].id == id;
      }
    }
  }

  lemma {:induction false} MergeKeysMatch(found: map<string, Found>, captures: seq<Found>)
    requires KeyedById(found)
    ensures KeyedById(MergeFound(found, captures))
  {
    if captures != [] {
      MergeKeysMatch(found, Front(captures));
    }
  }

  lemma MergeAnswerKeysMatch(found: map<string, Found>, answer: Answer)
    requires KeyedById(found)
    ensures KeyedById(Merge(found, answer))
  {
    if answer.Complete? {
      MergeKeysMatch(found, answer.captures);
    }
  }

  lemma MergedKeysMatch(answers: map<Source, Answer>)
    requires AllSources(answers)
    ensures KeyedById(MergedAnswers(answers))
  {
    var first := Merge(map[], answers[Prometheus]);
    MergeAnswerKeysMatch(map[], answers[Prometheus]);
    MergeAnswerKeysMatch(first, answers[Loki]);
    MergeAnswerKeysMatch(Merge(first, answers[Loki]), answers[Info]);
  }

  lemma PollStepsUnfold(t: Tables, answers: map<Source, Answer>, entries: seq<Found>, now: int)
    requires AllSources(answers)
    ensures var done := ApplyAll(t, PollSteps(answers, entries, now));
            && done.sources == CaptureRegistry.Record(
                                 CaptureRegistry.Record(
                                   CaptureRegistry.Record(t.sources, Prometheus, answers[Prometheus], now),
                                   Loki, answers[Loki], now),
                                 Info, answers[Info], now)
            && done.captures == Prune(Upsert(t.captures, entries, now), now)
  {
    var steps := PollSteps(answers, entries, now);
    forall n | 0 <= n < 5 ensures ApplyAll(t, steps[..n + 1]) == Apply(ApplyAll(t, steps[..n]), steps[n]) {
      assert Front(steps[..n + 1]) == steps[..n];
    }
    assert steps[..5] == steps && steps[..0] == [];
    var one := ApplyAll(t, steps[..1]);
    assert one == Apply(t, steps[0]);
    var two := ApplyAll(t, steps[..2]);
    assert two == Apply(one, steps[1]);
    var three := ApplyAll(t, steps[..3]);
    assert three == Apply(two, steps[2]);
    var four := ApplyAll(t, steps[..4]);
    assert four == Apply(three, steps[3]);
  }
}

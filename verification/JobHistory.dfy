/** The job history of workflow-exporter.py: an upsert guarded by the run attempt, fed
    by two independent discovery paths, pruned by retention, and a counter of completed
    runs. */
module JobHistory {
  import opened Common
  import opened Sequences

  /** One row; `completed` is what its status column says, `payload` stands for every
      other stored column. */
  datatype Row = Row(id: int, attempt: int, completed: bool, payload: string)

  type Table = map<int, Row>

  /** What happens to the table. An offered row may be `uncounted`: its processing raised
      after the row was stored and before the counter. */
  datatype Event = Offered(row: Row, uncounted: bool) | Pruned(ids: set<int>)

  /** Insert, or overwrite a row of an older attempt. */
  predicate Accepts(table: Table, row: Row) {
    row.id !in table || table[row.id].attempt < row.attempt
  }

  function Upsert(table: Table, row: Row): Table {
    if Accepts(table, row) then table[row.id := row] else table
  }

  /** `_needs_upsert`: whether the job details of a run are worth fetching. */
  predicate NeedsUpsert(table: Table, id: int, attempt: int) {
    id !in table || table[id].attempt < attempt
  }

  // -- rows without pruning --------------------------------------------------------

  function UpsertAll(table: Table, rows: seq<Row>): Table {
    if rows == [] then table else Upsert(UpsertAll(table, Front(rows)), Last(rows))
  }

  /** Position k is the first record of the id's highest attempt. */
  predicate FirstOfHighest(rows: seq<Row>, k: int) {
    && 0 <= k < |rows|
    && (forall j :: 0 <= j < |rows| && rows[j].id == rows[k].id ==> rows[j].attempt <= rows[k].attempt)
    && (forall j :: 0 <= j < k && rows[j].id == rows[k].id ==> rows[j].attempt < rows[k].attempt)
  }

  /** An id is stored exactly when some record carried it. */
  lemma {:induction false} StoredExactlyWhenSeen(rows: seq<Row>, id: int)
    ensures id in UpsertAll(map[], rows) <==> exists j :: 0 <= j < |rows| && rows[j].id == id
  {
    if rows != [] {
      StoredExactlyWhenSeen(Front(rows), id);
      assert rows == Front(rows) + [Last(rows)];
      if j :| 0 <= j < |rows| && rows[j].id == id && j < |rows| - 1 {
        assert Front(rows)[j].id == id;
      }
    }
  }

  /** Whatever the order of arrival, a stored row is the first record of the highest
      attempt seen for its id. */
  lemma {:induction false} StoredIsFirstOfHighest(rows: seq<Row>, id: int) returns (k: int)
    requires id in UpsertAll(map[], rows)
    ensures FirstOfHighest(rows, k) && rows[k].id == id && UpsertAll(map[], rows)[id] == rows[k]
  {
    var front, row := Front(rows), Last(rows);
    var before := UpsertAll(map[], front);
    if id in before {
      k := StoredIsFirstOfHighest(front, id);
      assert forall j :: 0 <= j < |front| ==> rows[j] == front[j];
      if id == row.id && Accepts(before, row) {
        assert forall j :: 0 <= j < |front| && front[j].id == id ==> front[j].attempt <= front[k].attempt;
        k := |front|;
      }
    } else {
      k := |front|;
      StoredExactlyWhenSeen(front, id);
      assert forall j :: 0 <= j < |front| ==> rows[j] == front[j];
    }
  }

  /** The first record of an id's highest attempt is unique, so the two lemmas above
      determine the whole table. */
  lemma HighestIsStored(rows: seq<Row>, k: int)
    requires FirstOfHighest(rows, k)
    ensures rows[k].id in UpsertAll(map[], rows)
    ensures UpsertAll(map[], rows)[rows[k].id] == rows[k]
  {
    StoredExactlyWhenSeen(rows, rows[k].id);
    var m := StoredIsFirstOfHighest(rows, rows[k].id);
    assert m == k;
  }

  // -- any history, pruning included --------------------------------------------------

  function Replay(events: seq<Event>): Table {
    if events == [] then map[]
    else
      match Last(events)
      case Offered(row, _) => Upsert(Replay(Front(events)), row)
      case Pruned(ids) => Replay(Front(events)) - ids
  }

  /** The rows offered for an id since retention last removed it, oldest first. */
  function RowsSince(events: seq<Event>, id: int): seq<Row> {
    if events == [] then []
    else
      var before := RowsSince(Front(events), id);
      match Last(events)
      case Offered(row, _) => if row.id == id then before + [row] else before
      case Pruned(ids) => if id in ids then [] else before
  }

  /** For each id the table is the upsert of the rows offered since its last pruning, so
      the lemmas above hold of every id in every history. */
  lemma {:induction false} ReplayOfOneRun(events: seq<Event>, id: int)
    ensures id in Replay(events) <==> id in UpsertAll(map[], RowsSince(events, id))
    ensures id in Replay(events) ==> Replay(events)[id] == UpsertAll(map[], RowsSince(events, id))[id]
  {
    if events != [] {
      ReplayOfOneRun(Front(events), id);
      var before, last := RowsSince(Front(events), id), Last(events);
      if Offers(last, id) {
        UpsertOneMore(before, last.row);
      } else if Prunes(last, id) {
        assert RowsSince(events, id) == [];
      } else {
        assert RowsSince(events, id) == before;
      }
    }
  }

  lemma UpsertOneMore(rows: seq<Row>, row: Row)
    ensures UpsertAll(map[], rows + [row]) == Upsert(UpsertAll(map[], rows), row)
  {
    assert Front(rows + [row]) == rows;
  }

  /** Event n offers a row that is stored when its turn comes. */
  predicate AcceptedAt(events: seq<Event>, n: int)
    requires 0 <= n < |events|
  {
    events[n].Offered? && Accepts(Replay(events[..n]), events[n].row)
  }

  /** And the counter sees it. */
  predicate CountedAt(events: seq<Event>, n: int)
    requires 0 <= n < |events|
  {
    AcceptedAt(events, n) && !events[n].uncounted
  }

  /** The completed counter: one increment per accepted row whose processing came through. */
  function Counter(events: seq<Event>): nat {
    if events == [] then 0
    else Counter(Front(events)) + (if CountedAt(events, |events| - 1) then 1 else 0)
  }

  function CountedSet(events: seq<Event>): set<int> {
    set n | 0 <= n < |events| && CountedAt(events, n)
  }

  lemma PrefixAcceptedAt(events: seq<Event>, n: int, m: int)
    requires 0 <= n < m <= |events|
    ensures AcceptedAt(events[..m], n) <==> AcceptedAt(events, n)
    ensures CountedAt(events[..m], n) <==> CountedAt(events, n)
  {
    assert events[..m][..n] == events[..n];
  }

  lemma CountedSetStep(events: seq<Event>)
    requires events != []
    ensures CountedSet(events) == CountedSet(Front(events)) +
            if CountedAt(events, |events| - 1) then {|events| - 1} else {}
    ensures |events| - 1 !in CountedSet(Front(events))
  {
    forall n | 0 <= n < |events| - 1 ensures n in CountedSet(Front(events)) <==> n in CountedSet(events) {
      PrefixAcceptedAt(events, n, |events| - 1);
    }
  }

  /** The counter is the number of accepted rows whose processing did not raise. */
  lemma {:induction false} CounterCountsAccepted(events: seq<Event>)
    ensures Counter(events) == |CountedSet(events)|
  {
    if events != [] {
      CounterCountsAccepted(Front(events));
      CountedSetStep(events);
    } else {
      assert CountedSet(events) == {};
    }
  }

  predicate Prunes(e: Event, id: int) {
    e.Pruned? && id in e.ids
  }

  predicate Offers(e: Event, id: int) {
    e.Offered? && e.row.id == id
  }

  /** When retention last removed an id, -1 for never. */
  function LastPrune(events: seq<Event>, id: int): (p: int)
    ensures -1 <= p < |events|
    ensures p >= 0 ==> Prunes(events[p], id)
    ensures forall q :: p < q < |events| ==> !Prunes(events[q], id)
  {
    if events == [] then -1
    else if Prunes(Last(events), id) then |events| - 1
    else LastPrune(Front(events), id)
  }

  lemma {:induction false} AcceptsExactlyWhen(events: seq<Event>, row: Row)
    ensures Accepts(Replay(events), row) <==>
            forall j :: LastPrune(events, row.id) < j < |events| && Offers(events[j], row.id) ==>
              events[j].row.attempt < row.attempt
  {
    if events != [] {
      var front, last := Front(events), Last(events);
      AcceptsExactlyWhen(front, row);
      if Offers(last, row.id) {
        AcceptsExactlyWhen(front, last.row);
      }
      assert forall j :: 0 <= j < |front| ==> events[j] == front[j];
    }
  }

  /** A record is accepted exactly when it beats every earlier record of its id since
      retention last removed the id. */
  lemma AcceptedExactlyWhen(events: seq<Event>, n: int)
    requires 0 <= n < |events| && events[n].Offered?
    ensures AcceptedAt(events, n) <==>
            forall j :: LastPrune(events[..n], events[n].row.id) < j < n && Offers(events[j], events[n].row.id) ==>
              events[j].row.attempt < events[n].row.attempt
  {
    AcceptsExactlyWhen(events[..n], events[n].row);
    assert forall j :: 0 <= j < n ==> events[..n][j] == events[j];
  }

  /** Some pruning between m and n removed the id, and nothing offered after it and before
      n outbids the attempt. */
  predicate ForgottenBetween(events: seq<Event>, m: int, n: int, id: int, attempt: int)
    requires 0 <= m < n < |events|
  {
    exists p :: m < p < n && Prunes(events[p], id) &&
                (forall j :: p < j < n && Offers(events[j], id) ==> events[j].row.attempt < attempt)
  }

  /** An (id, attempt) that was offered once is accepted again exactly when the id was
      pruned in between and not outbid since. */
  lemma AcceptedAgainExactlyWhen(events: seq<Event>, m: int, n: int)
    requires 0 <= m < n < |events| && events[m].Offered? && events[n].Offered?
    requires (events[m].row.id, events[m].row.attempt) == (events[n].row.id, events[n].row.attempt)
    ensures AcceptedAt(events, n) <==> ForgottenBetween(events, m, n, events[n].row.id, events[n].row.attempt)
  {
    var id := events[n].row.id;
    AcceptedExactlyWhen(events, n);
    var last := LastPrune(events[..n], id);
    assert forall j :: 0 <= j < n ==> events[..n][j] == events[j];
    if AcceptedAt(events, n) {
      assert Offers(events[m], id);
      assert m < last && Prunes(events[last], id);
    }
  }

  /** So it counts twice exactly when it is counted, then forgotten, then counted without
      a raise. */
  lemma CountsTwiceExactlyWhen(events: seq<Event>, m: int, n: int)
    requires 0 <= m < n < |events| && CountedAt(events, m) && events[n].Offered?
    requires (events[m].row.id, events[m].row.attempt) == (events[n].row.id, events[n].row.attempt)
    ensures CountedAt(events, n) <==>
            !events[n].uncounted && ForgottenBetween(events, m, n, events[n].row.id, events[n].row.attempt)
  {
    AcceptedAgainExactlyWhen(events, m, n);
  }

  ghost predicate NeverPruned(events: seq<Event>, id: int) {
    forall p :: 0 <= p < |events| ==> !Prunes(events[p], id)
  }

  /** A run that retention never removes increments the counter at most once for each
      attempt, whatever happens to every other run. */
  lemma EachAttemptCountsOnce(events: seq<Event>, m: int, n: int)
    requires 0 <= m < n < |events| && AcceptedAt(events, m) && AcceptedAt(events, n)
    requires NeverPruned(events, events[n].row.id)
    ensures (events[m].row.id, events[m].row.attempt) != (events[n].row.id, events[n].row.attempt)
  {
    if (events[m].row.id, events[m].row.attempt) == (events[n].row.id, events[n].row.attempt) {
      AcceptedAgainExactlyWhen(events, m, n);
    }
  }

  /** A run whose processing raised after its row was stored is never counted for that
      attempt, not even when it is found again. */
  lemma RaisedAttemptIsNeverCounted(events: seq<Event>, m: int, n: int)
    requires 0 <= m < |events| && 0 <= n < |events|
    requires AcceptedAt(events, m) && events[m].uncounted && CountedAt(events, n)
    requires NeverPruned(events, events[m].row.id)
    ensures (events[m].row.id, events[m].row.attempt) != (events[n].row.id, events[n].row.attempt)
  {
    if (events[m].row.id, events[m].row.attempt) == (events[n].row.id, events[n].row.attempt) {
      if m < n {
        EachAttemptCountsOnce(events, m, n);
      } else if n < m {
        EachAttemptCountsOnce(events, n, m);
      }
    }
  }

  /** All rows ever offered, in order. */
  function OfferedRows(events: seq<Event>): seq<Row> {
    if events == [] then []
    else OfferedRows(Front(events)) + (if Last(events).Offered? then [Last(events).row] else [])
  }

  function RowsOf(rows: seq<Row>, id: int): seq<Row> {
    if rows == [] then []
    else RowsOf(Front(rows), id) + (if Last(rows).id == id then [Last(rows)] else [])
  }

  lemma {:induction false} SameRunSameFold(rows: seq<Row>, id: int)
    ensures var own := RowsOf(rows, id);
            && (id in UpsertAll(map[], rows) <==> id in UpsertAll(map[], own))
            && (id in UpsertAll(map[], rows) ==> UpsertAll(map[], rows)[id] == UpsertAll(map[], own)[id])
  {
    if rows != [] {
      SameRunSameFold(Front(rows), id);
      UpsertOneMore(RowsOf(Front(rows), id), Last(rows));
      if Last(rows).id != id {
        assert RowsOf(rows, id) == RowsOf(Front(rows), id);
      }
    }
  }

  lemma {:induction false} NothingForgotten(events: seq<Event>, id: int)
    requires NeverPruned(events, id)
    ensures RowsSince(events, id) == RowsOf(OfferedRows(events), id)
  {
    if events != [] {
      assert forall p :: 0 <= p < |Front(events)| ==> Front(events)[p] == events[p];
      NothingForgotten(Front(events), id);
      assert !Prunes(Last(events), id);
      var rows := OfferedRows(Front(events));
      if Last(events).Offered? {
        assert Front(rows + [Last(events).row]) == rows;
      } else {
        assert OfferedRows(events) == rows;
      }
    }
  }

  /** For a run that retention never removes the table is the upsert of everything offered,
      however much else was pruned. */
  lemma UnprunedRunKeepsItsFold(events: seq<Event>, id: int)
    requires NeverPruned(events, id)
    ensures var all := UpsertAll(map[], OfferedRows(events));
            (id in Replay(events) <==> id in all) && (id in all ==> Replay(events)[id] == all[id])
  {
    ReplayOfOneRun(events, id);
    NothingForgotten(events, id);
    SameRunSameFold(OfferedRows(events), id);
  }
}

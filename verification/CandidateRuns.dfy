/** The runs a rollup pass parses, grouped from the exporter's job rows, and which source
    SHA each of them is rolled up under (ci_observe_trends.py). */
module CandidateRuns {
  import opened Common
  import opened Sequences

  /** A stored row: `run` is the run id in its URL, `jobUrl` a URL of a job in the run. */
  datatype JobRow = JobRow(id: int, run: Option<int>, jobUrl: bool, e2e: bool, sha: string, created: Option<int>)

  datatype Candidate = Candidate(sha: string, created: Option<int>)

  /** A run's own row beats any other, then a row with a SHA beats one without. */
  function Score(row: JobRow, run: int): nat {
    (if row.id == run then 2 else 0) + (if row.sha != "" then 1 else 0)
  }

  /** The first SHA of the run's rows, of all of them or of the e2e rows. */
  function FirstSha(rows: seq<JobRow>, run: int, e2eOnly: bool): string {
    if rows == [] then ""
    else
      var before, row := FirstSha(Front(rows), run, e2eOnly), Last(rows);
      if before == "" && row.run == Some(run) && (row.e2e || !e2eOnly) then row.sha else before
  }

  /** The row that stands for the run: the first of the highest score. */
  function Parent(rows: seq<JobRow>, run: int): (p: Option<JobRow>)
    ensures p.Some? ==> p.value in rows && p.value.run == Some(run) && !p.value.jobUrl
  {
    if rows == [] then None
    else
      var before, row := Parent(Front(rows), run), Last(rows);
      assert rows == Front(rows) + [row];
      if row.run == Some(run) && !row.jobUrl && (before.None? || Score(row, run) > Score(before.value, run)) then Some(row)
      else before
  }

  function ParentSha(rows: seq<JobRow>, run: int): string {
    if Parent(rows, run).Some? then Parent(rows, run).value.sha else ""
  }

  function SourceSha(rows: seq<JobRow>, run: int): string {
    if ParentSha(rows, run) != "" then ParentSha(rows, run)
    else if FirstSha(rows, run, true) != "" then FirstSha(rows, run, true)
    else FirstSha(rows, run, false)
  }

  function Earlier(a: Option<int>, b: Option<int>): Option<int> {
    if b.Some? && (a.None? || b.value < a.value) then b else a
  }

  function Created(rows: seq<JobRow>, run: int): Option<int> {
    if rows == [] then None
    else
      var before, row := Created(Front(rows), run), Last(rows);
      if row.run == Some(run) && row.e2e then Earlier(before, row.created) else before
  }

  predicate IsCandidate(rows: seq<JobRow>, run: int) {
    exists row :: row in rows && row.run == Some(run) && row.e2e
  }

  // -- which SHA wins -------------------------------------------------------------------

  lemma {:induction false} FirstShaMeaning(rows: seq<JobRow>, run: int, e2eOnly: bool)
    ensures var sha := FirstSha(rows, run, e2eOnly);
            && (sha == "" <==> forall row :: row in rows && row.run == Some(run) && (row.e2e || !e2eOnly) ==> row.sha == "")
            && (sha != "" ==> exists row :: row in rows && row.run == Some(run) && row.sha == sha)
  {
    if rows != [] {
      FirstShaMeaning(Front(rows), run, e2eOnly);
      assert rows == Front(rows) + [Last(rows)];
    }
  }

  /** An empty SHA never wins over a non-empty one: a run is rolled up without a SHA
      exactly when none of its rows has one, and otherwise under a SHA of one of its rows. */
  lemma EmptyShaNeverWins(rows: seq<JobRow>, run: int)
    ensures SourceSha(rows, run) == "" <==> forall row :: row in rows && row.run == Some(run) ==> row.sha == ""
    ensures SourceSha(rows, run) != "" ==>
              exists row :: row in rows && row.run == Some(run) && row.sha == SourceSha(rows, run)
  {
    FirstShaMeaning(rows, run, true);
    FirstShaMeaning(rows, run, false);
  }

  lemma {:induction false} ParentBeatsAll(rows: seq<JobRow>, run: int, row: JobRow)
    requires row in rows && row.run == Some(run) && !row.jobUrl
    ensures Parent(rows, run).Some? && Score(Parent(rows, run).value, run) >= Score(row, run)
  {
    var front, last := Front(rows), Last(rows);
    assert rows == front + [last];
    if row in front {
      ParentBeatsAll(front, run, row);
    }
  }

  /** The run's own row decides when it has a SHA, wherever the row stands: row ids are
      unique, so no ordering of the rows changes the answer. */
  lemma OwnRowDecides(rows: seq<JobRow>, run: int, own: JobRow)
    requires own in rows && own.id == run && own.run == Some(run) && !own.jobUrl && own.sha != ""
    requires forall a, b :: a in rows && b in rows && a.id == b.id ==> a == b
    ensures SourceSha(rows, run) == own.sha
  {
    ParentBeatsAll(rows, run, own);
    var p := Parent(rows, run).value;
    assert p.id == own.id;
  }

  // -- when the order of the rows decides -------------------------------------------------

  /** A row with the run's own URL, and the run's own row among them. */
  predicate RunUrl(row: JobRow, run: int) {
    row.run == Some(run) && !row.jobUrl
  }

  predicate Own(row: JobRow, run: int) {
    RunUrl(row, run) && row.id == run
  }

  /** The four ways a row can carry the deciding SHA, the first that any row meets counts.
      An own row without a SHA stands in the way of the other rows with the run's URL. */
  predicate Meets(rows: seq<JobRow>, run: int, row: JobRow, level: nat) {
    && row.run == Some(run) && row.sha != ""
    && match level
       case 0 => Own(row, run)
       case 1 => RunUrl(row, run) && forall r :: r in rows ==> !Own(r, run)
       case 2 => row.e2e
       case _ => true
  }

  predicate Met(rows: seq<JobRow>, run: int, level: nat) {
    exists r :: r in rows && Meets(rows, run, r, level)
  }

  /** The deciding rows: those of the first level that is met. */
  predicate Decides(rows: seq<JobRow>, run: int, row: JobRow) {
    || Meets(rows, run, row, 0)
    || (!Met(rows, run, 0) && Meets(rows, run, row, 1))
    || (!Met(rows, run, 0) && !Met(rows, run, 1) && Meets(rows, run, row, 2))
    || (!Met(rows, run, 0) && !Met(rows, run, 1) && !Met(rows, run, 2) && Meets(rows, run, row, 3))
  }

  lemma {:induction false} FirstShaOfHead(rows: seq<JobRow>, run: int, e2eOnly: bool)
    requires rows != [] && rows[0].run == Some(run) && rows[0].sha != "" && (rows[0].e2e || !e2eOnly)
    ensures FirstSha(rows, run, e2eOnly) == rows[0].sha
  {
    if |rows| > 1 {
      assert Front(rows)[0] == rows[0];
      FirstShaOfHead(Front(rows), run, e2eOnly);
    } else {
      assert Front(rows) == [];
    }
  }

  lemma {:induction false} ParentIsHead(rows: seq<JobRow>, run: int)
    requires rows != [] && RunUrl(rows[0], run)
    requires forall r :: r in rows && RunUrl(r, run) ==> Score(r, run) <= Score(rows[0], run)
    ensures Parent(rows, run) == Some(rows[0])
  {
    if |rows| > 1 {
      assert Front(rows)[0] == rows[0];
      assert rows == Front(rows) + [Last(rows)];
      assert forall r :: r in Front(rows) ==> r in rows;
      assert Last(rows) in rows;
      ParentIsHead(Front(rows), run);
    } else {
      assert Front(rows) == [];
    }
  }

  /** A parent with a SHA is a deciding row of the first two levels. */
  lemma ParentDecides(rows: seq<JobRow>, run: int)
    requires ParentSha(rows, run) != ""
    ensures Met(rows, run, 0) || Met(rows, run, 1)
    ensures Parent(rows, run).value in rows && Decides(rows, run, Parent(rows, run).value)
  {
    var p := Parent(rows, run).value;
    if own :| own in rows && Own(own, run) {
      ParentBeatsAll(rows, run, own);
      assert Meets(rows, run, p, 0);
    } else {
      assert Meets(rows, run, p, 1);
    }
  }

  /** A deciding row that comes first gives the SHA. */
  lemma FirstDecidingRowWins(rows: seq<JobRow>, run: int)
    requires rows != [] && Decides(rows, run, rows[0])
    ensures SourceSha(rows, run) == rows[0].sha
  {
    assert rows[0] in rows;
    if Meets(rows, run, rows[0], 0) || (!Met(rows, run, 0) && Meets(rows, run, rows[0], 1)) {
      ParentIsHead(rows, run);
    } else {
      if ParentSha(rows, run) != "" {
        ParentDecides(rows, run);
      }
      if Meets(rows, run, rows[0], 2) {
        FirstShaOfHead(rows, run, true);
      } else {
        FirstShaMeaning(rows, run, true);
        assert FirstSha(rows, run, true) == "";
        FirstShaOfHead(rows, run, false);
      }
    }
  }

  lemma {:induction false} FirstShaHolder(rows: seq<JobRow>, run: int, e2eOnly: bool) returns (row: JobRow)
    requires FirstSha(rows, run, e2eOnly) != ""
    ensures row in rows && row.run == Some(run) && (row.e2e || !e2eOnly) && row.sha == FirstSha(rows, run, e2eOnly)
  {
    assert rows == Front(rows) + [Last(rows)];
    if FirstSha(Front(rows), run, e2eOnly) != "" {
      row := FirstShaHolder(Front(rows), run, e2eOnly);
    } else {
      row := Last(rows);
    }
  }

  /** Whatever the order, the SHA is that of a deciding row. */
  lemma SourceShaIsDeciding(rows: seq<JobRow>, run: int) returns (row: JobRow)
    requires SourceSha(rows, run) != ""
    ensures row in rows && Decides(rows, run, row) && row.sha == SourceSha(rows, run)
  {
    if ParentSha(rows, run) != "" {
      row := Parent(rows, run).value;
      ParentDecides(rows, run);
    } else if FirstSha(rows, run, true) != "" {
      row := FirstShaHolder(rows, run, true);
      NothingAbove(rows, run);
      assert Meets(rows, run, row, 2);
    } else {
      row := FirstShaHolder(rows, run, false);
      NothingAbove(rows, run);
      FirstShaMeaning(rows, run, true);
      assert !Met(rows, run, 2);
      assert Meets(rows, run, row, 3);
    }
  }

  /** Without a parent SHA the first two levels are not met. */
  lemma NothingAbove(rows: seq<JobRow>, run: int)
    requires ParentSha(rows, run) == ""
    ensures !Met(rows, run, 0) && !Met(rows, run, 1)
  {
    if r :| r in rows && Meets(rows, run, r, 0) {
      ParentBeatsAll(rows, run, r);
    }
    if r :| r in rows && Meets(rows, run, r, 1) {
      ParentBeatsAll(rows, run, r);
    }
  }

  /** Which rows decide depends on the rows, not on their order. */
  lemma DecidesInAnyOrder(rows: seq<JobRow>, shuffled: seq<JobRow>, run: int, row: JobRow)
    requires multiset(rows) == multiset(shuffled)
    ensures Decides(rows, run, row) <==> Decides(shuffled, run, row)
  {
    forall r ensures r in rows <==> r in shuffled {
      assert r in multiset(rows) <==> r in multiset(shuffled);
    }
    forall r: JobRow, level: nat ensures Meets(rows, run, r, level) <==> Meets(shuffled, run, r, level) {
    }
    forall level: nat ensures Met(rows, run, level) <==> Met(shuffled, run, level) {
      if r :| r in rows && Meets(rows, run, r, level) {
        assert r in shuffled && Meets(shuffled, run, r, level);
      }
      if r :| r in shuffled && Meets(shuffled, run, r, level) {
        assert r in rows && Meets(rows, run, r, level);
      }
    }
  }

  ghost predicate OrderIrrelevant(rows: seq<JobRow>, run: int) {
    forall shuffled: seq<JobRow> :: multiset(shuffled) == multiset(rows) ==> SourceSha(shuffled, run) == SourceSha(rows, run)
  }

  predicate DecidingAgree(rows: seq<JobRow>, run: int) {
    forall a, b :: a in rows && b in rows && Decides(rows, run, a) && Decides(rows, run, b) ==> a.sha == b.sha
  }

  function ToFront(rows: seq<JobRow>, i: nat): seq<JobRow>
    requires i < |rows|
  {
    [rows[i]] + rows[..i] + rows[i + 1..]
  }

  lemma FrontedRowWins(rows: seq<JobRow>, run: int, i: nat)
    requires i < |rows| && Decides(rows, run, rows[i])
    ensures multiset(ToFront(rows, i)) == multiset(rows) && SourceSha(ToFront(rows, i), run) == rows[i].sha
  {
    assert rows == rows[..i] + [rows[i]] + rows[i + 1..];
    DecidesInAnyOrder(rows, ToFront(rows, i), run, rows[i]);
    FirstDecidingRowWins(ToFront(rows, i), run);
  }

  /** Two suite rows with different SHAs and no row of the run itself: the first one wins. */
  lemma OrderDecidesWithoutOwnRow(run: int, a: JobRow, b: JobRow)
    requires a.run == b.run == Some(run) && a.e2e && b.e2e && a.jobUrl && b.jobUrl
    requires a.sha != "" && b.sha != "" && a.sha != b.sha
    ensures SourceSha([a, b], run) == a.sha && SourceSha([b, a], run) == b.sha
  {
    assert forall r :: r in [a, b] || r in [b, a] ==> !RunUrl(r, run);
    assert Meets([a, b], run, a, 2) && Meets([b, a], run, b, 2);
    FirstDecidingRowWins([a, b], run);
    FirstDecidingRowWins([b, a], run);
  }

  /** The order of the stored rows never decides the SHA exactly when the deciding rows
      carry the same one. */
  lemma OrderNeverDecidesExactlyWhen(rows: seq<JobRow>, run: int)
    ensures OrderIrrelevant(rows, run) <==> DecidingAgree(rows, run)
  {
    if OrderIrrelevant(rows, run) {
      forall a, b | a in rows && b in rows && Decides(rows, run, a) && Decides(rows, run, b) ensures a.sha == b.sha {
        var i :| 0 <= i < |rows| && rows[i] == a;
        var j :| 0 <= j < |rows| && rows[j] == b;
        FrontedRowWins(rows, run, i);
        FrontedRowWins(rows, run, j);
      }
    }
    if DecidingAgree(rows, run) {
      forall shuffled: seq<JobRow> | multiset(shuffled) == multiset(rows)
        ensures SourceSha(shuffled, run) == SourceSha(rows, run)
      {
        AgreeingRowsAgree(rows, shuffled, run);
      }
    }
  }

  lemma AgreeingRowsAgree(rows: seq<JobRow>, shuffled: seq<JobRow>, run: int)
    requires multiset(shuffled) == multiset(rows) && DecidingAgree(rows, run)
    ensures SourceSha(shuffled, run) == SourceSha(rows, run)
  {
    forall r ensures r in rows <==> r in shuffled {
      assert r in multiset(rows) <==> r in multiset(shuffled);
    }
    EmptyShaNeverWins(rows, run);
    EmptyShaNeverWins(shuffled, run);
    if SourceSha(rows, run) != "" {
      var a := SourceShaIsDeciding(rows, run);
      var b := SourceShaIsDeciding(shuffled, run);
      DecidesInAnyOrder(rows, shuffled, run, b);
    }
  }

  /** The day is the earliest creation time among the run's e2e rows. */
  lemma {:induction false} CreatedIsEarliest(rows: seq<JobRow>, run: int)
    ensures var c := Created(rows, run);
            && (c.Some? ==> exists row :: row in rows && row.run == Some(run) && row.e2e && row.created == c)
            && (forall row :: row in rows && row.run == Some(run) && row.e2e && row.created.Some? ==>
                  c.Some? && c.value <= row.created.value)
  {
    if rows != [] {
      CreatedIsEarliest(Front(rows), run);
      assert rows == Front(rows) + [Last(rows)];
    }
  }

  // -- the two loops -----------------------------------------------------------------------

  /** `candidate_runs`: one dictionary of parents and one of SHAs, then the e2e rows. */
  method Candidates(rows: seq<JobRow>) returns (runs: map<int, Candidate>)
    ensures forall run :: run in runs <==> IsCandidate(rows, run)
    ensures forall run :: run in runs ==> runs[run] == Candidate(SourceSha(rows, run), Created(rows, run))
  {
    var parents: map<int, JobRow> := map[];
    var shas: map<int, string> := map[];
    for i := 0 to |rows|
      invariant forall run :: (if run in parents then Some(parents[run]) else None) == Parent(rows[..i], run)
      invariant forall run :: (if run in shas then shas[run] else "") == FirstSha(rows[..i], run, false)
    {
      assert Front(rows[..i + 1]) == rows[..i];
      var row := rows[i];
      if row.run.None? {
        continue;
      }
      var run := row.run.value;
      if row.sha != "" && (run !in shas || shas[run] == "") {
        shas := shas[run := row.sha];
      }
      if row.jobUrl {
        continue;
      }
      if run !in parents || Score(row, run) > Score(parents[run], run) {
        parents := parents[run := row];
      }
    }
    assert rows[..|rows|] == rows;
    var grouped := Grouped(rows);
    runs := map run | run in grouped :: Candidate(
      if run in parents && parents[run].sha != "" then parents[run].sha
      else if grouped[run].sha != "" then grouped[run].sha
      else if run in shas then shas[run] else "", grouped[run].created);
  }

  method Grouped(rows: seq<JobRow>) returns (grouped: map<int, Candidate>)
    ensures forall run :: run in grouped <==> IsCandidate(rows, run)
    ensures forall run :: run in grouped ==> grouped[run] == Candidate(FirstSha(rows, run, true), Created(rows, run))
  {
    grouped := map[];
    for i := 0 to |rows|
      invariant forall run :: run in grouped <==> IsCandidate(rows[..i], run)
      invariant forall run :: (if run in grouped then grouped[run] else Candidate("", None)) ==
                              Candidate(FirstSha(rows[..i], run, true), Created(rows[..i], run))
    {
      assert Front(rows[..i + 1]) == rows[..i];
      assert rows[..i + 1] == rows[..i] + [rows[i]];
      var row := rows[i];
      if row.run.Some? && row.e2e {
        var run := row.run.value;
        var entry := if run in grouped then grouped[run] else Candidate("", None);
        if entry.sha == "" {
          entry := entry.(sha := row.sha);
        }
        if row.created.Some? && (entry.created.None? || row.created.value < entry.created.value) {
          entry := entry.(created := row.created);
        }
        grouped := grouped[run := entry];
      }
    }
    assert rows[..|rows|] == rows;
  }
}

/** The shared job matrix of the dashboard: one group of rows per terminal,
    groups kept in terminal-name order.  Rendering a terminal's jobs drops
    the first loading placeholder and the terminal's old rows, sorts the new
    rows by job name and inserts them before the first row of a terminal
    whose name sorts after this one (or at the end). */
module DashboardMatrix {
  import opened Collation
  import opened DashboardClient

  /** A table row: the loading placeholder, or one job of a terminal. */
  datatype MatrixRow = LoadingRow | JobLine(terminalId: int, terminalName: string, job: Job)

  // -----------------------------------------------------------------------
  // Sorting by job name
  // -----------------------------------------------------------------------

  predicate SortedByName(jobs: seq<Job>) {
    forall i, j :: 0 <= i < j < |jobs| ==> LessEq(jobs[i].jobName, jobs[j].jobName)
  }

  /** `job` placed before the first job whose name sorts after it. */
  function InsertByName(job: Job, sorted: seq<Job>): (r: seq<Job>)
    ensures multiset(r) == multiset(sorted) + multiset{job}
    ensures |r| == |sorted| + 1
  {
    if sorted == [] || Less(job.jobName, sorted[0].jobName) then [job] + sorted
    else
      assert sorted == [sorted[0]] + sorted[1..];
      [sorted[0]] + InsertByName(job, sorted[1..])
  }

  /** `jobs.sort((a, b) => a.JobName.localeCompare(b.JobName))` */
  function SortByName(jobs: seq<Job>): (r: seq<Job>)
    ensures |r| == |jobs|
  {
    if jobs == [] then [] else InsertByName(jobs[|jobs| - 1], SortByName(jobs[..|jobs| - 1]))
  }

  lemma {:induction false} InsertKeepsOrder(job: Job, sorted: seq<Job>)
    requires SortedByName(sorted)
    ensures SortedByName(InsertByName(job, sorted))
    decreases |sorted|
  {
    if sorted != [] && !Less(job.jobName, sorted[0].jobName) {
      InsertKeepsOrder(job, sorted[1..]);
      InsertBehindHead(job, sorted);
    } else if sorted != [] {
      InsertInFront(job, sorted);
    }
  }

  /** A job that does not sort before the head goes behind it, and the
      head still sorts before everything after it. */
  lemma InsertBehindHead(job: Job, sorted: seq<Job>)
    requires SortedByName(sorted) && sorted != [] && !Less(job.jobName, sorted[0].jobName)
    requires SortedByName(InsertByName(job, sorted[1..]))
    ensures SortedByName(InsertByName(job, sorted))
  {
    var r := InsertByName(job, sorted);
    var tail := InsertByName(job, sorted[1..]);
    assert r == [sorted[0]] + tail;
    HeadBeforeInserted(job, sorted);
    forall i, j | 0 <= i < j < |r|
      ensures LessEq(r[i].jobName, r[j].jobName)
    {
      if i > 0 {
        assert r[i] == tail[i - 1] && r[j] == tail[j - 1];
      } else {
        assert r[j] == tail[j - 1];
      }
    }
  }

  lemma HeadBeforeInserted(job: Job, sorted: seq<Job>)
    requires SortedByName(sorted) && sorted != [] && !Less(job.jobName, sorted[0].jobName)
    ensures forall k :: 0 <= k < |InsertByName(job, sorted[1..])| ==>
      LessEq(sorted[0].jobName, InsertByName(job, sorted[1..])[k].jobName)
  {
    var tail := InsertByName(job, sorted[1..]);
    forall k | 0 <= k < |tail|
      ensures LessEq(sorted[0].jobName, tail[k].jobName)
    {
      var x := tail[k];
      assert x in multiset(tail);
      assert x in multiset(sorted[1..]) || x == job;
      if x != job {
        var m :| 0 <= m < |sorted[1..]| && sorted[1..][m] == x;
        assert sorted[m + 1] == x;
      }
    }
  }

  /** A job that sorts before the head goes in front of every job. */
  lemma InsertInFront(job: Job, sorted: seq<Job>)
    requires SortedByName(sorted) && sorted != [] && Less(job.jobName, sorted[0].jobName)
    ensures SortedByName(InsertByName(job, sorted))
  {
    LessToLessEq(job.jobName, sorted[0].jobName);
    var r := [job] + sorted;
    forall i, j | 0 <= i < j < |r|
      ensures LessEq(r[i].jobName, r[j].jobName)
    {
      if i == 0 && j > 1 {
        LessEqTransitive(job.jobName, sorted[0].jobName, sorted[j - 1].jobName);
      }
    }
  }

  /** The rows come out sorted by job name, and they are the same jobs. */
  lemma {:induction false} SortByNameCorrect(jobs: seq<Job>)
    ensures SortedByName(SortByName(jobs))
    ensures multiset(SortByName(jobs)) == multiset(jobs)
    decreases |jobs|
  {
    if jobs != [] {
      var init := jobs[..|jobs| - 1];
      SortByNameCorrect(init);
      InsertKeepsOrder(jobs[|jobs| - 1], SortByName(init));
      assert jobs == init + [jobs[|jobs| - 1]];
    }
  }

  // -----------------------------------------------------------------------
  // The matrix operations, as functions on the row list
  // -----------------------------------------------------------------------

  /** The rows with the first loading placeholder removed. */
  function WithoutLoading(rows: seq<MatrixRow>): (r: seq<MatrixRow>)
    ensures |r| <= |rows|
  {
    if rows == [] then []
    else if rows[0].LoadingRow? then rows[1..]
    else [rows[0]] + WithoutLoading(rows[1..])
  }

  /** The rows that are not jobs of terminal `id`, in order. */
  function Without(rows: seq<MatrixRow>, id: int): (r: seq<MatrixRow>)
    ensures |r| <= |rows|
    ensures forall i :: 0 <= i < |r| ==> !(r[i].JobLine? && r[i].terminalId == id)
  {
    if rows == [] then []
    else if rows[0].JobLine? && rows[0].terminalId == id then Without(rows[1..], id)
    else [rows[0]] + Without(rows[1..], id)
  }

  /** The rows that are jobs of terminal `id`, in order. */
  function Only(rows: seq<MatrixRow>, id: int): seq<MatrixRow> {
    if rows == [] then []
    else if rows[0].JobLine? && rows[0].terminalId == id then [rows[0]] + Only(rows[1..], id)
    else Only(rows[1..], id)
  }

  /** One row per job, all tagged with the terminal. */
  function Lines(id: int, name: string, jobs: seq<Job>): (r: seq<MatrixRow>)
    ensures |r| == |jobs|
    ensures forall i :: 0 <= i < |r| ==> r[i] == JobLine(id, name, jobs[i])
  {
    seq(|jobs|, i requires 0 <= i < |jobs| => JobLine(id, name, jobs[i]))
  }

  /** Where a terminal named `name` goes: before the first terminal row whose
      name sorts after it, or at the end. */
  function InsertionPoint(rows: seq<MatrixRow>, name: string): (p: nat)
    ensures p <= |rows|
    ensures forall i :: 0 <= i < p ==> !(rows[i].JobLine? && Less(name, rows[i].terminalName))
    ensures p < |rows| ==> rows[p].JobLine? && Less(name, rows[p].terminalName)
  {
    if rows == [] then 0
    else if rows[0].JobLine? && Less(name, rows[0].terminalName) then 0
    else 1 + InsertionPoint(rows[1..], name)
  }

  /** The whole rendering step on the row list. */
  function Rendered(rows: seq<MatrixRow>, id: int, name: string, jobs: seq<Job>): seq<MatrixRow> {
    var kept := Without(WithoutLoading(rows), id);
    var p := InsertionPoint(kept, name);
    kept[..p] + Lines(id, name, SortByName(jobs)) + kept[p..]
  }

  /** Terminal groups appear in name order. */
  predicate GroupsOrdered(rows: seq<MatrixRow>) {
    forall i, j :: 0 <= i < j < |rows| && rows[i].JobLine? && rows[j].JobLine? ==>
      LessEq(rows[i].terminalName, rows[j].terminalName)
  }

  // -----------------------------------------------------------------------
  // Imperative rendering
  // -----------------------------------------------------------------------

  class Matrix {
    var rows: seq<MatrixRow>

    constructor()
      ensures rows == [LoadingRow]
    {
      rows := [LoadingRow];
    }

    /** The terminal branch of `renderizarFilasMatriz`. */
    method RenderTerminalRows(id: int, name: string, jobs: seq<Job>)
      modifies this
      ensures rows == Rendered(old(rows), id, name, jobs)
    {
      var current := RemoveFirstLoading(rows);
      var kept := DropTerminal(current, id);
      var newRows := Lines(id, name, SortByName(jobs));
      var p := FindInsertionPoint(kept, name);
      rows := kept[..p] + newRows + kept[p..];
    }
  }

  /** Removes the first loading placeholder, if there is one. */
  method RemoveFirstLoading(rows: seq<MatrixRow>) returns (r: seq<MatrixRow>)
    ensures r == WithoutLoading(rows)
  {
    var k := 0;
    while k < |rows| && !rows[k].LoadingRow?
      invariant 0 <= k <= |rows|
      invariant forall i :: 0 <= i < k ==> !rows[i].LoadingRow?
    {
      k := k + 1;
    }
    WithoutLoadingAt(rows, k);
    r := rows;
    if k < |rows| {
      r := rows[..k] + rows[k + 1..];
    }
  }

  /** Drops every row of terminal `id`, keeping the others in order. */
  method DropTerminal(rows: seq<MatrixRow>, id: int) returns (kept: seq<MatrixRow>)
    ensures kept == Without(rows, id)
  {
    kept := [];
    var i := 0;
    while i < |rows|
      invariant 0 <= i <= |rows|
      invariant kept == Without(rows[..i], id)
    {
      WithoutSnoc(rows[..i], rows[i], id);
      assert rows[..i + 1] == rows[..i] + [rows[i]];
      if !(rows[i].JobLine? && rows[i].terminalId == id) {
        kept := kept + [rows[i]];
      }
      i := i + 1;
    }
    assert rows[..i] == rows;
  }

  /** Scans for the first row of a terminal whose name sorts after `name`. */
  method FindInsertionPoint(rows: seq<MatrixRow>, name: string) returns (p: nat)
    ensures p == InsertionPoint(rows, name)
  {
    p := 0;
    while p < |rows| && !(rows[p].JobLine? && Less(name, rows[p].terminalName))
      invariant 0 <= p <= |rows|
      invariant forall j :: 0 <= j < p ==> !(rows[j].JobLine? && Less(name, rows[j].terminalName))
    {
      p := p + 1;
    }
    InsertionPointAt(rows, name, p);
  }

  lemma {:induction false} WithoutLoadingAt(rows: seq<MatrixRow>, k: nat)
    requires k <= |rows|
    requires forall i :: 0 <= i < k ==> !rows[i].LoadingRow?
    requires k < |rows| ==> rows[k].LoadingRow?
    ensures WithoutLoading(rows) == if k < |rows| then rows[..k] + rows[k + 1..] else rows
    decreases k
  {
    if k > 0 {
      WithoutLoadingAt(rows[1..], k - 1);
      if k < |rows| {
        assert rows[..k] == [rows[0]] + rows[1..][..k - 1];
        assert rows[k + 1..] == rows[1..][k..];
      } else {
        assert rows == [rows[0]] + rows[1..];
      }
    } else if rows == [] {
    }
  }

  lemma {:induction false} WithoutSnoc(rows: seq<MatrixRow>, x: MatrixRow, id: int)
    ensures Without(rows + [x], id) ==
      Without(rows, id) + (if x.JobLine? && x.terminalId == id then [] else [x])
    decreases |rows|
  {
    if rows == [] {
      assert rows + [x] == [x];
    } else {
      assert (rows + [x])[1..] == rows[1..] + [x];
      WithoutSnoc(rows[1..], x, id);
    }
  }

  lemma {:induction false} InsertionPointAt(rows: seq<MatrixRow>, name: string, p: nat)
    requires p <= |rows|
    requires forall i :: 0 <= i < p ==> !(rows[i].JobLine? && Less(name, rows[i].terminalName))
    requires p < |rows| ==> rows[p].JobLine? && Less(name, rows[p].terminalName)
    ensures InsertionPoint(rows, name) == p
    decreases p
  {
    if p > 0 {
      InsertionPointAt(rows[1..], name, p - 1);
    }
  }

  // -----------------------------------------------------------------------
  // What rendering guarantees
  // -----------------------------------------------------------------------

  lemma {:induction false} WithoutLoadingKeepsOrder(rows: seq<MatrixRow>)
    requires GroupsOrdered(rows)
    ensures GroupsOrdered(WithoutLoading(rows))
    ensures forall r :: r in WithoutLoading(rows) ==> r in rows
    decreases |rows|
  {
    if rows != [] && !rows[0].LoadingRow? {
      WithoutLoadingKeepsOrder(rows[1..]);
      var r := WithoutLoading(rows);
      forall j | 0 < j < |r| && rows[0].JobLine? && r[j].JobLine?
        ensures LessEq(rows[0].terminalName, r[j].terminalName)
      {
        assert r[j] in rows[1..];
        var m :| 0 <= m < |rows[1..]| && rows[1..][m] == r[j];
        assert rows[m + 1] == r[j];
      }
    }
  }

  lemma {:induction false} WithoutKeepsOrder(rows: seq<MatrixRow>, id: int)
    requires GroupsOrdered(rows)
    ensures GroupsOrdered(Without(rows, id))
    ensures forall r :: r in Without(rows, id) ==> r in rows
    decreases |rows|
  {
    if rows != [] {
      WithoutKeepsOrder(rows[1..], id);
      var r := Without(rows, id);
      if !(rows[0].JobLine? && rows[0].terminalId == id) {
        forall j | 0 < j < |r| && rows[0].JobLine? && r[j].JobLine?
          ensures LessEq(rows[0].terminalName, r[j].terminalName)
        {
          assert r[j] in rows[1..];
          var m :| 0 <= m < |rows[1..]| && rows[1..][m] == r[j];
          assert rows[m + 1] == r[j];
        }
      }
    }
  }

  /** Rendering a terminal keeps the groups in terminal-name order. */
  lemma GroupsStayOrdered(rows: seq<MatrixRow>, id: int, name: string, jobs: seq<Job>)
    requires GroupsOrdered(rows)
    ensures GroupsOrdered(Rendered(rows, id, name, jobs))
  {
    WithoutLoadingKeepsOrder(rows);
    var kept := Without(WithoutLoading(rows), id);
    WithoutKeepsOrder(WithoutLoading(rows), id);
    var p := InsertionPoint(kept, name);
    var lines := Lines(id, name, SortByName(jobs));
    var r := kept[..p] + lines + kept[p..];
    forall i, j | 0 <= i < j < |r| && r[i].JobLine? && r[j].JobLine?
      ensures LessEq(r[i].terminalName, r[j].terminalName)
    {
      var n := |lines|;
      if i < p && j < p {
        assert r[i] == kept[i] && r[j] == kept[j];
      } else if i < p && j < p + n {
        assert r[i] == kept[i] && r[j] == lines[j - p];
        NotLessIsLessEq(name, kept[i].terminalName);
      } else if i < p {
        assert r[i] == kept[i] && r[j] == kept[j - n];
      } else if i < p + n && j < p + n {
        assert r[i] == lines[i - p] && r[j] == lines[j - p];
        Irreflexive(name);
      } else if i < p + n {
        assert r[i] == lines[i - p] && r[j] == kept[j - n];
        assert kept[p].JobLine? && Less(name, kept[p].terminalName);
        LessToLessEq(name, kept[p].terminalName);
        if j - n > p {
          LessEqTransitive(name, kept[p].terminalName, kept[j - n].terminalName);
        }
      } else {
        assert r[i] == kept[i - n] && r[j] == kept[j - n];
      }
    }
  }

  lemma NotLessIsLessEq(name: string, other: string)
    requires !Less(name, other)
    ensures LessEq(other, name)
  {
  }

  lemma {:induction false} OnlyAppend(a: seq<MatrixRow>, b: seq<MatrixRow>, id: int)
    ensures Only(a + b, id) == Only(a, id) + Only(b, id)
    ensures Without(a + b, id) == Without(a, id) + Without(b, id)
    decreases |a|
  {
    if a == [] {
      assert a + b == b;
    } else {
      assert (a + b)[1..] == a[1..] + b;
      OnlyAppend(a[1..], b, id);
    }
  }

  lemma {:induction false} OnlyOfWithout(rows: seq<MatrixRow>, id: int)
    ensures Only(Without(rows, id), id) == []
    decreases |rows|
  {
    if rows != [] {
      OnlyOfWithout(rows[1..], id);
    }
  }

  lemma {:induction false} LinesAreOwn(id: int, name: string, jobs: seq<Job>)
    ensures Only(Lines(id, name, jobs), id) == Lines(id, name, jobs)
    ensures Without(Lines(id, name, jobs), id) == []
    decreases |jobs|
  {
    if jobs != [] {
      LinesAreOwn(id, name, jobs[1..]);
      assert Lines(id, name, jobs)[1..] == Lines(id, name, jobs[1..]);
    }
  }

  /** After rendering, terminal `id` has exactly its new rows, sorted by job
      name, and every other row is kept in its old order (only the first
      loading placeholder is gone). */
  lemma RenderedRows(rows: seq<MatrixRow>, id: int, name: string, jobs: seq<Job>)
    ensures Only(Rendered(rows, id, name, jobs), id) == Lines(id, name, SortByName(jobs))
    ensures Without(Rendered(rows, id, name, jobs), id) == Without(WithoutLoading(rows), id)
  {
    var kept := Without(WithoutLoading(rows), id);
    var p := InsertionPoint(kept, name);
    var lines := Lines(id, name, SortByName(jobs));
    OnlyOfWithout(WithoutLoading(rows), id);
    LinesAreOwn(id, name, SortByName(jobs));
    RenderedOnly(kept, p, lines, id);
    WithoutTwice(WithoutLoading(rows), id);
    RenderedWithout(kept, p, lines, id);
  }

  /** Splicing a terminal's own lines into rows holding none of its lines
      leaves exactly those lines as its rows. */
  lemma RenderedOnly(kept: seq<MatrixRow>, p: nat, lines: seq<MatrixRow>, id: int)
    requires p <= |kept| && Only(kept, id) == [] && Only(lines, id) == lines
    ensures Only(kept[..p] + lines + kept[p..], id) == lines
  {
    var x, y := kept[..p], kept[p..];
    assert kept == x + y;
    OnlyAppend(x, y, id);
    OnlyAppend(x + lines, y, id);
    OnlyAppend(x, lines, id);
    assert |Only(x, id)| + |Only(y, id)| == 0;
  }

  /** Splicing a terminal's own lines into rows that hold none of them
      changes nothing else. */
  lemma RenderedWithout(kept: seq<MatrixRow>, p: nat, lines: seq<MatrixRow>, id: int)
    requires p <= |kept| && Without(kept, id) == kept && Without(lines, id) == []
    ensures Without(kept[..p] + lines + kept[p..], id) == kept
  {
    var x, y := kept[..p], kept[p..];
    assert kept == x + y;
    OnlyAppend(x, y, id);
    OnlyAppend(x + lines, y, id);
    OnlyAppend(x, lines, id);
    calc {
      Without(x + lines + y, id);
      Without(x + lines, id) + Without(y, id);
      Without(x, id) + [] + Without(y, id);
      { assert Without(x, id) + [] == Without(x, id); }
      Without(x + y, id);
    }
  }

  lemma {:induction false} WithoutTwice(rows: seq<MatrixRow>, id: int)
    ensures Without(Without(rows, id), id) == Without(rows, id)
    decreases |rows|
  {
    if rows != [] {
      WithoutTwice(rows[1..], id);
    }
  }
}

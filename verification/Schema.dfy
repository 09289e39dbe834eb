/**
 The rows the protocol lives on and what its SQL statements do to them. Tables are listed
 in insertion order, which is seq_no order.
 */
module Schema {
  import opened Types
  import Sorting

  datatype WalState = New | Compacting

  /** A row of write_ahead_logs. */
  datatype Wal = Wal(seqNo: int, state: WalState, path: Path)

  /** A row of shared_runs. */
  datatype Run = Run(seqNo: int, path: Path)

  /** A pending compaction job, its rows in the order the SELECT happened to return them. */
  datatype Job = Job(id: int, wals: seq<Wal>)

  /** A row of the partitions table: the first key it holds and the runs it is made of. */
  datatype Partition = Partition(start: Key, runs: seq<Path>)

  datatype Tables = Tables(
    wals: seq<Wal>, nextWal: int,
    runs: seq<Run>, nextRun: int,
    jobs: seq<Job>, nextJob: int)

  predicate Ascending(rows: seq<Wal>) {
    forall i, j :: 0 <= i < j < |rows| ==> rows[i].seqNo < rows[j].seqNo
  }

  function SeqNos(rows: seq<Wal>): (s: seq<int>)
    ensures |s| == |rows| && forall i :: 0 <= i < |rows| ==> s[i] == rows[i].seqNo
  {
    seq(|rows|, i requires 0 <= i < |rows| => rows[i].seqNo)
  }

  // ---- the statements ----

  /** SELECT COUNT(*) ... WHERE seq_no = ANY (seqNos) AND state = st */
  function Count(rows: seq<Wal>, seqNos: seq<int>, st: WalState): nat {
    if rows == [] then 0 else
    var last := rows[|rows| - 1];
    Count(rows[..|rows| - 1], seqNos, st) + if last.seqNo in seqNos && last.state == st then 1 else 0
  }

  /** The validation CTE; array_length of an empty array is NULL, which equals no count. */
  predicate Valid(rows: seq<Wal>, seqNos: seq<int>, st: WalState) {
    seqNos != [] && Count(rows, seqNos, st) == |seqNos|
  }

  function MarkEach(rows: seq<Wal>, seqNos: seq<int>): (r: seq<Wal>)
    ensures |r| == |rows|
    ensures forall i :: 0 <= i < |rows| ==>
              r[i] == if rows[i].seqNo in seqNos && rows[i].state == New then rows[i].(state := Compacting) else rows[i]
  {
    seq(|rows|, i requires 0 <= i < |rows| =>
      if rows[i].seqNo in seqNos && rows[i].state == New then rows[i].(state := Compacting) else rows[i])
  }

  function DeleteEach(rows: seq<Wal>, seqNos: seq<int>): seq<Wal> {
    if rows == [] then [] else
    var last := rows[|rows| - 1];
    DeleteEach(rows[..|rows| - 1], seqNos) + if last.seqNo in seqNos && last.state == Compacting then [] else [last]
  }

  /** MarkWriteAheadLogsAsCompacting */
  function MarkRows(rows: seq<Wal>, seqNos: seq<int>): seq<Wal> {
    if Valid(rows, seqNos, New) then MarkEach(rows, seqNos) else rows
  }

  /** DeleteWriteAheadLogs */
  function DeleteRows(rows: seq<Wal>, seqNos: seq<int>): seq<Wal> {
    if Valid(rows, seqNos, Compacting) then DeleteEach(rows, seqNos) else rows
  }

  // ---- the transactions ----

  /** The orchestrator's transaction: mark, then schedule, whatever the mark answered. */
  function Claim(t: Tables, rows: seq<Wal>): Tables {
    t.(wals := MarkRows(t.wals, SeqNos(rows)), jobs := t.jobs + [Job(t.nextJob, rows)], nextJob := t.nextJob + 1)
  }

  /** The worker's transaction: add the run, delete the WALs, complete the job, whatever the delete answered. */
  function Commit(t: Tables, j: nat, path: Path, runNo: int): Tables
    requires j < |t.jobs|
  {
    t.(wals := DeleteRows(t.wals, SeqNos(t.jobs[j].wals)),
       runs := t.runs + [Run(runNo, path)], nextRun := runNo + 1,
       jobs := t.jobs[..j] + t.jobs[j + 1..])
  }

  /** AddWriteAheadLog */
  function AddWal(t: Tables, path: Path, seqNo: int): Tables {
    t.(wals := t.wals + [Wal(seqNo, New, path)], nextWal := seqNo + 1)
  }

  // ---- what the validation counts ----

  predicate Distinct(s: seq<int>) {
    forall i, j :: 0 <= i < j < |s| ==> s[i] != s[j]
  }

  predicate Holds(rows: seq<Wal>, seqNo: int, st: WalState) {
    exists i :: 0 <= i < |rows| && rows[i].seqNo == seqNo && rows[i].state == st
  }

  /** The listed seq_nos that name a row in state `st`. */
  ghost function Hits(rows: seq<Wal>, seqNos: seq<int>, st: WalState): set<int> {
    set s | s in seqNos && Holds(rows, s, st)
  }

  lemma HoldsStep(rows: seq<Wal>, s: int, st: WalState)
    requires rows != []
    ensures Holds(rows, s, st) <==>
            Holds(rows[..|rows| - 1], s, st) || (rows[|rows| - 1].seqNo == s && rows[|rows| - 1].state == st)
  {
    var init := rows[..|rows| - 1];
    if Holds(init, s, st) {
      var i :| 0 <= i < |init| && init[i].seqNo == s && init[i].state == st;
      assert rows[i].seqNo == s;
    }
    if Holds(rows, s, st) {
      var i :| 0 <= i < |rows| && rows[i].seqNo == s && rows[i].state == st;
      assert i < |init| ==> init[i].seqNo == s;
    }
  }

  lemma {:induction false} CountIsCardinality(rows: seq<Wal>, seqNos: seq<int>, st: WalState)
    requires Ascending(rows)
    ensures Count(rows, seqNos, st) == |Hits(rows, seqNos, st)|
  {
    hide Holds;
    if rows == [] {
      NoHits(seqNos, st);
    } else {
      var init, last := rows[..|rows| - 1], rows[|rows| - 1];
      CountIsCardinality(init, seqNos, st);
      HitsStep(rows, seqNos, st);
    }
  }

  lemma NoHits(seqNos: seq<int>, st: WalState)
    ensures Hits([], seqNos, st) == {}
  {
  }

  lemma HitsStep(rows: seq<Wal>, seqNos: seq<int>, st: WalState)
    requires Ascending(rows) && rows != []
    ensures var last, before := rows[|rows| - 1], Hits(rows[..|rows| - 1], seqNos, st);
            && last.seqNo !in before
            && Hits(rows, seqNos, st) == before + if last.seqNo in seqNos && last.state == st then {last.seqNo} else {}
  {
    assert !Holds(rows[..|rows| - 1], rows[|rows| - 1].seqNo, st);
    hide Holds, Ascending;
    forall s {
      HoldsStep(rows, s, st);
    }
  }

  ghost function Elements(s: seq<int>): set<int> {
    set x | x in s
  }

  lemma {:induction false} DistinctIsCardinality(s: seq<int>)
    ensures |Elements(s)| <= |s|
    ensures |Elements(s)| == |s| <==> Distinct(s)
  {
    hide Distinct, Elements;
    if s == [] {
      NothingDistinct();
    } else {
      var init, last := s[..|s| - 1], s[|s| - 1];
      assert s == init + [last];
      DistinctIsCardinality(init);
      DistinctStep(init, last);
      ElementsStep(init, last);
    }
  }

  lemma NothingDistinct()
    ensures Distinct([]) && Elements([]) == {}
  {
  }

  lemma ElementsStep(s: seq<int>, x: int)
    ensures Elements(s + [x]) == Elements(s) + {x}
    ensures x in Elements(s) <==> x in s
  {
  }

  lemma DistinctStep(s: seq<int>, x: int)
    ensures Distinct(s + [x]) <==> Distinct(s) && x !in s
  {
    var all := s + [x];
    if Distinct(all) {
      assert forall i :: 0 <= i < |s| ==> all[i] == s[i] && all[i] != all[|s|];
    }
  }

  lemma SubsetSize(a: set<int>, b: set<int>)
    requires a <= b
    ensures |a| <= |b|
    ensures |a| == |b| ==> a == b
  {
    assert b == a + (b - a);
  }

  /** The validation succeeds exactly for a non-empty list of distinct rows all in the wanted state. */
  lemma ValidMeans(rows: seq<Wal>, seqNos: seq<int>, st: WalState)
    requires Ascending(rows)
    ensures Valid(rows, seqNos, st) <==>
            seqNos != [] && Distinct(seqNos) && forall s :: s in seqNos ==> Holds(rows, s, st)
  {
    CountIsCardinality(rows, seqNos, st);
    DistinctIsCardinality(seqNos);
    SubsetSize(Hits(rows, seqNos, st), Elements(seqNos));
    assert Hits(rows, seqNos, st) == Elements(seqNos) <==> forall s :: s in seqNos ==> Holds(rows, s, st) by {
      assert forall s :: s in Elements(seqNos) <==> s in seqNos;
    }
  }

  // ---- deleting a stretch of the table ----

  lemma {:induction false} DeleteConcat(a: seq<Wal>, b: seq<Wal>, seqNos: seq<int>)
    ensures DeleteEach(a + b, seqNos) == DeleteEach(a, seqNos) + DeleteEach(b, seqNos)
  {
    if b == [] {
      assert a + b == a;
    } else {
      assert (a + b)[..|a + b| - 1] == a + b[..|b| - 1];
      DeleteConcat(a, b[..|b| - 1], seqNos);
    }
  }

  lemma {:induction false} DeleteNothing(rows: seq<Wal>, seqNos: seq<int>)
    requires forall i :: 0 <= i < |rows| ==> rows[i].seqNo !in seqNos
    ensures DeleteEach(rows, seqNos) == rows
  {
    if rows != [] {
      DeleteNothing(rows[..|rows| - 1], seqNos);
      assert rows == rows[..|rows| - 1] + [rows[|rows| - 1]];
    }
  }

  lemma {:induction false} DeleteEverything(rows: seq<Wal>, seqNos: seq<int>)
    requires forall i :: 0 <= i < |rows| ==> rows[i].seqNo in seqNos && rows[i].state == Compacting
    ensures DeleteEach(rows, seqNos) == []
  {
    if rows != [] {
      DeleteEverything(rows[..|rows| - 1], seqNos);
    }
  }

  // ---- one order for a set of rows ----

  /** Sorting by seq_no; rows a SELECT returns come in no particular order. */
  function SortBySeqNo(rows: seq<Wal>): (r: seq<Wal>)
    ensures multiset(r) == multiset(rows) && |r| == |rows|
  {
    if rows == [] then [] else
    assert rows == rows[..|rows| - 1] + [rows[|rows| - 1]];
    InsertBySeqNo(SortBySeqNo(rows[..|rows| - 1]), rows[|rows| - 1])
  }

  function InsertBySeqNo(rows: seq<Wal>, w: Wal): (r: seq<Wal>)
    ensures multiset(r) == multiset(rows) + multiset{w} && |r| == |rows| + 1
  {
    if rows == [] || rows[|rows| - 1].seqNo <= w.seqNo then rows + [w] else
    assert rows == rows[..|rows| - 1] + [rows[|rows| - 1]];
    InsertBySeqNo(rows[..|rows| - 1], w) + [rows[|rows| - 1]]
  }

  predicate Sorted(rows: seq<Wal>) {
    forall i, j :: 0 <= i < j < |rows| ==> rows[i].seqNo <= rows[j].seqNo
  }

  lemma {:induction false} InsertSorts(rows: seq<Wal>, w: Wal)
    requires Sorted(rows)
    ensures Sorted(InsertBySeqNo(rows, w))
  {
    if rows != [] && rows[|rows| - 1].seqNo > w.seqNo {
      var init, last := rows[..|rows| - 1], rows[|rows| - 1];
      InsertSorts(init, w);
      AllBelow(init, w, InsertBySeqNo(init, w), last);
    }
  }

  lemma AllBelow(init: seq<Wal>, w: Wal, r: seq<Wal>, last: Wal)
    requires multiset(r) == multiset(init) + multiset{w} && w.seqNo <= last.seqNo
    requires forall i :: 0 <= i < |init| ==> init[i].seqNo <= last.seqNo
    ensures forall i :: 0 <= i < |r| ==> r[i].seqNo <= last.seqNo
  {
    forall i | 0 <= i < |r|
      ensures r[i].seqNo <= last.seqNo
    {
      assert r[i] in multiset(init) + multiset{w};
    }
  }

  lemma {:induction false} SortSorts(rows: seq<Wal>)
    ensures Sorted(SortBySeqNo(rows))
  {
    if rows != [] {
      SortSorts(rows[..|rows| - 1]);
      InsertSorts(SortBySeqNo(rows[..|rows| - 1]), rows[|rows| - 1]);
    }
  }

  predicate Older(a: Wal, b: Wal) {
    a.seqNo < b.seqNo
  }

  /** Whatever algorithm sorts rows with distinct seq_nos, the outcome is the same. */
  lemma SortIs(rows: seq<Wal>, asc: seq<Wal>)
    requires Ascending(asc) && multiset(rows) == multiset(asc)
    ensures SortBySeqNo(rows) == asc
  {
    SortSorts(rows);
    Sorting.SortedByUnique(SortBySeqNo(rows), asc, Older);
  }

  /** Two lists of the same rows name the same seq_nos. */
  lemma SameSeqNos(a: seq<Wal>, b: seq<Wal>, s: int)
    requires multiset(a) == multiset(b)
    ensures s in SeqNos(a) <==> s in SeqNos(b)
  {
    if s in SeqNos(a) {
      var i :| 0 <= i < |a| && SeqNos(a)[i] == s;
      assert a[i] in multiset(b);
      var j :| 0 <= j < |b| && b[j] == a[i];
      assert SeqNos(b)[j] == s;
    }
    if s in SeqNos(b) {
      var i :| 0 <= i < |b| && SeqNos(b)[i] == s;
      assert b[i] in multiset(a);
      var j :| 0 <= j < |a| && a[j] == b[i];
      assert SeqNos(a)[j] == s;
    }
  }

  lemma {:induction false} DistinctOfAscending(rows: seq<Wal>, asc: seq<Wal>)
    requires Ascending(asc) && multiset(rows) == multiset(asc)
    ensures Distinct(SeqNos(rows))
  {
    forall i, j | 0 <= i < j < |rows|
      ensures rows[i].seqNo != rows[j].seqNo
    {
      if rows[i].seqNo == rows[j].seqNo {
        assert rows[i] in multiset(asc) && rows[j] in multiset(asc);
        assert rows[i] == rows[j];
        Sorting.TwiceInMultiset(rows, i, j);
        Sorting.OnceInDistinct(asc, rows[i]);
      }
    }
  }
}

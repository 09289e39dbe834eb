/** The Postgres tables and the object bucket as objects the services share. */
module Database {
  import opened Types
  import opened Schema
  import Protocol

  /** The tables behind database.Queries, river's job table included. */
  class Database {
    var wals: seq<Wal>
    var nextWal: int
    var runs: seq<Run>
    var nextRun: int
    var jobs: seq<Job>
    var nextJob: int
    // nothing in the repository writes this table
    const partitions: seq<Partition>
    // no statement fails
    const reliable: bool

    function Tables(): Tables
      reads this
    {
      Schema.Tables.Tables(wals, nextWal, runs, nextRun, jobs, nextJob)
    }

    constructor (partitions: seq<Partition>, reliable: bool)
      ensures Tables() == Protocol.Init(Protocol.Deployment(0, map[])).tables && this.partitions == partitions
          && this.reliable == reliable
    {
      this.partitions, this.reliable := partitions, reliable;
      wals, nextWal, runs, nextRun, jobs, nextJob := [], 1, [], 1, [], 1;
    }

    /** Whether the next call fails, which a reliable database never does. */
    method Fails() returns (f: bool)
      ensures reliable ==> !f
    {
      f := *;
      f := f && !reliable;
    }

    /** INSERT INTO write_ahead_logs; the sequence may skip numbers, never repeat or decrease them. */
    method AddWriteAheadLog(path: Path) returns (ok: bool)
      modifies this
      ensures reliable ==> ok
      ensures !ok ==> Tables() == old(Tables())
      ensures ok ==> nextWal > old(nextWal) && Tables() == AddWal(old(Tables()), path, nextWal - 1)
    {
      var fails := Fails();
      if fails {
        return false;
      }
      var seqNo :| seqNo >= nextWal;
      wals := wals + [Wal(seqNo, New, path)];
      nextWal := seqNo + 1;
      return true;
    }

    /** SELECT * FROM write_ahead_logs: every row, in no particular order. */
    method GetWriteAheadLogs() returns (items: seq<Wal>)
      ensures multiset(items) == multiset(wals)
    {
      items := Scan(wals);
    }

    /** SELECT * FROM write_ahead_logs WHERE state = 'NEW' */
    method GetWriteAheadLogsToCompact() returns (items: seq<Wal>)
      ensures multiset(items) == multiset(Protocol.SelectNew(wals))
    {
      items := Scan(Protocol.SelectNew(wals));
    }

    /** SELECT * FROM shared_runs */
    method GetSharedRuns() returns (items: seq<Run>)
      ensures multiset(items) == multiset(runs)
    {
      items := Scan(runs);
    }

    /** SELECT * FROM partitions */
    method GetPartitions() returns (items: seq<Partition>)
      ensures multiset(items) == multiset(partitions)
    {
      items := Scan(partitions);
    }

    /** Reading a result set row by row, whatever order the rows come in. */
    static method Scan<Row(==)>(rows: seq<Row>) returns (items: seq<Row>)
      ensures multiset(items) == multiset(rows)
    {
      items := [];
      var rest := rows;
      while rest != []
        invariant multiset(items) + multiset(rest) == multiset(rows)
        decreases |rest|
      {
        var i :| 0 <= i < |rest|;
        assert rest == rest[..i] + [rest[i]] + rest[i + 1..];
        items := items + [rest[i]];
        rest := rest[..i] + rest[i + 1..];
      }
    }

    /** The answer is whether all of a non-empty list of distinct rows were NEW; only then are they marked. */
    method MarkWriteAheadLogsAsCompacting(seqNos: seq<int>) returns (answer: bool)
      requires Ascending(wals)
      modifies this
      ensures answer <==> seqNos != [] && Distinct(seqNos) && forall s :: s in seqNos ==> Holds(old(wals), s, New)
      ensures Tables() == old(Tables()).(wals := MarkRows(old(wals), seqNos))
      ensures |wals| == |old(wals)|
      ensures forall i :: 0 <= i < |wals| ==>
                wals[i] ==
                if answer && old(wals)[i].seqNo in seqNos then old(wals)[i].(state := Compacting) else old(wals)[i]
    {
      ValidMeans(wals, seqNos, New);
      answer := Valid(wals, seqNos, New);
      if answer {
        MarksAll(wals, seqNos);
        wals := MarkEach(wals, seqNos);
      }
    }

    static lemma MarksAll(rows: seq<Wal>, seqNos: seq<int>)
      requires Ascending(rows) && forall s :: s in seqNos ==> Holds(rows, s, New)
      ensures forall i :: 0 <= i < |rows| && rows[i].seqNo in seqNos ==> rows[i].state == New
    {
      forall i | 0 <= i < |rows| && rows[i].seqNo in seqNos
        ensures rows[i].state == New
      {
        assert Holds(rows, rows[i].seqNo, New);
        var j :| 0 <= j < |rows| && rows[j].seqNo == rows[i].seqNo && rows[j].state == New;
        assert i == j;
      }
    }

    /** The answer is whether all of a non-empty list of distinct rows were COMPACTING; only then are they gone. */
    method DeleteWriteAheadLogs(seqNos: seq<int>) returns (answer: bool)
      requires Ascending(wals)
      modifies this
      ensures answer <==> seqNos != [] && Distinct(seqNos) && forall s :: s in seqNos ==>
          Holds(old(wals), s, Compacting)
      ensures Tables() == old(Tables()).(wals := DeleteRows(old(wals), seqNos))
      ensures forall w :: w in wals <==> w in old(wals) && !(answer && w.seqNo in seqNos)
    {
      ValidMeans(wals, seqNos, Compacting);
      answer := Valid(wals, seqNos, Compacting);
      if answer {
        DeletesAll(wals, seqNos);
        wals := DeleteEach(wals, seqNos);
      }
    }

    static lemma DeletesAll(rows: seq<Wal>, seqNos: seq<int>)
      requires Ascending(rows) && forall s :: s in seqNos ==> Holds(rows, s, Compacting)
      ensures forall w :: w in DeleteEach(rows, seqNos) <==> w in rows && w.seqNo !in seqNos
    {
      forall w
        ensures w in DeleteEach(rows, seqNos) <==> w in rows && w.seqNo !in seqNos
      {
        DeletedMembers(rows, seqNos, w);
        if w in rows && w.seqNo in seqNos {
          var i :| 0 <= i < |rows| && rows[i] == w;
          assert Holds(rows, w.seqNo, Compacting);
          var j :| 0 <= j < |rows| && rows[j].seqNo == w.seqNo && rows[j].state == Compacting;
          assert i == j;
        }
      }
    }

    static lemma {:induction false} DeletedMembers(rows: seq<Wal>, seqNos: seq<int>, w: Wal)
      ensures w in DeleteEach(rows, seqNos) <==> w in rows && !(w.seqNo in seqNos && w.state == Compacting)
    {
      if rows != [] {
        DeletedMembers(rows[..|rows| - 1], seqNos, w);
        assert rows == rows[..|rows| - 1] + [rows[|rows| - 1]];
      }
    }

    /** INSERT INTO shared_runs */
    method AddSharedRun(path: Path) returns (ok: bool, runNo: int)
      modifies this
      ensures reliable ==> ok
      ensures runNo >= old(nextRun)
      ensures Tables() ==
          if ok then old(Tables()).(runs := old(runs) + [Run(runNo, path)], nextRun := runNo + 1)
          else old(Tables())
    {
      runNo :| runNo >= nextRun;
      var fails := Fails();
      if fails {
        return false, runNo;
      }
      runs := runs + [Run(runNo, path)];
      nextRun := runNo + 1;
      return true, runNo;
    }

    /** riverClient.InsertTx */
    method InsertJob(rows: seq<Wal>) returns (ok: bool)
      modifies this
      ensures reliable ==> ok
      ensures Tables() ==
          if ok then old(Tables()).(jobs := old(jobs) + [Job(old(nextJob), rows)], nextJob := old(nextJob) + 1)
          else old(Tables())
    {
      var fails := Fails();
      if fails {
        return false;
      }
      jobs := jobs + [Job(nextJob, rows)];
      nextJob := nextJob + 1;
      return true;
    }

    /** river.JobCompleteTx for the pending job at index `j` */
    method CompleteJob(j: nat) returns (ok: bool)
      requires j < |jobs|
      modifies this
      ensures reliable ==> ok
      ensures Tables() == if ok then old(Tables()).(jobs := old(jobs)[..j] + old(jobs)[j + 1..]) else old(Tables())
    {
      var fails := Fails();
      if fails {
        return false;
      }
      jobs := jobs[..j] + jobs[j + 1..];
      return true;
    }

    /** tx.Rollback */
    method Rollback(t: Tables)
      modifies this
      ensures Tables() == t
    {
      wals, nextWal, runs, nextRun, jobs, nextJob := t.wals, t.nextWal, t.runs, t.nextRun, t.jobs, t.nextJob;
    }
  }

  /** The loop both services list the seq_nos of their rows with. */
  method CollectSeqNos(rows: seq<Wal>) returns (seqNos: array<int>)
    ensures fresh(seqNos) && seqNos[..] == SeqNos(rows)
  {
    seqNos := new int[|rows|];
    for i := 0 to |rows|
      invariant forall k :: 0 <= k < i ==> seqNos[k] == rows[k].seqNo
    {
      seqNos[i] := rows[i].seqNo;
    }
  }

  /** The bucket. Services only ever write under names generated fresh. */
  class Bucket {
    var objects: map<Path, Object>
    // no call on an object that exists fails
    const reliable: bool

    constructor (objects: map<Path, Object>, reliable: bool)
      ensures this.objects == objects && this.reliable == reliable
    {
      this.objects, this.reliable := objects, reliable;
    }

    /** Whether the next call fails, which a reliable bucket never does. */
    method Fails() returns (f: bool)
      ensures reliable ==> !f
    {
      f := *;
      f := f && !reliable;
    }

    method Upload(path: Path, data: Object) returns (ok: bool)
      requires path !in objects
      modifies this
      ensures reliable ==> ok
      ensures objects == if ok then old(objects)[path := data] else old(objects)
    {
      var fails := Fails();
      if fails {
        return false;
      }
      objects := objects[path := data];
      return true;
    }

    method Download(path: Path) returns (data: Option<Object>)
      ensures reliable && path in objects ==> data.Some?
      ensures data.Some? ==> path in objects && data.value == objects[path]
    {
      if path !in objects {
        return None;
      }
      var fails := Fails();
      if fails {
        return None;
      }
      return Some(objects[path]);
    }
  }
}

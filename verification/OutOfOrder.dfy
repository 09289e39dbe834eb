/**
 Runs worth knowing: commits out of order and a run list older than the WAL list hide a write, a
 stalled second orchestrator does too, and a read of an acknowledged key can fail although all is
 in order and up to date.
 */
module OutOfOrder {
  import opened Types
  import opened Layers
  import opened Schema
  import opened Protocol
  import Dedup
  import EndToEnd
  import Index
  import InOrder
  import Invariant
  import Scheduling
  import Snapshots
  import SSTable
  import Varint
  import Views

  const KEY: Key := [107]

  const SETUP: Setup := Deployment(1, map[])

  function Rec(v: Byte): Record {
    Record(KEY, [v], false)
  }

  function Obj(v: Byte): Object {
    ObjFits(v);
    SSTable.Encode([Rec(v)])
  }

  lemma ObjFits(v: Byte)
    ensures |SSTable.Encode([Rec(v)])| <= MAX_INT
  {
    assert Varint.Encode(SSTable.CURRENT_VERSION) == [1];
    assert |SSTable.EncodeRecord(Rec(v))| <= 5;
    assert SSTable.EncodeRecords([Rec(v)]) == SSTable.EncodeRecord(Rec(v)) + SSTable.EncodeRecords([Rec(v)][1..]);
    assert [Rec(v)][1..] == [];
    assert SSTable.EncodeRecords([]) == [];
  }

  lemma ObjIs(v: Byte)
    ensures Content(Obj(v)) == EntriesOf([Rec(v)]) == map[KEY := Entry.Put([v])]
    ensures Canonical([Rec(v)], map[KEY := Entry.Put([v])])
    ensures Dedup.Flattens([Rec(v)], [Rec(v)])
  {
    hide SSTable.ScanAll, SSTable.Encode;
    ObjFits(v);
    assert [Rec(v)][..0] == [];
    ContentOfEncoded([Rec(v)]);
    assert EntriesOf([]) == map[];
    assert EntriesOf([Rec(v)]) == map[KEY := Entry.Put([v])];
    assert Dedup.HasKey([Rec(v)], KEY) by {
      assert [Rec(v)][0].key == KEY;
    }
  }

  function Writing(id: RequestId, path: Path, v: Byte, seqNo: int): seq<Step> {
    [Submit(id, [Rec(v)]), UploadWal(path, [id], [Rec(v)]), InsertWal(path, seqNo), Ack(id)]
  }

  function Claiming(path: Path, seqNo: int): seq<Step> {
    [ReadNew([Wal(seqNo, New, path)]), ClaimRows]
  }

  /** One write of KEY becomes a WAL, and its client is told. */
  lemma WriteOne(steps: seq<Step>, id: RequestId, path: Path, v: Byte)
    requires Legal(Init(SETUP), steps)
    requires var s := After(Init(SETUP), steps); id !in s.requests && id !in s.batched && path !in s.objects
    ensures var s := After(Init(SETUP), steps);
            var more := steps + Writing(id, path, v, s.tables.nextWal);
            && Legal(Init(SETUP), more)
            && var s' := After(Init(SETUP), more);
            && s'.tables == AddWal(s.tables, path, s.tables.nextWal)
            && s'.objects == s.objects[path := Obj(v)]
            && s'.requests.Keys == s.requests.Keys + {id} && s'.batched == s.batched + {id}
            && s'.history == s.history + [Wal(s.tables.nextWal, New, path)]
            && s'.claim == s.claim && s'.minWals == s.minWals && s'.executions == s.executions
            && s'.acked == s.acked + {id}
  {
    hide Execute, SSTable.Encode, Dedup.Flattens, Canonical, Content, EntriesOf, Enabled, Next;
    var s := After(Init(SETUP), steps);
    var w := Writing(id, path, v, s.tables.nextWal);
    UploadOne(s, id, path, v);
    TakeStep(Init(SETUP), steps, w[0]);
    TakeStep(Init(SETUP), steps + [w[0]], w[1]);
    InsertOne(After(Init(SETUP), steps + [w[0]] + [w[1]]), id, path);
    TakeStep(Init(SETUP), steps + [w[0]] + [w[1]], w[2]);
    TakeStep(Init(SETUP), steps + [w[0]] + [w[1]] + [w[2]], w[3]);
    assert steps + [w[0]] + [w[1]] + [w[2]] + [w[3]] == steps + w;
  }

  lemma UploadOne(s: State, id: RequestId, path: Path, v: Byte)
    requires id !in s.requests && id !in s.batched && path !in s.objects
    ensures var submit, upload := Submit(id, [Rec(v)]), UploadWal(path, [id], [Rec(v)]);
            && Enabled(s, submit)
            && var s1 := Next(s, submit);
            && Enabled(s1, upload)
            && Next(s1, upload) == s.(requests := s.requests[id := [Rec(v)]], batched := s.batched + {id},
                                      objects := s.objects[path := Obj(v)], flushes := s.flushes[path := [id]])
  {
    hide SSTable.Encode, Dedup.Flattens, Content, EntriesOf;
    ObjIs(v);
    BatchOfOne(s.requests[id := [Rec(v)]], id);
    var s1 := Next(s, Submit(id, [Rec(v)]));
    assert s1.batched + (set i | i in [id]) == s.batched + {id};
  }

  lemma InsertOne(s: State, id: RequestId, path: Path)
    requires path in s.flushes && s.flushes[path] == [id]
    ensures var insert := InsertWal(path, s.tables.nextWal);
            && Enabled(s, insert)
            && var s1 := Next(s, insert);
            && s1 == s.(tables := AddWal(s.tables, path, s.tables.nextWal), walOf := s1.walOf, flushes := s1.flushes,
                        history := s.history + [Wal(s.tables.nextWal, New, path)])
            && Enabled(s1, Ack(id)) && Next(s1, Ack(id)) == s1.(acked := s1.acked + {id})
  {
    hide LayerAt;
    assert id in s.flushes[path];
  }

  lemma BatchOfOne(requests: map<RequestId, seq<Record>>, id: RequestId)
    requires id in requests
    ensures BatchRecords(requests, [id]) == requests[id]
  {
    assert [id][..0] == [];
  }

  /** The orchestrator claims the one new row. */
  lemma ClaimOne(steps: seq<Step>, path: Path, seqNo: int, old': seq<Wal>)
    requires Legal(Init(SETUP), steps)
    requires var s := After(Init(SETUP), steps);
             && s.claim == None && s.minWals == 1 && s.tables.wals == old' + [Wal(seqNo, New, path)]
             && forall i :: 0 <= i < |old'| ==> old'[i].state == Compacting
    ensures var s := After(Init(SETUP), steps);
            var more := steps + Claiming(path, seqNo);
            && Legal(Init(SETUP), more)
            && var s' := After(Init(SETUP), more);
            && s' == s.(tables := s'.tables)
            && s'.tables == s.tables.(wals := old' + [Wal(seqNo, Compacting, path)],
                                      jobs := s.tables.jobs + [Job(s.tables.nextJob, [Wal(seqNo, New, path)])],
                                      nextJob := s.tables.nextJob + 1)
  {
    hide Execute, Scheduling.Inv, MarkRows, SelectNew;
    var s, w, c := After(Init(SETUP), steps), Wal(seqNo, New, path), Claiming(path, seqNo);
    Invariant.RunKeeps(SETUP, steps);
    SelectNewIs(s.tables.wals, |old'|);
    TakeStep(Init(SETUP), steps, c[0]);
    TakeStep(Init(SETUP), steps + [c[0]], c[1]);
    assert steps + [c[0]] + [c[1]] == steps + c;
    MarkOne(s.tables, old', w);
    assert SeqNos([w]) == [seqNo];
  }

  lemma MarkOne(t: Tables, old': seq<Wal>, w: Wal)
    requires Scheduling.Inv(t) && t.wals == old' + [w] && w.state == New
    requires forall i :: 0 <= i < |old'| ==> old'[i].state == Compacting
    ensures MarkRows(t.wals, SeqNos([w])) == old' + [w.(state := Compacting)]
  {
    hide Scheduling.Claimed, MarkRows, Scheduling.Block;
    var n := |Scheduling.Claimed(t.jobs)|;
    Scheduling.PartitionedElim(t.wals, t.jobs);
    FirstNew(t.wals, n, |old'|);
    assert t.wals[n..n + 1] == [w];
    Scheduling.ClaimedRows(t, [w]);
    BlockOfOne(t.nextJob, w);
    assert t.wals[..n] == old' && t.wals[n + 1..] == [];
  }

  /** The unclaimed rows start in one place. */
  lemma FirstNew(rows: seq<Wal>, n: nat, m: nat)
    requires n <= |rows| && m <= |rows|
    requires forall i :: 0 <= i < n ==> rows[i].state == Compacting
    requires forall i :: n <= i < |rows| ==> rows[i].state == New
    requires forall i :: 0 <= i < m ==> rows[i].state == Compacting
    requires forall i :: m <= i < |rows| ==> rows[i].state == New
    ensures n == m
  {
    SelectNewIs(rows, n);
    SelectNewIs(rows, m);
  }

  lemma BlockOfOne(id: int, w: Wal)
    ensures Scheduling.Block(Job(id, [w])) == [w.(state := Compacting)]
  {
    SortOne(w);
  }

  lemma SortOne(w: Wal)
    ensures SortBySeqNo([w]) == [w]
  {
    SortIs([w], [w]);
  }

  lemma MergeOfOne(objects: Objects, w: Wal)
    ensures Merged(objects, [w]) == LayerAt(objects, w.path)
  {
    hide LayerAt, SortBySeqNo;
    SortOne(w);
    var layers := WalLayers(objects, [w]);
    assert layers[..0] == [];
    assert Override(layers) == map[] + LayerAt(objects, w.path);
  }

  /** One write of KEY, acknowledged, in a row that a job has claimed. */
  lemma OneJob() returns (steps: seq<Step>)
    ensures Legal(Init(SETUP), steps)
    ensures var s := After(Init(SETUP), steps);
            && s.tables == Tables.Tables([Wal(1, Compacting, "a")], 2, [], 1, [Job(1, [Wal(1, New, "a")])], 2)
            && s.objects == map["a" := Obj(1)] && s.history == [Wal(1, New, "a")]
            && s.requests.Keys == {0} && s.batched == {0} && s.acked == {0}
            && s.claim == None && s.minWals == 1
    ensures forall i :: 0 <= i < |steps| ==> !steps[i].WorkCommit?
  {
    hide Execute, SSTable.Encode;
    var none: seq<Step> := [];
    assert Execute(Init(SETUP), none) == Some(Init(SETUP)) by {
      NoSteps(none);
    }
    WriteOne(none, 0, "a", 1);
    ClaimOne(none + Writing(0, "a", 1, 1), "a", 1, []);
    steps := none + Writing(0, "a", 1, 1) + Claiming("a", 1);
  }

  /** A second write of the key, submitted after `first` has acknowledged the first one, claimed by a job of its own. */
  lemma TwoJobs() returns (first: seq<Step>, steps: seq<Step>)
    ensures first <= steps && Legal(Init(SETUP), first)
        && After(Init(SETUP), first).acked == After(Init(SETUP), first).requests.Keys == {0}
    ensures Legal(Init(SETUP), steps)
    ensures var s := After(Init(SETUP), steps);
            && s.tables == Tables.Tables([Wal(1, Compacting, "a"), Wal(2, Compacting, "b")], 3, [], 1,
                                         [Job(1, [Wal(1, New, "a")]), Job(2, [Wal(2, New, "b")])], 3)
            && s.objects == map["a" := Obj(1), "b" := Obj(2)]
            && s.history == [Wal(1, New, "a"), Wal(2, New, "b")]
            && s.acked == {0, 1}
  {
    hide Execute, SSTable.Encode;
    first := OneJob();
    WriteOne(first, 1, "b", 2);
    var s3 := first + Writing(1, "b", 2, 2);
    ClaimOne(s3, "b", 2, [Wal(1, Compacting, "a")]);
    steps := s3 + Claiming("b", 2);
  }

  lemma NoSteps(steps: seq<Step>)
    requires steps == []
    ensures Legal(Init(SETUP), steps) && Execute(Init(SETUP), steps) == Some(Init(SETUP))
  {
  }

  /** A worker has merged and uploaded the second job. */
  lemma SecondUploaded() returns (first: seq<Step>, steps: seq<Step>)
    ensures first <= steps && Legal(Init(SETUP), first)
        && After(Init(SETUP), first).acked == After(Init(SETUP), first).requests.Keys == {0}
    ensures Legal(Init(SETUP), steps)
    ensures var s := After(Init(SETUP), steps);
            && s.tables == Tables.Tables([Wal(1, Compacting, "a"), Wal(2, Compacting, "b")], 3, [], 1,
                                         [Job(1, [Wal(1, New, "a")]), Job(2, [Wal(2, New, "b")])], 3)
            && s.objects == map["a" := Obj(1), "b" := Obj(2), "c" := Obj(2)]
            && s.history == [Wal(1, New, "a"), Wal(2, New, "b")]
            && (2, "c") in s.executions && s.acked == {0, 1}
  {
    hide Execute, SSTable.Encode, Canonical, Content, EntriesOf, Merged;
    var before: seq<Step>;
    first, before := TwoJobs();
    var s := After(Init(SETUP), before);
    ObjIs(2);
    ObjFits(2);
    MergeOfOne(s.objects, Wal(2, New, "b"));
    assert Pending(s.tables, 2, 1);
    TakeStep(Init(SETUP), before, WorkUpload(2, "c", [Rec(2)]));
    steps := before + [WorkUpload(2, "c", [Rec(2)])];
  }

  /**
   The second job commits before the first: both writes are acknowledged, the second one was
   submitted after the first was acknowledged, the WAL of the second write is gone into a run,
   and the key now reads as the first write left it.
   */
  lemma {:induction false} NewerJobFirst() returns (first: seq<Step>, steps: seq<Step>)
    ensures Legal(Init(SETUP), steps) && !InOrder.CommitsInOrder(Init(SETUP), steps)
    ensures InOrder.LastWrite(After(Init(SETUP), steps), KEY) == Some(Entry.Put([2]))
    ensures ViewEntry(After(Init(SETUP), steps), KEY) == Some(Entry.Put([1]))
    ensures After(Init(SETUP), steps).acked == {0, 1}
    ensures first <= steps && Legal(Init(SETUP), first)
    ensures 0 in After(Init(SETUP), first).acked && 1 !in After(Init(SETUP), first).requests
  {
    hide Execute, Content, Obj, Inv, Newest, ViewEntry, Commit, Views.Committing;
    var before: seq<Step>;
    first, before := SecondUploaded();
    var s, commit := After(Init(SETUP), before), WorkCommit(2, "c", 1);
    ObjIs(1);
    ObjIs(2);
    assert Pending(s.tables, 2, 1);
    CommittingSecond(s, commit);
    TakeStep(Init(SETUP), before, commit);
    Invariant.RunKeeps(SETUP, before);
    NextOfCommit(s, commit);
    Shadowed(s, commit);
    LastOfTwo(s.objects, s.history);
    steps := before + [commit];
    assert steps[..|steps| - 1] == before;
    assert !InOrder.TakesOldest(s, commit);
  }

  /**
   One job, committed after `steps`: an index with the WAL list of after the commit and the run
   list of before it finds nothing, while the key has a value before and after.
   */
  lemma {:induction false} NewerWalListLosesAWrite() returns (steps: seq<Step>, commit: Step)
    ensures Legal(Init(SETUP), steps) && commit.WorkCommit? && Enabled(After(Init(SETUP), steps), commit)
    ensures var s := After(Init(SETUP), steps);
            && ViewEntry(s, KEY) == ViewEntry(Next(s, commit), KEY) == Some(Entry.Put([1]))
            && Snapshots.SnapshotEntry(s.objects, Next(s, commit).tables.wals, s.tables.runs, KEY) == None
  {
    hide Execute, SSTable.Encode, Canonical, Content, EntriesOf, Merged, Inv, Commit, Newest, Obj;
    var before := OneJob();
    ObjIs(1);
    UploadMerged(After(Init(SETUP), before), 1, "a", 1, 1, "c");
    TakeStep(Init(SETUP), before, WorkUpload(1, "c", [Rec(1)]));
    steps, commit := before + [WorkUpload(1, "c", [Rec(1)])], WorkCommit(1, "c", 1);
    var s := After(Init(SETUP), steps);
    assert Pending(s.tables, 1, 0);
    Invariant.RunKeeps(SETUP, steps);
    NextOfCommit(s, commit);
    LoneJobMoves(s, commit);
  }

  lemma LoneJobMoves(s: State, commit: Step)
    requires Inv(s) && Commits(s, commit) && commit.jobId == 1
    requires s.tables.wals == [Wal(1, Compacting, "a")] && s.tables.jobs == [Job(1, [Wal(1, New, "a")])]
        && s.tables.runs == []
    requires LayerAt(s.objects, "a") == map[KEY := Entry.Put([1])]
    ensures ViewEntry(s, KEY) == ViewEntry(Committed(s, commit), KEY) == Some(Entry.Put([1]))
    ensures Snapshots.SnapshotEntry(s.objects, Committed(s, commit).tables.wals, s.tables.runs, KEY) == None
  {
    hide Inv, LayerAt, Committed, Commits;
    var (j, a, b) := Views.Committing(s, commit);
    assert s.tables.jobs[..0] == [];
    InOrder.NothingClaimed();
    Views.CommitMoves(s, commit, KEY);
    Views.EntryOfStack(s, a, b, KEY);
    assert s.tables.wals[..a] + s.tables.wals[b..] == [];
    assert s.tables.wals[a..b] == s.tables.wals && s.tables.wals[..a] == [] && s.tables.wals[b..] == [];
    Views.NewestOfOne(LayerAt(s.objects, "a"), KEY);
    assert WalLayers(s.objects, s.tables.wals) == [LayerAt(s.objects, "a")];
  }

  lemma CommittingSecond(s: State, commit: Step)
    requires Commits(s, commit) && |s.tables.jobs| == 2
    requires s.tables.jobs[0].id != commit.jobId == s.tables.jobs[1].id
    ensures Views.Committing(s, commit).0 == 1
  {
  }

  lemma LastOfTwo(objects: Objects, rows: seq<Wal>)
    requires |rows| == 2 && rows[1].path in objects && Content(objects[rows[1].path]) == map[KEY := Entry.Put([2])]
    ensures Newest(WalLayers(objects, rows), KEY) == Some(Entry.Put([2]))
  {
    hide Content;
  }

  lemma Shadowed(s: State, commit: Step)
    requires Inv(s) && Commits(s, commit) && Views.Committing(s, commit).0 == 1
    requires |s.tables.wals| == |s.tables.jobs| == 2
    requires s.tables.wals[0] == Wal(1, Compacting, "a") && s.tables.wals[1] == Wal(2, Compacting, "b")
    requires s.tables.jobs[1].wals == [Wal(2, New, "b")]
    requires LayerAt(s.objects, "a") == map[KEY := Entry.Put([1])] && KEY in LayerAt(s.objects, "b")
    ensures ViewEntry(Committed(s, commit), KEY) == Some(Entry.Put([1]))
  {
    hide Inv, Commits, LayerAt, ViewEntry, Committed;
    var job := s.tables.jobs[1];
    assert Scheduling.Carries(job, s.tables.wals[1]) by {
      assert job.wals[0].seqNo == s.tables.wals[1].seqNo;
    }
    assert !Scheduling.Carries(job, s.tables.wals[0]);
    assert Views.NewestHolder(s, 1, KEY);
    assert Views.NewestOutside(s, job, 0, KEY);
    Views.CommitEffect(s, commit, KEY);
  }

  // ---- in order, and still no answer ----

  lemma {:induction false} StaysInOrder(steps: seq<Step>, more: seq<Step>)
    requires Legal(Init(SETUP), steps) && InOrder.CommitsInOrder(Init(SETUP), steps)
    requires Legal(Init(SETUP), steps + more) && forall i :: 0 <= i < |more| ==> !more[i].WorkCommit?
    ensures InOrder.CommitsInOrder(Init(SETUP), steps + more)
  {
    hide Enabled, Next;
    if more == [] {
      assert steps + more == steps;
    } else {
      assert (steps + more)[..|steps + more| - 1] == steps + more[..|more| - 1];
      StaysInOrder(steps, more[..|more| - 1]);
    }
  }

  function Merging(id: int, out: Path, v: Byte, runNo: int): seq<Step> {
    [WorkUpload(id, out, [Rec(v)]), WorkCommit(id, out, runNo)]
  }

  /** The one pending job is merged, uploaded and committed. */
  lemma MergeOne(steps: seq<Step>, seqNo: int, path: Path, v: Byte, id: int, out: Path)
    requires Legal(Init(SETUP), steps) && InOrder.CommitsInOrder(Init(SETUP), steps)
    requires var s := After(Init(SETUP), steps);
             && s.tables.wals == [Wal(seqNo, Compacting, path)] && s.tables.jobs == [Job(id, [Wal(seqNo, New, path)])]
             && path in s.objects && s.objects[path] == Obj(v) && out !in s.objects
    ensures var s := After(Init(SETUP), steps);
            var more := steps + Merging(id, out, v, s.tables.nextRun);
            && Legal(Init(SETUP), more) && InOrder.CommitsInOrder(Init(SETUP), more)
            && var s' := After(Init(SETUP), more);
            && s' == s.(tables := s'.tables, objects := s.objects[out := Obj(v)], executions := s'.executions)
            && s'.tables == s.tables.(wals := [], jobs := [], runs := s.tables.runs + [Run(s.tables.nextRun, out)],
                                      nextRun := s.tables.nextRun + 1)
  {
    hide Execute, SSTable.Encode, Canonical, Content, EntriesOf, Merged, Inv, Enabled, Next;
    var s := After(Init(SETUP), steps);
    var m := Merging(id, out, v, s.tables.nextRun);
    UploadMerged(s, seqNo, path, v, id, out);
    TakeStep(Init(SETUP), steps, m[0]);
    StaysInOrder(steps, [m[0]]);
    var s1 := After(Init(SETUP), steps + [m[0]]);
    Invariant.RunKeeps(SETUP, steps + [m[0]]);
    CommitLone(s1, m[1], Wal(seqNo, Compacting, path));
    TakeStep(Init(SETUP), steps + [m[0]], m[1]);
    assert steps + [m[0]] + [m[1]] == steps + m;
    assert (steps + m)[..|steps| + 1] == steps + [m[0]];
  }

  lemma UploadMerged(s: State, seqNo: int, path: Path, v: Byte, id: int, out: Path)
    requires s.tables.jobs == [Job(id, [Wal(seqNo, New, path)])]
    requires path in s.objects && s.objects[path] == Obj(v) && out !in s.objects
    ensures var upload := WorkUpload(id, out, [Rec(v)]);
            && Enabled(s, upload)
            && Next(s, upload) == s.(objects := s.objects[out := Obj(v)], executions := s.executions + {(id, out)})
  {
    hide SSTable.Encode, Canonical, Content, EntriesOf, Merged;
    ObjIs(v);
    ObjFits(v);
    MergeOfOne(s.objects, Wal(seqNo, New, path));
    assert Pending(s.tables, id, 0);
  }

  lemma CommitLone(s: State, commit: Step, w: Wal)
    requires Inv(s) && commit.WorkCommit? && (commit.jobId, commit.path) in s.executions
        && commit.runNo == s.tables.nextRun
    requires s.tables.wals == [w] && s.tables.jobs == [Job(commit.jobId, [w.(state := New)])]
    ensures Enabled(s, commit) && InOrder.TakesOldest(s, commit)
    ensures var s' := Next(s, commit);
            && s' == s.(tables := s'.tables, executions := s'.executions)
            && s'.tables == s.tables.(wals := [], jobs := [],
                runs := s.tables.runs + [Run(s.tables.nextRun, commit.path)],
                                      nextRun := s.tables.nextRun + 1)
  {
    hide Inv, Commit;
    var t := s.tables;
    assert Pending(t, commit.jobId, 0);
    assert JobIndex(t, commit.jobId) == 0;
    assert Scheduling.Inv(t) by {
      Views.InvSchedules(s);
    }
    CommitLoneRow(t, commit.path, w);
  }

  lemma CommitLoneRow(t: Tables, path: Path, w: Wal)
    requires Scheduling.Inv(t) && t.wals == [w] && |t.jobs| == 1 && |t.jobs[0].wals| == 1
    ensures Commit(t, 0, path, t.nextRun) ==
            t.(wals := [], jobs := [], runs := t.runs + [Run(t.nextRun, path)], nextRun := t.nextRun + 1)
  {
    hide Scheduling.Inv, DeleteRows, Scheduling.IsStretch, Scheduling.Claimed;
    Scheduling.CommitKeeps(t, 0, path, t.nextRun);
    assert t.jobs[..0] == [];
    InOrder.NothingClaimed();
    assert t.wals[..0] + t.wals[1..] == [];
    assert t.jobs[..0] + t.jobs[1..] == [];
  }

  /** Two writes of one key, each acknowledged and each compacted by a job of its own, in scheduling order. */
  lemma TwoRuns() returns (steps: seq<Step>)
    ensures Legal(Init(SETUP), steps) && InOrder.CommitsInOrder(Init(SETUP), steps)
    ensures var s := After(Init(SETUP), steps);
            && s.tables.wals == [] && s.tables.jobs == [] && s.tables.runs == [Run(1, "c"), Run(2, "d")]
            && s.objects == map["a" := Obj(1), "c" := Obj(1), "b" := Obj(2), "d" := Obj(2)]
            && s.acked == {0, 1}
  {
    hide Legal, After, Execute, Obj, InOrder.CommitsInOrder;
    var first := OneJob();
    var none: seq<Step> := [];
    NoSteps(none);
    assert InOrder.CommitsInOrder(Init(SETUP), none) by {
      NothingInOrder(none);
    }
    OneJobInOrder(first);
    MergeOne(first, 1, "a", 1, 1, "c");
    var s1 := first + Merging(1, "c", 1, 1);
    WriteOne(s1, 1, "b", 2);
    var s2 := s1 + Writing(1, "b", 2, 2);
    StaysInOrder(s1, Writing(1, "b", 2, 2));
    ClaimOne(s2, "b", 2, []);
    var s3 := s2 + Claiming("b", 2);
    StaysInOrder(s2, Claiming("b", 2));
    MergeOne(s3, 2, "b", 2, 2, "d");
    steps := s3 + Merging(2, "d", 2, 2);
  }

  lemma NothingInOrder(steps: seq<Step>)
    requires steps == [] && Legal(Init(SETUP), steps)
    ensures InOrder.CommitsInOrder(Init(SETUP), steps)
  {
  }

  lemma OneJobInOrder(steps: seq<Step>)
    requires Legal(Init(SETUP), steps) && forall i :: 0 <= i < |steps| ==> !steps[i].WorkCommit?
    ensures InOrder.CommitsInOrder(Init(SETUP), steps)
  {
    hide Execute, InOrder.CommitsInOrder;
    var none: seq<Step> := [];
    NoSteps(none);
    NothingInOrder(none);
    assert none + steps == steps;
    StaysInOrder(none, steps);
  }

  /**
   Commits in order, lists up to date, every cache answering: the newer run has the only key asked
   for, no key is left for the older one, and the read of an acknowledged key fails.
   */
  lemma {:induction false} KeysRunOut() returns (steps: seq<Step>)
    ensures Legal(Init(SETUP), steps) && InOrder.CommitsInOrder(Init(SETUP), steps)
    ensures var s := After(Init(SETUP), steps);
            && s.acked == {0, 1} && ViewEntry(s, KEY) == Some(Entry.Put([2]))
            && forall view :: EndToEnd.Serves(view, s.objects, s.tables.wals, s.tables.runs) ==>
                Index.RunsOut(view, {KEY})
  {
    hide Execute, Obj, InOrder.CommitsInOrder, Content, ViewEntry;
    steps := TwoRuns();
    var s := After(Init(SETUP), steps);
    ObjIs(2);
    LastRunAnswers(s);
    forall view | EndToEnd.Serves(view, s.objects, s.tables.wals, s.tables.runs)
      ensures Index.RunsOut(view, {KEY})
    {
      LastRunEndsIt(view);
    }
  }

  lemma LastRunAnswers(s: State)
    requires s.tables.wals == [] && s.tables.runs == [Run(1, "c"), Run(2, "d")]
    requires LayerAt(s.objects, "d") == map[KEY := Entry.Put([2])]
    ensures ViewEntry(s, KEY) == Some(Entry.Put([2]))
  {
    hide Content;
  }

  lemma LastRunEndsIt(view: Index.Snapshot)
    requires view.wals == [] && view.runs == ["d", "c"] && KEY in LayerAt(view.objects, "d")
    ensures Index.RunsOut(view, {KEY})
  {
    hide LayerAt;
    assert Index.LayersOf(view.objects, view.wals) == [];
    assert Index.LayersOf(view.objects, view.runs[..0]) == [];
    assert Index.LayersOf(view.objects, view.runs[..1]) == [LayerAt(view.objects, "d")];
    assert [] + [LayerAt(view.objects, "d")] == [LayerAt(view.objects, "d")];
    assert Index.Open(view, 0, KEY);
    assert !Index.Open(view, 1, KEY);
    assert Index.Answered(view, 1, {KEY});
  }

  // ---- a second orchestrator ----

  /** What one row is marked and deleted to. */
  lemma OneRow(n: int, path: Path)
    ensures MarkRows([Wal(n, New, path)], [n]) == [Wal(n, Compacting, path)]
    ensures DeleteRows([Wal(n, Compacting, path)], [n]) == []
    ensures MarkRows([], [n]) == [] && DeleteRows([], [n]) == []
  {
    assert [Wal(n, New, path)][..0] == [] && [Wal(n, Compacting, path)][..0] == [];
    assert DeleteEach([], [n]) == [] && DeleteEach([Wal(n, Compacting, path)], [n]) == DeleteEach([], [n]) + [];
    assert Count([], [n], New) == 0 && Count([], [n], Compacting) == 0;
    assert Count([Wal(n, New, path)], [n], New) == 1 && Count([Wal(n, Compacting, path)], [n], Compacting) == 1;
  }

  /** Claiming one row, and committing the job that carries it. */
  lemma ClaimAndCommit(t: Tables, n: int, path: Path, out: Path)
    requires t.jobs == [] && (t.wals == [Wal(n, New, path)] || t.wals == [])
    ensures |Claim(t, [Wal(n, New, path)]).jobs| == 1
    ensures Commit(Claim(t, [Wal(n, New, path)]), 0, out, t.nextRun) ==
            t.(wals := [], runs := t.runs + [Run(t.nextRun, out)], nextRun := t.nextRun + 1, nextJob := t.nextJob + 1)
  {
    hide MarkRows, DeleteRows;
    OneRow(n, path);
    var row := Wal(n, New, path);
    assert SeqNos([row]) == [n];
    var claimed := Claim(t, [row]);
    assert claimed.jobs == [Job(t.nextJob, [row])];
    assert claimed.jobs[..0] + claimed.jobs[1..] == [];
  }

  /**
   Why one orchestrator: a second one reads the row of the first write and stalls. Meanwhile the
   first one claims it, its job commits, a second write of the key is claimed and its job commits.
   Then the stalled one claims the rows it read: the mark and later the delete answer false, nobody
   looks, and although every commit took the oldest job the key reads as the first write left it.
   */
  lemma StalledOrchestratorHidesAWrite()
    ensures var a, b := Wal(1, New, "a"), Wal(2, New, "b");
            var objects := map["a" := Obj(1), "b" := Obj(2), "c" := Obj(1), "d" := Obj(2), "e" := Obj(1)];
            var first := AddWal(Init(SETUP).tables, "a", 1);
            var second := AddWal(Commit(Claim(first, [a]), 0, "c", 1), "b", 2);
            var third := Commit(Claim(second, [b]), 0, "d", 2);
            var last := Commit(Claim(third, [a]), 0, "e", 3);
            && Merged(objects, [a]) == LayerAt(objects, "e") && Merged(objects, [b]) == LayerAt(objects, "d")
            && !Valid(third.wals, SeqNos([a]), New) && !Valid(Claim(third, [a]).wals, SeqNos([a]), Compacting)
            && var s := Init(SETUP).(tables := last, objects := objects, history := [a, b]);
            && InOrder.LastWrite(s, KEY) == Some(Entry.Put([2])) && ViewEntry(s, KEY) == Some(Entry.Put([1]))
  {
    hide Obj, Content, Commit, Claim, Merged;
    ObjIs(1);
    ObjIs(2);
    var objects := map["a" := Obj(1), "b" := Obj(2), "c" := Obj(1), "d" := Obj(2), "e" := Obj(1)];
    var a, b := Wal(1, New, "a"), Wal(2, New, "b");
    var first := AddWal(Init(SETUP).tables, "a", 1);
    ClaimAndCommit(first, 1, "a", "c");
    var second := AddWal(Commit(Claim(first, [a]), 0, "c", 1), "b", 2);
    ClaimAndCommit(second, 2, "b", "d");
    var third := Commit(Claim(second, [b]), 0, "d", 2);
    ClaimAndCommit(third, 1, "a", "e");
    NothingToClaim(third, a);
    MergeOfOne(objects, a);
    MergeOfOne(objects, b);
  }

  lemma NothingToClaim(t: Tables, w: Wal)
    requires t.wals == []
    ensures !Valid(t.wals, SeqNos([w]), New) && !Valid(Claim(t, [w]).wals, SeqNos([w]), Compacting)
  {
    assert Count([], SeqNos([w]), New) == 0 && Count([], SeqNos([w]), Compacting) == 0;
    assert Claim(t, [w]).wals == [];
  }

  // ---- the partition level ----

  /** A bucket that holds a partition's object from the start: the third level of a read has data. */
  lemma PartitionsHoldData()
    ensures ObjReadable(7)
    ensures Index.BaseOf([Partition([], ["p"])], map["p" := Obj(7)]) == map[KEY := [7]]
  {
    hide Content, Obj;
    ObjIs(7);
    ObjIsReadable(7);
    var ps, objects := [Partition([], ["p"])], map["p" := Obj(7)];
    var view := Index.Snapshot.Snapshot([], [], ps, objects);
    forall k
      ensures Get(Index.BaseOf(ps, objects), k) == if k == KEY then Some([7]) else None
    {
      Index.BaseOfIs(ps, objects, k);
      assert Index.Holds(ps, 0, k);
      Index.PartitionValueIs(view, 0, k);
      assert Index.LayersOf(objects, ["p"]) == [LayerAt(objects, "p")];
      assert [LayerAt(objects, "p")][..0] == [];
    }
    SameLayer(Index.BaseOf(ps, objects), map[KEY := [7]]);
  }

  predicate ObjReadable(v: Byte) {
    AllReadable(map["p" := Obj(v)])
  }

  lemma ObjIsReadable(v: Byte)
    ensures ObjReadable(v)
  {
    hide SSTable.Encode, Readable;
    ObjFits(v);
    assert StrictlySorted([Rec(v)]);
    Invariant.EncodedReadable([Rec(v)]);
  }
}

/** Every step keeps the protocol's invariant, so it holds after every run. */
module Invariant {
  import opened Types
  import opened Layers
  import opened Schema
  import opened Protocol
  import Dedup
  import Scheduling
  import SSTable

  // ---- objects only ever appear ----

  predicate Extends(o: Objects, o': Objects) {
    forall p :: p in o ==> p in o' && o'[p] == o[p]
  }

  lemma SameWalLayers(o: Objects, o': Objects, rows: seq<Wal>)
    requires Extends(o, o') && forall w :: w in rows ==> w.path in o
    ensures WalLayers(o', rows) == WalLayers(o, rows)
  {
    assert forall i :: 0 <= i < |rows| ==> rows[i].path in o;
  }

  lemma SameRunLayers(o: Objects, o': Objects, runs: seq<Run>)
    requires Extends(o, o') && forall r :: r in runs ==> r.path in o
    ensures RunLayers(o', runs) == RunLayers(o, runs)
  {
    assert forall i :: 0 <= i < |runs| ==> runs[i].path in o;
  }

  lemma JobPathsExist(s: State, j: nat)
    requires Scheduling.Inv(s.tables) && PathsExist(s) && j < |s.tables.jobs|
    ensures forall w :: w in SortBySeqNo(s.tables.jobs[j].wals) ==> w.path in s.objects
  {
    hide SortBySeqNo, Scheduling.Claimed;
    var rows := s.tables.jobs[j].wals;
    forall w | w in SortBySeqNo(rows)
      ensures w.path in s.objects
    {
      assert w in multiset(SortBySeqNo(rows));
      var k :| 0 <= k < |rows| && rows[k] == w;
      var m := Scheduling.RowInTable(s.tables, j, k);
      assert s.tables.wals[m] in s.tables.wals;
    }
  }

  lemma {:induction false} SameMerged(s: State, o': Objects, j: nat)
    requires Scheduling.Inv(s.tables) && PathsExist(s) && j < |s.tables.jobs| && Extends(s.objects, o')
    ensures Merged(o', s.tables.jobs[j].wals) == Merged(s.objects, s.tables.jobs[j].wals)
  {
    hide SortBySeqNo, Override, Scheduling.Inv;
    JobPathsExist(s, j);
    SameWalLayers(s.objects, o', SortBySeqNo(s.tables.jobs[j].wals));
  }

  // ---- uploads ----

  lemma EncodedReadable(records: seq<Record>)
    requires StrictlySorted(records) && |SSTable.Encode(records)| <= MAX_INT
    ensures Readable(SSTable.Encode(records))
  {
    hide SSTable.Encode, SSTable.ScanAll, Less;
    SSTable.RoundTrip(records);
  }

  /** An upload under a fresh name disturbs nothing that was there. */
  lemma UploadKeeps(s: State, path: Path, records: seq<Record>)
    requires Inv(s) && path !in s.objects && StrictlySorted(records) && |SSTable.Encode(records)| <= MAX_INT
    ensures var s' := s.(objects := s.objects[path := SSTable.Encode(records)]);
            Inv(s') && Extends(s.objects, s'.objects) && LayerAt(s'.objects, path) == EntriesOf(records)
  {
    hide SSTable.Encode, Merged, Scheduling.Inv, Scheduling.ClaimReady, Readable, Content, StrictlySorted, EntriesOf;
    var s' := s.(objects := s.objects[path := SSTable.Encode(records)]);
    EncodedReadable(records);
    ContentOfEncoded(records);
    assert Extends(s.objects, s'.objects);
    assert forall p :: p in s.objects ==> LayerAt(s'.objects, p) == LayerAt(s.objects, p);
    forall j | 0 <= j < |s.tables.jobs|
      ensures Merged(s'.objects, s.tables.jobs[j].wals) == Merged(s.objects, s.tables.jobs[j].wals)
    {
      SameMerged(s, s'.objects, j);
    }
    UploadKeepsRequests(s, s');
  }

  lemma UploadKeepsRequests(s: State, s': State)
    requires RequestsInv(s) && PathsExist(s)
    requires s' == s.(objects := s'.objects) && Extends(s.objects, s'.objects)
    ensures RequestsInv(s')
  {
    hide Content;
    hide LayerAt, Covers, Landed;
    forall p | p in s.objects
      ensures LayerAt(s'.objects, p) == LayerAt(s.objects, p)
    {
      SameLayerAt(s.objects, s'.objects, p);
    }
    forall id | id in s'.walOf
      ensures Landed(s', id)
    {
      LandedInMore(s, s', id);
    }
  }

  lemma SameLayerAt(o: Objects, o': Objects, p: Path)
    requires p in o && Extends(o, o')
    ensures LayerAt(o', p) == LayerAt(o, p)
  {
  }

  lemma LandedInMore(s: State, s': State, id: RequestId)
    requires id in s.walOf && id in s.requests && Landed(s, id)
    requires s' == s.(objects := s'.objects) && forall w :: w in s.history ==>
        LayerAt(s'.objects, w.path) == LayerAt(s.objects, w.path)
    ensures Landed(s', id)
  {
    hide LayerAt, Covers;
    var i :| 0 <= i < |s.history| && s.history[i].seqNo == s.walOf[id]
        && Covers(LayerAt(s.objects, s.history[i].path), s.requests[id]);
    assert s.history[i] in s.history;
  }

  lemma FlattenedCovers(batch: seq<Record>, records: seq<Record>, writes: seq<Record>)
    requires Dedup.Flattens(batch, records) && forall r :: r in writes ==> r in batch
    ensures Covers(EntriesOf(records), writes)
  {
    forall r | r in writes
      ensures r.key in EntriesOf(records)
    {
      assert Dedup.HasKey(records, r.key);
      EntriesOfKeys(records, r.key);
    }
  }

  lemma {:induction false} BatchContains(requests: map<RequestId, seq<Record>>, ids: seq<RequestId>, i: nat)
    requires forall k :: 0 <= k < |ids| ==> ids[k] in requests
    requires i < |ids|
    ensures forall r :: r in requests[ids[i]] ==> r in BatchRecords(requests, ids)
  {
    if i < |ids| - 1 {
      BatchContains(requests, ids[..|ids| - 1], i);
    }
  }

  lemma UploadWalKeeps(s: State, step: Step)
    requires Inv(s) && step.UploadWal? && Enabled(s, step)
    ensures Inv(Next(s, step))
  {
    hide SSTable.Encode, Scheduling.Inv, ClaimInv, ExecutionsInv, HistoryInv, AllReadable, RequestsInv, BatchRecords;
    hide LayerAt;
    var path, ids, records := step.path, step.ids, step.records;
    var s1 := s.(objects := s.objects[path := SSTable.Encode(records)]);
    var s' := Next(s, step);
    UploadKeeps(s, path, records);
    assert s' == s1.(batched := s'.batched, flushes := s'.flushes);
    forall i | 0 <= i < |ids|
      ensures Covers(LayerAt(s'.objects, path), s.requests[ids[i]])
    {
      BatchContains(s.requests, ids, i);
      FlattenedCovers(BatchRecords(s.requests, ids), records, s.requests[ids[i]]);
    }
    assert path !in s1.flushes;
    FlushKeepsRequests(s1, s', path, ids);
    SameClaimAndExecutions(s1, s');
  }

  lemma FlushKeepsRequests(s: State, s': State, path: Path, ids: seq<RequestId>)
    requires RequestsInv(s) && path !in s.flushes
    requires s' == s.(batched := s.batched + (set i | i in ids), flushes := s.flushes[path := ids])
    requires forall i :: 0 <= i < |ids| ==>
        ids[i] in s.requests && ids[i] !in s.batched && Covers(LayerAt(s.objects, path), s.requests[ids[i]])
    ensures RequestsInv(s')
  {
    hide LayerAt, Covers, Landed;
    forall id | id in s'.walOf
      ensures Landed(s', id)
    {
      SameLanded(s, s', id);
    }
  }

  lemma SameLanded(s: State, s': State, id: RequestId)
    requires id in s.walOf && id in s.requests && Landed(s, id)
    requires id in s'.walOf && id in s'.requests && s'.walOf[id] == s.walOf[id] && s'.requests[id] == s.requests[id]
    requires s'.objects == s.objects && s.history <= s'.history
    ensures Landed(s', id)
  {
    hide LayerAt, Covers;
    var i :| 0 <= i < |s.history| && s.history[i].seqNo == s.walOf[id]
        && Covers(LayerAt(s.objects, s.history[i].path), s.requests[id]);
    assert s'.history[i] == s.history[i];
  }

  /** The parts of the invariant that only look at tables, objects, claim, executions and history. */
  lemma SameClaimAndExecutions(s: State, s': State)
    requires s'.tables == s.tables && s'.objects == s.objects && s'.claim == s.claim
    requires s'.executions == s.executions && s'.history == s.history
    ensures ClaimInv(s') <==> ClaimInv(s)
    ensures ExecutionsInv(s') <==> ExecutionsInv(s)
    ensures HistoryInv(s') <==> HistoryInv(s)
  {
  }

  lemma WorkUploadKeeps(s: State, step: Step)
    requires Inv(s) && step.WorkUpload? && Enabled(s, step)
    ensures Inv(Next(s, step))
  {
    hide SSTable.Encode, ClaimInv, HistoryInv, AllReadable, RequestsInv, LayerAt, Merged, EntriesOf, ExecutionsInv;
    hide Scheduling.Inv;
    var path, records := step.path, step.records;
    var s1 := s.(objects := s.objects[path := SSTable.Encode(records)]);
    var s' := Next(s, step);
    UploadKeeps(s, path, records);
    assert s' == s1.(executions := s'.executions);
    var j :| Pending(s.tables, step.jobId, j) && Canonical(records, Merged(s.objects, s.tables.jobs[j].wals));
    SameMerged(s, s'.objects, j);
    OneMoreExecution(s1, j, path);
    SameHistoryAndRequests(s1, s');
  }

  lemma OneMoreExecution(s: State, j: nat, path: Path)
    requires Scheduling.Inv(s.tables) && ExecutionsInv(s) && j < |s.tables.jobs|
    requires LayerAt(s.objects, path) == Merged(s.objects, s.tables.jobs[j].wals)
    ensures ExecutionsInv(s.(executions := s.executions + {(s.tables.jobs[j].id, path)}))
  {
    hide LayerAt, Merged, Scheduling.Partitioned, Ascending, Scheduling.RunsInOrder;
    var job := s.tables.jobs[j];
    var s' := s.(executions := s.executions + {(job.id, path)});
    forall e, i | e in s'.executions && 0 <= i < |s'.tables.jobs| && s'.tables.jobs[i].id == e.0
      ensures LayerAt(s'.objects, e.1) == Merged(s'.objects, s'.tables.jobs[i].wals)
    {
      if e !in s.executions {
        assert i == j;
      }
    }
  }

  lemma SameHistoryAndRequests(s: State, s': State)
    requires s' == s.(executions := s'.executions)
    ensures ClaimInv(s') <==> ClaimInv(s)
    ensures HistoryInv(s') <==> HistoryInv(s)
    ensures RequestsInv(s) ==> RequestsInv(s')
  {
    hide LayerAt, Covers, Landed, Scheduling.ClaimReady, Merged;
    if RequestsInv(s) {
      forall id | id in s'.walOf
        ensures Landed(s', id)
      {
        SameLanded(s, s', id);
      }
    }
  }

  // ---- requests ----

  lemma SubmitKeeps(s: State, step: Step)
    requires Inv(s) && step.Submit? && Enabled(s, step)
    ensures Inv(Next(s, step))
  {
    hide Scheduling.Inv, ClaimInv, ExecutionsInv, HistoryInv, AllReadable, LayerAt, Covers, Landed;
    var s' := Next(s, step);
    SameClaimAndExecutions(s, s');
    forall id | id in s'.walOf
      ensures Landed(s', id)
    {
      SameLanded(s, s', id);
    }
  }

  lemma AckKeeps(s: State, step: Step)
    requires Inv(s) && step.Ack? && Enabled(s, step)
    ensures Inv(Next(s, step))
  {
    hide Scheduling.Inv, ClaimInv, ExecutionsInv, HistoryInv, AllReadable, LayerAt, Covers, Landed;
    var s' := Next(s, step);
    SameClaimAndExecutions(s, s');
    forall id | id in s'.walOf
      ensures Landed(s', id)
    {
      SameLanded(s, s', id);
    }
  }

  lemma InsertWalKeeps(s: State, step: Step)
    requires Inv(s) && step.InsertWal? && Enabled(s, step)
    ensures Inv(Next(s, step))
  {
    hide Scheduling.Inv, Scheduling.ClaimReady, Merged, AllReadable, Content;
    var s' := Next(s, step);
    Scheduling.AddWalKeeps(s.tables, step.path, step.seqNo);
    AddWalKeepsJobs(s.tables, step.path, step.seqNo);
    InsertKeepsHistory(s, step);
    InsertKeepsRequests(s, step);
  }

  lemma AddWalKeepsJobs(t: Tables, path: Path, seqNo: int)
    ensures AddWal(t, path, seqNo).jobs == t.jobs && AddWal(t, path, seqNo).runs == t.runs
    ensures AddWal(t, path, seqNo).wals == t.wals + [Wal(seqNo, New, path)]
  {
  }

  lemma InsertKeepsHistory(s: State, step: Step)
    requires HistoryInv(s) && step.InsertWal? && Enabled(s, step)
    ensures HistoryInv(Next(s, step))
  {
  }

  lemma InsertKeepsRequests(s: State, step: Step)
    requires RequestsInv(s) && step.InsertWal? && Enabled(s, step)
    ensures RequestsInv(Next(s, step))
  {
    hide LayerAt, Covers, Landed;
    var s', n := Next(s, step), |s.history|;
    forall id | id in s'.walOf
      ensures Landed(s', id)
    {
      if id in s.flushes[step.path] {
        LandedAtEnd(s', n, id);
      } else {
        SameLanded(s, s', id);
      }
    }
  }

  lemma LandedAtEnd(s: State, n: nat, id: RequestId)
    requires n < |s.history| && id in s.walOf && id in s.requests && s.history[n].seqNo == s.walOf[id]
    requires Covers(LayerAt(s.objects, s.history[n].path), s.requests[id])
    ensures Landed(s, id)
  {
  }

  // ---- the orchestrator ----

  lemma ReadNewKeeps(s: State, step: Step)
    requires Inv(s) && step.ReadNew? && Enabled(s, step)
    ensures Inv(Next(s, step))
  {
    hide Scheduling.Inv, Scheduling.ClaimReady, ExecutionsInv, HistoryInv, RequestsInv, AllReadable, SelectNew;
    hide Scheduling.Claimed;
    SelectedIsReady(s.tables, step.rows);
    SameExceptClaim(s, Next(s, step));
  }

  lemma SelectedIsReady(t: Tables, rows: seq<Wal>)
    requires Scheduling.Inv(t) && multiset(rows) == multiset(SelectNew(t.wals))
    ensures Scheduling.ClaimReady(t, rows) && |Scheduling.Claimed(t.jobs)| + |rows| == |t.wals|
  {
    hide Scheduling.Claimed, SelectNew;
    var n := |Scheduling.Claimed(t.jobs)|;
    SelectNewIs(t.wals, n);
    assert |rows| == |multiset(rows)| == |multiset(t.wals[n..])| == |t.wals[n..]|;
    assert t.wals[n..n + |rows|] == t.wals[n..];
  }

  lemma SameExceptClaim(s: State, s': State)
    requires s' == s.(claim := s'.claim)
    ensures ExecutionsInv(s') <==> ExecutionsInv(s)
    ensures HistoryInv(s') <==> HistoryInv(s)
    ensures RequestsInv(s) ==> RequestsInv(s')
  {
    hide LayerAt, Covers, Landed, Scheduling.ClaimReady, Merged;
    if RequestsInv(s) {
      forall id | id in s'.walOf
        ensures Landed(s', id)
      {
        SameLanded(s, s', id);
      }
    }
  }

  lemma ClaimRowsKeeps(s: State, step: Step)
    requires Inv(s) && step.ClaimRows? && Enabled(s, step)
    ensures Inv(Next(s, step))
  {
    hide Scheduling.Inv, Scheduling.ClaimReady, AllReadable, RequestsInv, PathsExist, HistoryInv, ExecutionsInv;
    hide MarkRows, SeqNos;
    ClaimKeepsTables(s.tables, s.claim.value);
    ClaimKeepsPaths(s, step);
    ClaimKeepsExecutions(s, step);
    OnlyTables(s, Next(s, step));
  }

  lemma ClaimKeepsPaths(s: State, step: Step)
    requires PathsExist(s) && HistoryInv(s) && step.ClaimRows? && Enabled(s, step)
    ensures PathsExist(Next(s, step)) && HistoryInv(Next(s, step))
  {
    hide MarkRows, SeqNos, Ascending;
    MarkKeepsRows(s.tables.wals, SeqNos(s.claim.value));
    forall w | w in Next(s, step).tables.wals
      ensures w.path in s.objects && w.(state := New) in s.history
    {
      var v :| v in s.tables.wals && v.(state := New) == w.(state := New);
    }
  }

  lemma ClaimKeepsExecutions(s: State, step: Step)
    requires ExecutionsInv(s) && step.ClaimRows? && Enabled(s, step)
    ensures ExecutionsInv(Next(s, step))
  {
    hide Merged, LayerAt, MarkRows, SeqNos;
  }

  lemma ClaimKeepsTables(t: Tables, rows: seq<Wal>)
    requires Scheduling.Inv(t) && Scheduling.ClaimReady(t, rows)
    ensures Scheduling.Inv(Claim(t, rows))
  {
    Scheduling.ClaimKeeps(t, rows);
  }

  lemma MarkKeepsRows(rows: seq<Wal>, seqNos: seq<int>)
    ensures |MarkRows(rows, seqNos)| == |rows|
    ensures forall i :: 0 <= i < |rows| ==> MarkRows(rows, seqNos)[i].(state := New) == rows[i].(state := New)
    ensures forall w :: w in MarkRows(rows, seqNos) ==> exists v :: v in rows && v.(state := New) == w.(state := New)
  {
    forall w | w in MarkRows(rows, seqNos)
      ensures exists v :: v in rows && v.(state := New) == w.(state := New)
    {
      var i :| 0 <= i < |rows| && MarkRows(rows, seqNos)[i] == w;
      assert rows[i] in rows;
    }
  }

  lemma OnlyTables(s: State, s': State)
    requires s'.requests == s.requests && s'.batched == s.batched && s'.flushes == s.flushes && s'.walOf == s.walOf
    requires s'.acked == s.acked && s'.history == s.history && s'.objects == s.objects
    ensures RequestsInv(s) ==> RequestsInv(s')
  {
    hide LayerAt, Covers, Landed, Scheduling.ClaimReady, Merged;
    if RequestsInv(s) {
      forall id | id in s'.walOf
        ensures Landed(s', id)
      {
        SameLanded(s, s', id);
      }
    }
  }

  lemma SkipClaimKeeps(s: State, step: Step)
    requires Inv(s) && step.SkipClaim? && Enabled(s, step)
    ensures Inv(Next(s, step))
  {
    hide Scheduling.Inv, ExecutionsInv, HistoryInv, RequestsInv, AllReadable;
    SameExceptClaim(s, Next(s, step));
  }

  // ---- the worker ----

  lemma WorkCommitKeeps(s: State, step: Step)
    requires Inv(s) && Commits(s, step)
    ensures Inv(Committed(s, step))
  {
    hide Scheduling.Inv, Scheduling.Claimed, Merged, LayerAt, AllReadable, RequestsInv, ExecutionsInv;
    hide Scheduling.ClaimReady, DeleteRows, Scheduling.IsStretch, Ascending;
    var t, s', j := s.tables, Committed(s, step), JobIndex(s.tables, step.jobId);
    Scheduling.CommitKeeps(t, j, step.path, step.runNo);
    if s.claim.Some? {
      Scheduling.CommitKeepsClaim(t, j, step.path, step.runNo, s.claim.value);
    }
    CutMembers(t.wals, |Scheduling.Claimed(t.jobs[..j])|, |Scheduling.Claimed(t.jobs[..j])| + |t.jobs[j].wals|) by {
      Scheduling.ClaimedFits(t);
    }
    assert (step.jobId, step.path) in s.executions;
    OneJobFewer(s, j, step);
    OnlyTables(s, s');
  }

  lemma CutMembers<T>(rows: seq<T>, a: nat, b: nat)
    requires a <= b <= |rows|
    ensures forall w :: w in rows[..a] + rows[b..] ==> w in rows
  {
  }

  lemma {:induction false} OneJobFewer(s: State, j: nat, step: Step)
    requires ExecutionsInv(s) && Commits(s, step) && j == JobIndex(s.tables, step.jobId)
    ensures ExecutionsInv(Committed(s, step))
  {
    hide Merged, LayerAt, DeleteRows;
    var s' := Committed(s, step);
    forall e, i | e in s'.executions && 0 <= i < |s'.tables.jobs| && s'.tables.jobs[i].id == e.0
      ensures LayerAt(s'.objects, e.1) == Merged(s'.objects, s'.tables.jobs[i].wals)
    {
      var k := if i < j then i else i + 1;
      assert s'.tables.jobs[i] == s.tables.jobs[k];
    }
  }

  lemma WorkFailKeeps(s: State, step: Step)
    requires Inv(s) && step.WorkFail? && Enabled(s, step)
    ensures Inv(Next(s, step))
  {
    hide Scheduling.Inv, AllReadable, HistoryInv, RequestsInv, ClaimInv, Merged;
    SameHistoryAndRequests(s, Next(s, step));
  }

  // ---- every run ----

  lemma StepKeeps(s: State, step: Step)
    requires Inv(s) && Enabled(s, step)
    ensures Inv(Next(s, step))
  {
    hide Inv, Next, Enabled;
    match step
    case Submit(_, _) => SubmitKeeps(s, step);
    case UploadWal(_, _, _) => UploadWalKeeps(s, step);
    case InsertWal(_, _) => InsertWalKeeps(s, step);
    case Ack(_) => AckKeeps(s, step);
    case ReadNew(_) => ReadNewKeeps(s, step);
    case ClaimRows => ClaimRowsKeeps(s, step);
    case SkipClaim => SkipClaimKeeps(s, step);
    case WorkUpload(_, _, _) => WorkUploadKeeps(s, step);
    case WorkCommit(_, _, _) => NextOfCommit(s, step); WorkCommitKeeps(s, step);
    case WorkFail(_, _) => WorkFailKeeps(s, step);
  }

  lemma InitHolds(setup: Setup)
    ensures Inv(Init(setup))
  {
  }

  lemma {:induction false} RunKeeps(setup: Setup, steps: seq<Step>)
    requires Legal(Init(setup), steps)
    ensures Inv(After(Init(setup), steps))
  {
    hide Inv, Next, Enabled;
    if steps == [] {
      InitHolds(setup);
    } else {
      RunKeeps(setup, steps[..|steps| - 1]);
      StepKeeps(After(Init(setup), steps[..|steps| - 1]), steps[|steps| - 1]);
    }
  }

  /**
   In every reachable state the COMPACTING rows are exactly the disjoint union of the pending
   jobs' WALs, later jobs hold larger seq_nos, and the two answers the code throws away are
   known: the mark of a read claim and the delete of any pending job succeed unless there is
   nothing to mark or delete, which a compaction threshold of at least one rules out.
   */
  lemma IgnoredAnswers(setup: Setup, steps: seq<Step>)
    requires Legal(Init(setup), steps)
    ensures var t := After(Init(setup), steps).tables;
            && (forall i :: 0 <= i < |t.wals| ==>
                 (t.wals[i].state == Compacting <==>
                     exists j :: 0 <= j < |t.jobs| && Scheduling.Carries(t.jobs[j], t.wals[i])))
            && (forall i, j, k | 0 <= i < |t.wals| && 0 <= j < |t.jobs| && 0 <= k < |t.jobs| ::
                 Scheduling.Carries(t.jobs[j], t.wals[i]) && Scheduling.Carries(t.jobs[k], t.wals[i]) ==> j == k)
            && (forall i, k, m, n | 0 <= i < k < |t.jobs| && 0 <= m < |t.jobs[i].wals| && 0 <= n < |t.jobs[k].wals| ::
                 t.jobs[i].wals[m].seqNo < t.jobs[k].wals[n].seqNo)
    ensures var s := After(Init(setup), steps);
            && (s.claim.Some? ==> (Valid(s.tables.wals, SeqNos(s.claim.value), New) <==> s.claim.value != []))
            && (forall j :: 0 <= j < |s.tables.jobs| ==>
                 (Valid(s.tables.wals, SeqNos(s.tables.jobs[j].wals), Compacting) <==> s.tables.jobs[j].wals != []))
    ensures setup.minWals >= 1 ==> forall j :: 0 <= j < |After(Init(setup), steps).tables.jobs| ==>
              After(Init(setup), steps).tables.jobs[j].wals != []
  {
    hide Scheduling.Inv, Scheduling.ClaimReady, Valid, Execute, Scheduling.Carries;
    var s := After(Init(setup), steps);
    RunKeeps(setup, steps);
    Scheduling.CompactingRowsArePendingJobs(s.tables);
    if s.claim.Some? {
      Scheduling.ClaimKeeps(s.tables, s.claim.value);
    }
    forall j | 0 <= j < |s.tables.jobs|
      ensures Valid(s.tables.wals, SeqNos(s.tables.jobs[j].wals), Compacting) <==> s.tables.jobs[j].wals != []
    {
      Scheduling.CommitKeeps(s.tables, j, "", s.tables.nextRun);
    }
    NoEmptyJobs(setup, steps);
  }

  lemma {:induction false} NoEmptyJobs(setup: Setup, steps: seq<Step>)
    requires Legal(Init(setup), steps)
    ensures After(Init(setup), steps).minWals == setup.minWals
    ensures setup.minWals >= 1 ==> forall job :: job in After(Init(setup), steps).tables.jobs ==> job.wals != []
  {
    hide Enabled, Next;
    if steps != [] {
      NoEmptyJobs(setup, steps[..|steps| - 1]);
      StepAddsNoEmptyJob(After(Init(setup), steps[..|steps| - 1]), steps[|steps| - 1]);
    }
  }

  lemma StepAddsNoEmptyJob(s: State, step: Step)
    requires Enabled(s, step)
    ensures Next(s, step).minWals == s.minWals
    ensures forall job :: job in Next(s, step).tables.jobs ==> job in s.tables.jobs || |job.wals| >= s.minWals
  {
    hide MarkRows, DeleteRows, Canonical, Merged, SelectNew, BatchRecords, Dedup.Flattens, SSTable.Encode;
  }
}

/** Where the answers come from: what an object says was written by a request of its own. */
module Provenance {
  import opened Types
  import opened Layers
  import opened Schema
  import opened Protocol
  import Dedup
  import InOrder
  import Invariant
  import Scheduling
  import Snapshots
  import SSTable
  import Views

  /** One of the writes puts this entry under `k`. */
  predicate Writes(writes: seq<Record>, k: Key, e: Entry) {
    exists r :: r in writes && r.key == k && EntryOf(r) == e
  }

  /** Request `id` is in the row with this seq_no and wrote this entry. */
  predicate WroteIn(s: State, id: RequestId, seqNo: int, k: Key, e: Entry) {
    id in s.walOf && s.walOf[id] == seqNo && id in s.requests && Writes(s.requests[id], k, e)
  }

  predicate FlushTraced(s: State, p: Path)
    requires p in s.flushes
  {
    forall k :: k in LayerAt(s.objects, p) ==>
      exists id :: id in s.flushes[p] && id in s.requests && Writes(s.requests[id], k, LayerAt(s.objects, p)[k])
  }

  ghost predicate RowTraced(s: State, w: Wal) {
    forall k :: k in LayerAt(s.objects, w.path) ==>
        exists id :: WroteIn(s, id, w.seqNo, k, LayerAt(s.objects, w.path)[k])
  }

  /** Every entry of a flushed object and of every row ever inserted was written by a request in it. */
  ghost predicate Traced(s: State) {
    && (forall p :: p in s.flushes ==> FlushTraced(s, p))
    && (forall w :: w in s.history ==> RowTraced(s, w))
  }

  // ---- every step keeps it ----

  predicate SameLayers(s: State, s': State) {
    && (forall p :: p in s.flushes ==> LayerAt(s'.objects, p) == LayerAt(s.objects, p))
    && (forall w :: w in s.history ==> LayerAt(s'.objects, w.path) == LayerAt(s.objects, w.path))
  }

  lemma LayersStay(s: State, s': State)
    requires PathsExist(s) && Invariant.Extends(s.objects, s'.objects)
    ensures SameLayers(s, s')
  {
    hide Content;
  }

  /** Requests only appear, and those with a row keep it. */
  predicate MoreRequests(s: State, s': State) {
    && (forall id :: id in s.requests ==> id in s'.requests && s'.requests[id] == s.requests[id])
    && (forall id :: id in s.walOf ==> id in s'.walOf && s'.walOf[id] == s.walOf[id])
  }

  lemma FlushStays(s: State, s': State, p: Path)
    requires p in s.flushes && p in s'.flushes && s'.flushes[p] == s.flushes[p]
    requires FlushTraced(s, p) && MoreRequests(s, s') && LayerAt(s'.objects, p) == LayerAt(s.objects, p)
    ensures FlushTraced(s', p)
  {
    hide LayerAt, Writes;
    forall k | k in LayerAt(s'.objects, p)
      ensures exists id | id in s'.flushes[p] && id in s'.requests ::
                Writes(s'.requests[id], k, LayerAt(s'.objects, p)[k])
    {
      var id :| id in s.flushes[p] && id in s.requests && Writes(s.requests[id], k, LayerAt(s.objects, p)[k]);
      assert s'.requests[id] == s.requests[id];
    }
  }

  lemma RowStays(s: State, s': State, w: Wal)
    requires RowTraced(s, w) && MoreRequests(s, s') && LayerAt(s'.objects, w.path) == LayerAt(s.objects, w.path)
    ensures RowTraced(s', w)
  {
    hide LayerAt, Writes;
    forall k | k in LayerAt(s'.objects, w.path)
      ensures exists id :: WroteIn(s', id, w.seqNo, k, LayerAt(s'.objects, w.path)[k])
    {
      var id :| WroteIn(s, id, w.seqNo, k, LayerAt(s.objects, w.path)[k]);
      assert WroteIn(s', id, w.seqNo, k, LayerAt(s'.objects, w.path)[k]);
    }
  }

  /** A step that adds no flush and no row. */
  lemma NothingNew(s: State, s': State)
    requires Traced(s) && MoreRequests(s, s') && SameLayers(s, s')
    requires s'.flushes == s.flushes && s'.history == s.history
    ensures Traced(s')
  {
    hide LayerAt, FlushTraced, RowTraced, MoreRequests;
    forall p | p in s'.flushes
      ensures FlushTraced(s', p)
    {
      FlushStays(s, s', p);
    }
    forall w | w in s'.history
      ensures RowTraced(s', w)
    {
      RowStays(s, s', w);
    }
  }

  lemma {:induction false} BatchSource(requests: map<RequestId, seq<Record>>, ids: seq<RequestId>, r: Record)
    requires forall i :: 0 <= i < |ids| ==> ids[i] in requests
    requires r in BatchRecords(requests, ids)
    ensures exists id :: id in ids && id in requests && r in requests[id]
  {
    var last := ids[|ids| - 1];
    if r in requests[last] {
      assert last in ids;
    } else {
      BatchSource(requests, ids[..|ids| - 1], r);
      var id :| id in ids[..|ids| - 1] && id in requests && r in requests[id];
      assert id in ids;
    }
  }

  lemma NewFlushTraced(s: State, path: Path, ids: seq<RequestId>, records: seq<Record>)
    requires path in s.flushes && s.flushes[path] == ids && LayerAt(s.objects, path) == EntriesOf(records)
    requires forall i :: 0 <= i < |ids| ==> ids[i] in s.requests
    requires Dedup.Flattens(BatchRecords(s.requests, ids), records)
    ensures FlushTraced(s, path)
  {
    hide LayerAt, EntriesOf, BatchRecords;
    forall k | k in EntriesOf(records)
      ensures exists id :: id in ids && id in s.requests && Writes(s.requests[id], k, EntriesOf(records)[k])
    {
      var i := Dedup.EntrySource(records, k);
      assert records[i] in records;
      BatchSource(s.requests, ids, records[i]);
      var id :| id in ids && id in s.requests && records[i] in s.requests[id];
      assert Writes(s.requests[id], k, EntriesOf(records)[k]);
    }
  }

  lemma UploadTraced(s: State, step: Step)
    requires Inv(s) && Traced(s) && step.UploadWal? && Enabled(s, step)
    ensures Traced(Next(s, step))
  {
    hide Inv, Canonical, Merged, LayerAt, EntriesOf, BatchRecords, Dedup.Flattens, SSTable.Encode, FlushTraced;
    hide RowTraced;
    var s', path := Next(s, step), step.path;
    UploadFacts(s, step);
    forall p | p in s'.flushes
      ensures FlushTraced(s', p)
    {
      if p == path {
        NewFlushTraced(s', path, step.ids, step.records);
      } else {
        FlushStays(s, s', p);
      }
    }
    forall w | w in s'.history
      ensures RowTraced(s', w)
    {
      RowStays(s, s', w);
    }
  }

  lemma UploadFacts(s: State, step: Step)
    requires Inv(s) && step.UploadWal? && Enabled(s, step)
    ensures MoreRequests(s, Next(s, step)) && SameLayers(s, Next(s, step))
    ensures LayerAt(Next(s, step).objects, step.path) == EntriesOf(step.records)
  {
    hide Inv, BatchRecords, SSTable.Encode, Content, EntriesOf;
    InOrder.InvGivesPaths(s);
    LayersStay(s, Next(s, step));
    ContentOfEncoded(step.records);
  }

  lemma InsertTraced(s: State, step: Step)
    requires Inv(s) && Traced(s) && step.InsertWal? && Enabled(s, step)
    ensures Traced(Next(s, step))
  {
    hide Inv, LayerAt, FlushTraced, RowTraced;
    var s', w := Next(s, step), Wal(step.seqNo, New, step.path);
    InsertFacts(s, step);
    forall p | p in s'.flushes
      ensures FlushTraced(s', p)
    {
      FlushStays(s, s', p);
    }
    forall v | v in s'.history
      ensures RowTraced(s', v)
    {
      if v == w {
        InsertedTraced(s, s', w);
      } else {
        RowStays(s, s', v);
      }
    }
  }

  lemma {:induction false} InsertFacts(s: State, step: Step)
    requires Inv(s) && step.InsertWal? && Enabled(s, step)
    ensures MoreRequests(s, Next(s, step))
    ensures forall id :: id in s.flushes[step.path] ==>
        id in Next(s, step).walOf && Next(s, step).walOf[id] == step.seqNo
    ensures forall id :: id in s.flushes[step.path] ==> id in s.requests
  {
    hide Scheduling.Inv, AllReadable, PathsExist, ClaimInv, ExecutionsInv, HistoryInv, LayerAt, Covers, Landed;
  }

  lemma InsertedTraced(s: State, s': State, w: Wal)
    requires w.path in s.flushes && FlushTraced(s, w.path) && s'.objects == s.objects && MoreRequests(s, s')
    requires forall id :: id in s.flushes[w.path] ==> id in s'.walOf && s'.walOf[id] == w.seqNo
    ensures RowTraced(s', w)
  {
    hide LayerAt, Writes;
    forall k | k in LayerAt(s'.objects, w.path)
      ensures exists id :: WroteIn(s', id, w.seqNo, k, LayerAt(s'.objects, w.path)[k])
    {
      var id :| id in s.flushes[w.path] && id in s.requests && Writes(s.requests[id], k, LayerAt(s.objects, w.path)[k]);
      assert WroteIn(s', id, w.seqNo, k, LayerAt(s'.objects, w.path)[k]);
    }
  }

  lemma StepTraced(s: State, step: Step)
    requires Inv(s) && Traced(s) && Enabled(s, step)
    ensures Traced(Next(s, step))
  {
    hide Inv, Traced, Next, Enabled, MoreRequests, SameLayers;
    if step.UploadWal? {
      UploadTraced(s, step);
    } else if step.InsertWal? {
      InsertTraced(s, step);
    } else {
      InOrder.InvGivesPaths(s);
      Snapshots.StepExtends(s, step);
      LayersStay(s, Next(s, step));
      OtherSteps(s, step);
      NothingNew(s, Next(s, step));
    }
  }

  lemma OtherSteps(s: State, step: Step)
    requires Enabled(s, step) && !step.UploadWal? && !step.InsertWal?
    ensures Next(s, step).flushes == s.flushes && Next(s, step).history == s.history && MoreRequests(s, Next(s, step))
  {
    hide Merged, Canonical, SelectNew, MarkRows, DeleteRows, SSTable.Encode;
  }

  lemma {:induction false} RunTraced(setup: Setup, steps: seq<Step>)
    requires Legal(Init(setup), steps)
    ensures Traced(After(Init(setup), steps))
  {
    hide Inv, Next, Enabled, FlushTraced, RowTraced;
    if steps != [] {
      RunTraced(setup, steps[..|steps| - 1]);
      Invariant.RunKeeps(setup, steps[..|steps| - 1]);
      StepTraced(After(Init(setup), steps[..|steps| - 1]), steps[|steps| - 1]);
    }
  }

  // ---- what readers are told was written ----

  /** Some request with a row wrote this entry. */
  ghost predicate Written(s: State, k: Key, e: Entry) {
    exists id, n :: WroteIn(s, id, n, k, e)
  }

  ghost predicate AnswerWritten(s: State, k: Key) {
    ViewEntry(s, k).Some? ==> Written(s, k, ViewEntry(s, k).value)
  }

  lemma WrittenStays(s: State, s': State, k: Key, e: Entry)
    requires Written(s, k, e) && MoreRequests(s, s')
    ensures Written(s', k, e)
  {
    hide Writes;
    var id, n :| WroteIn(s, id, n, k, e);
    assert WroteIn(s', id, n, k, e);
  }

  lemma RowWritten(s: State, w: Wal, k: Key)
    requires RowTraced(s, w) && k in LayerAt(s.objects, w.path)
    ensures Written(s, k, LayerAt(s.objects, w.path)[k])
  {
    hide LayerAt, WroteIn;
  }

  lemma StepMore(s: State, step: Step)
    requires Inv(s) && Enabled(s, step)
    ensures MoreRequests(s, Next(s, step))
  {
    hide Inv, Next, Enabled, MoreRequests;
    if step.UploadWal? {
      UploadFacts(s, step);
    } else if step.InsertWal? {
      InsertFacts(s, step);
    } else {
      OtherSteps(s, step);
    }
  }

  lemma InsertAnswers(s: State, step: Step, k: Key)
    requires Inv(s) && AnswerWritten(s, k) && step.InsertWal? && Enabled(s, step) && Traced(Next(s, step))
    ensures AnswerWritten(Next(s, step), k)
  {
    hide Inv, LayerAt, ViewEntry, Written, RowTraced, MoreRequests;
    var s', w := Next(s, step), Wal(step.seqNo, New, step.path);
    InOrder.InsertIsNewest(s, step, k);
    StepMore(s, step);
    assert w in s'.history;
    if k in LayerAt(s.objects, step.path) {
      RowWritten(s', w, k);
    } else if ViewEntry(s, k).Some? {
      WrittenStays(s, s', k, ViewEntry(s, k).value);
    }
  }

  lemma CommitMore(s: State, step: Step)
    requires Commits(s, step)
    ensures MoreRequests(s, Committed(s, step))
  {
    hide Commit;
  }

  lemma CommitAnswers(s: State, step: Step, k: Key)
    requires Inv(s) && Traced(s) && AnswerWritten(s, k) && Commits(s, step)
    ensures AnswerWritten(Committed(s, step), k)
  {
    hide Inv, LayerAt, ViewEntry, Written, RowTraced, MoreRequests, Committed, Commits, Views.NewestHolder;
    hide Scheduling.Carries;
    var s', job := Committed(s, step), s.tables.jobs[Views.Committing(s, step).0];
    Views.CommitEffect(s, step, k);
    CommitMore(s, step);
    if Views.Disturbed(s, job, k) {
      var m :| Views.NewestOutside(s, job, m, k);
      RowInHistory(s, m);
      RowWritten(s, s.tables.wals[m].(state := New), k);
      WrittenStays(s, s', k, LayerAt(s.objects, s.tables.wals[m].path)[k]);
    } else if ViewEntry(s, k).Some? {
      WrittenStays(s, s', k, ViewEntry(s, k).value);
    }
  }

  lemma RowInHistory(s: State, m: nat)
    requires Inv(s) && m < |s.tables.wals|
    ensures s.tables.wals[m].(state := New) in s.history
  {
    hide Scheduling.Inv, AllReadable, PathsExist, ClaimInv, ExecutionsInv, RequestsInv;
    assert s.tables.wals[m] in s.tables.wals;
  }

  lemma StepAnswers(s: State, step: Step, k: Key)
    requires Inv(s) && Traced(s) && AnswerWritten(s, k) && Enabled(s, step)
    ensures AnswerWritten(Next(s, step), k)
  {
    hide Inv, Next, Enabled, ViewEntry, Written, Traced, MoreRequests, InOrder.LastWrite;
    StepTraced(s, step);
    StepMore(s, step);
    if step.InsertWal? {
      InsertAnswers(s, step, k);
    } else if step.WorkCommit? {
      NextOfCommit(s, step);
      CommitAnswers(s, step, k);
    } else {
      if step.ClaimRows? {
        InOrder.ClaimChangesNothing(s, step, k);
      } else {
        InOrder.InvGivesPaths(s);
        Snapshots.StepExtends(s, step);
        TablesStay(s, step);
        InOrder.UploadChangesNothing(s, Next(s, step), k);
      }
      if ViewEntry(s, k).Some? {
        WrittenStays(s, Next(s, step), k, ViewEntry(s, k).value);
      }
    }
  }

  lemma TablesStay(s: State, step: Step)
    requires Enabled(s, step) && !step.InsertWal? && !step.ClaimRows? && !step.WorkCommit?
    ensures Next(s, step).tables == s.tables && Next(s, step).history == s.history
  {
    hide Merged, Canonical, SelectNew, BatchRecords, SSTable.Encode, Dedup.Flattens;
  }

  lemma {:induction false} RunAnswers(setup: Setup, steps: seq<Step>, k: Key)
    requires Legal(Init(setup), steps)
    ensures AnswerWritten(After(Init(setup), steps), k)
  {
    hide Inv, Next, Enabled, Traced, Written;
    if steps == [] {
      NothingShown(setup, k);
    } else {
      RunAnswers(setup, steps[..|steps| - 1], k);
      RunTraced(setup, steps[..|steps| - 1]);
      Invariant.RunKeeps(setup, steps[..|steps| - 1]);
      StepAnswers(After(Init(setup), steps[..|steps| - 1]), steps[|steps| - 1], k);
    }
  }

  lemma NothingShown(setup: Setup, k: Key)
    ensures ViewEntry(Init(setup), k) == None
  {
  }

  /**
   Whatever the order of commits: a reader who is shown a value is shown one the partitions hold
   or one that a request with a row wrote under this very key.
   */
  lemma {:induction false} ReadsWereWritten(setup: Setup, steps: seq<Step>, base: Values, k: Key)
    requires Legal(Init(setup), steps)
    ensures var s := After(Init(setup), steps);
            View(s, base, k).Some? ==>
              (ViewEntry(s, k) == None && View(s, base, k) == Get(base, k))
                  || Written(s, k, Entry.Put(View(s, base, k).value))
  {
    hide Execute, ViewEntry, Written;
    RunAnswers(setup, steps, k);
  }
}

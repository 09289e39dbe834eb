/**
 The storage protocol as a step system. Every SQL statement or transaction, every upload and
 every local move of a service is one atomic step; steps of different services interleave
 freely. One orchestrator runs, and each job commits at most once; uploaded objects are
 written once under fresh names.
 */
module Protocol {
  import opened Types
  import opened Layers
  import opened Schema
  import Dedup
  import Scheduling
  import SSTable

  /** A client's write request. */
  type RequestId = nat

  type Objects = map<Path, Object>

  datatype State = State(
    tables: Tables,
    objects: Objects,
    // the rows the orchestrator has read and not yet claimed
    claim: Option<seq<Wal>>,
    minWals: int,
    // uploaded and not yet committed executions: job id and path of the merged run
    executions: set<(int, Path)>,
    // requests the batchers have accepted, those already put into a flushed batch,
    // the flushes uploaded but not inserted, the seq_no each request ended up under,
    // and the requests whose clients have been told
    requests: map<RequestId, seq<Record>>,
    batched: set<RequestId>,
    flushes: map<Path, seq<RequestId>>,
    walOf: map<RequestId, int>,
    acked: set<RequestId>,
    // every row ever inserted into write_ahead_logs
    history: seq<Wal>)

  /** The orchestrator's threshold, and what the bucket holds before the first step: the partitions' objects. */
  datatype Deployment = Deployment(minWals: int, stored: Objects)

  type Setup = d: Deployment | AllReadable(d.stored) witness Deployment(1, map[])

  function Init(setup: Setup): State {
    State(Tables.Tables([], 1, [], 1, [], 1), setup.stored, None, setup.minWals, {}, map[], {}, map[], map[], {}, [])
  }

  datatype Step =
    | Submit(id: RequestId, writes: seq<Record>)
    | UploadWal(path: Path, ids: seq<RequestId>, records: seq<Record>)
    | InsertWal(path: Path, seqNo: int)
    | Ack(id: RequestId)
    | ReadNew(rows: seq<Wal>)
    | ClaimRows
    | SkipClaim
    | WorkUpload(jobId: int, path: Path, records: seq<Record>)
    | WorkCommit(jobId: int, path: Path, runNo: int)
    | WorkFail(jobId: int, path: Path)

  function BatchRecords(requests: map<RequestId, seq<Record>>, ids: seq<RequestId>): seq<Record>
    requires forall i :: 0 <= i < |ids| ==> ids[i] in requests
  {
    if ids == [] then [] else BatchRecords(requests, ids[..|ids| - 1]) + requests[ids[|ids| - 1]]
  }

  function LayerAt(objects: Objects, path: Path): Layer {
    if path in objects then Content(objects[path]) else map[]
  }

  function WalLayers(objects: Objects, rows: seq<Wal>): (l: seq<Layer>)
    ensures |l| == |rows| && forall i :: 0 <= i < |rows| ==> l[i] == LayerAt(objects, rows[i].path)
  {
    seq(|rows|, i requires 0 <= i < |rows| => LayerAt(objects, rows[i].path))
  }

  function RunLayers(objects: Objects, runs: seq<Run>): (l: seq<Layer>)
    ensures |l| == |runs| && forall i :: 0 <= i < |runs| ==> l[i] == LayerAt(objects, runs[i].path)
  {
    seq(|runs|, i requires 0 <= i < |runs| => LayerAt(objects, runs[i].path))
  }

  /** What the worker writes for a job: its WALs overlaid in seq_no order. */
  function Merged(objects: Objects, rows: seq<Wal>): Layer {
    Override(WalLayers(objects, SortBySeqNo(rows)))
  }

  ghost predicate Pending(t: Tables, jobId: int, j: int) {
    0 <= j < |t.jobs| && t.jobs[j].id == jobId
  }

  /** A commit, of a finished execution of a pending job. */
  ghost predicate Commits(s: State, step: Step) {
    && step.WorkCommit?
    && (step.jobId, step.path) in s.executions
    && (exists j :: Pending(s.tables, step.jobId, j))
    && step.runNo >= s.tables.nextRun
  }

  ghost predicate Enabled(s: State, step: Step) {
    match step
    case Submit(id, writes) => id !in s.requests
    case UploadWal(path, ids, records) =>
      && path !in s.objects
      && (forall i :: 0 <= i < |ids| ==> ids[i] in s.requests && ids[i] !in s.batched)
      && Dedup.Flattens(BatchRecords(s.requests, ids), records)
      && |SSTable.Encode(records)| <= MAX_INT
    case InsertWal(path, seqNo) => path in s.flushes && seqNo >= s.tables.nextWal
    case Ack(id) => id in s.walOf
    case ReadNew(rows) =>
      && s.claim == None
      && multiset(rows) == multiset(SelectNew(s.tables.wals))
    case ClaimRows => s.claim.Some? && |s.claim.value| >= s.minWals
    case SkipClaim => s.claim.Some?
    case WorkUpload(jobId, path, records) =>
      && path !in s.objects
      && (exists j :: Pending(s.tables, jobId, j) && Canonical(records, Merged(s.objects, s.tables.jobs[j].wals)))
      && |SSTable.Encode(records)| <= MAX_INT
    case WorkCommit(_, _, _) => Commits(s, step)
    case WorkFail(jobId, path) => (jobId, path) in s.executions
  }

  /** GetWriteAheadLogsToCompact */
  function SelectNew(rows: seq<Wal>): seq<Wal> {
    if rows == [] then [] else
    SelectNew(rows[..|rows| - 1]) + if rows[|rows| - 1].state == New then [rows[|rows| - 1]] else []
  }

  lemma {:induction false} SelectNewIs(rows: seq<Wal>, n: nat)
    requires n <= |rows|
    requires forall i :: 0 <= i < n ==> rows[i].state == Compacting
    requires forall i :: n <= i < |rows| ==> rows[i].state == New
    ensures SelectNew(rows) == rows[n..]
  {
    if rows != [] {
      if n == |rows| {
        SelectNewIs(rows[..|rows| - 1], n - 1);
      } else {
        SelectNewIs(rows[..|rows| - 1], n);
        assert rows[n..] == rows[..|rows| - 1][n..] + [rows[|rows| - 1]];
      }
    }
  }

  ghost function JobIndex(t: Tables, jobId: int): (j: nat)
    requires exists j :: Pending(t, jobId, j)
    ensures Pending(t, jobId, j)
  {
    var j :| Pending(t, jobId, j);
    j
  }

  ghost function Committed(s: State, step: Step): State
    requires Commits(s, step)
  {
    s.(tables := Commit(s.tables, JobIndex(s.tables, step.jobId), step.path, step.runNo),
       executions := s.executions - {(step.jobId, step.path)})
  }

  ghost function Next(s: State, step: Step): State
    requires Enabled(s, step)
  {
    match step
    case Submit(id, writes) => s.(requests := s.requests[id := writes])
    case UploadWal(path, ids, records) =>
      s.(objects := s.objects[path := SSTable.Encode(records)],
         batched := s.batched + (set i | i in ids),
         flushes := s.flushes[path := ids])
    case InsertWal(path, seqNo) =>
      s.(tables := AddWal(s.tables, path, seqNo),
         history := s.history + [Wal(seqNo, New, path)],
         walOf := s.walOf + map id | id in s.flushes[path] :: seqNo,
         flushes := s.flushes - {path})
    case Ack(id) => s.(acked := s.acked + {id})
    case ReadNew(rows) => s.(claim := Some(rows))
    case ClaimRows => s.(tables := Claim(s.tables, s.claim.value), claim := None)
    case SkipClaim => s.(claim := None)
    case WorkUpload(jobId, path, records) =>
      s.(objects := s.objects[path := SSTable.Encode(records)], executions := s.executions + {(jobId, path)})
    case WorkCommit(_, _, _) => Committed(s, step)
    case WorkFail(jobId, path) => s.(executions := s.executions - {(jobId, path)})
  }

  lemma {:induction false} NextOfCommit(s: State, step: Step)
    requires step.WorkCommit? && Enabled(s, step)
    ensures Commits(s, step) && Next(s, step) == Committed(s, step)
  {
  }

  /** The state a list of steps leads to, if each is enabled where it is taken. */
  ghost function Execute(s: State, steps: seq<Step>): Option<State> {
    if steps == [] then Some(s) else
    match Execute(s, steps[..|steps| - 1])
    case None => None
    case Some(before) =>
      var step := steps[|steps| - 1];
      if Enabled(before, step) then Some(Next(before, step)) else None
  }

  ghost predicate Legal(s: State, steps: seq<Step>) {
    Execute(s, steps).Some?
  }

  ghost function After(s: State, steps: seq<Step>): State
    requires Legal(s, steps)
  {
    Execute(s, steps).value
  }

  lemma {:induction false} LegalPrefix(s: State, steps: seq<Step>, n: nat)
    requires Legal(s, steps) && n <= |steps|
    ensures Legal(s, steps[..n])
  {
    if n == |steps| {
      assert steps[..n] == steps;
    } else {
      assert steps[..|steps| - 1][..n] == steps[..n];
      LegalPrefix(s, steps[..|steps| - 1], n);
    }
  }

  /** One more step at the end of a run. */
  lemma {:induction false} TakeStep(s: State, steps: seq<Step>, step: Step)
    requires Legal(s, steps) && Enabled(After(s, steps), step)
    ensures Legal(s, steps + [step]) && After(s, steps + [step]) == Next(After(s, steps), step)
  {
    hide Enabled, Next;
    assert (steps + [step])[..|steps|] == steps;
  }

  // ---- what readers see ----

  /** The newest entry for `k`: live WALs before shared runs, each newest first. */
  function ViewEntry(s: State, k: Key): Option<Entry> {
    OrElse(Newest(WalLayers(s.objects, s.tables.wals), k), Newest(RunLayers(s.objects, s.tables.runs), k))
  }

  /** What a reader is told about `k` when the partitions hold `base`. */
  function View(s: State, base: Values, k: Key): Option<Bytes> {
    Resolve(ViewEntry(s, k), Get(base, k))
  }

  /** The plain map after every WAL ever added, in seq_no order. */
  function Reference(s: State, base: Values): Values {
    Replay(base, WalLayers(s.objects, s.history))
  }

  // ---- the invariant ----

  /** The object decodes without fault to distinct keys in order. */
  predicate Readable(obj: Object) {
    var scan := SSTable.ScanAll(obj);
    StrictlySorted(scan.records) && !scan.panics
  }

  predicate AllReadable(objects: Objects) {
    forall p :: p in objects ==> Readable(objects[p])
  }

  predicate PathsExist(s: State) {
    && (forall w :: w in s.tables.wals ==> w.path in s.objects)
    && (forall r :: r in s.tables.runs ==> r.path in s.objects)
    && (forall w :: w in s.history ==> w.path in s.objects)
    && (forall p :: p in s.flushes ==> p in s.objects)
    && (forall e :: e in s.executions ==> e.1 in s.objects)
  }

  predicate ClaimInv(s: State) {
    s.claim.Some? ==> Scheduling.ClaimReady(s.tables, s.claim.value)
  }

  /** A finished upload holds the merge of its job's WALs. */
  predicate ExecutionsInv(s: State) {
    && (forall e :: e in s.executions ==> e.0 < s.tables.nextJob)
    && forall e, j :: e in s.executions && 0 <= j < |s.tables.jobs| && s.tables.jobs[j].id == e.0 ==>
      LayerAt(s.objects, e.1) == Merged(s.objects, s.tables.jobs[j].wals)
  }

  predicate HistoryInv(s: State) {
    && Ascending(s.history)
    && (forall w :: w in s.history ==> w.seqNo < s.tables.nextWal)
    && (forall w :: w in s.tables.wals ==> w.(state := New) in s.history)
  }

  /** The layer has a word on every key the writes touch. */
  predicate Covers(layer: Layer, writes: seq<Record>) {
    forall r :: r in writes ==> r.key in layer
  }

  predicate RequestsInv(s: State) {
    && s.acked <= s.walOf.Keys <= s.batched <= s.requests.Keys
    && (forall p, id :: p in s.flushes && id in s.flushes[p] ==>
          id in s.batched && id !in s.walOf && Covers(LayerAt(s.objects, p), s.requests[id]))
    && (forall p, q, id :: p in s.flushes && q in s.flushes && id in s.flushes[p] && id in s.flushes[q] ==> p == q)
    && (forall id :: id in s.walOf ==> Landed(s, id))
  }

  /** The request's writes are in a row of the history. */
  predicate Landed(s: State, id: RequestId)
    requires id in s.walOf && id in s.requests
  {
    exists i :: 0 <= i < |s.history| && s.history[i].seqNo == s.walOf[id] &&
      Covers(LayerAt(s.objects, s.history[i].path), s.requests[id])
  }

  predicate Inv(s: State) {
    && Scheduling.Inv(s.tables)
    && AllReadable(s.objects)
    && PathsExist(s)
    && ClaimInv(s)
    && ExecutionsInv(s)
    && HistoryInv(s)
    && RequestsInv(s)
  }
}

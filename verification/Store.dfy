/**
 The services' code run against one database and one bucket: every call is at most two steps of
 the protocol and one event of the batcher, so every state the code reaches is a state the
 theorems speak about, and a client is told of success only when its writes have a row.
 */
module Store {
  import opened Types
  import opened Layers
  import opened Schema
  import opened Protocol
  import Batcher
  import BatchHandler
  import CompactWals
  import Database
  import Dedup
  import EndToEnd
  import Index
  import IndexHandler
  import InOrder
  import Invariant
  import Orchestrator
  import Provenance
  import RealTime
  import Scheduling
  import SSTable

  // ---- the batcher's state against the protocol's ----

  /** Request `id` is in a batch that has been written, successfully or not. */
  predicate Settled(b: Batcher.State, id: RequestId) {
    exists n :: n in b.outcomes && n < |b.taken| && id in b.taken[n].callbacks
  }

  /** A request is named by its callback: what was received is what was submitted, and what was written has a row. */
  ghost predicate Linked(s: State, b: Batcher.State) {
    && (forall q :: q in b.accepted ==> q.callback in s.requests && s.requests[q.callback] == q.writes)
    && (forall id :: id in s.batched ==> Settled(b, id))
    && (forall n, id :: n in b.outcomes && n < |b.taken| && b.outcomes[n] && id in b.taken[n].callbacks ==>
        id in s.walOf)
    && (forall id :: id in s.acked <==> Batcher.Reply(id, true) in b.replies)
  }

  lemma SettledStays(b: Batcher.State, b': Batcher.State, id: RequestId)
    requires Settled(b, id) && b.taken <= b'.taken && b.outcomes.Keys <= b'.outcomes.Keys
    ensures Settled(b', id)
  {
    var n :| n in b.outcomes && n < |b.taken| && id in b.taken[n].callbacks;
    assert n in b'.outcomes && b'.taken[n] == b.taken[n];
  }

  /** Events that write no batch and tell nobody of success. */
  lemma QuietEvent(c: Batcher.Config, s: State, b: Batcher.State, e: Batcher.Event)
    requires Linked(s, b) && Batcher.Honest(b) && Batcher.Enabled(c, b, e)
    requires e.TimerFires? || e.Deliver? || e.Shutdown? || e.Take?
    ensures Linked(s, Batcher.Next(c, b, e))
  {
    hide Settled, Batcher.AtWork, Batcher.Told;
    var b' := Batcher.Next(c, b, e);
    forall id | id in s.batched
      ensures Settled(b', id)
    {
      SettledStays(b, b', id);
    }
    assert forall n :: n in b.outcomes ==> b'.taken[n] == b.taken[n];
  }

  lemma AcceptLinks(c: Batcher.Config, s: State, b: Batcher.State, q: Batcher.Request)
    requires Linked(s, b) && Batcher.Enabled(c, b, Batcher.Write(q)) && Enabled(s, Submit(q.callback, q.writes))
    ensures Linked(Next(s, Submit(q.callback, q.writes)), Batcher.Next(c, b, Batcher.Write(q)))
  {
    hide Settled, Batcher.Append;
    var b' := Batcher.Next(c, b, Batcher.Write(q));
    forall id | id in s.batched
      ensures Settled(b', id)
    {
      SettledStays(b, b', id);
    }
  }

  /** A protocol step of another service. */
  lemma OtherServiceLinks(s: State, step: Step, b: Batcher.State)
    requires Linked(s, b) && Enabled(s, step)
    requires step.ReadNew? || step.ClaimRows? || step.SkipClaim? || step.WorkUpload? || step.WorkCommit?
        || step.WorkFail?
    ensures Linked(Next(s, step), b)
  {
    hide Settled, Merged, Canonical, SelectNew, MarkRows, DeleteRows, SSTable.Encode;
  }

  lemma {:induction false} WritesAreBatchRecords(requests: map<RequestId, seq<Record>>, rs: seq<Batcher.Request>)
    requires forall q :: q in rs ==> q.callback in requests && requests[q.callback] == q.writes
    ensures Batcher.Writes(rs) == BatchRecords(requests, Batcher.Callbacks(rs))
  {
    if rs != [] {
      var init, last := rs[..|rs| - 1], rs[|rs| - 1];
      WritesAreBatchRecords(requests, init);
      assert Batcher.Callbacks(rs)[..|rs| - 1] == Batcher.Callbacks(init);
    }
  }

  /** The batch a worker is about to write: its requests are submitted and not yet batched, its records are theirs. */
  lemma BatchReady(c: Batcher.Config, events: seq<Batcher.Event>, s: State, w: nat)
    requires c.maxBatchBytes >= 1 && Batcher.Run(c, events).Some?
    requires var b := Batcher.Run(c, events).value;
             Linked(s, b) && w < |b.workers| && b.workers[w].Writing?
    ensures var batch := Batcher.Run(c, events).value.workers[w].batch;
            && batch.records != []
            && (forall i :: 0 <= i < |batch.callbacks| ==>
                batch.callbacks[i] in s.requests && batch.callbacks[i] !in s.batched)
            && batch.records == BatchRecords(s.requests, batch.callbacks)
  {
    hide Batcher.Run, Batcher.Orderly, Batcher.Matches, Batcher.AllBatches, Batcher.Records, Batcher.Writes;
    hide Batcher.Bounded, Batcher.Told;
    var b := Batcher.Run(c, events).value;
    var batch := b.workers[w].batch;
    Batcher.BatchSizes(c, events);
    assert Batcher.Flushed(b, batch);
    Batcher.RunHonest(c, events);
    Batcher.RecordsInArrivalOrder(c, events);
    assert Batcher.AtWork(b, w);
    TakenReady(s, b, b.numbers[w]);
  }

  lemma TakenReady(s: State, b: Batcher.State, n: nat)
    requires Linked(s, b) && Batcher.Orderly(b) && n < |b.taken| && n !in b.outcomes
    ensures var batch := b.taken[n];
            && (forall i :: 0 <= i < |batch.callbacks| ==>
                batch.callbacks[i] in s.requests && batch.callbacks[i] !in s.batched)
            && batch.records == BatchRecords(s.requests, batch.callbacks)
  {
    hide Batcher.Matches, Batcher.AllBatches, Batcher.Writes, Batcher.Distinct, BatchRecords;
    var batch, all := b.taken[n], Batcher.AllBatches(b);
    Batcher.PlaceOfTaken(b, n);
    var lo, hi := Batcher.MatchesAt(all, b.accepted, n);
    var rs := b.accepted[lo..hi];
    WritesAreBatchRecords(s.requests, rs);
    forall i | 0 <= i < |batch.callbacks|
      ensures batch.callbacks[i] in s.requests && batch.callbacks[i] !in s.batched
    {
      var id := batch.callbacks[i];
      assert rs[i] in b.accepted && rs[i].callback == id;
      if id in s.batched {
        assert Settled(b, id);
        var m :| m in b.outcomes && m < |b.taken| && id in b.taken[m].callbacks;
        Batcher.PlaceOfTaken(b, m);
        Batcher.OneBatchEach(all, b.accepted, n, m, id);
      }
    }
  }

  /** The batch of worker `w` has been written: at least uploaded, and inserted if `ok`. */
  lemma WrittenLinks(c: Batcher.Config, s: State, s': State, b: Batcher.State, w: nat, ok: bool)
    requires Linked(s, b) && Batcher.Honest(b) && Batcher.Enabled(c, b, Batcher.Written(w, ok))
    requires s'.requests == s.requests && s'.acked == s.acked
    requires forall id :: id in s'.batched ==> id in s.batched || id in b.workers[w].batch.callbacks
    requires forall id :: id in s.walOf ==> id in s'.walOf
    requires ok ==> forall id :: id in b.workers[w].batch.callbacks ==> id in s'.walOf
    ensures Linked(s', Batcher.Next(c, b, Batcher.Written(w, ok)))
  {
    hide Settled, Batcher.Told;
    var b', n := Batcher.Next(c, b, Batcher.Written(w, ok)), b.numbers[w];
    assert Batcher.AtWork(b, w);
    forall id | id in s'.batched
      ensures Settled(b', id)
    {
      if id in s.batched {
        SettledStays(b, b', id);
      } else {
        NowSettled(b', n, id);
      }
    }
  }

  lemma NowSettled(b: Batcher.State, n: nat, id: RequestId)
    requires n in b.outcomes && n < |b.taken| && id in b.taken[n].callbacks
    ensures Settled(b, id)
  {
  }

  /** A client is told of success only once its request has a row. */
  lemma NotifyLinks(c: Batcher.Config, s: State, b: Batcher.State, w: nat)
    requires Linked(s, b) && Batcher.Honest(b) && Batcher.Enabled(c, b, Batcher.Notify(w))
    ensures !b.workers[w].ok ==> Linked(s, Batcher.Next(c, b, Batcher.Notify(w)))
    ensures b.workers[w].ok ==>
              var ack := Ack(b.workers[w].waiting[0]);
              Enabled(s, ack) && Linked(Next(s, ack), Batcher.Next(c, b, Batcher.Notify(w)))
  {
    hide Settled, Batcher.Told;
    var b' := Batcher.Next(c, b, Batcher.Notify(w));
    assert Batcher.AtWork(b, w);
    forall id | id in s.batched
      ensures Settled(b', id)
    {
      SettledStays(b, b', id);
    }
  }

  /** What was submitted is what came in, write by write. */
  predicate Received(requests: map<RequestId, seq<Record>>, wire: map<RequestId, seq<BatchHandler.WriteRequest>>) {
    && requests.Keys == wire.Keys
    && forall id :: id in wire ==> requests[id] == BatchHandler.RecordsOfWrites(wire[id])
  }

  lemma OnlySubmitReceives(s: State, step: Step)
    requires Enabled(s, step) && !step.Submit?
    ensures Next(s, step).requests == s.requests
  {
    hide Merged, Canonical, SelectNew, MarkRows, DeleteRows, BatchRecords, SSTable.Encode;
  }

  /** Two writes ask for the same. */
  predicate Agree(v: BatchHandler.WriteRequest, w: BatchHandler.WriteRequest) {
    v.delete == w.delete && (w.delete || v.put == w.put)
  }

  class System {
    const db: Database.Database
    const bucket: Database.Bucket
    const batcher: BatchHandler.Handler
    const orchestrator: Orchestrator.Handler
    const worker: CompactWals.Worker
    // the threshold, and the objects the bucket held at first
    const setup: Setup
    ghost var steps: seq<Step>
    ghost var events: seq<Batcher.Event>
    // the requests as they came in
    ghost var wire: map<RequestId, seq<BatchHandler.WriteRequest>>

    constructor (setup: Setup, config: Batcher.Config, reliable: bool, partitions: seq<Partition>)
      requires config.maxBatchBytes >= 1 && "" !in setup.stored
      ensures Valid() && steps == [] && events == [] && wire == map[] && fresh(db) && fresh(bucket) && fresh(batcher)
      ensures this.setup == setup && batcher.config == config && db.partitions == partitions
    {
      var d := new Database.Database(partitions, reliable);
      var b := new Database.Bucket(setup.stored, reliable);
      this.setup := setup;
      db, bucket := d, b;
      batcher := new BatchHandler.Handler(config);
      orchestrator := new Orchestrator.Handler(setup.minWals, d);
      worker := new CompactWals.Worker(d, b);
      steps, events, wire := [], [], map[];
    }

    /**
     The tables, the bucket and the batcher are where a run of the protocol and a run of the
     batcher have brought them, and the two runs agree on the requests.
     */
    ghost predicate Valid()
      reads this, db, bucket, batcher
    {
      && orchestrator.minWALsToCompact == setup.minWals && orchestrator.db == db && worker.db == db
          && worker.bucket == bucket
      && Legal(Init(setup), steps)
      && Current().tables == db.Tables() && Current().objects == bucket.objects && "" !in bucket.objects
      && batcher.config.maxBatchBytes >= 1
      && Batcher.Run(batcher.config, events) == Some(batcher.State())
      && Linked(Current(), batcher.State())
      && Received(Current().requests, wire)
    }

    ghost function Current(): State
      requires Legal(Init(setup), steps)
      reads this
    {
      After(Init(setup), steps)
    }

    ghost method Take(step: Step)
      requires Legal(Init(setup), steps) && Enabled(Current(), step)
      modifies this`steps
      ensures steps == old(steps) + [step] && Legal(Init(setup), steps)
      ensures Current() == Next(old(Current()), step)
      ensures !step.Submit? ==> Current().requests == old(Current()).requests
    {
      hide Enabled, Next, Execute;
      if !step.Submit? {
        OnlySubmitReceives(Current(), step);
      }
      TakeStep(Init(setup), steps, step);
      steps := steps + [step];
    }

    /** A step of a service that is not the batcher. */
    ghost method TakeElsewhere(step: Step)
      requires Legal(Init(setup), steps) && Enabled(Current(), step)
      requires step.ReadNew? || step.ClaimRows? || step.SkipClaim? || step.WorkUpload? || step.WorkCommit?
          || step.WorkFail?
      requires Linked(Current(), batcher.State())
      modifies this`steps
      ensures steps == old(steps) + [step] && Legal(Init(setup), steps)
      ensures Current() == Next(old(Current()), step) && Linked(Current(), batcher.State())
      ensures Current().requests == old(Current()).requests
    {
      hide Enabled, Next, Execute, Linked;
      OtherServiceLinks(Current(), step, batcher.State());
      Take(step);
    }

    // ---- the batcher ----

    /** A request that passes the check is submitted and received, under a name of its own. */
    method Accept(writes: Option<seq<BatchHandler.WriteRequest>>, id: RequestId) returns (ok: bool)
      requires Valid() && id !in Current().requests && Batcher.AtHead(batcher.State())
      modifies this`steps, this`events, this`wire, batcher
      ensures Valid()
      ensures ok <==> writes.Some? && forall i :: 0 <= i < |writes.value| ==> writes.value[i].key != []
      ensures wire == if ok then old(wire)[id := writes.value] else old(wire)
      ensures steps == old(steps) + if ok then [Submit(id, BatchHandler.RecordsOfWrites(writes.value))] else []
      ensures events == old(events) +
                if ok then [Batcher.Write(Batcher.Request(BatchHandler.RecordsOfWrites(writes.value), id))] else []
    {
      hide Execute, Batcher.Run, Batcher.Next, Enabled, Next, Linked;
      ok := BatchHandler.CheckRequest(writes);
      if ok {
        ghost var q := Batcher.Request(BatchHandler.RecordsOfWrites(writes.value), id);
        FreshCallback(batcher.config, Current(), batcher.State(), q);
        AcceptLinks(batcher.config, Current(), batcher.State(), q);
        Batcher.RunStep(batcher.config, events, Batcher.Write(q));
        SubmitIs(Current(), id, q.writes);
        batcher.ReceiveWrite(writes.value, id);
        events := events + [Batcher.Write(q)];
        Take(Submit(id, q.writes));
        wire := wire[id := writes.value];
      }
    }

    static lemma FreshCallback(c: Batcher.Config, s: State, b: Batcher.State, q: Batcher.Request)
      requires Linked(s, b) && q.callback !in s.requests && Batcher.AtHead(b)
      ensures Batcher.Enabled(c, b, Batcher.Write(q)) && Enabled(s, Submit(q.callback, q.writes))
    {
    }

    static lemma SubmitIs(s: State, id: RequestId, writes: seq<Record>)
      requires Enabled(s, Submit(id, writes))
      ensures Next(s, Submit(id, writes)).tables == s.tables && Next(s, Submit(id, writes)).objects == s.objects
      ensures Next(s, Submit(id, writes)).requests == s.requests[id := writes]
    {
    }

    /** batchLoop's other cases, and a worker's receive: the protocol does not notice. */
    method Turn(e: Batcher.Event)
      requires Valid() && Batcher.Enabled(batcher.config, batcher.State(), e)
      requires e.TimerFires? || e.Deliver? || e.Shutdown? || e.Take?
      modifies this`events, batcher
      ensures Valid() && events == old(events) + [e]
    {
      hide Received, Execute, Batcher.Run, Batcher.Next, Linked, Batcher.Honest;
      Batcher.RunHonest(batcher.config, events);
      QuietEvent(batcher.config, Current(), batcher.State(), e);
      Batcher.RunStep(batcher.config, events, e);
      match e {
        case TimerFires => batcher.TimerFires();
        case Deliver => batcher.Deliver();
        case Shutdown => batcher.Shutdown();
        case Take(w) => batcher.Take(w);
      }
      events := events + [e];
    }

    /**
     A worker writes the batch it holds: an upload step and then an insert step, or it stops on
     the way; what it answers is the batch's outcome.
     */
    method WriteHeld(w: nat, path: Path) returns (ok: bool)
      requires Valid() && Batcher.IsWorker(batcher.State(), w) && batcher.workers[w].Writing?
      requires path !in bucket.objects && path != "" && BatchHandler.Fits(batcher.workers[w].batch.records)
      modifies this`steps, this`events, batcher, db, bucket
      ensures Valid() && events == old(events) + [Batcher.Written(w, ok)]
      ensures db.reliable && bucket.reliable ==> ok
      ensures ok ==>
                var ids := old(batcher.workers[w].batch.callbacks);
                exists rs :: steps == old(steps) + [UploadWal(path, ids, rs), InsertWal(path, db.nextWal - 1)]
      ensures !ok ==>
                var ids := old(batcher.workers[w].batch.callbacks);
                steps == old(steps) || exists rs :: steps == old(steps) + [UploadWal(path, ids, rs)]
    {
      hide Received, Execute, Batcher.Run, Batcher.Next, Linked, Batcher.Honest, Enabled, Next, BatchHandler.Fits;
      var batch := batcher.workers[w].batch;
      ghost var s := Current();
      BatchReady(batcher.config, events, s, w);
      Batcher.RunHonest(batcher.config, events);
      ok := Flush(batch.callbacks, batch.records, path);
      WrittenLinks(batcher.config, s, Current(), batcher.State(), w, ok);
      Batcher.RunStep(batcher.config, events, Batcher.Written(w, ok));
      batcher.Written(w, ok);
      events := events + [Batcher.Written(w, ok)];
    }

    /** writeBatch as steps of the protocol. */
    method Flush(ids: seq<RequestId>, batch: seq<Record>, path: Path) returns (ok: bool)
      requires orchestrator.db == db && Legal(Init(setup), steps)
      requires Current().tables == db.Tables() && Current().objects == bucket.objects && path !in bucket.objects
      requires forall i :: 0 <= i < |ids| ==> ids[i] in Current().requests && ids[i] !in Current().batched
      requires batch != [] && batch == BatchRecords(Current().requests, ids) && BatchHandler.Fits(batch)
      modifies this`steps, db, bucket
      ensures Legal(Init(setup), steps)
      ensures Current().tables == db.Tables() && Current().objects == bucket.objects
      ensures forall p :: p in bucket.objects ==> p == path || p in old(bucket.objects)
      ensures db.reliable && bucket.reliable ==> ok
      ensures ok ==>
                && (exists rs :: steps == old(steps) + [UploadWal(path, ids, rs), InsertWal(path, db.nextWal - 1)])
                && forall id :: id in ids ==> id in Current().walOf
      ensures !ok ==> steps == old(steps) || exists rs :: steps == old(steps) + [UploadWal(path, ids, rs)]
      ensures Current().requests == old(Current()).requests && Current().acked == old(Current()).acked
      ensures forall id :: id in Current().batched ==> id in old(Current()).batched || id in ids
      ensures forall id :: id in old(Current()).walOf ==> id in Current().walOf
    {
      hide Execute, BatchRecords, Dedup.Flattens, SSTable.Encode, BatchHandler.Describes, Content, EntriesOf;
      hide Dedup.NoConflict, BatchHandler.Fits, Enabled, Next;
      ghost var objects := bucket.objects;
      var records := new Record[|batch|](i requires 0 <= i < |batch| => batch[i]);
      assert records[..] == batch;
      var attrs;
      ok, attrs := BatchHandler.WriteBatch(records, path, db, bucket);
      if bucket.objects != objects {
        ghost var rs :| Dedup.Flattens(batch, rs) && bucket.objects[path] == SSTable.Encode(rs);
        UploadIs(Current(), path, ids, rs);
        Take(UploadWal(path, ids, rs));
      }
      if ok {
        InsertIs(Current(), path, db.nextWal - 1);
        Take(InsertWal(path, db.nextWal - 1));
      }
    }

    static lemma UploadIs(s: State, path: Path, ids: seq<RequestId>, rs: seq<Record>)
      requires path !in s.objects && |SSTable.Encode(rs)| <= MAX_INT
      requires forall i :: 0 <= i < |ids| ==> ids[i] in s.requests && ids[i] !in s.batched
      requires Dedup.Flattens(BatchRecords(s.requests, ids), rs)
      ensures var step := UploadWal(path, ids, rs);
              && Enabled(s, step)
              && Next(s, step).tables == s.tables && Next(s, step).objects == s.objects[path := SSTable.Encode(rs)]
              && path in Next(s, step).flushes && Next(s, step).flushes[path] == ids
              && Next(s, step).requests == s.requests && Next(s, step).acked == s.acked
                  && Next(s, step).walOf == s.walOf
              && forall id :: id in Next(s, step).batched ==> id in s.batched || id in ids
    {
      hide BatchRecords, Dedup.Flattens, SSTable.Encode;
    }

    static lemma InsertIs(s: State, path: Path, seqNo: int)
      requires path in s.flushes && seqNo >= s.tables.nextWal
      ensures var step := InsertWal(path, seqNo);
              && Enabled(s, step)
              && Next(s, step).tables == AddWal(s.tables, path, seqNo) && Next(s, step).objects == s.objects
              && (forall id :: id in s.flushes[path] || id in s.walOf ==> id in Next(s, step).walOf)
              && Next(s, step).requests == s.requests && Next(s, step).acked == s.acked
                  && Next(s, step).batched == s.batched
    {
    }

    /** The next client of a written batch gets the batch's answer; told of success, its writes have a row. */
    method Notify(w: nat)
      requires Valid() && Batcher.Enabled(batcher.config, batcher.State(), Batcher.Notify(w))
      modifies this`steps, this`events, batcher
      ensures Valid() && events == old(events) + [Batcher.Notify(w)]
      ensures steps == old(steps) + if old(batcher.workers[w].ok) then [Ack(old(batcher.workers[w].waiting[0]))] else []
      ensures old(batcher.workers[w].ok) ==> old(batcher.workers[w].waiting[0]) in Current().walOf
    {
      hide Received, Execute, Batcher.Run, Batcher.Next, Linked, Batcher.Honest, Enabled, Next;
      Batcher.RunHonest(batcher.config, events);
      NotifyLinks(batcher.config, Current(), batcher.State(), w);
      Batcher.RunStep(batcher.config, events, Batcher.Notify(w));
      ghost var ok, id := batcher.workers[w].ok, batcher.workers[w].waiting[0];
      batcher.Notify(w);
      events := events + [Batcher.Notify(w)];
      if ok {
        AckIs(Current(), id);
        Take(Ack(id));
      }
    }

    static lemma AckIs(s: State, id: RequestId)
      requires Enabled(s, Ack(id))
      ensures id in s.walOf && Next(s, Ack(id)).walOf == s.walOf
      ensures Next(s, Ack(id)).tables == s.tables && Next(s, Ack(id)).objects == s.objects
    {
    }

    // ---- the orchestrator and the worker ----

    /** The orchestrator's SELECT. */
    method ReadRows() returns (rows: seq<Wal>)
      requires Valid() && Current().claim == None
      modifies this`steps
      ensures Valid() && steps == old(steps) + [ReadNew(rows)]
    {
      hide Received, Execute, SelectNew, Linked, Batcher.Run;
      rows := db.GetWriteAheadLogsToCompact();
      TakeElsewhere(ReadNew(rows));
    }

    /** maybeCompactWAL on rows read earlier, whatever has happened since, is the claim or nothing. */
    method Compact(rows: seq<Wal>) returns (claimed: bool)
      requires Valid() && Current().claim == Some(rows)
      modifies this`steps, db
      ensures Valid()
      ensures db.reliable ==> (claimed <==> |rows| >= orchestrator.minWALsToCompact)
      ensures steps == old(steps) + [if claimed then ClaimRows else SkipClaim]
    {
      hide Received, Execute, Linked, Batcher.Run, Claim, Inv, Enabled, Next, Scheduling.Inv, Ascending, AllReadable;
      Invariant.NoEmptyJobs(setup, steps);
      Invariant.RunKeeps(setup, steps);
      InvAscending(Current());
      var ok := orchestrator.MaybeCompactWAL(rows);
      claimed := ok && |rows| >= orchestrator.minWALsToCompact;
      ClaimIs(Current());
      if claimed {
        TakeElsewhere(ClaimRows);
      } else {
        TakeElsewhere(SkipClaim);
      }
    }

    static lemma ClaimIs(s: State)
      requires s.claim.Some?
      ensures Enabled(s, SkipClaim) && Next(s, SkipClaim).tables == s.tables && Next(s, SkipClaim).objects == s.objects
      ensures |s.claim.value| >= s.minWals ==>
                && Enabled(s, ClaimRows)
                && Next(s, ClaimRows).tables == Claim(s.tables, s.claim.value)
                    && Next(s, ClaimRows).objects == s.objects
    {
    }

    static lemma InvAscending(s: State)
      requires Inv(s)
      ensures Scheduling.Inv(s.tables) && Ascending(s.tables.wals) && AllReadable(s.objects)
    {
    }

    /** Work up to the upload, for any pending job and any number of times. */
    method MergeJob(j: nat, path: Path) returns (ok: bool)
      requires Valid() && j < |db.jobs| && path !in bucket.objects && path != ""
      modifies this`steps, bucket
      ensures Valid()
      ensures ok ==> exists rs :: steps == old(steps) + [WorkUpload(db.jobs[j].id, path, rs)]
      ensures !ok ==> steps == old(steps)
    {
      hide Received, Execute, Linked, Batcher.Run, Inv, Canonical, SSTable.Encode, Merged, Content, Readable;
      hide AllReadable;
      hide SortBySeqNo, Ascending;
      Invariant.RunKeeps(setup, steps);
      InvAscending(Current());
      JobAscends(db.Tables(), j);
      var job := db.jobs[j];
      var wals := new Wal[|job.wals|](i requires 0 <= i < |job.wals| => job.wals[i]);
      assert wals[..] == job.wals;
      ghost var objects := bucket.objects;
      ok := worker.MergeAndUpload(wals, path);
      if ok {
        ghost var rs :| Canonical(rs, Merged(objects, job.wals)) && bucket.objects[path] == SSTable.Encode(rs);
        assert Pending(db.Tables(), job.id, j);
        TakeElsewhere(WorkUpload(job.id, path, rs));
      }
    }

    /** A pending job's rows have distinct seq_nos. */
    static lemma JobAscends(t: Tables, j: nat)
      requires Scheduling.Inv(t) && j < |t.jobs|
      ensures Ascending(SortBySeqNo(t.jobs[j].wals))
    {
      hide SortBySeqNo, Scheduling.Claimed;
      Scheduling.JobIsStretch(t, j);
      var a, asc := |Scheduling.Claimed(t.jobs[..j])|, SortBySeqNo(t.jobs[j].wals);
      forall i, k | 0 <= i < k < |asc|
        ensures asc[i].seqNo < asc[k].seqNo
      {
        assert asc[a + i - a].seqNo == t.wals[a + i].seqNo && asc[a + k - a].seqNo == t.wals[a + k].seqNo;
      }
    }

    /** Work's transaction for an upload that has finished, in any order of the jobs. */
    method CommitJob(j: nat, path: Path) returns (ok: bool)
      requires Valid() && j < |db.jobs| && (db.jobs[j].id, path) in Current().executions
      modifies this`steps, db
      ensures Valid()
      ensures db.reliable ==> ok
      ensures var id := old(db.jobs)[j].id;
              steps == old(steps) + [if ok then WorkCommit(id, path, db.nextRun - 1) else WorkFail(id, path)]
    {
      hide Received, Execute, Linked, Batcher.Run, Inv, DeleteRows, Scheduling.Carries, Scheduling.Inv, Ascending;
      hide AllReadable, SelectNew, Canonical, Merged, BatchRecords, Dedup.Flattens, SSTable.Encode, SeqNos;
      Invariant.RunKeeps(setup, steps);
      InvAscending(Current());
      ghost var t, id := db.Tables(), db.jobs[j].id;
      assert Pending(t, id, j);
      OnlyJob(t, j);
      ok := worker.CommitRun(j, path);
      if ok {
        TakeElsewhere(WorkCommit(id, path, db.nextRun - 1));
      } else {
        TakeElsewhere(WorkFail(id, path));
      }
    }

    static lemma OnlyJob(t: Tables, j: nat)
      requires Scheduling.Inv(t) && j < |t.jobs|
      ensures forall i :: Pending(t, t.jobs[j].id, i) ==> i == j
    {
      hide Scheduling.Partitioned, Ascending, Scheduling.RunsInOrder;
    }

    // ---- the clients ----

    /**
     The whole store: after any calls in which jobs committed in scheduling order, an index with
     refreshed lists answers every BatchGet it does not fail with the last writers' values. When of
     the two pods asked about each object one answers, it fails exactly when the keys run out
     before the runs do or a key is in no partition.
     */
    method Read(index: IndexHandler.Handler, request: seq<Key>) returns (r: IndexHandler.Outcome)
      requires Valid() && InOrder.CommitsInOrder(Init(setup), steps)
      requires index.store == bucket && index.services.Valid() && Index.Ordered(index.partitions)
      requires index.wals == Reverse(db.wals) && index.sharedRuns == Reverse(db.runs)
      requires Index.ListedEarly(index.partitions, setup.stored, bucket.objects)
      ensures var base := Index.BaseOf(index.partitions, setup.stored);
              r.Ok? ==> r.results == EndToEnd.Restrict(Reference(Current(), base), set k | k in request)
      ensures PartitionsStored(index) && AllServed(index) ==>
                var keys := set k | k in request;
                (r == IndexHandler.Err <==>
                 Index.RunsOut(index.Snapshot(), keys) || Index.Homeless(index.Snapshot(), keys))
    {
      hide Execute, Inv, AllReadable, InOrder.CommitsInOrder, Index.PartitionValue, Index.Visible, Index.Ordered;
      hide Reference, EndToEnd.Restrict, Linked, Batcher.Run, Index.RunsOut, Index.Homeless, Index.RunsDisjoint;
      hide Index.NewestFirst, Index.BaseOf, Index.ListedEarly;
      Invariant.RunKeeps(setup, steps);
      InvAscending(Current());
      if PartitionsStored(index) && AllServed(index) {
        ListsReachable(index);
      }
      r := index.BatchGet(request);
      EndToEnd.ReadsAreLastWrites(setup, steps, index, set k | k in request);
    }

    /** Every run of a partition is in the bucket. */
    ghost predicate PartitionsStored(index: IndexHandler.Handler)
      reads index, index.store
    {
      forall p :: p in index.partitions ==> forall q :: q in p.runs ==> q != "" && q in index.store.objects
    }

    /** One of the two pods asked about each listed object answers. */
    ghost predicate AllServed(index: IndexHandler.Handler)
      reads index, index.services
    {
      && (forall w :: w in index.wals ==> index.Served(w.path))
      && (forall r :: r in index.sharedRuns ==> index.Served(r.path))
      && (forall p :: p in index.partitions ==> forall q :: q in p.runs ==> index.Served(q))
    }

    /** What the tables list is in the bucket. */
    lemma ListsReachable(index: IndexHandler.Handler)
      requires Valid() && Inv(Current()) && index.store == bucket && PartitionsStored(index) && AllServed(index)
      requires index.wals == Reverse(db.wals) && index.sharedRuns == Reverse(db.runs)
      ensures index.AllReachable()
    {
      hide Execute, Linked, Batcher.Run, Scheduling.Inv, AllReadable, ClaimInv, ExecutionsInv, HistoryInv, RequestsInv;
      forall w | w in index.wals
        ensures w.path != "" && w.path in bucket.objects
      {
        assert w in db.wals;
      }
      forall r | r in index.sharedRuns
        ensures r.path != "" && r.path in bucket.objects
      {
        assert r in db.runs;
      }
    }

    /**
     Success told to a client means its writes are there: on a key no commit has disturbed, a
     reader is given what the request wrote, unless a request of the same row or a newer one wrote
     the key with another outcome.
     */
    lemma ToldIsStored(q: Batcher.Request, r: Record, base: Values)
      requires Valid() && q in batcher.accepted && Batcher.Reply(q.callback, true) in batcher.replies && r in q.writes
      requires InOrder.Undisturbed(Init(setup), steps, r.key)
      ensures q.callback in Current().walOf
      ensures RealTime.Unopposed(Current(), q.callback, r) ==>
                View(Current(), base, r.key) == if r.tombstone then None else Some(r.value)
    {
      hide Execute, Batcher.Run, InOrder.Undisturbed, Inv, View, RealTime.Unopposed, Landed;
      var s := Current();
      Invariant.RunKeeps(setup, steps);
      RealTime.AckedHasRow(s, q.callback);
      if RealTime.Unopposed(s, q.callback, r) {
        RealTime.AcknowledgedIsDurable(setup, steps, base, q.callback, r);
      }
    }

    /** No request of the row of request `id`, or of a newer one, asked for anything else for the key of `w`. */
    ghost predicate Unopposed(id: RequestId, w: BatchHandler.WriteRequest)
      requires Legal(Init(setup), steps)
      reads this
    {
      id in Current().walOf &&
      forall other :: other in wire && other in Current().walOf && Current().walOf[other] >= Current().walOf[id] ==>
        forall v :: v in wire[other] && v.key == w.key ==> Agree(v, w)
    }

    /**
     From the client's write to the reader's answer: of a request that was answered with success,
     an unopposed write on a key no commit has disturbed reads as nothing if it was a delete, and
     otherwise as the bytes it put.
     */
    lemma WriteIsStored(id: RequestId, w: BatchHandler.WriteRequest, base: Values)
      requires Valid() && id in wire && w in wire[id] && Batcher.Reply(id, true) in batcher.replies
      requires InOrder.Undisturbed(Init(setup), steps, w.key) && Unopposed(id, w)
      ensures w.delete ==> View(Current(), base, w.key) == None
      ensures !w.delete && w.put.Some? ==> View(Current(), base, w.key) == w.put
      ensures !w.delete && w.put.None? ==> View(Current(), base, w.key) == Some([])
    {
      hide Execute, Batcher.Run, InOrder.Undisturbed, Inv, View, Landed;
      var s := Current();
      Invariant.RunKeeps(setup, steps);
      RealTime.AckedHasRow(s, id);
      var i :| 0 <= i < |wire[id]| && wire[id][i] == w;
      var r := s.requests[id][i];
      OpposedOnTheWire(s, wire, id, w, r);
      RealTime.AcknowledgedIsDurable(setup, steps, base, id, r);
    }
  }

  lemma OpposedOnTheWire(s: State, wire: map<RequestId, seq<BatchHandler.WriteRequest>>, id: RequestId,
      w: BatchHandler.WriteRequest, r: Record)
    requires Received(s.requests, wire) && id in s.walOf
    requires r.key == w.key && r.tombstone == w.delete
    requires r.value == match w.put case Some(value) => value case None => []
    requires forall other :: other in wire && other in s.walOf && s.walOf[other] >= s.walOf[id] ==>
               forall v :: v in wire[other] && v.key == w.key ==> Agree(v, w)
    ensures RealTime.Unopposed(s, id, r)
  {
    forall other, n, e | n >= s.walOf[id] && Provenance.WroteIn(s, other, n, r.key, e)
      ensures e == EntryOf(r)
    {
      var q :| q in s.requests[other] && q.key == r.key && EntryOf(q) == e;
      var i :| 0 <= i < |wire[other]| && s.requests[other][i] == q;
      assert wire[other][i] in wire[other];
    }
  }
}

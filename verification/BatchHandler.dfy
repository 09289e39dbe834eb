/** The batcher's code: the request check, the cases of batchLoop, the worker pool and writeBatch. */
module BatchHandler {
  import opened Types
  import opened Layers
  import opened Database
  import opened Batcher
  import Dedup
  import Schema
  import SSTable

  /** A write as it arrives: `put` and `delete` are the two arms of a oneof. */
  datatype WriteRequest = WriteRequest(key: Key, put: Option<Bytes>, delete: bool)

  function RecordOf(w: WriteRequest): Record {
    Record(w.key, if w.put.Some? then w.put.value else [], w.delete)
  }

  /** A record for each write, in order: a delete is a tombstone, anything else a put, of nothing if neither is set. */
  function RecordsOfWrites(writes: seq<WriteRequest>): (rs: seq<Record>)
    ensures |rs| == |writes|
    ensures forall i :: 0 <= i < |writes| ==> rs[i].key == writes[i].key && rs[i].tombstone == writes[i].delete
    ensures forall i :: 0 <= i < |writes| ==>
              rs[i].value == match writes[i].put case Some(value) => value case None => []
  {
    seq(|writes|, i requires 0 <= i < |writes| => RecordOf(writes[i]))
  }

  /** BatchWrite up to the send: a request without writes or with an empty key is refused. */
  method CheckRequest(writes: Option<seq<WriteRequest>>) returns (ok: bool)
    ensures ok <==> writes.Some? && forall i :: 0 <= i < |writes.value| ==> writes.value[i].key != []
  {
    if writes == None {
      return false;
    }
    for i := 0 to |writes.value|
      invariant forall k :: 0 <= k < i ==> writes.value[k].key != []
    {
      if writes.value[i].key == [] {
        return false;
      }
    }
    return true;
  }

  class Handler {
    const config: Config
    var current: Option<Batch>
    var timer: Timer
    var sending: Option<Batch>
    var processing: seq<Batch>
    var closed: bool
    var workers: seq<Worker>
    var replies: seq<Reply>
    ghost var accepted: seq<Request>
    ghost var taken: seq<Batch>
    ghost var dropped: Option<Batch>
    ghost var numbers: seq<nat>
    ghost var outcomes: map<nat, bool>

    ghost function State(): State
      reads this
    {
      Batcher.State.State(
        current, timer, sending, processing, closed, workers, replies,
        accepted, taken, dropped, numbers, outcomes)
    }

    constructor (config: Config)
      ensures this.config == config && State() == Init(config)
    {
      this.config := config;
      current, timer, sending, processing, closed := None, Off, None, [], false;
      workers := seq(config.maxConcurrent, i => Idle);
      replies, accepted, taken, dropped := [], [], [], None;
      numbers, outcomes := seq(config.maxConcurrent, i => 0), map[];
    }

    /** The loop over one request's writes: each is a record more and its bytes more. */
    static method AddWrites(b0: Batch, writes: seq<WriteRequest>, callback: CallbackId) returns (b: Batch)
      ensures b == Append(b0, Request(RecordsOfWrites(writes), callback))
      ensures |b.records| == |b0.records| + |writes| && b.records[..|b0.records|] == b0.records
      ensures forall i :: 0 <= i < |writes| ==>
                var r := b.records[|b0.records| + i];
                && r.key == writes[i].key && r.tombstone == writes[i].delete
                && (writes[i].put.Some? ==> r.value == writes[i].put.value)
    {
      hide Size;
      ghost var r := RecordsOfWrites(writes);
      b := b0.(callbacks := b0.callbacks + [callback]);
      SizeOfNone();
      assert r[..0] == [];
      for i := 0 to |writes|
        invariant b == Batch(b0.records + r[..i], b0.callbacks + [callback], b0.totalSize + Size(r[..i]))
      {
        assert r[..i + 1] == r[..i] + [r[i]];
        SizeOfOneMore(r[..i], r[i]);
        var record := RecordOf(writes[i]);
        var recordSize := |record.key| + |record.value|;
        b := b.(records := b.records + [record], totalSize := b.totalSize + recordSize);
      }
      assert r[..|writes|] == r;
    }

    static lemma SizeOfNone()
      ensures Size([]) == 0
    {
    }

    static lemma SizeOfOneMore(rs: seq<Record>, r: Record)
      ensures Size(rs + [r]) == Size(rs) + |r.key| + |r.value|
    {
      assert (rs + [r])[..|rs|] == rs;
    }

    /** The loop receives a request. */
    method ReceiveWrite(writes: seq<WriteRequest>, callback: CallbackId)
      requires !closed && sending == None && forall q :: q in accepted ==> q.callback != callback
      modifies this
      ensures State() == Next(config, old(State()), Write(Request(RecordsOfWrites(writes), callback)))
    {
      hide Size, Append;
      if current == None {
        current := Some(Batch([], [], 0));
        timer := Armed;
      }
      accepted := accepted + [Request(RecordsOfWrites(writes), callback)];
      var b := AddWrites(current.value, writes, callback);
      current := Some(b);
      if b.totalSize >= config.maxBatchBytes {
        sending := current;
        current := None;
        timer := Off;
      }
    }

    /** The timer fires. */
    method TimerFires()
      requires !closed && sending == None && timer == Armed
      modifies this
      ensures State() == Next(config, old(State()), Event.TimerFires)
    {
      timer := Spent;
      if current.Some? && |current.value.records| > 0 {
        sending := current;
        current := None;
        timer := Off;
      }
    }

    /** The batch the loop is sending reaches the queue. */
    method Deliver()
      requires sending.Some? && |processing| < config.maxConcurrent
      modifies this
      ensures State() == Next(config, old(State()), Event.Deliver)
    {
      processing := processing + [sending.value];
      sending := None;
    }

    /** The context is done: close the queue and refuse the requests of the current batch. */
    method Shutdown()
      requires !closed && sending == None
      modifies this
      ensures State() == Next(config, old(State()), Event.Shutdown)
    {
      closed := true;
      dropped := current;
      if current.Some? {
        var callbacks := current.value.callbacks;
        ghost var before := replies;
        for i := 0 to |callbacks|
          invariant replies == before + Answers(callbacks, false)[..i]
          invariant State() == old(State()).(closed := true, dropped := old(current), replies := replies)
        {
          replies := replies + [Reply(callbacks[i], false)];
        }
        assert Answers(callbacks, false)[..|callbacks|] == Answers(callbacks, false);
      }
      current := None;
    }

    /** A worker receives the next batch from the queue. */
    method Take(w: nat)
      requires w < |workers| == |numbers| && workers[w] == Idle && processing != []
      modifies this
      ensures State() == Next(config, old(State()), Event.Take(w))
    {
      var batch := processing[0];
      processing := processing[1..];
      numbers := numbers[w := |taken|];
      taken := taken + [batch];
      workers := workers[w := Writing(batch)];
    }

    /** writeBatch returned: its answer goes to every request of the batch. */
    method Written(w: nat, ok: bool)
      requires w < |workers| == |numbers| && workers[w].Writing?
      modifies this
      ensures State() == Next(config, old(State()), Event.Written(w, ok))
    {
      var callbacks := workers[w].batch.callbacks;
      workers := workers[w := if |callbacks| == 0 then Idle else Replying(callbacks, ok)];
      outcomes := outcomes[numbers[w] := ok];
    }

    /** A worker tells the requests of a written batch its outcome, one send at a time. */
    method Notify(w: nat)
      requires w < |workers| == |numbers| && workers[w].Replying? && workers[w].waiting != []
      modifies this
      ensures State() == Next(config, old(State()), Event.Notify(w))
    {
      var Replying(waiting, ok) := workers[w];
      replies := replies + [Reply(waiting[0], ok)];
      workers := workers[w := if |waiting| == 1 then Idle else Replying(waiting[1..], ok)];
    }
  }

  // ---- writeBatch ----

  /** What the batcher records about an uploaded WAL. */
  datatype Attrs = Attrs(path: Path, sizeBytes: int, minKey: Key, maxKey: Key)

  /** A batch no flattening of which is too long for a slice. */
  ghost predicate Fits(batch: seq<Record>) {
    forall rs :: Dedup.Flattens(batch, rs) ==> |SSTable.Encode(rs)| <= MAX_INT
  }

  /** The metadata describes the object: its length, and the least and greatest key in it. */
  ghost predicate Describes(attrs: Attrs, obj: Object) {
    && attrs.sizeBytes == |obj|
    && attrs.minKey in Content(obj) && attrs.maxKey in Content(obj)
    && forall k :: k in Content(obj) ==> !Less(k, attrs.minKey) && !Less(attrs.maxKey, k)
  }

  lemma {:induction false} EndsDescribe(rs: seq<Record>, path: Path)
    requires StrictlySorted(rs) && rs != [] && |SSTable.Encode(rs)| <= MAX_INT
    ensures Describes(Attrs(path, |SSTable.Encode(rs)|, rs[0].key, rs[|rs| - 1].key), SSTable.Encode(rs))
  {
    hide SSTable.Encode, Content, Less;
    ContentOfEncoded(rs);
    EntriesOfAt(rs, 0);
    EntriesOfAt(rs, |rs| - 1);
    forall k | k in EntriesOf(rs)
      ensures !Less(k, rs[0].key) && !Less(rs[|rs| - 1].key, k)
    {
      EntriesOfKeys(rs, k);
      var i :| 0 <= i < |rs| && rs[i].key == k;
      LessTrichotomy(k, rs[0].key);
      LessTrichotomy(k, rs[|rs| - 1].key);
    }
  }

  /** One object more than before: a file that flattens the batch. */
  ghost predicate Uploaded(before: map<Path, Object>, after: map<Path, Object>, path: Path, batch: seq<Record>) {
    && path in after && after == before[path := after[path]]
    && exists rs :: Dedup.Flattens(batch, rs) && after[path] == SSTable.Encode(rs)
  }

  /**
   Sort, deduplicate, upload, then insert the row. Success means a new NEW row whose object
   holds a flattening of the batch (the last writes, if no key was written twice with different
   outcomes) and matches its metadata; failure leaves no row, though maybe the object.
   */
  method WriteBatch(records: array<Record>, path: Path, db: Database, bucket: Bucket) returns (ok: bool, attrs: Attrs)
    requires records.Length > 0 && Fits(records[..]) && path !in bucket.objects
    modifies records, db, bucket
    ensures db.reliable && bucket.reliable ==> ok
    ensures !ok ==> db.Tables() == old(db.Tables())
    ensures bucket.objects == old(bucket.objects)
        || Uploaded(old(bucket.objects), bucket.objects, path, old(records[..]))
    ensures ok ==>
              && attrs.path == path && Uploaded(old(bucket.objects), bucket.objects, path, old(records[..]))
              && db.nextWal > old(db.nextWal) && db.Tables() == Schema.AddWal(old(db.Tables()), path, db.nextWal - 1)
              && Describes(attrs, bucket.objects[path])
              && (Dedup.NoConflict(old(records[..])) ==> Content(bucket.objects[path]) == EntriesOf(old(records[..])))
  {
    hide SSTable.Encode, Dedup.Flattens, Dedup.NoConflict, Describes, EntriesOf, Content;
    ghost var batch := records[..];
    var n := Dedup.SortAndDedup(records);
    var kept := records[..n];
    var sizeBytes := SSTable.ComputeSize(kept);
    var minKey := kept[0].key;
    var maxKey := kept[|kept| - 1].key;
    attrs := Attrs(path, sizeBytes, minKey, maxKey);
    var buf := SSTable.WriteRecords(kept);
    ok := bucket.Upload(path, buf);
    if !ok {
      return;
    }
    EndsDescribe(kept, path) by {
      FlattensSorted(batch, kept);
    }
    ContentOfEncoded(kept);
    ok := db.AddWriteAheadLog(path);
  }

  lemma FlattensSorted(batch: seq<Record>, rs: seq<Record>)
    requires Dedup.Flattens(batch, rs)
    ensures StrictlySorted(rs)
  {
  }
}

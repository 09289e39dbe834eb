/** The worker: merge a job's WALs into one run, upload it, then swap it in. */
module CompactWals {
  import opened Types
  import opened Layers
  import opened Schema
  import opened Database
  import Dedup
  import Protocol
  import Scheduling
  import Sorting
  import SSTable
  import Varint

  // ---- what the merge loop computes ----

  /** What a list of records says when the first record for a key wins. */
  function FirstOf(rs: seq<Record>): Layer {
    if rs == [] then map[] else
    var last := rs[|rs| - 1];
    Fill(FirstOf(rs[..|rs| - 1]), map[last.key := EntryOf(last)])
  }

  function Scanned(objs: seq<Object>): seq<Record> {
    if objs == [] then [] else Scanned(objs[..|objs| - 1]) + SSTable.ScanAll(objs[|objs| - 1]).records
  }

  function Contents(objs: seq<Object>): (l: seq<Layer>)
    ensures |l| == |objs| && forall i :: 0 <= i < |objs| ==> l[i] == Content(objs[i])
  {
    seq(|objs|, i requires 0 <= i < |objs| => Content(objs[i]))
  }

  lemma FillAssociates(a: Layer, b: Layer, c: Layer)
    ensures Fill(Fill(a, b), c) == Fill(a, Fill(b, c))
  {
  }

  lemma {:induction false} FirstOfConcat(a: seq<Record>, b: seq<Record>)
    ensures FirstOf(a + b) == Fill(FirstOf(a), FirstOf(b))
  {
    if b == [] {
      assert a + b == a;
      assert Fill(FirstOf(a), FirstOf(b)) == FirstOf(a);
    } else {
      hide Fill;
      var init, last := b[..|b| - 1], b[|b| - 1];
      assert (a + b)[..|a + b| - 1] == a + init;
      FirstOfConcat(a, init);
      FillAssociates(FirstOf(a), FirstOf(init), map[last.key := EntryOf(last)]);
    }
  }

  /** On distinct keys it does not matter which record wins. */
  lemma {:induction false} FirstOfSorted(rs: seq<Record>)
    requires StrictlySorted(rs)
    ensures FirstOf(rs) == EntriesOf(rs)
  {
    if rs != [] {
      var init, last := rs[..|rs| - 1], rs[|rs| - 1];
      FirstOfSorted(init);
      EntriesOfKeys(init, last.key);
      if last.key in EntriesOf(init) {
        var i :| 0 <= i < |init| && init[i].key == last.key;
        StrictlySortedDistinct(rs, i, |rs| - 1);
      }
    }
  }

  lemma {:induction false} FirstOfScanned(objs: seq<Object>)
    requires forall i :: 0 <= i < |objs| ==> Protocol.Readable(objs[i])
    ensures FirstOf(Scanned(objs)) == FirstWins(Contents(objs))
  {
    hide SSTable.ScanAll, FirstOf;
    if objs != [] {
      var init, last := objs[..|objs| - 1], objs[|objs| - 1];
      FirstOfScanned(init);
      FirstOfSorted(SSTable.ScanAll(last).records);
      FirstOfConcat(Scanned(init), SSTable.ScanAll(last).records);
      assert Contents(objs)[..|init|] == Contents(init);
    } else {
      FirstOfNothing();
    }
  }

  lemma FirstOfNothing()
    ensures FirstOf([]) == map[]
  {
  }

  /** The loop's map, each record under its own key, says what `layer` says. */
  ghost predicate Represents(m: map<Key, Record>, layer: Layer) {
    && m.Keys == layer.Keys
    && forall k :: k in m ==> m[k].key == k && EntryOf(m[k]) == layer[k] && (m[k].tombstone ==> m[k].value == [])
  }

  lemma {:induction false} ScanFromStrips(data: Object, pos: nat)
    requires pos <= |data|
    ensures forall r :: r in SSTable.ScanFrom(data, pos).records && r.tombstone ==> r.value == []
    decreases |data| - pos
  {
    if pos < |data| {
      match SSTable.ReadRecord(data, pos)
      case Stop =>
      case Panic =>
      case Next(r, next) => ScanFromStrips(data, next);
    }
  }

  lemma ScanStrips(data: Object)
    ensures forall r :: r in SSTable.ScanAll(data).records && r.tombstone ==> r.value == []
  {
    hide SSTable.ScanFrom, Varint.DecodeFrom;
    var version := Varint.Decode(data);
    if version.n > 0 {
      ScanFromStrips(data, version.n);
    }
  }

  /** The merge loop; `None` stands for a slice out of range while reading. */
  method Merge(objs: seq<Object>) returns (merged: Option<map<Key, Record>>)
    ensures merged.Some? ==> Represents(merged.value, FirstOf(Scanned(objs)))
    ensures merged.Some? ==> forall i :: 0 <= i < |objs| ==> !SSTable.ScanAll(objs[i]).panics
    ensures (forall i :: 0 <= i < |objs| ==> Protocol.Readable(objs[i])) ==> merged.Some?
  {
    hide SSTable.ScanAll, StrictlySorted, FirstOf;
    var m: map<Key, Record> := map[];
    FirstOfNothing();
    assert objs[..0] == [];
    for i := 0 to |objs|
      invariant Represents(m, FirstOf(Scanned(objs[..i])))
      invariant forall k :: 0 <= k < i ==> !SSTable.ScanAll(objs[k]).panics
    {
      var records, panics := SSTable.Records(objs[i]);
      if panics {
        return None;
      }
      ScanStrips(objs[i]);
      m := MergeRecords(m, records, Scanned(objs[..i]));
      assert objs[..i + 1][..i] == objs[..i];
    }
    assert objs[..|objs|] == objs;
    return Some(m);
  }

  method MergeRecords(before: map<Key, Record>, records: seq<Record>, ghost seen: seq<Record>)
      returns (m: map<Key, Record>)
    requires Represents(before, FirstOf(seen))
    requires forall r :: r in records && r.tombstone ==> r.value == []
    ensures Represents(m, FirstOf(seen + records))
  {
    hide FirstOf, Represents;
    m := before;
    assert seen + records[..0] == seen;
    for j := 0 to |records|
      invariant Represents(m, FirstOf(seen + records[..j]))
    {
      assert seen + records[..j + 1] == seen + records[..j] + [records[j]];
      var record := records[j];
      FirstOfOneMore(seen + records[..j], record);
      RepresentsOneMore(m, FirstOf(seen + records[..j]), record);
      if record.key in m {
        continue;
      }
      m := m[record.key := record];
    }
    assert records[..|records|] == records;
  }

  lemma FirstOfOneMore(seen: seq<Record>, r: Record)
    ensures FirstOf(seen + [r]) == Fill(FirstOf(seen), map[r.key := EntryOf(r)])
  {
    assert (seen + [r])[..|seen|] == seen;
  }

  lemma RepresentsOneMore(m: map<Key, Record>, layer: Layer, r: Record)
    requires Represents(m, layer) && (r.tombstone ==> r.value == [])
    ensures Represents(if r.key in m then m else m[r.key := r], Fill(layer, map[r.key := EntryOf(r)]))
  {
  }

  // ---- from the map to the sorted file ----

  /** slices.Collect(maps.Values(m)): the values, in whatever order the map is walked. */
  method Collect(m: map<Key, Record>) returns (rs: seq<Record>)
    requires forall k :: k in m ==> m[k].key == k
    ensures multiset(rs) == multiset(m.Values)
  {
    rs := [];
    var todo := m.Keys;
    ghost var done: set<Record> := {};
    while todo != {}
      invariant todo <= m.Keys
      invariant done == set k | k in m && k !in todo :: m[k]
      invariant multiset(rs) == multiset(done)
      decreases |todo|
    {
      var k :| k in todo;
      assert m[k] !in done;
      rs := rs + [m[k]];
      done := done + {m[k]};
      todo := todo - {k};
    }
    assert done == m.Values;
  }

  lemma CollectedSorted(rs: seq<Record>, m: map<Key, Record>)
    requires forall k :: k in m ==> m[k].key == k
    requires multiset(rs) == multiset(m.Values) && Dedup.SortedByKey(rs)
    ensures StrictlySorted(rs)
    ensures forall i :: 0 <= i < |rs| ==> rs[i].key in m && m[rs[i].key] == rs[i]
    ensures forall k :: k in m ==> exists i :: 0 <= i < |rs| && rs[i].key == k
  {
    forall i | 0 <= i < |rs|
      ensures rs[i].key in m && m[rs[i].key] == rs[i]
    {
      assert rs[i] in multiset(m.Values);
    }
    forall k | k in m
      ensures exists i :: 0 <= i < |rs| && rs[i].key == k
    {
      assert m[k] in multiset(rs);
      var i :| 0 <= i < |rs| && rs[i] == m[k];
    }
    forall i, j | 0 <= i < j < |rs|
      ensures Less(rs[i].key, rs[j].key)
    {
      LessTrichotomy(rs[i].key, rs[j].key);
      if rs[i].key == rs[j].key {
        Sorting.TwiceInMultiset(rs, i, j);
      }
    }
  }

  lemma CollectedCanonical(rs: seq<Record>, m: map<Key, Record>, layer: Layer)
    requires Represents(m, layer) && multiset(rs) == multiset(m.Values) && Dedup.SortedByKey(rs)
    ensures Canonical(rs, layer)
  {
    hide EntriesOf, Dedup.SortedByKey, Less;
    CollectedSorted(rs, m);
    forall k
      ensures Get(EntriesOf(rs), k) == Get(layer, k)
    {
      EntriesOfKeys(rs, k);
      if k in EntriesOf(rs) {
        var i :| 0 <= i < |rs| && rs[i].key == k;
        EntriesOfAt(rs, i);
      }
    }
    SameLayer(EntriesOf(rs), layer);
  }

  /**
   Merging objects given newest first: the records of exactly one file, the canonical one of
   what first-wins leaves, however the map was walked and the records sorted.
   */
  method MergeObjects(objs: seq<Object>) returns (records: Option<seq<Record>>)
    ensures records.Some? ==> Canonical(records.value, FirstOf(Scanned(objs)))
    ensures (forall i :: 0 <= i < |objs| ==> Protocol.Readable(objs[i])) ==>
              records.Some? && Canonical(records.value, FirstWins(Contents(objs)))
  {
    hide FirstOf, Scanned, Protocol.Readable, Canonical;
    var merged := Merge(objs);
    if merged == None {
      return None;
    }
    var collected := Collect(merged.value);
    var a := new Record[|collected|](i requires 0 <= i < |collected| => collected[i]);
    assert a[..] == collected;
    Dedup.SortSlice(a);
    CollectedCanonical(a[..], merged.value, FirstOf(Scanned(objs)));
    records := Some(a[..]);
    if forall i :: 0 <= i < |objs| ==> Protocol.Readable(objs[i]) {
      FirstOfScanned(objs);
    }
  }

  // ---- the job ----

  predicate Descending(rows: seq<Wal>) {
    forall i, j :: 0 <= i < j < |rows| ==> rows[i].seqNo >= rows[j].seqNo
  }

  /** sort.Slice by descending seq_no, in place. */
  method SortDescending(a: array<Wal>)
    modifies a
    ensures Descending(a[..]) && multiset(a[..]) == multiset(old(a[..]))
  {
    hide SortBySeqNo;
    var s := Reverse(SortBySeqNo(a[..]));
    SortSorts(a[..]);
    ReverseMultiset(SortBySeqNo(a[..]));
    for i := 0 to a.Length
      invariant a[..i] == s[..i]
    {
      a[i] := s[i];
    }
    assert a[..] == s;
  }

  /** Rows with distinct seq_nos have one descending order. */
  lemma DescendingIs(rows: seq<Wal>, d: seq<Wal>)
    requires Descending(d) && multiset(d) == multiset(rows) && Ascending(SortBySeqNo(rows))
    ensures d == Reverse(SortBySeqNo(rows))
  {
    hide SortBySeqNo;
    ReverseMultiset(d);
    Sorting.SortedByUnique(Reverse(d), SortBySeqNo(rows), Older);
    assert Reverse(Reverse(d)) == d;
  }

  /** First-wins over the rows newest first is the job's merge. */
  lemma MergeOfDescending(objects: map<Path, Object>, rows: seq<Wal>, d: seq<Wal>, objs: seq<Object>)
    requires d == Reverse(SortBySeqNo(rows)) && |objs| == |d|
    requires forall i :: 0 <= i < |d| ==> d[i].path in objects && objs[i] == objects[d[i].path]
    ensures FirstWins(Contents(objs)) == Protocol.Merged(objects, rows)
  {
    hide SortBySeqNo, FirstWins, Override, Content;
    var layers := Protocol.WalLayers(objects, SortBySeqNo(rows));
    assert Contents(objs) == Reverse(layers);
    FirstWinsIsOverride(layers);
  }

  class Worker {
    const db: Database
    const bucket: Bucket

    constructor (db: Database, bucket: Bucket)
      ensures this.db == db && this.bucket == bucket
    {
      this.db := db;
      this.bucket := bucket;
    }

    /**
     Work up to the upload. A run that was uploaded is the one file of the merge of the job's
     WALs, whatever order the rows came in; nothing else in the bucket changes.
     */
    method MergeAndUpload(wals: array<Wal>, path: Path) returns (ok: bool)
      requires path !in bucket.objects
      requires Ascending(SortBySeqNo(wals[..]))
      modifies bucket, wals
      ensures bucket.reliable && Doable(old(bucket.objects), old(wals[..])) ==> ok
      ensures !ok ==> bucket.objects == old(bucket.objects)
      ensures ok ==> path in bucket.objects && bucket.objects == old(bucket.objects)[path := bucket.objects[path]]
      ensures ok && Protocol.AllReadable(old(bucket.objects)) ==>
                && IsFileOf(bucket.objects[path], Protocol.Merged(old(bucket.objects), old(wals[..])))
                && Content(bucket.objects[path]) == Protocol.Merged(old(bucket.objects), old(wals[..]))
                && Protocol.Readable(bucket.objects[path])
      ensures multiset(wals[..]) == multiset(old(wals[..]))
    {
      hide SortBySeqNo, Protocol.AllReadable, Content, Contents, FirstOf, Scanned, FirstWins, StrictlySorted;
      hide Protocol.Merged, SSTable.Encode, Canonical, Doable, IsFileOf;
      ghost var rows, objects := wals[..], bucket.objects;
      SortDescending(wals);
      DescendingIs(rows, wals[..]);
      var objs: seq<Object> := [];
      for i := 0 to wals.Length
        invariant |objs| == i && bucket.objects == objects && wals[..] == Reverse(SortBySeqNo(rows))
        invariant forall k :: 0 <= k < i ==> wals[k].path in objects && objs[k] == objects[wals[k].path]
      {
        RowIsThere(objects, rows, wals[..], i);
        var obj := bucket.Download(wals[i].path);
        if obj == None {
          return false;
        }
        objs := objs + [obj.value];
      }
      var records := MergeObjects(objs);
      MergeOfDescending(objects, rows, wals[..], objs);
      if Protocol.AllReadable(objects) {
        StoredReadable(objects, objs);
      }
      // a file longer than a slice can be is never allocated
      if records == None || |SSTable.Encode(records.value)| > MAX_INT {
        DoableFits(objects, rows);
        return false;
      }
      var buf := SSTable.WriteRecords(records.value);
      ok := bucket.Upload(path, buf);
      if Protocol.AllReadable(objects) {
        CanonicalFile(records.value, Protocol.Merged(objects, rows));
      }
    }

    /** The job's WALs are there, all objects decode, and the merge fits a Go slice. */
    static ghost predicate Doable(objects: map<Path, Object>, rows: seq<Wal>) {
      && Protocol.AllReadable(objects)
      && (forall w :: w in rows ==> w.path in objects)
      && (forall rs :: Canonical(rs, Protocol.Merged(objects, rows)) ==> |SSTable.Encode(rs)| <= MAX_INT)
    }

    static lemma RowIsThere(objects: map<Path, Object>, rows: seq<Wal>, d: seq<Wal>, i: nat)
      requires d == Reverse(SortBySeqNo(rows)) && i < |d|
      ensures Doable(objects, rows) ==> d[i].path in objects
    {
      hide SortBySeqNo;
      ReverseMultiset(SortBySeqNo(rows));
      assert d[i] in multiset(rows);
    }

    static lemma DoableFits(objects: map<Path, Object>, rows: seq<Wal>)
      ensures Doable(objects, rows) ==>
                Protocol.AllReadable(objects) &&
                forall rs :: Canonical(rs, Protocol.Merged(objects, rows)) ==> |SSTable.Encode(rs)| <= MAX_INT
    {
    }

    static lemma StoredReadable(objects: map<Path, Object>, objs: seq<Object>)
      requires Protocol.AllReadable(objects) && forall i :: 0 <= i < |objs| ==> objs[i] in objects.Values
      ensures forall i :: 0 <= i < |objs| ==> Protocol.Readable(objs[i])
    {
      hide Protocol.Readable;
    }

    static lemma CanonicalFile(records: seq<Record>, layer: Layer)
      requires Canonical(records, layer) && |SSTable.Encode(records)| <= MAX_INT
      ensures IsFileOf(SSTable.Encode(records), layer)
      ensures Content(SSTable.Encode(records)) == layer && Protocol.Readable(SSTable.Encode(records))
    {
      hide SSTable.Encode, SSTable.ScanAll;
      ContentOfEncoded(records);
      SSTable.RoundTrip(records);
    }

    /**
     Work's transaction: all of it or nothing. For the pending job it swaps the run in for the
     job's WALs and nothing else, although the answer of the delete is thrown away.
     */
    method CommitRun(j: nat, path: Path) returns (ok: bool)
      requires Scheduling.Inv(db.Tables()) && j < |db.jobs|
      modifies db
      ensures Scheduling.Inv(db.Tables())
      ensures db.reliable ==> ok
      ensures !ok ==> db.Tables() == old(db.Tables())
      ensures ok ==> db.nextRun > old(db.nextRun) && db.Tables() == Commit(old(db.Tables()), j, path, db.nextRun - 1)
      ensures ok ==> forall w :: w in db.wals <==> w in old(db.wals) && !Scheduling.Carries(old(db.jobs)[j], w)
    {
      hide Scheduling.Inv, Scheduling.Carries, SortBySeqNo, DeleteRows;
      ghost var t := db.Tables();
      Scheduling.InvAscending(t);
      var tx := db.Tables();
      var added, runNo := db.AddSharedRun(path);
      if !added {
        return false;
      }
      var wals := db.jobs[j].wals;
      var seqNos := CollectSeqNos(wals);
      var _ := db.DeleteWriteAheadLogs(seqNos[..]);
      var completed := db.CompleteJob(j);
      if !completed {
        db.Rollback(tx);
        return false;
      }
      var fails := db.Fails();
      if fails {
        db.Rollback(tx);
        return false;
      }
      Scheduling.CommitKeeps(t, j, path, runNo);
      CommitRemoves(t, j, path, runNo);
      return true;
    }

    static lemma CommitRemoves(t: Tables, j: nat, path: Path, runNo: int)
      requires Scheduling.Inv(t) && j < |t.jobs| && runNo >= t.nextRun
      ensures forall w :: w in Commit(t, j, path, runNo).wals <==> w in t.wals && !Scheduling.Carries(t.jobs[j], w)
    {
      hide Scheduling.Inv, Scheduling.Carries, SortBySeqNo, DeleteRows, Scheduling.Claimed, Scheduling.IsStretch;
      hide SeqNos;
      Scheduling.CommitKeeps(t, j, path, runNo);
      var a := |Scheduling.Claimed(t.jobs[..j])|;
      var b := a + |t.jobs[j].wals|;
      Scheduling.InvAscending(t);
      Scheduling.PartitionedElim(t.wals, t.jobs) by {
        Scheduling.InvPartitioned(t);
      }
      forall i | 0 <= i < |t.wals|
        ensures Scheduling.Carries(t.jobs[j], t.wals[i]) <==> a <= i < b
      {
        Scheduling.CarriesIsInBlock(t, j, i);
      }
      CutMembers(t.wals, a, b, t.jobs[j]);
    }

    static lemma CutMembers(rows: seq<Wal>, a: nat, b: nat, job: Job)
      requires a <= b <= |rows|
      requires forall i :: 0 <= i < |rows| ==> (Scheduling.Carries(job, rows[i]) <==> a <= i < b)
      ensures forall w :: w in rows[..a] + rows[b..] <==> w in rows && !Scheduling.Carries(job, w)
    {
      hide Scheduling.Carries;
      forall w
        ensures w in rows[..a] + rows[b..] <==> w in rows && !Scheduling.Carries(job, w)
      {
        if w in rows && !Scheduling.Carries(job, w) {
          var i :| 0 <= i < |rows| && rows[i] == w;
          assert i < a || rows[b..][i - b] == w;
        }
        if w in rows[..a] {
          var i :| 0 <= i < a && rows[i] == w;
        }
        if w in rows[b..] {
          var i :| 0 <= i < |rows| - b && rows[b..][i] == w;
          assert rows[b + i] == w;
        }
      }
    }
  }
}

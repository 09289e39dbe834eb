/** The index service's code: keeping its three lists, asking the caches, and BatchGet. */
module IndexHandler {
  import opened Types
  import opened Layers
  import opened Schema
  import opened Index
  import CacheHandler
  import Database
  import Lookup
  import Protocol
  import Ring
  import Scheduling
  import Sorting
  import SSTable

  datatype Outcome = Ok(results: map<Key, Bytes>) | Err

  // ---- what is known after some layers ----

  /** The keys still open, and the values found so far, are those of these layers. */
  ghost predicate Progress(layers: seq<Layer>, keys: set<Key>, remaining: set<Key>, resp: map<Key, Bytes>) {
    && (forall k :: k in remaining <==> k in keys && FirstHit(layers, k).None?)
    && (forall k :: k in resp <==> k in keys && FirstHit(layers, k).Some? && FirstHit(layers, k).value.Put?)
    && (forall k :: k in resp ==> FirstHit(layers, k) == Some(Entry.Put(resp[k])))
  }

  lemma ProgressStep(layers: seq<Layer>, layer: Layer, keys: set<Key>, remaining: set<Key>, resp: map<Key, Bytes>,
      pr: Lookup.Response)
    requires Progress(layers, keys, remaining, resp) && Lookup.Tells(pr, layer, remaining)
    ensures Progress(layers + [layer], keys, remaining - pr.found.Keys - pr.deleted, resp + pr.found)
  {
    hide FirstHit;
    forall k
      ensures FirstHit(layers + [layer], k) == OrElse(FirstHit(layers, k), Get(layer, k))
    {
      FirstHitConcat(layers, [layer], k);
      FirstHitOne(layer, k);
    }
  }

  lemma FirstHitOne(layer: Layer, k: Key)
    ensures FirstHit([layer], k) == Get(layer, k)
  {
  }

  /** Once nothing is open, further layers change nothing. */
  lemma ProgressDone(layers: seq<Layer>, more: seq<Layer>, keys: set<Key>, resp: map<Key, Bytes>)
    requires Progress(layers, keys, {}, resp)
    ensures Progress(layers + more, keys, {}, resp)
  {
    hide FirstHit;
    forall k {
      FirstHitConcat(layers, more, k);
    }
  }

  // ---- the orders the three lists are kept in ----

  predicate NewerWal(a: Wal, b: Wal) {
    a.seqNo > b.seqNo
  }

  predicate NewerRun(a: Run, b: Run) {
    a.seqNo > b.seqNo
  }

  predicate StartsBelow(a: Partition, b: Partition) {
    Less(a.start, b.start)
  }

  lemma StartsBelowIsOrder()
    ensures Sorting.StrictWeak(StartsBelow)
  {
    hide Less;
    forall x: Partition, y: Partition
      ensures StartsBelow(x, y) ==> !StartsBelow(y, x)
    {
      LessTrichotomy(x.start, y.start);
    }
    forall x: Partition, y: Partition, z: Partition | !StartsBelow(y, x) && !StartsBelow(z, y)
      ensures !StartsBelow(z, x)
    {
      NotBelowTransitive(x.start, y.start, z.start);
    }
  }

  lemma NotBelowTransitive(a: Key, b: Key, c: Key)
    requires !Less(b, a) && !Less(c, b)
    ensures !Less(c, a)
  {
    hide Less;
    LessTrichotomy(a, b);
    LessTrichotomy(b, c);
    LessTrichotomy(a, c);
    if Less(a, b) && Less(b, c) {
      LessTransitive(a, b, c);
    }
  }

  /** The start key is the table's primary key. */
  predicate DistinctStarts(ps: seq<Partition>) {
    forall i, j :: 0 <= i < j < |ps| ==> ps[i].start != ps[j].start
  }

  /** Sorted by start key, rows with distinct start keys strictly increase. */
  lemma SortedIsOrdered(rows: seq<Partition>, sorted: seq<Partition>)
    requires DistinctStarts(rows) && multiset(sorted) == multiset(rows)
    requires Sorting.SortedBy(sorted, StartsBelow)
    ensures Ordered(sorted)
  {
    hide Less;
    forall i, j | 0 <= i < j < |sorted|
      ensures Less(sorted[i].start, sorted[j].start)
    {
      assert !StartsBelow(sorted[j], sorted[i]);
      LessTrichotomy(sorted[i].start, sorted[j].start);
      if sorted[i].start == sorted[j].start {
        assert sorted[i] in multiset(rows) && sorted[j] in multiset(rows);
        var a :| 0 <= a < |rows| && rows[a] == sorted[i];
        var b :| 0 <= b < |rows| && rows[b] == sorted[j];
        Sorting.TwiceInMultiset(sorted, i, j);
        Sorting.OnceInDistinct(rows, sorted[i]);
        assert false;
      }
    }
  }

  class Handler {
    const services: Ring.Services
    const store: Database.Bucket
    // the hash of a path, of which nothing is assumed
    const hash: Path -> nat
    // the pods known to answer every lookup they do not refuse; any other may fail any time
    const answering: set<Ring.Endpoint>

    var wals: seq<Wal>
    var sharedRuns: seq<Run>
    var partitions: seq<Partition>

    constructor (services: Ring.Services, store: Database.Bucket, hash: Path -> nat, answering: set<Ring.Endpoint>)
      ensures this.services == services && this.store == store && this.hash == hash && this.answering == answering
      ensures wals == [] && sharedRuns == [] && partitions == []
    {
      this.services, this.store, this.hash, this.answering := services, store, hash, answering;
      wals, sharedRuns, partitions := [], [], [];
    }

    /** The lists as BatchGet loads them. */
    function Snapshot(): (s: Snapshot)
      reads this, store
    {
      Index.Snapshot.Snapshot(
        seq(|wals|, i requires 0 <= i < |wals| reads this => wals[i].path),
        seq(|sharedRuns|, i requires 0 <= i < |sharedRuns| reads this => sharedRuns[i].path),
        partitions, store.objects)
    }

    /** Caches can be asked about anything: their pods are known and every stored object decodes. */
    predicate Valid()
      reads this, store, services
    {
      services.Valid() && Protocol.AllReadable(store.objects) && Ordered(partitions)
    }

    /** One of the two pods that are asked about a path answers. */
    predicate Served(path: Path)
      reads services
    {
      var members := services.members;
      && members != []
      && (members[hash(path) % |members|] in answering || members[(hash(path) + 1) % |members|] in answering)
    }

    /** An object that is there and can be asked about. */
    predicate Reachable(path: Path)
      reads this, store, services
    {
      path != "" && path in store.objects && Served(path)
    }

    // ---- keeping the lists ----

    /** The watchWALs callback: the table's rows, newest first, however the scan returned them. */
    method RefreshWals(db: Database.Database) returns (ok: bool)
      requires Ascending(db.wals)
      modifies this`wals
      ensures db.reliable ==> ok
      ensures wals == if ok then Reverse(db.wals) else old(wals)
    {
      var fails := db.Fails();
      if fails {
        return false;
      }
      var rows := db.GetWriteAheadLogs();
      var sorted := Sorting.SortSlice(rows, NewerWal);
      ReverseMultiset(db.wals);
      Sorting.SortedByUnique(sorted, Reverse(db.wals), NewerWal);
      wals := sorted;
      return true;
    }

    /** The watchSharedRuns callback. */
    method RefreshSharedRuns(db: Database.Database) returns (ok: bool)
      requires Scheduling.RunsInOrder(db.runs, db.nextRun)
      modifies this`sharedRuns
      ensures db.reliable ==> ok
      ensures sharedRuns == if ok then Reverse(db.runs) else old(sharedRuns)
    {
      var fails := db.Fails();
      if fails {
        return false;
      }
      var rows := db.GetSharedRuns();
      var sorted := Sorting.SortSlice(rows, NewerRun);
      ReverseMultiset(db.runs);
      Sorting.SortedByUnique(sorted, Reverse(db.runs), NewerRun);
      sharedRuns := sorted;
      return true;
    }

    /** The watchPartitions callback: the table's rows by strictly increasing start key. */
    method RefreshPartitions(db: Database.Database) returns (ok: bool)
      requires DistinctStarts(db.partitions)
      modifies this`partitions
      ensures db.reliable ==> ok
      ensures ok ==> Ordered(partitions) && multiset(partitions) == multiset(db.partitions)
      ensures !ok ==> partitions == old(partitions)
    {
      var fails := db.Fails();
      if fails {
        return false;
      }
      var rows := db.GetPartitions();
      StartsBelowIsOrder();
      partitions := Sorting.SortSlice(rows, StartsBelow);
      SortedIsOrdered(db.partitions, partitions);
      return true;
    }

    // ---- asking the caches ----

    /** One RPC to one cache pod: CacheHandler.Handler.Get there, if the pod can be reached. */
    method CallCache(endpoint: Ring.Endpoint, path: Path, keys: set<Key>) returns (response: Option<Lookup.Response>)
      requires Valid()
      ensures response.Some? ==> keys != {} && path in store.objects
      ensures response.Some? ==> Lookup.Tells(response.value, Protocol.LayerAt(store.objects, path), keys)
      ensures endpoint in answering && keys != {} && path != "" && path in store.objects ==> response.Some?
    {
      if path == "" || keys == {} || path !in store.objects {
        return None;
      }
      if endpoint !in answering {
        if * {
          return None;
        }
      }
      var records := SSTable.ScanAll(store.objects[path]).records;
      assert Protocol.Readable(store.objects[path]);
      Lookup.AnswerTells(records, keys);
      return Some(Lookup.Answer(records, keys));
    }

    /** What a pod's code does is what CallCache says, whatever is in the pod's cache. */
    static method AskPod(pod: CacheHandler.Handler, path: Path, keys: set<Key>)
        returns (response: Option<Lookup.Response>)
      requires pod.Valid() && Protocol.AllReadable(pod.store.objects)
      modifies pod.cache
      ensures pod.Valid()
      ensures response.Some? ==>
                keys != {} && path in pod.store.objects
                    && Lookup.Tells(response.value, Protocol.LayerAt(pod.store.objects, path), keys)
      ensures pod.store.reliable && keys != {} && path != "" && path in pod.store.objects ==> response.Some?
    {
      hide Lookup.Tells, Content, Protocol.Readable, Lookup.Answer;
      response := pod.Get(path, keys);
    }

    /** Ask the path's first pod and, if that fails, its second: one of them answering is enough. */
    method LookupSSTable(keys: set<Key>, path: Path) returns (response: Option<Lookup.Response>)
      requires Valid()
      ensures response.Some? ==> keys != {} && Lookup.Tells(response.value, Protocol.LayerAt(store.objects, path), keys)
      ensures keys != {} && Reachable(path) ==> response.Some?
    {
      hide Lookup.Tells, Protocol.LayerAt;
      var clients := services.GetClients(hash(path));
      if clients == None {
        return None;
      }
      response := None;
      for i := 0 to |clients.value|
        invariant response == None
        invariant keys != {} && path != "" && path in store.objects ==>
                    forall k :: 0 <= k < i ==> clients.value[k] !in answering
      {
        response := CallCache(clients.value[i], path, keys);
        if response.Some? {
          return;
        }
      }
    }

    /** Take over what one lookup found, walking its map in any order. */
    static method AbsorbFound(resp0: map<Key, Bytes>, remaining0: set<Key>, found: map<Key, Bytes>)
        returns (resp: map<Key, Bytes>, remaining: set<Key>)
      ensures resp == resp0 + found
      ensures remaining == remaining0 - found.Keys
    {
      hide Absorbed, Left;
      resp, remaining := resp0, remaining0;
      var todo := found.Keys;
      AbsorbEnds(resp0, remaining0, found);
      while todo != {}
        invariant todo <= found.Keys
        invariant resp == Absorbed(resp0, found, todo) && remaining == Left(remaining0, found, todo)
        decreases |todo|
      {
        var k :| k in todo;
        AbsorbOne(resp0, remaining0, found, todo, k);
        resp := resp[k := found[k]];
        remaining := remaining - {k};
        todo := todo - {k};
      }
    }

    /** The response once all found keys but those of `todo` have been taken over. */
    static ghost function Absorbed(resp: map<Key, Bytes>, found: map<Key, Bytes>, todo: set<Key>): map<Key, Bytes> {
      resp + (found - todo)
    }

    static ghost function Left(remaining: set<Key>, found: map<Key, Bytes>, todo: set<Key>): set<Key> {
      remaining - (found.Keys - todo)
    }

    static lemma AbsorbEnds(resp: map<Key, Bytes>, remaining: set<Key>, found: map<Key, Bytes>)
      ensures Absorbed(resp, found, found.Keys) == resp && Left(remaining, found, found.Keys) == remaining
      ensures Absorbed(resp, found, {}) == resp + found && Left(remaining, found, {}) == remaining - found.Keys
    {
    }

    static lemma AbsorbOne(resp: map<Key, Bytes>, remaining: set<Key>, found: map<Key, Bytes>, todo: set<Key>, k: Key)
      requires k in found && k in todo
      ensures Absorbed(resp, found, todo)[k := found[k]] == Absorbed(resp, found, todo - {k})
      ensures Left(remaining, found, todo) - {k} == Left(remaining, found, todo - {k})
    {
    }

    static method AbsorbDeleted(remaining0: set<Key>, deleted: set<Key>) returns (remaining: set<Key>)
      ensures remaining == remaining0 - deleted
    {
      remaining := remaining0;
      var todo := deleted;
      while todo != {}
        invariant todo <= deleted
        invariant remaining == remaining0 - (deleted - todo)
        decreases |todo|
      {
        var k :| k in todo;
        remaining := remaining - {k};
        todo := todo - {k};
      }
    }

    // ---- BatchGet ----

    /** The paths of the lists, for the proofs. */
    ghost function WalLayers(): seq<Layer>
      reads this, store
    {
      LayersOf(store.objects, Snapshot().wals)
    }

    ghost function RunLayers(): seq<Layer>
      reads this, store
    {
      LayersOf(store.objects, Snapshot().runs)
    }

    /** First check the WALs, newest first, until no key is left. */
    method SearchWals(keys: set<Key>) returns (r: Option<(map<Key, Bytes>, set<Key>)>)
      requires Valid()
      ensures r.Some? ==> Progress(WalLayers(), keys, r.value.1, r.value.0)
      ensures (forall w :: w in wals ==> Reachable(w.path)) ==> r.Some?
    {
      hide Progress, Lookup.Tells, Valid, FirstHit, Protocol.LayerAt;
      var resp: map<Key, Bytes>, remaining := map[], keys;
      ghost var layers := WalLayers();
      ProgressStart(keys);
      assert layers[..0] == [];
      for i := 0 to |wals|
        invariant Progress(layers[..i], keys, remaining, resp)
      {
        if |remaining| == 0 {
          ProgressDone(layers[..i], layers[i..], keys, resp);
          assert layers == layers[..i] + layers[i..];
          return Some((resp, remaining));
        }
        var pr := LookupSSTable(remaining, wals[i].path);
        if pr == None {
          assert wals[i] in wals;
          return None;
        }
        ProgressStep(layers[..i], layers[i], keys, remaining, resp, pr.value);
        assert layers[..i + 1] == layers[..i] + [layers[i]];
        resp, remaining := AbsorbFound(resp, remaining, pr.value.found);
        remaining := AbsorbDeleted(remaining, pr.value.deleted);
      }
      assert layers[..|wals|] == layers;
      return Some((resp, remaining));
    }

    static lemma ProgressStart(keys: set<Key>)
      ensures Progress([], keys, keys, map[])
    {
    }

    /** Then check the shared runs, newest first, whether or not a key is left. */
    method SearchRuns(keys: set<Key>, resp0: map<Key, Bytes>, remaining0: set<Key>)
        returns (r: Option<(map<Key, Bytes>, set<Key>)>)
      requires Valid() && remaining0 != {}
      requires Progress(WalLayers(), keys, remaining0, resp0)
      ensures r.Some? ==> Progress(WalLayers() + RunLayers(), keys, r.value.1, r.value.0)
      ensures r.Some? ==> forall n :: 0 <= n < |sharedRuns| ==> !Answered(Snapshot(), n, keys)
      ensures (forall s :: s in sharedRuns ==> Reachable(s.path)) ==>
                (r == None ==> exists n :: 0 < n < |sharedRuns| && Answered(Snapshot(), n, keys))
    {
      hide Progress, Lookup.Tells, Valid, FirstHit, Protocol.LayerAt, Answered;
      var resp, remaining := resp0, remaining0;
      ghost var before, layers := WalLayers(), RunLayers();
      assert layers[..0] == [] && before + [] == before;
      for i := 0 to |sharedRuns|
        invariant Progress(before + layers[..i], keys, remaining, resp)
        invariant i == 0 ==> remaining != {}
        invariant forall n :: 0 <= n < i ==> !Answered(Snapshot(), n, keys)
      {
        AnsweredIs(i, keys, remaining, resp);
        var pr := LookupSSTable(remaining, sharedRuns[i].path);
        if pr == None {
          assert sharedRuns[i] in sharedRuns;
          assert (forall s :: s in sharedRuns ==> Reachable(s.path)) ==>
              remaining == {} && 0 < i && Answered(Snapshot(), i, keys);
          r := None;
          return;
        }
        ProgressStep(before + layers[..i], layers[i], keys, remaining, resp, pr.value);
        assert before + layers[..i + 1] == before + layers[..i] + [layers[i]];
        resp, remaining := AbsorbFound(resp, remaining, pr.value.found);
        remaining := AbsorbDeleted(remaining, pr.value.deleted);
      }
      assert layers[..|sharedRuns|] == layers;
      return Some((resp, remaining));
    }

    lemma AnsweredIs(n: nat, keys: set<Key>, remaining: set<Key>, resp: map<Key, Bytes>)
      requires n <= |sharedRuns| && Progress(WalLayers() + RunLayers()[..n], keys, remaining, resp)
      ensures Answered(Snapshot(), n, keys) <==> remaining == {}
    {
      hide FirstHit, Protocol.LayerAt;
      assert LayersOf(store.objects, Snapshot().runs[..n]) == RunLayers()[..n];
      assert forall k :: k in remaining ==> Open(Snapshot(), n, k);
    }

    /** Some group has the key. */
    static predicate InGroup(groups: map<nat, set<Key>>, k: Key) {
      exists idx :: idx in groups && k in groups[idx]
    }

    /** A group of partition `idx`: some of `keys`, each held by the partition. */
    static ghost predicate GoodGroup(ps: seq<Partition>, keys: set<Key>, idx: nat, group: set<Key>) {
      && idx < |ps| && group != {} && group <= keys
      && forall k :: k in group ==> Index.Holds(ps, idx, k)
    }

    /** The groups split up `keys`, each key in a group of a partition that holds it. */
    static ghost predicate Grouped(ps: seq<Partition>, keys: set<Key>, groups: map<nat, set<Key>>) {
      && (forall idx :: idx in groups ==> GoodGroup(ps, keys, idx, groups[idx]))
      && (forall k :: k in keys ==> InGroup(groups, k))
    }

    static ghost predicate BelowAll(ps: seq<Partition>, k: Key) {
      forall i :: 0 <= i < |ps| ==> Less(k, ps[i].start)
    }

    static lemma AddToGroup(ps: seq<Partition>, keys: set<Key>, groups: map<nat, set<Key>>, idx: nat, k: Key)
      requires Grouped(ps, keys, groups) && Index.Holds(ps, idx, k)
      ensures Grouped(ps, keys + {k}, groups[idx := (if idx in groups then groups[idx] else {}) + {k}])
    {
      hide Index.Holds, GoodGroup, InGroup;
      var more := groups[idx := (if idx in groups then groups[idx] else {}) + {k}];
      forall i | i in more
        ensures GoodGroup(ps, keys + {k}, i, more[i])
      {
        if i == idx {
          GrowGroup(ps, keys, idx, if idx in groups then groups[idx] else {}, k);
        } else {
          KeepGroup(ps, keys, i, groups[i], k);
        }
      }
      forall x | x in keys + {k}
        ensures InGroup(more, x)
      {
        StillInGroup(groups, idx, k, x);
      }
    }

    static lemma StillInGroup(groups: map<nat, set<Key>>, idx: nat, k: Key, x: Key)
      requires x == k || InGroup(groups, x)
      ensures InGroup(groups[idx := (if idx in groups then groups[idx] else {}) + {k}], x)
    {
      var more := groups[idx := (if idx in groups then groups[idx] else {}) + {k}];
      if x == k {
        assert k in more[idx];
      } else {
        var i :| i in groups && x in groups[i];
        assert x in more[i];
      }
    }

    static lemma GrowGroup(ps: seq<Partition>, keys: set<Key>, idx: nat, group: set<Key>, k: Key)
      requires group == {} || GoodGroup(ps, keys, idx, group)
      requires Index.Holds(ps, idx, k)
      ensures GoodGroup(ps, keys + {k}, idx, group + {k})
    {
      hide Index.Holds;
      HoldsIndex(ps, idx, k);
      assert k in group + {k};
    }

    static lemma KeepGroup(ps: seq<Partition>, keys: set<Key>, idx: nat, group: set<Key>, k: Key)
      requires GoodGroup(ps, keys, idx, group)
      ensures GoodGroup(ps, keys + {k}, idx, group)
    {
      hide Index.Holds;
    }

    static lemma HoldsIndex(ps: seq<Partition>, idx: nat, k: Key)
      requires Index.Holds(ps, idx, k)
      ensures idx < |ps| && !BelowAll(ps, k)
    {
    }

    /** Group the open keys by the partition that holds them; a key below every partition is an error. */
    method GroupByPartition(remaining: set<Key>) returns (reqs: Option<map<nat, set<Key>>>)
      requires Valid()
      ensures reqs == None <==> exists k :: k in remaining && BelowAll(partitions, k)
      ensures reqs.Some? ==> Grouped(partitions, remaining, reqs.value)
    {
      hide Less, Grouped, Index.Holds, BelowAll;
      var groups: map<nat, set<Key>> := map[];
      var todo := remaining;
      NothingGrouped(partitions);
      assert remaining - todo == {};
      while todo != {}
        invariant todo <= remaining
        invariant Grouped(partitions, remaining - todo, groups)
        decreases |todo|
      {
        var key :| key in todo;
        var i := Search(partitions, key);
        if i == 0 {
          SearchedBelowAll(partitions, key);
          return None;
        }
        SearchedHolds(partitions, i - 1, key);
        AddToGroup(partitions, remaining - todo, groups, i - 1, key);
        groups := Append(groups, i - 1, key);
        Taken(remaining, todo, key);
        todo := todo - {key};
      }
      assert remaining - todo == remaining;
      forall k | k in remaining
        ensures !BelowAll(partitions, k)
      {
        GroupedNotBelow(partitions, remaining, groups, k);
      }
      return Some(groups);
    }

    /** `reqs[i-1][key] = empty` on a map that may not have the index yet. */
    static method Append(groups0: map<nat, set<Key>>, idx: nat, key: Key) returns (groups: map<nat, set<Key>>)
      ensures groups == groups0[idx := (if idx in groups0 then groups0[idx] else {}) + {key}]
    {
      groups := groups0;
      if idx !in groups {
        groups := groups[idx := {}];
      }
      groups := groups[idx := groups[idx] + {key}];
    }

    static lemma Taken(all: set<Key>, todo: set<Key>, k: Key)
      requires k in todo && todo <= all
      ensures all - (todo - {k}) == all - todo + {k}
    {
    }

    static lemma NothingGrouped(ps: seq<Partition>)
      ensures Grouped(ps, {}, map[])
    {
    }

    static lemma SearchedBelowAll(ps: seq<Partition>, k: Key)
      requires forall i :: 0 <= i < |ps| ==> Less(k, ps[i].start)
      ensures BelowAll(ps, k)
    {
    }

    static lemma SearchedHolds(ps: seq<Partition>, i: nat, k: Key)
      requires i < |ps| && !Less(k, ps[i].start) && (i + 1 < |ps| ==> Less(k, ps[i + 1].start))
      ensures Index.Holds(ps, i, k)
    {
    }

    static lemma GroupedNotBelow(ps: seq<Partition>, keys: set<Key>, groups: map<nat, set<Key>>, k: Key)
      requires Grouped(ps, keys, groups) && k in keys
      ensures !BelowAll(ps, k)
    {
      hide Index.Holds, BelowAll;
      assert InGroup(groups, k);
      var idx :| idx in groups && k in groups[idx];
      HoldsIndex(ps, idx, k);
    }

    /** The values so far, and those the partitions hold for the keys of `done`. */
    static ghost predicate Filled(s: Snapshot, base: map<Key, Bytes>, done: set<Key>, resp: map<Key, Bytes>) {
      && (forall k :: k in resp <==> k in base || (k in done && PartitionValue(s, k).Some?))
      && (forall k :: k in resp && k in done && PartitionValue(s, k).Some? ==> resp[k] == PartitionValue(s, k).value)
      && (forall k :: k in base && k !in done ==> resp[k] == base[k])
    }

    /** The same while the runs of one partition are being asked. */
    static ghost predicate Filling(before: map<Key, Bytes>, layers: seq<Layer>, keys: set<Key>, resp: map<Key, Bytes>) {
      && (forall k :: k in resp <==> k in before || (k in keys && LastValue(layers, k).Some?))
      && (forall k :: k in keys && LastValue(layers, k).Some? ==> resp[k] == LastValue(layers, k).value)
      && (forall k :: k in before && !(k in keys && LastValue(layers, k).Some?) ==> resp[k] == before[k])
    }

    static lemma FillingStep(before: map<Key, Bytes>, layers: seq<Layer>, layer: Layer, keys: set<Key>,
        resp: map<Key, Bytes>, pr: Lookup.Response)
      requires Filling(before, layers, keys, resp) && Lookup.Tells(pr, layer, keys)
      ensures Filling(before, layers + [layer], keys, resp + pr.found)
    {
      hide LastValue;
      forall k
        ensures LastValue(layers + [layer], k) ==
            if k in layer && layer[k].Put? then Some(layer[k].value) else LastValue(layers, k)
      {
        LastValueStep(layers, layer, k);
      }
    }

    static lemma LastValueStep(layers: seq<Layer>, layer: Layer, k: Key)
      ensures LastValue(layers + [layer], k) ==
          if k in layer && layer[k].Put? then Some(layer[k].value) else LastValue(layers, k)
    {
      assert (layers + [layer])[..|layers|] == layers;
    }

    static lemma FillingStart(before: map<Key, Bytes>, keys: set<Key>)
      ensures Filling(before, [], keys, before)
    {
    }

    /** Every run of one partition is asked about all the keys of its group. */
    method SearchPartition(idx: nat, keys: set<Key>, resp0: map<Key, Bytes>, remaining0: set<Key>)
        returns (r: Option<(map<Key, Bytes>, set<Key>)>)
      requires Valid() && idx < |partitions| && keys != {}
      ensures r.Some? ==> Filling(resp0, LayersOf(store.objects, partitions[idx].runs), keys, r.value.0)
      ensures (forall p :: p in partitions[idx].runs ==> Reachable(p)) ==> r.Some?
    {
      hide Filling, Lookup.Tells, Valid, LastValue, Protocol.LayerAt;
      var resp, remaining := resp0, remaining0;
      var p := partitions[idx];
      ghost var layers := LayersOf(store.objects, p.runs);
      FillingStart(resp0, keys);
      assert layers[..0] == [];
      for i := 0 to |p.runs|
        invariant Filling(resp0, layers[..i], keys, resp)
      {
        var pr := LookupSSTable(keys, p.runs[i]);
        if pr == None {
          assert p.runs[i] in partitions[idx].runs;
          return None;
        }
        FillingStep(resp0, layers[..i], layers[i], keys, resp, pr.value);
        assert layers[..i + 1] == layers[..i] + [layers[i]];
        resp, remaining := AbsorbFound(resp, remaining, pr.value.found);
        remaining := AbsorbDeleted(remaining, pr.value.deleted);
      }
      assert layers[..|p.runs|] == layers;
      return Some((resp, remaining));
    }

    static lemma FilledStep(s: Snapshot, base: map<Key, Bytes>, done: set<Key>, before: map<Key, Bytes>, idx: nat,
              keys: set<Key>, resp: map<Key, Bytes>)
      requires Ordered(s.partitions) && idx < |s.partitions|
      requires Filled(s, base, done, before)
      requires Filling(before, LayersOf(s.objects, s.partitions[idx].runs), keys, resp)
      requires forall k :: k in keys ==> Index.Holds(s.partitions, idx, k)
      ensures Filled(s, base, done + keys, resp)
    {
      hide LastValue, Index.Holds, PartitionValue, Ordered;
      forall k | k in keys
        ensures PartitionValue(s, k) == LastValue(LayersOf(s.objects, s.partitions[idx].runs), k)
      {
        PartitionValueIs(s, idx, k);
      }
    }

    /** Finally ask the partitions about the keys still open, one group at a time in any order. */
    method SearchPartitions(base: map<Key, Bytes>, remaining0: set<Key>) returns (r: Option<map<Key, Bytes>>)
      requires Valid()
      ensures r.Some? ==> Filled(Snapshot(), base, remaining0, r.value)
      ensures r.Some? ==> forall k :: k in remaining0 ==> !BelowAll(partitions, k)
      ensures (forall p :: p in partitions ==> forall q :: q in p.runs ==> Reachable(q)) ==>
                (r == None ==> exists k :: k in remaining0 && BelowAll(partitions, k))
    {
      hide Filled, Filling, LastValue, Index.Holds, Less, PartitionValue, Grouped, BelowAll;
      var resp, remaining := base, remaining0;
      var reqs := GroupByPartition(remaining);
      if reqs == None {
        return None;
      }
      ghost var done: set<nat> := {};
      var todo := reqs.value.Keys;
      FilledStart(Snapshot(), base);
      NothingCovered(reqs.value);
      while todo != {}
        invariant todo <= reqs.value.Keys && done == reqs.value.Keys - todo
        invariant Filled(Snapshot(), base, Covered(reqs.value, done), resp)
        decreases |todo|
      {
        var idx :| idx in todo;
        GroupFacts(partitions, remaining0, reqs.value, idx);
        var searched := SearchPartition(idx, reqs.value[idx], resp, remaining);
        if searched == None {
          assert partitions[idx] in partitions;
          return None;
        }
        FilledStep(Snapshot(), base, Covered(reqs.value, done), resp, idx, reqs.value[idx], searched.value.0);
        CoveredStep(reqs.value, done, idx);
        resp, remaining := searched.value.0, searched.value.1;
        done := done + {idx};
        todo := todo - {idx};
      }
      CoveredAll(partitions, remaining0, reqs.value);
      assert done == reqs.value.Keys;
      return Some(resp);
    }

    /** The keys of the groups in `done`. */
    static ghost function Covered(groups: map<nat, set<Key>>, done: set<nat>): set<Key> {
      set idx, k | idx in groups && idx in done && k in groups[idx] :: k
    }

    static lemma NothingCovered(groups: map<nat, set<Key>>)
      ensures Covered(groups, {}) == {}
    {
    }

    static lemma CoveredStep(groups: map<nat, set<Key>>, done: set<nat>, idx: nat)
      requires idx in groups
      ensures Covered(groups, done + {idx}) == Covered(groups, done) + groups[idx]
    {
    }

    static lemma CoveredAll(ps: seq<Partition>, keys: set<Key>, groups: map<nat, set<Key>>)
      requires Grouped(ps, keys, groups)
      ensures Covered(groups, groups.Keys) == keys
    {
      hide Index.Holds;
      forall k | k in keys
        ensures k in Covered(groups, groups.Keys)
      {
        assert InGroup(groups, k);
      }
    }

    static lemma GroupFacts(ps: seq<Partition>, keys: set<Key>, groups: map<nat, set<Key>>, idx: nat)
      requires Grouped(ps, keys, groups) && idx in groups
      ensures idx < |ps| && groups[idx] != {} && forall k :: k in groups[idx] ==> Index.Holds(ps, idx, k)
    {
    }

    static lemma FilledStart(s: Snapshot, base: map<Key, Bytes>)
      ensures Filled(s, base, {}, base)
    {
    }

    static lemma Assembled(s: Snapshot, keys: set<Key>, base: map<Key, Bytes>, remaining: set<Key>,
        resp: map<Key, Bytes>)
      requires Progress(LayersOf(s.objects, s.wals) + LayersOf(s.objects, s.runs), keys, remaining, base)
      requires Filled(s, base, remaining, resp)
      ensures resp == Visible(s, keys)
    {
      hide PartitionValue, FirstHit;
      forall k
        ensures k in resp <==> k in Visible(s, keys)
        ensures k in resp ==> resp[k] == Visible(s, keys)[k]
      {
      }
    }

    /** Every object the lists name is in the store and one of its pods answers. */
    predicate AllReachable()
      reads this, store, services
    {
      && (forall w :: w in wals ==> Reachable(w.path))
      && (forall s :: s in sharedRuns ==> Reachable(s.path))
      && (forall p :: p in partitions ==> forall q :: q in p.runs ==> Reachable(q))
    }

    /**
     Without an error the response holds exactly the requested keys whose newest-first lookup is
     a value, each with that value. When of the two pods asked about each object one answers, the
     call fails exactly when the keys run out before the runs do or a key is in no partition.
     */
    method BatchGet(request: seq<Key>) returns (r: Outcome)
      requires Valid()
      ensures var keys := set k | k in request;
              && (r.Ok? ==> r.results == Visible(Snapshot(), keys))
              && (r.Ok? ==> !RunsOut(Snapshot(), keys) && !Homeless(Snapshot(), keys))
      ensures r.Ok? && RunsDisjoint(Snapshot()) ==>
                forall k :: Get(r.results, k) == if k in request then NewestFirst(Snapshot(), k) else None
      ensures var keys := set k | k in request;
              AllReachable() ==>
                (r == Err <==> RunsOut(Snapshot(), keys) || Homeless(Snapshot(), keys))
    {
      hide Progress, Filled, FirstHit, PartitionValue, Less, Answered, Open, Visible, Protocol.LayerAt, Ordered;
      hide Protocol.AllReadable;
      hide RunsDisjoint, NewestFirst;
      var keys: set<Key> := {};
      for i := 0 to |request|
        invariant keys == set k | k in request[..i]
      {
        assert request[..i + 1] == request[..i] + [request[i]];
        keys := keys + {request[i]};
      }
      assert request[..|request|] == request;
      ghost var s := Snapshot();
      assert s.runs[..0] == [];
      if RunsDisjoint(s) {
        VisibleIsNewestFirst(s, keys);
      }
      var first := SearchWals(keys);
      if first == None {
        return Err;
      }
      var (resp, remaining) := first.value;
      FirstAnswered(keys, remaining, resp);
      if |remaining| > 0 {
        var second := SearchRuns(keys, resp, remaining);
        if second == None {
          return Err;
        }
        resp, remaining := second.value.0, second.value.1;
      } else {
        ProgressDone(WalLayers(), RunLayers(), keys, resp);
      }
      LastAnswered(keys, remaining, resp);
      if |remaining| > 0 {
        var third := SearchPartitions(resp, remaining);
        if third == None {
          return Err;
        }
        Assembled(s, keys, resp, remaining, third.value);
        return Ok(third.value);
      }
      FilledStart(s, resp);
      Assembled(s, keys, resp, remaining, resp);
      return Ok(resp);
    }

    lemma FirstAnswered(keys: set<Key>, remaining: set<Key>, resp: map<Key, Bytes>)
      requires Progress(WalLayers(), keys, remaining, resp)
      ensures Answered(Snapshot(), 0, keys) <==> remaining == {}
    {
      hide Progress, Answered, Protocol.LayerAt;
      assert WalLayers() + RunLayers()[..0] == WalLayers();
      AnsweredIs(0, keys, remaining, resp);
    }

    lemma LastAnswered(keys: set<Key>, remaining: set<Key>, resp: map<Key, Bytes>)
      requires Progress(WalLayers() + RunLayers(), keys, remaining, resp)
      ensures forall k :: k in remaining <==> k in keys && Open(Snapshot(), |Snapshot().runs|, k)
    {
      hide FirstHit, Protocol.LayerAt;
      assert Snapshot().runs[..|Snapshot().runs|] == Snapshot().runs;
    }
  }
}

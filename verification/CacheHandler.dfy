/** The cache service's code. */
module CacheHandler {
  import opened Types
  import opened Layers
  import opened Cache
  import opened Database
  import Lookup
  import Protocol
  import SSTable

  class SizeAwareCache {
    var items: seq<Item>
    var currentSize: int
    const maxSize: int

    function State(): State
      reads this
    {
      Cache.State.State(items, currentSize)
    }

    constructor (maxSizeBytes: int)
      ensures maxSize == maxSizeBytes && State() == Cache.State.State([], 0)
    {
      items, currentSize, maxSize := [], 0, maxSizeBytes;
    }

    method Add(path: Path, value: Object) returns (added: bool)
      modifies this
      ensures State() == Cache.Add(old(State()), path, value, maxSize)
      ensures added <==> |value| <= maxSize
    {
      hide PutItem, Touch, Find;
      if |value| > maxSize {
        return false;
      }
      var oldValue := Find(items, path);
      items := Touch(items, path);
      if oldValue.Some? {
        currentSize := currentSize - |oldValue.value|;
      }
      ghost var start := State();
      while currentSize + |value| > maxSize && |items| > 0
        invariant MakeRoom(State(), |value|, maxSize) == MakeRoom(start, |value|, maxSize)
        decreases |items|
      {
        var oldest := items[0];
        items := items[1..];
        currentSize := currentSize - |oldest.data|;
      }
      items := PutItem(items, path, value);
      currentSize := currentSize + |value|;
      return true;
    }

    /**
     A hit yields the cached bytes and makes the entry the youngest, a miss changes nothing. Either
     way the same entries stay cached, so the books, the byte bound and the faithfulness to any
     store stay as they were.
     */
    method Get(path: Path) returns (value: Option<Object>)
      modifies this
      ensures value == Find(old(items), path)
      ensures State() == Cache.State.State(Touch(old(items), path), old(currentSize))
      ensures Unique(old(items)) && value.Some? ==>
                exists n :: 0 <= n < |old(items)| && old(items)[n] == Item(path, value.value) &&
                  items == old(items)[..n] + old(items)[n + 1..] + [old(items)[n]]
      ensures value.None? ==> items == old(items) && forall i :: i in items ==> i.path != path
      ensures Unique(old(items)) ==>
                && Unique(items) && |items| == |old(items)| && Total(items) == Total(old(items))
                && (forall i :: i in items <==> i in old(items))
      ensures Bounded(old(State()), maxSize) ==> Bounded(State(), maxSize)
      ensures forall objects :: Unique(old(items)) && Faithful(old(items), objects) ==> Faithful(items, objects)
    {
      if Unique(items) {
        TouchKeeps(items, path);
        var n := TouchMoves(items, path);
      }
      value := Find(items, path);
      items := Touch(items, path);
    }
  }

  class Handler {
    const cache: SizeAwareCache
    const store: Bucket

    constructor (cache: SizeAwareCache, store: Bucket)
      ensures this.cache == cache && this.store == store
    {
      this.cache := cache;
      this.store := store;
    }

    /** The cache is within its bound and holds only what the store holds. */
    predicate Valid()
      reads this, cache, store
    {
      Bounded(cache.State(), cache.maxSize) && Faithful(cache.items, store.objects)
    }

    /** Downloads on a miss only; the bytes returned are always the store's. */
    method GetObjectData(path: Path) returns (data: Option<Object>)
      requires Valid()
      modifies cache
      ensures Valid()
      ensures data.Some? ==> path in store.objects && data.value == store.objects[path]
      ensures Find(old(cache.items), path).Some? || (store.reliable && path in store.objects) ==> data.Some?
      ensures cache.State() == Fetch(old(cache.State()), path, data, cache.maxSize)
    {
      hide MakeRoom, PutItem, Without, Total, Touch;
      ghost var before := cache.State();
      data := cache.Get(path);
      if data.Some? {
        assert Item(path, data.value) in before.items;
        FetchBounded(before, path, data, cache.maxSize);
        FetchFaithful(before, path, data, store.objects, cache.maxSize);
        return;
      }
      MissTouchesNothing(before.items, path);
      data := store.Download(path);
      if data.Some? {
        var _ := cache.Add(path, data.value);
      }
      FetchBounded(before, path, data, cache.maxSize);
      FetchFaithful(before, path, data, store.objects, cache.maxSize);
    }

    static lemma MissTouchesNothing(items: seq<Item>, path: Path)
      ensures Find(items, path).None? ==> Touch(items, path) == items
    {
    }

    /** CacheService.Get: refuses an empty path or key set, otherwise tells what the object says. */
    method Get(path: Path, keys: set<Key>) returns (response: Option<Lookup.Response>)
      requires Valid()
      modifies cache
      ensures Valid()
      ensures path == "" || keys == {} || path !in store.objects ==> response == None
      ensures path in store.objects && SSTable.ScanAll(store.objects[path]).panics ==> response == None
      ensures store.reliable && path != "" && keys != {} && path in store.objects
              && Protocol.Readable(store.objects[path]) ==>
                response.Some?
      ensures response.Some? ==> response.value == Lookup.Answer(SSTable.ScanAll(store.objects[path]).records, keys)
      ensures response.Some? && Protocol.Readable(store.objects[path]) ==>
                Lookup.Tells(response.value, Content(store.objects[path]), keys)
    {
      hide Bounded, Fetch, Find;
      if path == "" {
        return None;
      }
      if |keys| == 0 {
        return None;
      }
      var data := GetObjectData(path);
      if data == None {
        return None;
      }
      var found: map<Key, Bytes> := map[];
      var deleted: set<Key> := {};
      var records, panics := SSTable.Records(data.value);
      for i := 0 to |records|
        invariant Lookup.Response(found, deleted) == Lookup.Answer(records[..i], keys)
        invariant Valid()
      {
        assert records[..i + 1][..i] == records[..i];
        if records[i].key in keys {
          if records[i].tombstone {
            deleted := deleted + {records[i].key};
          } else {
            found := found[records[i].key := records[i].value];
          }
        }
      }
      assert records[..|records|] == records;
      if panics {
        return None;
      }
      if StrictlySorted(records) {
        Lookup.AnswerTells(records, keys);
      }
      return Some(Lookup.Response(found, deleted));
    }
  }
}

/** The cache service: an LRU of whole objects bounded by bytes, and lookups in one object. */
module Cache {
  import opened Types
  import opened Layers
  import Invariant

  /** lru.New(1024): the library's own bound on the number of entries. */
  const CAPACITY := 1024

  datatype Item = Item(path: Path, data: Object)

  // ---- the LRU library, oldest entry first ----

  predicate Unique(items: seq<Item>) {
    forall i, j :: 0 <= i < j < |items| ==> items[i].path != items[j].path
  }

  function Find(items: seq<Item>, path: Path): (r: Option<Object>)
    ensures r.Some? ==> Item(path, r.value) in items
    ensures r.None? ==> forall i :: 0 <= i < |items| ==> items[i].path != path
  {
    if items == [] then None
    else if items[|items| - 1].path == path then Some(items[|items| - 1].data)
    else Find(items[..|items| - 1], path)
  }

  function Without(items: seq<Item>, path: Path): seq<Item> {
    if items == [] then [] else
    Without(items[..|items| - 1], path) + if items[|items| - 1].path == path then [] else [items[|items| - 1]]
  }

  /** Get moves the entry it finds to the young end. */
  function Touch(items: seq<Item>, path: Path): seq<Item> {
    match Find(items, path)
    case None => items
    case Some(data) => Without(items, path) + [Item(path, data)]
  }

  /** Add puts the entry at the young end and drops the oldest one beyond the capacity. */
  function PutItem(items: seq<Item>, path: Path, data: Object): seq<Item> {
    var added := Without(items, path) + [Item(path, data)];
    if |added| > CAPACITY then added[1..] else added
  }

  // ---- the size-aware cache ----

  datatype State = State(items: seq<Item>, currentSize: int)

  function Total(items: seq<Item>): nat {
    if items == [] then 0 else Total(items[..|items| - 1]) + |items[|items| - 1].data|
  }

  /** The eviction loop of add. */
  function MakeRoom(s: State, need: nat, maxSize: int): State
    decreases |s.items|
  {
    if s.currentSize + need > maxSize && s.items != [] then
      MakeRoom(State(s.items[1..], s.currentSize - |s.items[0].data|), need, maxSize)
    else s
  }

  function Add(s: State, path: Path, data: Object, maxSize: int): State {
    if |data| > maxSize then s else
    var size := match Find(s.items, path) case None => s.currentSize case Some(old') => s.currentSize - |old'|;
    var roomy := MakeRoom(State(Touch(s.items, path), size), |data|, maxSize);
    State(PutItem(roomy.items, path, data), roomy.currentSize + |data|)
  }

  /** getObjectData: `fetched` is what a download yields, if one is needed and succeeds. */
  function Fetch(s: State, path: Path, fetched: Option<Object>, maxSize: int): State {
    match Find(s.items, path)
    case Some(_) => s.(items := Touch(s.items, path))
    case None => if fetched == None then s else Add(s, path, fetched.value, maxSize)
  }

  // ---- list facts ----

  lemma {:induction false} TotalConcat(a: seq<Item>, b: seq<Item>)
    ensures Total(a + b) == Total(a) + Total(b)
  {
    if b == [] {
      assert a + b == a;
    } else {
      assert (a + b)[..|a + b| - 1] == a + b[..|b| - 1];
      TotalConcat(a, b[..|b| - 1]);
    }
  }

  lemma TotalOne(i: Item)
    ensures Total([i]) == |i.data|
  {
    assert [i][..0] == [];
  }

  lemma TotalHead(items: seq<Item>)
    requires items != []
    ensures Total(items) == |items[0].data| + Total(items[1..])
  {
    assert items == [items[0]] + items[1..];
    TotalConcat([items[0]], items[1..]);
    TotalOne(items[0]);
  }

  lemma {:induction false} WithoutAbsent(items: seq<Item>, path: Path)
    requires forall i :: 0 <= i < |items| ==> items[i].path != path
    ensures Without(items, path) == items
  {
    if items != [] {
      WithoutAbsent(items[..|items| - 1], path);
    }
  }

  lemma {:induction false} WithoutConcat(a: seq<Item>, b: seq<Item>, path: Path)
    ensures Without(a + b, path) == Without(a, path) + Without(b, path)
  {
    if b == [] {
      assert a + b == a;
    } else {
      assert (a + b)[..|a + b| - 1] == a + b[..|b| - 1];
      WithoutConcat(a, b[..|b| - 1], path);
    }
  }

  lemma WithoutOne(path: Path, data: Object)
    ensures Without([Item(path, data)], path) == []
  {
    assert [Item(path, data)][..0] == [];
  }

  /** Removing the entry at `i` of a list without duplicates. */
  lemma WithoutAt(items: seq<Item>, i: nat)
    requires Unique(items) && i < |items|
    ensures Without(items, items[i].path) == items[..i] + items[i + 1..]
    ensures Total(items[..i] + items[i + 1..]) == Total(items) - |items[i].data|
  {
    hide Without, Total;
    var path := items[i].path;
    assert items == items[..i] + [items[i]] + items[i + 1..];
    WithoutConcat(items[..i] + [items[i]], items[i + 1..], path);
    WithoutConcat(items[..i], [items[i]], path);
    WithoutOne(path, items[i].data);
    WithoutAbsent(items[..i], path);
    WithoutAbsent(items[i + 1..], path);
    TotalConcat(items[..i] + [items[i]], items[i + 1..]);
    TotalConcat(items[..i], [items[i]]);
    TotalConcat(items[..i], items[i + 1..]);
    TotalOne(items[i]);
  }

  /** The entry for `path`, if there is one. */
  lemma IndexOf(items: seq<Item>, path: Path) returns (i: int)
    requires Unique(items)
    ensures Find(items, path).Some? ==> 0 <= i < |items| && items[i] == Item(path, Find(items, path).value)
    ensures Find(items, path).None? ==> Without(items, path) == items
  {
    hide Find, Without;
    if Find(items, path).Some? {
      i :| 0 <= i < |items| && items[i] == Item(path, Find(items, path).value);
    } else {
      i := -1;
      WithoutAbsent(items, path);
    }
  }

  /** Touching reorders the entries and nothing else. */
  lemma TouchKeeps(items: seq<Item>, path: Path)
    requires Unique(items)
    ensures Unique(Touch(items, path)) && |Touch(items, path)| == |items| && Total(Touch(items, path)) == Total(items)
    ensures forall i :: i in Touch(items, path) <==> i in items
    ensures Find(items, path).Some? ==>
        Touch(items, path) == Without(items, path) + [Item(path, Find(items, path).value)]
  {
    hide Find, Without, Total;
    var n := IndexOf(items, path);
    if Find(items, path).Some? {
      WithoutAt(items, n);
      Removed(items, n);
      TotalConcat(items[..n] + items[n + 1..], [items[n]]);
      TotalOne(items[n]);
    }
  }

  /** The entry touched moves to the young end, past all others. */
  lemma TouchMoves(items: seq<Item>, path: Path) returns (n: int)
    requires Unique(items)
    ensures Find(items, path).Some? ==>
              && 0 <= n < |items| && items[n] == Item(path, Find(items, path).value)
              && Touch(items, path) == items[..n] + items[n + 1..] + [items[n]]
  {
    hide Find, Without, Total;
    n := IndexOf(items, path);
    if Find(items, path).Some? {
      WithoutAt(items, n);
    }
  }

  lemma Removed(items: seq<Item>, n: nat)
    requires Unique(items) && n < |items|
    ensures var rest := items[..n] + items[n + 1..];
            Unique(rest) && Unique(rest + [items[n]]) && forall i :: i in rest + [items[n]] <==> i in items
  {
    var rest := items[..n] + items[n + 1..];
    forall i | i in items
      ensures i in rest + [items[n]]
    {
      var k :| 0 <= k < |items| && items[k] == i;
      assert k < n ==> rest[k] == i;
      assert k > n ==> rest[k - 1] == i;
      assert k == n ==> (rest + [items[n]])[|rest|] == i;
    }
  }

  // ---- the eviction loop ----

  /** How many of the oldest entries the loop evicts. */
  function Evicted(s: State, need: nat, maxSize: int): (n: nat)
    ensures n <= |s.items|
    decreases |s.items|
  {
    if s.currentSize + need > maxSize && s.items != [] then
      1 + Evicted(State(s.items[1..], s.currentSize - |s.items[0].data|), need, maxSize)
    else 0
  }

  /**
   The loop drops an oldest-first prefix, lowers currentSize by exactly its bytes, and stops as
   soon as there is room or nothing is left.
   */
  lemma {:induction false} MakeRoomDrops(s: State, need: nat, maxSize: int)
    ensures var n := Evicted(s, need, maxSize);
            && MakeRoom(s, need, maxSize) == State(s.items[n..], s.currentSize - Total(s.items[..n]))
            && (MakeRoom(s, need, maxSize).currentSize + need <= maxSize || n == |s.items|)
            && (forall m :: 0 <= m < n ==> s.currentSize - Total(s.items[..m]) + need > maxSize)
    decreases |s.items|
  {
    if s.currentSize + need > maxSize && s.items != [] {
      hide Total;
      var s1 := State(s.items[1..], s.currentSize - |s.items[0].data|);
      MakeRoomDrops(s1, need, maxSize);
      var n := Evicted(s1, need, maxSize);
      PrefixTotal(s.items, n + 1);
      forall m | 0 <= m < n + 1
        ensures s.currentSize - Total(s.items[..m]) + need > maxSize
      {
        if m > 0 {
          PrefixTotal(s.items, m);
        }
      }
    }
  }

  lemma PrefixTotal(items: seq<Item>, m: nat)
    requires 0 < m <= |items|
    ensures Total(items[..m]) == |items[0].data| + Total(items[1..][..m - 1])
  {
    TotalHead(items[..m]);
    assert items[..m][1..] == items[1..][..m - 1];
  }

  // ---- the byte bound ----

  /** What holds over every sequence of fetches: the books may overstate, never understate. */
  predicate Bounded(s: State, maxSize: int) {
    && Unique(s.items)
    && |s.items| <= CAPACITY
    && Total(s.items) <= s.currentSize
    && (s.items != [] ==> Total(s.items) <= maxSize)
  }

  lemma TailFacts(items: seq<Item>, n: nat)
    requires n <= |items| && Unique(items)
    ensures Unique(items[n..]) && Total(items[n..]) == Total(items) - Total(items[..n])
    ensures forall i :: i in items[n..] ==> i in items
  {
    assert items == items[..n] + items[n..];
    TotalConcat(items[..n], items[n..]);
  }

  /** Putting an entry whose path is not there. */
  lemma PutFresh(items: seq<Item>, path: Path, data: Object)
    requires Unique(items) && |items| <= CAPACITY && forall i :: i in items ==> i.path != path
    ensures var r := PutItem(items, path, data);
            && Unique(r) && r != [] && |r| <= CAPACITY
            && Total(r) == Total(items) + |data| - (if |items| == CAPACITY then |items[0].data| else 0)
            && (|items| < CAPACITY ==> r == items + [Item(path, data)])
            && (forall i :: i in r ==> i in items || i == Item(path, data))
  {
    hide Without, Total;
    WithoutAbsent(items, path);
    var added := items + [Item(path, data)];
    TotalConcat(items, [Item(path, data)]);
    TotalOne(Item(path, data));
    if |items| == CAPACITY {
      TotalHead(added);
      assert added[0] == items[0];
    }
  }

  lemma FetchBounded(s: State, path: Path, fetched: Option<Object>, maxSize: int)
    requires Bounded(s, maxSize)
    ensures Bounded(Fetch(s, path, fetched, maxSize), maxSize)
  {
    hide Without, Total, Find, MakeRoom, Evicted, PutItem;
    if Find(s.items, path).Some? {
      TouchKeeps(s.items, path);
    } else if fetched.Some? && |fetched.value| <= maxSize {
      var need := |fetched.value|;
      var n := Evicted(s, need, maxSize);
      assert Touch(s.items, path) == s.items;
      MakeRoomDrops(s, need, maxSize);
      TailFacts(s.items, n);
      PutFresh(s.items[n..], path, fetched.value);
      if n == |s.items| {
        NothingTotal();
      }
    }
  }

  lemma NothingTotal()
    ensures Total([]) == 0
  {
  }

  /** One call of getObjectData and what its download would yield. */
  datatype Call = Call(path: Path, fetched: Option<Object>)

  function Serve(calls: seq<Call>, maxSize: int): State {
    if calls == [] then State([], 0) else
    var last := calls[|calls| - 1];
    Fetch(Serve(calls[..|calls| - 1], maxSize), last.path, last.fetched, maxSize)
  }

  /**
   Over every sequence of getObjectData calls the cached bytes stay within maxSize, although the
   library may evict beyond 1024 entries without currentSize being told.
   */
  lemma {:induction false} ByteBound(calls: seq<Call>, maxSize: nat)
    ensures Bounded(Serve(calls, maxSize), maxSize)
    ensures Total(Serve(calls, maxSize).items) <= maxSize
  {
    hide Fetch;
    if calls != [] {
      ByteBound(calls[..|calls| - 1], maxSize);
      FetchBounded(Serve(calls[..|calls| - 1], maxSize), calls[|calls| - 1].path, calls[|calls| - 1].fetched, maxSize);
    }
  }

  // ---- least recently used ----

  /** The position of the last call for a path, or -1. */
  function LastCall(calls: seq<Call>, path: Path): (n: int)
    ensures -1 <= n < |calls|
    ensures n >= 0 ==> calls[n].path == path
    ensures forall i :: n < i < |calls| ==> calls[i].path != path
  {
    if calls == [] then -1
    else if calls[|calls| - 1].path == path then |calls| - 1
    else LastCall(calls[..|calls| - 1], path)
  }

  predicate InOrderOfUse(calls: seq<Call>, items: seq<Item>) {
    forall i, j :: 0 <= i < j < |items| ==> LastCall(calls, items[i].path) < LastCall(calls, items[j].path)
  }

  lemma LastCallStep(calls: seq<Call>, call: Call, path: Path)
    ensures LastCall(calls + [call], path) == if path == call.path then |calls| else LastCall(calls, path)
  {
    assert (calls + [call])[..|calls|] == calls;
  }

  /** Entries that stay in order, and behind them the one just asked for. */
  lemma YoungestLast(calls: seq<Call>, call: Call, items: seq<Item>, item: Item)
    requires InOrderOfUse(calls, items) && (forall i :: i in items ==> i.path != call.path) && item.path == call.path
    ensures InOrderOfUse(calls + [call], items + [item])
    ensures InOrderOfUse(calls + [call], items)
  {
    forall i {:trigger items[i]} | 0 <= i < |items|
      ensures LastCall(calls + [call], items[i].path) == LastCall(calls, items[i].path) < |calls|
    {
      assert items[i] in items;
      LastCallStep(calls, call, items[i].path);
    }
    LastCallStep(calls, call, item.path);
    hide LastCall;
  }

  /** A part of a list in order, with some stretch left out, is in order. */
  lemma PartInOrder(calls: seq<Call>, items: seq<Item>, n: nat, m: nat)
    requires InOrderOfUse(calls, items) && n <= m <= |items|
    ensures InOrderOfUse(calls, items[..n] + items[m..])
  {
    hide LastCall;
  }

  lemma {:induction false} FetchInOrder(calls: seq<Call>, call: Call, s: State, maxSize: int)
    requires InOrderOfUse(calls, s.items) && Unique(s.items) && |s.items| <= CAPACITY
    ensures InOrderOfUse(calls + [call], Fetch(s, call.path, call.fetched, maxSize).items)
  {
    hide InOrderOfUse, MakeRoom, Evicted, PutItem, Touch, Find, Total;
    if Find(s.items, call.path).Some? {
      var n := TouchMoves(s.items, call.path);
      PartInOrder(calls, s.items, n, n + 1);
      Others(s.items, n);
      YoungestLast(calls, call, s.items[..n] + s.items[n + 1..], s.items[n]);
    } else {
      var need := if call.fetched.Some? then |call.fetched.value| else 0;
      MakeRoomDrops(s, need, maxSize);
      var n := Evicted(s, need, maxSize);
      PartInOrder(calls, s.items, 0, n);
      assert s.items[..0] + s.items[n..] == s.items[n..];
      Miss(calls, call, s, n, maxSize);
    }
  }

  lemma Others(items: seq<Item>, n: nat)
    requires Unique(items) && n < |items|
    ensures forall i :: i in items[..n] + items[n + 1..] ==> i.path != items[n].path
  {
  }

  lemma PutInOrder(calls: seq<Call>, call: Call, items: seq<Item>, data: Object)
    requires InOrderOfUse(calls, items) && |items| <= CAPACITY && forall i :: i in items ==> i.path != call.path
    ensures InOrderOfUse(calls + [call], PutItem(items, call.path, data))
  {
    hide InOrderOfUse, PutItem;
    PutAdds(items, call.path, data);
    if |items| == CAPACITY {
      PartInOrder(calls, items, 0, 1);
      assert items[..0] + items[1..] == items[1..];
      YoungestLast(calls, call, items[1..], Item(call.path, data));
    } else {
      YoungestLast(calls, call, items, Item(call.path, data));
    }
  }

  lemma Miss(calls: seq<Call>, call: Call, s: State, n: nat, maxSize: int)
    requires Find(s.items, call.path).None? && n <= |s.items| <= CAPACITY
    requires InOrderOfUse(calls, s.items) && InOrderOfUse(calls, s.items[n..])
    requires call.fetched.Some? ==> MakeRoom(s, |call.fetched.value|, maxSize).items == s.items[n..]
    ensures InOrderOfUse(calls + [call], Fetch(s, call.path, call.fetched, maxSize).items)
  {
    assert forall i :: i in s.items ==> i.path != call.path;
    hide InOrderOfUse, MakeRoom, PutItem, Find;
    if call.fetched.Some? && |call.fetched.value| <= maxSize {
      assert forall i :: i in s.items[n..] ==> i in s.items;
      PutInOrder(calls, call, s.items[n..], call.fetched.value);
    } else {
      YoungestLast(calls, call, s.items, Item(call.path, []));
    }
  }

  /** Over every sequence of getObjectData calls the entries stand in the order of their last calls, oldest first. */
  lemma {:induction false} LeastRecentlyUsedFirst(calls: seq<Call>, maxSize: nat)
    ensures InOrderOfUse(calls, Serve(calls, maxSize).items)
  {
    hide Fetch, InOrderOfUse;
    if calls == [] {
      NothingUsed(calls);
    } else {
      var init := calls[..|calls| - 1];
      LeastRecentlyUsedFirst(init, maxSize);
      ByteBound(init, maxSize);
      FetchInOrder(init, calls[|calls| - 1], Serve(init, maxSize), maxSize);
      assert init + [calls[|calls| - 1]] == calls;
    }
  }

  lemma NothingUsed(calls: seq<Call>)
    ensures InOrderOfUse(calls, [])
  {
  }

  // ---- how far the books are off ----

  /** The bytes the library drops in one fetch without currentSize being told. */
  function Dropped(s: State, path: Path, fetched: Option<Object>, maxSize: int): nat {
    if Find(s.items, path).Some? || fetched.None? || |fetched.value| > maxSize then 0 else
    var roomy := MakeRoom(s, |fetched.value|, maxSize);
    if |roomy.items| == CAPACITY then |roomy.items[0].data| else 0
  }

  function Lost(calls: seq<Call>, maxSize: int): nat {
    if calls == [] then 0 else
    var init, last := calls[..|calls| - 1], calls[|calls| - 1];
    Lost(init, maxSize) + Dropped(Serve(init, maxSize), last.path, last.fetched, maxSize)
  }

  lemma FetchDrift(s: State, path: Path, fetched: Option<Object>, maxSize: int)
    requires Bounded(s, maxSize)
    ensures var after := Fetch(s, path, fetched, maxSize);
            after.currentSize - Total(after.items) ==
                s.currentSize - Total(s.items) + Dropped(s, path, fetched, maxSize)
  {
    hide Without, Total, Find, MakeRoom, Evicted, PutItem;
    if Find(s.items, path).Some? {
      TouchKeeps(s.items, path);
    } else if fetched.Some? && |fetched.value| <= maxSize {
      var need := |fetched.value|;
      var n := Evicted(s, need, maxSize);
      assert Touch(s.items, path) == s.items;
      MakeRoomDrops(s, need, maxSize);
      TailFacts(s.items, n);
      PutFresh(s.items[n..], path, fetched.value);
    }
  }

  /**
   Over every sequence of getObjectData calls currentSize overstates the cached bytes by exactly
   what the library has dropped; the books are exact if and only if it has dropped no byte.
   */
  lemma {:induction false} BooksAreOffByLost(calls: seq<Call>, maxSize: nat)
    ensures var s := Serve(calls, maxSize);
            && s.currentSize == Total(s.items) + Lost(calls, maxSize)
            && (s.currentSize == Total(s.items) <==> Lost(calls, maxSize) == 0)
  {
    hide Fetch, Dropped, Bounded;
    if calls == [] {
      NothingTotal();
    } else {
      var init, last := calls[..|calls| - 1], calls[|calls| - 1];
      BooksAreOffByLost(init, maxSize);
      ByteBound(init, maxSize);
      FetchDrift(Serve(init, maxSize), last.path, last.fetched, maxSize);
    }
  }

  lemma FetchCapacity(s: State, path: Path, fetched: Option<Object>, maxSize: nat, lost: nat)
    requires Bounded(s, maxSize) && s.currentSize == Total(s.items) + lost
    requires lost <= maxSize && (Total(s.items) + lost <= maxSize || |s.items| == 1)
    ensures var after, lost' := Fetch(s, path, fetched, maxSize), lost + Dropped(s, path, fetched, maxSize);
            lost' <= maxSize && (Total(after.items) + lost' <= maxSize || |after.items| == 1)
  {
    hide Without, Total, Find, MakeRoom, Evicted, PutItem;
    if Find(s.items, path).Some? {
      TouchKeeps(s.items, path);
    } else if fetched.Some? && |fetched.value| <= maxSize {
      var need := |fetched.value|;
      var n := Evicted(s, need, maxSize);
      assert Touch(s.items, path) == s.items;
      MakeRoomDrops(s, need, maxSize);
      TailFacts(s.items, n);
      PutFresh(s.items[n..], path, fetched.value);
      if n < |s.items| {
        TotalHead(s.items[n..]);
      }
    }
  }

  /**
   What the library has dropped is capacity gone, and never more than all of it: as soon as two
   entries are cached, their bytes and the lost ones together fit into maxSize.
   */
  lemma {:induction false} LostIsCapacityGone(calls: seq<Call>, maxSize: nat)
    ensures Lost(calls, maxSize) <= maxSize
    ensures var s := Serve(calls, maxSize);
            Total(s.items) + Lost(calls, maxSize) <= maxSize || |s.items| == 1
  {
    hide Fetch, Dropped, Bounded;
    if calls == [] {
      NothingTotal();
    } else {
      var init, last := calls[..|calls| - 1], calls[|calls| - 1];
      LostIsCapacityGone(init, maxSize);
      BooksAreOffByLost(init, maxSize);
      ByteBound(init, maxSize);
      FetchCapacity(Serve(init, maxSize), last.path, last.fetched, maxSize, Lost(init, maxSize));
    }
  }

  /** A miss on an object that fits into the cache but not beside what has been lost empties the cache first. */
  lemma {:induction false} LostCacheHoldsOne(calls: seq<Call>, call: Call, maxSize: nat)
    requires Find(Serve(calls, maxSize).items, call.path).None? && call.fetched.Some?
    requires Lost(calls, maxSize) + |call.fetched.value| > maxSize >= |call.fetched.value|
    ensures Serve(calls + [call], maxSize).items == [Item(call.path, call.fetched.value)]
  {
    hide Without, Total, Find, MakeRoom, Evicted, PutItem, Bounded, Lost;
    var s, need := Serve(calls, maxSize), |call.fetched.value|;
    assert (calls + [call])[..|calls|] == calls;
    BooksAreOffByLost(calls, maxSize);
    ByteBound(calls, maxSize);
    BoundedUnique(s, maxSize);
    MakeRoomDrops(s, need, maxSize);
    var n := Evicted(s, need, maxSize);
    TailFacts(s.items, n);
    assert n == |s.items| && s.items[n..] == [];
    assert Touch(s.items, call.path) == s.items;
    var none: seq<Item> := [];
    PutAdds(none, call.path, call.fetched.value);
    assert MakeRoom(s, need, maxSize).items == none;
    assert Serve(calls + [call], maxSize) == Add(s, call.path, call.fetched.value, maxSize);
    assert none + [Item(call.path, call.fetched.value)] == [Item(call.path, call.fetched.value)];
  }

  lemma BoundedUnique(s: State, maxSize: int)
    requires Bounded(s, maxSize)
    ensures Unique(s.items)
  {
  }

  lemma {:induction false} LostOnlyGrows(calls: seq<Call>, more: seq<Call>, maxSize: nat)
    ensures Lost(calls, maxSize) <= Lost(calls + more, maxSize)
  {
    hide Dropped, Serve;
    if more == [] {
      assert calls + more == calls;
    } else {
      assert (calls + more)[..|calls + more| - 1] == calls + more[..|more| - 1];
      LostOnlyGrows(calls, more[..|more| - 1], maxSize);
    }
  }

  /** As long as only such objects are fetched, it never holds two entries again. */
  lemma {:induction false} LostForGood(calls: seq<Call>, more: seq<Call>, maxSize: nat)
    requires |Serve(calls, maxSize).items| <= 1
    requires forall c :: c in more && c.fetched.Some? ==> Lost(calls, maxSize) + |c.fetched.value| > maxSize
    ensures |Serve(calls + more, maxSize).items| <= 1
  {
    hide Fetch, Find, Lost, Touch;
    if more == [] {
      assert calls + more == calls;
    } else {
      var init, last := calls + more[..|more| - 1], more[|more| - 1];
      assert calls + more == init + [last];
      assert (calls + more)[..|calls + more| - 1] == init;
      LostForGood(calls, more[..|more| - 1], maxSize);
      LostOnlyGrows(calls, more[..|more| - 1], maxSize);
      ByteBound(init, maxSize);
      if Find(Serve(init, maxSize).items, last.path).None? && last.fetched.Some? && |last.fetched.value| <= maxSize {
        LostCacheHoldsOne(init, last, maxSize);
      } else {
        AddsNothing(Serve(init, maxSize), last, maxSize);
      }
    }
  }

  /** A hit, a failed download or an object too large leaves as many entries as there were. */
  lemma AddsNothing(s: State, call: Call, maxSize: nat)
    requires Bounded(s, maxSize)
    requires Find(s.items, call.path).Some? || call.fetched.None? || |call.fetched.value| > maxSize
    ensures |Fetch(s, call.path, call.fetched, maxSize).items| == |s.items|
  {
    hide Find, Total, Without;
    TouchKeeps(s.items, call.path);
  }

  // ---- it happens ----

  function Name(i: nat): Path {
    seq(i, _ => 'p')
  }

  /** Downloads of `n` different one-byte objects. */
  function Downloads(n: nat): (calls: seq<Call>)
    ensures |calls| == n && forall i :: 0 <= i < n ==> calls[i] == Call(Name(i), Some([0]))
  {
    seq(n, i requires 0 <= i < n => Call(Name(i), Some([0])))
  }

  /** The last 1024 of `n` different one-byte objects. */
  function Recent(n: nat): (r: seq<Item>)
    ensures |r| == if n < CAPACITY then n else CAPACITY
    ensures forall i :: 0 <= i < |r| ==> r[i] == Item(Name(n - |r| + i), [0])
  {
    var k := if n < CAPACITY then n else CAPACITY;
    seq(k, i requires 0 <= i < k => Item(Name(n - k + i), [0]))
  }

  /** Beyond the cap every download drops the oldest of the last 1024. */
  lemma {:induction false} RecentCached(n: nat, maxSize: nat)
    requires n <= maxSize && CAPACITY < maxSize
    ensures Serve(Downloads(n), maxSize) == State(Recent(n), n)
    ensures Lost(Downloads(n), maxSize) == if n < CAPACITY then 0 else n - CAPACITY
  {
    hide Fetch, Dropped, Recent;
    if n == 0 {
      assert Recent(0) == [];
    } else {
      assert Downloads(n)[..n - 1] == Downloads(n - 1);
      RecentCached(n - 1, maxSize);
      OneMoreCached(n - 1, maxSize);
    }
  }

  lemma OneMoreCached(n: nat, maxSize: nat)
    requires n < maxSize && CAPACITY < maxSize
    ensures Fetch(State(Recent(n), n), Name(n), Some([0]), maxSize) == State(Recent(n + 1), n + 1)
    ensures Dropped(State(Recent(n), n), Name(n), Some([0]), maxSize) == if n < CAPACITY then 0 else 1
  {
    hide Find, Recent, PutItem, Name;
    NotRecent(n);
    PutAdds(Recent(n), Name(n), [0]);
    RecentMoves(n);
  }

  lemma NotRecent(n: nat)
    ensures Find(Recent(n), Name(n)).None? && forall i :: i in Recent(n) ==> i.path != Name(n)
  {
    hide Recent;
    forall i | i in Recent(n)
      ensures i.path != Name(n)
    {
      var k :| 0 <= k < |Recent(n)| && Recent(n)[k] == i;
      assert |Name(n - |Recent(n)| + k)| == n - |Recent(n)| + k && |Name(n)| == n;
    }
  }

  lemma RecentMoves(n: nat)
    ensures Recent(n + 1) == (if |Recent(n)| == CAPACITY then Recent(n)[1..] else Recent(n)) + [Item(Name(n), [0])]
  {
    hide Recent;
  }

  /** One-byte objects in a cache with room for more than 1024 of them: the library drops one byte with each beyond. */
  lemma {:induction false} LibraryDrops(n: nat, maxSize: nat)
    requires 1024 <= n <= maxSize && 1024 < maxSize
    ensures Lost(Downloads(n), maxSize) == n - 1024
  {
    hide Serve, Lost;
    RecentCached(n, maxSize);
  }

  /**
   After as many of them as the cache has bytes, every miss on an object of more than 1024 bytes
   that fits empties it.
   */
  lemma {:induction false} LargeMissesEmpty(call: Call, maxSize: nat)
    requires 1024 < maxSize
    requires Find(Serve(Downloads(maxSize), maxSize).items, call.path).None? && call.fetched.Some?
    requires 1024 < |call.fetched.value| <= maxSize
    ensures |Serve(Downloads(maxSize), maxSize).items| == 1024
    ensures Serve(Downloads(maxSize) + [call], maxSize).items == [Item(call.path, call.fetched.value)]
  {
    hide Serve, Lost, Find;
    RecentCached(maxSize, maxSize);
    LostCacheHoldsOne(Downloads(maxSize), call, maxSize);
  }

  // ---- exact books ----

  /** The stack add starts evicting from: the entry being replaced, if any, is the youngest. */
  lemma {:induction false} BeforeEviction(items: seq<Item>, path: Path) returns (others: seq<Item>)
    requires Unique(items)
    ensures others == Without(items, path) && Unique(others) && forall i :: i in others ==> i.path != path
    ensures Find(items, path).None? ==> Touch(items, path) == others == items
    ensures Find(items, path).Some? ==>
              && Touch(items, path) == others + [Item(path, Find(items, path).value)]
              && Total(others) == Total(items) - |Find(items, path).value|
              && |others| == |items| - 1
  {
    hide Find, Without, Total;
    others := Without(items, path);
    var n := IndexOf(items, path);
    if Find(items, path).Some? {
      WithoutAt(items, n);
      Removed(items, n);
      RemovedPaths(items, n);
    } else {
      assert forall i :: i in items ==> i.path != path;
    }
  }

  lemma RemovedPaths(items: seq<Item>, n: nat)
    requires Unique(items) && n < |items|
    ensures forall i :: i in items[..n] + items[n + 1..] ==> i.path != items[n].path
  {
  }

  /**
   Adding to a cache whose books overstate by `lost`, nothing if they are exact. With `n` the least
   number of oldest entries (the replaced one not counted) that must go for the new entry to fit
   by the books, or all of them: exactly those go, the replaced entry is never evicted on the
   way, and the books go off further by just the bytes of the entry the library drops, if 1024
   entries are still there. The one case left out is `ReplacedTwice`.
   */
  lemma AddIsExact(s: State, path: Path, data: Object, maxSize: nat, lost: nat) returns (n: nat)
    requires Unique(s.items) && |s.items| <= CAPACITY && s.currentSize == Total(s.items) + lost && |data| <= maxSize
    requires Find(s.items, path).None? || lost + |data| <= maxSize
    ensures var others, after := Without(s.items, path), Add(s, path, data, maxSize);
            && n <= |others|
            && (Total(others[n..]) + lost + |data| <= maxSize || n == |others|)
            && (forall m :: 0 <= m < n ==> Total(others[m..]) + lost + |data| > maxSize)
            && (|others[n..]| < CAPACITY ==>
                 && after.items == others[n..] + [Item(path, data)]
                 && after.currentSize == Total(after.items) + lost)
            && (|others[n..]| == CAPACITY ==>
                 && after.items == others[n + 1..] + [Item(path, data)]
                 && after.currentSize == Total(after.items) + lost + |others[n].data|)
    ensures Find(s.items, path).Some? || |s.items| < CAPACITY ==> |Without(s.items, path)[n..]| < CAPACITY
  {
    hide Find, Without, Total, MakeRoom, Evicted;
    var others := BeforeEviction(s.items, path);
    var need, touched := |data|, Touch(s.items, path);
    var size := Total(others) + lost;
    var start := State(touched, size);
    n := Evicted(start, need, maxSize);
    MakeRoomDrops(start, need, maxSize);
    if Find(s.items, path).Some? {
      var replaced := Item(path, Find(s.items, path).value);
      assert touched == others + [replaced];
      assert touched[..|others|] == others;
      assert !(size - Total(touched[..|others|]) + need > maxSize);
      assert touched[n..] == others[n..] + [replaced];
      PutReplaces(others[n..], path, replaced.data, data);
    } else {
      if n == |others| {
        assert touched[..n] == others;
      }
      PutAdds(others[n..], path, data);
    }
    assert touched[..n] == others[..n];
    TailFacts(others, n);
    forall m | 0 <= m < n
      ensures Total(others[m..]) + lost + need > maxSize
    {
      assert touched[..m] == others[..m];
      TailFacts(others, m);
    }
    TotalConcat(others[n..], [Item(path, data)]);
    TotalOne(Item(path, data));
    if |others[n..]| == CAPACITY {
      TotalHead(others[n..]);
      assert others[n..][1..] == others[n + 1..];
      TotalConcat(others[n + 1..], [Item(path, data)]);
    }
  }

  /**
   Replacing an entry when the books overstate so much that even an empty cache looks too full:
   the replaced entry is subtracted as the old value and again as an evicted one. getObjectData
   only adds what it has not found, so it never comes to this.
   */
  lemma ReplacedTwice(s: State, path: Path, data: Object, maxSize: nat, lost: nat)
    requires Unique(s.items) && s.currentSize == Total(s.items) + lost && |data| <= maxSize
    requires Find(s.items, path).Some? && lost + |data| > maxSize
    ensures Add(s, path, data, maxSize) == State([Item(path, data)], lost - |Find(s.items, path).value| + |data|)
  {
    hide Find, Without, Total, MakeRoom, Evicted;
    var others := BeforeEviction(s.items, path);
    var replaced := Item(path, Find(s.items, path).value);
    var touched := others + [replaced];
    var start := State(touched, Total(others) + lost);
    var n := Evicted(start, |data|, maxSize);
    MakeRoomDrops(start, |data|, maxSize);
    TotalConcat(others, [replaced]);
    TotalOne(replaced);
    if n <= |others| {
      assert touched[..n] == others[..n];
      TailFacts(others, n);
    }
    assert touched[|touched|..] == [] && touched[..|touched|] == touched;
    PutAdds([], path, data);
  }

  lemma PutReplaces(others: seq<Item>, path: Path, old': Object, data: Object)
    requires |others| < CAPACITY && forall i :: i in others ==> i.path != path
    ensures PutItem(others + [Item(path, old')], path, data) == others + [Item(path, data)]
  {
    hide Without;
    WithoutConcat(others, [Item(path, old')], path);
    WithoutOne(path, old');
    WithoutAbsent(others, path);
  }

  lemma PutAdds(others: seq<Item>, path: Path, data: Object)
    requires |others| <= CAPACITY && forall i :: i in others ==> i.path != path
    ensures PutItem(others, path, data) == (if |others| == CAPACITY then others[1..] else others) + [Item(path, data)]
  {
    hide Without;
    WithoutAbsent(others, path);
  }

  // ---- cached bytes are the store's bytes ----

  predicate Faithful(items: seq<Item>, objects: map<Path, Object>) {
    forall i :: i in items ==> i.path in objects && objects[i.path] == i.data
  }

  /** A fetch keeps it so. */
  lemma FetchFaithful(s: State, path: Path, fetched: Option<Object>, objects: map<Path, Object>, maxSize: int)
    requires Bounded(s, maxSize) && Faithful(s.items, objects)
    requires fetched.Some? ==> path in objects && fetched.value == objects[path]
    ensures Faithful(Fetch(s, path, fetched, maxSize).items, objects)
  {
    hide Without, Total, Find, MakeRoom, Evicted, PutItem;
    if Find(s.items, path).Some? {
      TouchKeeps(s.items, path);
    } else if fetched.Some? && |fetched.value| <= maxSize {
      var n := Evicted(s, |fetched.value|, maxSize);
      MakeRoomDrops(s, |fetched.value|, maxSize);
      TailFacts(s.items, n);
      PutFresh(s.items[n..], path, fetched.value);
    }
  }

  /** Objects are written once, so what was cached before stays right. */
  lemma FaithfulLater(items: seq<Item>, objects: map<Path, Object>, later: map<Path, Object>)
    requires Faithful(items, objects) && Invariant.Extends(objects, later)
    ensures Faithful(items, later)
  {
  }

  /** A call of getObjectData: the store as it stands then, and whether a download would succeed. */
  datatype Moment = Moment(objects: map<Path, Object>, path: Path, downloads: bool)

  function Download(m: Moment): Option<Object> {
    if m.downloads && m.path in m.objects then Some(m.objects[m.path]) else None
  }

  function ServeFrom(moments: seq<Moment>, maxSize: int): State {
    if moments == [] then State([], 0) else
    var last := moments[|moments| - 1];
    Fetch(ServeFrom(moments[..|moments| - 1], maxSize), last.path, Download(last), maxSize)
  }

  /** What a call returns: the cached bytes or the downloaded ones. */
  function Returned(s: State, m: Moment): Option<Object> {
    OrElse(Find(s.items, m.path), Download(m))
  }

  /** The store only gains objects from one call to the next. */
  predicate Growing(moments: seq<Moment>) {
    forall i, j :: 0 <= i < j < |moments| ==> Invariant.Extends(moments[i].objects, moments[j].objects)
  }

  /**
   Over every sequence of calls, with objects appearing in the store in between and downloads
   failing at will: what is cached is what the store holds now, and what a call returns is too.
   */
  lemma {:induction false} AlwaysTheStoresBytes(moments: seq<Moment>, maxSize: nat)
    requires Growing(moments) && moments != []
    ensures var last := moments[|moments| - 1];
            && Bounded(ServeFrom(moments, maxSize), maxSize)
                && Faithful(ServeFrom(moments, maxSize).items, last.objects)
            && var r := Returned(ServeFrom(moments[..|moments| - 1], maxSize), last);
            && (r.Some? ==> last.path in last.objects && r.value == last.objects[last.path])
            && (last.downloads && last.path in last.objects ==> r.Some?)
  {
    hide Fetch, Bounded, Find;
    var before, last := moments[..|moments| - 1], moments[|moments| - 1];
    var s := ServeFrom(before, maxSize);
    if before == [] {
      NothingServed(maxSize, last.objects);
    } else {
      AlwaysTheStoresBytes(before, maxSize);
      FaithfulLater(s.items, before[|before| - 1].objects, last.objects);
    }
    FetchBounded(s, last.path, Download(last), maxSize);
    FetchFaithful(s, last.path, Download(last), last.objects, maxSize);
    FoundIsFaithful(s, last);
  }

  lemma NothingServed(maxSize: nat, objects: map<Path, Object>)
    ensures Bounded(State([], 0), maxSize) && Faithful([], objects)
  {
  }

  lemma FoundIsFaithful(s: State, m: Moment)
    requires Faithful(s.items, m.objects)
    ensures Find(s.items, m.path).Some? ==> m.path in m.objects && Find(s.items, m.path).value == m.objects[m.path]
  {
    if Find(s.items, m.path).Some? {
      assert Item(m.path, Find(s.items, m.path).value) in s.items;
    }
  }
}

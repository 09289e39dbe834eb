/**
 What objects mean: each is a layer of keys, a later layer shadows an earlier one, and a
 tombstone shadows too. Search, merge and replay are three readings of the same stack.
 */
module Layers {
  import opened Types
  import SSTable

  type Layer = map<Key, Entry>

  type Values = map<Key, Bytes>

  function Get<V>(m: map<Key, V>, k: Key): Option<V> {
    if k in m then Some(m[k]) else None
  }

  /** What a list of records says, a later record for a key replacing an earlier one. */
  function EntriesOf(rs: seq<Record>): Layer {
    if rs == [] then map[] else
    var last := rs[|rs| - 1];
    EntriesOf(rs[..|rs| - 1])[last.key := EntryOf(last)]
  }

  function Content(obj: Object): Layer {
    EntriesOf(SSTable.ScanAll(obj).records)
  }

  lemma {:induction false} EntriesOfKeys(rs: seq<Record>, k: Key)
    ensures k in EntriesOf(rs) <==> exists i :: 0 <= i < |rs| && rs[i].key == k
  {
    if rs != [] {
      EntriesOfKeys(rs[..|rs| - 1], k);
      if k == rs[|rs| - 1].key {
      } else if k in EntriesOf(rs) {
        var i :| 0 <= i < |rs| - 1 && rs[..|rs| - 1][i].key == k;
        assert rs[i].key == k;
      }
    }
  }

  lemma {:induction false} EntriesOfAt(rs: seq<Record>, i: nat)
    requires StrictlySorted(rs) && i < |rs|
    ensures rs[i].key in EntriesOf(rs) && EntriesOf(rs)[rs[i].key] == EntryOf(rs[i])
  {
    if i < |rs| - 1 {
      EntriesOfAt(rs[..|rs| - 1], i);
      LessTrichotomy(rs[i].key, rs[|rs| - 1].key);
    }
  }

  lemma {:induction false} EntriesOfStripped(rs: seq<Record>)
    ensures EntriesOf(SSTable.StripAll(rs)) == EntriesOf(rs)
  {
    if rs != [] {
      EntriesOfStripped(rs[..|rs| - 1]);
      assert SSTable.StripAll(rs)[..|rs| - 1] == SSTable.StripAll(rs[..|rs| - 1]);
    }
  }

  /** An object holds exactly what the records written into it say. */
  lemma {:induction false} ContentOfEncoded(rs: seq<Record>)
    requires |SSTable.Encode(rs)| <= MAX_INT
    ensures Content(SSTable.Encode(rs)) == EntriesOf(rs)
  {
    SSTable.RoundTrip(rs);
    EntriesOfStripped(rs);
  }

  // ---- the one sorted file for a layer ----

  /** The records a layer is written as: keys strictly increasing, tombstones without a value. */
  ghost predicate Canonical(rs: seq<Record>, layer: Layer) {
    && StrictlySorted(rs)
    && EntriesOf(rs) == layer
    && forall i :: 0 <= i < |rs| && rs[i].tombstone ==> rs[i].value == []
  }

  lemma CanonicalPrefix(rs: seq<Record>, layer: Layer)
    requires Canonical(rs, layer) && rs != []
    ensures Canonical(rs[..|rs| - 1], layer - {rs[|rs| - 1].key})
  {
    var init, k := rs[..|rs| - 1], rs[|rs| - 1].key;
    EntriesOfKeys(init, k);
    if k in EntriesOf(init) {
      var i :| 0 <= i < |init| && init[i].key == k;
      StrictlySortedDistinct(rs, i, |rs| - 1);
    }
    assert layer - {k} == EntriesOf(init);
  }

  /** No key of a strictly sorted file is above its last one. */
  lemma LastIsGreatest(rs: seq<Record>, k: Key)
    requires StrictlySorted(rs) && k in EntriesOf(rs)
    ensures rs != [] && !Less(rs[|rs| - 1].key, k)
  {
    EntriesOfKeys(rs, k);
    var i :| 0 <= i < |rs| && rs[i].key == k;
    LessTrichotomy(k, rs[|rs| - 1].key);
  }

  /** The file of a layer is determined by the layer: how it was sorted or collected cannot show. */
  lemma {:induction false} CanonicalUnique(a: seq<Record>, b: seq<Record>, layer: Layer)
    requires Canonical(a, layer) && Canonical(b, layer)
    ensures a == b
    decreases |a|
  {
    if a == [] {
      if b != [] {
        EntriesOfAt(b, 0);
      }
    } else {
      var x := a[|a| - 1];
      EntriesOfAt(a, |a| - 1);
      LastIsGreatest(b, x.key);
      var y := b[|b| - 1];
      EntriesOfAt(b, |b| - 1);
      LastIsGreatest(a, y.key);
      LessTrichotomy(x.key, y.key);
      CanonicalPrefix(a, layer);
      CanonicalPrefix(b, layer);
      CanonicalUnique(a[..|a| - 1], b[..|b| - 1], layer - {x.key});
      assert a == a[..|a| - 1] + [x] && b == b[..|b| - 1] + [y];
    }
  }

  /** The bytes are the file of the layer. */
  ghost predicate IsFileOf(obj: Object, layer: Layer) {
    exists rs :: Canonical(rs, layer) && obj == SSTable.Encode(rs)
  }

  lemma OneFilePerLayer(a: Object, b: Object, layer: Layer)
    requires IsFileOf(a, layer) && IsFileOf(b, layer)
    ensures a == b
  {
    hide Canonical;
    var x :| Canonical(x, layer) && a == SSTable.Encode(x);
    var y :| Canonical(y, layer) && b == SSTable.Encode(y);
    CanonicalUnique(x, y, layer);
  }

  // ---- searching a stack of layers ----

  /** The newest word on `k`, layers given oldest first. */
  function Newest(layers: seq<Layer>, k: Key): Option<Entry> {
    if layers == [] then None
    else if k in layers[|layers| - 1] then Some(layers[|layers| - 1][k])
    else Newest(layers[..|layers| - 1], k)
  }

  /** The same search over layers given newest first, as the index walks them. */
  function FirstHit(layers: seq<Layer>, k: Key): Option<Entry> {
    if layers == [] then None
    else if k in layers[0] then Some(layers[0][k])
    else FirstHit(layers[1..], k)
  }

  function Reverse<T>(s: seq<T>): (r: seq<T>)
    ensures |r| == |s| && forall i :: 0 <= i < |s| ==> r[i] == s[|s| - 1 - i]
  {
    seq(|s|, i requires 0 <= i < |s| => s[|s| - 1 - i])
  }

  lemma {:induction false} ReverseMultiset<T>(s: seq<T>)
    ensures multiset(Reverse(s)) == multiset(s)
  {
    if s == [] {
      assert Reverse(s) == [];
    } else {
      var init, last := s[..|s| - 1], s[|s| - 1];
      ReverseMultiset(init);
      assert Reverse(s) == [last] + Reverse(init);
      assert s == init + [last];
    }
  }

  lemma {:induction false} FirstHitOfReverse(layers: seq<Layer>, k: Key)
    ensures FirstHit(Reverse(layers), k) == Newest(layers, k)
  {
    if layers != [] {
      FirstHitOfReverse(layers[..|layers| - 1], k);
      assert Reverse(layers)[1..] == Reverse(layers[..|layers| - 1]);
    }
  }

  function OrElse<T>(a: Option<T>, b: Option<T>): Option<T> {
    if a.Some? then a else b
  }

  lemma {:induction false} NewestConcat(a: seq<Layer>, b: seq<Layer>, k: Key)
    ensures Newest(a + b, k) == OrElse(Newest(b, k), Newest(a, k))
  {
    if b == [] {
      assert a + b == a;
    } else {
      assert (a + b)[..|a + b| - 1] == a + b[..|b| - 1];
      NewestConcat(a, b[..|b| - 1], k);
    }
  }

  lemma {:induction false} FirstHitConcat(a: seq<Layer>, b: seq<Layer>, k: Key)
    ensures FirstHit(a + b, k) == OrElse(FirstHit(a, k), FirstHit(b, k))
  {
    if a == [] {
      assert a + b == b;
    } else {
      assert (a + b)[1..] == a[1..] + b;
      FirstHitConcat(a[1..], b, k);
    }
  }

  /** A found entry comes from some layer; a key no layer holds is not found. */
  lemma {:induction false} NewestSource(layers: seq<Layer>, k: Key) returns (i: int)
    ensures Newest(layers, k).None? <==> forall j :: 0 <= j < |layers| ==> k !in layers[j]
    ensures Newest(layers, k).Some? ==> 0 <= i < |layers| && k in layers[i] && Newest(layers, k) == Some(layers[i][k])
    ensures Newest(layers, k).Some? ==> forall j :: i < j < |layers| ==> k !in layers[j]
  {
    i := |layers| - 1;
    if layers != [] && k !in layers[i] {
      i := NewestSource(layers[..|layers| - 1], k);
    }
  }

  // ---- merging a stack into one layer ----

  /** Older layers overridden by newer ones, oldest first. */
  function Override(layers: seq<Layer>): Layer {
    if layers == [] then map[] else Override(layers[..|layers| - 1]) + layers[|layers| - 1]
  }

  lemma {:induction false} OverrideIsNewest(layers: seq<Layer>, k: Key)
    ensures Get(Override(layers), k) == Newest(layers, k)
  {
    if layers != [] {
      OverrideIsNewest(layers[..|layers| - 1], k);
    }
  }

  /** `m`, with the keys of `layer` it does not have yet. */
  function Fill(m: Layer, layer: Layer): Layer {
    layer + m
  }

  /** The compactor's fold: layers newest first, the first word on a key wins. */
  function FirstWins(layers: seq<Layer>): Layer {
    if layers == [] then map[] else Fill(FirstWins(layers[..|layers| - 1]), layers[|layers| - 1])
  }

  lemma {:induction false} FirstWinsIsFirstHit(layers: seq<Layer>, k: Key)
    ensures Get(FirstWins(layers), k) == FirstHit(layers, k)
  {
    if layers != [] {
      var init, last := layers[..|layers| - 1], layers[|layers| - 1];
      FirstWinsIsFirstHit(init, k);
      assert layers == init + [last];
      FirstHitConcat(init, [last], k);
    }
  }

  lemma SameLayer<V>(a: map<Key, V>, b: map<Key, V>)
    requires forall k :: Get(a, k) == Get(b, k)
    ensures a == b
  {
    forall k
      ensures k in a <==> k in b
      ensures k in a ==> a[k] == b[k]
    {
      assert Get(a, k) == Get(b, k);
    }
  }

  /** First-wins from the newest down is override from the oldest up. */
  lemma FirstWinsIsOverride(layers: seq<Layer>)
    ensures FirstWins(Reverse(layers)) == Override(layers)
  {
    forall k
      ensures Get(FirstWins(Reverse(layers)), k) == Get(Override(layers), k)
    {
      FirstWinsIsFirstHit(Reverse(layers), k);
      FirstHitOfReverse(layers, k);
      OverrideIsNewest(layers, k);
    }
    SameLayer(FirstWins(Reverse(layers)), Override(layers));
  }

  // ---- what a client expects ----

  /** A plain map after all writes of one layer. */
  function Write(m: Values, layer: Layer): Values {
    (m - layer.Keys) + map k | k in layer && layer[k].Put? :: layer[k].value
  }

  /** Last writer wins: every layer applied in order to a plain map. */
  function Replay(base: Values, layers: seq<Layer>): Values {
    if layers == [] then base else Write(Replay(base, layers[..|layers| - 1]), layers[|layers| - 1])
  }

  /** What a reader answers who found `e` and has `below` underneath. */
  function Resolve(e: Option<Entry>, below: Option<Bytes>): Option<Bytes> {
    match e
    case None => below
    case Some(Put(v)) => Some(v)
    case Some(Delete) => None
  }

  /** Searching newest first gives what replaying oldest first leaves behind. */
  lemma {:induction false} ReplayIsNewest(base: Values, layers: seq<Layer>, k: Key)
    ensures Get(Replay(base, layers), k) == Resolve(Newest(layers, k), Get(base, k))
  {
    if layers != [] {
      ReplayIsNewest(base, layers[..|layers| - 1], k);
    }
  }
}

/** Reading: which object says what about a key, and how BatchGet puts the answers together. */
module Index {
  import opened Types
  import opened Layers
  import opened Schema
  import Protocol

  /** What the index keeps: WALs and runs newest first, partitions by start key, and the objects behind them. */
  datatype Snapshot = Snapshot(wals: seq<Path>, runs: seq<Path>, partitions: seq<Partition>, objects: map<Path, Object>)

  function LayersOf(objects: map<Path, Object>, paths: seq<Path>): (l: seq<Layer>)
    ensures |l| == |paths| && forall i :: 0 <= i < |paths| ==> l[i] == Protocol.LayerAt(objects, paths[i])
  {
    seq(|paths|, i requires 0 <= i < |paths| => Protocol.LayerAt(objects, paths[i]))
  }

  // ---- partitions ----

  predicate Ordered(ps: seq<Partition>) {
    forall i, j :: 0 <= i < j < |ps| ==> Less(ps[i].start, ps[j].start)
  }

  /** The key falls into partition `i`. */
  predicate Holds(ps: seq<Partition>, i: int, k: Key) {
    && 0 <= i < |ps|
    && !Less(k, ps[i].start)
    && (i + 1 < |ps| ==> Less(k, ps[i + 1].start))
  }

  lemma HoldsOne(ps: seq<Partition>, i: int, j: int, k: Key)
    requires Ordered(ps) && Holds(ps, i, k) && Holds(ps, j, k)
    ensures i == j
  {
    if i < j {
      NotBelow(ps, i + 1, j, k);
    } else if j < i {
      NotBelow(ps, j + 1, i, k);
    }
  }

  /** A key not below a start is not below any earlier one. */
  lemma NotBelow(ps: seq<Partition>, i: nat, j: nat, k: Key)
    requires Ordered(ps) && i <= j < |ps| && !Less(k, ps[j].start)
    ensures !Less(k, ps[i].start)
  {
    if i < j && Less(k, ps[i].start) {
      LessTransitive(k, ps[i].start, ps[j].start);
    }
  }

  /** sort.Search: the number of partitions that start at or below the key. */
  method Search(ps: seq<Partition>, k: Key) returns (n: nat)
    requires Ordered(ps)
    ensures n <= |ps|
    ensures forall i :: 0 <= i < n ==> !Less(k, ps[i].start)
    ensures forall i :: n <= i < |ps| ==> Less(k, ps[i].start)
  {
    n := 0;
    var j := |ps|;
    while n < j
      invariant 0 <= n <= j <= |ps|
      invariant forall i :: 0 <= i < n ==> !Less(k, ps[i].start)
      invariant forall i :: j <= i < |ps| ==> Less(k, ps[i].start)
    {
      var h := (n + j) / 2;
      if !Less(k, ps[h].start) {
        forall i | 0 <= i < h + 1
          ensures !Less(k, ps[i].start)
        {
          NotBelow(ps, i, h, k);
        }
        n := h + 1;
      } else {
        forall i | h <= i < |ps|
          ensures Less(k, ps[i].start)
        {
          if !Less(k, ps[i].start) {
            NotBelow(ps, h, i, k);
          }
        }
        j := h;
      }
    }
  }

  /** What is left in the response after asking every run of a partition: the last value, tombstones ignored. */
  function LastValue(layers: seq<Layer>, k: Key): Option<Bytes> {
    if layers == [] then None else
    var last := layers[|layers| - 1];
    if k in last && last[k].Put? then Some(last[k].value) else LastValue(layers[..|layers| - 1], k)
  }

  /** Layer `i` has the value `v` for the key, and no later layer has any. */
  predicate LastPut(layers: seq<Layer>, k: Key, v: Bytes, i: nat) {
    && i < |layers| && Get(layers[i], k) == Some(Entry.Put(v))
    && forall j :: i < j < |layers| ==> k !in layers[j] || layers[j][k] == Delete
  }

  lemma {:induction false} LastValueMeans(layers: seq<Layer>, k: Key, v: Bytes)
    ensures LastValue(layers, k) == Some(v) <==> exists i :: LastPut(layers, k, v, i)
  {
    if layers != [] {
      var n, last := |layers| - 1, layers[|layers| - 1];
      LastValueMeans(layers[..n], k, v);
      if LastValue(layers, k) == Some(v) {
        assert LastPut(layers, k, v, n) || exists i :: LastPut(layers[..n], k, v, i);
        if i :| LastPut(layers[..n], k, v, i) {
          assert (k in last && last[k].Put?) || LastPut(layers, k, v, i);
        }
      }
      if i :| LastPut(layers, k, v, i) {
        assert i == n || LastPut(layers[..n], k, v, i);
      }
    }
  }

  /** The runs of the partition that holds `k`. */
  ghost function HoldingRuns(ps: seq<Partition>, k: Key): seq<Path> {
    if i :| Holds(ps, i, k) then ps[i].runs else []
  }

  /** What the partitions hold for `k`, as BatchGet reads them. */
  ghost function PartitionValue(s: Snapshot, k: Key): Option<Bytes> {
    LastValue(LayersOf(s.objects, HoldingRuns(s.partitions, k)), k)
  }

  lemma PartitionValueIs(s: Snapshot, i: int, k: Key)
    requires Ordered(s.partitions) && Holds(s.partitions, i, k)
    ensures PartitionValue(s, k) == LastValue(LayersOf(s.objects, s.partitions[i].runs), k)
  {
    forall j | Holds(s.partitions, j, k)
      ensures j == i
    {
      HoldsOne(s.partitions, i, j, k);
    }
  }

  // ---- the specification of a read ----

  /** The newest-first lookup of one key. */
  ghost function Expected(s: Snapshot, k: Key): Option<Bytes> {
    Resolve(FirstHit(LayersOf(s.objects, s.wals) + LayersOf(s.objects, s.runs), k), PartitionValue(s, k))
  }

  /** The requested keys with a value, each with it. */
  ghost function Visible(s: Snapshot, keys: set<Key>): map<Key, Bytes> {
    map k | k in keys && Expected(s, k).Some? :: Expected(s, k).value
  }

  /** Nothing in the first `n` runs or in the WALs says anything about `k`. */
  ghost predicate Open(s: Snapshot, n: nat, k: Key)
    requires n <= |s.runs|
  {
    FirstHit(LayersOf(s.objects, s.wals) + LayersOf(s.objects, s.runs[..n]), k).None?
  }

  /** The WALs and the first `n` runs have answered every key. */
  ghost predicate Answered(s: Snapshot, n: nat, keys: set<Key>)
    requires n <= |s.runs|
  {
    forall k :: k in keys ==> !Open(s, n, k)
  }

  /** Keys were left for the runs, but a run that is not the last answered the last of them. */
  ghost predicate RunsOut(s: Snapshot, keys: set<Key>) {
    && !Answered(s, 0, keys)
    && exists n :: 0 < n < |s.runs| && Answered(s, n, keys)
  }

  /** A key nobody answered sorts before every partition. */
  ghost predicate Homeless(s: Snapshot, keys: set<Key>) {
    exists k :: k in keys && Open(s, |s.runs|, k) && forall i :: 0 <= i < |s.partitions| ==>
        Less(k, s.partitions[i].start)
  }

  /** The seeded partition starting at the empty key leaves no key homeless. */
  lemma SeededPartitionHoldsAll(s: Snapshot, keys: set<Key>, i: nat)
    requires i < |s.partitions| && s.partitions[i].start == []
    ensures !Homeless(s, keys)
  {
    forall k | k in keys
      ensures !Less(k, s.partitions[i].start)
    {
    }
  }

  // ---- partition runs ----

  predicate KeyDisjoint(layers: seq<Layer>) {
    forall i, j :: 0 <= i < j < |layers| ==> layers[i].Keys !! layers[j].Keys
  }

  /** With each key in at most one run the last value is the newest-first answer. */
  lemma {:induction false} DisjointRunsAgree(layers: seq<Layer>, k: Key)
    requires KeyDisjoint(layers)
    ensures LastValue(layers, k) == Resolve(FirstHit(layers, k), None)
  {
    if layers != [] {
      var init, last := layers[..|layers| - 1], layers[|layers| - 1];
      DisjointRunsAgree(init, k);
      assert layers == init + [last];
      FirstHitConcat(init, [last], k);
      if FirstHit(init, k).Some? {
        HitIsIn(init, k);
      }
    }
  }

  lemma {:induction false} HitIsIn(layers: seq<Layer>, k: Key)
    ensures FirstHit(layers, k).Some? <==> exists i :: 0 <= i < |layers| && k in layers[i]
  {
    if layers != [] {
      HitIsIn(layers[1..], k);
      if i :| 0 <= i < |layers| && k in layers[i] {
        assert i > 0 ==> layers[1..][i - 1] == layers[i];
      }
      if i :| 0 <= i < |layers| - 1 && k in layers[1..][i] {
        assert layers[i + 1] == layers[1..][i];
      }
    }
  }

  function Fill(keys: set<Key>, e: Entry): Layer {
    map k | k in keys :: e
  }

  /** A newer run deletes every key it has, an older one still has a value for a shared key. */
  function Clash(keySets: seq<set<Key>>, i: nat): (l: seq<Layer>)
    ensures |l| == |keySets| && forall n :: 0 <= n < |keySets| ==> l[n].Keys == keySets[n]
  {
    seq(|keySets|, n requires 0 <= n < |keySets| => Fill(keySets[n], if n <= i then Delete else Entry.Put([])))
  }

  lemma {:induction false} LastValueIs(layers: seq<Layer>, k: Key, j: nat)
    requires j < |layers| && k in layers[j] && layers[j][k].Put?
    ensures LastValue(layers, k).Some?
  {
    if j < |layers| - 1 {
      LastValueIs(layers[..|layers| - 1], k, j);
    }
  }

  lemma {:induction false} FirstHitIs(layers: seq<Layer>, k: Key, i: nat)
    requires i < |layers| && k in layers[i]
    requires forall n :: 0 <= n <= i && k in layers[n] ==> layers[n][k] == Delete
    ensures FirstHit(layers, k) == Some(Delete)
  {
    if k !in layers[0] {
      assert layers[1..][i - 1] == layers[i];
      FirstHitIs(layers[1..], k, i - 1);
    }
  }

  /**
   BatchGet passes the same keys to every run of a partition and lets later answers overwrite
   earlier ones. For runs with these key sets that is newest-first lookup, whatever the runs say
   about their keys, if and only if no two of them share a key.
   */
  lemma PartitionRunsExactlyWhenDisjoint(keySets: seq<set<Key>>)
    ensures (forall i, j :: 0 <= i < j < |keySets| ==> keySets[i] !! keySets[j]) <==>
            forall layers: seq<Layer>, k ::
              |layers| == |keySets| && (forall i :: 0 <= i < |layers| ==> layers[i].Keys == keySets[i]) ==>
                LastValue(layers, k) == Resolve(FirstHit(layers, k), None)
  {
    if forall i, j :: 0 <= i < j < |keySets| ==> keySets[i] !! keySets[j] {
      forall layers: seq<Layer>, k | |layers| == |keySets| && forall i :: 0 <= i < |layers| ==>
          layers[i].Keys == keySets[i]
        ensures LastValue(layers, k) == Resolve(FirstHit(layers, k), None)
      {
        DisjointRunsAgree(layers, k);
      }
    } else {
      var i, j :| 0 <= i < j < |keySets| && !(keySets[i] !! keySets[j]);
      var k :| k in keySets[i] && k in keySets[j];
      var layers := Clash(keySets, i);
      FirstHitIs(layers, k, i);
      LastValueIs(layers, k, j);
      assert LastValue(layers, k) != Resolve(FirstHit(layers, k), None);
    }
  }

  /** No two runs of a partition share a key. */
  ghost predicate RunsDisjoint(s: Snapshot) {
    forall p :: p in s.partitions ==> KeyDisjoint(LayersOf(s.objects, p.runs))
  }

  /** One search, newest first: WALs, shared runs, then the runs of the partition that holds the key. */
  ghost function NewestFirst(s: Snapshot, k: Key): Option<Bytes> {
    Resolve(FirstHit(LayersOf(s.objects, s.wals) + LayersOf(s.objects, s.runs) +
        LayersOf(s.objects, HoldingRuns(s.partitions, k)), k), None)
  }

  /** With key-disjoint partition runs the specification of a read is that one search. */
  lemma ExpectedIsNewestFirst(s: Snapshot, k: Key)
    requires RunsDisjoint(s)
    ensures Expected(s, k) == NewestFirst(s, k)
  {
    hide FirstHit, LastValue, Protocol.LayerAt, KeyDisjoint;
    var above := LayersOf(s.objects, s.wals) + LayersOf(s.objects, s.runs);
    var runs := LayersOf(s.objects, HoldingRuns(s.partitions, k));
    HoldingDisjoint(s, k);
    DisjointRunsAgree(runs, k);
    FirstHitConcat(above, runs, k);
  }

  lemma HoldingDisjoint(s: Snapshot, k: Key)
    requires RunsDisjoint(s)
    ensures KeyDisjoint(LayersOf(s.objects, HoldingRuns(s.partitions, k)))
  {
    hide Protocol.LayerAt;
    if i :| Holds(s.partitions, i, k) && HoldingRuns(s.partitions, k) == s.partitions[i].runs {
      assert s.partitions[i] in s.partitions;
    }
  }

  /** What a client is given for each key when the partition runs are key-disjoint. */
  lemma VisibleIsNewestFirst(s: Snapshot, keys: set<Key>)
    requires RunsDisjoint(s)
    ensures forall k :: Get(Visible(s, keys), k) == if k in keys then NewestFirst(s, k) else None
  {
    hide Expected, NewestFirst, RunsDisjoint;
    forall k
      ensures Get(Visible(s, keys), k) == if k in keys then NewestFirst(s, k) else None
    {
      ExpectedIsNewestFirst(s, k);
    }
  }

  // ---- the partitions as a plain map ----

  ghost function KeysOf(objects: map<Path, Object>): set<Key> {
    set p, k | p in objects && k in Content(objects[p]) :: k
  }

  /** What the partitions hold when the bucket holds these objects. */
  ghost function BaseOf(ps: seq<Partition>, objects: map<Path, Object>): Values {
    var s := Snapshot.Snapshot([], [], ps, objects);
    map k | k in KeysOf(objects) && PartitionValue(s, k).Some? :: PartitionValue(s, k).value
  }

  lemma {:induction false} LastValueIn(objects: map<Path, Object>, paths: seq<Path>, k: Key)
    ensures LastValue(LayersOf(objects, paths), k).Some? ==> k in KeysOf(objects)
  {
    hide Content;
    if paths != [] {
      assert LayersOf(objects, paths)[..|paths| - 1] == LayersOf(objects, paths[..|paths| - 1]);
      LastValueIn(objects, paths[..|paths| - 1], k);
    }
  }

  lemma BaseOfIs(ps: seq<Partition>, objects: map<Path, Object>, k: Key)
    ensures Get(BaseOf(ps, objects), k) == PartitionValue(Snapshot.Snapshot([], [], ps, objects), k)
  {
    hide Content, LastValue, KeysOf;
    LastValueIn(objects, HoldingRuns(ps, k), k);
  }

  /** Objects the partitions list do not appear later under a listed name. */
  ghost predicate ListedEarly(ps: seq<Partition>, stored: map<Path, Object>, objects: map<Path, Object>) {
    forall p, q :: p in ps && q in p.runs && q in objects ==> q in stored
  }

  /** The partitions of a bucket that has only gained other objects hold what they held at first. */
  lemma PartitionsStay(s: Snapshot, stored: map<Path, Object>, k: Key)
    requires (forall p :: p in stored ==> p in s.objects && s.objects[p] == stored[p])
        && ListedEarly(s.partitions, stored, s.objects)
    ensures PartitionValue(s, k) == Get(BaseOf(s.partitions, stored), k)
  {
    hide Content, LastValue;
    BaseOfIs(s.partitions, stored, k);
    var runs := HoldingRuns(s.partitions, k);
    forall i | 0 <= i < |runs|
      ensures Protocol.LayerAt(s.objects, runs[i]) == Protocol.LayerAt(stored, runs[i])
    {
      HoldingIsListed(s.partitions, k, runs[i]);
    }
    assert LayersOf(s.objects, runs) == LayersOf(stored, runs);
  }

  lemma HoldingIsListed(ps: seq<Partition>, k: Key, q: Path)
    requires q in HoldingRuns(ps, k)
    ensures exists p :: p in ps && q in p.runs
  {
    hide Less;
    var i :| Holds(ps, i, k) && HoldingRuns(ps, k) == ps[i].runs;
    assert ps[i] in ps;
  }
}

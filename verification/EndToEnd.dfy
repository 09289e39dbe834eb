/** From the tables to the client: what BatchGet's answer is when the lists behind it are known. */
module EndToEnd {
  import opened Types
  import opened Layers
  import opened Schema
  import opened Protocol
  import Index
  import IndexHandler
  import InOrder
  import Snapshots

  /** The index's lists are those of `wals` and `runs`, newest first. */
  ghost predicate Serves(view: Index.Snapshot, objects: Objects, wals: seq<Wal>, runs: seq<Run>) {
    && view.objects == objects
    && |view.wals| == |wals| && (forall i :: 0 <= i < |wals| ==> view.wals[i] == wals[|wals| - 1 - i].path)
    && |view.runs| == |runs| && (forall i :: 0 <= i < |runs| ==> view.runs[i] == runs[|runs| - 1 - i].path)
  }

  /** What the refreshes leave behind is such a list. */
  lemma RefreshedServes(h: IndexHandler.Handler, t: Tables)
    requires h.wals == Reverse(t.wals) && h.sharedRuns == Reverse(t.runs)
    ensures Serves(h.Snapshot(), h.store.objects, t.wals, t.runs)
  {
  }

  /** The read specification over such lists is the protocol's newest-first lookup. */
  lemma ExpectedIsLookup(view: Index.Snapshot, objects: Objects, wals: seq<Wal>, runs: seq<Run>, k: Key)
    requires Serves(view, objects, wals, runs)
    ensures Index.Expected(view, k) ==
        Resolve(Snapshots.SnapshotEntry(objects, wals, runs, k), Index.PartitionValue(view, k))
  {
    hide Index.PartitionValue, LayerAt, FirstHit, Newest;
    var newer, older := Index.LayersOf(objects, view.wals), Index.LayersOf(objects, view.runs);
    assert newer == Reverse(WalLayers(objects, wals));
    assert older == Reverse(RunLayers(objects, runs));
    FirstHitConcat(newer, older, k);
    FirstHitOfReverse(WalLayers(objects, wals), k);
    FirstHitOfReverse(RunLayers(objects, runs), k);
  }

  /** The part of a plain map a client asked for. */
  function Restrict(m: Values, keys: set<Key>): Values {
    map k | k in m && k in keys :: m[k]
  }

  /** What the bucket held for the partitions before the first step is what they hold after any run. */
  lemma BaseStays(setup: Setup, steps: seq<Step>, n: nat, view: Index.Snapshot, k: Key)
    requires Legal(Init(setup), steps) && n <= |steps| && view.objects == Snapshots.At(setup, steps, n).objects
    requires Index.ListedEarly(view.partitions, setup.stored, view.objects)
    ensures Index.PartitionValue(view, k) == Get(Index.BaseOf(view.partitions, setup.stored), k)
  {
    hide Index.PartitionValue, Index.BaseOf, Index.ListedEarly, Next, Enabled, AllReadable;
    Snapshots.RunExtends(setup, steps, 0, n);
    assert steps[..0] == [];
    Index.PartitionsStay(view, setup.stored, k);
  }

  /**
   With both lists up to date and every commit so far in scheduling order, the read
   specification, and so every BatchGet that does not fail, is the last-writer-wins map of what
   the partitions held at first and all WALs ever added, cut down to the requested keys.
   */
  lemma {:induction false} ReadsAreLastWrites(setup: Setup, steps: seq<Step>, h: IndexHandler.Handler, keys: set<Key>)
    requires Legal(Init(setup), steps) && InOrder.CommitsInOrder(Init(setup), steps)
    requires var s := After(Init(setup), steps);
             h.wals == Reverse(s.tables.wals) && h.sharedRuns == Reverse(s.tables.runs) && h.store.objects == s.objects
    requires Index.ListedEarly(h.partitions, setup.stored, h.store.objects)
    ensures var base := Index.BaseOf(h.partitions, setup.stored);
            Index.Visible(h.Snapshot(), keys) == Restrict(Reference(After(Init(setup), steps), base), keys)
  {
    hide Execute, InOrder.CommitsInOrder, Index.PartitionValue, Index.Expected, Index.BaseOf, Reference, Newest;
    hide LayerAt;
    hide Index.ListedEarly;
    var s, view, base := After(Init(setup), steps), h.Snapshot(), Index.BaseOf(h.partitions, setup.stored);
    RefreshedServes(h, s.tables);
    assert steps[..|steps|] == steps;
    forall k
      ensures Index.Expected(view, k) == Get(Reference(s, base), k)
    {
      ExpectedIsLookup(view, s.objects, s.tables.wals, s.tables.runs, k);
      BaseStays(setup, steps, |steps|, view, k);
      InOrder.ReadersSeeLastWriters(setup, steps, base, k);
    }
  }

  /**
   With the WAL list of a moment `i`, the run list of a moment `j` not before it and the objects
   of a moment `n` not before that, every requested key is answered as the store stood at some
   moment from `i` to `j`, in whatever order jobs commit.
   */
  lemma {:induction false} StaleReadsAreRecent(setup: Setup, steps: seq<Step>, i: nat, j: nat, n: nat,
      view: Index.Snapshot, keys: set<Key>, k: Key)
      returns (m: nat)
    requires Legal(Init(setup), steps) && i <= j <= n <= |steps| && k in keys
    requires Serves(view, Snapshots.At(setup, steps, n).objects,
                    Snapshots.At(setup, steps, i).tables.wals, Snapshots.At(setup, steps, j).tables.runs)
    requires Index.ListedEarly(view.partitions, setup.stored, view.objects)
    ensures i <= m <= j
    ensures var base := Index.BaseOf(view.partitions, setup.stored);
            Get(Index.Visible(view, keys), k) == View(Snapshots.At(setup, steps, m), base, k)
  {
    hide Snapshots.At, Index.Expected, Newest, LayerAt, WalLayers, RunLayers, Index.PartitionValue, Index.BaseOf;
    hide Index.ListedEarly;
    var past, now, last := Snapshots.At(setup, steps, i), Snapshots.At(setup, steps, j), Snapshots.At(setup, steps, n);
    ExpectedIsLookup(view, last.objects, past.tables.wals, now.tables.runs, k);
    BaseStays(setup, steps, n, view, k);
    Snapshots.SameWalsLater(setup, steps, i, j);
    Snapshots.SameWalsLater(setup, steps, i, n);
    Snapshots.SameRunsLater(setup, steps, j, n);
    m := Snapshots.MixedSnapshotIsCurrent(setup, steps, i, j, Index.BaseOf(view.partitions, setup.stored), k);
  }
}

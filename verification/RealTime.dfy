/** Writes that follow one another in real time are never seen in the wrong order. */
module RealTime {
  import opened Types
  import opened Layers
  import opened Schema
  import opened Protocol
  import InOrder
  import Invariant
  import Provenance
  import Scheduling
  import Snapshots

  /** What stays true once a request has landed, and what a request submitted later can count on. */
  predicate Later(s: State, s': State) {
    && s.tables.nextWal <= s'.tables.nextWal
    && (forall id :: id in s.walOf ==> id in s'.walOf && s'.walOf[id] == s.walOf[id])
    && (forall id :: id in s'.walOf && id !in s.walOf ==> s'.walOf[id] >= s.tables.nextWal)
    && (forall id :: id in s.requests ==> id in s'.requests && s'.requests[id] == s.requests[id])
  }

  lemma StepLater(s: State, step: Step)
    requires Inv(s) && Enabled(s, step)
    ensures Later(s, Next(s, step))
  {
    hide Merged, Canonical, SelectNew, BatchRecords, Scheduling.Inv, HistoryInv, ExecutionsInv, ClaimInv;
    hide PathsExist, AllReadable, Landed, LayerAt, Covers;
  }

  lemma {:induction false} RunLater(setup: Setup, steps: seq<Step>, p: nat, q: nat)
    requires Legal(Init(setup), steps) && p <= q <= |steps|
    ensures Later(Snapshots.At(setup, steps, p), Snapshots.At(setup, steps, q))
    decreases q
  {
    hide Snapshots.At, Enabled, Next, Inv;
    if p < q {
      RunLater(setup, steps, p, q - 1);
      Snapshots.AtStep(setup, steps, q - 1);
      StepLater(Snapshots.At(setup, steps, q - 1), steps[q - 1]);
    }
  }

  /**
   Request `a` was acknowledged before request `b` was submitted, and `b` has a row by now: both are
   in the history, `b` under the larger seq_no, and every entry of every row was written by a
   request of that row.
   */
  lemma AcknowledgedFirst(setup: Setup, steps: seq<Step>, p: nat, q: nat, a: RequestId, b: RequestId)
    requires Legal(Init(setup), steps) && p <= q <= |steps|
    requires a in Snapshots.At(setup, steps, p).acked && b !in Snapshots.At(setup, steps, p).requests
    requires b in Snapshots.At(setup, steps, q).walOf
    ensures var s := Snapshots.At(setup, steps, q);
            && a in s.walOf && a in s.requests && Landed(s, a)
            && b in s.walOf && b in s.requests && Landed(s, b)
            && s.walOf[a] < s.walOf[b]
            && Provenance.Traced(s)
  {
    hide Snapshots.At, LayerAt, Scheduling.Inv, ExecutionsInv, ClaimInv, Provenance.Traced;
    TracedAt(setup, steps, q);
    RunLater(setup, steps, p, q);
    Snapshots.AtInv(setup, steps, p);
    Snapshots.AtInv(setup, steps, q);
    var s := Snapshots.At(setup, steps, p);
    assert a in s.walOf && Landed(s, a);
    var i :| 0 <= i < |s.history| && s.history[i].seqNo == s.walOf[a];
    assert s.history[i] in s.history;
  }

  lemma TracedAt(setup: Setup, steps: seq<Step>, n: nat)
    requires Legal(Init(setup), steps) && n <= |steps|
    ensures Provenance.Traced(Snapshots.At(setup, steps, n))
  {
    hide Provenance.Traced;
    LegalPrefix(Init(setup), steps, n);
    Provenance.RunTraced(setup, steps[..n]);
  }

  lemma {:induction false} NewestInHistory(s: State, n: nat, k: Key) returns (i: int)
    requires n < |s.history| && k in LayerAt(s.objects, s.history[n].path)
    ensures n <= i < |s.history| && k in LayerAt(s.objects, s.history[i].path)
    ensures InOrder.LastWrite(s, k) == Some(LayerAt(s.objects, s.history[i].path)[k])
  {
    hide Newest, LayerAt;
    var layers := WalLayers(s.objects, s.history);
    assert k in layers[n];
    i := NewestSource(layers, k);
  }

  /** The answer for a key that request `b` wrote: an entry some request of that row, or a later one, wrote. */
  lemma {:induction false} AnswerAfter(setup: Setup, steps: seq<Step>, b: RequestId, r: Record)
      returns (i: int, c: RequestId)
    requires Legal(Init(setup), steps) && InOrder.Undisturbed(Init(setup), steps, r.key)
    requires var s := After(Init(setup), steps); b in s.walOf && b in s.requests && r in s.requests[b]
    ensures var s := After(Init(setup), steps);
            && 0 <= i < |s.history| && s.history[i].seqNo >= s.walOf[b]
            && r.key in LayerAt(s.objects, s.history[i].path)
            && var e := LayerAt(s.objects, s.history[i].path)[r.key];
            && ViewEntry(s, r.key) == Some(e)
            && Provenance.WroteIn(s, c, s.history[i].seqNo, r.key, e)
  {
    hide LayerAt, Inv, Landed, Execute, InOrder.Undisturbed, ViewEntry, InOrder.LastWrite, Ascending;
    hide Provenance.WroteIn;
    var s := After(Init(setup), steps);
    Invariant.RunKeeps(setup, steps);
    RowLanded(s, b);
    var n := LandedAt(s, b, r);
    i := NewestInHistory(s, n, r.key);
    HistoryAscends(s, n, i);
    InOrder.RunKeepsRight(setup, steps, r.key);
    Provenance.RunTraced(setup, steps);
    assert s.history[i] in s.history && Provenance.RowTraced(s, s.history[i]);
    c :| Provenance.WroteIn(s, c, s.history[i].seqNo, r.key, LayerAt(s.objects, s.history[i].path)[r.key]);
  }

  lemma RowLanded(s: State, id: RequestId)
    requires Inv(s) && id in s.walOf
    ensures id in s.requests && Landed(s, id)
  {
    hide Scheduling.Inv, ExecutionsInv, ClaimInv, HistoryInv, PathsExist, AllReadable;
  }

  lemma AckedHasRow(s: State, id: RequestId)
    requires Inv(s) && id in s.acked
    ensures id in s.walOf && id in s.requests
  {
    hide Scheduling.Inv, ExecutionsInv, ClaimInv, HistoryInv, PathsExist, AllReadable, Landed;
  }

  /**
   Then no reader is shown `a` over `b`: on a key `b` wrote, the answer is an entry written by a
   request `c` of `b`'s row or a newer one, and `c` is neither `a` nor any other request that was
   acknowledged before `b` was submitted. This is so unless a commit has disturbed the key since
   it was last inserted, so always when jobs commit in scheduling order.
   */
  lemma {:induction false} NeverTheOlderWrite(setup: Setup, steps: seq<Step>, p: nat, a: RequestId, b: RequestId,
      r: Record)
      returns (i: int, c: RequestId)
    requires Legal(Init(setup), steps) && p <= |steps|
    requires a in Snapshots.At(setup, steps, p).acked && b !in Snapshots.At(setup, steps, p).requests
    requires var s := After(Init(setup), steps); b in s.walOf && b in s.requests && r in s.requests[b]
    requires InOrder.Undisturbed(Init(setup), steps, r.key)
    ensures var s := After(Init(setup), steps);
            && a in s.walOf && b in s.walOf
            && 0 <= i < |s.history| && s.history[i].seqNo >= s.walOf[b] > s.walOf[a]
            && r.key in LayerAt(s.objects, s.history[i].path)
            && var e := LayerAt(s.objects, s.history[i].path)[r.key];
            && ViewEntry(s, r.key) == Some(e)
            && Provenance.WroteIn(s, c, s.history[i].seqNo, r.key, e)
    ensures c != a && c !in Snapshots.At(setup, steps, p).acked
  {
    hide Snapshots.At, LayerAt, Landed, Execute, InOrder.Undisturbed, ViewEntry, Provenance.Writes;
    AtEnd(setup, steps);
    AcknowledgedFirst(setup, steps, p, |steps|, a, b);
    i, c := AnswerAfter(setup, steps, b, r);
    if c in Snapshots.At(setup, steps, p).acked {
      AcknowledgedFirst(setup, steps, p, |steps|, c, b);
    }
  }

  /** No request of the row of `b`, or of a newer one, wrote the key of `r` with another outcome. */
  ghost predicate Unopposed(s: State, b: RequestId, r: Record)
    requires b in s.walOf
  {
    forall id, n, e :: n >= s.walOf[b] && Provenance.WroteIn(s, id, n, r.key, e) ==> e == EntryOf(r)
  }

  /**
   A write with a row, so every acknowledged one, is there: unless a request of its row or a newer
   one wrote the key with another outcome, a reader of an undisturbed key is given exactly what
   the request wrote.
   */
  lemma {:induction false} AcknowledgedIsDurable(setup: Setup, steps: seq<Step>, base: Values, b: RequestId, r: Record)
    requires Legal(Init(setup), steps) && InOrder.Undisturbed(Init(setup), steps, r.key)
    requires var s := After(Init(setup), steps); b in s.walOf && b in s.requests && r in s.requests[b]
    requires Unopposed(After(Init(setup), steps), b, r)
    ensures View(After(Init(setup), steps), base, r.key) == if r.tombstone then None else Some(r.value)
  {
    hide LayerAt, Execute, InOrder.Undisturbed, ViewEntry, Provenance.Writes;
    var i, c := AnswerAfter(setup, steps, b, r);
  }

  /**
   Last writer wins, over requests: an undisturbed key reads as the partitions hold it if no
   request with a row wrote it, and otherwise as some request wrote it that is in the newest row
   of all that did.
   */
  lemma {:induction false} LastWriterWins(setup: Setup, steps: seq<Step>, base: Values, k: Key)
      returns (c: Option<(RequestId, Entry)>)
    requires Legal(Init(setup), steps) && InOrder.Undisturbed(Init(setup), steps, k)
    ensures var s := After(Init(setup), steps);
            match c
            case None => View(s, base, k) == Get(base, k) && forall id, n, e :: !Provenance.WroteIn(s, id, n, k, e)
            case Some((id, e)) =>
              && id in s.walOf && Provenance.WroteIn(s, id, s.walOf[id], k, e)
              && View(s, base, k) == Resolve(Some(e), None)
              && forall id', n, e' :: Provenance.WroteIn(s, id', n, k, e') ==> n <= s.walOf[id]
  {
    hide LayerAt, Inv, Execute, InOrder.Undisturbed, ViewEntry, InOrder.LastWrite, Provenance.WroteIn;
    var s := After(Init(setup), steps);
    Invariant.RunKeeps(setup, steps);
    InOrder.RunKeepsRight(setup, steps, k);
    Provenance.RunTraced(setup, steps);
    var i := NewestRow(s, k);
    if i < 0 {
      c := None;
      forall id, n, e
        ensures !Provenance.WroteIn(s, id, n, k, e)
      {
        if Provenance.WroteIn(s, id, n, k, e) {
          var j := WriterRow(s, id, n, k, e);
        }
      }
    } else {
      var e := LayerAt(s.objects, s.history[i].path)[k];
      assert s.history[i] in s.history && Provenance.RowTraced(s, s.history[i]);
      var id :| Provenance.WroteIn(s, id, s.history[i].seqNo, k, e);
      HasRow(s, id, s.history[i].seqNo, k, e);
      c := Some((id, e));
      forall id', n, e' | Provenance.WroteIn(s, id', n, k, e')
        ensures n <= s.history[i].seqNo
      {
        var j := WriterRow(s, id', n, k, e');
        HistoryAscends(s, j, i);
      }
    }
  }

  lemma HasRow(s: State, id: RequestId, n: int, k: Key, e: Entry)
    requires Provenance.WroteIn(s, id, n, k, e)
    ensures id in s.walOf && s.walOf[id] == n
  {
    hide Provenance.Writes;
  }

  /** The newest row that holds `k`, or -1. */
  lemma NewestRow(s: State, k: Key) returns (i: int)
    ensures -1 <= i < |s.history|
    ensures i >= 0 ==> k in LayerAt(s.objects, s.history[i].path)
    ensures i >= 0 ==> InOrder.LastWrite(s, k) == Some(LayerAt(s.objects, s.history[i].path)[k])
    ensures i < 0 ==> InOrder.LastWrite(s, k) == None
    ensures forall j :: i < j < |s.history| ==> k !in LayerAt(s.objects, s.history[j].path)
  {
    hide Newest, LayerAt;
    var layers := WalLayers(s.objects, s.history);
    i := NewestSource(layers, k);
    if Newest(layers, k).None? {
      i := -1;
    }
  }

  /** A row in which a request wrote `k` holds `k`. */
  lemma WriterRow(s: State, id: RequestId, n: int, k: Key, e: Entry) returns (j: nat)
    requires Inv(s) && Provenance.WroteIn(s, id, n, k, e)
    ensures j < |s.history| && s.history[j].seqNo == n && k in LayerAt(s.objects, s.history[j].path)
  {
    hide LayerAt, Inv, Landed;
    RowLanded(s, id);
    var r :| r in s.requests[id] && r.key == k;
    j := LandedAt(s, id, r);
  }

  lemma LandedAt(s: State, id: RequestId, r: Record) returns (n: nat)
    requires id in s.walOf && id in s.requests && Landed(s, id) && r in s.requests[id]
    ensures n < |s.history| && s.history[n].seqNo == s.walOf[id] && r.key in LayerAt(s.objects, s.history[n].path)
  {
    hide LayerAt;
    n :| 0 <= n < |s.history| && s.history[n].seqNo == s.walOf[id]
        && Covers(LayerAt(s.objects, s.history[n].path), s.requests[id]);
  }

  lemma HistoryAscends(s: State, n: nat, i: nat)
    requires Inv(s) && n <= i < |s.history|
    ensures s.history[n].seqNo <= s.history[i].seqNo
  {
    hide Scheduling.Inv, ExecutionsInv, ClaimInv, RequestsInv, PathsExist;
  }

  lemma AtEnd(setup: Setup, steps: seq<Step>)
    requires Legal(Init(setup), steps)
    ensures Snapshots.At(setup, steps, |steps|) == After(Init(setup), steps)
  {
    hide Next, Enabled;
    assert steps[..|steps|] == steps;
  }
}

/**
 The index keeps its list of WALs and its list of shared runs separately, each refreshed on its
 own. Read together with a run list that is not older, a stale WAL list still answers every key
 as the store stood at some moment between the two refreshes, whatever order jobs commit in.
 */
module Snapshots {
  import opened Types
  import opened Layers
  import opened Schema
  import opened Protocol
  import Invariant
  import InOrder
  import Views

  /** What the index finds for `k` in a list of WALs and a list of runs. */
  function SnapshotEntry(objects: Objects, wals: seq<Wal>, runs: seq<Run>, k: Key): Option<Entry> {
    OrElse(Newest(WalLayers(objects, wals), k), Newest(RunLayers(objects, runs), k))
  }

  /** Everything the live WALs and the runs say about `k` has been a reader's answer already. */
  ghost predicate Accounted(s: State, seen: iset<Option<Entry>>, k: Key) {
    && (forall n :: Views.Holder(s, n, k) ==> Some(LayerAt(s.objects, s.tables.wals[n].path)[k]) in seen)
    && Newest(RunLayers(s.objects, s.tables.runs), k) in seen
  }

  lemma {:induction false} AccountedFrame(s: State, s': State, seen: iset<Option<Entry>>, k: Key)
    requires Accounted(s, seen, k) && PathsExist(s) && Invariant.Extends(s.objects, s'.objects)
    requires s'.tables == s.tables
    ensures Accounted(s', seen, k)
  {
    hide Newest, Content;
    Invariant.SameRunLayers(s.objects, s'.objects, s.tables.runs);
    forall n | Views.Holder(s', n, k)
      ensures Some(LayerAt(s'.objects, s'.tables.wals[n].path)[k]) in seen
    {
      assert s.tables.wals[n] in s.tables.wals;
      assert Views.Holder(s, n, k);
    }
  }

  lemma InsertAccounted(s: State, step: Step, seen: iset<Option<Entry>>, k: Key)
    requires Accounted(s, seen, k) && step.InsertWal? && Enabled(s, step)
    ensures Accounted(Next(s, step), seen + iset{ViewEntry(Next(s, step), k)}, k)
  {
    hide Newest, LayerAt, RunLayers, ViewEntry;
    var s' := Next(s, step);
    InOrder.InsertIsNewest(s, step, k);
    forall n | Views.Holder(s', n, k)
      ensures Some(LayerAt(s'.objects, s'.tables.wals[n].path)[k]) in seen + iset{ViewEntry(s', k)}
    {
      if n < |s.tables.wals| {
        assert Views.Holder(s, n, k);
      }
    }
  }

  lemma ClaimAccounted(s: State, step: Step, seen: iset<Option<Entry>>, k: Key)
    requires Accounted(s, seen, k) && step.ClaimRows? && Enabled(s, step)
    ensures Accounted(Next(s, step), seen, k)
  {
    hide Newest, LayerAt, RunLayers, MarkRows, SeqNos;
    var s' := Next(s, step);
    Invariant.MarkKeepsRows(s.tables.wals, SeqNos(s.claim.value));
    forall n | Views.Holder(s', n, k)
      ensures Some(LayerAt(s'.objects, s'.tables.wals[n].path)[k]) in seen
    {
      assert s'.tables.wals[n].(state := New) == s.tables.wals[n].(state := New);
      assert Views.Holder(s, n, k);
    }
  }

  lemma CommitAccounted(s: State, step: Step, seen: iset<Option<Entry>>, k: Key)
    requires Inv(s) && Accounted(s, seen, k) && Commits(s, step)
    ensures Accounted(Committed(s, step), seen, k)
  {
    hide Newest, LayerAt, RunLayers, WalLayers, Inv, Committed, Commits;
    var s' := Committed(s, step);
    var (j, a, b) := Views.Committing(s, step);
    Views.CommitMoves(s, step, k);
    forall n | Views.Holder(s', n, k)
      ensures Some(LayerAt(s'.objects, s'.tables.wals[n].path)[k]) in seen
    {
      var m := if n < a then n else n + (b - a);
      assert s'.tables.wals[n] == s.tables.wals[m];
      assert Views.Holder(s, m, k);
    }
    var i := Views.NewestInRows(s, a, b, k);
  }

  lemma StepAccounted(s: State, step: Step, seen: iset<Option<Entry>>, k: Key)
    requires Inv(s) && Enabled(s, step) && Accounted(s, seen, k)
    ensures Accounted(Next(s, step), seen + iset{ViewEntry(Next(s, step), k)}, k)
  {
    hide Inv, Merged, Canonical, LayerAt, ViewEntry, Accounted;
    InOrder.InvGivesPaths(s);
    var s', more := Next(s, step), seen + iset{ViewEntry(Next(s, step), k)};
    match step
    case InsertWal(_, _) => InsertAccounted(s, step, seen, k);
    case ClaimRows => ClaimAccounted(s, step, seen, k); MoreSeen(s', seen, more, k);
    case WorkCommit(_, _, _) => NextOfCommit(s, step); CommitAccounted(s, step, seen, k); MoreSeen(s', seen, more, k);
    case Submit(_, _) => AccountedFrame(s, s', seen, k); MoreSeen(s', seen, more, k);
    case UploadWal(_, _, _) => AccountedFrame(s, s', seen, k); MoreSeen(s', seen, more, k);
    case Ack(_) => AccountedFrame(s, s', seen, k); MoreSeen(s', seen, more, k);
    case ReadNew(_) => AccountedFrame(s, s', seen, k); MoreSeen(s', seen, more, k);
    case SkipClaim => AccountedFrame(s, s', seen, k); MoreSeen(s', seen, more, k);
    case WorkUpload(_, _, _) => AccountedFrame(s, s', seen, k); MoreSeen(s', seen, more, k);
    case WorkFail(_, _) => AccountedFrame(s, s', seen, k); MoreSeen(s', seen, more, k);
  }

  lemma MoreSeen(s: State, seen: iset<Option<Entry>>, more: iset<Option<Entry>>, k: Key)
    requires Accounted(s, seen, k) && seen <= more
    ensures Accounted(s, more, k)
  {
    hide Newest, LayerAt;
  }

  // ---- runs ----

  ghost function At(setup: Setup, steps: seq<Step>, n: nat): State
    requires Legal(Init(setup), steps) && n <= |steps|
  {
    LegalPrefix(Init(setup), steps, n);
    After(Init(setup), steps[..n])
  }

  lemma AtStep(setup: Setup, steps: seq<Step>, n: nat)
    requires Legal(Init(setup), steps) && n < |steps|
    ensures Enabled(At(setup, steps, n), steps[n])
    ensures At(setup, steps, n + 1) == Next(At(setup, steps, n), steps[n])
    ensures Inv(At(setup, steps, n))
  {
    hide Enabled, Next, Inv;
    LegalPrefix(Init(setup), steps, n);
    LegalPrefix(Init(setup), steps, n + 1);
    assert steps[..n + 1][..n] == steps[..n];
    Invariant.RunKeeps(setup, steps[..n]);
  }

  /** The answers a reader of `k` would have got in the states from `i` to `j`. */
  ghost function Answers(setup: Setup, steps: seq<Step>, i: nat, j: nat, k: Key): iset<Option<Entry>>
    requires Legal(Init(setup), steps) && j <= |steps|
  {
    iset m: nat | i <= m <= j :: ViewEntry(At(setup, steps, m), k)
  }

  lemma {:induction false} RunAccounted(setup: Setup, steps: seq<Step>, i: nat, j: nat, k: Key)
    requires Legal(Init(setup), steps) && i <= j <= |steps|
    requires Newest(WalLayers(At(setup, steps, i).objects, At(setup, steps, i).tables.wals), k).None?
    ensures Accounted(At(setup, steps, j), Answers(setup, steps, i, j, k), k)
    ensures Invariant.Extends(At(setup, steps, i).objects, At(setup, steps, j).objects)
    decreases j
  {
    hide Newest, LayerAt, RunLayers, At, Inv, Next, Enabled;
    if i == j {
      var s := At(setup, steps, i);
      var n := Views.NewestInRows(s, 0, |s.tables.wals|, k);
      assert s.tables.wals[0..|s.tables.wals|] == s.tables.wals;
      assert ViewEntry(s, k) in Answers(setup, steps, i, j, k);
    } else {
      RunAccounted(setup, steps, i, j - 1, k);
      AtStep(setup, steps, j - 1);
      var s, seen := At(setup, steps, j - 1), Answers(setup, steps, i, j - 1, k);
      StepAccounted(s, steps[j - 1], seen, k);
      StepExtends(s, steps[j - 1]);
      var s' := At(setup, steps, j);
      assert ViewEntry(s', k) in Answers(setup, steps, i, j, k);
      MoreSeen(s', seen + iset{ViewEntry(s', k)}, Answers(setup, steps, i, j, k), k);
    }
  }

  lemma StepExtends(s: State, step: Step)
    requires Enabled(s, step)
    ensures Invariant.Extends(s.objects, Next(s, step).objects)
  {
    hide Merged, Canonical, SelectNew, BatchRecords;
  }

  /**
   With the WAL list of history state `i` and the run list of a state `j` not before it, the
   answer for a key is the one a reader of both lists at one moment would have got, at some
   moment from `i` to `j`. The WAL list being the newer one is not covered.
   */
  lemma {:induction false} MixedSnapshotIsCurrent(setup: Setup, steps: seq<Step>, i: nat, j: nat, base: Values, k: Key)
      returns (m: nat)
    requires Legal(Init(setup), steps) && i <= j <= |steps|
    ensures i <= m <= j
    ensures var now, past := At(setup, steps, j), At(setup, steps, i);
            Resolve(SnapshotEntry(now.objects, past.tables.wals, now.tables.runs, k), Get(base, k)) ==
            View(At(setup, steps, m), base, k)
  {
    hide Newest, LayerAt, RunLayers, At, Inv, Next, Enabled, WalLayers;
    var now, past := At(setup, steps, j), At(setup, steps, i);
    SameWalsLater(setup, steps, i, j);
    if Newest(WalLayers(past.objects, past.tables.wals), k).Some? {
      m := i;
    } else {
      RunAccounted(setup, steps, i, j, k);
      m :| i <= m <= j && ViewEntry(At(setup, steps, m), k) == Newest(RunLayers(now.objects, now.tables.runs), k);
    }
  }

  lemma {:induction false} SameWalsLater(setup: Setup, steps: seq<Step>, i: nat, j: nat)
    requires Legal(Init(setup), steps) && i <= j <= |steps|
    ensures WalLayers(At(setup, steps, j).objects, At(setup, steps, i).tables.wals) ==
            WalLayers(At(setup, steps, i).objects, At(setup, steps, i).tables.wals)
  {
    hide LayerAt, At, Inv, WalLayers;
    LegalPrefix(Init(setup), steps, i);
    var past := At(setup, steps, i);
    RunExtends(setup, steps, i, j);
    assert PathsExist(past) by {
      AtInv(setup, steps, i);
      InOrder.InvGivesPaths(past);
    }
    Invariant.SameWalLayers(past.objects, At(setup, steps, j).objects, past.tables.wals);
  }

  lemma {:induction false} SameRunsLater(setup: Setup, steps: seq<Step>, i: nat, j: nat)
    requires Legal(Init(setup), steps) && i <= j <= |steps|
    ensures RunLayers(At(setup, steps, j).objects, At(setup, steps, i).tables.runs) ==
            RunLayers(At(setup, steps, i).objects, At(setup, steps, i).tables.runs)
  {
    hide LayerAt, At, Inv, RunLayers;
    LegalPrefix(Init(setup), steps, i);
    var past := At(setup, steps, i);
    RunExtends(setup, steps, i, j);
    assert PathsExist(past) by {
      AtInv(setup, steps, i);
      InOrder.InvGivesPaths(past);
    }
    Invariant.SameRunLayers(past.objects, At(setup, steps, j).objects, past.tables.runs);
  }

  lemma {:induction false} AtInv(setup: Setup, steps: seq<Step>, n: nat)
    requires Legal(Init(setup), steps) && n <= |steps|
    ensures Inv(At(setup, steps, n))
  {
    hide Inv;
    LegalPrefix(Init(setup), steps, n);
    Invariant.RunKeeps(setup, steps[..n]);
  }

  lemma {:induction false} RunExtends(setup: Setup, steps: seq<Step>, i: nat, j: nat)
    requires Legal(Init(setup), steps) && i <= j <= |steps|
    ensures Invariant.Extends(At(setup, steps, i).objects, At(setup, steps, j).objects)
    decreases j
  {
    hide At, Next, Enabled, Inv;
    if i < j {
      RunExtends(setup, steps, i, j - 1);
      AtStep(setup, steps, j - 1);
      StepExtends(At(setup, steps, j - 1), steps[j - 1]);
    }
  }

  /**
   Why the run list must not be the older one: with the WAL list of after a commit and the run
   list of before it, a reader is answered as before or as after the commit exactly when the job
   did not hold the only word on the key among the live WALs, or the runs and the partitions
   without it come to the same answer.
   */
  lemma NewerWalListExactly(s: State, step: Step, base: Values, k: Key)
    requires Inv(s) && Commits(s, step)
    ensures var (j, a, b) := Views.Committing(s, step);
            b <= |s.tables.wals| &&
            var st := Views.StackAt(s, a, b, k);
            var entry := SnapshotEntry(s.objects, Committed(s, step).tables.wals, s.tables.runs, k);
            var answer := Resolve(entry, Get(base, k));
            (answer == View(s, base, k) || answer == View(Committed(s, step), base, k) <==>
             st.inside.None? || st.newer.Some? || st.older.Some?
                 || Resolve(st.runs, Get(base, k)) == Resolve(st.inside, Get(base, k)))
  {
    hide Newest, LayerAt, RunLayers, WalLayers, Inv, Committed, Commits;
    var (j, a, b) := Views.Committing(s, step);
    Views.CommitMoves(s, step, k);
    Views.EntryOfStack(s, a, b, k);
  }

  /**
   A WAL list any number of steps newer than the run list still answers a key as of its own
   moment if it has a word on the key, and as of the run list's moment if neither moment's live
   WALs have one. What is left is a key whose live WALs were all compacted in between: it is
   answered from the old runs alone.
   */
  lemma {:induction false} NewerWalListLater(setup: Setup, steps: seq<Step>, i: nat, j: nat, base: Values, k: Key)
    requires Legal(Init(setup), steps) && i <= j <= |steps|
    ensures var past, now := At(setup, steps, i), At(setup, steps, j);
            var answer := Resolve(SnapshotEntry(now.objects, now.tables.wals, past.tables.runs, k), Get(base, k));
            var had := Newest(WalLayers(past.objects, past.tables.wals), k);
            var has := Newest(WalLayers(now.objects, now.tables.wals), k);
            && (has.Some? ==> answer == View(now, base, k))
            && (has.None? && had.None? ==> answer == View(past, base, k))
            && (has.None? && had.Some? ==>
                  answer == Resolve(Newest(RunLayers(past.objects, past.tables.runs), k), Get(base, k)))
  {
    hide Newest, LayerAt, RunLayers, At, Inv, WalLayers;
    SameRunsLater(setup, steps, i, j);
  }
}

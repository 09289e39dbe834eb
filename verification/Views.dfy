/** What commits do to readers: nothing, or exactly what the order of commits lets happen. */
module Views {
  import opened Types
  import opened Layers
  import opened Schema
  import opened Protocol
  import Scheduling

  // ---- the stack of layers around a commit ----

  lemma WalLayersConcat(o: Objects, a: seq<Wal>, b: seq<Wal>)
    ensures WalLayers(o, a + b) == WalLayers(o, a) + WalLayers(o, b)
  {
    hide LayerAt;
  }

  lemma RunLayersConcat(o: Objects, a: seq<Run>, b: seq<Run>)
    ensures RunLayers(o, a + b) == RunLayers(o, a) + RunLayers(o, b)
  {
    hide LayerAt;
  }

  /** The merged run of a job answers as the job's stretch of the WAL table did. */
  lemma MergedAnswers(o: Objects, rows: seq<Wal>, table: seq<Wal>, a: nat, b: nat, k: Key)
    requires Scheduling.IsStretch(rows, table, a, b)
    ensures Get(Merged(o, rows), k) == Newest(WalLayers(o, table[a..b]), k)
  {
    hide LayerAt, SortBySeqNo, Newest, Override;
    var asc := SortBySeqNo(rows);
    assert WalLayers(o, asc) == WalLayers(o, table[a..b]) by {
      forall i | 0 <= i < |asc|
        ensures asc[i].path == table[a..b][i].path
      {
        assert asc[a + i - a].path == table[a + i].path;
      }
    }
    OverrideIsNewest(WalLayers(o, asc), k);
  }

  /** The newest entries for `k` in the rows before, in and after a stretch, and in the runs. */
  datatype Stack = Stack(older: Option<Entry>, inside: Option<Entry>, newer: Option<Entry>, runs: Option<Entry>)

  function StackAt(s: State, a: nat, b: nat, k: Key): Stack
    requires a <= b <= |s.tables.wals|
  {
    Stack(Newest(WalLayers(s.objects, s.tables.wals[..a]), k),
          Newest(WalLayers(s.objects, s.tables.wals[a..b]), k),
          Newest(WalLayers(s.objects, s.tables.wals[b..]), k),
          Newest(RunLayers(s.objects, s.tables.runs), k))
  }

  lemma EntryOfStack(s: State, a: nat, b: nat, k: Key)
    requires a <= b <= |s.tables.wals|
    ensures var st := StackAt(s, a, b, k);
            ViewEntry(s, k) == OrElse(st.newer, OrElse(st.inside, OrElse(st.older, st.runs)))
  {
    hide LayerAt, Newest;
    var w, o := s.tables.wals, s.objects;
    assert w == w[..a] + w[a..b] + w[b..];
    WalLayersConcat(o, w[..a] + w[a..b], w[b..]);
    WalLayersConcat(o, w[..a], w[a..b]);
    NewestConcat(WalLayers(o, w[..a]) + WalLayers(o, w[a..b]), WalLayers(o, w[b..]), k);
    NewestConcat(WalLayers(o, w[..a]), WalLayers(o, w[a..b]), k);
  }

  /** The committing job's index, and where its stretch of the table starts and ends. */
  ghost function Committing(s: State, step: Step): (r: (nat, nat, nat))
    requires Commits(s, step)
    ensures r.0 < |s.tables.jobs| && r.1 <= r.2
  {
    var j := JobIndex(s.tables, step.jobId);
    var a := |Scheduling.Claimed(s.tables.jobs[..j])|;
    (j, a, a + |s.tables.jobs[j].wals|)
  }

  /** Committing moves the job's answers from their place among the WALs to the top of the runs. */
  lemma CommitMoves(s: State, step: Step, k: Key)
    requires Inv(s) && Commits(s, step)
    ensures var (j, a, b) := Committing(s, step);
            && b <= |s.tables.wals|
            && Committed(s, step).tables.wals == s.tables.wals[..a] + s.tables.wals[b..]
            && Committed(s, step).objects == s.objects
    ensures var (j, a, b) := Committing(s, step);
            var st := StackAt(s, a, b, k);
            && Newest(WalLayers(s.objects, Committed(s, step).tables.wals), k) == OrElse(st.newer, st.older)
            && Newest(RunLayers(s.objects, Committed(s, step).tables.runs), k) == OrElse(st.inside, st.runs)
  {
    hide LayerAt, Newest, Scheduling.Claimed, Scheduling.Inv, Merged, SortBySeqNo, DeleteRows, HistoryInv;
    hide RequestsInv, ClaimInv, AllReadable, PathsExist;
    var (j, a, b) := Committing(s, step);
    var t, o, w := s.tables, s.objects, s.tables.wals;
    Scheduling.CommitKeeps(t, j, step.path, step.runNo);
    var run := Run(step.runNo, step.path);
    WalLayersConcat(o, w[..a], w[b..]);
    NewestConcat(WalLayers(o, w[..a]), WalLayers(o, w[b..]), k);
    RunLayersConcat(o, t.runs, [run]);
    NewestConcat(RunLayers(o, t.runs), RunLayers(o, [run]), k);
    assert LayerAt(o, step.path) == Merged(o, t.jobs[j].wals);
    MergedAnswers(o, t.jobs[j].wals, w, a, b, k);
    NewestOfOne(RunLayers(o, [run])[0], k);
    assert RunLayers(o, [run]) == [LayerAt(o, step.path)];
  }

  lemma NewestOfOne(layer: Layer, k: Key)
    ensures Newest([layer], k) == Get(layer, k)
  {
  }

  // ---- one commit, in any order ----

  /** Live WAL `i` has a word on `k`. */
  predicate Holder(s: State, i: int, k: Key) {
    0 <= i < |s.tables.wals| && k in LayerAt(s.objects, s.tables.wals[i].path)
  }

  predicate NewestHolder(s: State, i: int, k: Key) {
    Holder(s, i, k) && forall m :: i < m < |s.tables.wals| ==> !Holder(s, m, k)
  }

  /** `m` is the newest live WAL outside the job that has a word on `k`. */
  predicate NewestOutside(s: State, job: Job, m: int, k: Key) {
    && Holder(s, m, k) && !Scheduling.Carries(job, s.tables.wals[m])
    && forall n :: m < n < |s.tables.wals| && Holder(s, n, k) ==> Scheduling.Carries(job, s.tables.wals[n])
  }

  /** The newest word on `k` is in the job, and a WAL outside the job has one too. */
  ghost predicate Disturbed(s: State, job: Job, k: Key) {
    && (exists i :: NewestHolder(s, i, k) && Scheduling.Carries(job, s.tables.wals[i]))
    && (exists m :: NewestOutside(s, job, m, k))
  }

  lemma {:induction false} NewestInRows(s: State, lo: nat, hi: nat, k: Key) returns (i: int)
    requires lo <= hi <= |s.tables.wals|
    ensures Newest(WalLayers(s.objects, s.tables.wals[lo..hi]), k).None? ==>
              forall m :: lo <= m < hi ==> !Holder(s, m, k)
    ensures Newest(WalLayers(s.objects, s.tables.wals[lo..hi]), k).Some? ==>
              && lo <= i < hi && Holder(s, i, k) && (forall m :: i < m < hi ==> !Holder(s, m, k))
              && Newest(WalLayers(s.objects, s.tables.wals[lo..hi]), k) ==
                  Some(LayerAt(s.objects, s.tables.wals[i].path)[k])
  {
    hide LayerAt, Newest;
    var layers := WalLayers(s.objects, s.tables.wals[lo..hi]);
    assert forall m :: lo <= m < hi ==> layers[m - lo] == LayerAt(s.objects, s.tables.wals[m].path);
    i := NewestSource(layers, k);
    i := i + lo;
  }

  /**
   Committing a job, in whatever order, leaves every key as it was unless the key's newest
   live WAL is in the job while some live WAL outside it holds the key too; then exactly the
   newest outside WAL takes over.
   */
  lemma CommitEffect(s: State, step: Step, k: Key)
    requires Inv(s) && Commits(s, step)
    ensures var job := s.tables.jobs[Committing(s, step).0];
            && (!Disturbed(s, job, k) ==> ViewEntry(Committed(s, step), k) == ViewEntry(s, k))
            && (Disturbed(s, job, k) ==> forall m :: NewestOutside(s, job, m, k) ==>
                 ViewEntry(Committed(s, step), k) == Some(LayerAt(s.objects, s.tables.wals[m].path)[k]))
  {
    hide LayerAt, Newest, Scheduling.Claimed, Inv, SortBySeqNo, Scheduling.Carries, Committed, Commits, Disturbed;
    hide NewestOutside;
    assert Scheduling.Inv(s.tables) by {
      InvSchedules(s);
    }
    var (j, a, b) := Committing(s, step);
    var job, n := s.tables.jobs[j], |s.tables.wals|;
    CommitMoves(s, step, k);
    EntryOfStack(s, a, b, k);
    forall i | 0 <= i < n
      ensures Scheduling.Carries(job, s.tables.wals[i]) <==> a <= i < b
    {
      Scheduling.CarriesIsInBlock(s.tables, j, i);
    }
    DisturbedIs(s, job, a, b, k);
  }

  lemma InvSchedules(s: State)
    requires Inv(s)
    ensures Scheduling.Inv(s.tables)
  {
  }

  /** The job is the stretch from `a` to `b`: it is disturbing when the key is not above it but in it and below it. */
  lemma DisturbedIs(s: State, job: Job, a: nat, b: nat, k: Key)
    requires a <= b <= |s.tables.wals|
    requires forall i :: 0 <= i < |s.tables.wals| ==> (Scheduling.Carries(job, s.tables.wals[i]) <==> a <= i < b)
    ensures var st := StackAt(s, a, b, k);
            && (Disturbed(s, job, k) <==> st.newer.None? && st.inside.Some? && st.older.Some?)
            && (Disturbed(s, job, k) ==> forall m :: NewestOutside(s, job, m, k) ==>
                 st.older == Some(LayerAt(s.objects, s.tables.wals[m].path)[k]))
  {
    hide LayerAt, Newest, Scheduling.Carries;
    var n := |s.tables.wals|;
    var old' := NewestInRows(s, 0, a, k);
    var in' := NewestInRows(s, a, b, k);
    var new' := NewestInRows(s, b, n, k);
    assert s.tables.wals[0..a] == s.tables.wals[..a] && s.tables.wals[b..n] == s.tables.wals[b..];
    var st := StackAt(s, a, b, k);
    if st.newer.None? && st.inside.Some? && st.older.Some? {
      assert NewestHolder(s, in', k);
      assert NewestOutside(s, job, old', k);
    }
    if Disturbed(s, job, k) {
      var i :| NewestHolder(s, i, k) && Scheduling.Carries(job, s.tables.wals[i]);
      var m :| NewestOutside(s, job, m, k);
      assert Holder(s, i, k) && Holder(s, m, k);
    }
  }
}

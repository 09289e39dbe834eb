/**
 Whole runs: a key reads as the last writer left it unless a later commit disturbed it, and commits
 in order never do.
 */
module InOrder {
  import opened Types
  import opened Layers
  import opened Schema
  import opened Protocol
  import Invariant
  import Scheduling
  import Views

  /** The commit finds `k` newest in its own job and held by a WAL outside it too. */
  ghost predicate Disturbs(s: State, step: Step, k: Key) {
    Commits(s, step) && Views.Disturbed(s, s.tables.jobs[Views.Committing(s, step).0], k)
  }

  /** The step inserts a WAL that holds `k`. */
  ghost predicate Rewrites(s: State, step: Step, k: Key) {
    step.InsertWal? && k in LayerAt(s.objects, step.path)
  }

  /** No commit has disturbed `k` since the last WAL that holds it was inserted, or ever. */
  ghost predicate Undisturbed(s: State, steps: seq<Step>, k: Key)
    requires Legal(s, steps)
  {
    steps == [] ||
    var before, step := After(s, steps[..|steps| - 1]), steps[|steps| - 1];
    Rewrites(before, step, k) || (Undisturbed(s, steps[..|steps| - 1], k) && !Disturbs(before, step, k))
  }

  /** A commit takes the oldest pending job. */
  predicate TakesOldest(s: State, step: Step) {
    step.WorkCommit? ==> s.tables.jobs != [] && s.tables.jobs[0].id == step.jobId
  }

  ghost predicate CommitsInOrder(s: State, steps: seq<Step>)
    requires Legal(s, steps)
  {
    steps == [] ||
    (CommitsInOrder(s, steps[..|steps| - 1]) && TakesOldest(After(s, steps[..|steps| - 1]), steps[|steps| - 1]))
  }

  /** The newest word on `k` in everything ever written. */
  function LastWrite(s: State, k: Key): Option<Entry> {
    Newest(WalLayers(s.objects, s.history), k)
  }

  lemma SamePathsSameLayers(o: Objects, a: seq<Wal>, b: seq<Wal>)
    requires |a| == |b| && forall i :: 0 <= i < |a| ==> a[i].path == b[i].path
    ensures WalLayers(o, a) == WalLayers(o, b)
  {
    hide LayerAt;
  }

  lemma UploadChangesNothing(s: State, s': State, k: Key)
    requires PathsExist(s) && Invariant.Extends(s.objects, s'.objects)
    requires s'.tables == s.tables && s'.history == s.history
    ensures ViewEntry(s', k) == ViewEntry(s, k) && LastWrite(s', k) == LastWrite(s, k)
  {
    hide LayerAt, Newest;
    Invariant.SameRunLayers(s.objects, s'.objects, s.tables.runs);
    Invariant.SameWalLayers(s.objects, s'.objects, s.tables.wals);
    Invariant.SameWalLayers(s.objects, s'.objects, s.history);
  }

  /** A new WAL is the newest word both for readers and in the history. */
  lemma InsertIsNewest(s: State, step: Step, k: Key)
    requires step.InsertWal? && Enabled(s, step)
    ensures var layer := LayerAt(s.objects, step.path);
            && ViewEntry(Next(s, step), k) == OrElse(Get(layer, k), ViewEntry(s, k))
            && LastWrite(Next(s, step), k) == OrElse(Get(layer, k), LastWrite(s, k))
  {
    hide LayerAt, Newest;
    var o, w := s.objects, Wal(step.seqNo, New, step.path);
    Views.NewestOfOne(LayerAt(o, step.path), k);
    assert WalLayers(o, [w]) == [LayerAt(o, step.path)];
    Views.WalLayersConcat(o, s.tables.wals, [w]);
    Views.WalLayersConcat(o, s.history, [w]);
    NewestConcat(WalLayers(o, s.tables.wals), WalLayers(o, [w]), k);
    NewestConcat(WalLayers(o, s.history), WalLayers(o, [w]), k);
  }

  lemma ClaimChangesNothing(s: State, step: Step, k: Key)
    requires step.ClaimRows? && Enabled(s, step)
    ensures ViewEntry(Next(s, step), k) == ViewEntry(s, k) && LastWrite(Next(s, step), k) == LastWrite(s, k)
  {
    hide LayerAt, Newest, MarkRows, SeqNos;
    var t, rows := s.tables, SeqNos(s.claim.value);
    Invariant.MarkKeepsRows(t.wals, rows);
    SamePathsSameLayers(s.objects, MarkRows(t.wals, rows), t.wals) by {
      forall i | 0 <= i < |t.wals|
        ensures MarkRows(t.wals, rows)[i].path == t.wals[i].path
      {
        assert MarkRows(t.wals, rows)[i].(state := New) == t.wals[i].(state := New);
      }
    }
  }

  lemma CommitChangesNothing(s: State, step: Step, k: Key)
    requires Inv(s) && Commits(s, step) && !Disturbs(s, step, k)
    ensures ViewEntry(Committed(s, step), k) == ViewEntry(s, k) && LastWrite(Committed(s, step), k) == LastWrite(s, k)
  {
    hide LayerAt, Newest, Inv, Views.Disturbed, DeleteRows;
    Views.CommitEffect(s, step, k);
    assert Committed(s, step).history == s.history && Committed(s, step).objects == s.objects;
  }

  /**
   A commit that finds a key right leaves it right exactly when it does not disturb the key or
   the WAL it leaves on top, the newest one outside the job, happens to say the same.
   */
  lemma CommitIsRightExactly(s: State, step: Step, k: Key)
    requires Inv(s) && Commits(s, step) && ViewEntry(s, k) == LastWrite(s, k)
    ensures var job := s.tables.jobs[Views.Committing(s, step).0];
            ViewEntry(Committed(s, step), k) == LastWrite(Committed(s, step), k) <==>
            (Disturbs(s, step, k) ==>
               forall m :: Views.NewestOutside(s, job, m, k) ==>
                   Some(LayerAt(s.objects, s.tables.wals[m].path)[k]) == ViewEntry(s, k))
  {
    hide LayerAt, Newest, Inv, DeleteRows, ViewEntry, Views.NewestHolder, Views.NewestOutside, Scheduling.Carries;
    Views.CommitEffect(s, step, k);
    assert Committed(s, step).history == s.history && Committed(s, step).objects == s.objects;
    assert LastWrite(Committed(s, step), k) == LastWrite(s, k);
    if Disturbs(s, step, k) {
      var m :| Views.NewestOutside(s, s.tables.jobs[Views.Committing(s, step).0], m, k);
    }
  }

  lemma StepKeepsRight(s: State, step: Step, k: Key)
    requires Inv(s) && Enabled(s, step) && !Disturbs(s, step, k)
    requires ViewEntry(s, k) == LastWrite(s, k)
    ensures ViewEntry(Next(s, step), k) == LastWrite(Next(s, step), k)
  {
    hide Inv, Merged, Canonical, LayerAt, ViewEntry, LastWrite, Disturbs;
    assert PathsExist(s) by {
      InvGivesPaths(s);
    }
    match step
    case InsertWal(_, _) => InsertIsNewest(s, step, k);
    case ClaimRows => ClaimChangesNothing(s, step, k);
    case WorkCommit(_, _, _) => NextOfCommit(s, step); CommitChangesNothing(s, step, k);
    case Submit(_, _) => UploadChangesNothing(s, Next(s, step), k);
    case UploadWal(_, _, _) => UploadChangesNothing(s, Next(s, step), k);
    case Ack(_) => UploadChangesNothing(s, Next(s, step), k);
    case ReadNew(_) => UploadChangesNothing(s, Next(s, step), k);
    case SkipClaim => UploadChangesNothing(s, Next(s, step), k);
    case WorkUpload(_, _, _) => UploadChangesNothing(s, Next(s, step), k);
    case WorkFail(_, _) => UploadChangesNothing(s, Next(s, step), k);
  }

  lemma InvGivesPaths(s: State)
    requires Inv(s)
    ensures PathsExist(s)
  {
  }

  /** Whatever was shown before, a WAL that holds the key puts it right. */
  lemma RewriteIsRight(s: State, step: Step, k: Key)
    requires step.InsertWal? && Enabled(s, step) && Rewrites(s, step, k)
    ensures ViewEntry(Next(s, step), k) == LastWrite(Next(s, step), k)
  {
    hide LayerAt, ViewEntry, LastWrite, Next;
    InsertIsNewest(s, step, k);
  }

  lemma {:induction false} RunKeepsRight(setup: Setup, steps: seq<Step>, k: Key)
    requires Legal(Init(setup), steps) && Undisturbed(Init(setup), steps, k)
    ensures ViewEntry(After(Init(setup), steps), k) == LastWrite(After(Init(setup), steps), k)
  {
    hide Inv, Next, Enabled, Disturbs, Rewrites, AllReadable, ViewEntry, LastWrite;
    if steps == [] {
      NothingYet(setup, k);
    } else {
      var before, step := After(Init(setup), steps[..|steps| - 1]), steps[|steps| - 1];
      if Rewrites(before, step, k) {
        RewritesInserts(before, step, k);
        RewriteIsRight(before, step, k);
      } else {
        RunKeepsRight(setup, steps[..|steps| - 1], k);
        Invariant.RunKeeps(setup, steps[..|steps| - 1]);
        StepKeepsRight(before, step, k);
      }
    }
  }

  lemma RewritesInserts(s: State, step: Step, k: Key)
    requires Rewrites(s, step, k)
    ensures step.InsertWal?
  {
  }

  lemma NothingYet(setup: Setup, k: Key)
    ensures ViewEntry(Init(setup), k) == LastWrite(Init(setup), k) == None
  {
  }

  /**
   Jobs may commit in any order: a key no commit has disturbed since it was last inserted reads
   as the plain map says that applies every WAL ever added, tombstones included, in seq_no order.
   */
  lemma {:induction false} UndisturbedKeysAreRight(setup: Setup, steps: seq<Step>, base: Values, k: Key)
    requires Legal(Init(setup), steps) && Undisturbed(Init(setup), steps, k)
    ensures View(After(Init(setup), steps), base, k) == Get(Reference(After(Init(setup), steps), base), k)
  {
    hide Undisturbed, Newest, WalLayers, RunLayers, Execute;
    var s := After(Init(setup), steps);
    RunKeepsRight(setup, steps, k);
    ReplayIsNewest(base, WalLayers(s.objects, s.history), k);
  }

  // ---- commits in scheduling order ----

  /** The oldest job holds the oldest live WALs, so nothing outside it is older than what it moves. */
  lemma {:induction false} OldestDisturbsNothing(s: State, step: Step, k: Key)
    requires Inv(s) && Commits(s, step) && TakesOldest(s, step)
    ensures !Disturbs(s, step, k)
  {
    hide Scheduling.Partitioned, LayerAt, Scheduling.Carries, Scheduling.Claimed, Merged;
    var j := Views.Committing(s, step).0;
    assert j == 0;
    assert s.tables.jobs[..0] == [];
    assert |Scheduling.Claimed([])| == 0 by {
      NothingClaimed();
    }
    var job := s.tables.jobs[j];
    if Views.Disturbed(s, job, k) {
      var i :| Views.NewestHolder(s, i, k) && Scheduling.Carries(job, s.tables.wals[i]);
      var m :| Views.NewestOutside(s, job, m, k);
      assert Views.Holder(s, i, k) && Views.Holder(s, m, k);
      Scheduling.CarriesIsInBlock(s.tables, j, i);
      Scheduling.CarriesIsInBlock(s.tables, j, m);
    }
  }

  lemma NothingClaimed()
    ensures Scheduling.Claimed([]) == []
  {
  }

  lemma {:induction false} InOrderIsUndisturbed(setup: Setup, steps: seq<Step>, k: Key)
    requires Legal(Init(setup), steps) && CommitsInOrder(Init(setup), steps)
    ensures Undisturbed(Init(setup), steps, k)
  {
    hide Inv, Next, Enabled, TakesOldest, Views.Disturbed, Views.Committing, Rewrites;
    if steps != [] {
      var before, step := After(Init(setup), steps[..|steps| - 1]), steps[|steps| - 1];
      InOrderIsUndisturbed(setup, steps[..|steps| - 1], k);
      Invariant.RunKeeps(setup, steps[..|steps| - 1]);
      if step.WorkCommit? {
        NextOfCommit(before, step);
        OldestDisturbsNothing(before, step, k);
      }
    }
  }

  /**
   The main theorem. After any run in which jobs commit in scheduling order, searching live
   WALs, then shared runs, then the partitions answers every key as the plain map does that
   applies every WAL ever added, tombstones included, in seq_no order.
   */
  lemma {:induction false} ReadersSeeLastWriters(setup: Setup, steps: seq<Step>, base: Values, k: Key)
    requires Legal(Init(setup), steps) && CommitsInOrder(Init(setup), steps)
    ensures View(After(Init(setup), steps), base, k) == Get(Reference(After(Init(setup), steps), base), k)
  {
    InOrderIsUndisturbed(setup, steps, k);
    UndisturbedKeysAreRight(setup, steps, base, k);
  }
}

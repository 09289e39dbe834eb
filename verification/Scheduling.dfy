/**
 What a single orchestrator keeps true of the tables: the WAL table is the claimed blocks of
 the pending jobs, in scheduling order, followed by the rows nobody has claimed.
 */
module Scheduling {
  import opened Types
  import opened Schema

  /** The rows of a job as they stand in the table while the job is pending. */
  function Block(job: Job): (b: seq<Wal>)
    ensures |b| == |job.wals|
  {
    var rows := SortBySeqNo(job.wals);
    seq(|rows|, i requires 0 <= i < |rows| => rows[i].(state := Compacting))
  }

  function Claimed(jobs: seq<Job>): seq<Wal> {
    if jobs == [] then [] else Claimed(jobs[..|jobs| - 1]) + Block(jobs[|jobs| - 1])
  }

  lemma {:induction false} ClaimedConcat(a: seq<Job>, b: seq<Job>)
    ensures Claimed(a + b) == Claimed(a) + Claimed(b)
  {
    hide Block;
    if b == [] {
      assert a + b == a;
    } else {
      assert (a + b)[..|a + b| - 1] == a + b[..|b| - 1];
      ClaimedConcat(a, b[..|b| - 1]);
    }
  }

  lemma ClaimedOne(job: Job)
    ensures Claimed([job]) == Block(job)
  {
    hide SortBySeqNo;
    assert [job][..0] == [];
    assert Claimed([job]) == [] + Block(job);
  }

  /** The claimed rows before, of, and after job `j`. */
  lemma ClaimedSplit(jobs: seq<Job>, j: nat)
    requires j < |jobs|
    ensures Claimed(jobs) == Claimed(jobs[..j]) + Block(jobs[j]) + Claimed(jobs[j + 1..])
  {
    hide SortBySeqNo, Block, Claimed;
    Around(jobs, j);
    ClaimedConcat(jobs[..j] + [jobs[j]], jobs[j + 1..]);
    ClaimedConcat(jobs[..j], [jobs[j]]);
    ClaimedOne(jobs[j]);
  }

  lemma Around<T>(s: seq<T>, j: nat)
    requires j < |s|
    ensures s == s[..j] + [s[j]] + s[j + 1..]
  {
  }

  lemma Stretch<T>(s: seq<T>, a: seq<T>, b: seq<T>, c: seq<T>)
    requires a + b + c <= s
    ensures s[..|a|] == a && s[|a|..|a| + |b|] == b && s[|a| + |b|..|a| + |b| + |c|] == c
  {
    var n := |a + b + c|;
    assert s[..n] == a + b + c;
    assert s[..|a|] == s[..n][..|a|];
    assert s[|a|..|a| + |b|] == s[..n][|a|..|a| + |b|];
    assert s[|a| + |b|..n] == s[..n][|a| + |b|..];
  }

  predicate JobsInOrder(jobs: seq<Job>, next: int) {
    && (forall i, j :: 0 <= i < j < |jobs| ==> jobs[i].id < jobs[j].id)
    && (forall i :: 0 <= i < |jobs| ==> jobs[i].id < next)
  }

  predicate RunsInOrder(runs: seq<Run>, next: int) {
    && (forall i, j :: 0 <= i < j < |runs| ==> runs[i].seqNo < runs[j].seqNo)
    && (forall i :: 0 <= i < |runs| ==> runs[i].seqNo < next)
  }

  /** `rows` is the claimed rows of `jobs` followed by unclaimed ones. */
  predicate Partitioned(rows: seq<Wal>, jobs: seq<Job>) {
    && Claimed(jobs) <= rows
    && (forall i :: 0 <= i < |Claimed(jobs)| ==> rows[i].state == Compacting)
    && (forall i :: |Claimed(jobs)| <= i < |rows| ==> rows[i].state == New)
  }

  predicate Inv(t: Tables) {
    && Ascending(t.wals)
    && (forall w :: w in t.wals ==> w.seqNo < t.nextWal)
    && Partitioned(t.wals, t.jobs)
    && JobsInOrder(t.jobs, t.nextJob)
    && RunsInOrder(t.runs, t.nextRun)
  }

  /** `rows` lists the first unclaimed rows, in any order; newer rows may have arrived since. */
  predicate ClaimReady(t: Tables, rows: seq<Wal>) {
    && |Claimed(t.jobs)| + |rows| <= |t.wals|
    && multiset(rows) == multiset(t.wals[|Claimed(t.jobs)|..|Claimed(t.jobs)| + |rows|])
  }

  // ---- a job and the stretch of the table it claims ----

  /** `rows`, in some order, is the stretch of `table` from `a` to `b`, up to the state of the rows. */
  predicate IsStretch(rows: seq<Wal>, table: seq<Wal>, a: nat, b: nat) {
    && a <= b <= |table| && |rows| == b - a
    && (forall i :: a <= i < b ==> SortBySeqNo(rows)[i - a].seqNo == table[i].seqNo)
    && (forall i :: a <= i < b ==> SortBySeqNo(rows)[i - a].path == table[i].path)
  }

  lemma StretchNames(rows: seq<Wal>, table: seq<Wal>, a: nat, b: nat, s: int)
    requires IsStretch(rows, table, a, b)
    ensures s in SeqNos(rows) <==> exists i :: a <= i < b && table[i].seqNo == s
  {
    hide SortBySeqNo;
    var asc := SortBySeqNo(rows);
    SameSeqNos(rows, asc, s);
    if s in SeqNos(rows) {
      var j :| 0 <= j < |asc| && SeqNos(asc)[j] == s;
      assert table[a + j].seqNo == asc[a + j - a].seqNo;
    }
    if i :| a <= i < b && table[i].seqNo == s {
      assert SeqNos(asc)[i - a] == s;
    }
  }

  /** Naming the rows of a stretch: the validation passes unless the stretch is empty, and hits exactly it. */
  lemma StretchValid(rows: seq<Wal>, table: seq<Wal>, a: nat, b: nat, st: WalState)
    requires IsStretch(rows, table, a, b) && Ascending(table)
    requires forall i :: a <= i < b ==> table[i].state == st
    ensures Valid(table, SeqNos(rows), st) <==> rows != []
    ensures forall i :: 0 <= i < |table| ==> (table[i].seqNo in SeqNos(rows) <==> a <= i < b)
  {
    hide SortBySeqNo, Valid;
    var asc := SortBySeqNo(rows);
    forall i, j | 0 <= i < j < |asc|
      ensures asc[i].seqNo < asc[j].seqNo
    {
      assert asc[a + i - a].seqNo == table[a + i].seqNo && asc[a + j - a].seqNo == table[a + j].seqNo;
    }
    DistinctOfAscending(rows, asc);
    forall s {
      StretchNames(rows, table, a, b, s);
    }
    ValidMeans(table, SeqNos(rows), st);
    assert rows == [] <==> SeqNos(rows) == [];
  }

  /** A job's block is a stretch of the table, after the blocks of the jobs before it. */
  lemma BlockAt(t: Tables, j: nat)
    requires Partitioned(t.wals, t.jobs) && j < |t.jobs|
    ensures var a := |Claimed(t.jobs[..j])|;
            a + |t.jobs[j].wals| <= |Claimed(t.jobs)| <= |t.wals| && t.wals[a..a + |t.jobs[j].wals|] == Block(t.jobs[j])
  {
    hide SortBySeqNo, Block, Claimed;
    ClaimedSplit(t.jobs, j);
    Stretch(t.wals, Claimed(t.jobs[..j]), Block(t.jobs[j]), Claimed(t.jobs[j + 1..]));
  }

  lemma JobIsStretch(t: Tables, j: nat)
    requires Partitioned(t.wals, t.jobs) && j < |t.jobs|
    ensures var a := |Claimed(t.jobs[..j])|; IsStretch(t.jobs[j].wals, t.wals, a, a + |t.jobs[j].wals|)
    ensures var a := |Claimed(t.jobs[..j])|; forall i :: a <= i < a + |t.jobs[j].wals| ==> t.wals[i].state == Compacting
  {
    hide SortBySeqNo, Claimed;
    BlockAt(t, j);
    var a, n := |Claimed(t.jobs[..j])|, |t.jobs[j].wals|;
    forall i | a <= i < a + n
      ensures t.wals[i] == Block(t.jobs[j])[i - a]
    {
      assert t.wals[a..a + n][i - a] == t.wals[i];
    }
  }

  // ---- what each step does ----

  lemma {:induction false} AddWalKeeps(t: Tables, path: Path, seqNo: int)
    requires Inv(t) && seqNo >= t.nextWal
    ensures Inv(AddWal(t, path, seqNo))
    ensures forall rows :: ClaimReady(t, rows) ==> ClaimReady(AddWal(t, path, seqNo), rows)
  {
    hide Claimed;
    var t' := AddWal(t, path, seqNo);
    var a := |Claimed(t.jobs)|;
    forall rows | ClaimReady(t, rows)
      ensures ClaimReady(t', rows)
    {
      assert t'.wals[a..a + |rows|] == t.wals[a..a + |rows|];
    }
  }

  lemma MarkStretch(table: seq<Wal>, seqNos: seq<int>, a: nat, b: nat, marked: seq<Wal>)
    requires a <= b <= |table| && |marked| == b - a
    requires forall i :: 0 <= i < |table| ==> (table[i].seqNo in seqNos <==> a <= i < b)
    requires forall i :: a <= i < b ==> table[i].state == New && marked[i - a] == table[i].(state := Compacting)
    ensures MarkEach(table, seqNos) == table[..a] + marked + table[b..]
  {
  }

  lemma {:induction false} SliceIsStretch(rows: seq<Wal>, table: seq<Wal>, a: nat)
    requires Ascending(table) && a + |rows| <= |table|
    requires multiset(rows) == multiset(table[a..a + |rows|])
    ensures SortBySeqNo(rows) == table[a..a + |rows|] && IsStretch(rows, table, a, a + |rows|)
  {
    hide SortBySeqNo, IsStretch;
    var slice := table[a..a + |rows|];
    assert Ascending(slice);
    SortIs(rows, slice);
    StretchIntro(rows, table, a);
  }

  lemma StretchIntro(rows: seq<Wal>, table: seq<Wal>, a: nat)
    requires a + |rows| <= |table| && SortBySeqNo(rows) == table[a..a + |rows|]
    ensures IsStretch(rows, table, a, a + |rows|)
  {
    hide SortBySeqNo;
  }

  lemma BlockOf(table: seq<Wal>, a: nat, job: Job)
    requires a + |job.wals| <= |table| && SortBySeqNo(job.wals) == table[a..a + |job.wals|]
    ensures forall i :: 0 <= i < |job.wals| ==> Block(job)[i] == table[a + i].(state := Compacting)
  {
    hide SortBySeqNo;
  }

  lemma {:induction false} MarkedIsBlock(table: seq<Wal>, a: nat, job: Job)
    requires Ascending(table) && a + |job.wals| <= |table|
    requires multiset(job.wals) == multiset(table[a..a + |job.wals|])
    requires forall i :: a <= i < a + |job.wals| ==> table[i].state == New
    ensures Valid(table, SeqNos(job.wals), New) <==> job.wals != []
    ensures MarkEach(table, SeqNos(job.wals)) == table[..a] + Block(job) + table[a + |job.wals|..]
  {
    hide SortBySeqNo, Valid, IsStretch, MarkEach, Block, Ascending;
    SliceIsStretch(job.wals, table, a);
    StretchValid(job.wals, table, a, a + |job.wals|, New);
    BlockOf(table, a, job);
    forall i | a <= i < a + |job.wals|
      ensures Block(job)[i - a] == table[i].(state := Compacting)
    {
      assert Block(job)[i - a] == table[a + (i - a)].(state := Compacting);
    }
    MarkStretch(table, SeqNos(job.wals), a, a + |job.wals|, Block(job));
  }

  lemma ClaimedRows(t: Tables, rows: seq<Wal>)
    requires Inv(t) && ClaimReady(t, rows)
    ensures Valid(t.wals, SeqNos(rows), New) <==> rows != []
    ensures var a, b, job := |Claimed(t.jobs)|, |Claimed(t.jobs)| + |rows|, Job(t.nextJob, rows);
            MarkRows(t.wals, SeqNos(rows)) == t.wals[..a] + Block(job) + t.wals[b..]
  {
    hide SortBySeqNo, Claimed, Valid, MarkEach, Block, Ascending, Partitioned;
    var a, b, job := |Claimed(t.jobs)|, |Claimed(t.jobs)| + |rows|, Job(t.nextJob, rows);
    PartitionedElim(t.wals, t.jobs);
    MarkedIsBlock(t.wals, a, job);
    if rows == [] {
      EmptyCut(t.wals, a, Block(job));
    }
  }

  lemma EmptyCut<T>(s: seq<T>, a: nat, none: seq<T>)
    requires a <= |s| && none == []
    ensures s == s[..a] + none + s[a..]
  {
  }

  /** Claiming what was read: the mark succeeds (unless nothing was read) and covers exactly those rows. */
  lemma ClaimKeeps(t: Tables, rows: seq<Wal>)
    requires Inv(t) && ClaimReady(t, rows)
    ensures Valid(t.wals, SeqNos(rows), New) <==> rows != []
    ensures var a, b, job := |Claimed(t.jobs)|, |Claimed(t.jobs)| + |rows|, Job(t.nextJob, rows);
            Claim(t, rows).wals == t.wals[..a] + Block(job) + t.wals[b..]
    ensures Inv(Claim(t, rows))
  {
    hide SortBySeqNo, Claimed, Valid, IsStretch, MarkRows, Block, Partitioned;
    ClaimedRows(t, rows);
    ClaimPartitions(t, rows);
  }

  lemma ClaimPartitions(t: Tables, rows: seq<Wal>)
    requires Ascending(t.wals) && (forall w :: w in t.wals ==> w.seqNo < t.nextWal)
    requires Partitioned(t.wals, t.jobs) && ClaimReady(t, rows)
    ensures var a, b, job := |Claimed(t.jobs)|, |Claimed(t.jobs)| + |rows|, Job(t.nextJob, rows);
            var wals := t.wals[..a] + Block(job) + t.wals[b..];
            Ascending(wals) && (forall w :: w in wals ==> w.seqNo < t.nextWal) && Partitioned(wals, t.jobs + [job])
  {
    hide SortBySeqNo, Claimed, IsStretch, Partitioned, Block, Ascending;
    var a, b, job := |Claimed(t.jobs)|, |Claimed(t.jobs)| + |rows|, Job(t.nextJob, rows);
    SliceIsStretch(rows, t.wals, a);
    BlockOf(t.wals, a, job);
    ClaimedAppend(t.jobs, job);
    SameKeysAscending(t.wals, a, b, Block(job), t.nextWal);
    PartitionedElim(t.wals, t.jobs);
    PartitionedIntro(t.wals[..a] + Block(job) + t.wals[b..], t.jobs + [job], t.wals[..a], Block(job), t.wals[b..]);
  }

  lemma PartitionedElim(table: seq<Wal>, jobs: seq<Job>)
    requires Partitioned(table, jobs)
    ensures |Claimed(jobs)| <= |table| && table[..|Claimed(jobs)|] == Claimed(jobs)
    ensures forall i :: 0 <= i < |Claimed(jobs)| ==> table[i].state == Compacting
    ensures forall i :: |Claimed(jobs)| <= i < |table| ==> table[i].state == New
  {
    hide Claimed;
  }

  /** Replacing a stretch by rows with the same seq_nos keeps the table in order. */
  lemma SameKeysAscending(table: seq<Wal>, a: nat, b: nat, block: seq<Wal>, next: int)
    requires a <= b <= |table| && |block| == b - a && Ascending(table)
    requires forall i :: 0 <= i < |block| ==> block[i].seqNo == table[a + i].seqNo
    requires forall w :: w in table ==> w.seqNo < next
    ensures Ascending(table[..a] + block + table[b..])
    ensures forall w :: w in table[..a] + block + table[b..] ==> w.seqNo < next
  {
    hide Ascending;
    var r := table[..a] + block + table[b..];
    forall i | 0 <= i < |r|
      ensures r[i].seqNo == table[i].seqNo
    {
      SameKeyAt(table, a, b, block, i);
    }
    SameKeysOrdered(table, r);
    forall w | w in r
      ensures w.seqNo < next
    {
      var i :| 0 <= i < |r| && r[i] == w;
      assert table[i] in table;
    }
  }

  lemma SameKeyAt(table: seq<Wal>, a: nat, b: nat, block: seq<Wal>, i: nat)
    requires a <= b <= |table| && |block| == b - a && i < |table|
    requires forall i :: 0 <= i < |block| ==> block[i].seqNo == table[a + i].seqNo
    ensures (table[..a] + block + table[b..])[i].seqNo == table[i].seqNo
  {
    if a <= i < b {
      assert block[i - a].seqNo == table[a + (i - a)].seqNo;
    }
  }

  lemma SameKeysOrdered(table: seq<Wal>, r: seq<Wal>)
    requires Ascending(table) && |r| == |table|
    requires forall i :: 0 <= i < |r| ==> r[i].seqNo == table[i].seqNo
    ensures Ascending(r)
  {
  }

  lemma ClaimedAppend(jobs: seq<Job>, job: Job)
    ensures Claimed(jobs + [job]) == Claimed(jobs) + Block(job)
  {
    hide SortBySeqNo, Block, Claimed;
    ClaimedConcat(jobs, [job]);
    ClaimedOne(job);
  }

  lemma PartitionedIntro(table: seq<Wal>, jobs: seq<Job>, before: seq<Wal>, block: seq<Wal>, after: seq<Wal>)
    requires table == before + block + after && Claimed(jobs) == before + block
    requires forall i :: 0 <= i < |before| ==> before[i].state == Compacting
    requires forall i :: 0 <= i < |block| ==> block[i].state == Compacting
    requires forall i :: 0 <= i < |after| ==> after[i].state == New
    ensures Partitioned(table, jobs)
  {
    hide Claimed;
  }

  /** Committing job `j`: the delete succeeds (unless the job is empty) and removes exactly the job's stretch. */
  lemma CommitKeeps(t: Tables, j: nat, path: Path, runNo: int)
    requires Inv(t) && j < |t.jobs| && runNo >= t.nextRun
    ensures var a, b := |Claimed(t.jobs[..j])|, |Claimed(t.jobs[..j])| + |t.jobs[j].wals|;
            && b <= |Claimed(t.jobs)| && IsStretch(t.jobs[j].wals, t.wals, a, b)
            && Commit(t, j, path, runNo).wals == t.wals[..a] + t.wals[b..]
    ensures Valid(t.wals, SeqNos(t.jobs[j].wals), Compacting) <==> t.jobs[j].wals != []
    ensures Inv(Commit(t, j, path, runNo))
    ensures |Claimed(Commit(t, j, path, runNo).jobs)| == |Claimed(t.jobs)| - |t.jobs[j].wals|
  {
    hide SortBySeqNo, Claimed, Valid, IsStretch, DeleteRows, Block, Partitioned, Ascending, JobsInOrder;
    var rows := t.jobs[j].wals;
    var a, b := |Claimed(t.jobs[..j])|, |Claimed(t.jobs[..j])| + |rows|;
    CommitRows(t, j);
    CommitPartitioned(t, j);
    CutAscending(t.wals, a, b);
    OneJobFewer(t.jobs, j, t.nextJob);
  }

  lemma CommitRows(t: Tables, j: nat)
    requires Ascending(t.wals) && Partitioned(t.wals, t.jobs) && j < |t.jobs|
    ensures var rows, a := t.jobs[j].wals, |Claimed(t.jobs[..j])|;
            && a + |rows| <= |Claimed(t.jobs)| <= |t.wals| && IsStretch(rows, t.wals, a, a + |rows|)
            && (Valid(t.wals, SeqNos(rows), Compacting) <==> rows != [])
            && DeleteRows(t.wals, SeqNos(rows)) == t.wals[..a] + t.wals[a + |rows|..]
  {
    hide SortBySeqNo, Claimed, Valid, IsStretch, DeleteEach, Block, Partitioned, Ascending;
    var rows, a := t.jobs[j].wals, |Claimed(t.jobs[..j])|;
    BlockAt(t, j);
    JobIsStretch(t, j);
    StretchValid(rows, t.wals, a, a + |rows|, Compacting);
    DeleteStretch(t.wals, SeqNos(rows), a, a + |rows|);
    if rows == [] {
      assert t.wals == t.wals[..a] + t.wals[a..];
    }
  }

  lemma ClaimedFits(t: Tables)
    requires Inv(t)
    ensures |Claimed(t.jobs)| <= |t.wals|
  {
    hide Claimed;
  }

  lemma CutAscending(rows: seq<Wal>, a: nat, b: nat)
    requires a <= b <= |rows| && Ascending(rows)
    ensures Ascending(rows[..a] + rows[b..])
    ensures forall w :: w in rows[..a] + rows[b..] ==> w in rows
  {
  }

  lemma OneJobFewer(jobs: seq<Job>, j: nat, next: int)
    requires j < |jobs| && JobsInOrder(jobs, next)
    ensures JobsInOrder(jobs[..j] + jobs[j + 1..], next)
  {
  }

  lemma CommitPartitioned(t: Tables, j: nat)
    requires Partitioned(t.wals, t.jobs) && j < |t.jobs|
    ensures var a, b := |Claimed(t.jobs[..j])|, |Claimed(t.jobs[..j])| + |t.jobs[j].wals|;
            && b <= |t.wals|
            && Partitioned(t.wals[..a] + t.wals[b..], t.jobs[..j] + t.jobs[j + 1..])
            && |Claimed(t.jobs[..j] + t.jobs[j + 1..])| == |Claimed(t.jobs)| - |t.jobs[j].wals|
  {
    hide SortBySeqNo, Block, Claimed;
    var pre, block, post := Claimed(t.jobs[..j]), Block(t.jobs[j]), Claimed(t.jobs[j + 1..]);
    ClaimedSplit(t.jobs, j);
    ClaimedConcat(t.jobs[..j], t.jobs[j + 1..]);
    var n := |Claimed(t.jobs)|;
    var b := |pre| + |block|;
    Stretch(t.wals, pre, block, post);
    assert t.wals[..|pre|] + t.wals[b..] == pre + post + t.wals[n..];
    forall i | 0 <= i < |post|
      ensures post[i].state == Compacting
    {
      assert post[i] == t.wals[b + i];
    }
    PartitionedIntro(t.wals[..|pre|] + t.wals[b..], t.jobs[..j] + t.jobs[j + 1..], pre, post, t.wals[n..]);
  }

  /** A claim read before the commit of another job is still good after it. */
  lemma CommitKeepsClaim(t: Tables, j: nat, path: Path, runNo: int, rows: seq<Wal>)
    requires Inv(t) && j < |t.jobs| && runNo >= t.nextRun && ClaimReady(t, rows)
    ensures ClaimReady(Commit(t, j, path, runNo), rows)
  {
    hide SortBySeqNo, Claimed, Valid, IsStretch, DeleteRows, Inv, SeqNos, Partitioned, Block, Commit;
    CommitKeeps(t, j, path, runNo);
    var a, n, c := |Claimed(t.jobs[..j])|, |t.jobs[j].wals|, |Claimed(t.jobs)|;
    AfterCut(t.wals, a, n, c, |rows|);
  }

  lemma AfterCut<T>(s: seq<T>, a: nat, n: nat, c: nat, k: nat)
    requires a + n <= c && c + k <= |s|
    ensures (s[..a] + s[a + n..])[c - n..c - n + k] == s[c..c + k]
  {
  }

  lemma DeleteStretch(rows: seq<Wal>, seqNos: seq<int>, a: nat, b: nat)
    requires a <= b <= |rows|
    requires forall i :: 0 <= i < |rows| ==> (rows[i].seqNo in seqNos <==> a <= i < b)
    requires forall i :: a <= i < b ==> rows[i].state == Compacting
    ensures DeleteEach(rows, seqNos) == rows[..a] + rows[b..]
  {
    hide DeleteEach;
    assert rows == rows[..a] + rows[a..b] + rows[b..];
    DeleteConcat(rows[..a] + rows[a..b], rows[b..], seqNos);
    DeleteConcat(rows[..a], rows[a..b], seqNos);
    DeleteNothing(rows[..a], seqNos);
    DeleteEverything(rows[a..b], seqNos);
    DeleteNothing(rows[b..], seqNos);
  }

  // ---- the invariant in the protocol's own words ----

  /** Row `w` of the table is one of the rows the job carries. */
  predicate Carries(job: Job, w: Wal) {
    exists i :: 0 <= i < |job.wals| && job.wals[i].seqNo == w.seqNo && job.wals[i].path == w.path
  }

  lemma CarriesIsInBlock(t: Tables, j: nat, i: nat)
    requires Inv(t) && j < |t.jobs| && i < |t.wals|
    ensures Carries(t.jobs[j], t.wals[i]) <==>
            |Claimed(t.jobs[..j])| <= i < |Claimed(t.jobs[..j])| + |t.jobs[j].wals|
  {
    hide SortBySeqNo, Claimed;
    JobIsStretch(t, j);
    var a, rows, w := |Claimed(t.jobs[..j])|, t.jobs[j].wals, t.wals[i];
    if Carries(t.jobs[j], w) {
      var k :| 0 <= k < |rows| && rows[k].seqNo == w.seqNo && rows[k].path == w.path;
      assert SeqNos(rows)[k] == w.seqNo;
      StretchNames(rows, t.wals, a, a + |rows|, w.seqNo);
    }
    if a <= i < a + |rows| {
      assert SortBySeqNo(rows)[i - a] in multiset(SortBySeqNo(rows));
      var k :| 0 <= k < |rows| && rows[k] == SortBySeqNo(rows)[i - a];
    }
  }

  /** Blocks are laid out one after the other. */
  lemma BlocksInOrder(t: Tables, i: nat, j: nat)
    requires Partitioned(t.wals, t.jobs) && i < j <= |t.jobs|
    ensures |Claimed(t.jobs[..i])| + |t.jobs[i].wals| <= |Claimed(t.jobs[..j])|
  {
    assert t.jobs[..j] == t.jobs[..i] + ([t.jobs[i]] + t.jobs[i + 1..j]);
    ClaimedConcat(t.jobs[..i], [t.jobs[i]] + t.jobs[i + 1..j]);
    ClaimedConcat([t.jobs[i]], t.jobs[i + 1..j]);
    assert [t.jobs[i]][..0] == [];
  }

  lemma {:induction false} OwnerOf(t: Tables, n: nat, i: nat) returns (j: nat)
    requires Partitioned(t.wals, t.jobs) && n <= |t.jobs| && i < |Claimed(t.jobs[..n])|
    ensures j < n && |Claimed(t.jobs[..j])| <= i < |Claimed(t.jobs[..j])| + |t.jobs[j].wals|
  {
    assert n != 0 by {
      assert t.jobs[..0] == [];
    }
    assert t.jobs[..n][..n - 1] == t.jobs[..n - 1];
    if i < |Claimed(t.jobs[..n - 1])| {
      j := OwnerOf(t, n - 1, i);
    } else {
      j := n - 1;
    }
  }

  /**
   The COMPACTING rows are exactly the disjoint union of the pending jobs' rows, every row a
   job carries is still there, and a later job's seq_nos exceed every earlier job's.
   */
  lemma CompactingRowsArePendingJobs(t: Tables)
    requires Inv(t)
    ensures forall i :: 0 <= i < |t.wals| ==>
              (t.wals[i].state == Compacting <==> exists j :: 0 <= j < |t.jobs| && Carries(t.jobs[j], t.wals[i]))
    ensures forall i, j, k | 0 <= i < |t.wals| && 0 <= j < |t.jobs| && 0 <= k < |t.jobs| ::
              Carries(t.jobs[j], t.wals[i]) && Carries(t.jobs[k], t.wals[i]) ==> j == k
    ensures forall i, k, j, l | 0 <= i < k < |t.jobs| && 0 <= j < |t.jobs[i].wals| && 0 <= l < |t.jobs[k].wals| ::
              t.jobs[i].wals[j].seqNo < t.jobs[k].wals[l].seqNo
    ensures forall j, k :: 0 <= j < |t.jobs| && 0 <= k < |t.jobs[j].wals| ==>
              Holds(t.wals, t.jobs[j].wals[k].seqNo, Compacting)
  {
    hide Inv, Claimed, Carries, Holds;
    forall i | 0 <= i < |t.wals|
      ensures t.wals[i].state == Compacting <==> exists j :: 0 <= j < |t.jobs| && Carries(t.jobs[j], t.wals[i])
    {
      CompactingIsCarried(t, i);
    }
    forall i, j, k | 0 <= i < |t.wals| && 0 <= j < |t.jobs| && 0 <= k < |t.jobs| && Carries(t.jobs[j], t.wals[i])
        && Carries(t.jobs[k], t.wals[i])
      ensures j == k
    {
      CarriedOnce(t, i, j, k);
    }
    forall i, k, j, l | 0 <= i < k < |t.jobs| && 0 <= j < |t.jobs[i].wals| && 0 <= l < |t.jobs[k].wals|
      ensures t.jobs[i].wals[j].seqNo < t.jobs[k].wals[l].seqNo
    {
      LaterJobIsNewer(t, i, k, j, l);
    }
    forall j, k | 0 <= j < |t.jobs| && 0 <= k < |t.jobs[j].wals|
      ensures Holds(t.wals, t.jobs[j].wals[k].seqNo, Compacting)
    {
      CarriedIsThere(t, j, k);
    }
  }

  lemma CompactingIsCarried(t: Tables, i: nat)
    requires Inv(t) && i < |t.wals|
    ensures t.wals[i].state == Compacting <==> exists j :: 0 <= j < |t.jobs| && Carries(t.jobs[j], t.wals[i])
  {
    hide Claimed, Carries, Block;
    assert t.jobs[..|t.jobs|] == t.jobs;
    if t.wals[i].state == Compacting {
      var j := OwnerOf(t, |t.jobs|, i);
      CarriesIsInBlock(t, j, i);
    }
    forall j | 0 <= j < |t.jobs| && Carries(t.jobs[j], t.wals[i])
      ensures t.wals[i].state == Compacting
    {
      CarriesIsInBlock(t, j, i);
      BlockAt(t, j);
    }
  }

  lemma CarriedOnce(t: Tables, i: nat, j: nat, k: nat)
    requires Inv(t) && i < |t.wals| && j < |t.jobs| && k < |t.jobs|
    requires Carries(t.jobs[j], t.wals[i]) && Carries(t.jobs[k], t.wals[i])
    ensures j == k
  {
    hide Claimed, Carries;
    CarriesIsInBlock(t, j, i);
    CarriesIsInBlock(t, k, i);
    if j < k {
      BlocksInOrder(t, j, k);
    } else if k < j {
      BlocksInOrder(t, k, j);
    }
  }

  lemma LaterJobIsNewer(t: Tables, i: nat, k: nat, j: nat, l: nat)
    requires Inv(t) && i < k < |t.jobs| && j < |t.jobs[i].wals| && l < |t.jobs[k].wals|
    ensures t.jobs[i].wals[j].seqNo < t.jobs[k].wals[l].seqNo
  {
    hide Claimed, Partitioned;
    var m := RowInTable(t, i, j);
    var n := RowInTable(t, k, l);
    BlocksInOrder(t, i, k);
  }

  lemma CarriedIsThere(t: Tables, j: nat, k: nat)
    requires Inv(t) && j < |t.jobs| && k < |t.jobs[j].wals|
    ensures Holds(t.wals, t.jobs[j].wals[k].seqNo, Compacting)
  {
    hide Inv;
    var m := RowInTable(t, j, k);
  }

  /**
   Why one orchestrator: another one claiming the same rows again is told so only by the answer
   of the mark, which is false; it schedules a second job for them, and the tables are no longer
   well scheduled.
   */
  lemma {:induction false} SecondClaimGoesWrong(t: Tables, rows: seq<Wal>)
    requires Inv(t) && ClaimReady(t, rows) && rows != []
    ensures var once := Claim(t, rows);
            var twice := Claim(once, rows);
            && !Valid(once.wals, SeqNos(rows), New)
            && twice.wals == once.wals && twice.jobs == once.jobs + [Job(once.nextJob, rows)]
            && !Inv(twice)
  {
    hide Inv, ClaimReady, Valid, Claimed, Block;
    var once := Claim(t, rows);
    var n, twice := |t.jobs|, Claim(once, rows);
    ClaimKeeps(t, rows);
    CarriedIsThere(once, n, 0);
    InvAscending(once);
    if Valid(once.wals, SeqNos(rows), New) {
      ValidMeans(once.wals, SeqNos(rows), New);
      assert SeqNos(rows)[0] in SeqNos(rows);
      OneState(once.wals, rows[0].seqNo);
    }
    if Inv(twice) {
      LaterJobIsNewer(twice, n, n + 1, 0, 0);
    }
  }

  /** Marking changes nothing but states. */
  lemma MarkKeepsRows(rows: seq<Wal>, seqNos: seq<int>)
    ensures |MarkRows(rows, seqNos)| == |rows|
    ensures forall i :: 0 <= i < |rows| ==> rows[i].seqNo == MarkRows(rows, seqNos)[i].seqNo
    ensures forall i :: 0 <= i < |rows| ==> rows[i].path == MarkRows(rows, seqNos)[i].path
  {
    hide Valid;
  }

  /**
   Exactly when it goes wrong: claiming NEW rows read at any earlier moment leaves the tables well
   scheduled if and only if they are still the first unclaimed rows.
   */
  lemma ClaimKeepsExactly(t: Tables, rows: seq<Wal>)
    requires Inv(t) && forall w :: w in rows ==> w.state == New
    ensures Inv(Claim(t, rows)) <==> ClaimReady(t, rows)
  {
    hide Inv, Claim, ClaimReady;
    if ClaimReady(t, rows) {
      ClaimKeeps(t, rows);
    }
    if Inv(Claim(t, rows)) {
      ClaimedWereReady(t, rows);
    }
  }

  lemma ClaimedWereReady(t: Tables, rows: seq<Wal>)
    requires Inv(t) && Inv(Claim(t, rows)) && forall w :: w in rows ==> w.state == New
    ensures ClaimReady(t, rows)
  {
    hide SortBySeqNo, Claimed, MarkRows, Block, Partitioned, Ascending, JobsInOrder, RunsInOrder;
    var a, job, after := |Claimed(t.jobs)|, Job(t.nextJob, rows), Claim(t, rows).wals;
    MarkKeepsRows(t.wals, SeqNos(rows));
    PartitionedElim(t.wals, t.jobs);
    LastBlock(after, t.jobs, job);
    UnmarkedRows(t.wals, after, a, job);
  }

  lemma LastBlock(table: seq<Wal>, jobs: seq<Job>, job: Job)
    requires Partitioned(table, jobs + [job])
    ensures var a := |Claimed(jobs)|; a + |job.wals| <= |table| && table[a..a + |job.wals|] == Block(job)
  {
    hide SortBySeqNo, Claimed, Block;
    ClaimedAppend(jobs, job);
    Stretch(table, Claimed(jobs), Block(job), []);
  }

  /** Rows that were NEW and now stand in the table as a job's block were that job's rows. */
  lemma UnmarkedRows(table: seq<Wal>, after: seq<Wal>, a: nat, job: Job)
    requires a + |job.wals| <= |table| == |after| && after[a..a + |job.wals|] == Block(job)
    requires forall i :: 0 <= i < |table| ==> table[i].seqNo == after[i].seqNo
    requires forall i :: 0 <= i < |table| ==> table[i].path == after[i].path
    requires forall i :: a <= i < |table| ==> table[i].state == New
    requires forall w :: w in job.wals ==> w.state == New
    ensures table[a..a + |job.wals|] == SortBySeqNo(job.wals)
    ensures multiset(job.wals) == multiset(table[a..a + |job.wals|])
  {
    hide SortBySeqNo, Block;
    var asc := SortBySeqNo(job.wals);
    forall i | 0 <= i < |job.wals|
      ensures table[a + i] == asc[i]
    {
      assert asc[i] in multiset(job.wals);
      assert after[a..a + |job.wals|][i] == after[a + i];
      BlockRow(job, i);
    }
    assert table[a..a + |job.wals|] == asc;
  }

  lemma BlockRow(job: Job, i: nat)
    requires i < |job.wals|
    ensures Block(job)[i] == SortBySeqNo(job.wals)[i].(state := Compacting)
  {
  }

  lemma InvAscending(t: Tables)
    requires Inv(t)
    ensures Ascending(t.wals)
  {
  }

  lemma InvPartitioned(t: Tables)
    requires Inv(t)
    ensures Partitioned(t.wals, t.jobs)
  {
  }

  lemma OneState(rows: seq<Wal>, seqNo: int)
    requires Ascending(rows) && Holds(rows, seqNo, Compacting)
    ensures !Holds(rows, seqNo, New)
  {
    var i :| 0 <= i < |rows| && rows[i].seqNo == seqNo && rows[i].state == Compacting;
    forall j | 0 <= j < |rows| && rows[j].seqNo == seqNo
      ensures rows[j].state == Compacting
    {
      assert i == j;
    }
  }

  lemma RowInTable(t: Tables, j: nat, k: nat) returns (m: nat)
    requires Inv(t) && j < |t.jobs| && k < |t.jobs[j].wals|
    ensures |Claimed(t.jobs[..j])| <= m < |Claimed(t.jobs[..j])| + |t.jobs[j].wals| <= |t.wals|
    ensures t.wals[m].seqNo == t.jobs[j].wals[k].seqNo && t.wals[m].path == t.jobs[j].wals[k].path
    ensures t.wals[m].state == Compacting
  {
    hide SortBySeqNo, Claimed;
    JobIsStretch(t, j);
    var a, rows := |Claimed(t.jobs[..j])|, t.jobs[j].wals;
    var asc := SortBySeqNo(rows);
    assert rows[k] in multiset(asc);
    var i :| 0 <= i < |asc| && asc[i] == rows[k];
    m := a + i;
    assert asc[m - a] == rows[k];
  }
}

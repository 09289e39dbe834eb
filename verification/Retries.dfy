/** A job that is run again rebuilds the object it built before. */
module Retries {
  import opened Types
  import opened Layers
  import opened Schema
  import opened Protocol
  import Invariant
  import Scheduling
  import Snapshots
  import SSTable

  /** Jobs leave and new ones are numbered upwards; none changes or comes back. */
  predicate JobsKept(t: Tables, t': Tables) {
    && t.nextJob <= t'.nextJob
    && forall job :: job in t'.jobs && job.id < t.nextJob ==> job in t.jobs
  }

  lemma StepKeepsJobs(s: State, step: Step)
    requires Enabled(s, step)
    ensures JobsKept(s.tables, Next(s, step).tables)
  {
    hide MarkRows, DeleteRows, Canonical, Merged, SelectNew, BatchRecords, SSTable.Encode;
  }

  lemma {:induction false} RunKeepsJobs(setup: Setup, steps: seq<Step>, p: nat, q: nat)
    requires Legal(Init(setup), steps) && p <= q <= |steps|
    ensures JobsKept(Snapshots.At(setup, steps, p).tables, Snapshots.At(setup, steps, q).tables)
    decreases q
  {
    hide Snapshots.At, Enabled, Next, Inv;
    if p < q {
      RunKeepsJobs(setup, steps, p, q - 1);
      Snapshots.AtStep(setup, steps, q - 1);
      StepKeepsJobs(Snapshots.At(setup, steps, q - 1), steps[q - 1]);
    }
  }

  lemma UploadIsFile(s: State, step: Step) returns (j: nat)
    requires step.WorkUpload? && Enabled(s, step)
    ensures j < |s.tables.jobs| && s.tables.jobs[j].id == step.jobId
    ensures |SSTable.Encode(step.records)| <= MAX_INT
        && IsFileOf(SSTable.Encode(step.records), Merged(s.objects, s.tables.jobs[j].wals))
  {
    hide Canonical, Merged, SSTable.Encode;
    j :| Pending(s.tables, step.jobId, j) && Canonical(step.records, Merged(s.objects, s.tables.jobs[j].wals));
  }

  /**
   Two executions of one job, however far apart in a run and whatever happened in between, upload
   the same bytes.
   */
  lemma RetriesRebuildTheSameRun(setup: Setup, steps: seq<Step>, p: nat, q: nat)
    requires Legal(Init(setup), steps) && p <= q < |steps|
    requires steps[p].WorkUpload? && steps[q].WorkUpload? && steps[p].jobId == steps[q].jobId
    ensures SSTable.Encode(steps[p].records) == SSTable.Encode(steps[q].records)
  {
    hide Snapshots.At, Enabled, Next, Merged, SSTable.Encode, IsFileOf, Scheduling.Partitioned, ClaimInv;
    hide ExecutionsInv, HistoryInv, RequestsInv;
    var s, s' := Snapshots.At(setup, steps, p), Snapshots.At(setup, steps, q);
    Snapshots.AtStep(setup, steps, p);
    Snapshots.AtStep(setup, steps, q);
    var i := UploadIsFile(s, steps[p]);
    var j := UploadIsFile(s', steps[q]);
    RunKeepsJobs(setup, steps, p, q);
    assert s'.tables.jobs[j] in s.tables.jobs;
    var k :| 0 <= k < |s.tables.jobs| && s.tables.jobs[k] == s'.tables.jobs[j];
    assert i == k;
    Snapshots.RunExtends(setup, steps, p, q);
    Invariant.SameMerged(s, s'.objects, i);
    var layer := Merged(s.objects, s.tables.jobs[i].wals);
    OneFilePerLayer(SSTable.Encode(steps[p].records), SSTable.Encode(steps[q].records), layer);
  }
}

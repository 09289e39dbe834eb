/** The orchestrator: on every tick read the NEW rows and claim them for a compaction job. */
module Orchestrator {
  import opened Schema
  import opened Database
  import Invariant
  import Protocol
  import Scheduling

  class Handler {
    const minWALsToCompact: int
    const db: Database

    constructor (minWALsToCompact: int, db: Database)
      ensures this.minWALsToCompact == minWALsToCompact && this.db == db
    {
      this.minWALsToCompact := minWALsToCompact;
      this.db := db;
    }

    /** Marks and schedules in one transaction; what the mark answers is not looked at. */
    method MaybeCompactWAL(wals: seq<Wal>) returns (ok: bool)
      requires Ascending(db.wals)
      modifies db
      ensures db.reliable ==> ok
      ensures ok ==>
                db.Tables() == if |wals| < minWALsToCompact then old(db.Tables()) else Claim(old(db.Tables()), wals)
      ensures !ok ==> db.Tables() == old(db.Tables())
    {
      if |wals| < minWALsToCompact {
        return true;
      }
      var seqNos := CollectSeqNos(wals);
      var tx := db.Tables();
      var _ := db.MarkWriteAheadLogsAsCompacting(seqNos[..]);
      var inserted := db.InsertJob(wals);
      if !inserted {
        db.Rollback(tx);
        return false;
      }
      var fails := db.Fails();
      if fails {
        db.Rollback(tx);
        return false;
      }
      return true;
    }

    /**
     One turn of processLoop with nothing in between: the tables stay well scheduled, and unless
     there were too few rows or the transaction failed, one new job holds every row that was NEW.
     */
    method Tick() returns (claimed: bool)
      requires Scheduling.Inv(db.Tables())
      modifies db
      ensures Scheduling.Inv(db.Tables())
      ensures db.reliable ==> (claimed <==> |Protocol.SelectNew(old(db.wals))| >= minWALsToCompact)
      ensures !claimed ==> db.Tables() == old(db.Tables())
      ensures claimed ==>
                && |db.jobs| == |old(db.jobs)| + 1 && db.jobs[..|old(db.jobs)|] == old(db.jobs)
                && multiset(db.jobs[|old(db.jobs)|].wals) == multiset(Protocol.SelectNew(old(db.wals)))
                && (forall i :: 0 <= i < |db.wals| ==> db.wals[i].state == Compacting)
    {
      hide Scheduling.Inv, MarkRows, Protocol.SelectNew;
      assert Ascending(db.wals) by {
        Scheduling.InvAscending(db.Tables());
      }
      var wals := db.GetWriteAheadLogsToCompact();
      assert |wals| == |multiset(wals)| == |multiset(Protocol.SelectNew(db.wals))| == |Protocol.SelectNew(db.wals)|;
      ClaimsAll(db.Tables(), wals);
      var ok := MaybeCompactWAL(wals);
      claimed := ok && |wals| >= minWALsToCompact;
    }

    static lemma ClaimsAll(t: Tables, rows: seq<Wal>)
      requires Scheduling.Inv(t) && multiset(rows) == multiset(Protocol.SelectNew(t.wals))
      ensures Scheduling.Inv(Claim(t, rows))
      ensures forall i :: 0 <= i < |Claim(t, rows).wals| ==> Claim(t, rows).wals[i].state == Compacting
    {
      hide Scheduling.Inv, MarkRows, Scheduling.Claimed, SortBySeqNo, Protocol.SelectNew;
      var a, job := |Scheduling.Claimed(t.jobs)|, Job(t.nextJob, rows);
      Invariant.SelectedIsReady(t, rows);
      Scheduling.ClaimKeeps(t, rows);
      Scheduling.PartitionedElim(t.wals, t.jobs) by {
        Scheduling.InvPartitioned(t);
      }
      AllCompacting(t.wals[..a], Scheduling.Block(job), t.wals[a + |rows|..]);
    }

    static lemma AllCompacting(a: seq<Wal>, b: seq<Wal>, c: seq<Wal>)
      requires c == []
      requires forall i :: 0 <= i < |a| ==> a[i].state == Compacting
      requires forall i :: 0 <= i < |b| ==> b[i].state == Compacting
      ensures forall i :: 0 <= i < |a + b + c| ==> (a + b + c)[i].state == Compacting
    {
    }
  }
}

/** The filesystem mirror of the worktree registry: one record file per task, rewritten under a lock. */
module WorktreeRegistry {
  import opened Contracts
  import opened TaskDatabase

  function Completing(r: WorktreeRecord, now: Time): WorktreeRecord {
    r.(status := Complete, completedAt := Some(now), heartbeatAt := now)
  }

  function Orphaning(r: WorktreeRecord, now: Time): WorktreeRecord {
    r.(status := OrphanedTree, heartbeatAt := now)
  }

  function Beating(r: WorktreeRecord, pid: nat, now: Time): WorktreeRecord {
    r.(heartbeatAt := now, ownerPid := pid)
  }

  predicate MayOrphan(s: WorktreeStatus) {
    s == Active || s == Complete || s == OrphanedTree
  }

  class Registry {
    var records: map<string, WorktreeRecord>

    constructor ()
      ensures records == map[]
    {
      records := map[];
    }

    method Load(id: string) returns (r: Option<WorktreeRecord>)
      ensures r == if id in records then Some(records[id]) else None
    {
      if id !in records { return None; }
      return Some(records[id]);
    }

    /** An exclusive write: a record that appeared meanwhile is never replaced. */
    method Add(r: WorktreeRecord) returns (ok: bool)
      modifies this
      ensures ok == (r.taskId !in old(records))
      ensures records == if ok then old(records)[r.taskId := r] else old(records)
    {
      if r.taskId in records { return false; }
      records := records[r.taskId := r];
      return true;
    }

    /** The lease callback: only an active record of the same owner token takes the new heartbeat. */
    method Heartbeat(id: string, ownerToken: string, pid: nat, now: Time)
      modifies this
      ensures records == if id in old(records) && old(records)[id].ownerToken == ownerToken && old(records)[id].status == Active
                         then old(records)[id := Beating(old(records)[id], pid, now)]
                         else old(records)
    {
      if id !in records { return; }
      var current := records[id];
      if current.ownerToken != ownerToken || current.status != Active { return; }
      records := records[id := current.(heartbeatAt := now, ownerPid := pid)];
    }

    method Finish(id: string, now: Time) returns (r: Option<WorktreeRecord>)
      modifies this
      ensures r == if id in old(records) then Some(Completing(old(records)[id], now)) else None
      ensures records == if r.Some? then old(records)[id := r.value] else old(records)
    {
      if id !in records { return None; }
      var updated := records[id].(status := Complete, completedAt := Some(now), heartbeatAt := now);
      records := records[id := updated];
      return Some(updated);
    }

    method MarkOrphaned(id: string, now: Time) returns (r: Option<WorktreeRecord>)
      modifies this
      ensures r == if id in old(records) && MayOrphan(old(records)[id].status)
                   then Some(Orphaning(old(records)[id], now)) else None
      ensures records == if r.Some? then old(records)[id := r.value] else old(records)
    {
      if id !in records { return None; }
      var record := records[id];
      if record.status !in {Active, Complete, OrphanedTree} { return None; }
      var updated := record.(status := OrphanedTree, heartbeatAt := now);
      records := records[id := updated];
      return Some(updated);
    }

    /** The last write of a cleanup: the worktree is gone, or kept because it was dirty. */
    method CloseRecord(id: string, status: WorktreeStatus, now: Time) returns (r: WorktreeRecord)
      requires id in records
      modifies this
      ensures r == old(records)[id].(status := status, heartbeatAt := now)
      ensures records == old(records)[id := r]
    {
      r := records[id].(status := status, heartbeatAt := now);
      records := records[id := r];
    }
  }
}

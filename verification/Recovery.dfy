/**
  Operator recovery: bringing record file, durable row and task snapshot of every task back together
  after an engine died, and the cleanup that only a fully completed task passes.
 */
module Recovery {
  import opened Contracts
  import opened TaskDatabase
  import opened TaskStore
  import opened WorktreeRegistry
  import opened TaskHistories
  import opened Engine

  /** What the three stores hold for one task. */
  datatype Triple = Triple(record: WorktreeRecord, row: Option<WorktreeRecord>, task: Option<TaskRow>)

  predicate SameWorktree(a: WorktreeRecord, b: WorktreeRecord) {
    a.taskId == b.taskId && SameIdentity(a, b)
  }

  const TRANSITIONABLE := {Isolated, Executing, Verifying, Reviewing, HandoffReady, Orphaned}

  /** A completed record file whose task did not complete. */
  predicate HalfCompleted(t: Triple) {
    && t.record.status == Complete && t.row.Some? && t.task.Some?
    && t.task.value.state.status != Completed
    && SameWorktree(t.record, t.row.value)
    && t.row.value.status in {Active, Complete}
  }

  /** The records one recovery marks orphaned; `dead` says that neither lease nor process is alive. */
  predicate Picked(t: Triple, dead: bool) {
    HalfCompleted(t) || (t.record.status == Active && dead)
  }

  /** The durable row takes the orphaned record. */
  predicate RowFollows(t: Triple, marked: WorktreeRecord) {
    t.row.Some? && SameWorktree(marked, t.row.value) && ValidRecord(marked) && UpdateAdmissible(t.row.value, marked)
  }

  predicate TaskFollows(t: Triple, marked: WorktreeRecord) {
    RowFollows(t, marked) && t.task.Some? && t.task.value.state.status in TRANSITIONABLE
  }

  /** What one uninterrupted recovery makes of one task, between the clock readings lo and hi. */
  ghost predicate Recovered(t: Triple, t': Triple, dead: bool, lo: Time, hi: Time) {
    if !Picked(t, dead) then t' == t
    else IsMark(t.record, t'.record, lo, hi) && Synchronized(t, t')
  }

  /** Row and task take over the record as far as the store admits it. */
  ghost predicate Synchronized(t: Triple, t': Triple) {
    var marked := t'.record;
    && t'.row == (if RowFollows(t, marked) then Some(marked) else t.row)
    && (if !TaskFollows(t, marked) then t'.task == t.task
        else t'.task.Some? && TaskOrphaned(t.task.value, t'.task.value, marked))
  }

  /** The three stores tell one story about a finished task. */
  predicate Agree(t: Triple) {
    && t.row == Some(t.record) && t.task.Some?
    && t.task.value.state.worktree == Some(t.record)
    && ((t.record.status == Complete && t.task.value.state.status == Completed)
        || (t.record.status == OrphanedTree && t.task.value.state.status == Orphaned))
  }

  /** What the operator must find for recovery to end in agreement. */
  predicate Recoverable(t: Triple, dead: bool, now: Time) {
    if Picked(t, dead) then
      && t.row.Some? && t.task.Some?
      && SameWorktree(t.record, t.row.value) && t.record.createdAt == t.row.value.createdAt
      && t.record.ownerPid == t.row.value.ownerPid
      && (t.row.value.completedAt.Some? ==> t.record.completedAt == t.row.value.completedAt)
      && t.row.value.status != Removed
      && t.row.value.heartbeatAt <= now && t.record.createdAt <= now
      && (t.record.completedAt.Some? ==> t.record.createdAt <= t.record.completedAt.value <= now)
      && t.task.value.state.status in TRANSITIONABLE
    else Agree(t)
  }

  /**
    One uninterrupted recovery ends in agreement exactly when the stores were recoverable: a record
    already orphaned, another owner process, or a task that is not in a recoverable status is not.
   */
  lemma RecoveryConverges(t: Triple, t': Triple, dead: bool, lo: Time, hi: Time)
    requires Recovered(t, t', dead, lo, hi) && (t.row.Some? ==> ValidRecord(t.row.value))
    ensures Picked(t, dead) ==> (Agree(t') <==> Recoverable(t, dead, t'.record.heartbeatAt))
    ensures !Picked(t, dead) ==> (Agree(t') <==> Agree(t))
  {
  }

  /** The points at which an engine may die between passing the commit gate and its last write. */
  predicate CompletionCrash(t: Triple) {
    && t.row.Some? && t.task.Some? && Tracks(t.row.value, t.record)
    && (|| (t.record.status == Active && t.row.value.status == Active && t.task.value.state.status == Reviewing)
        || (t.record.status == Complete && t.row.value.status == Active && t.task.value.state.status == Reviewing)
        || (t.record.status == Complete && t.row.value.status == Complete && t.task.value.state.status == Reviewing)
        || Agree(t))
  }

  /** The three writes of a completion, in the engine's order: record file, durable row, task snapshot. */
  function RecordCompleted(t: Triple, now: Time): Triple {
    t.(record := Completing(t.record, now))
  }

  function RowCompleted(t: Triple): Triple {
    t.(row := Some(t.record))
  }

  function TaskCompleted(t: Triple, commit: Option<string>, now: Time): Triple
    requires t.task.Some?
  {
    var row := t.task.value;
    t.(task := Some(TaskRow(CompletedSnapshot(row.state, t.record, commit).(updatedAt := now), row.version + 1)))
  }

  /** Behind each write of a completion, and before the first, the stores are at a crash point covered here. */
  lemma CompletionCrashPoints(t: Triple, commit: Option<string>, finished: Time, stored: Time)
    requires CompletionCrash(t) && t.record.status == Active && t.task.value.state.status == Reviewing
    requires t.record.heartbeatAt <= finished
    ensures var a := RecordCompleted(t, finished);
      var b := RowCompleted(a);
      && ValidRecord(a.record) && UpdateAdmissible(t.row.value, a.record)
      && CompletionCrash(a) && CompletionCrash(b) && CompletionCrash(TaskCompleted(b, commit, stored))
      && Agree(TaskCompleted(b, commit, stored))
  {
  }

  /** The cleanup gate: all three stores must show the completed worktree. */
  predicate Eligible(t: Triple) {
    && t.record.status == Complete
    && t.row.Some? && SameWorktree(t.record, t.row.value) && t.row.value.status == t.record.status
    && t.task.Some? && t.task.value.state.status == Completed
    && t.task.value.state.worktree.Some? && SameWorktree(t.record, t.task.value.state.worktree.value)
  }

  /**
    Wherever the engine dies while completing, one recovery with a clock not behind the record ends in
    agreement, and cleanup is open before and after recovery exactly for the task that had completed.
   */
  lemma CompletionConverges(t: Triple, t': Triple, lo: Time, hi: Time)
    requires CompletionCrash(t) && t.record.heartbeatAt <= lo && Recovered(t, t', true, lo, hi)
    requires ValidRecord(t.row.value)
    ensures Agree(t')
    ensures t'.task.value.state.status == if t.task.value.state.status == Completed then Completed else Orphaned
    ensures Eligible(t) <==> t.task.value.state.status == Completed
    ensures Eligible(t') <==> Eligible(t)
  {
  }

  /** Recovery is not restartable: once a record is orphaned on disk, no later recovery repairs the rest. */
  lemma OrphanedRecordIsFinal(t: Triple, t': Triple, dead: bool, lo: Time, hi: Time)
    requires t.record.status == OrphanedTree && Recovered(t, t', dead, lo, hi)
    ensures t' == t
  {
  }

  /**
    A heartbeat of a lease writes the process into the record file alone.  Of a worktree that was
    recoverable, recovery behind such a heartbeat ends in agreement exactly if the process is the row's owner.
   */
  lemma HeartbeatDecides(t: Triple, t': Triple, pid: nat, beat: Time, lo: Time, hi: Time)
    requires t.record.status == Active && Recoverable(t, true, lo) && ValidRecord(t.row.value)
    requires Recovered(t.(record := Beating(t.record, pid, beat)), t', true, lo, hi)
    ensures Agree(t') <==> pid == t.row.value.ownerPid
  {
    RecoveryConverges(t.(record := Beating(t.record, pid, beat)), t', true, lo, hi);
  }

  ghost predicate IsMark(record: WorktreeRecord, marked: WorktreeRecord, lo: Time, hi: Time) {
    marked == Orphaning(record, marked.heartbeatAt) && lo <= marked.heartbeatAt <= hi
  }

  /** What record files and database hold for one task. */
  function Three(records: map<string, WorktreeRecord>, db: Db, id: string): Triple
    requires id in records
  {
    Triple(records[id],
           if id in db.worktrees then Some(db.worktrees[id].record) else None,
           if id in db.tasks then Some(db.tasks[id]) else None)
  }

  function HalfCompletedIds(records: map<string, WorktreeRecord>, db: Db): set<string> {
    set id | id in records && HalfCompleted(Three(records, db, id))
  }

  function PickedIds(records: map<string, WorktreeRecord>, db: Db, dead: set<string>): set<string> {
    set id | id in records && Picked(Three(records, db, id), id in dead)
  }

  function StaleIds(records: map<string, WorktreeRecord>, dead: set<string>): set<string> {
    set id | id in records && records[id].status == Active && id in dead
  }

  datatype CleanupReply = CleanupRefused | Preview | Applied(status: WorktreeStatus)

  /** The durable half of one task is the same in both databases. */
  predicate Untouched(db: Db, db': Db, id: string) {
    && (id in db.tasks <==> id in db'.tasks) && (id in db.tasks ==> db'.tasks[id] == db.tasks[id])
    && (id in db.worktrees <==> id in db'.worktrees) && (id in db.worktrees ==> db'.worktrees[id] == db.worktrees[id])
  }

  /** The synchronization loop has reached the records in `done` and nothing else. */
  ghost predicate Progress(recovered: map<string, WorktreeRecord>, db: Db, db': Db, id: string, done: set<string>) {
    if id in recovered && id in done then Synchronized(Three(recovered, db, id), Three(recovered, db', id))
    else Untouched(db, db', id)
  }

  /** The task took the record and nothing else changed but its status and update time. */
  predicate TaskOrphaned(before: TaskRow, after: TaskRow, record: WorktreeRecord) {
    && before.state.updatedAt < after.state.updatedAt && after.version == before.version + 1
    && after.state == before.state.(status := Orphaned, worktree := Some(record), updatedAt := after.state.updatedAt)
  }

  /** The store admits the orphaning of any task in a recoverable status whose row has taken the record. */
  lemma OrphaningAdmitted(k: Keys, db: Db, id: string, record: WorktreeRecord, s: TaskState)
    requires Inv(k, db) && id in db.tasks && id in db.worktrees && db.worktrees[id].record == record
    requires record.taskId == id && record.status == OrphanedTree
    requires db.tasks[id].state.status in TRANSITIONABLE && db.tasks[id].state.updatedAt < s.updatedAt
    requires s == db.tasks[id].state.(status := Orphaned, worktree := Some(record), updatedAt := s.updatedAt)
    ensures ValidState(s) && db.tasks[id].version >= 1 && ApplyTransition(db, s, Some(db.tasks[id].version)).Committed?
    ensures ApplyTransition(db, s, Some(db.tasks[id].version)).db.tasks == db.tasks[id := TaskRow(s, db.tasks[id].version + 1)]
  {
    StoredStateIsValid(k, db, id);
  }

  class Operator {
    const store: CodingTaskStore
    const registry: Registry
    var clock: Time

    constructor (store: CodingTaskStore, registry: Registry, clock: Time)
      ensures this.store == store && this.registry == registry && this.clock == clock
    {
      this.store, this.registry, this.clock := store, registry, clock;
    }

    ghost predicate Valid()
      reads this, store, registry
    {
      && store.Valid()
      && (forall id {:trigger registry.records[id]} :: id in registry.records ==> registry.records[id].taskId == id)
    }

    /** The collected records are the marked ones, as they now are on disk; every other record is unchanged. */
    ghost predicate Marked(before: map<string, WorktreeRecord>, recovered: map<string, WorktreeRecord>, lo: Time)
      reads this, registry
    {
      && registry.records.Keys == before.Keys && recovered.Keys <= before.Keys
      && (forall id {:trigger registry.records[id]} :: id in before ==>
            if id in recovered then registry.records[id] == recovered[id] && IsMark(before[id], recovered[id], lo, clock)
            else registry.records[id] == before[id])
    }

    method Now() returns (t: Time)
      modifies this`clock
      ensures old(clock) <= clock == t
    {
      var elapsed: nat := Foreigner();
      clock := clock + elapsed;
      t := clock;
    }

    /** The first pass: half-completed records, read against store and task. */
    method OrphanHalfCompleted() returns (recovered: map<string, WorktreeRecord>)
      modifies this`clock, registry
      ensures old(clock) <= clock && Marked(old(registry.records), recovered, old(clock))
      ensures recovered.Keys == HalfCompletedIds(old(registry.records), store.Contents())
    {
      recovered := map[];
      ghost var db := store.Contents();
      ghost var picks := HalfCompletedIds(registry.records, db);
      var rest := registry.records.Keys;
      while rest != {}
        invariant old(clock) <= clock && rest <= old(registry.records.Keys) && store.Contents() == db
        invariant Marked(old(registry.records), recovered, old(clock))
        invariant recovered.Keys == picks - rest
        decreases |rest|
      {
        var id :| id in rest;
        assert id in picks <==> HalfCompleted(Three(registry.records, db, id));
        rest := rest - {id};
        var marked := OrphanIfHalfCompleted(id);
        if marked.Some? { recovered := recovered[id := marked.value]; }
      }
    }

    method OrphanIfHalfCompleted(id: string) returns (marked: Option<WorktreeRecord>)
      requires id in registry.records
      modifies this`clock, registry
      ensures old(clock) <= clock
      ensures marked.Some? <==> HalfCompleted(Three(old(registry.records), store.Contents(), id))
      ensures marked.Some? ==> IsMark(old(registry.records)[id], marked.value, old(clock), clock)
      ensures registry.records == if marked.Some? then old(registry.records)[id := marked.value] else old(registry.records)
    {
      var record := registry.Load(id);
      var state := store.Load(id);
      var durable := store.Worktree(id);
      if durable.None? || state.None? || record.value.status != Complete || state.value.status == Completed
         || !SameWorktree(record.value, durable.value) || durable.value.status !in {Active, Complete} {
        return None;
      }
      var now := Now();
      marked := registry.MarkOrphaned(id, now);
    }

    /** The second pass: active records that neither a lease nor a live recent process protects. */
    method OrphanStale(dead: set<string>) returns (recovered: map<string, WorktreeRecord>)
      modifies this`clock, registry
      ensures old(clock) <= clock && Marked(old(registry.records), recovered, old(clock))
      ensures recovered.Keys == StaleIds(old(registry.records), dead)
    {
      recovered := map[];
      ghost var picks := StaleIds(registry.records, dead);
      var rest := registry.records.Keys;
      while rest != {}
        invariant old(clock) <= clock && rest <= old(registry.records.Keys)
        invariant Marked(old(registry.records), recovered, old(clock))
        invariant recovered.Keys == picks - rest
        decreases |rest|
      {
        var id :| id in rest;
        rest := rest - {id};
        var record := registry.Load(id);
        assert record == Some(old(registry.records)[id]);
        if record.value.status == Active && id in dead {
          var now := Now();
          var marked := registry.MarkOrphaned(id, now);
          recovered := recovered[id := marked.value];
        }
      }
    }

    /** The row and then the task take the recovered record; a refusal of either is only counted. */
    method Synchronize(id: string, record: WorktreeRecord)
      requires store.Valid() && record.taskId == id && record.status == OrphanedTree
      modifies this`clock, store`tasks, store`events, store`worktrees
      ensures store.Valid() && old(clock) <= clock
      ensures Synchronized(Three(map[id := record], old(store.Contents()), id), Three(map[id := record], store.Contents(), id))
      ensures forall x :: x != id ==> Untouched(old(store.Contents()), store.Contents(), x)
    {
      var durable := store.Worktree(id);
      if durable.None? || !SameWorktree(record, durable.value) {
        return;
      }
      if ValidRecord(record) && UpdateAdmissible(durable.value, record) {
        UpdateNeverCollides(store.keys, store.Contents(), record);
      }
      var updated := store.UpdateWorktree(record);
      if updated.Error? { return; }
      SynchronizeTask(id, record);
    }

    method SynchronizeTask(id: string, record: WorktreeRecord)
      requires store.Valid() && record.taskId == id && record.status == OrphanedTree
      requires id in store.worktrees && store.worktrees[id].record == record
      modifies this`clock, store`tasks, store`events
      ensures store.Valid() && old(clock) <= clock
      ensures id !in old(store.tasks) || old(store.tasks)[id].state.status !in TRANSITIONABLE ==> store.tasks == old(store.tasks)
      ensures id in old(store.tasks) && old(store.tasks)[id].state.status in TRANSITIONABLE ==>
                && id in store.tasks && store.tasks == old(store.tasks)[id := store.tasks[id]]
                && TaskOrphaned(old(store.tasks)[id], store.tasks[id], record)
    {
      var state := store.Load(id);
      if state.None? || state.value.status !in TRANSITIONABLE {
        return;
      }
      var now := Now();
      var later := if now <= state.value.updatedAt then state.value.updatedAt + 1 else now;
      var candidate := state.value.(status := Orphaned, worktree := Some(record), updatedAt := later);
      var version := store.Version(id);
      OrphaningAdmitted(store.keys, store.Contents(), id, record, candidate);
      var reply := store.Transition(candidate, Some(version.version));
    }

    /**
      One recovery: both passes over the record files, then the synchronization of what they marked and of
      the records that the recovery of creation intents has just orphaned.
     */
    method Recover(created: set<string>, dead: set<string>) returns (recovered: map<string, WorktreeRecord>)
      requires Valid() && created <= registry.records.Keys
      requires forall id {:trigger registry.records[id]} :: id in created ==> registry.records[id].status == OrphanedTree
      modifies this`clock, registry, store`tasks, store`events, store`worktrees
      ensures Valid() && old(clock) <= clock
      ensures registry.records.Keys == old(registry.records.Keys)
      ensures forall id :: id in old(registry.records) && id !in created ==>
                Recovered(Three(old(registry.records), old(store.Contents()), id),
                          Three(registry.records, store.Contents(), id), id in dead, old(clock), clock)
      ensures forall id :: id in created ==>
                && registry.records[id] == old(registry.records)[id]
                && Synchronized(Three(old(registry.records), old(store.Contents()), id),
                                Three(registry.records, store.Contents(), id))
      ensures forall id :: id !in old(registry.records) ==> Untouched(old(store.Contents()), store.Contents(), id)
    {
      ghost var before, db := registry.records, store.Contents();
      recovered := Gather(created, dead);
      SynchronizeAll(recovered);
      forall id ensures if id !in before then Untouched(db, store.Contents(), id)
          else if id in created then Synchronized(Three(before, db, id), Three(registry.records, store.Contents(), id))
          else Recovered(Three(before, db, id), Three(registry.records, store.Contents(), id), id in dead, old(clock), clock)
      {
        assert Progress(recovered, db, store.Contents(), id, recovered.Keys);
      }
    }

    /** The records to synchronize: those both passes mark, and those just orphaned, which stay as they are. */
    method Gather(created: set<string>, dead: set<string>) returns (recovered: map<string, WorktreeRecord>)
      requires Valid() && created <= registry.records.Keys
      requires forall id {:trigger registry.records[id]} :: id in created ==> registry.records[id].status == OrphanedTree
      modifies this`clock, registry
      ensures old(clock) <= clock && registry.records.Keys == old(registry.records.Keys) && recovered.Keys <= registry.records.Keys
      ensures forall id {:trigger registry.records[id]} :: id in registry.records ==> registry.records[id].taskId == id
      ensures forall id {:trigger recovered[id]} :: id in recovered ==>
                registry.records[id] == recovered[id] && recovered[id].taskId == id && recovered[id].status == OrphanedTree
      ensures forall id :: id in created ==> id in recovered && registry.records[id] == old(registry.records)[id]
      ensures forall id :: id in registry.records && id !in created ==>
                if Picked(Three(old(registry.records), store.Contents(), id), id in dead)
                then id in recovered && IsMark(old(registry.records)[id], registry.records[id], old(clock), clock)
                else id !in recovered && registry.records[id] == old(registry.records)[id]
    {
      ghost var before := registry.records;
      var marked := Collect(dead);
      recovered := marked + map id | id in created :: registry.records[id];
      forall id | id in before ensures id in marked <==> Picked(Three(before, store.Contents(), id), id in dead) {
        assert id in PickedIds(before, store.Contents(), dead) <==> Picked(Three(before, store.Contents(), id), id in dead);
      }
      forall id {:trigger registry.records[id]} | id in registry.records ensures registry.records[id].taskId == id {
        assert before[id].taskId == id;
      }
    }

    /** Both passes together mark exactly the picked records. */
    method Collect(dead: set<string>) returns (recovered: map<string, WorktreeRecord>)
      modifies this`clock, registry
      ensures old(clock) <= clock && Marked(old(registry.records), recovered, old(clock))
      ensures recovered.Keys == PickedIds(old(registry.records), store.Contents(), dead)
    {
      ghost var before := registry.records;
      var half := OrphanHalfCompleted();
      ghost var middle, lo := registry.records, clock;
      var stale := OrphanStale(dead);
      recovered := half + stale;
      assert forall id {:trigger middle[id]} :: id in before ==> (id in half <==> HalfCompleted(Three(before, store.Contents(), id)));
      forall id {:trigger registry.records[id]} | id in before
        ensures if id in recovered then registry.records[id] == recovered[id] && IsMark(before[id], recovered[id], old(clock), clock)
                else registry.records[id] == before[id]
      {
        assert middle[id] == if id in half then half[id] else before[id];
      }
    }

    method SynchronizeAll(recovered: map<string, WorktreeRecord>)
      requires store.Valid()
      requires forall id {:trigger recovered[id]} :: id in recovered ==> recovered[id].taskId == id && recovered[id].status == OrphanedTree
      modifies this`clock, store`tasks, store`events, store`worktrees
      ensures store.Valid() && old(clock) <= clock
      ensures forall id {:trigger Progress(recovered, old(store.Contents()), store.Contents(), id, recovered.Keys)} ::
                Progress(recovered, old(store.Contents()), store.Contents(), id, recovered.Keys)
    {
      ghost var db := store.Contents();
      var rest := recovered.Keys;
      while rest != {}
        invariant store.Valid() && old(clock) <= clock && rest <= recovered.Keys
        invariant forall id {:trigger Progress(recovered, db, store.Contents(), id, recovered.Keys - rest)} ::
                    Progress(recovered, db, store.Contents(), id, recovered.Keys - rest)
        decreases |rest|
      {
        var id :| id in rest;
        ghost var done, before := recovered.Keys - rest, store.Contents();
        assert Progress(recovered, db, before, id, done);
        rest := rest - {id};
        Synchronize(id, recovered[id]);
        forall x ensures Progress(recovered, db, store.Contents(), x, recovered.Keys - rest) {
          assert Progress(recovered, db, before, x, done);
          if x == id { assert Three(map[id := recovered[id]], before, id) == Three(recovered, db, id); }
          else { assert Untouched(before, store.Contents(), x); }
        }
      }
      assert recovered.Keys - rest == recovered.Keys;
    }

    /**
      Removal of one completed worktree.  `gitDirty` is what Git reports about the path; a dirty path is
      kept.  Only an eligible task is ever touched, and only its record and row change.
     */
    method Cleanup(id: string, confirm: Option<string>, gitDirty: bool) returns (r: CleanupReply)
      requires Valid()
      modifies this`clock, registry, store`worktrees
      ensures Valid() && old(clock) <= clock
      ensures r == if !(id in old(registry.records) && Eligible(Three(old(registry.records), old(store.Contents()), id))) then CleanupRefused
                   else if confirm.None? then Preview
                   else if confirm.value != id then CleanupRefused
                   else Applied(if gitDirty then CleanupBlocked else Removed)
      ensures !r.Applied? ==> registry.records == old(registry.records) && store.worktrees == old(store.worktrees)
      ensures r.Applied? ==>
                && registry.records == old(registry.records)[id := old(registry.records)[id].(status := r.status, heartbeatAt := clock)]
                && (var t := Three(registry.records, old(store.Contents()), id);
                    store.worktrees == if RowFollows(t, t.record)
                                       then old(store.worktrees)[id := WorktreeRow(t.record, old(store.worktrees)[id].version + 1)]
                                       else old(store.worktrees))
    {
      var record := registry.Load(id);
      if record.None? || record.value.status != Complete { return CleanupRefused; }
      var durable := store.Worktree(id);
      var state := store.Load(id);
      if durable.None? || !SameWorktree(record.value, durable.value) || durable.value.status != record.value.status {
        return CleanupRefused;
      }
      if state.None? || state.value.status != Completed || state.value.worktree.None?
         || !SameWorktree(record.value, state.value.worktree.value) {
        return CleanupRefused;
      }
      if confirm.None? { return Preview; }
      if confirm.value != id { return CleanupRefused; }
      var now := Now();
      var result := registry.CloseRecord(id, if gitDirty then CleanupBlocked else Removed, now);
      if ValidRecord(result) && UpdateAdmissible(durable.value, result) {
        UpdateNeverCollides(store.keys, store.Contents(), result);
      }
      var reply := store.UpdateWorktree(result);
      return Applied(result.status);
    }
  }
}

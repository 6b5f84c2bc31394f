/** The store object: each method is one serialized write transaction, or one read. */
module TaskStore {
  import opened Contracts
  import opened TaskDatabase

  datatype Reply = Done(version: nat) | Error(error: StoreError)

  class CodingTaskStore {
    const keys: Keys
    var tasks: map<string, TaskRow>
    var events: seq<Event>
    var worktrees: map<string, WorktreeRow>

    ghost function Contents(): Db
      reads this
    {
      Db(tasks, events, worktrees)
    }

    ghost predicate Valid()
      reads this
    {
      Inv(keys, Contents())
    }

    constructor (keys: Keys)
      ensures Valid() && this.keys == keys && Contents() == EMPTY
    {
      this.keys := keys;
      tasks, events, worktrees := map[], [], map[];
    }

    method Create(state: TaskState) returns (r: Reply)
      requires Valid() && ValidState(state)
      modifies this`tasks, this`events
      ensures Valid() && Contents() == Step(keys, old(Contents()), CreateTask(state))
      ensures match Apply(keys, old(Contents()), CreateTask(state))
              case Committed(_) => r == Done(1)
              case Refused(e) => r == Error(e)
    {
      var id := state.request.taskId;
      if state.worktree.Some? && state.worktree.value.taskId != id {
        return Error(IdentityError);
      }
      if state.status != Created || state.worktree.Some? {
        return Error(InvalidTransition);
      }
      if id in tasks || (exists i :: 0 <= i < |events| && events[i].taskId == id && events[i].version == 1) {
        return Error(AlreadyExists);
      }
      CreateKeepsInv(keys, Contents(), state);
      tasks := tasks[id := TaskRow(state, 1)];
      events := events + [Event(id, 1, None, state.status, state)];
      return Done(1);
    }

    method Load(id: string) returns (r: Option<TaskState>)
      ensures r == if id in tasks then Some(tasks[id].state) else None
    {
      if id !in tasks { return None; }
      return Some(tasks[id].state);
    }

    method Version(id: string) returns (r: Reply)
      ensures r == if id in tasks then Done(tasks[id].version) else Error(NotFound)
    {
      if id !in tasks { return Error(NotFound); }
      return Done(tasks[id].version);
    }

    method Worktree(id: string) returns (r: Option<WorktreeRecord>)
      ensures r == if id in worktrees then Some(worktrees[id].record) else None
    {
      if id !in worktrees { return None; }
      return Some(worktrees[id].record);
    }

    /** Whether the worktree embedded in a snapshot is the registered one. */
    method EnsureRegisteredWorktree(state: TaskState) returns (ok: bool)
      ensures ok == WorktreeRegistered(Contents(), state)
    {
      if state.worktree.None? { return true; }
      var id := state.request.taskId;
      if id !in worktrees { return false; }
      var registered := worktrees[id].record;
      if !SameIdentity(state.worktree.value, registered) { return false; }
      if registered.status == Removed && state.status !in {Completed, Cancelled, Failed} { return false; }
      return true;
    }

    /** The checks of a transition, in order; the version read is the one the write compares with. */
    method CheckTransition(state: TaskState, expected: Option<nat>) returns (refusal: Option<StoreError>)
      ensures match ApplyTransition(Contents(), state, expected)
              case Committed(_) => refusal == None
              case Refused(e) => refusal == Some(e)
    {
      var id := state.request.taskId;
      if state.worktree.Some? && state.worktree.value.taskId != id { return Some(IdentityError); }
      if expected.Some? && expected.value < 1 { return Some(BadVersion); }
      if id !in tasks { return Some(NotFound); }
      if expected.Some? && tasks[id].version != expected.value { return Some(ConcurrentTransition); }
      var current := tasks[id].state;
      if current.request != state.request { return Some(InvalidTransition); }
      if current.sourceRepository != state.sourceRepository { return Some(InvalidTransition); }
      if current.createdAt != state.createdAt { return Some(InvalidTransition); }
      if state.updatedAt < current.updatedAt { return Some(InvalidTransition); }
      if state.status !in Allowed(current.status) { return Some(InvalidTransition); }
      var registered := EnsureRegisteredWorktree(state);
      if !registered { return Some(RegistryError); }
      return None;
    }

    method Transition(state: TaskState, expected: Option<nat>) returns (r: Reply)
      requires Valid() && ValidState(state)
      modifies this`tasks, this`events
      ensures Valid() && Contents() == Step(keys, old(Contents()), Op.Transition(state, expected))
      ensures match Apply(keys, old(Contents()), Op.Transition(state, expected))
              case Committed(_) => r == Done(old(tasks)[state.request.taskId].version + 1)
              case Refused(e) => r == Error(e)
    {
      var refusal := CheckTransition(state, expected);
      if refusal.Some? {
        return Error(refusal.value);
      }
      TransitionKeepsInv(keys, Contents(), state, expected);
      var id := state.request.taskId;
      var current, version := tasks[id].state, tasks[id].version;
      tasks := tasks[id := TaskRow(state, version + 1)];
      events := events + [Event(id, version + 1, Some(current.status), state.status, state)];
      assert Contents() == Step(keys, old(Contents()), Op.Transition(state, expected));
      return Done(version + 1);
    }

    /** Whether a unique index over the live rows would refuse this row. */
    method LiveCollision(record: WorktreeRecord) returns (hit: bool)
      ensures hit == CollidesLive(keys, Contents(), record)
    {
      hit := false;
      var rest := worktrees.Keys;
      while rest != {}
        invariant rest <= worktrees.Keys
        invariant hit == exists id ::
                    id in worktrees && id !in rest && id != record.taskId
                    && worktrees[id].record.status != Removed && record.status != Removed
                    && Collides(keys, worktrees[id].record, record)
        decreases |rest|
      {
        var id :| id in rest;
        rest := rest - {id};
        var other := worktrees[id].record;
        if id != record.taskId && other.status != Removed && record.status != Removed && Collides(keys, other, record) {
          hit := true;
        }
      }
    }

    method RegisterWorktree(record: WorktreeRecord) returns (r: Reply)
      requires Valid()
      modifies this`worktrees
      ensures Valid() && Contents() == Step(keys, old(Contents()), Register(record))
      ensures match Apply(keys, old(Contents()), Register(record))
              case Committed(_) => r == Done(1)
              case Refused(e) => r == Error(e)
    {
      if !ValidRecord(record) || record.status != Active || record.completedAt.Some? {
        return Error(RegistryError);
      }
      if record.taskId !in tasks {
        return Error(NotFound);
      }
      if tasks[record.taskId].state.sourceRepository != record.sourceRepository {
        return Error(RegistryError);
      }
      var hit := LiveCollision(record);
      if record.taskId in worktrees || hit {
        return Error(RegistryError);
      }
      RegisterKeepsInv(keys, Contents(), record);
      worktrees := worktrees[record.taskId := WorktreeRow(record, 1)];
      return Done(1);
    }

    /** The checks of an update, in order. */
    method CheckUpdate(record: WorktreeRecord) returns (ok: bool)
      ensures ok <==> ValidRecord(record) && record.taskId in worktrees
                      && UpdateAdmissible(worktrees[record.taskId].record, record)
    {
      if !ValidRecord(record) || record.taskId !in worktrees { return false; }
      var current := worktrees[record.taskId].record;
      if record.taskId != current.taskId || !SameIdentity(current, record) || record.createdAt != current.createdAt {
        return false;
      }
      if record.status !in WorktreeAllowed(current.status) { return false; }
      if record.heartbeatAt < current.heartbeatAt { return false; }
      if current.completedAt.Some? && record.completedAt != current.completedAt { return false; }
      if record.ownerPid != current.ownerPid && !(current.status == OrphanedTree && record.status == Active) {
        return false;
      }
      return true;
    }

    /** No unique index is consulted: UpdateNeverCollides shows that it could not refuse. */
    method UpdateWorktree(record: WorktreeRecord) returns (r: Reply)
      requires Valid()
      modifies this`worktrees
      ensures Valid() && Contents() == Step(keys, old(Contents()), Update(record))
      ensures match Apply(keys, old(Contents()), Update(record))
              case Committed(_) => r == Done(old(worktrees)[record.taskId].version + 1)
              case Refused(e) => r == Error(e)
    {
      var ok := CheckUpdate(record);
      if !ok {
        return Error(RegistryError);
      }
      UpdateNeverCollides(keys, Contents(), record);
      var version := worktrees[record.taskId].version;
      var row := WorktreeRow(record, version + 1);
      UpdatedRowKeepsInv(keys, Contents(), row, worktrees[record.taskId].record);
      worktrees := worktrees[record.taskId := row];
      assert Contents() == Step(keys, old(Contents()), Update(record));
      return Done(version + 1);
    }
  }
}

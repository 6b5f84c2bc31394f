/**
  The durable task database as a value: task snapshots, the append-only event log and the worktree
  registry, with one function per write transaction.  Write transactions are serialized by the
  database, so an interleaving of concurrent writers is a sequence of operations.

  A SHA-256 fingerprint of canonical JSON is represented by the value it fingerprints.
 */
module TaskDatabase {
  import opened Contracts

  datatype StoreError =
    | AlreadyExists | NotFound | ConcurrentTransition | InvalidTransition | RegistryError | IdentityError | BadVersion

  datatype TaskRow = TaskRow(state: TaskState, version: nat)
  datatype Event = Event(taskId: string, version: nat, from: Option<TaskStatus>, to: TaskStatus, digest: TaskState)
  datatype WorktreeRow = WorktreeRow(record: WorktreeRecord, version: nat)

  datatype Db = Db(tasks: map<string, TaskRow>, events: seq<Event>, worktrees: map<string, WorktreeRow>)

  const EMPTY := Db(map[], [], map[])

  /** Platform normalizations behind the two partial unique indexes. */
  datatype Keys = Keys(path: string -> string, branch: string -> string, repository: string -> string)

  /** The statuses a task may move to in one step. */
  function Allowed(s: TaskStatus): set<TaskStatus> {
    match s
    case Created => {Inspected, Blocked, Failed, Cancelled}
    case Inspected => {Inspected, Planned, Blocked, Failed, Cancelled}
    case Planned => {Planned, Isolated, HandoffReady, Blocked, Failed, Cancelled}
    case Isolated => {Isolated, Executing, HandoffReady, Blocked, Failed, Cancelled, Orphaned}
    case Executing => {Executing, Verifying, HandoffReady, Blocked, Failed, Cancelled, Orphaned}
    case Verifying => {Verifying, Executing, Reviewing, HandoffReady, Blocked, Failed, Cancelled, Orphaned}
    case Reviewing => {Reviewing, Executing, Completed, HandoffReady, Blocked, Failed, Cancelled, Orphaned}
    case HandoffReady => {HandoffReady, Isolated, Executing, Blocked, Failed, Cancelled, Orphaned}
    case Blocked => {Blocked, Planned, Isolated, HandoffReady, Failed, Cancelled}
    case Orphaned => {Orphaned, Isolated, HandoffReady, Blocked, Failed, Cancelled}
    case Completed => {}
    case Failed => {}
    case Cancelled => {}
  }

  predicate IsTerminal(s: TaskStatus) {
    s == Completed || s == Failed || s == Cancelled
  }

  function WorktreeAllowed(s: WorktreeStatus): set<WorktreeStatus> {
    match s
    case Active => {Active, Complete, OrphanedTree, CleanupBlocked}
    case OrphanedTree => {OrphanedTree, Active, Complete, CleanupBlocked, Removed}
    case Complete => {Complete, OrphanedTree, CleanupBlocked, Removed}
    case CleanupBlocked => {CleanupBlocked, OrphanedTree, Complete, Removed}
    case Removed => {}
  }

  predicate ValidRecord(r: WorktreeRecord) {
    && r.createdAt <= r.heartbeatAt
    && (r.status == Active ==> r.completedAt.None?)
    && (r.status == Complete || r.status == Removed ==> r.completedAt.Some?)
    && (r.completedAt.Some? ==> r.createdAt <= r.completedAt.value <= r.heartbeatAt)
  }

  /** The identity a task snapshot shares with its registered worktree. */
  predicate SameIdentity(a: WorktreeRecord, b: WorktreeRecord) {
    && a.sourceRepository == b.sourceRepository && a.worktreePath == b.worktreePath && a.branch == b.branch
    && a.baseCommit == b.baseCommit && a.ownerToken == b.ownerToken
  }

  /** Two rows occupy the same path or the same branch of one repository. */
  predicate Collides(k: Keys, a: WorktreeRecord, b: WorktreeRecord) {
    || k.path(a.worktreePath) == k.path(b.worktreePath)
    || (a.branch.Some? && b.branch.Some?
        && k.branch(a.branch.value) == k.branch(b.branch.value)
        && k.repository(a.sourceRepository) == k.repository(b.sourceRepository))
  }

  predicate CollidesLive(k: Keys, db: Db, r: WorktreeRecord) {
    exists id :: id in db.worktrees && id != r.taskId
      && db.worktrees[id].record.status != Removed && r.status != Removed && Collides(k, db.worktrees[id].record, r)
  }

  /** The events of one task, in log order. */
  function History(events: seq<Event>, id: string): seq<Event> {
    if events == [] then []
    else
      var last := events[|events| - 1];
      History(events[..|events| - 1], id) + if last.taskId == id then [last] else []
  }

  lemma HistoryAppend(events: seq<Event>, e: Event, id: string)
    ensures History(events + [e], id) == History(events, id) + if e.taskId == id then [e] else []
  {
  }

  // ---------------------------------------------------------------- write transactions

  datatype Op =
    | CreateTask(state: TaskState)
    | Transition(state: TaskState, expected: Option<nat>)
    | Register(record: WorktreeRecord)
    | Update(record: WorktreeRecord)

  datatype Outcome = Committed(db: Db) | Refused(error: StoreError)

  predicate WellTyped(op: Op) {
    match op
    case CreateTask(s) => ValidState(s)
    case Transition(s, _) => ValidState(s)
    case Register(_) => true
    case Update(_) => true
  }

  predicate ForeignWorktree(s: TaskState) {
    s.worktree.Some? && s.worktree.value.taskId != s.request.taskId
  }

  predicate HasEvent(db: Db, id: string, version: nat) {
    exists i :: 0 <= i < |db.events| && db.events[i].taskId == id && db.events[i].version == version
  }

  function ApplyCreate(db: Db, s: TaskState): Outcome {
    var id := s.request.taskId;
    if ForeignWorktree(s) then Refused(IdentityError)
    else if s.status != Created || s.worktree.Some? then Refused(InvalidTransition)
    else if id in db.tasks || HasEvent(db, id, 1) then Refused(AlreadyExists)
    else Committed(db.(tasks := db.tasks[id := TaskRow(s, 1)],
                       events := db.events + [Event(id, 1, None, s.status, s)]))
  }

  /** Why the worktree embedded in a snapshot cannot be stored, if it cannot. */
  predicate WorktreeRegistered(db: Db, s: TaskState) {
    s.worktree.Some? ==>
      && s.request.taskId in db.worktrees
      && var row := db.worktrees[s.request.taskId].record;
         && SameIdentity(s.worktree.value, row)
         && (row.status == Removed ==> IsTerminal(s.status))
  }

  predicate Admissible(current: TaskState, s: TaskState) {
    && current.request == s.request
    && current.sourceRepository == s.sourceRepository
    && current.createdAt == s.createdAt
    && current.updatedAt <= s.updatedAt
    && s.status in Allowed(current.status)
  }

  function ApplyTransition(db: Db, s: TaskState, expected: Option<nat>): Outcome {
    var id := s.request.taskId;
    if ForeignWorktree(s) then Refused(IdentityError)
    else if expected.Some? && expected.value < 1 then Refused(BadVersion)
    else if id !in db.tasks then Refused(NotFound)
    else
      var row := db.tasks[id];
      if expected.Some? && expected.value != row.version then Refused(ConcurrentTransition)
      else if !Admissible(row.state, s) then Refused(InvalidTransition)
      else if !WorktreeRegistered(db, s) then Refused(RegistryError)
      else Committed(db.(tasks := db.tasks[id := TaskRow(s, row.version + 1)],
                         events := db.events + [Event(id, row.version + 1, Some(row.state.status), s.status, s)]))
  }

  function ApplyRegister(k: Keys, db: Db, r: WorktreeRecord): Outcome {
    if !ValidRecord(r) || r.status != Active || r.completedAt.Some? then Refused(RegistryError)
    else if r.taskId !in db.tasks then Refused(NotFound)
    else if db.tasks[r.taskId].state.sourceRepository != r.sourceRepository then Refused(RegistryError)
    else if r.taskId in db.worktrees || CollidesLive(k, db, r) then Refused(RegistryError)
    else Committed(db.(worktrees := db.worktrees[r.taskId := WorktreeRow(r, 1)]))
  }

  predicate UpdateAdmissible(current: WorktreeRecord, r: WorktreeRecord) {
    && current.taskId == r.taskId && SameIdentity(current, r) && current.createdAt == r.createdAt
    && r.status in WorktreeAllowed(current.status)
    && current.heartbeatAt <= r.heartbeatAt
    && (current.completedAt.Some? ==> r.completedAt == current.completedAt)
    && (r.ownerPid != current.ownerPid ==> current.status == OrphanedTree && r.status == Active)
  }

  function ApplyUpdate(k: Keys, db: Db, r: WorktreeRecord): Outcome {
    if !ValidRecord(r) || r.taskId !in db.worktrees then Refused(RegistryError)
    else
      var row := db.worktrees[r.taskId];
      if !UpdateAdmissible(row.record, r) then Refused(RegistryError)
      else if CollidesLive(k, db, r) then Refused(RegistryError)
      else Committed(db.(worktrees := db.worktrees[r.taskId := WorktreeRow(r, row.version + 1)]))
  }

  function Apply(k: Keys, db: Db, op: Op): Outcome {
    match op
    case CreateTask(s) => ApplyCreate(db, s)
    case Transition(s, expected) => ApplyTransition(db, s, expected)
    case Register(r) => ApplyRegister(k, db, r)
    case Update(r) => ApplyUpdate(k, db, r)
  }

  /** A refused transaction is rolled back. */
  function Step(k: Keys, db: Db, op: Op): Db {
    match Apply(k, db, op)
    case Committed(db') => db'
    case Refused(_) => db
  }

  function Run(k: Keys, ops: seq<Op>): Db {
    if ops == [] then EMPTY else Step(k, Run(k, ops[..|ops| - 1]), ops[|ops| - 1])
  }

  // ---------------------------------------------------------------- invariant

  /** The event chain of one task: dense versions, linked statuses, a tail equal to the snapshot. */
  predicate ChainOk(h: seq<Event>, row: TaskRow) {
    && |h| == row.version && |h| >= 1
    && (forall i :: 0 <= i < |h| ==> LinkOk(h[i], i, row.state))
    && h[0].from == None && h[0].to == Created
    && (forall i :: 1 <= i < |h| ==> StepOk(h[i - 1], h[i]))
    && h[|h| - 1].digest == row.state
  }

  predicate LinkOk(e: Event, i: nat, s: TaskState) {
    && e.version == i + 1
    && e.to == e.digest.status
    && e.digest.request == s.request
    && e.digest.sourceRepository == s.sourceRepository
    && e.digest.createdAt == s.createdAt
  }

  predicate StepOk(previous: Event, e: Event) {
    && e.from == Some(previous.to) && e.to in Allowed(previous.to)
    && previous.digest.updatedAt <= e.digest.updatedAt
  }

  predicate Chained(db: Db, id: string)
    requires id in db.tasks
  {
    db.tasks[id].state.request.taskId == id && ChainOk(History(db.events, id), db.tasks[id])
  }

  predicate Bound(db: Db, id: string)
    requires id in db.tasks
  {
    var w := db.tasks[id].state.worktree;
    w.Some? ==> w.value.taskId == id && id in db.worktrees && SameIdentity(w.value, db.worktrees[id].record)
  }

  predicate RowOk(db: Db, id: string)
    requires id in db.worktrees
  {
    var r := db.worktrees[id].record;
    && r.taskId == id && id in db.tasks
    && r.sourceRepository == db.tasks[id].state.sourceRepository
    && ValidRecord(r)
  }

  predicate Apart(k: Keys, db: Db, a: string, b: string)
    requires a in db.worktrees && b in db.worktrees
  {
    db.worktrees[a].record.status == Removed || db.worktrees[b].record.status == Removed
    || !Collides(k, db.worktrees[a].record, db.worktrees[b].record)
  }

  predicate LiveUnique(k: Keys, db: Db) {
    forall a, b {:trigger Apart(k, db, a, b)} :: a in db.worktrees && b in db.worktrees && a != b ==> Apart(k, db, a, b)
  }

  predicate AllChained(db: Db) { forall id {:trigger Chained(db, id)} :: id in db.tasks ==> Chained(db, id) }

  predicate AllBound(db: Db) { forall id {:trigger Bound(db, id)} :: id in db.tasks ==> Bound(db, id) }

  predicate AllRowsOk(db: Db) { forall id {:trigger RowOk(db, id)} :: id in db.worktrees ==> RowOk(db, id) }

  predicate LogOk(db: Db) {
    forall i :: 0 <= i < |db.events| ==> db.events[i].taskId in db.tasks && ValidState(db.events[i].digest)
  }

  predicate Inv(k: Keys, db: Db) {
    AllChained(db) && AllBound(db) && LogOk(db) && AllRowsOk(db) && LiveUnique(k, db)
  }

  lemma NoEventsNoHistory(events: seq<Event>, id: string)
    requires forall i :: 0 <= i < |events| ==> events[i].taskId != id
    ensures History(events, id) == []
  {
  }

  lemma ChainExtend(h: seq<Event>, row: TaskRow, s: TaskState, e: Event)
    requires ChainOk(h, row) && Admissible(row.state, s)
    requires e.version == row.version + 1 && e.from == Some(row.state.status) && e.to == s.status && e.digest == s
    ensures ChainOk(h + [e], TaskRow(s, row.version + 1))
  {
  }

  /** A new snapshot with its event keeps the invariant as soon as its own chain and binding hold. */
  lemma SnapshotKeepsInv(k: Keys, db: Db, db': Db, row: TaskRow, e: Event)
    requires Inv(k, db) && ValidState(row.state)
    requires db' == db.(tasks := db.tasks[e.taskId := row], events := db.events + [e])
    requires e.digest == row.state && row.state.request.taskId == e.taskId
    requires e.taskId in db.tasks ==> db.tasks[e.taskId].state.sourceRepository == row.state.sourceRepository
    requires ChainOk(History(db.events, e.taskId) + [e], row) && Bound(db', e.taskId)
    ensures Inv(k, db')
  {
    SnapshotKeepsChains(db, db', row, e);
    SnapshotKeepsBindings(db, db', row, e);
    SnapshotKeepsLog(k, db, db', row, e);
  }

  lemma SnapshotKeepsLog(k: Keys, db: Db, db': Db, row: TaskRow, e: Event)
    requires LogOk(db) && LiveUnique(k, db) && ValidState(row.state) && e.digest == row.state
    requires db' == db.(tasks := db.tasks[e.taskId := row], events := db.events + [e])
    ensures LogOk(db') && LiveUnique(k, db')
  {
    forall a, b | a in db'.worktrees && b in db'.worktrees && a != b ensures Apart(k, db', a, b) {
      assert Apart(k, db, a, b);
    }
  }

  lemma SnapshotKeepsChains(db: Db, db': Db, row: TaskRow, e: Event)
    requires AllChained(db)
    requires db' == db.(tasks := db.tasks[e.taskId := row], events := db.events + [e])
    requires row.state.request.taskId == e.taskId && ChainOk(History(db.events, e.taskId) + [e], row)
    ensures AllChained(db')
  {
    forall x | x in db'.tasks ensures Chained(db', x) {
      HistoryAppend(db.events, e, x);
      if x != e.taskId { assert Chained(db, x); assert History(db'.events, x) == History(db.events, x); }
    }
  }

  lemma SnapshotKeepsBindings(db: Db, db': Db, row: TaskRow, e: Event)
    requires db' == db.(tasks := db.tasks[e.taskId := row], events := db.events + [e])
    requires AllBound(db) && AllRowsOk(db) && Bound(db', e.taskId)
    requires e.taskId in db.tasks ==> db.tasks[e.taskId].state.sourceRepository == row.state.sourceRepository
    ensures AllBound(db') && AllRowsOk(db')
  {
    forall x | x in db'.tasks ensures Bound(db', x) {
      if x != e.taskId { assert Bound(db, x); }
    }
    forall x | x in db'.worktrees ensures RowOk(db', x) { assert RowOk(db, x); }
  }

  lemma CreateKeepsInv(k: Keys, db: Db, s: TaskState)
    requires Inv(k, db) && ValidState(s) && ApplyCreate(db, s).Committed?
    ensures Inv(k, ApplyCreate(db, s).db)
  {
    var id := s.request.taskId;
    var e := Event(id, 1, None, s.status, s);
    NoEventsNoHistory(db.events, id);
    assert LinkOk(e, 0, s);
    assert ChainOk([] + [e], TaskRow(s, 1));
    SnapshotKeepsInv(k, db, ApplyCreate(db, s).db, TaskRow(s, 1), e);
  }

  lemma TransitionKeepsInv(k: Keys, db: Db, s: TaskState, expected: Option<nat>)
    requires Inv(k, db) && ValidState(s) && ApplyTransition(db, s, expected).Committed?
    ensures Inv(k, ApplyTransition(db, s, expected).db)
  {
    var id := s.request.taskId;
    var row := db.tasks[id];
    var e := Event(id, row.version + 1, Some(row.state.status), s.status, s);
    assert Chained(db, id);
    ChainExtend(History(db.events, id), row, s, e);
    SnapshotKeepsInv(k, db, ApplyTransition(db, s, expected).db, TaskRow(s, row.version + 1), e);
  }

  /** Replacing or adding one live-unique row. */
  lemma RowKeepsInv(k: Keys, db: Db, row: WorktreeRow)
    requires Inv(k, db) && ValidRecord(row.record) && row.record.taskId in db.tasks
    requires row.record.sourceRepository == db.tasks[row.record.taskId].state.sourceRepository
    requires row.record.taskId in db.worktrees ==> SameIdentity(db.worktrees[row.record.taskId].record, row.record)
    requires !CollidesLive(k, db, row.record)
    ensures Inv(k, db.(worktrees := db.worktrees[row.record.taskId := row]))
  {
    var db' := db.(worktrees := db.worktrees[row.record.taskId := row]);
    assert AllChained(db') by { forall x | x in db'.tasks ensures Chained(db', x) { assert Chained(db, x); } }
    RowKeepsRows(db, db', row);
    RowKeepsApart(k, db, db', row);
  }

  lemma RowKeepsRows(db: Db, db': Db, row: WorktreeRow)
    requires AllBound(db) && AllRowsOk(db)
    requires ValidRecord(row.record) && row.record.taskId in db.tasks
    requires row.record.sourceRepository == db.tasks[row.record.taskId].state.sourceRepository
    requires row.record.taskId in db.worktrees ==> SameIdentity(db.worktrees[row.record.taskId].record, row.record)
    requires db' == db.(worktrees := db.worktrees[row.record.taskId := row])
    ensures AllBound(db') && AllRowsOk(db')
  {
    forall x | x in db'.tasks ensures Bound(db', x) { assert Bound(db, x); }
    forall x | x in db'.worktrees ensures RowOk(db', x) { if x != row.record.taskId { assert RowOk(db, x); } }
  }

  lemma RowKeepsApart(k: Keys, db: Db, db': Db, row: WorktreeRow)
    requires LiveUnique(k, db) && !CollidesLive(k, db, row.record)
    requires db' == db.(worktrees := db.worktrees[row.record.taskId := row])
    ensures LiveUnique(k, db')
  {
    var id := row.record.taskId;
    forall a, b | a in db'.worktrees && b in db'.worktrees && a != b ensures Apart(k, db', a, b) {
      if a != id && b != id { assert Apart(k, db, a, b); }
      else {
        var other := if a == id then b else a;
        assert other in db.worktrees && other != id;
        assert Collides(k, row.record, db.worktrees[other].record) == Collides(k, db.worktrees[other].record, row.record);
      }
    }
  }

  lemma RegisterKeepsInv(k: Keys, db: Db, r: WorktreeRecord)
    requires Inv(k, db) && ApplyRegister(k, db, r).Committed?
    ensures Inv(k, ApplyRegister(k, db, r).db)
  {
    RowKeepsInv(k, db, WorktreeRow(r, 1));
  }

  /** An admitted update keeps both live keys, so its unique indexes can never refuse it. */
  lemma UpdateNeverCollides(k: Keys, db: Db, r: WorktreeRecord)
    requires Inv(k, db) && r.taskId in db.worktrees && UpdateAdmissible(db.worktrees[r.taskId].record, r)
    ensures !CollidesLive(k, db, r)
  {
    var current := db.worktrees[r.taskId].record;
    forall id | id in db.worktrees && id != r.taskId && db.worktrees[id].record.status != Removed
      ensures !Collides(k, db.worktrees[id].record, r)
    {
      assert Apart(k, db, id, r.taskId);
      assert !Collides(k, db.worktrees[id].record, current);
    }
  }

  lemma UpdatedRowKeepsInv(k: Keys, db: Db, row: WorktreeRow, current: WorktreeRecord)
    requires Inv(k, db) && row.record.taskId in db.worktrees && db.worktrees[row.record.taskId].record == current
    requires SameIdentity(current, row.record) && ValidRecord(row.record) && !CollidesLive(k, db, row.record)
    ensures Inv(k, db.(worktrees := db.worktrees[row.record.taskId := row]))
  {
    assert RowOk(db, row.record.taskId);
    RowKeepsInv(k, db, row);
  }

  lemma StepKeepsInv(k: Keys, db: Db, op: Op)
    requires Inv(k, db) && WellTyped(op)
    ensures Inv(k, Step(k, db, op))
  {
    if Apply(k, db, op).Committed? {
      match op
      case CreateTask(s) => CreateKeepsInv(k, db, s);
      case Transition(s, expected) => TransitionKeepsInv(k, db, s, expected);
      case Register(r) => RegisterKeepsInv(k, db, r);
      case Update(r) => UpdatedRowKeepsInv(k, db, WorktreeRow(r, db.worktrees[r.taskId].version + 1), db.worktrees[r.taskId].record);
    }
  }

  /** Every interleaving of writers leaves every task with an exact event chain and a unique registry. */
  lemma {:induction false} RunKeepsInv(k: Keys, ops: seq<Op>)
    requires forall i :: 0 <= i < |ops| ==> WellTyped(ops[i])
    ensures Inv(k, Run(k, ops))
  {
    if ops != [] {
      RunKeepsInv(k, ops[..|ops| - 1]);
      StepKeepsInv(k, Run(k, ops[..|ops| - 1]), ops[|ops| - 1]);
    }
  }
}

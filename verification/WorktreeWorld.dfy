/**
  The abstract machine under worktree creation: Git references with their newest reflog entry, linked
  worktrees, and the two kinds of durable files a creation writes.
 */
module WorktreeWorld {
  import opened Contracts

  datatype Branch = Branch(repository: string, name: string)
  datatype LogEntry = LogEntry(commit: string, message: string)
  datatype Reference = Reference(commit: string, newest: Option<LogEntry>)

  /** A linked worktree; its HEAD is whatever its branch points at.  `identity` is its Git metadata identity. */
  datatype Tree = Tree(branch: Branch, identity: string, dirty: bool, ignored: bool)

  datatype Phase = Prepared | BranchReserved | Added

  datatype Intent = Intent(
    taskId: string, branch: Branch, path: string, base: string, token: string, ownerPid: nat,
    createdAt: Time, updatedAt: Time, phase: Phase, identity: Option<string>)

  datatype TreeRecord = TreeRecord(record: WorktreeRecord, identity: string)

  datatype World = World(
    refs: map<Branch, Reference>, trees: map<string, Tree>,
    intents: map<string, Intent>, records: map<string, TreeRecord>)

  function Reservation(i: Intent): string {
    "local-agent-create:" + i.token
  }

  function Reserved(i: Intent): Reference {
    Reference(i.base, Some(LogEntry(i.base, Reservation(i))))
  }

  /** Both intents speak of one creation; only progress differs. */
  predicate SameClaim(i: Intent, j: Intent) {
    j == i.(phase := j.phase, identity := j.identity, updatedAt := j.updatedAt)
  }

  function RecordFor(i: Intent, identity: string, status: WorktreeStatus, heartbeat: Time): TreeRecord {
    TreeRecord(WorktreeRecord(i.taskId, i.branch.repository, i.path, Some(i.branch.name), i.base, i.token,
                              status, i.ownerPid, i.createdAt, heartbeat, None), identity)
  }

  predicate RecordMatches(r: TreeRecord, i: Intent, identity: string) {
    && r.record.taskId == i.taskId && r.record.sourceRepository == i.branch.repository
    && r.record.worktreePath == i.path && r.record.branch == Some(i.branch.name)
    && r.record.baseCommit == i.base && r.record.ownerToken == i.token && r.identity == identity
  }

  /** If the creation's intent file exists, it is this creation's. */
  predicate Mine(w: World, i: Intent) {
    i.taskId in w.intents ==> SameClaim(i, w.intents[i.taskId])
  }

  function HeldIntent(w: World, held: Option<string>): Option<Intent> {
    if held.Some? && held.value in w.intents then Some(w.intents[held.value]) else None
  }

  /** What peers that honour the intent file of one live owner make of the world. */
  function Honoured(w: World, foreign: World, held: Option<string>): World {
    if held.None? then foreign
    else
      var id := held.value;
      foreign.(intents := if id in w.intents then foreign.intents[id := w.intents[id]] else foreign.intents - {id})
  }

  /** The branch still carries exactly this creation's reservation. */
  predicate OwnsRef(w: World, i: Intent) {
    i.branch in w.refs && w.refs[i.branch] == Reserved(i)
  }

  /** The newest reflog entry of the branch is this creation's reservation. */
  predicate OwnEntry(w: World, i: Intent) {
    i.branch in w.refs && w.refs[i.branch].newest == Some(LogEntry(i.base, Reservation(i)))
  }

  predicate Pristine(w: World, i: Intent) {
    && OwnsRef(w, i) && i.path in w.trees
    && !w.trees[i.path].dirty && !w.trees[i.path].ignored
  }

  /** The state from which reconciliation can finish; every part of it is visible to an operator. */
  predicate Resolvable(w: World, i: Intent) {
    if i.path !in w.trees then
      i.taskId !in w.records && (i.branch in w.refs ==> OwnsRef(w, i))
    else
      var tree := w.trees[i.path];
      && tree.branch == i.branch && i.branch in w.refs
      && (i.phase == Added ==> i.identity == Some(tree.identity))
      && (i.phase == Prepared ==> OwnsRef(w, i))
      && (i.taskId in w.records ==> RecordMatches(w.records[i.taskId], i, tree.identity))
  }

  /** Nobody but the creation itself has touched what it made. */
  predicate Untampered(w: World, i: Intent) {
    && (i.branch in w.refs ==> OwnsRef(w, i))
    && (i.path in w.trees ==> Pristine(w, i))
    && (i.taskId in w.records ==>
          i.path in w.trees
          && w.records[i.taskId].record.status == Active && w.records[i.taskId].record.completedAt == None)
  }

  /** Nothing outside the claim of one creation differs. */
  predicate Elsewhere(w: World, w': World, i: Intent) {
    && w.refs - {i.branch} == w'.refs - {i.branch} && w.trees - {i.path} == w'.trees - {i.path}
    && w.intents - {i.taskId} == w'.intents - {i.taskId} && w.records - {i.taskId} == w'.records - {i.taskId}
  }

  predicate Nothing(w: World, i: Intent) {
    i.branch !in w.refs && i.path !in w.trees && i.taskId !in w.intents && i.taskId !in w.records
  }

  /** The finished creation: record, worktree and branch, and no intent. */
  predicate Everything(w: World, i: Intent) {
    && Pristine(w, i) && w.trees[i.path].branch == i.branch
    && i.taskId !in w.intents && i.taskId in w.records
    && RecordMatches(w.records[i.taskId], i, w.trees[i.path].identity)
    && w.records[i.taskId].record.status == Active
  }

  /** A creation that began in world o has got as far as w. */
  predicate Underway(o: World, w: World, id: string) {
    && id in w.intents
    && var i := w.intents[id];
       i.taskId == id && Nothing(o, i) && Elsewhere(o, w, i) && Resolvable(w, i) && Untampered(w, i)
  }

  /** A call on intent i that ended early left a world in which reconciliation can still finish. */
  predicate Left(w: World, w': World, i: Intent) {
    && Elsewhere(w, w', i) && i.taskId in w'.intents
    && var j := w'.intents[i.taskId];
       SameClaim(i, j) && Resolvable(w', j) && (Untampered(w, i) ==> Untampered(w', j))
  }

  /** How much of a creation reconciliation still has to note, undo or record. */
  function Rank(w: World, i: Intent): nat {
    if i.taskId !in w.intents then 0
    else
      1 + (match w.intents[i.taskId].phase case Prepared => 2 case BranchReserved => 1 case Added => 0)
      + (if i.branch in w.refs then 1 else 0) + (if i.path in w.trees then 1 else 0)
      + (if i.taskId in w.records then 0 else 1)
  }

  /** A reconciliation that ended early left a world in which another can finish, and got nearer to it or did nothing. */
  predicate Abandoned(w: World, w': World, i: Intent) {
    Left(w, w', i) && (w' == w || Rank(w', i) < Rank(w, i))
  }

  /** At most the progress noted in the intent file changed. */
  predicate OnlyIntent(w: World, w': World, i: Intent) {
    && i.taskId in w'.intents && SameClaim(i, w'.intents[i.taskId])
    && w' == w.(intents := w.intents[i.taskId := w'.intents[i.taskId]])
  }

  /** Restoring the claim restores the world. */
  lemma NothingRestores(o: World, w: World, i: Intent)
    requires Nothing(o, i) && Nothing(w, i) && Elsewhere(o, w, i)
    ensures w == o
  {
    assert o.refs - {i.branch} == o.refs && w.refs - {i.branch} == w.refs;
    assert o.trees - {i.path} == o.trees && w.trees - {i.path} == w.trees;
    assert o.intents - {i.taskId} == o.intents && w.intents - {i.taskId} == w.intents;
    assert o.records - {i.taskId} == o.records && w.records - {i.taskId} == w.records;
  }

  // ---------------------------------------------------------------- what one operation did

  /** The world as look number `time` found it. */
  datatype Sight = Sight(time: nat, world: World)

  datatype Effect =
    | PutIntent(intent: Intent)
    | ReplaceIntent(intent: Intent)
    | DropIntent(taskId: string)
    | ReserveRef(branch: Branch, commit: string, message: string)
    | AddTree(path: string, branch: Branch)
    | RemoveTree(path: string, sight: Sight)
    | DeleteRef(branch: Branch, commit: string, sight: Sight)
    | PutRecord(record: TreeRecord)

  /** What the operation makes of the world it hits. */
  predicate Applies(e: Effect, w: World, w': World) {
    match e
    case PutIntent(i) => w' == w.(intents := w.intents[i.taskId := i])
    case ReplaceIntent(i) => w' == w.(intents := w.intents[i.taskId := i])
    case DropIntent(id) => w' == w.(intents := w.intents - {id})
    case ReserveRef(b, c, m) => w' == w.(refs := w.refs[b := Reference(c, Some(LogEntry(c, m)))])
    case AddTree(p, b) => p in w'.trees && w'.trees[p].branch == b && w' == w.(trees := w.trees[p := w'.trees[p]])
    case RemoveTree(p, _) => w' == w.(trees := w.trees - {p})
    case DeleteRef(b, _, _) => w' == w.(refs := w.refs - {b})
    case PutRecord(r) => w' == w.(records := w.records[r.record.taskId := r])
  }

  /**
    A mutation by a process that had looked at `sights` until then; `owner` says that the process is the
    live owner of the intent file.
   */
  datatype Event = Event(effect: Effect, before: World, after: World, owner: bool, sights: set<Sight>)

  /** The process had seen the reservation of intent i on its branch, by look number `from` or later. */
  predicate SeenOwned(e: Event, i: Intent, sight: Sight, from: nat) {
    sight in e.sights && from <= sight.time && OwnEntry(sight.world, i)
  }

  /**
    One mutation is safe for the claim of intent i in the world it hits, whatever peers did before:
    it stays inside the claim, never replaces anything exclusive, touches as owner no other intent, never
    removes a dirty worktree or a moved branch, and removes only after its own reservation had been seen
    on the branch, by one of the looks from number `from` on.  Only a creation reserves.
   */
  predicate Fits(e: Event, i: Intent, from: nat, creating: bool) {
    Applies(e.effect, e.before, e.after)
    && match e.effect
       case PutIntent(j) => SameClaim(i, j) && i.taskId !in e.before.intents
       case ReplaceIntent(j) => SameClaim(i, j) && (e.owner ==> i.taskId in e.before.intents && Mine(e.before, i))
       case DropIntent(id) => id == i.taskId && (e.owner ==> id in e.before.intents && Mine(e.before, i))
       case ReserveRef(b, c, m) => creating && b == i.branch && c == i.base && m == Reservation(i) && b !in e.before.refs
       case AddTree(p, b) => p == i.path && b == i.branch && p !in e.before.trees && b in e.before.refs
       case RemoveTree(p, sight) =>
         p == i.path && p in e.before.trees && !e.before.trees[p].dirty && SeenOwned(e, i, sight, from)
       case DeleteRef(b, c, sight) =>
         b == i.branch && b in e.before.refs && e.before.refs[b].commit == i.base && SeenOwned(e, i, sight, from)
       case PutRecord(r) => i.taskId !in e.before.records && RecordMatches(r, i, r.identity)
  }

  predicate AllFit(log: seq<Event>, start: nat, i: Intent, from: nat, creating: bool := false) {
    forall k {:trigger log[k]} :: start <= k < |log| ==> Fits(log[k], i, from, creating)
  }

  predicate ReservesAtMostOnce(log: seq<Event>, start: nat) {
    forall j, k :: start <= j < |log| && start <= k < |log| && log[j].effect.ReserveRef? && log[k].effect.ReserveRef? ==> j == k
  }
}

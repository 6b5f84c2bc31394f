/** Replies, outcomes and ownership evidence of worktree creation, and what one finished reconciliation means. */
module WorktreeOutcomes {
  import opened Contracts
  import opened WorktreeWorld
  import opened Steps

  datatype Observed = Observed(identity: string, head: string, branchCommit: Option<string>, clean: bool)

  datatype Action = Live | Unresolved | Compensated | CompensatedWorktree | Finalized(record: TreeRecord) | OrphanedIntent(record: TreeRecord)

  /** What an undisturbed observation of the intended path reports. */
  predicate Sees(w: World, i: Intent, r: Reply<Option<Observed>>) {
    if i.path !in w.trees then r == Ok(None)
    else if w.trees[i.path].branch != i.branch || i.branch !in w.refs then r == Raised
    else
      var tree, commit := w.trees[i.path], w.refs[i.branch].commit;
      r == Ok(Some(Observed(tree.identity, commit, Some(commit), !tree.dirty && !tree.ignored)))
  }

  datatype Evidence = Evidence(record: Option<TreeRecord>, observed: Option<Observed>, branchCommit: Option<string>, owned: bool)

  /** What undisturbed reads of a reconciliation report. */
  predicate Gathered(w: World, i: Intent, e: Evidence) {
    && e.record == (if i.taskId in w.records then Some(w.records[i.taskId]) else None)
    && Sees(w, i, Ok(e.observed)) && (e.branchCommit.Some? <==> i.branch in w.refs) && (e.owned <==> OwnsRef(w, i))
  }

  /** How reconciliation of intent i takes world w to w'. */
  predicate Finished(w: World, w': World, i: Intent, a: Action) {
    && Elsewhere(w, w', i) && i.taskId !in w'.intents
    && match a
       case Compensated => i.path !in w.trees && Nothing(w', i)
       case CompensatedWorktree => Pristine(w, i) && i.taskId !in w.records && Nothing(w', i)
       case Finalized(r) =>
         && i.path in w.trees && i.taskId in w.records && r == w.records[i.taskId]
         && w' == w.(intents := w.intents - {i.taskId})
       case OrphanedIntent(r) =>
         && i.path in w.trees && i.taskId !in w.records && !Pristine(w, i)
         && r == RecordFor(i, w.trees[i.path].identity, OrphanedTree, r.record.heartbeatAt)
         && w' == w.(intents := w.intents - {i.taskId}, records := w.records[i.taskId := r])
       case Live => false
       case Unresolved => false
  }

  /** What the undisturbed reads of a reconciliation have in hand when the path holds a worktree. */
  predicate Known(w: World, i: Intent, o: Observed, owned: bool) {
    && i.taskId in w.intents && w.intents[i.taskId] == i
    && Sees(w, i, Ok(Some(o))) && (owned <==> OwnsRef(w, i))
  }

  /** Binding the observed worktree in the intent file changes neither what is known nor whether it resolves. */
  lemma StillKnown(w: World, w1: World, i: Intent, j: Intent, o: Observed, owned: bool)
    requires Known(w, i, o, owned) && SameClaim(i, j) && j.phase == Added && j.identity == Some(o.identity)
    requires w1 == w.(intents := w.intents[i.taskId := j])
    requires (i.phase == Added ==> i.identity == Some(o.identity)) && (i.phase == Prepared ==> owned)
    ensures Known(w1, j, o, owned) && OnlyIntent(w, w1, i)
    ensures Resolvable(w, i) <==> Resolvable(w1, j)
    ensures Resolvable(w, i) <==> (i.taskId in w.records ==> RecordMatches(w.records[i.taskId], j, o.identity))
    ensures Untampered(w, i) <==> Untampered(w1, j)
  {
  }

  /** An undisturbed reconciliation of intent i, which may end early. */
  predicate Reconciles(w: World, w': World, i: Intent, r: Reply<Action>) {
    if Resolvable(w, i) then (if r.Ok? then Finished(w, w', i, r.value) else Abandoned(w, w', i))
    else (r.Ok? ==> r.value == Unresolved) && OnlyIntent(w, w', i)
  }

  /** Progress noted in the intent file first, then a finished or abandoned reconciliation, is one reconciliation. */
  lemma AfterProgress(w: World, w1: World, w2: World, i: Intent, j: Intent, o: Observed, owned: bool, r: Reply<Action>)
    requires Known(w, i, o, owned) && SameClaim(i, j) && j.phase == Added && j.identity == Some(o.identity)
    requires w1 == w.(intents := w.intents[i.taskId := j]) && (i.phase == Added ==> j == i)
    requires (i.phase == Added ==> i.identity == Some(o.identity)) && (i.phase == Prepared ==> owned)
    requires Reconciles(w1, w2, j, r)
    ensures Reconciles(w, w2, i, r)
  {
    StillKnown(w, w1, i, j, o, owned);
  }

  /** One reconciliation of creation i, at whatever progress it is, that ended early. */
  predicate EndedEarly(w: World, w': World, i: Intent) {
    i.taskId in w.intents && SameClaim(i, w.intents[i.taskId]) && Abandoned(w, w', w.intents[i.taskId])
  }

  lemma EarlyEndsGetNearer(w: World, w': World, i: Intent)
    requires EndedEarly(w, w', i)
    ensures w' == w || Rank(w', i) < Rank(w, i)
  {
  }

  function Changes(worlds: seq<World>): nat {
    if |worlds| < 2 then 0 else Changes(worlds[1..]) + (if worlds[0] == worlds[1] then 0 else 1)
  }

  /** However often recovery of one creation fails or dies, at most six of its runs change anything. */
  lemma {:induction false} AtMostSixChanges(worlds: seq<World>, i: Intent)
    requires |worlds| > 0 && forall k {:trigger worlds[k]} :: 0 < k < |worlds| ==> EndedEarly(worlds[k - 1], worlds[k], i) == true
    ensures Changes(worlds) + Rank(worlds[|worlds| - 1], i) <= Rank(worlds[0], i) <= 6
  {
    if |worlds| > 1 {
      var rest := worlds[1..];
      assert worlds[1] == rest[0];
      EarlyEndsGetNearer(worlds[0], worlds[1], i);
      AtMostSixChanges(rest, i);
    }
  }

  predicate FirstFree(w: World, candidates: seq<Branch>, b: Branch) {
    exists n :: 0 <= n < |candidates| && n < 100 && b == candidates[n] && b !in w.refs
      && forall m :: 0 <= m < n ==> candidates[m] in w.refs
  }

  /** All or nothing: the world of the start, or that world with record, worktree and branch. */
  predicate AllOrNothing(o: World, w: World, id: string) {
    || w == o
    || (id in w.records
        && var r := w.records[id].record;
           var i := Intent(id, Branch(r.sourceRepository, if r.branch.Some? then r.branch.value else ""), r.worktreePath,
                           r.baseCommit, r.ownerToken, r.ownerPid, r.createdAt, r.createdAt, Prepared, None);
           Nothing(o, i) && Everything(w, i) && Elsewhere(o, w, i))
  }

  predicate Resumed(o: World, w: World, id: string, endedEarly: bool) {
    if endedEarly then Underway(o, w, id) else AllOrNothing(o, w, id)
  }

  /** Reconciling an undisturbed creation resumes it, or ends it all-or-nothing. */
  lemma Resume(o: World, w: World, w': World, id: string, r: Reply<Action>)
    requires Underway(o, w, id)
    requires r.Ok? ==> Finished(w, w', w.intents[id], r.value)
    requires !r.Ok? ==> Left(w, w', w.intents[id])
    ensures Resumed(o, w', id, !r.Ok?)
  {
    var i := w.intents[id];
    if r.Ok? {
      assert Elsewhere(o, w', i);
      if r.value.Finalized? {
        assert Everything(w', i);
        IntentOf(o, w', i);
      } else {
        NothingRestores(o, w', i);
      }
    }
  }

  lemma IntentOf(o: World, w: World, i: Intent)
    requires Nothing(o, i) && Everything(w, i) && Elsewhere(o, w, i)
    ensures AllOrNothing(o, w, i.taskId)
  {
  }

  predicate IsActive(w: World, id: string)
    requires id in w.records
  {
    w.records[id].record.status == Active
  }

  function RecordBranch(r: WorktreeRecord): Branch {
    Branch(r.sourceRepository, if r.branch.Some? then r.branch.value else "")
  }

  /** The registered worktree is there, with its Git identity, checked out on its registered branch. */
  predicate RecordProven(w: World, r: TreeRecord) {
    && r.record.branch.Some? && r.record.worktreePath in w.trees
    && w.trees[r.record.worktreePath].identity == r.identity
    && w.trees[r.record.worktreePath].branch == RecordBranch(r.record)
  }

  predicate IntentProven(w: World, id: string)
    requires id in w.intents
  {
    w.intents[id].taskId == id && (w.intents[id].phase == Prepared || OwnsRef(w, w.intents[id]))
  }

  predicate IntentsProven(w: World) {
    forall id {:trigger IntentProven(w, id)} :: id in w.intents ==> IntentProven(w, id)
  }

  predicate EvidenceHolds(w: World) {
    (forall id :: id in w.records && IsActive(w, id) ==> RecordProven(w, w.records[id])) && IntentsProven(w)
  }

  function ReservedOutside(w: World, rest: set<string>): set<Branch> {
    set id | id in w.intents && id !in rest && OwnsRef(w, w.intents[id]) :: w.intents[id].branch
  }

  function ReservedRefs(w: World): set<Branch> {
    ReservedOutside(w, {})
  }

  function OwnedRefs(w: World): set<Branch> {
    (set id | id in w.records && IsActive(w, id) :: RecordBranch(w.records[id].record)) + ReservedRefs(w)
  }

  /**
    While an undisturbed creation is under way the ownership scan claims its branch exactly while the
    branch exists, and the scan fails exactly when an interrupted compensation had already deleted it.
   */
  lemma EvidenceDuringCreation(o: World, w: World, id: string)
    requires Underway(o, w, id) && EvidenceHolds(o)
    requires forall x :: x in o.intents ==> o.intents[x].branch != w.intents[id].branch
    ensures EvidenceHolds(w) <==> w.intents[id].phase == Prepared || w.intents[id].branch in w.refs
    ensures w.intents[id].branch in ReservedRefs(w) <==> w.intents[id].branch in w.refs
  {
    var i := w.intents[id];
    forall x | x in w.intents && x != id ensures IntentProven(w, x) {
      assert x in w.intents - {id} && x in o.intents - {id};
      assert w.intents[x] == (w.intents - {id})[x] == (o.intents - {id})[x] == o.intents[x];
      assert IntentProven(o, x);
      var b := o.intents[x].branch;
      assert b in w.refs <==> b in w.refs - {i.branch};
      assert b in o.refs <==> b in o.refs - {i.branch};
    }
    assert IntentsProven(w) <==> IntentProven(w, id);
    forall x | x in w.records && x != id && IsActive(w, x) ensures RecordProven(w, w.records[x]) {
      RecordStaysProven(o, w, i, x);
    }
  }

  lemma RecordStaysProven(o: World, w: World, i: Intent, x: string)
    requires Nothing(o, i) && Elsewhere(o, w, i) && EvidenceHolds(o)
    requires x in w.records && x != i.taskId && IsActive(w, x)
    ensures RecordProven(w, w.records[x])
  {
    assert x in w.records - {i.taskId} && x in o.records - {i.taskId};
    assert w.records[x] == (w.records - {i.taskId})[x] == (o.records - {i.taskId})[x] == o.records[x];
    assert IsActive(o, x) && RecordProven(o, o.records[x]);
    var p := o.records[x].record.worktreePath;
    assert p in o.trees - {i.path} && o.trees[p] == (o.trees - {i.path})[p] == (w.trees - {i.path})[p];
  }

  datatype CreateIntentRecovery = CreateIntentRecovery(
    compensated: nat, pathsDeleted: nat, finalized: nat, orphaned: nat, unresolved: nat, live: nat)

  function Counted(c: CreateIntentRecovery, action: Reply<Action>): CreateIntentRecovery {
    if !action.Ok? then c.(unresolved := c.unresolved + 1)
    else
      match action.value
      case Compensated => c.(compensated := c.compensated + 1)
      case CompensatedWorktree => c.(compensated := c.compensated + 1, pathsDeleted := c.pathsDeleted + 1)
      case Finalized(_) => c.(finalized := c.finalized + 1)
      case OrphanedIntent(_) => c.(orphaned := c.orphaned + 1)
      case Live => c.(live := c.live + 1)
      case Unresolved => c.(unresolved := c.unresolved + 1)
  }

  /** Everything one creation claims is the same in both worlds. */
  predicate SameClaimed(w: World, w': World, i: Intent) {
    && (i.branch in w.refs <==> i.branch in w'.refs) && (i.branch in w.refs ==> w'.refs[i.branch] == w.refs[i.branch])
    && (i.path in w.trees <==> i.path in w'.trees) && (i.path in w.trees ==> w'.trees[i.path] == w.trees[i.path])
    && (i.taskId in w.records <==> i.taskId in w'.records)
    && (i.taskId in w.records ==> w'.records[i.taskId] == w.records[i.taskId])
  }

  /** Intents are filed under their task and claim different branches and paths. */
  predicate Disjoint(w: World) {
    && (forall id {:trigger w.intents[id]} :: id in w.intents ==> w.intents[id].taskId == id)
    && (forall a, b {:trigger w.intents[a], w.intents[b]} :: a in w.intents && b in w.intents && a != b ==>
          w.intents[a].branch != w.intents[b].branch && w.intents[a].path != w.intents[b].path)
  }

  predicate Pending(w: World, w': World, id: string) {
    && id in w.intents && id in w'.intents && w'.intents[id] == w.intents[id]
    && SameClaimed(w, w', w.intents[id])
  }

  /** What recovery makes of one intent. */
  predicate Handled(w: World, w': World, id: string, live: set<string>)
    requires id in w.intents
  {
    var i := w.intents[id];
    if id !in live && Resolvable(w, i) then id !in w'.intents
    else id in w'.intents && SameClaim(i, w'.intents[id]) && SameClaimed(w, w', i)
  }

  predicate AllPending(start: World, w: World, rest: set<string>) {
    forall id {:trigger Pending(start, w, id)} :: id in rest ==> Pending(start, w, id)
  }

  predicate AllHandled(start: World, w: World, rest: set<string>, live: set<string>) {
    forall id {:trigger Handled(start, w, id, live)} :: id in start.intents && id !in rest ==> Handled(start, w, id, live)
  }

  predicate Balanced(start: World, w: World, rest: set<string>, c: CreateIntentRecovery) {
    && rest <= w.intents.Keys <= start.intents.Keys
    && |w.intents.Keys| == |rest| + c.unresolved + c.live
    && |start.intents.Keys| == |w.intents.Keys| + c.compensated + c.finalized + c.orphaned
  }

  /** What one undisturbed, uninterrupted reconciliation of intent i reports and does. */
  predicate Reconciled(w: World, w': World, i: Intent, alive: bool, action: Reply<Action>) {
    if alive then action == Ok(Live) && w' == w
    else if Resolvable(w, i) then action.Ok? && Finished(w, w', i, action.value)
    else (action.Ok? ==> action.value == Unresolved) && OnlyIntent(w, w', i)
  }

  /** A step inside one claim does not concern any other. */
  lemma OthersStayPending(start: World, w: World, w': World, i: Intent, rest: set<string>)
    requires Disjoint(start) && rest <= start.intents.Keys && i.taskId in start.intents && start.intents[i.taskId] == i
    requires Elsewhere(w, w', i) && AllPending(start, w, rest)
    ensures AllPending(start, w', rest - {i.taskId})
  {
    forall id | id in rest - {i.taskId} ensures Pending(start, w', id) {
      assert Pending(start, w, id);
      Outside(w, w', i, start.intents[id]);
    }
  }

  lemma OthersStayHandled(start: World, w: World, w': World, i: Intent, rest: set<string>, live: set<string>)
    requires Disjoint(start) && i.taskId in rest && i.taskId in start.intents && start.intents[i.taskId] == i
    requires Elsewhere(w, w', i) && AllHandled(start, w, rest, live) && Handled(start, w', i.taskId, live)
    ensures AllHandled(start, w', rest - {i.taskId}, live)
  {
    forall id | id in start.intents && id !in rest - {i.taskId} ensures Handled(start, w', id, live) {
      if id != i.taskId {
        assert Handled(start, w, id, live);
        Outside(w, w', i, start.intents[id]);
      }
    }
  }

  lemma EntryHandled(start: World, w: World, w': World, i: Intent, live: set<string>, action: Reply<Action>)
    requires i.taskId in start.intents && start.intents[i.taskId] == i && Pending(start, w, i.taskId)
    requires Reconciled(w, w', i, i.taskId in live, action)
    ensures Handled(start, w', i.taskId, live) && Elsewhere(w, w', i)
  {
  }

  /** An intent disappears exactly when its reconciliation is counted as resolved. */
  lemma CountedAsResolved(w: World, w': World, i: Intent, alive: bool, c: CreateIntentRecovery, action: Reply<Action>)
    requires i.taskId in w.intents && Reconciled(w, w', i, alive, action) && !action.Died?
    ensures var c' := Counted(c, action);
      && c'.unresolved + c'.live == c.unresolved + c.live + (if i.taskId in w'.intents then 1 else 0)
      && c'.compensated + c'.finalized + c'.orphaned
         == c.compensated + c.finalized + c.orphaned + (if i.taskId in w'.intents then 0 else 1)
  {
  }

  lemma KeysElsewhere(a: map<string, Intent>, b: map<string, Intent>, id: string)
    requires id in a && a - {id} == b - {id}
    ensures b.Keys == if id in b then a.Keys else a.Keys - {id}
  {
    forall x | x != id ensures x in b.Keys <==> x in a.Keys {
      assert x in b <==> x in b - {id};
      assert x in a <==> x in a - {id};
    }
  }

  lemma StaysBalanced(start: World, w: World, w': World, i: Intent, rest: set<string>, alive: bool,
                      c: CreateIntentRecovery, action: Reply<Action>)
    requires i.taskId in rest && Balanced(start, w, rest, c) && !action.Died?
    requires Reconciled(w, w', i, alive, action) && w.intents - {i.taskId} == w'.intents - {i.taskId}
    ensures Balanced(start, w', rest - {i.taskId}, Counted(c, action))
  {
    CountedAsResolved(w, w', i, alive, c, action);
    KeysElsewhere(w.intents, w'.intents, i.taskId);
  }

  predicate Recovering(start: World, w: World, rest: set<string>, live: set<string>, c: CreateIntentRecovery) {
    AllPending(start, w, rest) && AllHandled(start, w, rest, live) && Balanced(start, w, rest, c)
  }

  lemma EntryIsPending(start: World, w: World, rest: set<string>, live: set<string>, c: CreateIntentRecovery, id: string)
    requires Disjoint(start) == true && Recovering(start, w, rest, live, c) == true && id in rest
    ensures id in w.intents && id in start.intents && w.intents[id] == start.intents[id] && start.intents[id].taskId == id
  {
    assert Pending(start, w, id);
  }

  /** One pass of the recovery loop. */
  lemma EntryRecovered(start: World, w: World, w': World, i: Intent, rest: set<string>, live: set<string>,
                       c: CreateIntentRecovery, action: Reply<Action>)
    requires Disjoint(start) == true && i.taskId in rest && i.taskId in start.intents && start.intents[i.taskId] == i
    requires Recovering(start, w, rest, live, c) == true
    requires !action.Died? && Reconciled(w, w', i, i.taskId in live, action) == true
    ensures Recovering(start, w', rest - {i.taskId}, live, Counted(c, action)) == true
  {
    assert Pending(start, w, i.taskId);
    EntryHandled(start, w, w', i, live, action);
    OthersStayPending(start, w, w', i, rest);
    OthersStayHandled(start, w, w', i, rest, live);
    StaysBalanced(start, w, w', i, rest, i.taskId in live, c, action);
  }

  lemma Outside(w: World, w': World, i: Intent, j: Intent)
    requires Elsewhere(w, w', i) && i.branch != j.branch && i.path != j.path && i.taskId != j.taskId
    ensures SameClaimed(w, w', j)
    ensures (j.taskId in w.intents <==> j.taskId in w'.intents)
    ensures j.taskId in w.intents ==> w.intents[j.taskId] == w'.intents[j.taskId]
  {
    assert j.branch in w.refs <==> j.branch in w.refs - {i.branch};
    assert j.path in w.trees <==> j.path in w.trees - {i.path};
    assert j.taskId in w.intents <==> j.taskId in w.intents - {i.taskId};
    assert j.taskId in w.records <==> j.taskId in w.records - {i.taskId};
    assert j.branch in w'.refs <==> j.branch in w'.refs - {i.branch};
    assert j.path in w'.trees <==> j.path in w'.trees - {i.path};
    assert j.taskId in w'.intents <==> j.taskId in w'.intents - {i.taskId};
    assert j.taskId in w'.records <==> j.taskId in w'.records - {i.taskId};
  }
}

/**
  Creation and recovery of task worktrees over the abstract machine.  Every Git call and every file
  access is one step; before each step peers may change the whole world and the process may die.
 */
module WorktreeCreation {
  import opened Contracts
  import opened WorktreeWorld
  import opened Steps
  import opened WorktreeOutcomes

  class WorktreeManager {
    var world: World
    /** Whether anybody else acts, whether this process may die, and whether Git and the files may fail it. */
    var peers: bool
    var mortal: bool
    var flaky: bool
    /** The task whose intent file this live process owns: recovery skips it and no other creator replaces it. */
    var held: Option<string>
    /** Every world this process has looked at, numbered, and the number of the next look. */
    ghost var sights: set<Sight>
    ghost var clock: nat
    ghost var log: seq<Event>

    constructor (world: World, peers: bool, mortal: bool, flaky: bool)
      ensures this.world == world && this.peers == peers && this.mortal == mortal && this.flaky == flaky && held == None && log == []
    {
      this.world, this.peers, this.mortal, this.flaky, held := world, peers, mortal, flaky, None;
      sights, clock, log := {}, 0, [];
    }

    ghost predicate Saw(proof: Sight, i: Intent)
      reads this
    {
      proof in sights && proof.time < clock && OwnEntry(proof.world, i)
    }

    // -------------------------------------------------------------- single steps

    /** The world as the next step finds it. */
    method Look() returns (r: Reply<World>)
      modifies this`world, this`sights, this`clock
      ensures !peers ==> world == old(world)
      ensures !peers && !flaky ==> !r.Raised?
      ensures !mortal ==> !r.Died?
      ensures !r.Collided? && (r.Ok? ==> r.value == world)
      ensures HeldIntent(world, held) == HeldIntent(old(world), held)
      ensures sights == old(sights) + {Sight(old(clock), world)} && clock == old(clock) + 1
    {
      if peers {
        var foreign: World := Foreigner();
        world := Honoured(world, foreign, held);
      }
      sights, clock := sights + {Sight(clock, world)}, clock + 1;
      if mortal {
        var dies: bool := Foreigner();
        if dies { return Died; }
      }
      if peers || flaky {
        var fails: bool := Foreigner();
        if fails { return Raised; }
      }
      return Ok(world);
    }

    method PutIntent(i: Intent) returns (r: Reply<()>)
      modifies this`world, this`sights, this`clock, this`log
      ensures old(sights) <= sights && old(clock) <= clock && old(log) <= log && AllFit(log, |old(log)|, i, old(clock))
      ensures held == Some(i.taskId) && Mine(old(world), i) ==> Mine(world, i)
      ensures !mortal ==> !r.Died?
      ensures !r.Collided? && (r.Ok? ==> |log| == |old(log)| + 1 && log[|old(log)|].effect == Effect.PutIntent(i))
      ensures r.Ok? ==> i.taskId in world.intents && world.intents[i.taskId] == i
      ensures !r.Ok? ==> log == old(log)
      ensures !peers && !flaky ==> (r.Raised? <==> !r.Died? && i.taskId in old(world).intents)
      ensures !peers && r.Ok? ==> i.taskId !in old(world).intents
      ensures !peers ==> world == if r.Ok? then old(world).(intents := old(world).intents[i.taskId := i]) else old(world)
    {
      var w :- Look();
      if i.taskId in w.intents { return Raised; }
      world := w.(intents := w.intents[i.taskId := i]);
      log := log + [Event(Effect.PutIntent(i), w, world, held == Some(i.taskId), sights)];
      return Ok(());
    }

    /** Replaces the intent file after comparing it; comparison and replacement are two steps. */
    method ReplaceIntent(i: Intent, previous: Intent) returns (r: Reply<()>)
      requires SameClaim(previous, i)
      modifies this`world, this`sights, this`clock, this`log
      ensures old(sights) <= sights && old(clock) <= clock && old(log) <= log && AllFit(log, |old(log)|, i, old(clock))
      ensures held == Some(i.taskId) && Mine(old(world), i) ==> Mine(world, i)
      ensures !mortal ==> !r.Died?
      ensures !r.Collided?
      ensures !peers && i.taskId in old(world).intents && old(world).intents[i.taskId] == previous ==>
                (flaky || !r.Raised?) && world == if r.Ok? then old(world).(intents := old(world).intents[i.taskId := i]) else old(world)
    {
      var w :- Look();
      if i.taskId !in w.intents || w.intents[i.taskId] != previous { return Raised; }
      w :- Look();
      world := w.(intents := w.intents[i.taskId := i]);
      log := log + [Event(Effect.ReplaceIntent(i), w, world, held == Some(i.taskId), sights)];
      return Ok(());
    }

    method DropIntent(i: Intent) returns (r: Reply<()>)
      modifies this`world, this`sights, this`clock, this`log
      ensures old(sights) <= sights && old(clock) <= clock && old(log) <= log && AllFit(log, |old(log)|, i, old(clock))
      ensures held == Some(i.taskId) && Mine(old(world), i) ==> Mine(world, i)
      ensures forall k :: |old(log)| <= k < |log| ==> log[k].effect == Effect.DropIntent(i.taskId)
      ensures !mortal ==> !r.Died?
      ensures !r.Collided?
      ensures !peers && i.taskId in old(world).intents && old(world).intents[i.taskId] == i ==>
                (flaky || !r.Raised?) && world == if r.Ok? then old(world).(intents := old(world).intents - {i.taskId}) else old(world)
    {
      var w :- Look();
      if i.taskId !in w.intents || w.intents[i.taskId] != i { return Raised; }
      w :- Look();
      if i.taskId !in w.intents { return Raised; }
      world := w.(intents := w.intents - {i.taskId});
      log := log + [Event(Effect.DropIntent(i.taskId), w, world, held == Some(i.taskId), sights)];
      return Ok(());
    }

    /** The create-from-zero compare-and-swap of the branch. */
    method ReserveRef(i: Intent) returns (r: Reply<()>)
      modifies this`world, this`sights, this`clock, this`log
      ensures old(sights) <= sights && old(clock) <= clock && old(log) <= log && AllFit(log, |old(log)|, i, old(clock), true)
      ensures held == Some(i.taskId) && Mine(old(world), i) ==> Mine(world, i)
      ensures !mortal ==> !r.Died?
      ensures |log| == if r.Ok? then |old(log)| + 1 else |old(log)|
      ensures !peers && r.Ok? ==> i.branch !in old(world).refs
      ensures !peers && !flaky ==> !r.Raised? && (r.Collided? ==> i.branch in old(world).refs)
      ensures !peers ==> world == if r.Ok? then old(world).(refs := old(world).refs[i.branch := Reserved(i)]) else old(world)
    {
      var w :- Look();
      var fails: bool := Foreigner();
      if i.branch in w.refs || (flaky && fails) { return Collided; }
      world := w.(refs := w.refs[i.branch := Reserved(i)]);
      log := log + [Event(Effect.ReserveRef(i.branch, i.base, Reservation(i)), w, world, held == Some(i.taskId), sights)];
      return Ok(());
    }

    /** A worktree add may fail; Git itself refuses an occupied path and a branch checked out elsewhere. */
    method AddTree(i: Intent) returns (r: Reply<()>)
      modifies this`world, this`sights, this`clock, this`log
      ensures old(sights) <= sights && old(clock) <= clock && old(log) <= log && AllFit(log, |old(log)|, i, old(clock))
      ensures held == Some(i.taskId) && Mine(old(world), i) ==> Mine(world, i)
      ensures !mortal ==> !r.Died?
      ensures !r.Collided?
      ensures !peers && r.Ok? ==>
                && i.path !in old(world).trees && i.path in world.trees
                && world.trees[i.path] == Tree(i.branch, world.trees[i.path].identity, false, false)
                && world == old(world).(trees := old(world).trees[i.path := world.trees[i.path]])
      ensures !peers && !r.Ok? ==> world == old(world)
    {
      var w :- Look();
      var fails: bool := Foreigner();
      if fails || i.path in w.trees || i.branch !in w.refs || (exists p :: p in w.trees && w.trees[p].branch == i.branch) {
        return Raised;
      }
      var identity: string := Foreigner();
      world := w.(trees := w.trees[i.path := Tree(i.branch, identity, false, false)]);
      log := log + [Event(Effect.AddTree(i.path, i.branch), w, world, held == Some(i.taskId), sights)];
      return Ok(());
    }

    /** Removes the worktree unless Git finds it dirty; files that are merely ignored do not stop Git. */
    method RemoveTree(i: Intent, ghost proof: Sight) returns (r: Reply<bool>)
      requires Saw(proof, i)
      modifies this`world, this`sights, this`clock, this`log
      ensures old(sights) <= sights && old(clock) <= clock && old(log) <= log && AllFit(log, |old(log)|, i, proof.time)
      ensures held == Some(i.taskId) && Mine(old(world), i) ==> Mine(world, i)
      ensures !mortal ==> !r.Died?
      ensures !r.Collided?
      ensures !peers && i.path in old(world).trees && !old(world).trees[i.path].dirty ==>
                && (flaky || !r.Raised?) && r != Ok(false)
                && (r.Ok? ==> world == old(world).(trees := old(world).trees - {i.path}))
                && (world == old(world) || world == old(world).(trees := old(world).trees - {i.path}))
    {
      var w :- Look();
      if i.path !in w.trees || w.trees[i.path].dirty { return Ok(false); }
      world := w.(trees := w.trees - {i.path});
      log := log + [Event(Effect.RemoveTree(i.path, proof), w, world, held == Some(i.taskId), sights)];
      var after :- Look();
      return Ok(i.path !in after.trees);
    }

    /** The compare-and-swap deletion of the branch at the base commit. */
    method DeleteRef(i: Intent, ghost proof: Sight) returns (r: Reply<bool>)
      requires Saw(proof, i)
      modifies this`world, this`sights, this`clock, this`log
      ensures old(sights) <= sights && old(clock) <= clock && old(log) <= log && AllFit(log, |old(log)|, i, proof.time)
      ensures held == Some(i.taskId) && Mine(old(world), i) ==> Mine(world, i)
      ensures !mortal ==> !r.Died?
      ensures !r.Collided?
      ensures !peers && i.branch in old(world).refs && old(world).refs[i.branch].commit == i.base ==>
                && (flaky || !r.Raised?) && r != Ok(false)
                && world == if r.Ok? then old(world).(refs := old(world).refs - {i.branch}) else old(world)
    {
      var w :- Look();
      if i.branch !in w.refs || w.refs[i.branch].commit != i.base { return Ok(false); }
      world := w.(refs := w.refs - {i.branch});
      log := log + [Event(Effect.DeleteRef(i.branch, i.base, proof), w, world, held == Some(i.taskId), sights)];
      return Ok(true);
    }

    /** The exclusive creation of the record file. */
    method PutRecord(i: Intent, record: TreeRecord) returns (r: Reply<()>)
      requires RecordMatches(record, i, record.identity)
      modifies this`world, this`sights, this`clock, this`log
      ensures old(sights) <= sights && old(clock) <= clock && old(log) <= log && AllFit(log, |old(log)|, i, old(clock))
      ensures held == Some(i.taskId) && Mine(old(world), i) ==> Mine(world, i)
      ensures forall k :: |old(log)| <= k < |log| ==> log[k].effect == Effect.PutRecord(record)
      ensures !mortal ==> !r.Died?
      ensures !r.Collided?
      ensures !peers && i.taskId !in old(world).records ==>
                && (flaky || !r.Raised?)
                && world == if r.Ok? then old(world).(records := old(world).records[i.taskId := record]) else old(world)
    {
      var w :- Look();
      if i.taskId in w.records { return Raised; }
      world := w.(records := w.records[i.taskId := record]);
      log := log + [Event(Effect.PutRecord(record), w, world, held == Some(i.taskId), sights)];
      return Ok(());
    }

    // -------------------------------------------------------------- observations

    method BranchCommit(b: Branch) returns (r: Reply<Option<string>>)
      modifies this`world, this`sights, this`clock
      ensures old(sights) <= sights && old(clock) <= clock
      ensures HeldIntent(world, held) == HeldIntent(old(world), held)
      ensures !mortal ==> !r.Died?
      ensures !r.Collided?
      ensures !peers ==> world == old(world)
      ensures !peers && !flaky ==> !r.Raised?
      ensures !peers && r.Ok? ==> r.value == if b in world.refs then Some(world.refs[b].commit) else None
    {
      var w :- Look();
      if b !in w.refs { return Ok(None); }
      w :- Look();
      if b !in w.refs { return Raised; }
      return Ok(Some(w.refs[b].commit));
    }

    method ReservationOwned(i: Intent) returns (r: Reply<bool>, ghost proof: Sight)
      modifies this`world, this`sights, this`clock
      ensures old(sights) <= sights && old(clock) <= clock
      ensures HeldIntent(world, held) == HeldIntent(old(world), held)
      ensures !mortal ==> !r.Died?
      ensures !r.Collided?
      ensures old(clock) <= proof.time <= clock && (r == Ok(true) ==> Saw(proof, i))
      ensures !peers ==> world == old(world)
      ensures !peers && !flaky ==> !r.Raised?
      ensures !peers && r.Ok? ==> (r.value <==> OwnsRef(world, i))
    {
      proof := Sight(clock, world);
      var commit :- BranchCommit(i.branch);
      if commit != Some(i.base) { return Ok(false), proof; }
      var w :- Look();
      proof := Sight(clock - 1, world);
      if i.branch !in w.refs || w.refs[i.branch].newest.None? { return Ok(false), proof; }
      var newest := w.refs[i.branch].newest.value;
      return Ok(newest.commit == i.base && newest.message == Reservation(i)), proof;
    }

    method Observe(i: Intent) returns (r: Reply<Option<Observed>>)
      modifies this`world, this`sights, this`clock
      ensures old(sights) <= sights && old(clock) <= clock
      ensures HeldIntent(world, held) == HeldIntent(old(world), held)
      ensures !mortal ==> !r.Died?
      ensures !r.Collided?
      ensures !peers ==> world == old(world) && (r.Ok? || (r.Raised? && !flaky) ==> Sees(world, i, r))
    {
      var w :- Look();
      if i.path !in w.trees { return Ok(None); }
      w :- Look();
      if i.path !in w.trees { return Raised; }
      var identity := w.trees[i.path].identity;
      w :- Look();
      if i.path !in w.trees || w.trees[i.path].branch != i.branch { return Raised; }
      w :- Look();
      if i.path !in w.trees || w.trees[i.path].branch !in w.refs { return Raised; }
      var head := w.refs[w.trees[i.path].branch].commit;
      var commit :- BranchCommit(i.branch);
      w :- Look();
      if i.path !in w.trees { return Raised; }
      var dirty := w.trees[i.path].dirty;
      w :- Look();
      if i.path !in w.trees { return Raised; }
      return Ok(Some(Observed(identity, head, commit, !dirty && !w.trees[i.path].ignored)));
    }

    // -------------------------------------------------------------- reconciliation

    /** Compensates the reservation: only a branch that still carries it is deleted. */
    method CasDeleteBranch(i: Intent) returns (r: Reply<bool>)
      modifies this`world, this`sights, this`clock, this`log
      ensures old(sights) <= sights && old(clock) <= clock && old(log) <= log && AllFit(log, |old(log)|, i, old(clock))
      ensures held == Some(i.taskId) && Mine(old(world), i) ==> Mine(world, i)
      ensures !mortal ==> !r.Died?
      ensures !r.Collided?
      ensures !peers && (i.branch in old(world).refs ==> OwnsRef(old(world), i)) ==>
                && (flaky || !r.Raised?) && r != Ok(false)
                && (r.Ok? ==> i.branch !in world.refs)
                && (world == old(world) || world == old(world).(refs := old(world).refs - {i.branch}))
      ensures !peers && i.branch in old(world).refs && !OwnsRef(old(world), i) ==>
                (flaky || !r.Raised?) && r != Ok(true) && world == old(world)
    {
      var current :- BranchCommit(i.branch);
      if current.None? { return Ok(true); }
      if current != Some(i.base) { return Ok(false); }
      ghost var proof;
      var owned;
      owned, proof :- ReservationOwned(i);
      if !owned { return Ok(false); }
      var deleted :- DeleteRef(i, proof);
      if !deleted { return Ok(false); }
      var after :- BranchCommit(i.branch);
      return Ok(after.None?);
    }

    /** A proven reservation is noted in the intent file if it was not yet. */
    method NoteReserved(i: Intent) returns (r: Reply<Intent>)
      modifies this`world, this`sights, this`clock, this`log
      ensures old(sights) <= sights && old(clock) <= clock && old(log) <= log && AllFit(log, |old(log)|, i, old(clock))
      ensures held == Some(i.taskId) && Mine(old(world), i) ==> Mine(world, i)
      ensures !mortal ==> !r.Died?
      ensures !r.Collided?
      ensures r.Ok? ==> r.value == if i.phase == Prepared then i.(phase := BranchReserved, updatedAt := r.value.updatedAt) else i
      ensures !peers && i.taskId in old(world).intents && old(world).intents[i.taskId] == i ==>
                (flaky || !r.Raised?) && world == if r.Ok? then old(world).(intents := old(world).intents[i.taskId := r.value]) else old(world)
    {
      if i.phase != Prepared { return Ok(i); }
      var now: Time := Foreigner();
      var reserved := i.(phase := BranchReserved, updatedAt := now);
      var _ :- ReplaceIntent(reserved, i);
      return Ok(reserved);
    }

    /** Notes a proven reservation and deletes its branch; none when the branch was not deleted. */
    method Withdraw(intent: Intent) returns (r: Reply<Option<Intent>>)
      requires !peers ==>
        && intent.taskId in world.intents && world.intents[intent.taskId] == intent && OwnsRef(world, intent)
        && intent.path !in world.trees && intent.taskId !in world.records
      modifies this`world, this`sights, this`clock, this`log
      ensures old(sights) <= sights && old(clock) <= clock && old(log) <= log && AllFit(log, |old(log)|, intent, old(clock))
      ensures held == Some(intent.taskId) && Mine(old(world), intent) ==> Mine(world, intent)
      ensures !mortal ==> !r.Died?
      ensures !r.Collided?
      ensures r.Ok? && r.value.Some? ==> SameClaim(intent, r.value.value)
      ensures !peers ==> flaky || !r.Raised?
      ensures !peers && r.Ok? ==>
                && r.value.Some? && intent.branch !in world.refs && Rank(world, intent) < Rank(old(world), intent)
                && Elsewhere(old(world), world, intent) && intent.path !in world.trees && intent.taskId !in world.records
                && intent.taskId in world.intents && world.intents[intent.taskId] == r.value.value
      ensures !peers && !r.Ok? ==> Abandoned(old(world), world, intent)
    {
      var i :- NoteReserved(intent);
      var deleted :- CasDeleteBranch(i);
      return Ok(if deleted then Some(i) else None);
    }

    /** No worktree at the intended path: undo the reservation, then forget the intent. */
    method ReconcileAbsent(intent: Intent, hasRecord: bool, branchCommit: Option<string>, owned: bool) returns (r: Reply<Action>)
      requires !peers ==>
        && intent.taskId in world.intents && world.intents[intent.taskId] == intent && intent.path !in world.trees
        && (hasRecord <==> intent.taskId in world.records) && (branchCommit.Some? <==> intent.branch in world.refs)
        && (owned <==> OwnsRef(world, intent))
      modifies this`world, this`sights, this`clock, this`log
      ensures old(sights) <= sights && old(clock) <= clock && old(log) <= log && AllFit(log, |old(log)|, intent, old(clock))
      ensures held == Some(intent.taskId) && Mine(old(world), intent) ==> Mine(world, intent)
      ensures !mortal ==> !r.Died?
      ensures !r.Collided?
      ensures !peers ==> Reconciles(old(world), world, intent, r) && (flaky || !r.Raised?)
    {
      var i := intent;
      if hasRecord { return Ok(Unresolved); }
      if branchCommit.Some? {
        if !owned { return Ok(Unresolved); }
        var withdrawn :- Withdraw(i);
        if withdrawn.None? { return Ok(Unresolved); }
        i := withdrawn.value;
      }
      var _ :- DropIntent(i);
      return Ok(Compensated);
    }

    /** Carries the intent to the phase that binds the observed worktree; none when that is not justified. */
    method ProveAdded(intent: Intent, observed: Observed, owned: bool) returns (r: Reply<Option<Intent>>)
      requires !peers ==> Known(world, intent, observed, owned)
      modifies this`world, this`sights, this`clock, this`log
      ensures old(sights) <= sights && old(clock) <= clock && old(log) <= log && AllFit(log, |old(log)|, intent, old(clock))
      ensures held == Some(intent.taskId) && Mine(old(world), intent) ==> Mine(world, intent)
      ensures !mortal ==> !r.Died?
      ensures !r.Collided?
      ensures r.Ok? && r.value.Some? ==>
                var j := r.value.value;
                SameClaim(intent, j) && j.phase == Added && j.identity == Some(observed.identity) && (intent.phase == Added ==> j == intent)
      ensures !peers && r.Ok? ==>
                && (r.value.Some? <==> if intent.phase == Added then intent.identity == Some(observed.identity)
                                       else intent.phase == BranchReserved || owned)
                && world == (if r.value.None? then old(world)
                             else old(world).(intents := old(world).intents[intent.taskId := r.value.value]))
      ensures !peers ==> (flaky || !r.Raised?) && OnlyIntent(old(world), world, intent)
      ensures !peers && Resolvable(old(world), intent) && !r.Ok? ==> Abandoned(old(world), world, intent)
    {
      var i := intent;
      if i.phase == Added && i.identity != Some(observed.identity) { return Ok(None); }
      if i.phase == Prepared {
        if !owned { return Ok(None); }
        i :- NoteReserved(i);
      }
      if i.phase == BranchReserved {
        var now: Time := Foreigner();
        var proven := i.(phase := Added, identity := Some(observed.identity), updatedAt := now);
        var _ :- ReplaceIntent(proven, i);
        i := proven;
      }
      return Ok(Some(i));
    }

    /** A pristine worktree without a record: remove it, then the branch, then the intent. */
    method Compensate(i: Intent, ghost proof: Sight) returns (r: Reply<Action>)
      requires Saw(proof, i)
      requires !peers ==>
        i.taskId in world.intents && world.intents[i.taskId] == i && Pristine(world, i) && i.taskId !in world.records
        && Resolvable(world, i)
      modifies this`world, this`sights, this`clock, this`log
      ensures old(sights) <= sights && old(clock) <= clock && old(log) <= log && AllFit(log, |old(log)|, i, proof.time)
      ensures held == Some(i.taskId) && Mine(old(world), i) ==> Mine(world, i)
      ensures !mortal ==> !r.Died?
      ensures !r.Collided?
      ensures !peers ==>
                && (flaky || !r.Raised?)
                && (r.Ok? ==> r.value == CompensatedWorktree && Finished(old(world), world, i, r.value))
                && (!r.Ok? ==> Abandoned(old(world), world, i))
    {
      var removed :- RemoveTree(i, proof);
      if !removed { return Ok(Unresolved); }
      var deleted :- CasDeleteBranch(i);
      if !deleted { return Ok(Unresolved); }
      var _ :- DropIntent(i);
      return Ok(CompensatedWorktree);
    }

    /** A worktree that was used or moved on: keep it, record it as orphaned, then forget the intent. */
    method Preserve(i: Intent, observed: Observed) returns (r: Reply<Action>)
      requires !peers ==>
        && Known(world, i, observed, OwnsRef(world, i)) && Resolvable(world, i)
        && !Pristine(world, i) && i.taskId !in world.records
      modifies this`world, this`sights, this`clock, this`log
      ensures old(sights) <= sights && old(clock) <= clock && old(log) <= log && AllFit(log, |old(log)|, i, old(clock))
      ensures held == Some(i.taskId) && Mine(old(world), i) ==> Mine(world, i)
      ensures !mortal ==> !r.Died?
      ensures !r.Collided?
      ensures forall k :: |old(log)| <= k < |log| ==> !log[k].effect.RemoveTree? && !log[k].effect.DeleteRef?
      ensures !peers ==>
                && (flaky || !r.Raised?)
                && (r.Ok? ==> r.value.OrphanedIntent? && Finished(old(world), world, i, r.value))
                && (!r.Ok? ==> Abandoned(old(world), world, i))
    {
      var now: Time := Foreigner();
      var orphaned := RecordFor(i, observed.identity, OrphanedTree, now);
      var _ :- PutRecord(i, orphaned);
      var w :- Look();
      if i.taskId !in w.records || w.records[i.taskId] != orphaned { return Ok(Unresolved); }
      var _ :- DropIntent(i);
      return Ok(OrphanedIntent(orphaned));
    }

    /** A worktree without a record: only a pristine one under its own reservation is removed. */
    method CompensateOrPreserve(i: Intent, observed: Observed, owned: bool, ghost proof: Sight) returns (r: Reply<Action>)
      requires proof.time <= clock && (owned ==> Saw(proof, i))
      requires !peers ==> Known(world, i, observed, owned) && Resolvable(world, i) && i.taskId !in world.records
      modifies this`world, this`sights, this`clock, this`log
      ensures old(sights) <= sights && old(clock) <= clock && old(log) <= log && AllFit(log, |old(log)|, i, proof.time)
      ensures held == Some(i.taskId) && Mine(old(world), i) ==> Mine(world, i)
      ensures !mortal ==> !r.Died?
      ensures !r.Collided?
      ensures !(owned && observed.clean) || observed.head != i.base ==>
                forall k :: |old(log)| <= k < |log| ==> !log[k].effect.RemoveTree? && !log[k].effect.DeleteRef?
      ensures !peers ==>
                && (flaky || !r.Raised?)
                && (r.Ok? ==> Finished(old(world), world, i, r.value))
                && (!r.Ok? ==> Abandoned(old(world), world, i))
    {
      if owned && observed.clean && observed.head == i.base && observed.branchCommit == Some(i.base) {
        r := Compensate(i, proof);
      } else {
        r := Preserve(i, observed);
      }
    }

    /** A worktree bound in the intent: its own record finalizes it, without one it is compensated or preserved. */
    method Conclude(i: Intent, observed: Observed, record: Option<TreeRecord>, owned: bool, ghost proof: Sight)
      returns (r: Reply<Action>)
      requires proof.time <= clock && (owned ==> Saw(proof, i))
      requires i.phase == Added && i.identity == Some(observed.identity)
      requires !peers ==>
        && Known(world, i, observed, owned)
        && record == if i.taskId in world.records then Some(world.records[i.taskId]) else None
      modifies this`world, this`sights, this`clock, this`log
      ensures old(sights) <= sights && old(clock) <= clock && old(log) <= log && AllFit(log, |old(log)|, i, proof.time)
      ensures held == Some(i.taskId) && Mine(old(world), i) ==> Mine(world, i)
      ensures !mortal ==> !r.Died?
      ensures !r.Collided?
      ensures !peers ==> Reconciles(old(world), world, i, r) && (flaky || !r.Raised?)
    {
      if record.Some? {
        if !RecordMatches(record.value, i, observed.identity) { return Ok(Unresolved); }
        var _ :- DropIntent(i);
        return Ok(Finalized(record.value));
      }
      r := CompensateOrPreserve(i, observed, owned, proof);
    }

    /** What reconciliation does with an observed worktree. */
    method ReconcilePresent(intent: Intent, observed: Observed, record: Option<TreeRecord>, owned: bool, ghost proof: Sight)
      returns (r: Reply<Action>)
      requires proof.time <= clock && (owned ==> Saw(proof, intent))
      requires !peers ==>
        && Known(world, intent, observed, owned)
        && record == if intent.taskId in world.records then Some(world.records[intent.taskId]) else None
      modifies this`world, this`sights, this`clock, this`log
      ensures old(sights) <= sights && old(clock) <= clock && old(log) <= log && AllFit(log, |old(log)|, intent, proof.time)
      ensures held == Some(intent.taskId) && Mine(old(world), intent) ==> Mine(world, intent)
      ensures !mortal ==> !r.Died?
      ensures !r.Collided?
      ensures !peers ==> Reconciles(old(world), world, intent, r) && (flaky || !r.Raised?)
    {
      var proven :- ProveAdded(intent, observed, owned);
      if proven.None? { return Ok(Unresolved); }
      var i := proven.value;
      ghost var noted := world;
      if !peers { StillKnown(old(world), noted, intent, i, observed, owned); }
      r := Conclude(i, observed, record, owned, proof);
      if !peers { AfterProgress(old(world), noted, world, intent, i, observed, owned, r); }
    }

    /** The reads a reconciliation starts with. */
    method Gather(i: Intent) returns (r: Reply<Evidence>, ghost proof: Sight)
      modifies this`world, this`sights, this`clock
      ensures old(sights) <= sights && old(clock) <= proof.time <= clock
      ensures HeldIntent(world, held) == HeldIntent(old(world), held)
      ensures !mortal ==> !r.Died?
      ensures !r.Collided?
      ensures r.Ok? && r.value.owned ==> Saw(proof, i)
      ensures !peers ==> world == old(world) && (r.Ok? ==> Gathered(world, i, r.value))
      ensures !peers && !flaky && r.Raised? ==> Sees(world, i, Raised)
    {
      proof := Sight(clock, world);
      var w :- Look();
      var record := if i.taskId in w.records then Some(w.records[i.taskId]) else None;
      var observed :- Observe(i);
      var branchCommit :- BranchCommit(i.branch);
      var owned := false;
      if branchCommit.Some? {
        owned, proof :- ReservationOwned(i);
      }
      return Ok(Evidence(record, observed, branchCommit, owned)), proof;
    }

    method Reconcile(intent: Intent, includeLive: bool, ownerAlive: bool) returns (r: Reply<Action>)
      requires !peers ==> intent.taskId in world.intents && world.intents[intent.taskId] == intent
      modifies this`world, this`sights, this`clock, this`log
      ensures old(sights) <= sights && old(clock) <= clock && old(log) <= log && AllFit(log, |old(log)|, intent, old(clock))
      ensures held == Some(intent.taskId) && Mine(old(world), intent) ==> Mine(world, intent)
      ensures !mortal ==> !r.Died?
      ensures !r.Collided?
      ensures !includeLive && ownerAlive ==> r == Ok(Live) && world == old(world) && log == old(log)
      ensures !peers && (includeLive || !ownerAlive) ==> Reconciles(old(world), world, intent, r)
      ensures !peers && !flaky && (includeLive || !ownerAlive) && Resolvable(old(world), intent) ==> !r.Raised?
    {
      if !includeLive && ownerAlive { return Ok(Live); }
      ghost var proof;
      var evidence;
      evidence, proof :- Gather(intent);
      if evidence.observed.None? {
        r := ReconcileAbsent(intent, evidence.record.Some?, evidence.branchCommit, evidence.owned);
      } else {
        r := ReconcilePresent(intent, evidence.observed.value, evidence.record, evidence.owned, proof);
      }
    }

    // -------------------------------------------------------------- creation

    /** The first candidate name that no branch has. */
    method SafeBranch(candidates: seq<Branch>) returns (r: Reply<Branch>)
      modifies this`world, this`sights, this`clock
      ensures old(sights) <= sights && old(clock) <= clock
      ensures HeldIntent(world, held) == HeldIntent(old(world), held)
      ensures !mortal ==> !r.Died?
      ensures !r.Collided?
      ensures !peers ==> world == old(world)
      ensures !peers && r.Ok? ==> FirstFree(world, candidates, r.value)
      ensures !peers && !flaky && r.Raised? ==> forall m :: 0 <= m < |candidates| && m < 100 ==> candidates[m] in world.refs
    {
      var n := 0;
      while n < |candidates| && n < 100
        invariant 0 <= n <= |candidates| && n <= 100 && old(sights) <= sights && old(clock) <= clock
        invariant HeldIntent(world, held) == HeldIntent(old(world), held)
        invariant !peers ==> world == old(world) && forall m :: 0 <= m < n ==> candidates[m] in world.refs
      {
        var w :- Look();
        if candidates[n] !in w.refs { return Ok(candidates[n]); }
        n := n + 1;
      }
      return Raised;
    }

    /** The creation proper, once its intent is durable; `started` says that the branch may have been touched. */
    method Attempt(intent: Intent) returns (r: Reply<TreeRecord>, started: bool)
      requires intent.phase == Prepared && intent.identity.None?
      requires !peers ==>
        && intent.taskId in world.intents && world.intents[intent.taskId] == intent
        && Nothing(world.(intents := world.intents - {intent.taskId}), intent)
      modifies this`world, this`sights, this`clock, this`log
      ensures old(sights) <= sights && old(clock) <= clock && old(log) <= log && AllFit(log, |old(log)|, intent, old(clock), true)
      ensures held == Some(intent.taskId) && Mine(old(world), intent) ==> Mine(world, intent)
      ensures ReservesAtMostOnce(log, |old(log)|)
      ensures !mortal ==> !r.Died?
      ensures r.Collided? || !started ==> !r.Ok? && log == old(log)
      ensures !peers && (r.Collided? || !started) ==> world == old(world)
      ensures r.Collided? ==> peers || flaky
      ensures !peers && r.Ok? ==>
                Everything(world, intent) && Elsewhere(old(world), world, intent) && r.value == world.records[intent.taskId]
      ensures !peers && !r.Ok? ==> Left(old(world), world, intent)
    {
      started := false;
      var i := intent;
      var w :- Look();
      if i.path in w.trees { return Raised, started; }
      var taken :- BranchCommit(i.branch);
      if taken.Some? { return Raised, started; }
      started := true;
      var _ :- SecureBranch(i);
      r := Build(i);
    }

    /** Reserves the branch and makes sure that the reservation is on it. */
    method SecureBranch(intent: Intent) returns (r: Reply<()>)
      modifies this`world, this`sights, this`clock, this`log
      ensures old(sights) <= sights && old(clock) <= clock && old(log) <= log && AllFit(log, |old(log)|, intent, old(clock), true)
      ensures held == Some(intent.taskId) && Mine(old(world), intent) ==> Mine(world, intent)
      ensures ReservesAtMostOnce(log, |old(log)|)
      ensures !mortal ==> !r.Died?
      ensures r.Collided? ==> log == old(log) && (!peers ==> world == old(world) && (flaky || intent.branch in old(world).refs))
      ensures !peers && r.Ok? ==> intent.branch !in old(world).refs
      ensures !peers && !r.Collided? ==>
                || world == old(world).(refs := old(world).refs[intent.branch := Reserved(intent)])
                || (!r.Ok? && world == old(world))
    {
      var _ :- ReserveRef(intent);
      ghost var proof;
      var owned;
      owned, proof :- ReservationOwned(intent);
      if !owned { return Raised; }
      return Ok(());
    }

    /** The part of the creation behind its reservation: worktree, proof of its identity, record. */
    method Build(intent: Intent) returns (r: Reply<TreeRecord>)
      requires intent.phase == Prepared && intent.identity.None?
      requires !peers ==>
        && intent.taskId in world.intents && world.intents[intent.taskId] == intent && OwnsRef(world, intent)
        && intent.path !in world.trees && intent.taskId !in world.records
      modifies this`world, this`sights, this`clock, this`log
      ensures old(sights) <= sights && old(clock) <= clock && old(log) <= log && AllFit(log, |old(log)|, intent, old(clock))
      ensures held == Some(intent.taskId) && Mine(old(world), intent) ==> Mine(world, intent)
      ensures !mortal ==> !r.Died?
      ensures !r.Collided?
      ensures !peers && r.Ok? ==>
                Everything(world, intent) && Elsewhere(old(world), world, intent) && r.value == world.records[intent.taskId]
      ensures !peers && !r.Ok? ==> Left(old(world), world, intent)
    {
      var i :- NoteReserved(intent);
      var _ :- AddTree(i);
      r := Finalize(i);
    }

    /** Validates the new worktree, binds it in the intent and writes the record. */
    method Finalize(intent: Intent) returns (r: Reply<TreeRecord>)
      requires intent.phase == BranchReserved
      requires !peers ==>
        && intent.taskId in world.intents && world.intents[intent.taskId] == intent && Pristine(world, intent)
        && world.trees[intent.path].branch == intent.branch && intent.taskId !in world.records
      modifies this`world, this`sights, this`clock, this`log
      ensures old(sights) <= sights && old(clock) <= clock && old(log) <= log && AllFit(log, |old(log)|, intent, old(clock))
      ensures held == Some(intent.taskId) && Mine(old(world), intent) ==> Mine(world, intent)
      ensures !mortal ==> !r.Died?
      ensures !r.Collided?
      ensures !peers && r.Ok? ==>
                Everything(world, intent) && Elsewhere(old(world), world, intent) && r.value == world.records[intent.taskId]
      ensures !peers && !r.Ok? ==> Left(old(world), world, intent)
    {
      var seen :- Observe(intent);
      if seen.None? || seen.value.head != intent.base || seen.value.branchCommit != Some(intent.base) || !seen.value.clean {
        return Raised;
      }
      r := Bind(intent, seen.value.identity);
    }

    /** Notes the identity of the new worktree in the intent, writes the record and forgets the intent. */
    method Bind(intent: Intent, identity: string) returns (r: Reply<TreeRecord>)
      requires intent.phase == BranchReserved
      requires !peers ==>
        && intent.taskId in world.intents && world.intents[intent.taskId] == intent && Pristine(world, intent)
        && world.trees[intent.path].branch == intent.branch && world.trees[intent.path].identity == identity
        && intent.taskId !in world.records
      modifies this`world, this`sights, this`clock, this`log
      ensures old(sights) <= sights && old(clock) <= clock && old(log) <= log && AllFit(log, |old(log)|, intent, old(clock))
      ensures held == Some(intent.taskId) && Mine(old(world), intent) ==> Mine(world, intent)
      ensures !mortal ==> !r.Died?
      ensures !r.Collided?
      ensures !peers && r.Ok? ==>
                Everything(world, intent) && Elsewhere(old(world), world, intent) && r.value == world.records[intent.taskId]
      ensures !peers && !r.Ok? ==> Left(old(world), world, intent)
    {
      var now: Time := Foreigner();
      var i := intent.(phase := Added, identity := Some(identity), updatedAt := now);
      var _ :- ReplaceIntent(i, intent);
      var record := RecordFor(i, identity, Active, i.createdAt);
      var _ :- PutRecord(i, record);
      var _ :- DropIntent(i);
      return Ok(record);
    }

    /** What a failed creation does before it reports its failure. */
    method CleanUp(intent: Intent, failure: Reply<TreeRecord>, started: bool) returns (r: Reply<TreeRecord>)
      requires failure.Raised? || failure.Collided?
      requires held == Some(intent.taskId) && Mine(world, intent)
      requires !peers ==>
        && (flaky || failure.Raised?) && intent.taskId in world.intents && Resolvable(world, world.intents[intent.taskId]) && Untampered(world, world.intents[intent.taskId])
        && (!started || failure.Collided? ==> world.intents[intent.taskId] == intent && intent.branch !in world.refs)
      modifies this`world, this`sights, this`clock, this`log
      ensures old(sights) <= sights && old(clock) <= clock && old(log) <= log && AllFit(log, |old(log)|, intent, old(clock))
      ensures held == Some(intent.taskId) && Mine(old(world), intent) ==> Mine(world, intent)
      ensures failure.Collided? || !started ==>
                !r.Ok? && forall k :: |old(log)| <= k < |log| ==> log[k].effect == Effect.DropIntent(intent.taskId)
      ensures !mortal ==> !r.Died?
      ensures r.Collided? ==> failure.Collided?
      ensures !peers && r.Ok? ==>
                Everything(world, intent) && Elsewhere(old(world), world, intent) && r.value == world.records[intent.taskId]
      ensures !peers && !flaky && !r.Ok? && !r.Died? ==> Nothing(world, intent) && Elsewhere(old(world), world, intent)
      ensures !peers && !r.Ok? ==> Left(old(world), world, intent) || (Nothing(world, intent) && Elsewhere(old(world), world, intent))
    {
      if !started {
        var dropped := DropIntent(intent);
        return if dropped.Died? then Died else failure;
      }
      var look := Look();
      if look.Died? { return Died; }
      if look.Ok? && intent.taskId in look.value.intents {
        var current := look.value.intents[intent.taskId];
        if failure.Collided? {
          var dropped := DropIntent(current);
          return if dropped.Died? then Died else failure;
        }
        var action := Reconcile(current, true, true);
        if action.Died? { return Died; }
        if action.Ok? && action.value.Finalized? { return Ok(action.value.record); }
      }
      return failure;
    }

    /** The creation behind its durable intent, with what happens when it fails. */
    method Execute(intent: Intent) returns (r: Reply<TreeRecord>)
      requires intent.phase == Prepared && intent.identity.None? && held == Some(intent.taskId)
      requires intent.taskId in world.intents && world.intents[intent.taskId] == intent
      requires !peers ==> Nothing(world.(intents := world.intents - {intent.taskId}), intent)
      modifies this`world, this`sights, this`clock, this`log
      ensures old(sights) <= sights && old(clock) <= clock && old(log) <= log && AllFit(log, |old(log)|, intent, old(clock), true)
      ensures ReservesAtMostOnce(log, |old(log)|)
      ensures !mortal ==> !r.Died?
      ensures r.Collided? ==>
                forall k :: |old(log)| <= k < |log| ==> log[k].effect == Effect.DropIntent(intent.taskId)
      ensures !peers && r.Ok? ==>
                Everything(world, intent) && Elsewhere(old(world), world, intent) && r.value == world.records[intent.taskId]
      ensures !peers && !flaky && !r.Ok? && !r.Died? ==> Nothing(world, intent) && Elsewhere(old(world), world, intent)
      ensures !peers && !r.Ok? ==> Left(old(world), world, intent) || (Nothing(world, intent) && Elsewhere(old(world), world, intent))
      ensures !peers && !flaky ==> !r.Collided?
    {
      var started;
      r, started := Attempt(intent);
      if r.Raised? || r.Collided? {
        r := CleanUp(intent, r, started);
      }
    }

    /** The checks before anything is written: no record, no intent, a free path and a free branch name. */
    method Survey(id: string, path: string, candidates: seq<Branch>) returns (r: Reply<Branch>)
      modifies this`world, this`sights, this`clock
      ensures old(sights) <= sights && old(clock) <= clock
      ensures !mortal ==> !r.Died?
      ensures !r.Collided?
      ensures !peers ==> world == old(world)
      ensures !peers && r.Ok? ==>
                id !in world.records && id !in world.intents && path !in world.trees && FirstFree(world, candidates, r.value)
    {
      var w :- Look();
      if id in w.records { return Raised; }
      w :- Look();
      if id in w.intents { return Raised; }
      w :- Look();
      if path in w.trees { return Raised; }
      r := SafeBranch(candidates);
    }

    /** The durable intent, and the creation behind it. */
    method Begin(intent: Intent) returns (r: Reply<TreeRecord>)
      requires intent.phase == Prepared && intent.identity.None?
      requires !peers ==> Nothing(world, intent)
      modifies this`world, this`sights, this`clock, this`log, this`held
      ensures old(sights) <= sights && old(clock) <= clock && old(log) <= log && AllFit(log, |old(log)|, intent, old(clock), true)
      ensures ReservesAtMostOnce(log, |old(log)|)
      ensures !mortal ==> !r.Died?
      ensures r.Collided? ==>
                forall k :: |old(log)| <= k < |log| ==> log[k].effect in {Effect.PutIntent(intent), Effect.DropIntent(intent.taskId)}
      ensures !peers && r.Ok? ==>
                Everything(world, intent) && Elsewhere(old(world), world, intent) && r.value == world.records[intent.taskId]
      ensures !peers && !flaky && r.Raised? ==> world == old(world)
      ensures !peers && !r.Ok? ==> world == old(world) || Underway(old(world), world, intent.taskId)
      ensures !peers && !flaky ==> !r.Collided?
    {
      var _ :- PutIntent(intent);
      held := Some(intent.taskId);
      ghost var durable := world;
      r := Execute(intent);
      held := None;
      if !peers {
        assert Nothing(old(world), intent) && Elsewhere(old(world), durable, intent);
        if Nothing(world, intent) && Elsewhere(old(world), world, intent) { NothingRestores(old(world), world, intent); }
      }
    }

    /**
      Creates the worktree of one task.  Undisturbed, it ends all-or-nothing: everything is there and the
      intent is gone, or the world is exactly what it was; a crash leaves either that world or one from
      which reconciliation can finish.  Disturbed, every mutation still fits its own claim, and a creator
      that lost the branch reservation has written and removed nothing but its own intent.
     */
    method Create(id: string, path: string, base: string, candidates: seq<Branch>, pid: nat, token: string)
      returns (r: Reply<TreeRecord>, ghost claim: Intent)
      modifies this`world, this`sights, this`clock, this`log, this`held
      ensures old(sights) <= sights && old(clock) <= clock && old(log) <= log && AllFit(log, |old(log)|, claim, old(clock), true)
      ensures claim.taskId == id && claim.path == path && claim.base == base && claim.token == token
      ensures ReservesAtMostOnce(log, |old(log)|)
      ensures !mortal ==> !r.Died?
      ensures r.Collided? ==>
                forall k :: |old(log)| <= k < |log| ==> log[k].effect in {Effect.PutIntent(claim), Effect.DropIntent(id)}
      ensures !peers && r.Ok? ==>
                && Nothing(old(world), claim) && Everything(world, claim) && Elsewhere(old(world), world, claim)
                && r.value == world.records[id]
      ensures !peers && !flaky && r.Raised? ==> world == old(world)
      ensures !peers && !r.Ok? ==> world == old(world) || Underway(old(world), world, id)
      ensures !peers && !flaky ==> !r.Collided?
    {
      var now: Time := Foreigner();
      var nowhere := Branch("", "");
      claim := Intent(id, nowhere, path, base, token, pid, now, now, Prepared, None);
      held := None;
      var branch :- Survey(id, path, candidates);
      var intent := Intent(id, branch, path, base, token, pid, now, now, Prepared, None);
      claim := intent;
      r := Begin(intent);
    }

    /** One entry of the recovery of creation intents, after the death of its owner. */
    method RecoverOne(id: string) returns (r: Reply<Action>)
      requires !peers
      modifies this`world, this`sights, this`clock, this`log
      ensures !mortal ==> !r.Died?
      ensures forall o :: Underway(o, old(world), id) && !mortal && !flaky ==> r.Ok?
      ensures id !in old(world).intents ==> world == old(world)
      ensures id in old(world).intents && old(world).intents[id].taskId == id ==>
                Reconciles(old(world), world, old(world).intents[id], r)
      ensures forall o :: Underway(o, old(world), id) ==> Resumed(o, world, id, !r.Ok?)
    {
      var w :- Look();
      if id !in w.intents || w.intents[id].taskId != id { return Raised; }
      r := Reconcile(w.intents[id], false, false);
      forall o | Underway(o, old(world), id) ensures Resumed(o, world, id, !r.Ok?) {
        Resume(o, old(world), world, id, r);
      }
    }

    /** One pass of the recovery of all intents. */
    method RecoverNext(id: string, live: set<string>, count: CreateIntentRecovery, ghost start: World, ghost rest: set<string>)
      returns (r: Reply<Action>)
      requires !peers && !flaky && Disjoint(start) == true && Recovering(start, world, rest, live, count) == true && id in rest
      modifies this`world, this`sights, this`clock, this`log
      ensures !mortal ==> !r.Died?
      ensures !r.Died? ==> Recovering(start, world, rest - {id}, live, Counted(count, r)) == true
    {
      EntryIsPending(start, world, rest, live, count, id);
      ghost var before := world;
      var w :- Look();
      var intent := w.intents[id];
      r := Reconcile(intent, false, id in live);
      if !r.Died? { EntryRecovered(start, before, world, intent, rest, live, count, r); }
    }

    /**
      Recovery of all creation intents.  Undisturbed and to its end, it resolves exactly those whose owner
      is dead and whose claim is resolvable, and its counters account for every intent.
     */
    method RecoverCreationIntents(live: set<string>) returns (r: Reply<CreateIntentRecovery>)
      requires !peers && !flaky && Disjoint(world) == true
      modifies this`world, this`sights, this`clock, this`log
      ensures !mortal ==> r.Ok?
      ensures forall id {:trigger Handled(old(world), world, id, live)} :: id in old(world).intents && r.Ok? ==>
                Handled(old(world), world, id, live)
      ensures r.Ok? ==>
                && world.intents.Keys <= old(world).intents.Keys
                && |world.intents.Keys| == r.value.unresolved + r.value.live
                && r.value.compensated + r.value.finalized + r.value.orphaned + |world.intents.Keys| == |old(world).intents.Keys|
    {
      var count := CreateIntentRecovery(0, 0, 0, 0, 0, 0);
      ghost var start := world;
      var rest := world.intents.Keys;
      while rest != {}
        invariant Recovering(start, world, rest, live, count) == true
        decreases |rest|
      {
        var id :| id in rest;
        var action := RecoverNext(id, live, count, start, rest);
        if action.Died? { return Died; }
        rest := rest - {id};
        count := Counted(count, action);
      }
      return Ok(count);
    }

    /**
      Crash-atomic creation: the creator may die at any step, and so may each of any number of later
      recoveries; one recovery that runs to its end leaves everything or exactly the world of the start.
     */
    method SurvivesCrashes(id: string, path: string, base: string, candidates: seq<Branch>, pid: nat, token: string, restarts: nat)
      requires !peers && id !in world.intents
      modifies this
      ensures AllOrNothing(old(world), world, id)
    {
      mortal, flaky := true, true;
      ghost var claim;
      var r;
      r, claim := Create(id, path, base, candidates, pid, token);
      var pending := !r.Ok?;
      if r.Ok? { IntentOf(old(world), world, claim); }
      var n := 0;
      while n < restarts
        invariant !peers
        invariant (AllOrNothing(old(world), world, id) && id !in world.intents) || (pending && Underway(old(world), world, id))
      {
        if pending {
          ghost var before := world;
          var again := RecoverOne(id);
          pending := !again.Ok?;
          assert Underway(old(world), before, id) ==> Resumed(old(world), world, id, !again.Ok?);
        }
        n := n + 1;
      }
      mortal, flaky := false, false;
      if pending {
        ghost var before := world;
        var last := RecoverOne(id);
        assert Underway(old(world), before, id) ==> Resumed(old(world), world, id, !last.Ok?);
      }
    }

    // -------------------------------------------------------------- ownership evidence

    /** The branches this tool may claim as its own: never by name, only by record and checkout, or by reservation. */
    method ActiveOwnedBranchRefs() returns (r: Reply<set<Branch>>)
      modifies this`world, this`sights, this`clock
      ensures !mortal ==> !r.Died?
      ensures !r.Collided?
      ensures !peers ==> world == old(world)
      ensures !peers && r.Ok? ==> EvidenceHolds(world) && r.value == OwnedRefs(world)
      ensures !peers && !flaky && r.Raised? ==> !EvidenceHolds(world)
    {
      var refs := {};
      var w :- Look();
      var rest := w.records.Keys;
      while rest != {}
        invariant !peers ==> world == old(world) && rest <= world.records.Keys
        invariant !peers ==> refs == (set id | id in world.records && id !in rest && IsActive(world, id) :: RecordBranch(world.records[id].record))
        invariant !peers ==> forall id :: id in world.records && id !in rest && IsActive(world, id) ==> RecordProven(world, world.records[id])
        decreases |rest|
      {
        var id :| id in rest;
        rest := rest - {id};
        w :- Look();
        if id in w.records && w.records[id].record.status == Active {
          if !RecordProven(w, w.records[id]) { return Raised; }
          refs := refs + {RecordBranch(w.records[id].record)};
        }
      }
      r := ReservedBranches(refs);
    }

    method ReservedBranches(recorded: set<Branch>) returns (r: Reply<set<Branch>>)
      modifies this`world, this`sights, this`clock
      ensures !mortal ==> !r.Died?
      ensures !r.Collided?
      ensures !peers ==> world == old(world)
      ensures !peers && r.Ok? ==> r.value == recorded + ReservedRefs(world) && IntentsProven(world)
      ensures !peers && !flaky && r.Raised? ==> !IntentsProven(world)
    {
      var refs := recorded;
      var w :- Look();
      var rest := w.intents.Keys;
      while rest != {}
        invariant !peers ==> world == old(world) && rest <= world.intents.Keys
        invariant !peers ==> refs == recorded + ReservedOutside(world, rest)
        invariant !peers ==> forall id {:trigger IntentProven(world, id)} :: id in world.intents && id !in rest ==> IntentProven(world, id)
        decreases |rest|
      {
        var id :| id in rest;
        rest := rest - {id};
        w :- Look();
        if id !in w.intents || w.intents[id].taskId != id {
          assert !peers ==> id in world.intents && !IntentProven(world, id);
          return Raised;
        }
        var intent := w.intents[id];
        var owned, _ :- ReservationOwned(intent);
        if owned { refs := refs + {intent.branch}; }
        else if intent.phase != Prepared {
          assert !peers ==> id in world.intents && !IntentProven(world, id);
          return Raised;
        }
      }
      return Ok(refs);
    }
  }
}

/** What holds of the task database over whole runs: histories, races and lifecycles. */
module TaskHistories {
  import opened Contracts
  import opened TaskDatabase

  // ---------------------------------------------------------------- shape of completed histories

  /** Reviewing is only ever reached through an unbroken run of reviewing events after a verifying one. */
  lemma {:induction false} ReviewingRun(h: seq<Event>, row: TaskRow, n: nat) returns (v: nat)
    requires ChainOk(h, row) && n < |h| && h[n].to == Reviewing
    ensures v < n && h[v].to == Verifying
    ensures forall j :: v < j <= n ==> h[j].to == Reviewing
  {
    assert n > 0;
    assert StepOk(h[n - 1], h[n]);
    if h[n - 1].to == Verifying { v := n - 1; } else { v := ReviewingRun(h, row, n - 1); }
  }

  lemma {:induction false} VerifyingRun(h: seq<Event>, row: TaskRow, n: nat) returns (e: nat)
    requires ChainOk(h, row) && n < |h| && h[n].to == Verifying
    ensures e < n && h[e].to == Executing
    ensures forall j :: e < j <= n ==> h[j].to == Verifying
  {
    assert n > 0;
    assert StepOk(h[n - 1], h[n]);
    if h[n - 1].to == Executing { e := n - 1; } else { e := VerifyingRun(h, row, n - 1); }
  }

  lemma CompletedChainShape(h: seq<Event>, row: TaskRow, c: nat) returns (e: nat, v: nat)
    requires ChainOk(h, row) && c < |h| && h[c].to == Completed
    ensures c == |h| - 1 && e < v < c - 1 && h[e].to == Executing
    ensures forall j :: e < j <= v ==> h[j].to == Verifying
    ensures forall j :: v < j < c ==> h[j].to == Reviewing
  {
    forall j | 0 <= j < |h| - 1 ensures h[j].to != Completed { assert StepOk(h[j], h[j + 1]); }
    assert c > 0 && StepOk(h[c - 1], h[c]);
    v := ReviewingRun(h, row, c - 1);
    e := VerifyingRun(h, row, v);
  }

  /**
    A history that reaches COMPLETED ends with one EXECUTING event, one or more VERIFYING, one or more
    REVIEWING, and COMPLETED as its last event.
   */
  lemma CompletedHistoryShape(k: Keys, ops: seq<Op>, id: string, c: nat) returns (e: nat, v: nat)
    requires forall i :: 0 <= i < |ops| ==> WellTyped(ops[i])
    requires id in Run(k, ops).tasks
    requires c < |History(Run(k, ops).events, id)| && History(Run(k, ops).events, id)[c].to == Completed
    ensures var h := History(Run(k, ops).events, id);
            && c == |h| - 1 && e < v < c - 1
            && h[e].to == Executing
            && (forall j :: e < j <= v ==> h[j].to == Verifying)
            && (forall j :: v < j < c ==> h[j].to == Reviewing)
  {
    RunKeepsInv(k, ops);
    var db := Run(k, ops);
    assert Chained(db, id);
    e, v := CompletedChainShape(History(db.events, id), db.tasks[id], c);
  }

  /** A completed task was delivered: its snapshot carries a review with every gate checked. */
  lemma {:induction false} CompletedWasDelivered(k: Keys, ops: seq<Op>, id: string)
    requires forall i :: 0 <= i < |ops| ==> WellTyped(ops[i])
    requires id in Run(k, ops).tasks && Run(k, ops).tasks[id].state.status == Completed
    ensures var s := Run(k, ops).tasks[id].state;
      && s.review.Some? && AllGates(s.review.value) && s.unresolvedErrors == []
      && (s.commitSha.Some? ==> s.review.value.verdict == Approved && s.request.permissions.localCommit)
  {
    RunKeepsInv(k, ops);
    var db := Run(k, ops);
    assert Chained(db, id);
    var h := History(db.events, id);
    HistoryDigestsValid(db, db.events, id);
    assert ValidState(h[|h| - 1].digest);
  }

  lemma {:induction false} HistoryDigestsValid(db: Db, events: seq<Event>, id: string)
    requires forall i :: 0 <= i < |events| ==> ValidState(events[i].digest)
    ensures forall i :: 0 <= i < |History(events, id)| ==> ValidState(History(events, id)[i].digest)
  {
    if events != [] { HistoryDigestsValid(db, events[..|events| - 1], id); }
  }

  // ---------------------------------------------------------------- evolution between two moments

  ghost predicate TaskEvolves(a: TaskRow, b: TaskRow) {
    && a.state.request == b.state.request
    && a.state.sourceRepository == b.state.sourceRepository
    && a.state.createdAt == b.state.createdAt
    && a.state.updatedAt <= b.state.updatedAt
    && a.version <= b.version
    && (IsTerminal(a.state.status) ==> a == b)
  }

  ghost predicate WorktreeEvolves(a: WorktreeRecord, b: WorktreeRecord) {
    && a.taskId == b.taskId && SameIdentity(a, b) && a.createdAt == b.createdAt
    && a.heartbeatAt <= b.heartbeatAt
    && (a.completedAt.Some? ==>
          b.completedAt == a.completedAt && b.status != Active && b.ownerPid == a.ownerPid)
    && (a.status == Removed ==> a == b)
  }

  ghost predicate Evolves(a: Db, b: Db) {
    && (forall id :: id in a.tasks ==> id in b.tasks && TaskEvolves(a.tasks[id], b.tasks[id]))
    && a.events <= b.events
    && (forall id :: id in a.worktrees ==> id in b.worktrees && WorktreeEvolves(a.worktrees[id].record, b.worktrees[id].record))
  }

  lemma EvolvesReflexive(db: Db)
    requires AllRowsOk(db)
    ensures Evolves(db, db)
  {
    forall id | id in db.worktrees ensures WorktreeEvolves(db.worktrees[id].record, db.worktrees[id].record) {
      assert RowOk(db, id);
    }
  }

  lemma TransitionEvolves(db: Db, s: TaskState, expected: Option<nat>)
    requires AllRowsOk(db) && ApplyTransition(db, s, expected).Committed?
    ensures Evolves(db, ApplyTransition(db, s, expected).db)
  {
    EvolvesReflexive(db);
    var row := db.tasks[s.request.taskId];
    assert TaskEvolves(row, TaskRow(s, row.version + 1));
  }

  lemma UpdateEvolves(k: Keys, db: Db, r: WorktreeRecord)
    requires AllRowsOk(db) && ApplyUpdate(k, db, r).Committed?
    ensures Evolves(db, ApplyUpdate(k, db, r).db)
  {
    EvolvesReflexive(db);
    assert RowOk(db, r.taskId);
    assert WorktreeEvolves(db.worktrees[r.taskId].record, r);
  }

  lemma StepEvolves(k: Keys, db: Db, op: Op)
    requires AllRowsOk(db)
    ensures Evolves(db, Step(k, db, op))
  {
    EvolvesReflexive(db);
    if Apply(k, db, op).Committed? {
      match op
      case CreateTask(s) =>
      case Transition(s, expected) => TransitionEvolves(db, s, expected);
      case Register(r) =>
      case Update(r) => UpdateEvolves(k, db, r);
    }
  }

  lemma EvolvesTransitive(a: Db, b: Db, c: Db)
    requires Evolves(a, b) && Evolves(b, c)
    ensures Evolves(a, c)
  {
  }

  /**
    Between any two moments of any run: the log only grows, terminal snapshots never change again,
    request, repository and creation time are fixed, update time and version never decrease; a worktree
    that ever completed keeps its completion time and owner and is never active again, a removed one
    never changes, and heartbeats never move back.
   */
  lemma {:induction false} RunEvolves(k: Keys, ops: seq<Op>, i: nat)
    requires i <= |ops| && forall j :: 0 <= j < |ops| ==> WellTyped(ops[j])
    ensures Evolves(Run(k, ops[..i]), Run(k, ops))
  {
    if i == |ops| {
      assert ops[..i] == ops;
      RunKeepsInv(k, ops);
      EvolvesReflexive(Run(k, ops));
    } else {
      var before := ops[..|ops| - 1];
      RunEvolves(k, before, i);
      assert before[..i] == ops[..i];
      RunKeepsInv(k, before);
      StepEvolves(k, Run(k, before), ops[|ops| - 1]);
      EvolvesTransitive(Run(k, ops[..i]), Run(k, before), Run(k, ops));
    }
  }

  // ---------------------------------------------------------------- races on one version

  predicate CommitsAt(k: Keys, ops: seq<Op>, i: nat)
    requires i < |ops|
  {
    Apply(k, Run(k, ops[..i]), ops[i]).Committed?
  }

  predicate ExpectsVersion(op: Op, id: string, v: nat) {
    op.Transition? && op.state.request.taskId == id && op.expected == Some(v)
  }

  /** Of all writers that hold one expected version of a task, at most one commits. */
  lemma OneWriterPerVersion(k: Keys, ops: seq<Op>, i: nat, j: nat, id: string, v: nat)
    requires forall n :: 0 <= n < |ops| ==> WellTyped(ops[n])
    requires i < j < |ops| && ExpectsVersion(ops[i], id, v) && ExpectsVersion(ops[j], id, v)
    ensures !(CommitsAt(k, ops, i) && CommitsAt(k, ops, j))
  {
    if CommitsAt(k, ops, i) {
      assert ops[..i + 1][..i] == ops[..i];
      var after := Run(k, ops[..i + 1]);
      assert after == Step(k, Run(k, ops[..i]), ops[i]);
      assert after.tasks[id].version == v + 1;
      RunEvolves(k, ops[..j], i + 1);
      assert ops[..j][..i + 1] == ops[..i + 1];
      assert TaskEvolves(after.tasks[id], Run(k, ops[..j]).tasks[id]);
    }
  }

  // ---------------------------------------------------------------- reachability of the failure statuses

  /** Unresolved errors with one more, not repeated. */
  function WithError(errors: seq<string>, message: string): seq<string> {
    if message in errors then errors else errors + [message]
  }

  /** The snapshot the failure handler asks to store. */
  function Terminated(s: TaskState, status: TaskStatus, message: string, now: Time): TaskState {
    s.(status := status, unresolvedErrors := WithError(s.unresolvedErrors, message), updatedAt := now)
  }

  lemma StoredStateIsValid(k: Keys, db: Db, id: string)
    requires Inv(k, db) && id in db.tasks
    ensures ValidState(db.tasks[id].state) && db.tasks[id].state.request.taskId == id && db.tasks[id].version >= 1
  {
    assert Chained(db, id);
    HistoryDigestsValid(db, db.events, id);
    var h := History(db.events, id);
    assert ValidState(h[|h| - 1].digest);
  }

  /**
    The failure handler's snapshot is always valid; from every non-terminal snapshot of every reachable
    database both FAILED and CANCELLED commit in one step at the current version, and from a terminal one
    neither ever does.
   */
  lemma FailureAlwaysReachable(k: Keys, ops: seq<Op>, id: string, status: TaskStatus, message: string, now: Time)
    requires forall n :: 0 <= n < |ops| ==> WellTyped(ops[n])
    requires id in Run(k, ops).tasks && (status == Failed || status == Cancelled)
    requires Run(k, ops).tasks[id].state.updatedAt <= now
    ensures var row := Run(k, ops).tasks[id];
            var wanted := Terminated(row.state, status, message, now);
            && ValidState(wanted)
            && (ApplyTransition(Run(k, ops), wanted, Some(row.version)).Committed? <==> !IsTerminal(row.state.status))
  {
    RunKeepsInv(k, ops);
    StoredStateIsValid(k, Run(k, ops), id);
    FailureAdmitted(Run(k, ops), id, status, message, now);
  }

  lemma FailureAdmitted(db: Db, id: string, status: TaskStatus, message: string, now: Time)
    requires AllChained(db) && AllBound(db) && id in db.tasks && (status == Failed || status == Cancelled)
    requires db.tasks[id].state.updatedAt <= now
    ensures var row := db.tasks[id];
            var attempt := ApplyTransition(db, Terminated(row.state, status, message, now), Some(row.version));
            attempt.Committed? <==> !IsTerminal(row.state.status)
  {
    assert Chained(db, id) && Bound(db, id);
    var row := db.tasks[id];
    var s := Terminated(row.state, status, message, now);
    assert row.version >= 1 && s.request.taskId == id && !ForeignWorktree(s);
    assert Admissible(row.state, s) <==> !IsTerminal(row.state.status);
  }

  // ---------------------------------------------------------------- registry agreement

  /** Every stored snapshot with a worktree agrees with a registered row of the task's own repository. */
  lemma SnapshotAgreesWithRegistry(k: Keys, ops: seq<Op>, id: string)
    requires forall n :: 0 <= n < |ops| ==> WellTyped(ops[n])
    requires id in Run(k, ops).tasks && Run(k, ops).tasks[id].state.worktree.Some?
    ensures var db := Run(k, ops);
      && id in db.worktrees
      && SameIdentity(db.tasks[id].state.worktree.value, db.worktrees[id].record)
      && db.tasks[id].state.worktree.value.sourceRepository == db.tasks[id].state.sourceRepository
  {
    RunKeepsInv(k, ops);
    assert Bound(Run(k, ops), id) && RowOk(Run(k, ops), id);
  }

  /** No two live rows of any reachable registry share a path or a branch of one repository. */
  lemma {:induction false} LiveWorktreesAreDistinct(k: Keys, ops: seq<Op>, a: string, b: string)
    requires forall n :: 0 <= n < |ops| ==> WellTyped(ops[n])
    requires a in Run(k, ops).worktrees && b in Run(k, ops).worktrees && a != b
    requires Run(k, ops).worktrees[a].record.status != Removed && Run(k, ops).worktrees[b].record.status != Removed
    ensures var ra, rb := Run(k, ops).worktrees[a].record, Run(k, ops).worktrees[b].record;
      && k.path(ra.worktreePath) != k.path(rb.worktreePath)
      && (ra.branch.Some? && rb.branch.Some? && k.repository(ra.sourceRepository) == k.repository(rb.sourceRepository) ==>
            k.branch(ra.branch.value) != k.branch(rb.branch.value))
  {
    RunKeepsInv(k, ops);
    assert Apart(k, Run(k, ops), a, b);
  }

  /** An event that the consistency query joins to a task. */
  predicate Joined(e: Event, id: string, row: TaskRow) {
    e.taskId == id && e.version == row.version
  }

  /** The tasks the consistency query counts: no event joined, or a joined event with another digest. */
  function Inconsistent(db: Db): set<string> {
    set id | id in db.tasks &&
      ((forall e :: e in db.events ==> !Joined(e, id, db.tasks[id]))
       || (exists e :: e in db.events && Joined(e, id, db.tasks[id]) && e.digest != db.tasks[id].state))
  }

  /** The consistency query over snapshots and tail events finds nothing in any reachable database. */
  lemma EventQueryFindsNothing(k: Keys, ops: seq<Op>)
    requires forall n :: 0 <= n < |ops| ==> WellTyped(ops[n])
    ensures Inconsistent(Run(k, ops)) == {}
  {
    RunKeepsInv(k, ops);
    var db := Run(k, ops);
    forall id | id in db.tasks ensures id !in Inconsistent(db) {
      assert Chained(db, id);
      TailIsJoined(db, id);
      forall e | e in db.events && Joined(e, id, db.tasks[id]) ensures e.digest == db.tasks[id].state { JoinedIsTail(db, id, e); }
    }
  }

  lemma TailIsJoined(db: Db, id: string)
    requires id in db.tasks && Chained(db, id)
    ensures exists e :: e in db.events && Joined(e, id, db.tasks[id])
  {
    var h := History(db.events, id);
    HistoryMembers(db.events, id, |h| - 1);
    assert LinkOk(h[|h| - 1], |h| - 1, db.tasks[id].state);
    assert Joined(h[|h| - 1], id, db.tasks[id]);
  }

  lemma JoinedIsTail(db: Db, id: string, e: Event)
    requires id in db.tasks && Chained(db, id) && e in db.events && Joined(e, id, db.tasks[id])
    ensures e.digest == db.tasks[id].state
  {
    var h := History(db.events, id);
    InHistory(db.events, id, e);
    var j :| 0 <= j < |h| && h[j] == e;
    assert LinkOk(h[j], j, db.tasks[id].state);
  }

  lemma {:induction false} InHistory(events: seq<Event>, id: string, e: Event)
    requires e in events && e.taskId == id
    ensures e in History(events, id)
  {
    if events[|events| - 1] != e { InHistory(events[..|events| - 1], id, e); }
  }

  lemma {:induction false} HistoryMembers(events: seq<Event>, id: string, i: nat)
    requires i < |History(events, id)|
    ensures History(events, id)[i] in events && History(events, id)[i].taskId == id
  {
    var n := |History(events[..|events| - 1], id)|;
    if i < n { HistoryMembers(events[..|events| - 1], id, i); }
  }
}

/**
  The engine's attempt loop over the task store.  Executors, verifiers, reviewers and Git are foreign:
  their results are arbitrary values.  An exception may strike before any durable step: step n raises
  exactly when `strikes(n)`.
 */
module Engine {
  import opened Contracts
  import opened TaskDatabase
  import opened TaskHistories
  import opened TaskStore
  import opened WorktreeRegistry

  datatype Why = Fault | Invalid | StoreRefused | RegistryRefused | Foreign | LoopExhausted | Undelivered

  datatype ExecutorOutcome =
    | ExecutorDone(summary: string, newRules: bool)
    | HandoffInputChanged
    | ExecutorFailed(cancelled: bool, timedOut: bool, message: string)
    | ExecutorRaised

  datatype VerifyOutcome = Verified(commands: seq<string>, failed: bool, cancelled: bool, timedOut: bool) | VerifyRaised
  datatype DiffOutcome = DiffReady | PrivacyBlocked | DiffRaised
  datatype ReviewOutcome = Reviewed(review: Review) | ReviewerCancelled | ReviewerRaised
  datatype GateOutcome = GatePassed(commit: Option<string>) | GateRaised

  /** What the loop does after a phase: go on, start the next attempt, return, or raise. */
  datatype Signal = Next | Retry | Stop | Raise(why: Why)

  const NO_RETRY := "local_semantic.reviewer_retry_exhausted."

  /** The semantic reviewer has used up its own retries: repeating the coding would not help. */
  predicate RetryExhausted(r: Review) {
    && r.reviewer == LocalSemanticReview && r.verdict == ReviewBlocked
    && exists i :: 0 <= i < |r.findings| && r.findings[i].code.OtherCode? && NO_RETRY <= r.findings[i].code.text
  }

  /** Attempt k has index k, and only the last one can still be running. */
  predicate Numbered(attempts: seq<Attempt>) {
    forall i :: 0 <= i < |attempts| ==>
      attempts[i].index == i + 1 && (attempts[i].status == AttemptRunning ==> i == |attempts| - 1)
  }

  predicate Settled(attempts: seq<Attempt>) {
    Numbered(attempts) && forall i :: 0 <= i < |attempts| ==> attempts[i].status != AttemptRunning
  }

  predicate InFlight(attempts: seq<Attempt>) {
    Numbered(attempts) && |attempts| > 0 && attempts[|attempts| - 1].status == AttemptRunning
  }

  predicate LastPassed(attempts: seq<Attempt>) {
    |attempts| > 0 && attempts[|attempts| - 1].status == AttemptPassed
  }

  function Ended(attempts: seq<Attempt>, a: Attempt): seq<Attempt>
    requires |attempts| > 0
  {
    attempts[..|attempts| - 1] + [a]
  }

  /**
    The durable row and the filesystem record describe one worktree of one process, the record at least
    as recent as the row: the states between the two registry writes of one step.
   */
  predicate Tracks(row: WorktreeRecord, record: WorktreeRecord) {
    && row.taskId == record.taskId && SameIdentity(row, record) && row.createdAt == record.createdAt
    && row.ownerPid == record.ownerPid && row.heartbeatAt <= record.heartbeatAt
    && (row.completedAt.Some? ==> record.completedAt == row.completedAt)
    && ValidRecord(record) && MayOrphan(record.status) && MayOrphan(row.status)
  }

  lemma StartsNumbered(attempts: seq<Attempt>, a: Attempt)
    requires Settled(attempts) && a.index == |attempts| + 1
    ensures Numbered(attempts + [a])
    ensures a.status == AttemptRunning ==> InFlight(attempts + [a])
  {
  }

  lemma EndsSettled(attempts: seq<Attempt>, a: Attempt)
    requires InFlight(attempts) && a.index == |attempts| && a.status != AttemptRunning
    ensures Settled(Ended(attempts, a)) && |Ended(attempts, a)| == |attempts|
    ensures Ended(attempts, a)[..|attempts| - 1] == attempts[..|attempts| - 1]
  {
  }

  /** The arguments that fix how one call of the loop may end. */
  datatype Plan = Plan(executor: ExecutorKind, maxAttempts: nat, allowHandoff: bool, primaryReviewOnly: bool)

  function PlanFor(q: Request, maxLocalAttempts: nat): Plan {
    if q.risk in {HighRisk, CriticalRisk} then Plan(CodexExec, 1, false, q.mode == ReadOnly)
    else Plan(LocalQwen, maxLocalAttempts, true, false)
  }

  /** At most `n` attempts were added behind the earlier ones. */
  predicate Extends(before: seq<Attempt>, after: seq<Attempt>, n: nat) {
    Numbered(after) && |before| <= |after| <= |before| + n && after[..|before|] == before
  }

  /** Only the last attempt may have changed. */
  predicate Closes(before: seq<Attempt>, after: seq<Attempt>)
    requires |before| > 0
  {
    Numbered(after) && |after| == |before| && after[..|before| - 1] == before[..|before| - 1]
  }

  predicate SameTask(a: TaskState, b: TaskState) {
    a.request == b.request && a.sourceRepository == b.sourceRepository && a.createdAt == b.createdAt
  }

  /** A request whose status step is in the store's table and whose fixed fields are kept. */
  predicate Requestable(s: TaskState, wanted: TaskState) {
    SameTask(s, wanted) && !ForeignWorktree(wanted) && wanted.status in Allowed(s.status)
  }

  /** The snapshot as it will look when completed; it is validated before either registry changes. */
  function CompletedSnapshot(s: TaskState, record: WorktreeRecord, commit: Option<string>): TaskState {
    s.(status := Completed, worktree := Some(record), commitSha := commit, unresolvedErrors := [])
  }

  /** Validating the preview is enough: only time stamps differ in the snapshot that is stored. */
  lemma PreviewPredicts(s: TaskState, preview: TaskState, record: WorktreeRecord, commit: Option<string>, clock: Time)
    requires ValidState(preview) && preview.updatedAt <= clock
    requires preview.worktree.Some? && preview.worktree.value.status == Complete && record.status == Complete
    requires preview == CompletedSnapshot(s, preview.worktree.value, commit).(updatedAt := preview.updatedAt)
    ensures forall now {:trigger CompletedSnapshot(s, record, commit).(updatedAt := now)} ::
              now >= clock ==> ValidState(CompletedSnapshot(s, record, commit).(updatedAt := now))
  {
  }

  class CodingEngine {
    const store: CodingTaskStore
    const registry: Registry
    const pid: nat
    const strikes: nat -> bool
    var clock: Time
    var step: nat

    constructor (store: CodingTaskStore, registry: Registry, pid: nat, clock: Time, strikes: nat -> bool)
      ensures this.store == store && this.registry == registry && this.pid == pid && this.strikes == strikes
      ensures this.clock == clock && step == 0
    {
      this.store, this.registry, this.pid, this.clock, this.strikes, step := store, registry, pid, clock, strikes, 0;
    }

    /** The engine's snapshot is the stored one, at the version it holds. */
    ghost predicate Synced(s: TaskState, v: nat)
      reads this, store
    {
      && store.Valid()
      && s.request.taskId in store.tasks
      && store.tasks[s.request.taskId] == TaskRow(s, v)
      && s.updatedAt <= clock
    }

    /** The task has a worktree that both registries track. */
    ghost predicate Holds(s: TaskState)
      reads this, store, registry
    {
      var id := s.request.taskId;
      && id in store.worktrees && id in registry.records
      && Tracks(store.worktrees[id].record, registry.records[id])
      && registry.records[id].taskId == id
      && registry.records[id].heartbeatAt <= clock
      && s.worktree.Some? && s.worktree.value.taskId == id
      && SameIdentity(s.worktree.value, store.worktrees[id].record)
    }

    /** Both registries agree on the worktree's status. */
    ghost predicate Owns(s: TaskState, status: WorktreeStatus)
      reads this, store, registry
    {
      var id := s.request.taskId;
      && Holds(s)
      && registry.records[id].status == status && store.worktrees[id].record.status == status
    }

    /** The wall clock, assumed not to step back. */
    method Now() returns (t: Time)
      modifies this`clock
      ensures old(clock) <= clock == t
    {
      var elapsed: nat := Foreigner();
      clock := clock + elapsed;
      t := clock;
    }

    /** An exception of a foreign call may strike here. */
    method Strikes() returns (struck: bool)
      modifies this`step
      ensures struck == strikes(old(step)) && step == old(step) + 1
    {
      struck := strikes(step);
      step := step + 1;
    }

    /** Validate the candidate snapshot and ask the store for the transition. */
    method Transition(s: TaskState, v: nat, wanted: TaskState) returns (s': TaskState, v': nat, why: Option<Why>)
      requires Synced(s, v)
      modifies this, store`tasks, store`events
      ensures old(clock) <= clock && old(step) <= step
      ensures why.None? ==> Synced(s', v') && v' == v + 1 && s' == wanted.(updatedAt := clock)
      ensures why.Some? ==> Synced(s, v) && s' == s && v' == v && store.Contents() == old(store.Contents())
      ensures Requestable(s, wanted) && WorktreeRegistered(old(store.Contents()), wanted) ==> why != Some(StoreRefused)
      ensures why == Some(Invalid) <==> !ValidState(wanted.(updatedAt := clock))
      ensures why == Some(Fault) <==> why != Some(Invalid) && strikes(old(step))
      ensures step == if why == Some(Invalid) then old(step) else old(step) + 1
      ensures why.None? || why.value in {Fault, Invalid, StoreRefused}
    {
      s', v', why := s, v, None;
      assert Chained(store.Contents(), s.request.taskId);
      var now := Now();
      var candidate := wanted.(updatedAt := now);
      if !ValidState(candidate) { why := Some(Invalid); return; }
      var struck := Strikes();
      if struck { why := Some(Fault); return; }
      var reply := store.Transition(candidate, Some(v));
      if reply.Error? { why := Some(StoreRefused); return; }
      s', v' := candidate, reply.version;
    }

    /** A transition of a task that holds its worktree: the store has no ground to refuse it. */
    method Move(s: TaskState, v: nat, wanted: TaskState) returns (s': TaskState, v': nat, why: Option<Why>)
      requires Synced(s, v) && Holds(s)
      requires Requestable(s, wanted) && wanted.worktree.Some? && SameIdentity(s.worktree.value, wanted.worktree.value)
      modifies this, store`tasks, store`events
      ensures old(clock) <= clock && old(step) <= step
      ensures why.None? ==> Synced(s', v') && Holds(s') && s' == wanted.(updatedAt := clock)
      ensures why.Some? ==> Synced(s, v) && Holds(s) && s' == s && v' == v
      ensures why.None? || why.value in {Fault, Invalid}
    {
      s', v', why := Transition(s, v, wanted);
    }

    /** Keep the worktree of a cancelled task: orphan the record file, then the durable row. */
    method PreserveWorktree(s: TaskState, v: nat) returns (record: Option<WorktreeRecord>)
      requires Synced(s, v) && Owns(s, Active)
      modifies this, registry, store`worktrees
      ensures Synced(s, v) && Holds(s) && old(clock) <= clock && old(step) <= step
      ensures record.Some? ==> Owns(s, OrphanedTree) && registry.records[s.request.taskId] == record.value
    {
      var now := Now();
      var struck := Strikes();
      if struck { return None; }
      record := registry.MarkOrphaned(s.request.taskId, now);
      struck := Strikes();
      if struck { return None; }
      assert RowOk(store.Contents(), s.request.taskId);
      UpdateNeverCollides(store.keys, store.Contents(), record.value);
      var reply := store.UpdateWorktree(record.value);
    }

    /** Make the durable row equal to the record file. */
    method SyncRow(s: TaskState, v: nat, record: WorktreeRecord) returns (struck: bool)
      requires Synced(s, v) && Holds(s) && registry.records[s.request.taskId] == record
      requires record.status in WorktreeAllowed(store.worktrees[s.request.taskId].record.status)
      modifies this`step, store`worktrees
      ensures Synced(s, v) && Holds(s) && step == old(step) + 1 && struck == strikes(old(step))
      ensures !struck ==> store.worktrees[s.request.taskId].record == record
      ensures struck ==> store.worktrees == old(store.worktrees)
    {
      struck := Strikes();
      if struck { return; }
      assert RowOk(store.Contents(), s.request.taskId);
      UpdateNeverCollides(store.keys, store.Contents(), record);
      var reply := store.UpdateWorktree(record);
    }

    /** Stop with BLOCKED. */
    method Block(s: TaskState, v: nat, errors: seq<string>) returns (s': TaskState, v': nat, signal: Signal)
      requires Synced(s, v) && Owns(s, Active) && Blocked in Allowed(s.status)
      modifies this, store`tasks, store`events
      ensures Synced(s', v') && Owns(s', Active) && s'.attempts == s.attempts && SameTask(s, s') && old(clock) <= clock && old(step) <= step
      ensures match signal
              case Stop => s'.status == Blocked
              case Raise(why) => why in {Fault, Invalid} && s'.status == s.status
              case _ => false
    {
      var why;
      s', v', why := Move(s, v, s.(status := Blocked, unresolvedErrors := errors));
      signal := if why.None? then Stop else Raise(why.value);
    }

    /** Bring the durable row, and then the snapshot, up to the record file. */
    method SyncWorktree(s: TaskState, v: nat) returns (s': TaskState, v': nat, why: Option<Why>)
      requires Synced(s, v) && Owns(s, Active) && s.status in {Isolated, Executing}
      modifies this, store`tasks, store`events, store`worktrees
      ensures Synced(s', v') && Owns(s', Active) && old(clock) <= clock && old(step) <= step
      ensures s'.attempts == s.attempts && SameTask(s, s') && s'.status == s.status
      ensures why.None? ==> s'.worktree == Some(registry.records[s.request.taskId])
                            && store.worktrees[s.request.taskId].record == registry.records[s.request.taskId]
      ensures why.None? || why.value in {Fault, Invalid}
    {
      s', v', why := s, v, None;
      var id := s.request.taskId;
      var current := registry.Load(id);
      var stored := store.Worktree(id);
      if current != stored {
        var struck := SyncRow(s, v, current.value);
        if struck { why := Some(Fault); return; }
      }
      if s.worktree != current {
        s', v', why := Move(s, v, s.(worktree := current));
      }
    }

    /** Prepare a validated handoff, or block when the diff is private. */
    method Handoff(s: TaskState, v: nat, error: string) returns (s': TaskState, v': nat, signal: Signal)
      requires Synced(s, v) && Owns(s, Active) && s.status in {Isolated, Executing}
      modifies this, store`tasks, store`events, store`worktrees
      ensures Synced(s', v') && Owns(s', Active) && s'.attempts == s.attempts && SameTask(s, s') && old(clock) <= clock && old(step) <= step
      ensures match signal
              case Stop => s'.status in {HandoffReady, Blocked}
              case Raise(why) => why in {Fault, Invalid} && s'.status == s.status
              case _ => false
    {
      s', v' := s, v;
      var struck := Strikes();
      if struck { signal := Raise(Fault); return; }
      var private: bool := Foreigner();
      if private {
        s', v', signal := Block(s, v, s.unresolvedErrors + ["Task diff was blocked by privacy policy."]);
        return;
      }
      var why;
      s', v', why := SyncWorktree(s, v);
      if why.Some? { signal := Raise(why.value); return; }
      s', v', why := Move(s', v', s'.(unresolvedErrors := s'.unresolvedErrors + [error]));
      if why.Some? { signal := Raise(why.value); return; }
      s', v', why := Move(s', v', s'.(status := HandoffReady));
      signal := if why.None? then Stop else Raise(why.value);
    }

    /** After a failed attempt: try again, hand off, or block. */
    method RetryOrStop(s: TaskState, v: nat, mayRetry: bool, allowHandoff: bool, error: string)
      returns (s': TaskState, v': nat, signal: Signal)
      requires Synced(s, v) && Owns(s, Active) && s.status == Executing && Settled(s.attempts)
      modifies this, store`tasks, store`events, store`worktrees
      ensures Synced(s', v') && Owns(s', Active) && s'.attempts == s.attempts && SameTask(s, s') && old(clock) <= clock && old(step) <= step
      ensures match signal
              case Next => false
              case Retry => s' == s && v' == v && mayRetry
              case Stop => s'.status == Blocked || (s'.status == HandoffReady && allowHandoff)
              case Raise(why) => why in {Fault, Invalid} && s'.status == Executing
      ensures signal == Retry <==> mayRetry
    {
      s', v' := s, v;
      if mayRetry { signal := Retry; return; }
      if allowHandoff {
        s', v', signal := Handoff(s, v, error);
        return;
      }
      s', v', signal := Block(s, v, s.unresolvedErrors);
    }

    /** What holds of snapshot and registries when a phase ends with this signal. */
    ghost predicate After(s: TaskState, signal: Signal, plan: Plan)
      reads this, store, registry
    {
      match signal
      case Next => Owns(s, Active) && InFlight(s.attempts)
      case Retry => Owns(s, Active) && s.status == Executing && Settled(s.attempts)
      case Stop =>
        match s.status {
          case Blocked => Owns(s, Active)
          case HandoffReady => Owns(s, Active) && plan.allowHandoff && Settled(s.attempts)
          case Cancelled => Owns(s, OrphanedTree) && Settled(s.attempts)
          case Completed => Owns(s, Complete) && Settled(s.attempts)
          case _ => false
        }
      case Raise(why) => Holds(s) && !IsTerminal(s.status) && why in {Fault, Invalid, Foreign, Undelivered}
    }

    /** Close the running attempt as failed, timed out or cancelled; a cancelled task keeps its worktree orphaned. */
    method CloseAttempt(s: TaskState, v: nat, closed: Attempt, errors: seq<string>, modified: seq<string>)
      returns (s': TaskState, v': nat, why: Option<Why>)
      requires Synced(s, v) && Owns(s, Active) && s.status in {Executing, Verifying, Reviewing}
      requires InFlight(s.attempts) && closed.index == |s.attempts| && closed.status != AttemptRunning
      modifies this, registry, store`tasks, store`events, store`worktrees
      ensures Synced(s', v') && Holds(s') && SameTask(s, s') && old(clock) <= clock && old(step) <= step
      ensures why.None? ==> s'.attempts == Ended(s.attempts, closed) && Settled(s'.attempts) && s'.review == s.review
      ensures why.None? && closed.status == AttemptCancelled ==> s'.status == Cancelled && Owns(s', OrphanedTree)
      ensures why.None? && closed.status != AttemptCancelled ==> s'.status == Executing && Owns(s', Active)
      ensures why.Some? ==> s' == s && v' == v && why.value in {Fault, Invalid}
    {
      EndsSettled(s.attempts, closed);
      s', v' := s, v;
      var preserved := s.worktree;
      if closed.status == AttemptCancelled {
        preserved := PreserveWorktree(s, v);
        if preserved.None? { why := Some(Fault); return; }
      }
      s', v', why := Move(s, v, s.(
        status := if closed.status == AttemptCancelled then Cancelled else Executing,
        attempts := Ended(s.attempts, closed), worktree := preserved,
        unresolvedErrors := errors, modifiedFiles := modified));
    }

    /** Close the running attempt and leave the phase: cancelled, retry, handoff or blocked. */
    method FailAttempt(s: TaskState, v: nat, plan: Plan, closed: Attempt, message: string, modified: seq<string>, mayRetry: bool)
      returns (s': TaskState, v': nat, signal: Signal)
      requires Synced(s, v) && Owns(s, Active) && s.status in {Executing, Verifying, Reviewing}
      requires InFlight(s.attempts) && closed.index == |s.attempts| && closed.status != AttemptRunning
      modifies this, registry, store`tasks, store`events, store`worktrees
      ensures Synced(s', v') && SameTask(s, s') && old(clock) <= clock && old(step) <= step && After(s', signal, plan)
      ensures s'.attempts == s.attempts || s'.attempts == Ended(s.attempts, closed)
      ensures signal != Next && (signal == Retry ==> mayRetry && s'.review == s.review)
      ensures signal == Stop ==> s'.status in {Blocked, HandoffReady, Cancelled}
      ensures signal == Stop && closed.status != AttemptCancelled ==> !mayRetry && s'.status != Cancelled
    {
      var why;
      s', v', why := CloseAttempt(s, v, closed, s.unresolvedErrors + [message], modified);
      if why.Some? { signal := Raise(why.value); return; }
      if closed.status == AttemptCancelled { signal := Stop; return; }
      s', v', signal := RetryOrStop(s', v', mayRetry, plan.allowHandoff, message);
    }

    /** Start one attempt: the running attempt gets the next index. */
    method StartAttempt(s: TaskState, v: nat, plan: Plan, index: nat)
      returns (s': TaskState, v': nat, running: Attempt, why: Option<Why>)
      requires Synced(s, v) && Owns(s, Active) && s.status in {Isolated, Executing}
      requires Settled(s.attempts) && index == |s.attempts| + 1
      modifies this, store`tasks, store`events
      ensures Synced(s', v') && Owns(s', Active) && SameTask(s, s') && old(clock) <= clock && old(step) <= step
      ensures running.index == index && running.status == AttemptRunning
      ensures why.None? ==> s'.attempts == s.attempts + [running] && InFlight(s'.attempts) && s'.status == Executing
      ensures why.Some? ==> s' == s && why.value in {Fault, Invalid}
    {
      var kind := if plan.primaryReviewOnly then CodexReview else plan.executor;
      running := Attempt(index, kind, AttemptRunning, false, None, [], []);
      StartsNumbered(s.attempts, running);
      s', v', why := Move(s, v, s.(status := Executing, attempts := s.attempts + [running]));
    }

    /** Run the executor of the attempt just started and record what came of it. */
    method ExecutorPhase(s: TaskState, v: nat, plan: Plan, running: Attempt, mayRetry: bool)
      returns (s': TaskState, v': nat, summary: string, signal: Signal)
      requires Synced(s, v) && Owns(s, Active) && s.status == Executing
      requires InFlight(s.attempts) && running == s.attempts[|s.attempts| - 1]
      modifies this, registry, store`tasks, store`events, store`worktrees
      ensures Synced(s', v') && SameTask(s, s') && old(clock) <= clock && old(step) <= step && After(s', signal, plan)
      ensures Closes(s.attempts, s'.attempts)
      ensures signal == Next ==> s'.status == Executing && s'.attempts == s.attempts
      ensures signal == Retry ==> mayRetry
      ensures signal == Stop ==> s'.status != Completed
    {
      s', v', summary, signal := s, v, "", Raise(Foreign);
      var why;
      var modified: seq<string> := Foreigner();
      var outcome: ExecutorOutcome := Foreigner();
      match outcome
      case ExecutorRaised =>
      case HandoffInputChanged =>
        var failed := running.(status := AttemptFailed, finished := true, error := Some("handoff-revalidation"));
        EndsSettled(s.attempts, failed);
        s', v', why := Move(s, v, s.(status := HandoffReady, attempts := Ended(s.attempts, failed)));
      case ExecutorFailed(cancelled, timedOut, message) =>
        var status := if cancelled then AttemptCancelled else if timedOut then AttemptTimedOut else AttemptFailed;
        var closed := running.(status := status, finished := true, error := Some(message), modifiedFiles := modified);
        EndsSettled(s.attempts, closed);
        s', v', signal := FailAttempt(s, v, plan, closed, message, modified, mayRetry);
      case ExecutorDone(text, newRules) =>
        summary := text;
        s', v', signal := RecordExecution(s, v, plan, running, newRules, modified, mayRetry);
    }

    /** Record the output; newly applicable rules end the attempt. */
    method RecordExecution(s: TaskState, v: nat, plan: Plan, running: Attempt, newRules: bool, modified: seq<string>, mayRetry: bool)
      returns (s': TaskState, v': nat, signal: Signal)
      requires Synced(s, v) && Owns(s, Active) && s.status == Executing
      requires InFlight(s.attempts) && running == s.attempts[|s.attempts| - 1]
      modifies this, registry, store`tasks, store`events, store`worktrees
      ensures Synced(s', v') && SameTask(s, s') && old(clock) <= clock && old(step) <= step && After(s', signal, plan)
      ensures Closes(s.attempts, s'.attempts)
      ensures signal == Next ==> s'.status == Executing && s'.attempts == s.attempts
      ensures signal == Retry ==> mayRetry
      ensures signal == Stop ==> s'.status != Completed
    {
      var why;
      s', v', why := Move(s, v, s.(modifiedFiles := modified));
      if why.Some? { signal := Raise(why.value); return; }
      if !newRules { signal := Next; return; }
      var message := "New applicable rules were discovered.";
      var failed := running.(status := AttemptFailed, finished := true, error := Some(message), modifiedFiles := modified);
      EndsSettled(s.attempts, failed);
      s', v', signal := FailAttempt(s', v', plan, failed, message, modified, mayRetry);
    }

    /** Run the verifiers and record their results. */
    method RecordVerification(s: TaskState, v: nat) returns (s': TaskState, v': nat, outcome: VerifyOutcome, why: Option<Why>)
      requires Synced(s, v) && Owns(s, Active) && s.status == Executing
      modifies this, store`tasks, store`events
      ensures Synced(s', v') && Owns(s', Active) && SameTask(s, s') && old(clock) <= clock && old(step) <= step && s'.attempts == s.attempts
      ensures why.None? ==> outcome.Verified? && s'.status == Verifying
      ensures why.Some? ==> !IsTerminal(s'.status) && why.value in {Fault, Invalid, Foreign}
    {
      outcome := VerifyRaised;
      s', v', why := Move(s, v, s.(status := Verifying));
      if why.Some? { return; }
      outcome := Foreigner();
      if outcome.VerifyRaised? { why := Some(Foreign); return; }
      var modified: seq<string> := Foreigner();
      s', v', why := Move(s', v', s'.(commandResults := s'.commandResults + outcome.commands, modifiedFiles := modified));
    }

    /** Verify the attempt, then render the diff the reviewer will see. */
    method VerifyPhase(s: TaskState, v: nat, plan: Plan, running: Attempt, mayRetry: bool)
      returns (s': TaskState, v': nat, commands: seq<string>, signal: Signal)
      requires Synced(s, v) && Owns(s, Active) && s.status == Executing
      requires InFlight(s.attempts) && running == s.attempts[|s.attempts| - 1]
      modifies this, registry, store`tasks, store`events, store`worktrees
      ensures Synced(s', v') && SameTask(s, s') && old(clock) <= clock && old(step) <= step && After(s', signal, plan)
      ensures Closes(s.attempts, s'.attempts)
      ensures signal == Next ==> s'.status == Reviewing && s'.attempts == s.attempts
      ensures signal == Retry ==> mayRetry
      ensures signal == Stop ==> s'.status != Completed
    {
      commands := [];
      var outcome, why;
      s', v', outcome, why := RecordVerification(s, v);
      if why.Some? { signal := Raise(why.value); return; }
      commands := outcome.commands;
      if outcome.failed {
        var status := if outcome.cancelled then AttemptCancelled else if outcome.timedOut then AttemptTimedOut else AttemptFailed;
        var message := "Required verification did not pass.";
        var closed := running.(status := status, finished := true, error := Some(message),
                               commandIds := commands, modifiedFiles := s'.modifiedFiles);
        EndsSettled(s.attempts, closed);
        s', v', signal := FailAttempt(s', v', plan, closed, message, s'.modifiedFiles, mayRetry);
      } else {
        s', v', signal := DiffPhase(s', v', plan);
      }
    }

    method DiffPhase(s: TaskState, v: nat, plan: Plan) returns (s': TaskState, v': nat, signal: Signal)
      requires Synced(s, v) && Owns(s, Active) && s.status == Verifying && InFlight(s.attempts)
      modifies this, store`tasks, store`events
      ensures Synced(s', v') && SameTask(s, s') && old(clock) <= clock && old(step) <= step && After(s', signal, plan)
      ensures s'.attempts == s.attempts && signal != Retry
      ensures signal == Next ==> s'.status == Reviewing
      ensures signal == Stop ==> s'.status == Blocked
    {
      s', v' := s, v;
      var diff: DiffOutcome := Foreigner();
      match diff
      case DiffRaised => signal := Raise(Foreign);
      case PrivacyBlocked =>
        s', v', signal := Block(s, v, s.unresolvedErrors + ["Task diff was blocked by privacy policy."]);
      case DiffReady =>
        var why;
        s', v', why := Move(s, v, s.(status := Reviewing));
        signal := if why.Some? then Raise(why.value) else Next;
    }

    /** Take the reviewer's verdict: reject the attempt, or pass it. */
    method ReviewPhase(s: TaskState, v: nat, plan: Plan, running: Attempt, commands: seq<string>, mayRetry: bool)
      returns (s': TaskState, v': nat, signal: Signal)
      requires Synced(s, v) && Owns(s, Active) && s.status == Reviewing
      requires InFlight(s.attempts) && running == s.attempts[|s.attempts| - 1]
      modifies this, registry, store`tasks, store`events, store`worktrees
      ensures Synced(s', v') && SameTask(s, s') && old(clock) <= clock && old(step) <= step
      ensures signal != Next ==> After(s', signal, plan)
      ensures Closes(s.attempts, s'.attempts)
      ensures signal == Next ==> Owns(s', Active) && s'.status == Reviewing && Settled(s'.attempts) && s'.review.Some?
                                 && LastPassed(s'.attempts)
      ensures signal == Retry ==> mayRetry && s'.review.Some? && !RetryExhausted(s'.review.value)
      ensures signal == Stop ==> s'.status != Completed
    {
      s', v' := s, v;
      var outcome: ReviewOutcome := Foreigner();
      match outcome
      case ReviewerRaised => signal := Raise(Foreign);
      case ReviewerCancelled =>
        s', v', signal := CancelReview(s, v, plan, running, commands);
      case Reviewed(review) =>
        var why;
        s', v', why := RecordReview(s, v, review);
        if why.Some? { signal := Raise(why.value); return; }
        s', v', signal := JudgeAttempt(s', v', plan, running, commands, mayRetry && !RetryExhausted(review));
    }

    method RecordReview(s: TaskState, v: nat, review: Review) returns (s': TaskState, v': nat, why: Option<Why>)
      requires Synced(s, v) && Owns(s, Active) && s.status == Reviewing
      modifies this, store`tasks, store`events
      ensures Synced(s', v') && Owns(s', Active) && SameTask(s, s') && old(clock) <= clock && old(step) <= step
      ensures s'.attempts == s.attempts && s'.status == Reviewing
      ensures why.None? ==> s'.review == Some(review)
      ensures why.None? || why.value in {Fault, Invalid}
    {
      s', v' := s, v;
      if !ValidReview(review) { why := Some(Invalid); return; }
      s', v', why := Move(s, v, s.(review := Some(review)));
    }

    method CancelReview(s: TaskState, v: nat, plan: Plan, running: Attempt, commands: seq<string>)
      returns (s': TaskState, v': nat, signal: Signal)
      requires Synced(s, v) && Owns(s, Active) && s.status == Reviewing
      requires InFlight(s.attempts) && running == s.attempts[|s.attempts| - 1]
      modifies this, registry, store`tasks, store`events, store`worktrees
      ensures Synced(s', v') && SameTask(s, s') && old(clock) <= clock && old(step) <= step && After(s', signal, plan)
      ensures Closes(s.attempts, s'.attempts) && signal != Next && signal != Retry
      ensures signal == Stop ==> s'.status == Cancelled
    {
      var message := "review-cancelled";
      var closed := running.(status := AttemptCancelled, finished := true, error := Some(message),
                             commandIds := commands, modifiedFiles := s.modifiedFiles);
      EndsSettled(s.attempts, closed);
      var why;
      s', v', why := CloseAttempt(s, v, closed, s.unresolvedErrors + [message], s.modifiedFiles);
      signal := if why.Some? then Raise(why.value) else Stop;
    }

    /** The recorded review lets the attempt pass: it approves it, or is itself the deliverable. */
    predicate Accepted(s: TaskState, plan: Plan)
      requires s.review.Some?
    {
      s.review.value.verdict == Approved || (plan.primaryReviewOnly && IsDelivery(s.request, s.review.value))
    }

    /** Reject the attempt unless its recorded review accepts it. */
    method JudgeAttempt(s: TaskState, v: nat, plan: Plan, running: Attempt, commands: seq<string>, mayRetry: bool)
      returns (s': TaskState, v': nat, signal: Signal)
      requires Synced(s, v) && Owns(s, Active) && s.status == Reviewing && s.review.Some?
      requires InFlight(s.attempts) && running == s.attempts[|s.attempts| - 1]
      modifies this, registry, store`tasks, store`events, store`worktrees
      ensures Synced(s', v') && SameTask(s, s') && old(clock) <= clock && old(step) <= step
      ensures signal != Next ==> After(s', signal, plan)
      ensures Closes(s.attempts, s'.attempts)
      ensures signal == Next ==> Accepted(s, plan) && Owns(s', Active) && s'.status == Reviewing && Settled(s'.attempts)
                                 && s'.review == s.review && LastPassed(s'.attempts)
      ensures signal == Retry ==> mayRetry && !Accepted(s, plan) && s'.review == s.review
      ensures signal == Stop ==> !mayRetry && !Accepted(s, plan) && s'.status in {Blocked, HandoffReady}
    {
      if !Accepted(s, plan) {
        var message := "Independent review rejected the attempt.";
        var failed := running.(status := AttemptFailed, finished := true, error := Some(message),
                               commandIds := commands, modifiedFiles := s.modifiedFiles);
        EndsSettled(s.attempts, failed);
        s', v', signal := FailAttempt(s, v, plan, failed, message, s.modifiedFiles, mayRetry);
      } else {
        s', v', signal := PassAttempt(s, v, running, commands);
      }
    }

    method PassAttempt(s: TaskState, v: nat, running: Attempt, commands: seq<string>)
      returns (s': TaskState, v': nat, signal: Signal)
      requires Synced(s, v) && Owns(s, Active) && s.status == Reviewing
      requires InFlight(s.attempts) && running == s.attempts[|s.attempts| - 1]
      modifies this, store`tasks, store`events
      ensures Synced(s', v') && Owns(s', Active) && SameTask(s, s') && old(clock) <= clock && old(step) <= step && s'.status == Reviewing
      ensures Closes(s.attempts, s'.attempts) && s'.review == s.review
      ensures signal == Next ==> Settled(s'.attempts) && LastPassed(s'.attempts)
      ensures signal == Next || (signal.Raise? && signal.why in {Fault, Invalid})
    {
      var passed := running.(status := AttemptPassed, finished := true,
                             commandIds := commands, modifiedFiles := s.modifiedFiles);
      EndsSettled(s.attempts, passed);
      var why;
      s', v', why := Move(s, v, s.(attempts := Ended(s.attempts, passed), unresolvedErrors := []));
      signal := if why.Some? then Raise(why.value) else Next;
    }

    /** Complete a passed attempt: commit gate, record file, durable row, and the terminal snapshot last. */
    method FinishPhase(s: TaskState, v: nat, plan: Plan) returns (s': TaskState, v': nat, signal: Signal)
      requires Synced(s, v) && Owns(s, Active) && s.status == Reviewing && Settled(s.attempts) && s.review.Some?
      modifies this, registry, store`tasks, store`events, store`worktrees
      ensures Synced(s', v') && SameTask(s, s') && old(clock) <= clock && old(step) <= step && After(s', signal, plan)
      ensures s'.attempts == s.attempts && s'.review == s.review
      ensures match signal
              case Stop => s'.status == Completed && s'.worktree == Some(registry.records[s.request.taskId])
                           && store.worktrees[s.request.taskId].record == registry.records[s.request.taskId]
              case Raise(why) => s' == s && (why != Fault ==> Owns(s', Active))
              case _ => false
    {
      s', v' := s, v;
      var localCommit := s.request.permissions.localCommit;
      if !IsDelivery(s.request, s.review.value) || (localCommit && s.review.value.verdict != Approved) {
        signal := Raise(Undelivered); return;
      }
      var gate: GateOutcome := Foreigner();
      if gate.GateRaised? { signal := Raise(Foreign); return; }
      var commit := if localCommit then gate.commit else None;
      var id := s.request.taskId;
      var previewTime := Now();
      var preview := CompletedSnapshot(s, Completing(s.worktree.value, previewTime), commit).(updatedAt := previewTime);
      if !ValidState(preview) { signal := Raise(Invalid); return; }
      var struck := Strikes();
      if struck { signal := Raise(Fault); return; }
      s', v', signal := CommitCompletion(s, v, commit, preview);
    }

    method CommitCompletion(s: TaskState, v: nat, commit: Option<string>, ghost preview: TaskState)
      returns (s': TaskState, v': nat, signal: Signal)
      requires Synced(s, v) && Owns(s, Active) && s.status == Reviewing
      requires ValidState(preview) && preview.updatedAt <= clock && preview.worktree.Some? && preview.worktree.value.status == Complete
      requires preview == CompletedSnapshot(s, preview.worktree.value, commit).(updatedAt := preview.updatedAt)
      modifies this, registry, store`tasks, store`events, store`worktrees
      ensures Synced(s', v') && SameTask(s, s') && old(clock) <= clock && old(step) <= step
      ensures s'.attempts == s.attempts && s'.review == s.review
      ensures match signal
              case Stop => Owns(s', Complete) && s'.status == Completed
                           && s'.worktree == Some(registry.records[s.request.taskId])
                           && store.worktrees[s.request.taskId].record == registry.records[s.request.taskId]
              case Raise(why) => Holds(s') && s' == s && why == Fault
              case _ => false
    {
      s', v' := s, v;
      var id := s.request.taskId;
      var now := Now();
      var completed := registry.Finish(id, now);
      var struck := SyncRow(s, v, completed.value);
      if struck { signal := Raise(Fault); return; }
      PreviewPredicts(s, preview, completed.value, commit, clock);
      var why;
      s', v', why := Transition(s, v, CompletedSnapshot(s, completed.value, commit));
      signal := if why.Some? then Raise(why.value) else Stop;
    }

    /** One attempt, from its durable start to a decision. */
    method RunAttempt(s: TaskState, v: nat, plan: Plan, index: nat, mayRetry: bool)
      returns (s': TaskState, v': nat, summary: string, signal: Signal)
      requires Synced(s, v) && Owns(s, Active) && s.status in {Isolated, Executing}
      requires Settled(s.attempts) && index == |s.attempts| + 1
      modifies this, registry, store`tasks, store`events, store`worktrees
      ensures Synced(s', v') && SameTask(s, s') && old(clock) <= clock && old(step) <= step
      ensures signal != Next && After(s', signal, plan)
      ensures Extends(s.attempts, s'.attempts, 1)
      ensures signal == Retry ==> mayRetry && |s'.attempts| == |s.attempts| + 1
      ensures signal == Stop && s'.status == Completed ==> LastPassed(s'.attempts)
    {
      summary := "";
      var running, why;
      s', v', running, why := StartAttempt(s, v, plan, index);
      if why.Some? { signal := Raise(why.value); return; }
      assert s'.attempts[..|s'.attempts| - 1] == s.attempts;
      s', v', summary, signal := ExecutorPhase(s', v', plan, running, mayRetry);
      if signal != Next { return; }
      s', v', signal := DecideAttempt(s', v', plan, running, mayRetry);
    }

    /** Verification, review and completion of an executed attempt. */
    method DecideAttempt(s: TaskState, v: nat, plan: Plan, running: Attempt, mayRetry: bool)
      returns (s': TaskState, v': nat, signal: Signal)
      requires Synced(s, v) && Owns(s, Active) && s.status == Executing
      requires InFlight(s.attempts) && running == s.attempts[|s.attempts| - 1]
      modifies this, registry, store`tasks, store`events, store`worktrees
      ensures Synced(s', v') && SameTask(s, s') && old(clock) <= clock && old(step) <= step
      ensures signal != Next && After(s', signal, plan)
      ensures Closes(s.attempts, s'.attempts)
      ensures signal == Retry ==> mayRetry
      ensures signal == Stop && s'.status == Completed ==> LastPassed(s'.attempts)
    {
      var commands;
      s', v', commands, signal := VerifyPhase(s, v, plan, running, mayRetry);
      if signal != Next { return; }
      s', v', signal := ReviewPhase(s', v', plan, running, commands, mayRetry);
      if signal != Next { return; }
      s', v', signal := FinishPhase(s', v', plan);
    }

    /**
      The bounded attempt loop.  The store never refuses a transition it asks for, attempt k has index k,
      at most `maxAttempts` attempts are added, and with at least one allowed the loop always decides.
     */
    method ExecuteFlow(s: TaskState, v: nat, plan: Plan) returns (s': TaskState, v': nat, summary: string, signal: Signal)
      requires Synced(s, v) && Owns(s, Active) && s.status == Isolated && Settled(s.attempts)
      modifies this, registry, store`tasks, store`events, store`worktrees
      ensures Synced(s', v') && SameTask(s, s') && old(clock) <= clock && old(step) <= step
      ensures Extends(s.attempts, s'.attempts, plan.maxAttempts)
      ensures plan.maxAttempts >= 1 ==> signal.Stop? || (signal.Raise? && signal.why != LoopExhausted)
      ensures plan.maxAttempts == 0 <==> signal == Raise(LoopExhausted)
      ensures signal != Raise(LoopExhausted) ==> After(s', signal, plan) && Holds(s')
      ensures signal == Stop ==> s'.status in {Completed, Cancelled, Blocked, HandoffReady}
      ensures signal == Stop && s'.status == HandoffReady ==> plan.allowHandoff
      ensures signal == Stop && s'.status == Completed ==> LastPassed(s'.attempts)
      ensures signal.Raise? && signal.why != LoopExhausted
              ==> !IsTerminal(s'.status) && signal.why in {Fault, Invalid, Foreign, Undelivered}
    {
      s', v', summary, signal := s, v, "", Raise(LoopExhausted);
      var offset := 0;
      while offset < plan.maxAttempts
        invariant 0 <= offset <= plan.maxAttempts
        invariant Synced(s', v') && Owns(s', Active) && s'.status in {Isolated, Executing} && Settled(s'.attempts)
        invariant SameTask(s, s') && old(clock) <= clock && old(step) <= step
        invariant |s'.attempts| == |s.attempts| + offset && Extends(s.attempts, s'.attempts, offset)
        invariant offset == plan.maxAttempts ==> offset == 0
        invariant offset == 0 ==> signal == Raise(LoopExhausted)
      {
        ghost var before := s'.attempts;
        var index := |s.attempts| + 1 + offset;
        s', v', summary, signal := RunAttempt(s', v', plan, index, offset + 1 < plan.maxAttempts);
        assert s'.attempts[..|s.attempts|] == s'.attempts[..|before|][..|s.attempts|];
        if signal != Retry { return; }
        offset := offset + 1;
      }
    }

    /** A transition before the task has a worktree. */
    method Advance(s: TaskState, v: nat, status: TaskStatus) returns (s': TaskState, v': nat, why: Option<Why>)
      requires Synced(s, v) && s.worktree.None? && status in Allowed(s.status) && status in {Inspected, Planned}
      modifies this, store`tasks, store`events
      ensures Synced(s', v') && SameTask(s, s') && old(clock) <= clock && step == old(step) + 1
      ensures s'.worktree.None? && s'.attempts == s.attempts
      ensures why == if strikes(old(step)) then Some(Fault) else None
      ensures s'.status == if why.None? then status else s.status
    {
      StoredStateIsValid(store.keys, store.Contents(), s.request.taskId);
      s', v', why := Transition(s, v, s.(status := status));
    }

    /**
      Create and register the owned worktree, then store it in the snapshot.  Whatever stops this, the
      snapshot is unchanged and still without a worktree, while what was created stays as it is: an active
      record file, and behind the registration an active row.
     */
    method Isolate(s: TaskState, v: nat) returns (s': TaskState, v': nat, why: Option<Why>)
      requires Synced(s, v) && s.worktree.None? && s.status == Planned
      requires s.request.taskId !in store.worktrees && s.request.taskId !in registry.records
      modifies this, registry, store
      ensures Synced(s', v') && SameTask(s, s') && old(clock) <= clock && old(step) <= step && s'.attempts == s.attempts
      ensures why.None? ==> s'.status == Isolated && Owns(s', Active)
      ensures why.Some? ==> s' == s && v' == v && why.value in {Fault, Foreign, RegistryRefused}
      ensures s.request.taskId in registry.records <==> !strikes(old(step))
      ensures why == Some(Foreign) <==> strikes(old(step))
      ensures why == Some(RegistryRefused) ==> !strikes(old(step)) && !strikes(old(step) + 1)
      ensures s.request.taskId in store.worktrees <==>
                !strikes(old(step)) && !strikes(old(step) + 1) && why != Some(RegistryRefused)
      ensures why.None? <==> s.request.taskId in store.worktrees && !strikes(old(step) + 2)
      ensures step == old(step) + if why == Some(Foreign) then 1 else if s.request.taskId in store.worktrees then 3 else 2
      ensures s.request.taskId in registry.records ==> registry.records[s.request.taskId].status == Active
      ensures s.request.taskId in store.worktrees ==>
                s.request.taskId in registry.records && store.worktrees[s.request.taskId].record == registry.records[s.request.taskId]
    {
      s', v', why := s, v, None;
      var created := CreateWorktree(s);
      if created.None? { why := Some(Foreign); return; }
      why := Register(s, v, created.value);
      if why.Some? { return; }
      s', v', why := Adopt(s, v, created.value);
    }

    /** The worktree manager's creation, in what it returns. */
    method CreateWorktree(s: TaskState) returns (record: Option<WorktreeRecord>)
      modifies this
      ensures old(clock) <= clock && step == old(step) + 1 && (record.None? <==> strikes(old(step)))
      ensures record.Some? ==>
                && record.value.taskId == s.request.taskId && record.value.sourceRepository == s.sourceRepository
                && record.value.status == Active && ValidRecord(record.value) && record.value.heartbeatAt <= clock
    {
      var path: string := Foreigner();
      var branch: string := Foreigner();
      var base: string := Foreigner();
      var token: string := Foreigner();
      var struck := Strikes();
      if struck { return None; }
      var now := Now();
      return Some(WorktreeRecord(s.request.taskId, s.sourceRepository, path, Some(branch), base, token, Active, pid, now, now, None));
    }

    /** The registered worktree enters the snapshot. */
    method Adopt(s: TaskState, v: nat, record: WorktreeRecord) returns (s': TaskState, v': nat, why: Option<Why>)
      requires Synced(s, v) && s.worktree.None? && s.status == Planned && record.taskId == s.request.taskId
      requires record.taskId in store.worktrees && store.worktrees[record.taskId].record == record
      requires record.taskId in registry.records && registry.records[record.taskId] == record
      requires ValidRecord(record) && record.status == Active && record.heartbeatAt <= clock
      modifies this, store`tasks, store`events
      ensures Synced(s', v') && SameTask(s, s') && old(clock) <= clock && old(step) <= step && s'.attempts == s.attempts
      ensures why == (if strikes(old(step)) then Some(Fault) else None) && step == old(step) + 1
      ensures if why.None? then s'.status == Isolated && Owns(s', Active) else s' == s && v' == v
    {
      StoredStateIsValid(store.keys, store.Contents(), record.taskId);
      s', v', why := Transition(s, v, s.(status := Isolated, worktree := Some(record)));
    }

    /** The record file first, then the durable row. */
    method Register(s: TaskState, v: nat, record: WorktreeRecord) returns (why: Option<Why>)
      requires Synced(s, v) && record.taskId == s.request.taskId && ValidRecord(record) && record.status == Active
      requires record.sourceRepository == s.sourceRepository
      requires record.taskId !in store.worktrees && record.taskId !in registry.records
      modifies this`step, registry, store
      ensures Synced(s, v) && step == old(step) + 1
      ensures registry.records == old(registry.records)[record.taskId := record]
      ensures why == Some(Fault) <==> strikes(old(step))
      ensures why.None? <==> record.taskId in store.worktrees
      ensures why.None? ==> store.worktrees[record.taskId].record == record
      ensures why.None? || why.value in {Fault, RegistryRefused}
    {
      why := None;
      var added := registry.Add(record);
      var struck := Strikes();
      if struck { why := Some(Fault); return; }
      var reply := store.RegisterWorktree(record);
      if reply.Error? { why := Some(RegistryRefused); }
    }

    /** Create the task and bring it to PLANNED. */
    method Admit(request: Request, source: string) returns (s: TaskState, v: nat, why: Option<Why>)
      requires store.Valid() && ValidRequest(request) && request.taskId !in store.tasks
      modifies this, store`tasks, store`events
      ensures store.Valid() && old(clock) <= clock && old(step) <= step
      ensures request.taskId in store.tasks <==> !strikes(old(step))
      ensures request.taskId in store.tasks ==> Synced(s, v) && s.request == request && s.worktree.None? && s.attempts == []
      ensures request.taskId in store.tasks && why.Some? ==> !IsTerminal(s.status)
      ensures why.None? ==> s.status == Planned && step == old(step) + 3
      ensures why.None? <==> !strikes(old(step)) && !strikes(old(step) + 1) && !strikes(old(step) + 2)
      ensures why.None? || why.value in {Fault, Foreign}
    {
      s, why := CreateRow(request, source);
      v := 1;
      if why.Some? { return; }
      s, v, why := Advance(s, v, Inspected);
      if why.Some? { return; }
      s, v, why := Advance(s, v, Planned);
    }

    method CreateRow(request: Request, source: string) returns (s: TaskState, why: Option<Why>)
      requires store.Valid() && ValidRequest(request) && request.taskId !in store.tasks
      modifies this, store`tasks, store`events
      ensures store.Valid() && old(clock) <= clock && step == old(step) + 1
      ensures why == if strikes(old(step)) then Some(Foreign) else None
      ensures if why.None? then Synced(s, 1) else request.taskId !in store.tasks
      ensures s.request == request && s.status == Created && s.worktree.None? && s.attempts == []
    {
      var now := Now();
      s := TaskState(request, Created, source, None, [], [], [], None, None, [], now, now);
      var struck := Strikes();
      if struck { return s, Some(Foreign); }
      var reply := store.Create(s);
      assert Chained(store.Contents(), request.taskId);
      why := None;
    }

    /**
      The task was planned and its worktree created, but the snapshot never learned of it: an exception
      struck the registration or the transition behind it, or the registry refused the registration.
     */
    predicate Halfway(start: nat, signal: Signal) {
      && !strikes(start) && !strikes(start + 1) && !strikes(start + 2) && !strikes(start + 3)
      && (strikes(start + 4) || signal == Raise(RegistryRefused) || strikes(start + 5))
    }

    /** The step at which the failure handler of such a run begins. */
    function HalfwayEnd(start: nat, signal: Signal): nat {
      if strikes(start + 4) || signal == Raise(RegistryRefused) then start + 5 else start + 6
    }

    /** The durable part of a run before and around the attempt loop. */
    method RunTask(request: Request, source: string, maxLocalAttempts: nat) returns (s: TaskState, v: nat, signal: Signal)
      requires store.Valid() && ValidRequest(request) && 1 <= maxLocalAttempts <= 2
      requires request.taskId !in store.tasks && request.taskId !in registry.records
      modifies this, registry, store
      ensures store.Valid() && old(clock) <= clock && old(step) <= step
      ensures signal == Stop || signal.Raise?
      ensures request.taskId in store.tasks ==> Synced(s, v) && s.request == request
                                                && (s.worktree.None? || Holds(s)) && Numbered(s.attempts)
                                                && |s.attempts| <= maxLocalAttempts
      ensures signal == Stop ==> request.taskId in store.tasks && s.status in {Completed, Cancelled, Blocked, HandoffReady}
      ensures signal.Raise? ==> signal.why != StoreRefused && signal.why != LoopExhausted
      ensures signal.Raise? && request.taskId in store.tasks ==> !IsTerminal(s.status)
      ensures request.taskId in store.tasks <==> !strikes(old(step))
      ensures Halfway(old(step), signal) ==>
                && signal.Raise? && s.worktree.None?
                && request.taskId in registry.records && registry.records[request.taskId].status == Active
                && step == HalfwayEnd(old(step), signal)
      ensures request.taskId in registry.records && !Halfway(old(step), signal) ==>
                request.taskId in store.tasks && s.worktree.Some?
    {
      forall id | id in store.worktrees ensures id in store.tasks { assert RowOk(store.Contents(), id); }
      var why;
      s, v, why := Admit(request, source);
      if why.Some? { signal := Raise(why.value); return; }
      s, v, why := Isolate(s, v);
      if why.Some? { signal := Raise(why.value); return; }
      s, v, signal := Contextualize(s, v, maxLocalAttempts);
    }

    /** Store the context of an isolated task, then dispatch it. */
    method Contextualize(s: TaskState, v: nat, maxLocalAttempts: nat) returns (s': TaskState, v': nat, signal: Signal)
      requires Synced(s, v) && Owns(s, Active) && s.status == Isolated && s.attempts == [] && maxLocalAttempts >= 1
      modifies this, registry, store`tasks, store`events, store`worktrees
      ensures Synced(s', v') && SameTask(s, s') && old(clock) <= clock && old(step) <= step && Numbered(s'.attempts) && Holds(s')
      ensures |s'.attempts| <= maxLocalAttempts
      ensures signal == Stop || (signal.Raise? && signal.why in {Fault, Invalid, Foreign, Undelivered})
      ensures signal == Stop ==> s'.status in {Completed, Cancelled, Blocked, HandoffReady}
      ensures signal.Raise? ==> !IsTerminal(s'.status)
    {
      s', v' := s, v;
      var struck := Strikes();
      if struck { signal := Raise(Fault); return; }
      var why;
      s', v', why := Move(s, v, s);
      if why.Some? { signal := Raise(why.value); return; }
      s', v', signal := Dispatch(s', v', maxLocalAttempts);
    }

    /** High risk goes to a handoff or to one cloud attempt, everything else to the local attempts. */
    method Dispatch(s: TaskState, v: nat, maxLocalAttempts: nat) returns (s': TaskState, v': nat, signal: Signal)
      requires Synced(s, v) && Owns(s, Active) && s.status == Isolated && s.attempts == [] && maxLocalAttempts >= 1
      modifies this, registry, store`tasks, store`events, store`worktrees
      ensures Synced(s', v') && SameTask(s, s') && old(clock) <= clock && old(step) <= step && Numbered(s'.attempts) && Holds(s')
      ensures |s'.attempts| <= maxLocalAttempts
      ensures signal == Stop || (signal.Raise? && signal.why in {Fault, Invalid, Foreign, Undelivered})
      ensures signal == Stop ==> s'.status in {Completed, Cancelled, Blocked, HandoffReady}
      ensures signal == Stop && s'.status == HandoffReady && s.request.risk in {HighRisk, CriticalRisk}
              ==> !s.request.permissions.cloudExecution
      ensures signal.Raise? ==> !IsTerminal(s'.status)
    {
      var high := s.request.risk in {HighRisk, CriticalRisk};
      if high && !s.request.permissions.cloudExecution {
        s', v', signal := Handoff(s, v, "High-risk task requires explicit scoped Codex cloud approval.");
        return;
      }
      var summary;
      s', v', summary, signal := ExecuteFlow(s, v, PlanFor(s.request, maxLocalAttempts));
    }

    /** The handler, starting at this step, gets the worktree orphaned in both registries. */
    predicate Preserves(s: TaskState, start: nat) {
      s.worktree.None? || (!strikes(start) && !strikes(start + 1))
    }

    /** The step of the handler that stores the terminal status. */
    function TerminalStep(s: TaskState, start: nat): nat {
      if s.worktree.None? then start else if strikes(start) then start + 1 else start + 2
    }

    /**
      After an exception: orphan the worktree, then store the terminal status.  A non-terminal task gets it
      exactly when no exception strikes that last step, whatever became of the worktree.
     */
    method HandleFailure(id: string, cancelled: bool, message: string) returns (handled: bool, preserved: bool)
      requires store.Valid() && id in store.tasks
      requires Synced(store.tasks[id].state, store.tasks[id].version)
      requires store.tasks[id].state.worktree.None? || Holds(store.tasks[id].state)
      modifies this, registry, store`tasks, store`events, store`worktrees
      ensures store.Valid() && id in store.tasks && old(clock) <= clock && old(step) <= step
      ensures var s := old(store.tasks[id].state);
        if IsTerminal(s.status) then
          handled && preserved && store.Contents() == old(store.Contents()) && registry.records == old(registry.records)
        else
          && (handled <==> !strikes(TerminalStep(s, old(step))))
          && (preserved <==> Preserves(s, old(step)))
          && (s.worktree.Some? && preserved ==>
                id in store.worktrees && id in registry.records
                && store.worktrees[id].record == registry.records[id] && registry.records[id].status == OrphanedTree)
          && (handled ==> store.tasks[id].state == Terminated(s, if cancelled then Cancelled else Failed, message, clock).(
                            worktree := if s.worktree.Some? && preserved then Some(registry.records[id]) else s.worktree))
          && (!handled ==> store.tasks == old(store.tasks))
          && (s.worktree.None? ==> registry.records == old(registry.records) && store.worktrees == old(store.worktrees))
    {
      StoredStateIsValid(store.keys, store.Contents(), id);
      var s, v := store.tasks[id].state, store.tasks[id].version;
      preserved := true;
      if s.status in {Completed, Failed, Cancelled} { return true, true; }
      var worktree := s.worktree;
      if s.worktree.Some? {
        var record := OrphanForFailure(s, v);
        preserved := record.Some?;
        worktree := if record.Some? then record else s.worktree;
      }
      handled := Terminate(s, v, if cancelled then Cancelled else Failed, message, worktree);
    }

    /** The terminal transition of the failure handler, which the store never refuses. */
    method Terminate(s: TaskState, v: nat, status: TaskStatus, message: string, worktree: Option<WorktreeRecord>)
      returns (handled: bool)
      requires Synced(s, v) && ValidState(s) && !IsTerminal(s.status) && status in {Failed, Cancelled}
      requires if worktree.None? then s.worktree.None?
               else Holds(s) && SameIdentity(s.worktree.value, worktree.value) && worktree.value.taskId == s.request.taskId
      modifies this, store`tasks, store`events
      ensures store.Valid() && old(clock) <= clock && old(step) <= step && s.request.taskId in store.tasks
      ensures handled <==> !strikes(old(step))
      ensures handled ==> store.tasks[s.request.taskId].state == Terminated(s, status, message, clock).(worktree := worktree)
      ensures !handled ==> store.tasks == old(store.tasks)
    {
      var wanted := s.(status := status, worktree := worktree, unresolvedErrors := WithError(s.unresolvedErrors, message));
      var s', v', why := Transition(s, v, wanted);
      handled := why.None?;
    }

    method OrphanForFailure(s: TaskState, v: nat) returns (record: Option<WorktreeRecord>)
      requires Synced(s, v) && Holds(s)
      modifies this, registry, store`worktrees
      ensures Synced(s, v) && Holds(s) && old(clock) <= clock
      ensures record.Some? <==> !strikes(old(step)) && !strikes(old(step) + 1)
      ensures step == if strikes(old(step)) then old(step) + 1 else old(step) + 2
      ensures record.Some? ==> Owns(s, OrphanedTree) && registry.records[s.request.taskId] == record.value
                               && store.worktrees[s.request.taskId].record == record.value
    {
      var now := Now();
      var struck := Strikes();
      if struck { return None; }
      record := registry.MarkOrphaned(s.request.taskId, now);
      struck := SyncRow(s, v, record.value);
      if struck { record := None; }
    }

    /**
      One request from admission to a durable result.  When the failure handler was itself not struck, the
      task of a failed run is terminal; its record file, if there is one, is orphaned and equal to its row
      exactly when the run did not break off halfway through its isolation, and active otherwise.
     */
    method Run(request: Request, source: string, maxLocalAttempts: nat, cancelled: bool, message: string)
      returns (signal: Signal, handled: bool, preserved: bool)
      requires store.Valid() && ValidRequest(request) && 1 <= maxLocalAttempts <= 2
      requires request.taskId !in store.tasks && request.taskId !in registry.records
      modifies this, registry, store
      ensures store.Valid() && (signal == Stop || signal.Raise?)
      ensures request.taskId in store.tasks <==> !strikes(old(step))
      ensures request.taskId in store.tasks ==>
                Numbered(store.tasks[request.taskId].state.attempts) && |store.tasks[request.taskId].state.attempts| <= maxLocalAttempts
      ensures signal == Stop ==>
                && request.taskId in store.tasks
                && store.tasks[request.taskId].state.status in {Completed, Cancelled, Blocked, HandoffReady}
      ensures signal.Raise? ==> signal.why != StoreRefused && signal.why != LoopExhausted
      ensures handled || exists n: nat :: n >= old(step) && strikes(n)
      ensures preserved || exists n: nat :: n >= old(step) && strikes(n)
      ensures signal.Raise? && handled && request.taskId in store.tasks ==>
                store.tasks[request.taskId].state.status == if cancelled then Cancelled else Failed
      ensures Halfway(old(step), signal) ==>
                && signal.Raise? && LeftActive(request.taskId)
                && (handled <==> !strikes(HalfwayEnd(old(step), signal)))
      ensures signal.Raise? && preserved && !Halfway(old(step), signal) && request.taskId in registry.records ==>
                && request.taskId in store.worktrees && registry.records[request.taskId].status == OrphanedTree
                && store.worktrees[request.taskId].record == registry.records[request.taskId]
    {
      var s, v;
      s, v, signal := RunTask(request, source, maxLocalAttempts);
      handled, preserved := true, true;
      if signal.Raise? && request.taskId in store.tasks {
        handled, preserved := HandleFailure(request.taskId, cancelled, message);
      }
    }

    /** The record file says that the worktree is active, and the stored snapshot knows of no worktree. */
    ghost predicate LeftActive(id: string)
      reads this, store, registry
    {
      && id in registry.records && registry.records[id].status == Active
      && id in store.tasks && store.tasks[id].state.worktree.None?
    }

    /**
      A handoff as the engine leaves it: the record of the snapshot's worktree is active in both registries
      and no attempt is running.
     */
    ghost predicate Resumable(id: string)
      reads this, store, registry
      requires id in store.tasks
    {
      && Synced(store.tasks[id].state, store.tasks[id].version)
      && Owns(store.tasks[id].state, Active) && Settled(store.tasks[id].state.attempts)
    }

    /** The stored task is a handoff with cloud approval whose registered worktree is the snapshot's. */
    ghost predicate MayResume(id: string)
      reads this, store, registry
    {
      && id in store.tasks && store.tasks[id].state.status == HandoffReady
      && store.tasks[id].state.request.permissions.cloudExecution
      && id in registry.records && store.tasks[id].state.worktree.Some?
      && SameIdentity(store.tasks[id].state.worktree.value, registry.records[id])
    }

    /** Resume a stored handoff with one cloud attempt; it never prepares another handoff. */
    method Resume(id: string) returns (admitted: bool, latest: Option<TaskState>, v: nat, signal: Signal)
      requires store.Valid() && (MayResume(id) ==> Resumable(id))
      modifies this, registry, store`tasks, store`events, store`worktrees
      ensures store.Valid()
      ensures admitted <==> old(MayResume(id)) && !strikes(old(step))
      ensures !admitted ==> signal == Raise(Foreign) && store.Contents() == old(store.Contents()) && registry.records == old(registry.records)
      ensures admitted ==>
                && latest.Some? && latest.value.request.taskId == id && Synced(latest.value, v)
                && Extends(old(store.tasks[id].state.attempts), latest.value.attempts, 1)
      ensures admitted && signal == Stop ==> latest.value.status in {Completed, Cancelled, Blocked}
      ensures signal != Next && signal != Retry
      ensures signal.Raise? ==> signal.why != StoreRefused && signal.why != RegistryRefused && signal.why != LoopExhausted
    {
      admitted, v, signal := false, 0, Raise(Foreign);
      latest := store.Load(id);
      if latest.None? { return; }
      assert Chained(store.Contents(), id);
      var s := latest.value;
      v := store.tasks[id].version;
      if s.status != HandoffReady || !s.request.permissions.cloudExecution { return; }
      var record := registry.Load(id);
      if record.None? || s.worktree.None? || !SameIdentity(s.worktree.value, record.value) { return; }
      var struck := Strikes();
      if struck { return; }
      admitted := true;
      s, v, signal := Reopen(s, v);
      latest := Some(s);
    }

    /** The one cloud attempt of a resumed handoff. */
    method Reopen(s: TaskState, v: nat) returns (s': TaskState, v': nat, signal: Signal)
      requires Synced(s, v) && Owns(s, Active) && s.status == HandoffReady && Settled(s.attempts)
      modifies this, registry, store`tasks, store`events, store`worktrees
      ensures Synced(s', v') && SameTask(s, s') && Extends(s.attempts, s'.attempts, 1)
      ensures signal == Stop ==> s'.status in {Completed, Cancelled, Blocked}
      ensures signal == Stop || (signal.Raise? && signal.why in {Fault, Invalid, Foreign, Undelivered})
    {
      var why, summary;
      s', v', why := Move(s, v, s.(status := Isolated));
      if why.Some? { signal := Raise(why.value); return; }
      s', v', summary, signal := ExecuteFlow(s', v', Plan(CodexExec, 1, false, false));
    }
  }

  /** The registration of a created worktree fails: its task becomes FAILED while its record stays active. */
  method FailedTaskKeepsActiveRecord(keys: Keys, request: Request, source: string, pid: nat, now: Time, message: string)
    returns (engine: CodingEngine)
    requires ValidRequest(request)
    ensures engine.store.Valid() && engine.LeftActive(request.taskId)
    ensures engine.store.tasks[request.taskId].state.status == Failed
  {
    var store := new CodingTaskStore(keys);
    var registry := new Registry();
    engine := new CodingEngine(store, registry, pid, now, n => n == 4);
    assert engine.Halfway(0, Raise(Fault));
    var signal, handled, preserved := engine.Run(request, source, 1, false, message);
    assert engine.Halfway(0, signal);
  }
}

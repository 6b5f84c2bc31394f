/** The validated records of the coding engine and the one predicate that decides delivery. */
module Contracts {

  datatype Option<+T> = None | Some(value: T)

  type Time = int

  /** A result of a foreign call: any value of its type. */
  method Foreigner<T(0)>() returns (x: T) {
    x := *;
  }

  datatype Mode = ReadOnly | Write
  datatype Risk = LowRisk | MediumRisk | HighRisk | CriticalRisk
  datatype DataClass = Public | Internal | Sensitive

  datatype TaskStatus =
    | Created | Inspected | Planned | Isolated | Executing | Verifying | Reviewing
    | HandoffReady | Completed | Blocked | Failed | Cancelled | Orphaned

  datatype ExecutorKind = LocalQwen | LocalSemanticReview | CodexExec | CodexReview | Deterministic
  datatype AttemptStatus = AttemptRunning | AttemptPassed | AttemptFailed | AttemptTimedOut | AttemptCancelled
  datatype Severity = InfoSeverity | LowSeverity | MediumSeverity | HighSeverity | CriticalSeverity
  datatype Verdict = Approved | Rejected | ReviewBlocked
  datatype WorktreeStatus = Active | Complete | OrphanedTree | CleanupBlocked | Removed

  datatype Permissions = Permissions(modifyFiles: bool, localCommit: bool, cloudExecution: bool, dataClass: DataClass)

  datatype Request = Request(taskId: string, requestId: string, mode: Mode, risk: Risk, permissions: Permissions)

  predicate ValidRequest(r: Request) {
    && (r.permissions.localCommit ==> r.permissions.modifyFiles)
    && (r.permissions.cloudExecution ==> r.permissions.dataClass == Public)
    && (r.mode == ReadOnly ==> !r.permissions.modifyFiles)
    && (r.mode == Write ==> r.permissions.modifyFiles)
  }

  datatype WorktreeRecord = WorktreeRecord(
    taskId: string, sourceRepository: string, worktreePath: string, branch: Option<string>,
    baseCommit: string, ownerToken: string, status: WorktreeStatus, ownerPid: nat,
    createdAt: Time, heartbeatAt: Time, completedAt: Option<Time>)

  datatype Attempt = Attempt(
    index: nat, executor: ExecutorKind, status: AttemptStatus, finished: bool,
    error: Option<string>, commandIds: seq<string>, modifiedFiles: seq<string>)

  predicate ValidAttempt(a: Attempt) {
    && 1 <= a.index <= 10
    && (a.finished <==> a.status != AttemptRunning)
    && (a.status == AttemptFailed ==> a.error.Some? && a.error.value != "")
  }

  /** The finding codes that some gate or delivery rule reads; every other code is text. */
  datatype FindingCode =
    | SourceHeadChanged | SourceMetadataChanged | SourceDirtyChanged
    | WorktreeMissing | WorktreeMismatch | CommitForbidden
    | ReadOnlyCommand | ReadOnlyChanged
    | DiffEmpty | DiffUnavailable | DiffWhitespace | UnexpectedFile | ForbiddenFile | SecretDetected
    | VerificationMissing | VerificationFailed | EvidenceMissing
    | CodexUnstructured | CodexMutatedWorktree | SemanticMutatedWorktree
    | OtherCode(text: string)

  datatype Finding = Finding(severity: Severity, code: FindingCode)

  datatype Review = Review(
    reviewer: ExecutorKind, verdict: Verdict, findings: seq<Finding>,
    checkedRequirements: bool, checkedTests: bool, checkedDiffScope: bool,
    checkedSecrets: bool, checkedConstitution: bool,
    subject: Option<string>, evidenceId: Option<string>, evidenceDigest: Option<string>)

  predicate IsBlocking(f: Finding) {
    f.severity == HighSeverity || f.severity == CriticalSeverity
  }

  predicate HasBlocking(fs: seq<Finding>) {
    exists i :: 0 <= i < |fs| && IsBlocking(fs[i])
  }

  predicate HasCode(fs: seq<Finding>, code: FindingCode) {
    exists i :: 0 <= i < |fs| && fs[i].code == code
  }

  predicate AllGates(r: Review) {
    r.checkedRequirements && r.checkedTests && r.checkedDiffScope && r.checkedSecrets && r.checkedConstitution
  }

  predicate FullyBound(r: Review) {
    r.subject.Some? && r.evidenceId.Some? && r.evidenceDigest.Some?
  }

  predicate ValidReview(r: Review) {
    && !(r.verdict == Approved && HasBlocking(r.findings))
    && ((r.subject.Some? || r.evidenceId.Some? || r.evidenceDigest.Some?) ==> FullyBound(r))
    && (r.reviewer == LocalSemanticReview && r.verdict != ReviewBlocked ==> FullyBound(r))
  }

  predicate CodexDeliveryRequired(q: Request) {
    && q.mode == ReadOnly
    && (q.risk == HighRisk || q.risk == CriticalRisk)
    && q.permissions.cloudExecution
    && q.permissions.dataClass == Public
  }

  /** A review that counts as a completed deliverable of the task. */
  predicate IsDelivery(q: Request, r: Review) {
    if r.verdict == Approved then
      AllGates(r) && (CodexDeliveryRequired(q) ==> r.reviewer == CodexReview)
    else
      && CodexDeliveryRequired(q)
      && r.reviewer == CodexReview
      && r.verdict == Rejected
      && |r.findings| > 0
      && AllGates(r)
      && !HasCode(r.findings, CodexUnstructured)
      && !HasCode(r.findings, CodexMutatedWorktree)
  }

  datatype TaskState = TaskState(
    request: Request, status: TaskStatus, sourceRepository: string, worktree: Option<WorktreeRecord>,
    attempts: seq<Attempt>, commandResults: seq<string>, modifiedFiles: seq<string>,
    review: Option<Review>, commitSha: Option<string>, unresolvedErrors: seq<string>,
    createdAt: Time, updatedAt: Time)

  predicate NeedsWorktree(s: TaskStatus) {
    s in {Isolated, Executing, Verifying, Reviewing, Completed, HandoffReady}
  }

  predicate CleanRejectedDelivery(s: TaskState) {
    && |s.attempts| > 0
    && (var a := s.attempts[|s.attempts| - 1];
        a.executor == CodexReview && a.status == AttemptPassed && a.commandIds == [] && a.modifiedFiles == [])
    && s.commandResults == [] && s.modifiedFiles == [] && s.commitSha.None?
    && s.worktree.Some? && s.worktree.value.status == Complete
  }

  /** The model validators a task snapshot passes whenever it is built. */
  predicate ValidState(s: TaskState) {
    && ValidRequest(s.request)
    && s.createdAt <= s.updatedAt
    && |s.attempts| <= 10
    && (forall i :: 0 <= i < |s.attempts| ==> ValidAttempt(s.attempts[i]))
    && (s.review.Some? ==> ValidReview(s.review.value))
    && (s.request.mode == Write && NeedsWorktree(s.status) ==> s.worktree.Some?)
    && (s.status == Completed ==>
          && s.review.Some? && IsDelivery(s.request, s.review.value)
          && (s.review.value.verdict == Rejected ==> CleanRejectedDelivery(s))
          && s.unresolvedErrors == [])
    && (s.commitSha.Some? ==> s.request.permissions.localCommit)
  }
}

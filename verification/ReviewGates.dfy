/**
  The evidence gate and its merges with a specialized reviewer: which findings and gates a review carries,
  and what must have been true of the evidence for a review to count as a delivery.
 */
module ReviewGates {
  import opened Contracts

  datatype Command = Command(id: string, passed: bool, semantic: bool)

  datatype WorktreeEvidence = NoWorktree | Registered(matches: bool, headAtBase: bool)

  /** Everything the deterministic reviewer looks at. */
  datatype Evidence = Evidence(
    mode: Mode, headChanged: bool, metadataChanged: bool, dirtyChanged: bool, worktree: WorktreeEvidence,
    commands: seq<Command>, required: set<string>, modified: seq<string>, readOnlyUnchanged: bool,
    diffRendered: bool, whitespaceErrors: bool, secretInDiff: bool,
    expected: seq<string>, forbidden: seq<string>)

  /** A path is in scope if it is a listed path or lies below one. */
  predicate MatchesScope(path: string, scope: seq<string>) {
    exists i :: 0 <= i < |scope| && (path == scope[i] || scope[i] + "/" <= path)
  }

  predicate Unexpected(e: Evidence, path: string) {
    e.expected != [] && !MatchesScope(path, e.expected)
  }

  function SeverityOf(code: FindingCode): Severity {
    match code
    case SourceHeadChanged => CriticalSeverity
    case SourceMetadataChanged => CriticalSeverity
    case SourceDirtyChanged => CriticalSeverity
    case WorktreeMissing => CriticalSeverity
    case WorktreeMismatch => CriticalSeverity
    case CommitForbidden => HighSeverity
    case ReadOnlyCommand => HighSeverity
    case ReadOnlyChanged => CriticalSeverity
    case DiffEmpty => HighSeverity
    case DiffUnavailable => HighSeverity
    case DiffWhitespace => HighSeverity
    case UnexpectedFile => HighSeverity
    case ForbiddenFile => HighSeverity
    case SecretDetected => CriticalSeverity
    case VerificationMissing => HighSeverity
    case VerificationFailed => HighSeverity
    case EvidenceMissing => HighSeverity
    case CodexUnstructured => HighSeverity
    case CodexMutatedWorktree => CriticalSeverity
    case SemanticMutatedWorktree => CriticalSeverity
    case OtherCode(_) => HighSeverity
  }

  predicate SomeMissing(e: Evidence) {
    exists id :: id in e.required && forall i :: 0 <= i < |e.commands| ==> e.commands[i].id != id
  }

  predicate RequiredFailed(e: Evidence, c: Command) {
    c.id in e.required && !c.passed
  }

  predicate SomeFailed(e: Evidence) {
    exists i :: 0 <= i < |e.commands| && RequiredFailed(e, e.commands[i])
  }

  predicate IsSemantic(e: Evidence, c: Command) {
    c.id in e.required && c.semantic
  }

  /** Some required verifier exercises the behaviour, and all of those passed. */
  predicate SemanticEvidencePassed(e: Evidence) {
    && (exists i :: 0 <= i < |e.commands| && IsSemantic(e, e.commands[i]))
    && (forall i :: 0 <= i < |e.commands| && IsSemantic(e, e.commands[i]) ==> e.commands[i].passed)
  }

  /** The evidence that raises a finding. */
  predicate Raises(e: Evidence, code: FindingCode) {
    match code
    case SourceHeadChanged => e.headChanged
    case SourceMetadataChanged => e.metadataChanged
    case SourceDirtyChanged => e.dirtyChanged
    case WorktreeMissing => e.worktree.NoWorktree?
    case WorktreeMismatch => e.worktree.Registered? && !e.worktree.matches
    case CommitForbidden => e.worktree.Registered? && !e.worktree.headAtBase
    case ReadOnlyCommand => e.mode == ReadOnly && e.commands != []
    case ReadOnlyChanged => e.mode == ReadOnly && (e.modified != [] || !e.readOnlyUnchanged)
    case DiffEmpty => e.mode == Write && e.modified == []
    case DiffUnavailable => e.mode == Write && !e.diffRendered
    case DiffWhitespace => e.mode == Write && e.whitespaceErrors
    case UnexpectedFile => e.mode == Write && exists i :: 0 <= i < |e.modified| && Unexpected(e, e.modified[i])
    case ForbiddenFile => e.mode == Write && exists i :: 0 <= i < |e.modified| && MatchesScope(e.modified[i], e.forbidden)
    case SecretDetected => e.mode == Write && e.diffRendered && e.secretInDiff
    case VerificationMissing => SomeMissing(e)
    case VerificationFailed => SomeFailed(e)
    case EvidenceMissing => e.mode == Write && !SemanticEvidencePassed(e)
    case CodexUnstructured => false
    case CodexMutatedWorktree => false
    case SemanticMutatedWorktree => false
    case OtherCode(_) => false
  }

  const SCOPE_CODES := {DiffUnavailable, UnexpectedFile, ForbiddenFile}
  const CONSTITUTION_CODES := {SourceHeadChanged, SourceMetadataChanged, SourceDirtyChanged, ReadOnlyCommand,
                               ReadOnlyChanged, CommitForbidden, WorktreeMissing, WorktreeMismatch}

  predicate HasAny(fs: seq<Finding>, codes: set<FindingCode>) {
    exists i :: 0 <= i < |fs| && fs[i].code in codes
  }

  /** Exactly the raised findings, each with the severity of its code. */
  ghost predicate Explains(e: Evidence, fs: seq<Finding>) {
    && (forall i :: 0 <= i < |fs| ==> Raises(e, fs[i].code) && fs[i].severity == SeverityOf(fs[i].code))
    && (forall code :: Raises(e, code) ==> HasCode(fs, code))
  }

  // ---------------------------------------------------------------- collecting findings

  function Found(code: FindingCode): Finding {
    Finding(SeverityOf(code), code)
  }

  /** The place of each code in the order of the report. */
  function Ordinal(code: FindingCode): nat {
    match code
    case SourceHeadChanged => 0
    case SourceMetadataChanged => 1
    case SourceDirtyChanged => 2
    case WorktreeMissing => 3
    case WorktreeMismatch => 4
    case CommitForbidden => 5
    case ReadOnlyCommand => 6
    case ReadOnlyChanged => 7
    case DiffEmpty => 8
    case DiffUnavailable => 9
    case DiffWhitespace => 10
    case UnexpectedFile => 11
    case ForbiddenFile => 12
    case SecretDetected => 13
    case VerificationMissing => 14
    case VerificationFailed => 15
    case EvidenceMissing => 16
    case CodexUnstructured => 17
    case CodexMutatedWorktree => 17
    case SemanticMutatedWorktree => 17
    case OtherCode(_) => 17
  }

  /** The report is complete for the first n codes, and holds nothing else. */
  ghost predicate Covers(e: Evidence, fs: seq<Finding>, n: nat) {
    && (forall i :: 0 <= i < |fs| ==> Ordinal(fs[i].code) < n && Raises(e, fs[i].code) && fs[i].severity == SeverityOf(fs[i].code))
    && (forall code :: Ordinal(code) < n && Raises(e, code) ==> HasCode(fs, code))
  }

  lemma CoversMore(e: Evidence, fs: seq<Finding>, more: seq<Finding>, code: FindingCode)
    requires Ordinal(code) < 17 && Covers(e, fs, Ordinal(code)) && (Raises(e, code) <==> more != [])
    requires forall i :: 0 <= i < |more| ==> more[i] == Found(code)
    ensures Covers(e, fs + more, Ordinal(code) + 1)
  {
    forall c | Ordinal(c) <= Ordinal(code) && Raises(e, c) ensures HasCode(fs + more, c) {
      if Ordinal(c) < Ordinal(code) {
        var i :| 0 <= i < |fs| && fs[i].code == c;
        assert (fs + more)[i].code == c;
      } else {
        assert c == code && (fs + more)[|fs|].code == c;
      }
    }
  }

  /** Codes that this evidence cannot raise need no report. */
  lemma Skip(e: Evidence, fs: seq<Finding>, n: nat, m: nat)
    requires n <= m && Covers(e, fs, n) && forall code :: n <= Ordinal(code) < m ==> !Raises(e, code)
    ensures Covers(e, fs, m)
  {
  }

  /** Appends a finding when its condition holds. */
  method Report(e: Evidence, fs: seq<Finding>, holds: bool, code: FindingCode) returns (more: seq<Finding>)
    requires Ordinal(code) < 17 && Covers(e, fs, Ordinal(code)) && (holds <==> Raises(e, code))
    ensures Covers(e, more, Ordinal(code) + 1)
  {
    more := fs;
    CoversMore(e, fs, if holds then [Found(code)] else [], code);
    assert fs + [] == fs;
    if holds { more := more + [Found(code)]; }
  }

  /** Appends at most 64 findings for the paths that offend against one rule. */
  method ReportPaths(e: Evidence, fs: seq<Finding>, paths: seq<string>, offends: string -> bool, code: FindingCode)
    returns (more: seq<Finding>)
    requires Ordinal(code) < 17 && Covers(e, fs, Ordinal(code))
    requires Raises(e, code) <==> exists i :: 0 <= i < |paths| && offends(paths[i])
    ensures Covers(e, more, Ordinal(code) + 1) && |fs| <= |more| <= |fs| + 64
  {
    var found, n := [], 0;
    while n < |paths|
      invariant 0 <= n <= |paths| && |found| <= 64
      invariant forall i :: 0 <= i < |found| ==> found[i] == Found(code)
      invariant found != [] <==> exists i :: 0 <= i < n && offends(paths[i])
    {
      if offends(paths[n]) && |found| < 64 { found := found + [Found(code)]; }
      n := n + 1;
    }
    CoversMore(e, fs, found, code);
    more := fs + found;
  }

  // ---------------------------------------------------------------- the deterministic review

  method InspectBoundary(e: Evidence) returns (fs: seq<Finding>)
    ensures Covers(e, fs, 6)
  {
    fs := [];
    fs := Report(e, fs, e.headChanged, SourceHeadChanged);
    fs := Report(e, fs, e.metadataChanged, SourceMetadataChanged);
    fs := Report(e, fs, e.dirtyChanged, SourceDirtyChanged);
    fs := Report(e, fs, e.worktree.NoWorktree?, WorktreeMissing);
    fs := Report(e, fs, e.worktree.Registered? && !e.worktree.matches, WorktreeMismatch);
    fs := Report(e, fs, e.worktree.Registered? && !e.worktree.headAtBase, CommitForbidden);
  }

  method InspectReadOnly(e: Evidence, fs: seq<Finding>) returns (more: seq<Finding>)
    requires e.mode == ReadOnly && Covers(e, fs, 6)
    ensures Covers(e, more, 14)
  {
    more := Report(e, fs, e.commands != [], ReadOnlyCommand);
    more := Report(e, more, e.modified != [] || !e.readOnlyUnchanged, ReadOnlyChanged);
    Skip(e, more, 8, 14);
  }

  method InspectDiff(e: Evidence, fs: seq<Finding>) returns (more: seq<Finding>)
    requires e.mode == Write && Covers(e, fs, 6)
    ensures Covers(e, more, 14)
  {
    Skip(e, fs, 6, 8);
    more := Report(e, fs, e.modified == [], DiffEmpty);
    more := Report(e, more, !e.diffRendered, DiffUnavailable);
    more := Report(e, more, e.whitespaceErrors, DiffWhitespace);
    more := InspectPaths(e, more);
  }

  method InspectPaths(e: Evidence, fs: seq<Finding>) returns (more: seq<Finding>)
    requires e.mode == Write && Covers(e, fs, 11)
    ensures Covers(e, more, 14)
  {
    more := ReportPaths(e, fs, e.modified, p => Unexpected(e, p), UnexpectedFile);
    more := ReportPaths(e, more, e.modified, p => MatchesScope(p, e.forbidden), ForbiddenFile);
    more := Report(e, more, e.diffRendered && e.secretInDiff, SecretDetected);
  }

  method InspectVerification(e: Evidence, fs: seq<Finding>) returns (more: seq<Finding>)
    requires Covers(e, fs, 14)
    ensures Covers(e, more, 17)
  {
    var missing := exists id :: id in e.required && forall i :: 0 <= i < |e.commands| ==> e.commands[i].id != id;
    more := Report(e, fs, missing, VerificationMissing);
    more := Report(e, more, SomeFailed(e), VerificationFailed);
    more := Report(e, more, e.mode == Write && !SemanticEvidencePassed(e), EvidenceMissing);
  }

  /** The verdict and gates that a deterministic review of this evidence must carry. */
  ghost predicate Reviewed(e: Evidence, r: Review) {
    && r.reviewer == Deterministic && Explains(e, r.findings)
    && r.verdict == (if HasBlocking(r.findings) then Rejected else Approved)
    && !r.checkedRequirements
    && (r.checkedTests <==> e.mode == ReadOnly || (SemanticEvidencePassed(e) && !SomeMissing(e) && !SomeFailed(e)))
    && (r.checkedDiffScope <==> (e.mode == ReadOnly || e.diffRendered) && !HasAny(r.findings, SCOPE_CODES))
    && (r.checkedSecrets <==> (e.mode == ReadOnly || e.diffRendered) && !HasCode(r.findings, SecretDetected))
    && (r.checkedConstitution <==> !HasAny(r.findings, CONSTITUTION_CODES))
    && r.subject == None && r.evidenceId == None && r.evidenceDigest == None
  }

  method ReviewEvidence(e: Evidence) returns (r: Review)
    ensures Reviewed(e, r) && ValidReview(r)
  {
    var fs := InspectBoundary(e);
    if e.mode == ReadOnly {
      fs := InspectReadOnly(e, fs);
    } else {
      fs := InspectDiff(e, fs);
    }
    fs := InspectVerification(e, fs);
    AllCovered(e, fs);
    var available := e.mode == ReadOnly || e.diffRendered;
    r := Review(Deterministic, if HasBlocking(fs) then Rejected else Approved, fs, false,
                e.mode == ReadOnly || (SemanticEvidencePassed(e) && !HasCode(fs, VerificationMissing) && !SomeFailed(e)),
                available && !HasAny(fs, SCOPE_CODES), available && !HasCode(fs, SecretDetected),
                !HasAny(fs, CONSTITUTION_CODES), None, None, None);
    MissingReported(e, fs);
  }

  lemma AllCovered(e: Evidence, fs: seq<Finding>)
    requires Covers(e, fs, 17)
    ensures Explains(e, fs)
  {
  }

  lemma MissingReported(e: Evidence, fs: seq<Finding>)
    requires Explains(e, fs)
    ensures HasCode(fs, VerificationMissing) <==> SomeMissing(e)
  {
  }

  // ---------------------------------------------------------------- merges with a specialized reviewer

  /** What the specialized reviewer's output was parsed into; invalid output has no findings. */
  datatype CodexOutput = CodexOutput(findings: seq<Finding>, noFindings: bool, invalid: bool)

  /** Parsed codes are free text: none of them is a code that a gate or the delivery rule reads. */
  predicate Parsed(o: CodexOutput) {
    && (o.invalid ==> o.findings == [])
    && forall i :: 0 <= i < |o.findings| ==> o.findings[i].code.OtherCode?
  }

  predicate Understood(o: CodexOutput) {
    !o.invalid && (o.findings != [] || o.noFindings)
  }

  method MergeCodexReview(d: Review, o: CodexOutput, intact: bool) returns (r: Review)
    ensures r == MergedCodex(d, o, intact)
  {
    var fs := d.findings;
    var verdict := ReviewBlocked;
    if o.findings != [] && !o.invalid {
      fs := fs + o.findings;
      verdict := Rejected;
    } else if !o.invalid && o.noFindings {
      verdict := Approved;
    } else {
      fs := fs + [Found(CodexUnstructured)];
    }
    if !intact { fs := fs + [Found(CodexMutatedWorktree)]; }
    assert fs == MergedFindings(d, o, intact);
    var blocking := HasBlocking(fs);
    if d.verdict == Rejected {
      verdict := Rejected;
    } else if d.verdict == ReviewBlocked {
      verdict := ReviewBlocked;
    } else if blocking || verdict == Rejected {
      verdict := Rejected;
    }
    return Review(CodexReview, verdict, fs, Understood(o) && intact, d.checkedTests, d.checkedDiffScope, d.checkedSecrets,
                  d.checkedConstitution && intact, None, None, None);
  }

  function MergedFindings(d: Review, o: CodexOutput, intact: bool): seq<Finding> {
    d.findings
    + (if o.findings != [] && !o.invalid then o.findings else if Understood(o) then [] else [Found(CodexUnstructured)])
    + (if intact then [] else [Found(CodexMutatedWorktree)])
  }

  function MergedCodex(d: Review, o: CodexOutput, intact: bool): Review {
    var fs := MergedFindings(d, o, intact);
    Review(CodexReview,
           if d.verdict != Approved then d.verdict
           else if HasBlocking(fs) || (o.findings != [] && !o.invalid) then Rejected
           else if Understood(o) then Approved else ReviewBlocked,
           fs, Understood(o) && intact, d.checkedTests, d.checkedDiffScope, d.checkedSecrets,
           d.checkedConstitution && intact, None, None, None)
  }

  /** A local semantic result, already re-derived from its subject and bound to its persisted evidence. */
  datatype SemanticOutcome =
    | Unauthenticated(code: string)
    | Attested(rejected: bool, findings: seq<Finding>, covered: bool, subject: string, evidenceId: string, evidenceDigest: string)

  predicate StructuralGates(d: Review) {
    d.checkedTests && d.checkedDiffScope && d.checkedSecrets && d.checkedConstitution
  }

  method MergeLocalSemanticReview(d: Review, o: SemanticOutcome, intact: bool) returns (r: Review)
    ensures r == MergedSemantic(d, o, intact)
  {
    if o.Unauthenticated? {
      return Review(LocalSemanticReview, ReviewBlocked, [Found(OtherCode(o.code))], false, d.checkedTests, d.checkedDiffScope,
                    d.checkedSecrets, d.checkedConstitution && intact, None, None, None);
    }
    var fs := d.findings + o.findings;
    if !intact { fs := fs + [Found(SemanticMutatedWorktree)]; }
    var complete := o.covered && intact;
    var verdict := Approved;
    if d.verdict == Rejected { verdict := Rejected; }
    else if d.verdict == ReviewBlocked || !StructuralGates(d) { verdict := ReviewBlocked; }
    else if o.rejected || o.findings != [] { verdict := Rejected; }
    else if !complete { verdict := ReviewBlocked; }
    return Review(LocalSemanticReview, verdict, fs, complete, d.checkedTests, d.checkedDiffScope, d.checkedSecrets,
                  d.checkedConstitution && intact, Some(o.subject), Some(o.evidenceId), Some(o.evidenceDigest));
  }

  function MergedSemantic(d: Review, o: SemanticOutcome, intact: bool): Review {
    if o.Unauthenticated? then
      Review(LocalSemanticReview, ReviewBlocked, [Found(OtherCode(o.code))], false, d.checkedTests, d.checkedDiffScope,
             d.checkedSecrets, d.checkedConstitution && intact, None, None, None)
    else
      var complete := o.covered && intact;
      Review(LocalSemanticReview,
             if d.verdict != Approved then d.verdict
             else if !StructuralGates(d) then ReviewBlocked
             else if o.rejected || o.findings != [] then Rejected
             else if complete then Approved else ReviewBlocked,
             d.findings + o.findings + (if intact then [] else [Found(SemanticMutatedWorktree)]),
             complete, d.checkedTests, d.checkedDiffScope, d.checkedSecrets, d.checkedConstitution && intact,
             Some(o.subject), Some(o.evidenceId), Some(o.evidenceDigest))
  }

  // ---------------------------------------------------------------- what the gates mean

  /** Nothing outside the task changed, and the task has its own worktree at its base. */
  predicate BoundaryKept(e: Evidence) {
    && !e.headChanged && !e.metadataChanged && !e.dirtyChanged
    && e.worktree.Registered? && e.worktree.matches && e.worktree.headAtBase
    && (e.mode == ReadOnly ==> e.commands == [] && e.modified == [] && e.readOnlyUnchanged)
  }

  /** The change is readable, inside its declared scope, and free of secrets. */
  predicate ChangeInScope(e: Evidence) {
    e.mode == Write ==>
      && e.diffRendered && !e.secretInDiff
      && forall i :: 0 <= i < |e.modified| ==> !Unexpected(e, e.modified[i]) && !MatchesScope(e.modified[i], e.forbidden)
  }

  predicate Verified(e: Evidence) {
    e.mode == Write ==> SemanticEvidencePassed(e) && !SomeMissing(e) && !SomeFailed(e)
  }

  lemma RaisedIsReported(e: Evidence, r: Review, code: FindingCode)
    requires Explains(e, r.findings)
    ensures HasCode(r.findings, code) <==> Raises(e, code)
  {
  }

  lemma AnyIsRaised(e: Evidence, r: Review, codes: set<FindingCode>)
    requires Explains(e, r.findings)
    ensures HasAny(r.findings, codes) <==> exists code :: code in codes && Raises(e, code)
  {
  }

  /** The four structural gates hold exactly when the evidence was clean in the corresponding respect. */
  lemma GatesMeanEvidence(e: Evidence, r: Review)
    requires Reviewed(e, r)
    ensures r.checkedConstitution <==> BoundaryKept(e)
    ensures r.checkedDiffScope && r.checkedSecrets <==> ChangeInScope(e)
    ensures r.checkedTests <==> Verified(e)
  {
    AnyIsRaised(e, r, CONSTITUTION_CODES);
    BoundaryCodes(e);
    ScopeGates(e, r);
  }

  lemma ScopeGates(e: Evidence, r: Review)
    requires Reviewed(e, r)
    ensures r.checkedDiffScope && r.checkedSecrets <==> ChangeInScope(e)
  {
    AnyIsRaised(e, r, SCOPE_CODES);
    RaisedIsReported(e, r, SecretDetected);
    ScopeCodes(e);
  }

  lemma ScopeCodes(e: Evidence)
    ensures ChangeInScope(e) <==>
              (e.mode == ReadOnly || e.diffRendered) && !Raises(e, SecretDetected)
              && !exists code :: code in SCOPE_CODES && Raises(e, code)
  {
  }

  lemma BoundaryCodes(e: Evidence)
    ensures BoundaryKept(e) <==> !exists code :: code in CONSTITUTION_CODES && Raises(e, code)
  {
  }

  /** Approval by the deterministic gate means clean evidence in every respect it looks at. */
  lemma ApprovalMeansEvidence(e: Evidence, r: Review)
    requires Reviewed(e, r)
    ensures r.verdict == Approved ==> StructuralGates(r) && BoundaryKept(e) && ChangeInScope(e) && Verified(e)
    ensures r.verdict == Approved <==> forall code :: !Raises(e, code)
    ensures r.verdict == Approved <==> r.findings == []
  {
    GatesMeanEvidence(e, r);
    forall code ensures Raises(e, code) <==> HasCode(r.findings, code) { RaisedIsReported(e, r, code); }
    assert r.findings != [] ==> IsBlocking(r.findings[0]);
    if r.verdict == Approved {
      assert r.findings == [];
      assert !Raises(e, DiffUnavailable) && !Raises(e, EvidenceMissing);
      assert !Raises(e, VerificationMissing) && !Raises(e, VerificationFailed);
    } else {
      var i :| 0 <= i < |r.findings| && IsBlocking(r.findings[i]);
      assert Raises(e, r.findings[i].code);
    }
  }

  // ---------------------------------------------------------------- what a delivery needs

  /** A merged review is a valid record: an approval never carries a blocking finding. */
  lemma MergesAreValid(e: Evidence, d: Review, c: CodexOutput, s: SemanticOutcome, intact: bool)
    requires Reviewed(e, d)
    ensures ValidReview(MergedCodex(d, c, intact)) && ValidReview(MergedSemantic(d, s, intact))
  {
  }

  /** A specialized merge approves, rejects or blocks exactly so; output that was not understood rejects. */
  lemma CodexVerdicts(e: Evidence, d: Review, o: CodexOutput, intact: bool)
    requires Reviewed(e, d)
    ensures var r := MergedCodex(d, o, intact);
      && (r.verdict == Approved <==> d.verdict == Approved && Understood(o) && o.findings == [] && intact)
      && (r.verdict == Approved ==> r.findings == [])
      && r.verdict != ReviewBlocked
  {
    ApprovalMeansEvidence(e, d);
    if !intact || !Understood(o) { MutationIsReported(d, o, intact); }
  }

  /** A semantic merge approves exactly on an approved gate, an attested complete result without findings and an untouched worktree. */
  lemma SemanticVerdicts(e: Evidence, d: Review, o: SemanticOutcome, intact: bool)
    requires Reviewed(e, d)
    ensures var r := MergedSemantic(d, o, intact);
      && (r.verdict == Approved <==>
            d.verdict == Approved && o.Attested? && o.covered && intact && !o.rejected && o.findings == [])
      && (r.verdict == Approved ==> r.findings == [])
      && (r.verdict == ReviewBlocked <==>
            o.Unauthenticated?
            || (d.verdict == Approved && !o.rejected && o.findings == [] && !(o.covered && intact)))
  {
    ApprovalMeansEvidence(e, d);
  }

  lemma MutationIsReported(d: Review, o: CodexOutput, intact: bool)
    requires !intact || !Understood(o)
    ensures HasCode(MergedFindings(d, o, intact), CodexMutatedWorktree) || HasCode(MergedFindings(d, o, intact), CodexUnstructured)
    ensures HasBlocking(MergedFindings(d, o, intact))
  {
    var fs := MergedFindings(d, o, intact);
    var last := fs[|fs| - 1];
    assert last == Found(CodexMutatedWorktree) || last == Found(CodexUnstructured);
    assert IsBlocking(last);
  }

  /** Every delivery came from an untouched worktree, a reviewer that was understood, and clean evidence. */
  lemma DeliveryNeedsEveryGate(q: Request, e: Evidence, d: Review, c: CodexOutput, s: SemanticOutcome, intact: bool)
    requires Reviewed(e, d)
    ensures IsDelivery(q, MergedCodex(d, c, intact)) ==>
              intact && Understood(c) && BoundaryKept(e) && ChangeInScope(e) && Verified(e)
    ensures IsDelivery(q, MergedSemantic(d, s, intact)) ==>
              && intact && s.Attested? && s.covered && !s.rejected && s.findings == []
              && BoundaryKept(e) && ChangeInScope(e) && Verified(e) && d.verdict == Approved
    ensures !IsDelivery(q, d)
  {
    GatesMeanEvidence(e, d);
  }

  /** The blocking findings that no gate of a read-only review reflects: unmet required verifiers. */
  predicate VerifiersMet(e: Evidence) {
    !SomeMissing(e) && !SomeFailed(e)
  }

  /** On a read-only task whose required verifiers are met, the gates already decide the verdict. */
  lemma ReadOnlyGatesDecide(e: Evidence, d: Review)
    requires Reviewed(e, d) && e.mode == ReadOnly && StructuralGates(d)
    ensures d.verdict == Approved <==> VerifiersMet(e)
  {
    ApprovalMeansEvidence(e, d);
    GatesMeanEvidence(e, d);
    BoundaryCodes(e);
    if VerifiersMet(e) {
      forall code ensures !Raises(e, code) { assert code in CONSTITUTION_CODES ==> !Raises(e, code); }
    } else {
      assert Raises(e, VerificationMissing) || Raises(e, VerificationFailed);
    }
  }

  /**
    A rejected specialized review of a read-only task is delivered exactly when delivery by that reviewer was
    required, its output was understood and left the worktree alone, there is a finding, and the evidence was
    clean; the deterministic gate had then approved exactly if the required verifiers were met.
   */
  lemma RejectedDelivery(q: Request, e: Evidence, d: Review, o: CodexOutput, intact: bool)
    requires Reviewed(e, d) && e.mode == ReadOnly && Parsed(o)
    requires MergedCodex(d, o, intact).verdict == Rejected
    ensures var r := MergedCodex(d, o, intact);
      && (IsDelivery(q, r) <==>
            CodexDeliveryRequired(q) && intact && Understood(o) && r.findings != [] && BoundaryKept(e))
      && (IsDelivery(q, r) ==> (d.verdict == Approved <==> VerifiersMet(e)))
  {
    var r := MergedCodex(d, o, intact);
    GatesMeanEvidence(e, d);
    if intact && Understood(o) { NoReviewerFault(e, d, o); }
    if StructuralGates(d) { ReadOnlyGatesDecide(e, d); }
  }

  lemma NoReviewerFault(e: Evidence, d: Review, o: CodexOutput)
    requires Reviewed(e, d) && Parsed(o) && Understood(o)
    ensures !HasCode(MergedFindings(d, o, true), CodexUnstructured) && !HasCode(MergedFindings(d, o, true), CodexMutatedWorktree)
  {
  }

  /** With a required verifier that never ran, a review is delivered although the deterministic gate rejected. */
  lemma RejectedGateDelivered(q: Request) returns (e: Evidence, d: Review, o: CodexOutput)
    requires CodexDeliveryRequired(q)
    ensures Reviewed(e, d) && e.mode == ReadOnly && d.verdict == Rejected && Parsed(o)
    ensures IsDelivery(q, MergedCodex(d, o, true))
  {
    e := Evidence(ReadOnly, false, false, false, Registered(true, true), [], {"verify"}, [], true, false, false, false, [], []);
    o := CodexOutput([], true, false);
    d := Review(Deterministic, Rejected, [Found(VerificationMissing)], false, true, true, true, true, None, None, None);
    assert "verify" in e.required && SomeMissing(e);
    assert d.findings[0].code == VerificationMissing && IsBlocking(d.findings[0]);
    forall code | Raises(e, code) ensures HasCode(d.findings, code) { assert code == VerificationMissing; }
    assert Reviewed(e, d);
    GatesMeanEvidence(e, d);
    RejectedDelivery(q, e, d, o, true);
    assert MergedCodex(d, o, true).findings[0] == Found(VerificationMissing);
  }
}

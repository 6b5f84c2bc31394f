/**
  Local semantic review results: every field is read from the canonical model response, so a result can be
  derived again from its evidence, and an approval covers every requirement with real evidence.
 */
module SemanticReview {
  import opened Contracts
  import opened ReviewGates

  datatype Json =
    | Null | Boolean(b: bool) | Number(n: int) | Text(s: string) | List(items: seq<Json>) | Object(fields: map<string, Json>)

  /** Canonical JSON, its bounded reader, and the digest. */
  datatype Codec = Codec(write: Json -> string, parse: string -> Option<Json>, digest: string -> string, fits: string -> bool)

  datatype RefKind = ArtifactRef | CommandRef
  datatype Ref = Ref(kind: RefKind, ref: string)

  /** The subject as prepared for one review; `digest` is the digest of its canonical bytes. */
  datatype Prepared = Prepared(
    canonical: string, digest: string, request: string, reviewId: string,
    requirementIds: seq<string>, allowlist: map<string, RefKind>, realRefs: set<string>, commandRefs: set<string>)

  datatype Coverage = Coverage(requirementId: string, refs: seq<Ref>)

  datatype Priority = P0 | P1 | P2 | P3

  datatype SemanticFinding = SemanticFinding(
    priority: Priority, code: string, title: string, file: Option<string>, line: Option<int>,
    scenario: string, requirementIds: seq<string>, refs: seq<Ref>)

  datatype Content = Content(rejected: bool, coverage: seq<Coverage>, findings: seq<SemanticFinding>)

  /** Text rules for finding fields; `file` normalizes an admitted path. */
  datatype Rules = Rules(code: string -> bool, title: string -> bool, scenario: string -> bool, file: string -> Option<string>)

  predicate HasKeys(v: Json, keys: set<string>) {
    v.Object? && v.fields.Keys == keys
  }

  function Kind(v: Json): Option<RefKind> {
    if v == Text("artifact") then Some(ArtifactRef)
    else if v == Text("command_result") then Some(CommandRef)
    else None
  }

  function Names(refs: seq<Ref>): set<string> {
    set i | 0 <= i < |refs| :: refs[i].ref
  }

  // ---------------------------------------------------------------- evidence references

  const REF_KEYS := {"kind", "ref"}

  function ReadRef(p: Prepared, v: Json): Option<Ref> {
    if !HasKeys(v, REF_KEYS) then None
    else
      var kind, ref := Kind(v.fields["kind"]), v.fields["ref"];
      if kind.None? || !ref.Text? || ref.s !in p.allowlist || p.allowlist[ref.s] != kind.value then None
      else Some(Ref(kind.value, ref.s))
  }

  /** The references among the first n items: admitted, and none named twice. */
  function RefsUpTo(p: Prepared, items: seq<Json>, n: nat): Option<seq<Ref>>
    requires n <= |items|
  {
    if n == 0 then Some([])
    else
      var front, last := RefsUpTo(p, items, n - 1), ReadRef(p, items[n - 1]);
      if front.None? || last.None? || last.value.ref in Names(front.value) then None else Some(front.value + [last.value])
  }

  function ReadRefs(p: Prepared, v: Json): Option<seq<Ref>> {
    if !v.List? || |v.items| == 0 || |v.items| > |p.allowlist| then None
    else
      var refs := RefsUpTo(p, v.items, |v.items|);
      if refs.None? || Names(refs.value) * p.realRefs == {} then None else refs
  }

  method ParseEvidenceRefs(p: Prepared, v: Json) returns (r: Option<seq<Ref>>)
    ensures r == ReadRefs(p, v)
  {
    if !v.List? || |v.items| == 0 || |v.items| > |p.allowlist| { return None; }
    var refs: seq<Ref>, seen: set<string>, n := [], {}, 0;
    while n < |v.items|
      invariant 0 <= n <= |v.items| && RefsUpTo(p, v.items, n) == Some(refs) && seen == Names(refs)
    {
      var ref := ReadRef(p, v.items[n]);
      if ref.None? || ref.value.ref in seen {
        RefsStayNone(p, v.items, n + 1, |v.items|);
        return None;
      }
      NamesGrow(refs, ref.value);
      refs, seen := refs + [ref.value], seen + {ref.value.ref};
      n := n + 1;
    }
    if seen * p.realRefs == {} { return None; }
    return Some(refs);
  }

  lemma {:induction false} RefsStayNone(p: Prepared, items: seq<Json>, n: nat, m: nat)
    requires n <= m <= |items| && RefsUpTo(p, items, n).None?
    ensures RefsUpTo(p, items, m).None?
  {
    if n < m { RefsStayNone(p, items, n, m - 1); }
  }

  lemma NamesGrow(refs: seq<Ref>, r: Ref)
    ensures Names(refs + [r]) == Names(refs) + {r.ref}
  {
    var more := refs + [r];
    forall x | x in Names(refs) + {r.ref} ensures x in Names(more) {
      if x in Names(refs) {
        var i :| 0 <= i < |refs| && refs[i].ref == x;
        assert more[i] == refs[i];
      } else {
        assert more[|refs|] == r;
      }
    }
  }

  /** References as the subject admits them. */
  predicate Admitted(p: Prepared, refs: seq<Ref>) {
    && |refs| > 0
    && (forall i :: 0 <= i < |refs| ==> refs[i].ref in p.allowlist && p.allowlist[refs[i].ref] == refs[i].kind)
    && (forall i, j :: 0 <= i < j < |refs| ==> refs[i].ref != refs[j].ref)
    && (exists i :: 0 <= i < |refs| && refs[i].ref in p.realRefs)
  }

  lemma {:induction false} RefsAdmitted(p: Prepared, items: seq<Json>, n: nat, refs: seq<Ref>)
    requires n <= |items| && RefsUpTo(p, items, n) == Some(refs)
    ensures |refs| == n
    ensures forall i :: 0 <= i < |refs| ==> refs[i].ref in p.allowlist && p.allowlist[refs[i].ref] == refs[i].kind
    ensures forall i, j :: 0 <= i < j < |refs| ==> refs[i].ref != refs[j].ref
  {
    if n > 0 {
      var front := RefsUpTo(p, items, n - 1).value;
      RefsAdmitted(p, items, n - 1, front);
      forall i | 0 <= i < |front| ensures refs[i].ref != refs[n - 1].ref { assert front[i].ref in Names(front); }
    }
  }

  lemma ReadRefsAdmitted(p: Prepared, v: Json)
    ensures ReadRefs(p, v).Some? ==> Admitted(p, ReadRefs(p, v).value)
  {
    var r := ReadRefs(p, v);
    if r.Some? {
      RefsAdmitted(p, v.items, |v.items|, r.value);
      var x :| x in Names(r.value) * p.realRefs;
      var i :| 0 <= i < |r.value| && r.value[i].ref == x;
      assert r.value[i].ref in p.realRefs;
    }
  }

  // ---------------------------------------------------------------- coverage

  const COVERAGE_KEYS := {"evidence_refs", "requirement_id"}

  function ReadCoverage(p: Prepared, v: Json, requirementId: string): Option<Coverage> {
    if !HasKeys(v, COVERAGE_KEYS) || v.fields["requirement_id"] != Text(requirementId) then None
    else
      var refs := ReadRefs(p, v.fields["evidence_refs"]);
      if refs.None? then None else Some(Coverage(requirementId, refs.value))
  }

  function CoverageUpTo(p: Prepared, items: seq<Json>, n: nat): Option<seq<Coverage>>
    requires n <= |items| == |p.requirementIds|
  {
    if n == 0 then Some([])
    else
      var front, last := CoverageUpTo(p, items, n - 1), ReadCoverage(p, items[n - 1], p.requirementIds[n - 1]);
      if front.None? || last.None? then None else Some(front.value + [last.value])
  }

  lemma {:induction false} CoverageStaysNone(p: Prepared, items: seq<Json>, n: nat, m: nat)
    requires n <= m <= |items| == |p.requirementIds| && CoverageUpTo(p, items, n).None?
    ensures CoverageUpTo(p, items, m).None?
  {
    if n < m { CoverageStaysNone(p, items, n, m - 1); }
  }

  function Cited(cs: seq<Coverage>): set<string> {
    if |cs| == 0 then {} else Cited(cs[..|cs| - 1]) + Names(cs[|cs| - 1].refs)
  }

  lemma CoverageStep(p: Prepared, items: seq<Json>, n: nat, m: nat, front: seq<Coverage>)
    requires n < m == n + 1 <= |items| == |p.requirementIds| && CoverageUpTo(p, items, n) == Some(front)
    ensures var last := ReadCoverage(p, items[n], p.requirementIds[n]);
      CoverageUpTo(p, items, m) == if last.None? then None else Some(front + [last.value])
  {
  }

  method ParseEntry(p: Prepared, item: Json, requirementId: string) returns (r: Option<Coverage>)
    ensures r == ReadCoverage(p, item, requirementId)
  {
    if !HasKeys(item, COVERAGE_KEYS) || item.fields["requirement_id"] != Text(requirementId) { return None; }
    var refs := ParseEvidenceRefs(p, item.fields["evidence_refs"]);
    if refs.None? { return None; }
    return Some(Coverage(requirementId, refs.value));
  }

  lemma CitedGrows(cs: seq<Coverage>, c: Coverage)
    ensures Cited(cs + [c]) == Cited(cs) + Names(c.refs)
  {
  }

  /** One entry per requirement, in order, and the references cited by any of them. */
  method ParseCoverage(p: Prepared, items: seq<Json>) returns (r: Option<seq<Coverage>>, cited: set<string>)
    requires |items| == |p.requirementIds|
    ensures r == CoverageUpTo(p, items, |items|) && (r.Some? ==> cited == Cited(r.value))
  {
    var coverage: seq<Coverage>, n, count := [], 0, |items|;
    cited := {};
    while n != count
      invariant 0 <= n <= count == |items| && cited == Cited(coverage)
      invariant (CoverageUpTo(p, items, n) == Some(coverage)) == true
      decreases count - n
    {
      var entry := ParseEntry(p, items[n], p.requirementIds[n]);
      var m := n + 1;
      CoverageStep(p, items, n, m, coverage);
      if entry.None? {
        CoverageStaysNone(p, items, m, |items|);
        return None, cited;
      }
      CitedGrows(coverage, entry.value);
      coverage, cited, n := coverage + [entry.value], cited + Names(entry.value.refs), m;
    }
    r := Some(coverage);
  }

  /** Each requirement in order, each with admitted references. */
  predicate CoversRequirements(p: Prepared, cs: seq<Coverage>) {
    && |cs| == |p.requirementIds|
    && forall i :: 0 <= i < |cs| ==> cs[i].requirementId == p.requirementIds[i] && Admitted(p, cs[i].refs)
  }

  lemma {:induction false} CoverageCovers(p: Prepared, items: seq<Json>, n: nat, cs: seq<Coverage>)
    requires n <= |items| == |p.requirementIds| && CoverageUpTo(p, items, n) == Some(cs)
    ensures |cs| == n
    ensures forall i :: 0 <= i < n ==> cs[i].requirementId == p.requirementIds[i] && Admitted(p, cs[i].refs)
  {
    if n > 0 {
      CoverageCovers(p, items, n - 1, CoverageUpTo(p, items, n - 1).value);
      ReadRefsAdmitted(p, items[n - 1].fields["evidence_refs"]);
    }
  }

  // ---------------------------------------------------------------- findings

  const FINDING_KEYS := {"code", "evidence_refs", "failure_scenario", "file", "line", "priority", "requirement_ids", "title"}

  function ReadPriority(v: Json): Option<Priority> {
    if v == Text("P0") then Some(P0) else if v == Text("P1") then Some(P1)
    else if v == Text("P2") then Some(P2) else if v == Text("P3") then Some(P3) else None
  }

  function ReadFile(rules: Rules, v: Json): Option<Option<string>> {
    if v.Null? then Some(None)
    else if !v.Text? then None
    else
      var file := rules.file(v.s);
      if file.None? then None else Some(file)
  }

  function ReadLine(v: Json): Option<Option<int>> {
    if v.Null? then Some(None)
    else if v.Number? && 1 <= v.n <= 1000000000 then Some(Some(v.n))
    else None
  }

  predicate KnownIds(p: Prepared, v: Json) {
    && v.List? && |v.items| > 0
    && (forall i :: 0 <= i < |v.items| ==> v.items[i].Text? && v.items[i].s in p.requirementIds)
    && (forall i, j :: 0 <= i < j < |v.items| ==> v.items[i] != v.items[j])
  }

  function Ids(v: Json): seq<string>
    requires v.List? && forall i :: 0 <= i < |v.items| ==> v.items[i].Text?
  {
    seq(|v.items|, i requires 0 <= i < |v.items| => v.items[i].s)
  }

  function ReadFinding(p: Prepared, rules: Rules, v: Json): Option<SemanticFinding> {
    if !HasKeys(v, FINDING_KEYS) then None
    else
      var f := v.fields;
      var priority, file, line := ReadPriority(f["priority"]), ReadFile(rules, f["file"]), ReadLine(f["line"]);
      var refs := ReadRefs(p, f["evidence_refs"]);
      if priority.None? || !f["code"].Text? || !rules.code(f["code"].s) then None
      else if !f["title"].Text? || !rules.title(f["title"].s) then None
      else if !f["failure_scenario"].Text? || !rules.scenario(f["failure_scenario"].s) then None
      else if file.None? || line.None? || (file.value.None? <==> line.value.Some?) then None
      else if !KnownIds(p, f["requirement_ids"]) || refs.None? then None
      else Some(SemanticFinding(priority.value, f["code"].s, f["title"].s, file.value, line.value,
                                f["failure_scenario"].s, Ids(f["requirement_ids"]), refs.value))
  }

  function FindingsUpTo(p: Prepared, rules: Rules, items: seq<Json>, n: nat): Option<seq<SemanticFinding>>
    requires n <= |items|
  {
    if n == 0 then Some([])
    else
      var front, last := FindingsUpTo(p, rules, items, n - 1), ReadFinding(p, rules, items[n - 1]);
      if front.None? || last.None? then None else Some(front.value + [last.value])
  }

  lemma {:induction false} FindingsStayNone(p: Prepared, rules: Rules, items: seq<Json>, n: nat, m: nat)
    requires n <= m <= |items| && FindingsUpTo(p, rules, items, n).None?
    ensures FindingsUpTo(p, rules, items, m).None?
  {
    if n < m { FindingsStayNone(p, rules, items, n, m - 1); }
  }

  lemma FindingsStep(p: Prepared, rules: Rules, items: seq<Json>, n: nat, m: nat, front: seq<SemanticFinding>)
    requires n < m == n + 1 <= |items| && FindingsUpTo(p, rules, items, n) == Some(front)
    ensures var last := ReadFinding(p, rules, items[n]);
      FindingsUpTo(p, rules, items, m) == if last.None? then None else Some(front + [last.value])
  {
  }

  method ParseFindings(p: Prepared, rules: Rules, items: seq<Json>) returns (r: Option<seq<SemanticFinding>>)
    ensures r == FindingsUpTo(p, rules, items, |items|)
  {
    var findings: seq<SemanticFinding>, n, count := [], 0, |items|;
    while n != count
      invariant 0 <= n <= count == |items|
      invariant (FindingsUpTo(p, rules, items, n) == Some(findings)) == true
      decreases count - n
    {
      var finding, m := ReadFinding(p, rules, items[n]), n + 1;
      FindingsStep(p, rules, items, n, m, findings);
      if finding.None? {
        FindingsStayNone(p, rules, items, m, |items|);
        return None;
      }
      findings, n := findings + [finding.value], m;
    }
    r := Some(findings);
  }

  lemma {:induction false} FindingsAdmitted(p: Prepared, rules: Rules, items: seq<Json>, n: nat, fs: seq<SemanticFinding>)
    requires n <= |items| && FindingsUpTo(p, rules, items, n) == Some(fs)
    ensures |fs| == n && forall i :: 0 <= i < n ==> Grounded(p, fs[i])
  {
    if n > 0 {
      var front := FindingsUpTo(p, rules, items, n - 1).value;
      FindingsAdmitted(p, rules, items, n - 1, front);
      FindingGrounded(p, rules, items[n - 1]);
    }
  }

  /** A finding names known requirements and cites admitted evidence. */
  predicate Grounded(p: Prepared, f: SemanticFinding) {
    && |f.requirementIds| > 0 && (forall i :: 0 <= i < |f.requirementIds| ==> f.requirementIds[i] in p.requirementIds)
    && Admitted(p, f.refs) && (f.file.Some? <==> f.line.Some?)
  }

  lemma FindingGrounded(p: Prepared, rules: Rules, v: Json)
    ensures ReadFinding(p, rules, v).Some? ==> Grounded(p, ReadFinding(p, rules, v).value)
  {
    if HasKeys(v, FINDING_KEYS) { ReadRefsAdmitted(p, v.fields["evidence_refs"]); }
  }

  // ---------------------------------------------------------------- the whole response

  const ROOT_KEYS := {"coverage", "findings", "schema_version", "subject_sha256", "verdict"}

  function ReadVerdict(v: Json): Option<bool> {
    if v == Text("approved") then Some(false) else if v == Text("rejected") then Some(true) else None
  }

  function ReadResponse(p: Prepared, rules: Rules, v: Json): Option<Content> {
    if !HasKeys(v, ROOT_KEYS) then None
    else
      var rejected, cs, fs := ReadVerdict(v.fields["verdict"]), v.fields["coverage"], v.fields["findings"];
      if v.fields["schema_version"] != Text("1.0") || v.fields["subject_sha256"] != Text(p.digest) || rejected.None? then None
      else if !cs.List? || |cs.items| != |p.requirementIds| then None
      else
        var coverage := CoverageUpTo(p, cs.items, |cs.items|);
        if coverage.None? || (!rejected.value && !(p.commandRefs <= Cited(coverage.value))) then None
        else if !fs.List? || |fs.items| > 256 || (rejected.value <==> |fs.items| == 0) then None
        else
          var findings := FindingsUpTo(p, rules, fs.items, |fs.items|);
          if findings.None? then None else Some(Content(rejected.value, coverage.value, findings.value))
  }

  /** What a canonical response means, if it is canonical at all. */
  function Derived(codec: Codec, p: Prepared, rules: Rules, response: string): Option<Content> {
    match codec.parse(response)
    case None => None
    case Some(v) => if codec.write(v) != response then None else ReadResponse(p, rules, v)
  }

  method ParseSemanticResponse(codec: Codec, p: Prepared, rules: Rules, response: string) returns (r: Option<Content>)
    ensures r == Derived(codec, p, rules, response)
  {
    var parsed := codec.parse(response);
    if parsed.None? || codec.write(parsed.value) != response { return None; }
    var v := parsed.value;
    if !HasKeys(v, ROOT_KEYS) { return None; }
    if v.fields["schema_version"] != Text("1.0") || v.fields["subject_sha256"] != Text(p.digest) { return None; }
    var rejected := ReadVerdict(v.fields["verdict"]);
    if rejected.None? { return None; }
    var raw := v.fields["coverage"];
    if !raw.List? || |raw.items| != |p.requirementIds| { return None; }
    var coverage, cited := ParseCoverage(p, raw.items);
    if coverage.None? { return None; }
    if !rejected.value && !(p.commandRefs <= cited) { return None; }
    var listed := v.fields["findings"];
    if !listed.List? || |listed.items| > 256 { return None; }
    if (!rejected.value && |listed.items| > 0) || (rejected.value && |listed.items| == 0) { return None; }
    var findings := ParseFindings(p, rules, listed.items);
    if findings.None? { return None; }
    return Some(Content(rejected.value, coverage.value, findings.value));
  }

  /** What acceptance of a response guarantees for the subject. */
  predicate Complete(p: Prepared, c: Content) {
    && CoversRequirements(p, c.coverage)
    && (!c.rejected ==> p.commandRefs <= Cited(c.coverage) && c.findings == [])
    && (c.rejected ==> c.findings != [])
    && forall i :: 0 <= i < |c.findings| ==> Grounded(p, c.findings[i])
  }

  lemma DerivedIsComplete(codec: Codec, p: Prepared, rules: Rules, response: string)
    ensures Derived(codec, p, rules, response).Some? ==> Complete(p, Derived(codec, p, rules, response).value)
  {
    var r := Derived(codec, p, rules, response);
    if r.Some? {
      var f := codec.parse(response).value.fields;
      CoverageCovers(p, f["coverage"].items, |f["coverage"].items|, r.value.coverage);
      FindingsAdmitted(p, rules, f["findings"].items, |f["findings"].items|, r.value.findings);
    }
  }

  lemma {:induction false} SameRefs(p: Prepared, q: Prepared, items: seq<Json>, n: nat)
    requires n <= |items| && RefsUpTo(p, items, n).Some? && RefsUpTo(q, items, n).Some?
    ensures RefsUpTo(p, items, n) == RefsUpTo(q, items, n)
  {
    if n > 0 { SameRefs(p, q, items, n - 1); }
  }

  lemma {:induction false} SameCoverage(p: Prepared, q: Prepared, items: seq<Json>, n: nat)
    requires n <= |items| == |p.requirementIds| == |q.requirementIds|
    requires CoverageUpTo(p, items, n).Some? && CoverageUpTo(q, items, n).Some?
    ensures CoverageUpTo(p, items, n) == CoverageUpTo(q, items, n)
  {
    if n > 0 {
      SameCoverage(p, q, items, n - 1);
      var raw := items[n - 1].fields["evidence_refs"];
      SameRefs(p, q, raw.items, |raw.items|);
    }
  }

  lemma {:induction false} SameFindings(p: Prepared, q: Prepared, rules: Rules, items: seq<Json>, n: nat)
    requires n <= |items| && FindingsUpTo(p, rules, items, n).Some? && FindingsUpTo(q, rules, items, n).Some?
    ensures FindingsUpTo(p, rules, items, n) == FindingsUpTo(q, rules, items, n)
  {
    if n > 0 {
      SameFindings(p, q, rules, items, n - 1);
      var raw := items[n - 1].fields["evidence_refs"];
      SameRefs(p, q, raw.items, |raw.items|);
    }
  }

  /** One canonical response has one meaning, and for one subject only. */
  lemma ResponseHasOneMeaning(codec: Codec, p: Prepared, q: Prepared, rules: Rules, response: string)
    requires Derived(codec, p, rules, response).Some? && Derived(codec, q, rules, response).Some?
    ensures Derived(codec, p, rules, response) == Derived(codec, q, rules, response) && p.digest == q.digest
  {
    var f := codec.parse(response).value.fields;
    SameCoverage(p, q, f["coverage"].items, |f["coverage"].items|);
    SameFindings(p, q, rules, f["findings"].items, |f["findings"].items|);
  }

  // ---------------------------------------------------------------- results

  datatype Attestation = Attestation(identity: string)

  datatype Proof = Proof(
    subjectDigest: string, canonicalSubject: string, requestDigest: string,
    modelResponse: string, modelDigest: string, canonicalResponse: string, responseDigest: string,
    before: Attestation, after: Attestation, attestationDigest: string, rejected: bool, reviewedAt: Time)

  datatype Result = Result(subjectDigest: string, reviewId: string, content: Content, proof: Proof)

  /** The configured model: which attestation it has, and how an attestation pair is digested. */
  datatype Config = Config(codec: Codec, rules: Rules, attested: Attestation -> bool, link: (Attestation, Attestation) -> string)

  function Canonicalized(codec: Codec, response: string): Option<string> {
    match codec.parse(response)
    case None => None
    case Some(v) => if codec.fits(codec.write(v)) then Some(codec.write(v)) else None
  }

  predicate Prepares(config: Config, p: Prepared) {
    p.digest == config.codec.digest(p.canonical)
  }

  /** The one result that a model response, given under one attestation, stands for. */
  function Rebuilt(config: Config, p: Prepared, response: string, a: Attestation, at: Time): Option<Result> {
    match Canonicalized(config.codec, response)
    case None => None
    case Some(canonical) =>
      match Derived(config.codec, p, config.rules, canonical)
      case None => None
      case Some(content) =>
        var digest := config.codec.digest;
        Some(Result(p.digest, p.reviewId, content,
                    Proof(p.digest, p.canonical, digest(p.request), response, digest(response), canonical, digest(canonical),
                          a, a, config.link(a, a), content.rejected, at)))
  }

  /** The result is the one its own model response stands for, under an attestation of the configured model. */
  predicate Rederivable(config: Config, p: Prepared, r: Result) {
    && Prepares(config, p) && config.attested(r.proof.before)
    && Rebuilt(config, p, r.proof.modelResponse, r.proof.before, r.proof.reviewedAt) == Some(r)
  }

  /** Everything in an accepted result follows from response, attestation and review time: no other field can be altered. */
  lemma TamperingIsRefused(config: Config, p: Prepared, r: Result, other: Result)
    requires Rederivable(config, p, r) && other != r
    requires other.proof.modelResponse == r.proof.modelResponse && other.proof.before == r.proof.before
    requires other.proof.reviewedAt == r.proof.reviewedAt
    ensures !Rederivable(config, p, other)
  {
  }

  method ValidateSemanticResult(config: Config, p: Prepared, r: Result) returns (ok: bool)
    ensures ok <==> Rederivable(config, p, r)
  {
    var digest := config.codec.digest;
    if r.subjectDigest != p.digest || r.reviewId != p.reviewId || r.proof.subjectDigest != p.digest
       || r.proof.canonicalSubject != p.canonical || digest(r.proof.canonicalSubject) != p.digest
       || r.proof.responseDigest != digest(r.proof.canonicalResponse) || r.proof.requestDigest != digest(p.request)
       || r.proof.modelDigest != digest(r.proof.modelResponse)
       || Canonicalized(config.codec, r.proof.modelResponse) != Some(r.proof.canonicalResponse)
       || r.proof.rejected != r.content.rejected {
      return false;
    }
    if !config.attested(r.proof.before) || !config.attested(r.proof.after) || r.proof.before != r.proof.after { return false; }
    if r.proof.attestationDigest != config.link(r.proof.before, r.proof.after) { return false; }
    var content := ParseSemanticResponse(config.codec, p, config.rules, r.proof.canonicalResponse);
    return content == Some(r.content);
  }

  /** One review: whatever the service answers and attests, a result that comes back can be derived again. */
  method ReviewSubject(config: Config, p: Prepared) returns (r: Option<Result>)
    requires Prepares(config, p)
    ensures r.Some? ==> Rederivable(config, p, r.value)
  {
    var current: bool := Foreigner();
    if !current { return None; }
    var before: Attestation := Foreigner();
    if !config.attested(before) { return None; }
    var answered: bool := Foreigner();
    var response: string := Foreigner();
    current := Foreigner();
    if !answered || !current { return None; }
    var after: Attestation := Foreigner();
    if !config.attested(after) || before != after { return None; }
    current := Foreigner();
    if !current { return None; }
    var canonical := Canonicalized(config.codec, response);
    if canonical.None? { return None; }
    var content := ParseSemanticResponse(config.codec, p, config.rules, canonical.value);
    if content.None? { return None; }
    var reviewedAt: Time := Foreigner();
    var digest := config.codec.digest;
    var proof := Proof(p.digest, p.canonical, digest(p.request), response, digest(response), canonical.value,
                       digest(canonical.value), before, after, config.link(before, after), content.value.rejected, reviewedAt);
    return Some(Result(p.digest, p.reviewId, content.value, proof));
  }

  /** Results with the same canonical response agree in verdict, coverage and findings, and speak of one subject. */
  lemma SameResponseSameResult(config: Config, p: Prepared, q: Prepared, a: Result, b: Result)
    requires Rederivable(config, p, a) && Rederivable(config, q, b)
    requires a.proof.canonicalResponse == b.proof.canonicalResponse
    ensures a.content == b.content && a.subjectDigest == b.subjectDigest
  {
    ResponseHasOneMeaning(config.codec, p, q, config.rules, a.proof.canonicalResponse);
  }

  // ---------------------------------------------------------------- into the merge

  function SeverityFor(priority: Priority): Severity {
    match priority
    case P0 => CriticalSeverity
    case P1 => HighSeverity
    case P2 => MediumSeverity
    case P3 => LowSeverity
  }

  function AsFindings(fs: seq<SemanticFinding>): (r: seq<Finding>)
    ensures |r| == |fs| && forall i :: 0 <= i < |fs| ==> r[i] == Finding(SeverityFor(fs[i].priority), OtherCode(fs[i].code))
  {
    seq(|fs|, i requires 0 <= i < |fs| => Finding(SeverityFor(fs[i].priority), OtherCode(fs[i].code)))
  }

  /** The persisted evidence artifact, as far as the merge authenticates it. */
  datatype Artifact = Artifact(id: string, digest: string, authentic: bool)

  /** What the merge makes of a result; anything it cannot derive again is unauthenticated. */
  method Authenticate(config: Config, p: Prepared, d: Review, r: Result, artifact: Artifact, bound: bool) returns (o: SemanticOutcome)
    ensures o.Attested? <==> Rederivable(config, p, r) && artifact.authentic && bound
    ensures o.Attested? ==>
      o == Attested(r.content.rejected, AsFindings(r.content.findings), r.content.coverage != [], p.digest, artifact.id, artifact.digest)
  {
    var valid := ValidateSemanticResult(config, p, r);
    if !valid { return Unauthenticated("local_semantic.result_invalid"); }
    if !artifact.authentic { return Unauthenticated("local_semantic.evidence_binding_invalid"); }
    if !bound { return Unauthenticated("local_semantic.subject_binding_invalid"); }
    return Attested(r.content.rejected, AsFindings(r.content.findings), r.content.coverage != [], p.digest, artifact.id, artifact.digest);
  }

  /**
    An approved merge means: the result can be derived again, every requirement of the subject is covered in
    order by admitted and real evidence, every required command is cited, and there is no finding at all.
   */
  lemma ApprovedMergeCoversSubject(config: Config, p: Prepared, e: Evidence, d: Review, r: Result, o: SemanticOutcome, intact: bool)
    requires Reviewed(e, d) && MergedSemantic(d, o, intact).verdict == Approved
    requires o.Attested? ==>
      && Rederivable(config, p, r)
      && o.rejected == r.content.rejected && o.findings == AsFindings(r.content.findings) && o.covered == (r.content.coverage != [])
    ensures o.Attested? && intact && CoversRequirements(p, r.content.coverage) && p.requirementIds != []
    ensures p.commandRefs <= Cited(r.content.coverage)
    ensures MergedSemantic(d, o, intact).findings == [] && BoundaryKept(e) && ChangeInScope(e) && Verified(e)
  {
    DerivedIsComplete(config.codec, p, config.rules, r.proof.canonicalResponse);
    ApprovalMeansEvidence(e, d);
  }
}

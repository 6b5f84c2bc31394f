/** Declared path scopes: collapsing to an antichain under path prefix, and the conflict check behind it. */
module DeclaredScope {
  import opened Contracts
  import opened ReviewGates

  /** A path equals a scope or lies below it. */
  predicate Under(path: string, scope: string) {
    path == scope || scope + "/" <= path
  }

  lemma UnderIsTransitive(a: string, b: string, c: string)
    requires Under(a, b) && Under(b, c)
    ensures Under(a, c)
  {
  }

  predicate Covered(path: string, scopes: seq<string>) {
    exists i :: 0 <= i < |scopes| && Under(path, scopes[i])
  }

  predicate Antichain(scopes: seq<string>) {
    forall i, j :: 0 <= i < |scopes| && 0 <= j < |scopes| && i != j ==> !Under(scopes[i], scopes[j])
  }

  /** The scopes not strictly below a value, in their order. */
  method DropBelow(scopes: seq<string>, value: string) returns (kept: seq<string>)
    requires Antichain(scopes)
    ensures Antichain(kept)
    ensures forall s :: s in kept <==> s in scopes && !(value + "/" <= s)
  {
    kept := [];
    var n := 0;
    while n < |scopes|
      invariant 0 <= n <= |scopes|
      invariant Antichain(kept)
      invariant forall s :: s in kept <==> s in scopes[..n] && !(value + "/" <= s)
    {
      if !(value + "/" <= scopes[n]) {
        forall i | 0 <= i < |kept| ensures !Under(kept[i], scopes[n]) && !Under(scopes[n], kept[i]) {
          assert kept[i] in scopes[..n];
        }
        kept := kept + [scopes[n]];
      }
      n := n + 1;
    }
  }

  lemma CoveredByMember(path: string, scopes: seq<string>, s: string)
    ensures s in scopes && Under(path, s) ==> Covered(path, scopes)
  {
  }

  /** Collapsing keeps exactly the topmost values: an antichain that covers the same paths. */
  method CollapseScopes(values: seq<string>) returns (result: seq<string>)
    ensures Antichain(result)
    ensures forall path :: Covered(path, result) <==> Covered(path, values)
    ensures forall s :: s in result <==> Topmost(s, values)
  {
    result := [];
    var n := 0;
    while n < |values|
      invariant 0 <= n <= |values| && Antichain(result)
      invariant forall s :: s in result ==> s in values[..n]
      invariant forall s :: s in values[..n] ==> Covered(s, result)
    {
      var value := values[n];
      if !Covered(value, result) {
        ghost var before := result;
        result := DropBelow(result, value);
        forall i | 0 <= i < |result| ensures !Under(result[i], value) && !Under(value, result[i]) {
          assert result[i] in before;
          CoveredByMember(value, before, result[i]);
        }
        result := result + [value];
        forall s | s in values[..n + 1] ensures Covered(s, result) { Recovered(s, values[..n], before, value, result); }
      }
      n := n + 1;
    }
    assert values[..n] == values;
    forall path ensures Covered(path, result) <==> Covered(path, values) { SameCover(path, values, result); }
    forall s ensures s in result <==> Topmost(s, values) { TopmostOnly(s, values, result); }
  }

  lemma Recovered(s: string, earlier: seq<string>, before: seq<string>, value: string, after: seq<string>)
    requires s in earlier + [value] && forall t :: t in earlier ==> Covered(t, before)
    requires forall t :: t in after <==> t == value || (t in before && !(value + "/" <= t))
    ensures Covered(s, after)
  {
    if s == value {
      CoveredByMember(s, after, value);
    } else {
      assert s in earlier;
      var i :| 0 <= i < |before| && Under(s, before[i]);
      if value + "/" <= before[i] {
        UnderIsTransitive(s, before[i], value);
        CoveredByMember(s, after, value);
      } else {
        CoveredByMember(s, after, before[i]);
      }
    }
  }

  lemma SameCover(path: string, values: seq<string>, result: seq<string>)
    requires forall s :: s in result ==> s in values
    requires forall s :: s in values ==> Covered(s, result)
    ensures Covered(path, result) <==> Covered(path, values)
  {
    if Covered(path, result) {
      var i :| 0 <= i < |result| && Under(path, result[i]);
      CoveredByMember(path, values, result[i]);
    }
    if Covered(path, values) {
      var i :| 0 <= i < |values| && Under(path, values[i]);
      assert values[i] in values && Covered(values[i], result);
      var j :| 0 <= j < |result| && Under(values[i], result[j]);
      UnderIsTransitive(path, values[i], result[j]);
      CoveredByMember(path, result, result[j]);
    }
  }

  /** A value with no other value above it. */
  predicate Topmost(s: string, values: seq<string>) {
    s in values && forall t :: t in values && Under(s, t) ==> t == s
  }

  lemma TopmostOnly(s: string, values: seq<string>, result: seq<string>)
    requires Antichain(result)
    requires forall t :: t in result ==> t in values
    requires forall t :: t in values ==> Covered(t, result)
    ensures s in result <==> Topmost(s, values)
  {
  }

  // ---------------------------------------------------------------- conflicts

  predicate Conflict(expected: seq<string>, forbidden: seq<string>) {
    exists i :: 0 <= i < |expected| && Covered(expected[i], forbidden)
  }

  datatype DeclaredScopes = DeclaredScopes(rules: seq<string>, expected: seq<string>, forbidden: seq<string>)

  const MAX_DECLARED_SCOPE_PATHS := 256

  /** The distinct topmost values. */
  function Tops(values: seq<string>): set<string> {
    set s | s in values && Topmost(s, values)
  }

  lemma {:induction false} AntichainCounts(scopes: seq<string>)
    requires Antichain(scopes)
    ensures |set s | s in scopes| == |scopes|
  {
    if |scopes| > 0 {
      var front, last := scopes[..|scopes| - 1], scopes[|scopes| - 1];
      AntichainCounts(front);
      assert last !in front by {
        forall i | 0 <= i < |front| ensures front[i] != last { assert !Under(scopes[i], scopes[|scopes| - 1]); }
      }
      assert (set s | s in scopes) == (set s | s in front) + {last};
    }
  }

  lemma CollapsedCounts(values: seq<string>, collapsed: seq<string>)
    requires Antichain(collapsed) && forall s :: s in collapsed <==> Topmost(s, values)
    ensures |collapsed| == |Tops(values)|
  {
    AntichainCounts(collapsed);
    assert (set s | s in collapsed) == Tops(values);
  }

  /** The collapsed lists conflict exactly when a topmost positive scope lies in a forbidden one. */
  lemma CollapsedConflict(expected: seq<string>, forbidden: seq<string>, b: seq<string>, c: seq<string>)
    requires forall s :: s in b <==> Topmost(s, expected)
    requires forall p :: Covered(p, c) <==> Covered(p, forbidden)
    ensures Conflict(b, c) <==> TopConflict(expected, forbidden)
  {
    if TopConflict(expected, forbidden) {
      var s :| Topmost(s, expected) && Covered(s, forbidden);
      var i :| 0 <= i < |b| && b[i] == s;
      assert Covered(b[i], c);
    }
    if Conflict(b, c) {
      var i :| 0 <= i < |b| && Covered(b[i], c);
      assert b[i] in b && Topmost(b[i], expected) && Covered(b[i], forbidden);
    }
  }

  predicate TooMany(values: seq<string>) {
    |Tops(values)| > MAX_DECLARED_SCOPE_PATHS
  }

  /** Collapsed scopes; none exactly when a topmost positive scope lies in a forbidden one or a list is too long. */
  method ResolveScopes(rules: seq<string>, expected: seq<string>, forbidden: seq<string>) returns (r: Option<DeclaredScopes>)
    ensures r.None? <==> TopConflict(expected, forbidden) || TooMany(rules) || TooMany(expected) || TooMany(forbidden)
    ensures r.Some? ==>
      && Antichain(r.value.rules) && Antichain(r.value.expected) && Antichain(r.value.forbidden)
      && (forall s :: s in r.value.rules <==> Topmost(s, rules))
      && (forall s :: s in r.value.expected <==> Topmost(s, expected))
      && (forall s :: s in r.value.forbidden <==> Topmost(s, forbidden))
      && (forall p :: Covered(p, r.value.rules) <==> Covered(p, rules))
      && (forall p :: Covered(p, r.value.expected) <==> Covered(p, expected))
      && (forall p :: Covered(p, r.value.forbidden) <==> Covered(p, forbidden))
  {
    var a := CollapseScopes(rules);
    var b := CollapseScopes(expected);
    var c := CollapseScopes(forbidden);
    CollapsedCounts(rules, a);
    CollapsedCounts(expected, b);
    CollapsedCounts(forbidden, c);
    CollapsedConflict(expected, forbidden, b, c);
    if Conflict(b, c) { return None; }
    if |a| > MAX_DECLARED_SCOPE_PATHS || |b| > MAX_DECLARED_SCOPE_PATHS || |c| > MAX_DECLARED_SCOPE_PATHS { return None; }
    return Some(DeclaredScopes(a, b, c));
  }

  /** What the conflict check sees: only topmost positive scopes. */
  ghost predicate TopConflict(expected: seq<string>, forbidden: seq<string>) {
    exists s :: Topmost(s, expected) && Covered(s, forbidden)
  }

  lemma {:induction false} TopmostAbove(s: string, values: seq<string>) returns (t: string)
    requires s in values
    ensures Topmost(t, values) && Under(s, t)
    decreases |s|
  {
    if Topmost(s, values) {
      t := s;
    } else {
      var u :| u in values && Under(s, u) && u != s;
      t := TopmostAbove(u, values);
      UnderIsTransitive(s, u, t);
    }
  }

  /** A positive scope in a forbidden one, together with every positive scope above it. */
  predicate ForbiddenThroughout(s: string, expected: seq<string>, forbidden: seq<string>) {
    && s in expected && Covered(s, forbidden)
    && forall t :: t in expected && Under(s, t) ==> Covered(t, forbidden)
  }

  /**
    A declared conflict is refused exactly when some conflicting positive scope has no permitted positive
    scope above it.
   */
  lemma ConflictsSeen(expected: seq<string>, forbidden: seq<string>)
    ensures TopConflict(expected, forbidden) <==> exists s :: ForbiddenThroughout(s, expected, forbidden)
    ensures TopConflict(expected, forbidden) ==> Conflict(expected, forbidden)
    ensures Antichain(expected) ==> (TopConflict(expected, forbidden) <==> Conflict(expected, forbidden))
  {
    if TopConflict(expected, forbidden) {
      var s :| Topmost(s, expected) && Covered(s, forbidden);
      assert ForbiddenThroughout(s, expected, forbidden);
    }
    if exists s :: ForbiddenThroughout(s, expected, forbidden) {
      var s :| ForbiddenThroughout(s, expected, forbidden);
      var t := TopmostAbove(s, expected);
      assert Topmost(t, expected) && Covered(t, forbidden);
    }
    if Antichain(expected) && Conflict(expected, forbidden) {
      var i :| 0 <= i < |expected| && Covered(expected[i], forbidden);
      forall t | t in expected && Under(expected[i], t) ensures t == expected[i] {
        var j :| 0 <= j < |expected| && expected[j] == t;
        assert i == j;
      }
      assert Topmost(expected[i], expected);
    }
  }

  lemma OnlyTop()
    ensures Conflict(["src", "src/a"], ["src/a"]) && !TopConflict(["src", "src/a"], ["src/a"])
    ensures Tops(["src", "src/a"]) <= {"src"} && Tops(["src/a"]) <= {"src/a"} && Tops([]) == {}
  {
    var expected := ["src", "src/a"];
    assert Under(expected[1], ["src/a"][0]);
    assert Covered(expected[1], ["src/a"]);
    assert Under("src/a", "src") by { assert "src/a"[..4] == "src" + "/"; }
    forall s | Topmost(s, expected) ensures s == "src" { assert "src" in expected; }
  }

  /** A target declared both positive and forbidden is resolved without complaint when its parent is positive too. */
  method HiddenConflict() returns (r: Option<DeclaredScopes>)
    ensures Conflict(["src", "src/a"], ["src/a"]) && r.Some?
    ensures Covered("src/a", r.value.expected) && Covered("src/a", r.value.forbidden)
  {
    OnlyTop();
    AtMostOne(Tops(["src", "src/a"]), "src");
    AtMostOne(Tops(["src/a"]), "src/a");
    r := ResolveScopes([], ["src", "src/a"], ["src/a"]);
    assert Covered("src/a", ["src", "src/a"]) by { assert Under("src/a", ["src", "src/a"][1]); }
    assert Covered("src/a", ["src/a"]) by { assert Under("src/a", ["src/a"][0]); }
  }

  lemma AtMostOne(s: set<string>, x: string)
    requires s <= {x}
    ensures |s| <= 1
  {
    if x in s { assert s == {x}; } else { assert s == {}; }
  }

  /** The review's scope test depends only on what a scope list covers, so collapsing never changes a finding. */
  lemma ReviewSeesSameScope(path: string, values: seq<string>, collapsed: seq<string>)
    requires forall p :: Covered(p, collapsed) <==> Covered(p, values)
    ensures MatchesScope(path, collapsed) <==> MatchesScope(path, values)
  {
    CoverIsMatch(path, collapsed);
    CoverIsMatch(path, values);
  }

  lemma CoverIsMatch(path: string, scopes: seq<string>)
    ensures MatchesScope(path, scopes) <==> Covered(path, scopes)
  {
  }
}

/** The cache-tree parser as it runs: a cursor over the payload, and counters shared by the recursion. */
module CacheTreeParsing {
  import opened Contracts
  import opened Bytes
  import opened Decimals
  import opened CacheTree

  function Oids(t: Node): set<seq<byte>> {
    (if t.entries.Some? then {t.entries.value.oid} else {}) + AllOids(t.children)
  }

  function AllOids(f: Forest): set<seq<byte>> {
    match f
    case NoTrees => {}
    case Trees(first, rest) => Oids(first) + AllOids(rest)
  }

  /** Trees already parsed, in front of those still to come. */
  function Prepend(ts: seq<Node>, f: Forest): Forest {
    if |ts| == 0 then f else Prepend(ts[..|ts| - 1], Trees(ts[|ts| - 1], f))
  }

  lemma {:induction false} PrependOids(ts: seq<Node>, f: Forest)
    ensures AllOids(Prepend(ts, f)) == AllOids(Prepend(ts, NoTrees)) + AllOids(f)
  {
    if |ts| > 0 {
      PrependOids(ts[..|ts| - 1], Trees(ts[|ts| - 1], f));
      PrependOids(ts[..|ts| - 1], Trees(ts[|ts| - 1], NoTrees));
    }
  }

  lemma PrependOne(ts: seq<Node>, t: Node, f: Forest)
    ensures Prepend(ts + [t], f) == Prepend(ts, Trees(t, f))
    ensures AllOids(Prepend(ts + [t], NoTrees)) == AllOids(Prepend(ts, NoTrees)) + Oids(t)
  {
    assert (ts + [t])[..|ts|] == ts;
    PrependOids(ts, Trees(t, NoTrees));
  }

  /** The subtrees of one record: what is still to be parsed continues what was parsed. */
  predicate Ahead(p: Policy, whole: Option<Step<Forest>>, parsed: seq<Node>, left: int,
                  s: seq<byte>, parent: seq<seq<byte>>, g: Progress) {
    var rest := ParseForest(p, left, s, parent, g);
    if rest.None? then whole.None?
    else whole == Some(Step(Prepend(parsed, rest.value.value), rest.value.rest, rest.value.progress))
  }

  lemma NothingParsed(p: Policy, left: int, s: seq<byte>, parent: seq<seq<byte>>, g: Progress)
    ensures Ahead(p, ParseForest(p, left, s, parent, g), [], left, s, parent, g)
  {
  }

  /** One more subtree parsed. */
  lemma OneParsed(p: Policy, whole: Option<Step<Forest>>, parsed: seq<Node>, left: int, s: seq<byte>,
                  parent: seq<seq<byte>>, g: Progress, one: Option<Step<Node>>)
    requires left > 0 && Ahead(p, whole, parsed, left, s, parent, g) && one == ParseNode(p, s, parent, false, g)
    ensures one.None? ==> whole.None?
    ensures one.Some? ==>
              Ahead(p, whole, parsed + [one.value.value], left - 1, one.value.rest, parent, one.value.progress)
  {
  }

  lemma AllParsed(p: Policy, whole: Option<Step<Forest>>, parsed: seq<Node>, left: int, s: seq<byte>, parent: seq<seq<byte>>, g: Progress)
    requires left <= 0 && Ahead(p, whole, parsed, left, s, parent, g)
    ensures whole == Some(Step(Prepend(parsed, NoTrees), s, g))
  {
  }

  /** What a call on the rest of the payload reports of a step of the specification. */
  ghost predicate Reports<T>(r: Option<Step<T>>, payload: seq<byte>, from: nat, ok: bool, t: T, next: nat, now: Progress) {
    if r.None? then !ok
    else ok && r.value.value == t && from <= next <= |payload| && payload[next..] == r.value.rest && r.value.progress == now
  }

  /** What a read of the payload reports of a cut of the specification. */
  predicate Read(r: Option<Cut<Header>>, payload: seq<byte>, from: nat, h: Option<Header>, next: nat) {
    if r.None? then h.None?
    else h == Some(r.value.value) && from < next <= |payload| && payload[next..] == r.value.rest
  }

  lemma HeaderRead(payload: seq<byte>, offset: nat, n: nat, component: seq<byte>, start: nat, r: Option<Header>, next: nat)
    requires start == offset + n + 1 <= |payload| && n == Find(payload[offset..], 0) && component == payload[offset..offset + n]
    requires Read(ParseTail(component, payload[start..]), payload, start, r, next) == true
    ensures Read(ParseHeader(payload[offset..]), payload, offset, r, next)
  {
    SplitBehind(payload, offset, n, start, 0);
  }

  lemma HeaderUnread(payload: seq<byte>, offset: nat, n: nat)
    requires offset + n == |payload| && n == Find(payload[offset..], 0)
    ensures ParseHeader(payload[offset..]) == None
  {
    SplitBehind(payload, offset, n, offset + n + 1, 0);
  }

  class Parser {
    const p: Policy
    const payload: seq<byte>
    var records: nat
    var seen: set<int>
    var treeIds: set<seq<byte>>

    constructor (p: Policy, payload: seq<byte>)
      ensures this.p == p && this.payload == payload && Now() == START && treeIds == {}
    {
      this.p, this.payload := p, payload;
      records, seen, treeIds := 0, {}, {};
    }

    function Now(): Progress
      reads this
    {
      Progress(records, seen)
    }

    /** How far behind the offset a byte first occurs. */
    method FindFrom(b: byte, offset: nat) returns (n: nat)
      requires offset <= |payload|
      ensures n == Find(payload[offset..], b) && offset + n <= |payload|
    {
      var at := offset;
      while at < |payload| && payload[at] != b
        invariant offset <= at <= |payload|
        invariant offset + Find(payload[offset..], b) == at + Find(payload[at..], b)
      {
        assert payload[at..][1..] == payload[at + 1..];
        at := at + 1;
      }
      n := at - offset;
    }

    method ParseHeaderAt(offset: nat) returns (r: Option<Header>, next: nat)
      requires offset <= |payload|
      ensures Read(ParseHeader(payload[offset..]), payload, offset, r, next) == true
    {
      var n := FindFrom(0, offset);
      r, next := None, offset;
      if offset + n < |payload| {
        var component, start := payload[offset..offset + n], offset + n + 1;
        r, next := ParseTailAt(component, start);
        HeaderRead(payload, offset, n, component, start, r, next);
      } else {
        HeaderUnread(payload, offset, n);
      }
    }

    method ParseTailAt(component: seq<byte>, offset: nat) returns (r: Option<Header>, next: nat)
      requires offset <= |payload|
      ensures Read(ParseTail(component, payload[offset..]), payload, offset, r, next)
    {
      var n := FindFrom(10, offset);
      SplitBehind(payload, offset, n, offset + n + 1, 10);
      r, next := None, offset;
      if n >= 2 && offset + n < |payload| {
        var counts := ParseCounts(payload[offset..offset + n]);
        r := if counts.None? then None else Some(Header(component, counts.value.count, counts.value.subtrees));
        next := offset + n + 1;
      }
    }

    /** One record's checks; the counters move exactly as the specification says. */
    method VisitRecord(h: Header, parent: seq<seq<byte>>, root: bool) returns (ok: bool)
      modifies this`records, this`seen
      ensures match Visit(p, h, parent, root, old(Now()))
              case None => !ok
              case Some(g) => ok && Now() == g
    {
      records := records + 1;
      if records > p.indexEntries + 1 || |parent| > 256 { return false; }
      if !HeaderOk(p, h, root) { return false; }
      if !root {
        var path := Join(parent + [h.component]);
        if !p.pathOk(path) { return false; }
        if p.fold(path) in seen { return false; }
        seen := seen + {p.fold(path)};
      }
      return true;
    }

    method ParseOidAt(count: int, cursor: nat) returns (r: Option<Option<Counted>>, next: nat)
      requires cursor <= |payload|
      modifies this`treeIds
      ensures match ParseOid(p, count, payload[cursor..])
              case None => r.None?
              case Some(cut) =>
                && r == Some(cut.value) && cursor <= next <= |payload| && payload[next..] == cut.rest
                && treeIds == old(treeIds) + if cut.value.Some? then {cut.value.value.oid} else {}
    {
      next := cursor;
      if count < 0 { return Some(None), next; }
      var end := cursor + p.oidBytes;
      if end > |payload| { return None, next; }
      var oid := payload[cursor..end];
      assert payload[cursor..][..p.oidBytes] == oid;
      if forall i :: 0 <= i < |oid| ==> oid[i] == 0 { return None, next; }
      treeIds := treeIds + {oid};
      next := end;
      assert payload[cursor..][p.oidBytes..] == payload[end..];
      return Some(Some(Counted(count, oid))), next;
    }

    /** One record with its subtrees. */
    method ParseNodeAt(offset: nat, parent: seq<seq<byte>>, root: bool) returns (ok: bool, next: nat, ghost t: Node)
      requires offset <= |payload|
      modifies this
      ensures Reports(ParseNode(p, payload[offset..], parent, root, old(Now())), payload, offset, ok, t, next, Now())
      ensures ok ==> offset < next && treeIds == old(treeIds) + Oids(t)
      decreases |payload| - offset, 0
    {
      next, t := offset, Node([], None, NoTrees);
      var h, behind := ParseHeaderAt(offset);
      if h.None? { return false, next, t; }
      var visited := VisitRecord(h.value, parent, root);
      if !visited { return false, next, t; }
      var entries, cursor := ParseOidAt(h.value.count, behind);
      if entries.None? { return false, next, t; }
      ghost var children;
      ok, next, children := ParseSubtrees(h.value.subtrees, cursor, Current(parent, h.value.component, root));
      t := Node(h.value.component, entries.value, children);
    }

    method ParseSubtree(offset: nat, parent: seq<seq<byte>>, ghost whole: Option<Step<Forest>>, ghost parsed: seq<Node>, ghost left: int)
      returns (ok: bool, next: nat, ghost t: Node)
      requires offset <= |payload| && left > 0 && Ahead(p, whole, parsed, left, payload[offset..], parent, Now())
      modifies this
      ensures !ok ==> whole.None?
      ensures ok ==>
                && offset < next <= |payload| && treeIds == old(treeIds) + Oids(t)
                && Ahead(p, whole, parsed + [t], left - 1, payload[next..], parent, Now())
      decreases |payload| - offset, 1
    {
      OneParsed(p, whole, parsed, left, payload[offset..], parent, Now(), ParseNode(p, payload[offset..], parent, false, Now()));
      ok, next, t := ParseNodeAt(offset, parent, false);
    }

    method ParseSubtrees(count: int, offset: nat, parent: seq<seq<byte>>) returns (ok: bool, next: nat, ghost f: Forest)
      requires offset <= |payload|
      modifies this
      ensures Reports(ParseForest(p, count, payload[offset..], parent, old(Now())), payload, offset, ok, f, next, Now())
      ensures ok ==> treeIds == old(treeIds) + AllOids(f)
      decreases |payload| - offset, 2
    {
      next, f := offset, NoTrees;
      ghost var parsed: seq<Node> := [];
      ghost var whole := ParseForest(p, count, payload[offset..], parent, Now());
      NothingParsed(p, count, payload[offset..], parent, Now());
      var left := count;
      while left > 0
        invariant offset <= next <= |payload|
        invariant treeIds == old(treeIds) + AllOids(Prepend(parsed, NoTrees))
        invariant Ahead(p, whole, parsed, left, payload[next..], parent, Now()) == true
        decreases left
      {
        ghost var t;
        ok, next, t := ParseSubtree(next, parent, whole, parsed, left);
        if !ok { return false, next, f; }
        PrependOne(parsed, t, NoTrees);
        parsed := parsed + [t];
        left := left - 1;
      }
      AllParsed(p, whole, parsed, left, payload[next..], parent, Now());
      f := Prepend(parsed, NoTrees);
      return true, next, f;
    }
  }

  predicate TreesExist(t: Node, isTree: seq<byte> -> bool) {
    forall oid :: oid in Oids(t) ==> isTree(oid)
  }

  /** The payload is, byte for byte, the print of this valid tree. */
  predicate IsPrintOf(p: Policy, payload: seq<byte>, t: Node) {
    payload == Print(t) && Valid(p, t)
  }

  /** The extension check: it succeeds exactly on the print of a valid tree all of whose named objects are trees. */
  method ParseCacheTree(p: Policy, payload: seq<byte>, isTree: seq<byte> -> bool) returns (ok: bool, ghost t: Node)
    ensures ok <==> exists u :: IsPrintOf(p, payload, u) && TreesExist(u, isTree)
    ensures ok ==> IsPrintOf(p, payload, t)
    ensures forall u, w :: IsPrintOf(p, payload, u) && IsPrintOf(p, payload, w) ==> u == w
  {
    var parser := new Parser(p, payload);
    var end;
    assert payload[0..] == payload;
    ok, end, t := parser.ParseNodeAt(0, [], true);
    forall u ensures ParseTree(p, payload) == Some(u) <==> IsPrintOf(p, payload, u) { ParsesExactly(p, payload, u); }
    if !ok || end != |payload| { return false, t; }
    assert ParseTree(p, payload) == Some(t);
    var rest := parser.treeIds;
    while rest != {}
      invariant rest <= parser.treeIds && forall oid :: oid in parser.treeIds - rest ==> isTree(oid)
      decreases |rest|
    {
      var oid :| oid in rest;
      if !isTree(oid) { return false, t; }
      rest := rest - {oid};
    }
    return true, t;
  }
}

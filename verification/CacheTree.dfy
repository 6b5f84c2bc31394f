/**
  The cache-tree extension of a Git index: its recursive parser, its printer, and the proof that they are
  inverse to each other on exactly the admissible trees.
 */
module CacheTree {
  import opened Contracts
  import opened Bytes
  import opened Decimals

  datatype Counted = Counted(count: nat, oid: seq<byte>)
  datatype Node = Node(component: seq<byte>, entries: Option<Counted>, children: Forest)
  datatype Forest = NoTrees | Trees(first: Node, rest: Forest)

  /** What the surrounding index fixes, and the name rules that are text policy. */
  datatype Policy = Policy(
    oidBytes: nat, indexEntries: nat,
    nameOk: seq<byte> -> bool, pathOk: seq<byte> -> bool, fold: seq<byte> -> int)

  /** Records visited and folded paths seen so far. */
  datatype Progress = Progress(records: nat, seen: set<int>)

  datatype Header = Header(component: seq<byte>, count: int, subtrees: int)
  datatype Cut<T> = Cut(value: T, rest: seq<byte>)
  datatype Step<T> = Step(value: T, rest: seq<byte>, progress: Progress)

  function Length(f: Forest): nat {
    match f
    case NoTrees => 0
    case Trees(_, rest) => 1 + Length(rest)
  }

  function Join(path: seq<seq<byte>>): seq<byte> {
    if |path| == 0 then [] else if |path| == 1 then path[0] else Join(path[..|path| - 1]) + [47] + path[|path| - 1]
  }

  predicate AllZero(s: seq<byte>) {
    forall i :: 0 <= i < |s| ==> s[i] == 0
  }

  // ---------------------------------------------------------------- printer

  function PrintHeader(h: Header): seq<byte> {
    h.component + [0] + (PrintCounts(Counts(h.count, h.subtrees)) + [10])
  }

  function HeaderOf(t: Node): Header {
    Header(t.component, if t.entries.Some? then t.entries.value.count else -1, Length(t.children))
  }

  function OidOf(t: Node): seq<byte> {
    if t.entries.Some? then t.entries.value.oid else []
  }

  function Print(t: Node): seq<byte> {
    PrintHeader(HeaderOf(t)) + (OidOf(t) + PrintAll(t.children))
  }

  function PrintAll(f: Forest): seq<byte> {
    match f
    case NoTrees => []
    case Trees(first, rest) => Print(first) + PrintAll(rest)
  }

  // ---------------------------------------------------------------- header

  datatype Counts = Counts(count: int, subtrees: int)

  function PrintCounts(c: Counts): seq<byte> {
    Decimal(c.count) + [32] + Decimal(c.subtrees)
  }

  function ParseCounts(s: seq<byte>): Option<Counts> {
    var space := Find(s, 32);
    if space >= |s| then None
    else
      match ReadDecimal(s[..space])
      case None => None
      case Some(count) =>
        match ReadDecimal(s[space + 1..])
        case None => None
        case Some(subtrees) => Some(Counts(count, subtrees))
  }

  lemma CountsSound(s: seq<byte>)
    requires ParseCounts(s).Some?
    ensures s == PrintCounts(ParseCounts(s).value)
  {
  }

  lemma CountsComplete(c: Counts)
    ensures ParseCounts(PrintCounts(c)) == Some(c)
    ensures 10 !in PrintCounts(c) && |PrintCounts(c)| >= 3
  {
    var a, b := Decimal(c.count), Decimal(c.subtrees);
    var s := PrintCounts(c);
    FindAfter(a, 32, b);
    assert s[..|a|] == a && s[|a| + 1..] == b;
    ReadsExactly(a, c.count);
    ReadsExactly(b, c.subtrees);
  }

  function ParseHeader(s: seq<byte>): (r: Option<Cut<Header>>)
    ensures r.Some? ==> |r.value.rest| < |s|
  {
    match SplitAt(s, 0)
    case None => None
    case Some((component, tail)) => ParseTail(component, tail)
  }

  /** The counts behind a component's terminator. */
  function ParseTail(component: seq<byte>, tail: seq<byte>): (r: Option<Cut<Header>>)
    ensures r.Some? ==> |r.value.rest| < |tail|
  {
    match SplitAt(tail, 10)
    case None => None
    case Some((counts, rest)) => if |counts| < 2 then None else FinishTail(component, counts, rest)
  }

  function FinishTail(component: seq<byte>, counts: seq<byte>, rest: seq<byte>): (r: Option<Cut<Header>>)
    ensures r.Some? ==> r.value.rest == rest
  {
    match ParseCounts(counts)
    case None => None
    case Some(c) => Some(Cut(Header(component, c.count, c.subtrees), rest))
  }

  lemma HeaderSound(s: seq<byte>)
    requires ParseHeader(s).Some?
    ensures s == PrintHeader(ParseHeader(s).value.value) + ParseHeader(s).value.rest
    ensures 0 !in ParseHeader(s).value.value.component
  {
    SplitSound(s, 0);
    var (component, tail) := SplitAt(s, 0).value;
    SplitSound(tail, 10);
    var (counts, rest) := SplitAt(tail, 10).value;
    CountsSound(counts);
    Associate(component + [0], counts, [10], rest);
  }

  lemma Associate(a: seq<byte>, b: seq<byte>, c: seq<byte>, d: seq<byte>)
    ensures a + (b + c + d) == a + (b + c) + d
  {
  }

  lemma HeaderComplete(h: Header, rest: seq<byte>)
    requires 0 !in h.component
    ensures ParseHeader(PrintHeader(h) + rest) == Some(Cut(h, rest))
  {
    var counts := PrintCounts(Counts(h.count, h.subtrees));
    var tail := counts + [10] + rest;
    CountsComplete(Counts(h.count, h.subtrees));
    Associate(h.component + [0], counts, [10], rest);
    assert PrintHeader(h) + rest == h.component + [0] + tail;
    SplitComplete(h.component, 0, tail);
    SplitComplete(counts, 10, rest);
  }

  // ---------------------------------------------------------------- parser

  predicate HeaderOk(p: Policy, h: Header, root: bool) {
    && (if root then h.component == [] else h.component != [] && 47 !in h.component && 92 !in h.component && p.nameOk(h.component))
    && -1 <= h.count <= p.indexEntries && 0 <= h.subtrees <= p.indexEntries
  }

  function Current(parent: seq<seq<byte>>, component: seq<byte>, root: bool): seq<seq<byte>> {
    if root then parent else parent + [component]
  }

  /** The checks of one record, and the progress behind it. */
  function Visit(p: Policy, h: Header, parent: seq<seq<byte>>, root: bool, g: Progress): Option<Progress> {
    var path := Join(Current(parent, h.component, root));
    if g.records + 1 > p.indexEntries + 1 || |parent| > 256 || !HeaderOk(p, h, root) then None
    else if root then Some(Progress(g.records + 1, g.seen))
    else if !p.pathOk(path) || p.fold(path) in g.seen then None
    else Some(Progress(g.records + 1, g.seen + {p.fold(path)}))
  }

  function ParseOid(p: Policy, count: int, s: seq<byte>): (r: Option<Cut<Option<Counted>>>)
    ensures r.Some? ==> |r.value.rest| <= |s|
  {
    if count < 0 then Some(Cut(None, s))
    else if |s| < p.oidBytes || AllZero(s[..p.oidBytes]) then None
    else Some(Cut(Some(Counted(count, s[..p.oidBytes])), s[p.oidBytes..]))
  }

  function ParseNode(p: Policy, s: seq<byte>, parent: seq<seq<byte>>, root: bool, g: Progress): (r: Option<Step<Node>>)
    ensures r.Some? ==> |r.value.rest| < |s|
    decreases |s|, 0
  {
    match ParseHeader(s)
    case None => None
    case Some(Cut(h, behind)) =>
      match Visit(p, h, parent, root, g)
      case None => None
      case Some(g1) =>
        match ParseOid(p, h.count, behind)
        case None => None
        case Some(Cut(entries, rest)) =>
          match ParseForest(p, h.subtrees, rest, Current(parent, h.component, root), g1)
          case None => None
          case Some(Step(children, rest', g2)) => Some(Step(Node(h.component, entries, children), rest', g2))
  }

  function ParseForest(p: Policy, n: int, s: seq<byte>, parent: seq<seq<byte>>, g: Progress): (r: Option<Step<Forest>>)
    ensures r.Some? ==> |r.value.rest| <= |s|
    decreases |s|, 1
  {
    if n <= 0 then Some(Step(NoTrees, s, g))
    else
      match ParseNode(p, s, parent, false, g)
      case None => None
      case Some(Step(first, rest, g1)) =>
        match ParseForest(p, n - 1, rest, parent, g1)
        case None => None
        case Some(Step(others, rest', g2)) => Some(Step(Trees(first, others), rest', g2))
  }

  // ---------------------------------------------------------------- the same checks on a tree

  predicate EntriesOk(p: Policy, t: Node) {
    t.entries.Some? ==> |t.entries.value.oid| == p.oidBytes && !AllZero(t.entries.value.oid)
  }

  function Admit(p: Policy, t: Node, parent: seq<seq<byte>>, root: bool, g: Progress): Option<Progress> {
    match Visit(p, HeaderOf(t), parent, root, g)
    case None => None
    case Some(g1) =>
      if 0 in t.component || !EntriesOk(p, t) then None
      else AdmitAll(p, t.children, Current(parent, t.component, root), g1)
  }

  function AdmitAll(p: Policy, f: Forest, parent: seq<seq<byte>>, g: Progress): Option<Progress> {
    match f
    case NoTrees => Some(g)
    case Trees(first, rest) =>
      match Admit(p, first, parent, false, g)
      case None => None
      case Some(g1) => AdmitAll(p, rest, parent, g1)
  }

  /** The bytes are the print of an admitted tree and the unread rest. */
  predicate ExplainsNode(p: Policy, s: seq<byte>, parent: seq<seq<byte>>, root: bool, g: Progress, r: Step<Node>) {
    s == Print(r.value) + r.rest && Admit(p, r.value, parent, root, g) == Some(r.progress)
  }

  predicate Explains(p: Policy, s: seq<byte>, n: int, parent: seq<seq<byte>>, g: Progress, r: Step<Forest>) {
    s == PrintAll(r.value) + r.rest && Length(r.value) == n && AdmitAll(p, r.value, parent, g) == Some(r.progress)
  }

  /** The parts an accepted record was read from. */
  lemma NodeParts(p: Policy, s: seq<byte>, parent: seq<seq<byte>>, root: bool, g: Progress, r: Step<Node>)
    returns (h: Header, behind: seq<byte>, g1: Progress, entries: Option<Counted>, rest: seq<byte>, f: Step<Forest>)
    requires ParseNode(p, s, parent, root, g) == Some(r)
    ensures ParseHeader(s) == Some(Cut(h, behind)) && Visit(p, h, parent, root, g) == Some(g1)
    ensures ParseOid(p, h.count, behind) == Some(Cut(entries, rest))
    ensures ParseForest(p, h.subtrees, rest, Current(parent, h.component, root), g1) == Some(f) && |rest| < |s|
    ensures r == Step(Node(h.component, entries, f.value), f.rest, f.progress)
  {
    h, behind := ParseHeader(s).value.value, ParseHeader(s).value.rest;
    g1 := Visit(p, h, parent, root, g).value;
    entries, rest := ParseOid(p, h.count, behind).value.value, ParseOid(p, h.count, behind).value.rest;
    f := ParseForest(p, h.subtrees, rest, Current(parent, h.component, root), g1).value;
  }

  /** The parts make up an explained record. */
  lemma NodeExplained(p: Policy, s: seq<byte>, parent: seq<seq<byte>>, root: bool, g: Progress, h: Header, behind: seq<byte>,
                      g1: Progress, entries: Option<Counted>, rest: seq<byte>, f: Step<Forest>)
    requires s == PrintHeader(h) + behind && 0 !in h.component && Visit(p, h, parent, root, g) == Some(g1)
    requires ParseOid(p, h.count, behind) == Some(Cut(entries, rest))
    requires Explains(p, rest, h.subtrees, Current(parent, h.component, root), g1, f)
    ensures ExplainsNode(p, s, parent, root, g, Step(Node(h.component, entries, f.value), f.rest, f.progress))
  {
  }

  /** Whatever the parser accepts is the print of an admitted tree, up to the unread rest. */
  lemma {:induction false} NodeSound(p: Policy, s: seq<byte>, parent: seq<seq<byte>>, root: bool, g: Progress, r: Step<Node>)
    requires ParseNode(p, s, parent, root, g) == Some(r)
    ensures ExplainsNode(p, s, parent, root, g, r)
    decreases |s|, 0
  {
    var h, behind, g1, entries, rest, f := NodeParts(p, s, parent, root, g, r);
    HeaderSound(s);
    assert h.subtrees >= 0;
    ForestSound(p, h.subtrees, rest, Current(parent, h.component, root), g1, f);
    NodeExplained(p, s, parent, root, g, h, behind, g1, entries, rest, f);
  }

  lemma Associate3(a: seq<byte>, b: seq<byte>, c: seq<byte>)
    ensures a + (b + c) == a + b + c
  {
  }

  lemma Associate4(a: seq<byte>, b: seq<byte>, c: seq<byte>, d: seq<byte>)
    ensures a + (b + (c + d)) == a + (b + c) + d
  {
  }

  lemma ExplainsMore(p: Policy, s: seq<byte>, n: int, parent: seq<seq<byte>>, g: Progress, a: Step<Node>, b: Step<Forest>)
    requires ExplainsNode(p, s, parent, false, g, a) && Explains(p, a.rest, n, parent, a.progress, b)
    ensures Explains(p, s, n + 1, parent, g, Step(Trees(a.value, b.value), b.rest, b.progress))
  {
  }

  lemma {:induction false} ForestSound(p: Policy, n: int, s: seq<byte>, parent: seq<seq<byte>>, g: Progress, r: Step<Forest>)
    requires n >= 0 && ParseForest(p, n, s, parent, g) == Some(r)
    ensures Explains(p, s, n, parent, g, r)
    decreases |s|, 1
  {
    if n > 0 {
      var a := ParseNode(p, s, parent, false, g).value;
      var m, rest, g1 := n - 1, a.rest, a.progress;
      assert |rest| < |s|;
      var b := ParseForest(p, m, rest, parent, g1).value;
      NodeSound(p, s, parent, false, g, a);
      ForestSound(p, m, rest, parent, g1, b);
      ExplainsMore(p, s, m, parent, g, a, b);
    } else {
      assert PrintAll(NoTrees) + s == s;
    }
  }

  /** The parser inverts the printer on every admitted tree, whatever follows. */
  lemma {:induction false} NodeComplete(p: Policy, t: Node, rest: seq<byte>, parent: seq<seq<byte>>, root: bool, g: Progress)
    requires Admit(p, t, parent, root, g).Some?
    ensures ParseNode(p, Print(t) + rest, parent, root, g) == Some(Step(t, rest, Admit(p, t, parent, root, g).value))
    decreases t, 0
  {
    var h, current := HeaderOf(t), Current(parent, t.component, root);
    var behind := OidOf(t) + (PrintAll(t.children) + rest);
    Associate4(PrintHeader(h), OidOf(t), PrintAll(t.children), rest);
    HeaderComplete(h, behind);
    OidComplete(p, t, PrintAll(t.children) + rest);
    ForestComplete(p, t.children, rest, current, Visit(p, h, parent, root, g).value);
  }

  lemma OidComplete(p: Policy, t: Node, rest: seq<byte>)
    requires EntriesOk(p, t)
    ensures ParseOid(p, HeaderOf(t).count, OidOf(t) + rest) == Some(Cut(t.entries, rest))
  {
    if t.entries.Some? {
      var oid := t.entries.value.oid;
      assert (oid + rest)[..p.oidBytes] == oid && (oid + rest)[p.oidBytes..] == rest;
    } else {
      assert OidOf(t) + rest == rest;
    }
  }

  lemma ForestStep(p: Policy, n: int, fewer: int, s: seq<byte>, parent: seq<seq<byte>>, g: Progress, one: Step<Node>, others: Step<Forest>)
    requires n == fewer + 1 && fewer >= 0 && ParseNode(p, s, parent, false, g) == Some(one)
    requires ParseForest(p, fewer, one.rest, parent, one.progress) == Some(others)
    ensures ParseForest(p, n, s, parent, g) == Some(Step(Trees(one.value, others.value), others.rest, others.progress))
  {
  }

  lemma {:induction false} ForestComplete(p: Policy, f: Forest, rest: seq<byte>, parent: seq<seq<byte>>, g: Progress)
    requires AdmitAll(p, f, parent, g).Some?
    ensures ParseForest(p, Length(f), PrintAll(f) + rest, parent, g) == Some(Step(f, rest, AdmitAll(p, f, parent, g).value))
    decreases f, 1
  {
    match f
    case NoTrees => assert PrintAll(f) + rest == rest;
    case Trees(first, others) =>
      var s, tail, g1 := PrintAll(f) + rest, PrintAll(others) + rest, Admit(p, first, parent, false, g).value;
      assert s == Print(first) + tail by { Associate3(Print(first), PrintAll(others), rest); }
      NodeComplete(p, first, tail, parent, false, g);
      ForestComplete(p, others, rest, parent, g1);
      ForestStep(p, Length(f), Length(others), s, parent, g, Step(first, tail, g1), Step(others, rest, AdmitAll(p, others, parent, g1).value));
  }

  // ---------------------------------------------------------------- admissible trees

  /** Every record of the tree is admissible on its own. */
  predicate WellFormed(p: Policy, t: Node, parent: seq<seq<byte>>, root: bool) {
    && |parent| <= 256 && 0 !in t.component && HeaderOk(p, HeaderOf(t), root) && EntriesOk(p, t)
    && (!root ==> p.pathOk(Join(parent + [t.component])))
    && AllWellFormed(p, t.children, Current(parent, t.component, root))
  }

  predicate AllWellFormed(p: Policy, f: Forest, parent: seq<seq<byte>>) {
    match f
    case NoTrees => true
    case Trees(first, rest) => WellFormed(p, first, parent, false) && AllWellFormed(p, rest, parent)
  }

  function Records(t: Node): nat {
    1 + AllRecords(t.children)
  }

  function AllRecords(f: Forest): nat {
    match f
    case NoTrees => 0
    case Trees(first, rest) => Records(first) + AllRecords(rest)
  }

  /** The path a record adds to the folded paths. */
  function OwnFold(p: Policy, component: seq<byte>, parent: seq<seq<byte>>, root: bool): seq<int> {
    if root then [] else [p.fold(Join(parent + [component]))]
  }

  /** The folded paths below the root, in record order. */
  function Folds(p: Policy, t: Node, parent: seq<seq<byte>>, root: bool): seq<int> {
    OwnFold(p, t.component, parent, root) + AllFolds(p, t.children, Current(parent, t.component, root))
  }

  function AllFolds(p: Policy, f: Forest, parent: seq<seq<byte>>): seq<int> {
    match f
    case NoTrees => []
    case Trees(first, rest) => Folds(p, first, parent, false) + AllFolds(p, rest, parent)
  }

  predicate Fresh(folds: seq<int>, seen: set<int>) {
    && (forall i, j :: 0 <= i < j < |folds| ==> folds[i] != folds[j])
    && (forall i :: 0 <= i < |folds| ==> folds[i] !in seen)
  }

  function After(folds: seq<int>, records: nat, g: Progress): Progress {
    Progress(g.records + records, g.seen + set i | 0 <= i < |folds| :: folds[i])
  }

  predicate Fits(p: Policy, folds: seq<int>, records: nat, g: Progress) {
    g.records + records <= p.indexEntries + 1 && Fresh(folds, g.seen)
  }

  lemma FreshSplit(a: seq<int>, b: seq<int>, seen: set<int>)
    ensures Fresh(a + b, seen) <==> Fresh(a, seen) && Fresh(b, seen + set i | 0 <= i < |a| :: a[i])
  {
    var both := seen + set i | 0 <= i < |a| :: a[i];
    var ab := a + b;
    if Fresh(ab, seen) {
      forall i, j | 0 <= i < j < |a| ensures a[i] != a[j] { assert ab[i] != ab[j]; }
      forall i | 0 <= i < |a| ensures a[i] !in seen { assert ab[i] !in seen; }
      forall i, j | 0 <= i < j < |b| ensures b[i] != b[j] { assert ab[|a| + i] != ab[|a| + j]; }
      forall i | 0 <= i < |b| ensures b[i] !in both {
        assert ab[|a| + i] !in seen;
        forall k | 0 <= k < |a| ensures a[k] != b[i] { assert ab[k] != ab[|a| + i]; }
      }
    }
    if Fresh(a, seen) && Fresh(b, both) {
      forall i | 0 <= i < |ab| ensures ab[i] !in seen { }
      forall i, j | 0 <= i < j < |ab| ensures ab[i] != ab[j] {
        if i < |a| <= j { assert a[i] in both && b[j - |a|] !in both; }
      }
    }
  }

  lemma FitsSplit(p: Policy, a: seq<int>, m: nat, b: seq<int>, n: nat, g: Progress)
    ensures Fits(p, a + b, m + n, g) <==> Fits(p, a, m, g) && Fits(p, b, n, After(a, m, g))
    ensures After(a + b, m + n, g) == After(b, n, After(a, m, g))
  {
    FreshSplit(a, b, g.seen);
    var ab := a + b;
    forall x ensures x in After(ab, m + n, g).seen <==> x in After(b, n, After(a, m, g)).seen {
      if x in b { var i :| 0 <= i < |b| && b[i] == x; assert ab[|a| + i] == x; }
      if x in a { var i :| 0 <= i < |a| && a[i] == x; assert ab[i] == x; }
    }
  }

  /** The checks of one record, as a statement about its own contribution. */
  lemma VisitExact(p: Policy, h: Header, parent: seq<seq<byte>>, root: bool, g: Progress)
    ensures var own := OwnFold(p, h.component, parent, root);
      && (Visit(p, h, parent, root, g).Some? <==>
            Fits(p, own, 1, g) && |parent| <= 256 && HeaderOk(p, h, root)
            && (!root ==> p.pathOk(Join(parent + [h.component]))))
      && (Visit(p, h, parent, root, g).Some? ==> Visit(p, h, parent, root, g).value == After(own, 1, g))
  {
    var own := OwnFold(p, h.component, parent, root);
    assert After(own, 1, g).seen == g.seen + if root then {} else {own[0]};
  }

  /** The checks admit a tree exactly when it is well formed, small enough, and its folded paths are fresh. */
  lemma {:induction false} AdmitExact(p: Policy, t: Node, parent: seq<seq<byte>>, root: bool, g: Progress)
    ensures var folds, records := Folds(p, t, parent, root), Records(t);
      && (Admit(p, t, parent, root, g).Some? <==> WellFormed(p, t, parent, root) && Fits(p, folds, records, g))
      && (Admit(p, t, parent, root, g).Some? ==> Admit(p, t, parent, root, g).value == After(folds, records, g))
    decreases t, 0
  {
    var h, current, own := HeaderOf(t), Current(parent, t.component, root), OwnFold(p, t.component, parent, root);
    VisitExact(p, h, parent, root, g);
    FitsSplit(p, own, 1, AllFolds(p, t.children, current), AllRecords(t.children), g);
    if Visit(p, h, parent, root, g).Some? {
      AdmitAllExact(p, t.children, current, After(own, 1, g));
    }
  }

  lemma {:induction false} AdmitAllExact(p: Policy, f: Forest, parent: seq<seq<byte>>, g: Progress)
    requires g.records <= p.indexEntries + 1
    ensures var folds, records := AllFolds(p, f, parent), AllRecords(f);
      && (AdmitAll(p, f, parent, g).Some? <==> AllWellFormed(p, f, parent) && Fits(p, folds, records, g))
      && (AdmitAll(p, f, parent, g).Some? ==> AdmitAll(p, f, parent, g).value == After(folds, records, g))
    decreases f, 1
  {
    match f
    case NoTrees => assert After([], 0, g) == g;
    case Trees(first, rest) =>
      var folds, records := Folds(p, first, parent, false), Records(first);
      AdmitExact(p, first, parent, false, g);
      FitsSplit(p, folds, records, AllFolds(p, rest, parent), AllRecords(rest), g);
      if Admit(p, first, parent, false, g).Some? { AdmitAllExact(p, rest, parent, After(folds, records, g)); }
  }

  /** A tree the extension may hold: the root and everything below it. */
  predicate Valid(p: Policy, t: Node) {
    && WellFormed(p, t, [], true) && Records(t) <= p.indexEntries + 1
    && Fresh(Folds(p, t, [], true), {})
  }

  const START := Progress(0, {})

  function ParseTree(p: Policy, payload: seq<byte>): Option<Node> {
    match ParseNode(p, payload, [], true, START)
    case None => None
    case Some(Step(t, rest, _)) => if |rest| == 0 then Some(t) else None
  }

  /** A payload parses as a tree exactly when it is, byte for byte, the print of that tree and the tree is valid. */
  lemma ParsesExactly(p: Policy, payload: seq<byte>, t: Node)
    ensures ParseTree(p, payload) == Some(t) <==> payload == Print(t) && Valid(p, t)
  {
    AdmitExact(p, t, [], true, START);
    if ParseTree(p, payload) == Some(t) {
      NodeSound(p, payload, [], true, START, ParseNode(p, payload, [], true, START).value);
      assert Print(t) + [] == Print(t);
    }
    if payload == Print(t) && Valid(p, t) {
      NodeComplete(p, t, [], [], true, START);
      assert Print(t) + [] == Print(t);
    }
  }
}

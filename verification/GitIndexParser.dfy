/** The index check as it runs: an offset over the buffer, sets of seen paths, and the loop over extensions. */
module GitIndexParsing {
  import opened Contracts
  import opened Bytes
  import opened Decimals
  import opened GitIndex
  import Tree = CacheTree
  import Parsing = CacheTreeParsing

  datatype Listed = Listed(mode: int, oid: seq<byte>, path: seq<byte>)

  /** The logical listing an index stands for. */
  function Logical(es: seq<Entry>): (ls: seq<Listed>)
    ensures |ls| == |es| && forall i :: 0 <= i < |es| ==> ls[i] == Listed(es[i].mode, es[i].oid, es[i].path)
  {
    seq(|es|, i requires 0 <= i < |es| => Listed(es[i].mode, es[i].oid, es[i].path))
  }

  /** What an accepted index stands for. */
  ghost predicate Accepts(f: Format, payload: seq<byte>, listing: seq<Listed>, isTree: seq<byte> -> bool, x: Index) {
    && Valid(f, x) && payload == Print(f, x) && Logical(x.entries) == listing
    && (x.tree.Some? ==> Parsing.TreesExist(x.tree.value, isTree))
  }

  lemma SlicesOf(payload: seq<byte>, offset: nat, limit: nat, a: nat, b: nat)
    requires offset <= limit <= |payload| && a <= b && offset + b <= limit
    ensures payload[offset..limit][a..b] == payload[offset + a..offset + b]
    ensures payload[offset..limit][b..] == payload[offset + b..limit]
  {
    var s := payload[offset..limit];
    assert |s[a..b]| == |payload[offset + a..offset + b]|;
    forall k | 0 <= k < b - a ensures s[a..b][k] == payload[offset + a..offset + b][k] { }
  }

  /** The fixed part of the entry at an offset. */
  method ReadFixed(f: Format, payload: seq<byte>, offset: nat, limit: nat) returns (r: Option<(Entry, nat)>)
    requires offset <= limit <= |payload|
    ensures r == ParseFixed(f, payload[offset..limit])
  {
    var n := f.oidBytes;
    if offset + Fixed(f) > limit { return None; }
    SlicesOf(payload, offset, limit, 0, 24);
    SlicesOf(payload, offset, limit, 24, 28);
    SlicesOf(payload, offset, limit, 28, 40);
    SlicesOf(payload, offset, limit, 40, 40 + n);
    SlicesOf(payload, offset, limit, 40 + n, 42 + n);
    var mode := Value(payload[offset + 24..offset + 28]);
    var oid := payload[offset + 40..offset + 40 + n];
    var flags := Value(payload[offset + 40 + n..offset + 42 + n]);
    if flags / 4096 % 8 != 0 { return None; }
    r := Some((Entry(payload[offset..offset + 24], mode, payload[offset + 28..offset + 40], oid, flags >= 32768, []), flags % 4096));
  }

  method FindIn(payload: seq<byte>, b: byte, from: nat, limit: nat) returns (n: nat)
    requires from <= limit <= |payload|
    ensures n == from + Find(payload[from..limit], b)
  {
    n := from;
    while n < limit && payload[n] != b
      invariant from <= n <= limit
      invariant from + Find(payload[from..limit], b) == n + Find(payload[n..limit], b)
    {
      assert payload[n..limit][1..] == payload[n + 1..limit];
      n := n + 1;
    }
  }

  /** What a read at an offset reports of a cut of the specification. */
  predicate Reports(r: Option<Cut<Entry>>, payload: seq<byte>, offset: nat, limit: nat, e: Option<Entry>, next: nat)
    requires limit <= |payload|
  {
    if r.None? then e.None?
    else e == Some(r.value.value) && offset < next <= limit && payload[next..limit] == r.value.rest
  }

  /** The entry at an offset, from the position of its terminator. */
  lemma EntryAt(f: Format, payload: seq<byte>, offset: nat, limit: nat, header: Entry, declared: nat, nul: nat, length: nat, seen: set<int>)
    requires offset + Fixed(f) <= nul <= limit <= |payload| && length == nul - offset - Fixed(f)
    requires ParseFixed(f, payload[offset..limit]) == Some((header, declared))
    requires length == Find(payload[offset + Fixed(f)..limit], 0)
    ensures ParseEntry(f, payload[offset..limit], seen) ==
      if nul >= limit then None else FinishEntry(f, payload[offset..limit], header, declared, length, seen)
  {
  }

  /** One entry at an offset, and the offset behind its padding. */
  method ReadEntry(f: Format, payload: seq<byte>, offset: nat, limit: nat, seen: set<int>) returns (r: Option<Entry>, next: nat)
    requires offset <= limit <= |payload|
    ensures Reports(ParseEntry(f, payload[offset..limit], seen), payload, offset, limit, r, next)
  {
    r, next := None, offset;
    var fixed := ReadFixed(f, payload, offset, limit);
    if fixed.None? { return; }
    var (header, declared) := fixed.value;
    var nul := FindIn(payload, 0, offset + Fixed(f), limit);
    var length := nul - offset - Fixed(f);
    EntryAt(f, payload, offset, limit, header, declared, nul, length, seen);
    if nul >= limit { return; }
    r, next := CheckEntry(f, payload, offset, limit, header, declared, nul, length, seen);
  }

  /** The checks of an entry whose terminator was found. */
  method CheckEntry(f: Format, payload: seq<byte>, offset: nat, limit: nat, header: Entry, declared: nat, nul: nat, length: nat, seen: set<int>)
    returns (r: Option<Entry>, next: nat)
    requires offset + Fixed(f) <= nul < limit <= |payload| && length == nul - offset - Fixed(f)
    ensures Reports(FinishEntry(f, payload[offset..limit], header, declared, length, seen),
                    payload, offset, limit, r, next)
  {
    var path := payload[offset + Fixed(f)..nul];
    var e := header.(path := path);
    SlicesOf(payload, offset, limit, Fixed(f), Fixed(f) + length);
    r, next := None, offset;
    if (declared < 4095 && declared != length) || (declared == 4095 && length < 4095) || !EntryOk(f, e) || f.fold(path) in seen {
      return;
    }
    next := offset + Padded(f, length);
    if next > limit { return; }
    SlicesOf(payload, offset, limit, Fixed(f) + length, Padded(f, length));
    if !Tree.AllZero(payload[nul..next]) { return; }
    r := Some(e);
  }

  /** What is still to be read continues what was read. */
  predicate Ahead(f: Format, whole: Option<Cut<seq<Entry>>>, count: nat, s: seq<byte>, parsed: seq<Entry>) {
    whole == ParseEntries(f, count, s, parsed)
  }

  lemma AheadStarts(f: Format, count: nat, s: seq<byte>)
    ensures Ahead(f, ParseEntries(f, count, s, []), count, s, [])
  {
  }

  lemma AheadOne(f: Format, whole: Option<Cut<seq<Entry>>>, count: nat, s: seq<byte>, parsed: seq<Entry>, one: Option<Cut<Entry>>)
    requires |parsed| < count && Ahead(f, whole, count, s, parsed) && one == ParseEntry(f, s, Folds(f, parsed))
    ensures if one.None? then whole == None else Ahead(f, whole, count, one.value.rest, parsed + [one.value.value])
  {
  }

  lemma AheadEnds(f: Format, whole: Option<Cut<seq<Entry>>>, count: nat, s: seq<byte>, parsed: seq<Entry>)
    requires |parsed| >= count && Ahead(f, whole, count, s, parsed)
    ensures whole == Some(Cut(parsed, s))
  {
  }

  /** Reads one entry behind those already parsed; `more` and `seen` grow with it. */
  method ReadNext(f: Format, payload: seq<byte>, offset: nat, limit: nat, paths: set<int>, parsed: seq<Entry>,
                  ghost whole: Option<Cut<seq<Entry>>>, count: nat)
    returns (ok: bool, next: nat, more: seq<Entry>, seen: set<int>)
    requires offset <= limit <= |payload| && |parsed| < count && paths == Folds(f, parsed)
    requires Ahead(f, whole, count, payload[offset..limit], parsed)
    ensures !ok ==> whole == None
    ensures ok ==>
      && offset < next <= limit && |more| == |parsed| + 1 && seen == Folds(f, more)
      && Ahead(f, whole, count, payload[next..limit], more)
  {
    more, seen := parsed, paths;
    AheadOne(f, whole, count, payload[offset..limit], parsed, ParseEntry(f, payload[offset..limit], Folds(f, parsed)));
    var entry;
    entry, next := ReadEntry(f, payload, offset, limit, paths);
    ok := entry.Some?;
    if ok {
      FoldsGrow(f, parsed, entry.value);
      more := parsed + [entry.value];
      seen := paths + {f.fold(entry.value.path)};
    }
  }

  /** The entry list: the offset and the parsed entries move together. */
  method ReadEntries(f: Format, payload: seq<byte>, count: nat, limit: nat) returns (r: Option<seq<Entry>>, offset: nat)
    requires 12 <= limit <= |payload|
    ensures 12 <= offset <= limit
    ensures var whole := ParseEntries(f, count, payload[12..limit], []);
      if r.None? then whole == None else whole == Some(Cut(r.value, payload[offset..limit]))
  {
    offset := 12;
    var parsed: seq<Entry>, paths: set<int> := [], {};
    ghost var whole := ParseEntries(f, count, payload[12..limit], []);
    AheadStarts(f, count, payload[12..limit]);
    for n := 0 to count
      invariant 12 <= offset <= limit && |parsed| == n && paths == Folds(f, parsed)
      invariant Ahead(f, whole, count, payload[offset..limit], parsed) == true
    {
      var ok, next, more, seen := ReadNext(f, payload, offset, limit, paths, parsed, whole, count);
      if !ok { return None, offset; }
      offset, parsed, paths := next, more, seen;
    }
    AheadEnds(f, whole, count, payload[offset..limit], parsed);
    r := Some(parsed);
  }

  lemma FoldsGrow(f: Format, es: seq<Entry>, e: Entry)
    ensures Folds(f, es + [e]) == Folds(f, es) + {f.fold(e.path)}
  {
    var more := es + [e];
    forall x | x in Folds(f, es) + {f.fold(e.path)} ensures x in Folds(f, more) {
      if x in Folds(f, es) {
        var i :| 0 <= i < |es| && f.fold(es[i].path) == x;
        assert more[i] == es[i];
      } else {
        assert more[|es|] == e;
      }
    }
  }

  /** The first extension, from its header. */
  lemma ExtensionAt(f: Format, count: nat, payload: seq<byte>, start: nat, limit: nat)
    requires start + 8 <= limit <= |payload|
    ensures var end := start + 8 + Value(payload[start + 4..start + 8]);
      ParseExtension(f, count, payload[start..limit]) ==
        if end != limit || payload[start..start + 4] != TREE then None
        else ParseInner(f, count, payload[start + 8..limit])
  {
    SlicesOf(payload, start, limit, 0, 4);
    SlicesOf(payload, start, limit, 4, 8);
    SlicesOf(payload, start, limit, 8, 8);
    ExtensionSplit(f, count, payload[start..limit], payload[start..start + 4],
                   Value(payload[start + 4..start + 8]), payload[start + 8..limit]);
  }

  /** The first extension's tree; `ok` also says that all its objects are trees. */
  method ReadTree(f: Format, payload: seq<byte>, from: nat, end: nat, count: nat, isTree: seq<byte> -> bool)
    returns (ok: bool, ghost t: Tree.Node)
    requires from <= end <= |payload|
    ensures ok ==> Tree.ParseTree(TreePolicy(f, count), payload[from..end]) == Some(t) && Parsing.TreesExist(t, isTree)
    ensures !ok ==> forall u :: Tree.ParseTree(TreePolicy(f, count), payload[from..end]) == Some(u) ==> !Parsing.TreesExist(u, isTree)
  {
    ok, t := Parsing.ParseCacheTree(TreePolicy(f, count), payload[from..end], isTree);
    forall u ensures Tree.ParseTree(TreePolicy(f, count), payload[from..end]) == Some(u) <==>
                       Parsing.IsPrintOf(TreePolicy(f, count), payload[from..end], u)
    {
      Tree.ParsesExactly(TreePolicy(f, count), payload[from..end], u);
    }
  }

  ghost predicate NoExtension(f: Format, s: seq<byte>, count: nat, isTree: seq<byte> -> bool) {
    forall t :: ParseExtension(f, count, s) == Some(t) ==> t.Some? && !Parsing.TreesExist(t.value, isTree)
  }

  /** The loop over extensions: a second round can only fail. */
  method ReadExtensions(f: Format, payload: seq<byte>, start: nat, limit: nat, count: nat, isTree: seq<byte> -> bool)
    returns (ok: bool, ghost tree: Option<Tree.Node>)
    requires start <= limit <= |payload|
    ensures ok ==> ParseExtension(f, count, payload[start..limit]) == Some(tree) && (tree.Some? ==> Parsing.TreesExist(tree.value, isTree))
    ensures !ok ==> NoExtension(f, payload[start..limit], count, isTree)
  {
    var offset, seenTree := start, false;
    tree := None;
    while offset < limit
      invariant start <= offset <= limit
      invariant !seenTree ==> tree == None && offset == start
      invariant seenTree ==>
        && tree.Some? && Parsing.TreesExist(tree.value, isTree) && start < offset
        && ParseExtension(f, count, payload[start..limit]) == (if offset == limit then Some(tree) else None)
      decreases limit - offset
    {
      if offset + 8 > limit { return false, tree; }
      var signature := payload[offset..offset + 4];
      var size := Value(payload[offset + 4..offset + 8]);
      var end := offset + 8 + size;
      ExtensionAt(f, count, payload, start, limit);
      if end > limit || seenTree || signature != TREE { return false, tree; }
      seenTree := true;
      ghost var node;
      ok, node := ReadTree(f, payload, offset + 8, end, count, isTree);
      if !ok { return false, tree; }
      tree := Some(node);
      offset := end;
    }
    ok := true;
  }

  /** The parsed index stands for what Git lists, and its cache tree for trees Git has. */
  predicate Agrees(x: Index, listing: seq<Listed>, isTree: seq<byte> -> bool) {
    Logical(x.entries) == listing && (x.tree.Some? ==> Parsing.TreesExist(x.tree.value, isTree))
  }

  /** The check succeeded on exactly this parse. */
  predicate Passed(parse: Option<Index>, ok: bool, x: Index, listing: seq<Listed>, isTree: seq<byte> -> bool) {
    && (ok <==> parse.Some? && Agrees(parse.value, listing, isTree))
    && (ok ==> parse == Some(x))
  }

  /** The entries and the extensions of a body, and the comparison with Git's own listing. */
  method ReadSections(f: Format, payload: seq<byte>, count: nat, limit: nat, listing: seq<Listed>, isTree: seq<byte> -> bool)
    returns (ok: bool, ghost x: Index)
    requires 12 <= limit <= |payload|
    ensures Passed(ParseSections(f, count, payload[12..limit]), ok, x, listing, isTree)
  {
    x := Index([], None);
    var entries, offset := ReadEntries(f, payload, count, limit);
    if entries.None? { return false, x; }
    ghost var tree;
    ok, tree := ReadExtensions(f, payload, offset, limit, count, isTree);
    if !ok || Logical(entries.value) != listing { return false, x; }
    x := Index(entries.value, tree);
  }

  method ReadBody(f: Format, payload: seq<byte>, limit: nat, listing: seq<Listed>, isTree: seq<byte> -> bool)
    returns (ok: bool, ghost x: Index)
    requires 12 <= limit <= |payload|
    ensures Passed(ParseBody(f, payload[..limit]), ok, x, listing, isTree)
  {
    x := Index([], None);
    HeadOf(payload, limit);
    if payload[..4] != SIGNATURE { return false, x; }
    var version, count := Value(payload[4..8]), Value(payload[8..12]);
    if version != 2 || count > f.maxEntries { return false, x; }
    ok, x := ReadSections(f, payload, count, limit, listing, isTree);
  }

  lemma HeadOf(payload: seq<byte>, limit: nat)
    requires 12 <= limit <= |payload|
    ensures payload[..limit][..4] == payload[..4] && payload[..limit][4..8] == payload[4..8]
    ensures payload[..limit][8..12] == payload[8..12] && payload[..limit][12..] == payload[12..limit]
  {
  }

  /**
    The index check: it succeeds exactly when the buffer is, byte for byte, the print of a valid index whose
    logical entries are the ones Git lists and whose cache-tree objects are trees.
   */
  method ValidateGitIndex(f: Format, payload: seq<byte>, listing: seq<Listed>, isTree: seq<byte> -> bool)
    returns (ok: bool, ghost x: Index)
    requires Sane(f)
    ensures ok <==> exists y :: Accepts(f, payload, listing, isTree, y)
    ensures forall y :: Accepts(f, payload, listing, isTree, y) ==> y == x
  {
    forall y ensures Accepts(f, payload, listing, isTree, y) <==> Parse(f, payload) == Some(y) && Agrees(y, listing, isTree) {
      ParsesExactly(f, payload, y);
    }
    x := Index([], None);
    if |payload| < 12 + f.oidBytes { return false, x; }
    var limit := |payload| - f.oidBytes;
    if payload[limit..] != f.hash(payload[..limit]) { return false, x; }
    ok, x := ReadBody(f, payload, limit, listing, isTree);
  }
}

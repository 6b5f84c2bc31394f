/**
  Git index version 2 as bytes: entries with eight-byte padding and declared name lengths, at most one
  cache-tree extension, and a checksum trailer (gitformat-index).  The parser and the printer are inverse
  to each other, so an accepted buffer is tiled exactly by what it was parsed into.
 */
module GitIndex {
  import opened Contracts
  import opened Bytes
  import opened Decimals
  import Tree = CacheTree

  /** `stat1`, `stat2` and `assumeValid` are carried along but never interpreted. */
  datatype Entry = Entry(stat1: seq<byte>, mode: int, stat2: seq<byte>, oid: seq<byte>, assumeValid: bool, path: seq<byte>)

  datatype Index = Index(entries: seq<Entry>, tree: Option<Tree.Node>)

  /** The digest size of the repository, the entry limit, the path rules and the checksum. */
  datatype Format = Format(
    oidBytes: nat, maxEntries: nat,
    nameOk: seq<byte> -> bool, pathOk: seq<byte> -> bool, fold: seq<byte> -> int,
    hash: seq<byte> -> seq<byte>)

  ghost predicate Sane(f: Format) {
    f.oidBytes > 0 && forall s :: |f.hash(s)| == f.oidBytes
  }

  const REGULAR := 33188
  const EXECUTABLE := 33261
  const SIGNATURE: seq<byte> := [68, 73, 82, 67]
  const TREE: seq<byte> := [84, 82, 69, 69]
  const LIMIT32 := Power256(4)

  function Fixed(f: Format): nat {
    40 + f.oidBytes + 2
  }

  /** The entry's size with its terminator, rounded up to a multiple of eight. */
  function Padded(f: Format, pathLength: nat): (n: nat)
    ensures n % 8 == 0 && Fixed(f) + pathLength < n <= Fixed(f) + pathLength + 8
  {
    (Fixed(f) + pathLength + 1 + 7) / 8 * 8
  }

  function Zeros(n: nat): seq<byte> {
    seq(n, i => 0)
  }

  function Flags(e: Entry): nat {
    (if e.assumeValid then 32768 else 0) + if |e.path| < 4095 then |e.path| else 4095
  }

  predicate EntryOk(f: Format, e: Entry) {
    && |e.stat1| == 24 && |e.stat2| == 12 && |e.oid| == f.oidBytes && !Tree.AllZero(e.oid)
    && (e.mode == REGULAR || e.mode == EXECUTABLE)
    && 0 !in e.path && f.pathOk(e.path)
  }

  // ---------------------------------------------------------------- one entry

  /** The part of an entry in front of its path. */
  function PrintFixed(e: Entry): seq<byte>
    requires e.mode >= 0
  {
    e.stat1 + BigEndian(4, e.mode) + e.stat2 + e.oid + BigEndian(2, Flags(e))
  }

  function Padding(f: Format, e: Entry): seq<byte> {
    Zeros(Padded(f, |e.path|) - Fixed(f) - |e.path|)
  }

  function PrintEntry(f: Format, e: Entry): seq<byte>
    requires e.mode >= 0
  {
    PrintFixed(e) + (e.path + Padding(f, e))
  }

  datatype Cut<T> = Cut(value: T, rest: seq<byte>)

  /** The fixed part: an entry without its path, and its declared path length. */
  function ParseFixed(f: Format, s: seq<byte>): Option<(Entry, nat)> {
    if |s| < Fixed(f) then None
    else
      var n := f.oidBytes;
      var flags := Value(s[40 + n..42 + n]);
      if flags / 4096 % 8 != 0 then None
      else Some((Entry(s[..24], Value(s[24..28]), s[28..40], s[40..40 + n], flags >= 32768, []), flags % 4096))
  }

  /** The checks of an entry whose path ends in front of position Fixed + nul. */
  function FinishEntry(f: Format, s: seq<byte>, header: Entry, declared: nat, nul: nat, seen: set<int>): (r: Option<Cut<Entry>>)
    requires Fixed(f) + nul <= |s|
    ensures r.Some? ==> |r.value.rest| < |s|
  {
    var e := header.(path := s[Fixed(f)..Fixed(f) + nul]);
    var padded := Padded(f, nul);
    if (declared < 4095 && declared != nul) || (declared == 4095 && nul < 4095) then None
    else if !EntryOk(f, e) || f.fold(e.path) in seen then None
    else if padded > |s| || !Tree.AllZero(s[Fixed(f) + nul..padded]) then None
    else Some(Cut(e, s[padded..]))
  }

  function ParseEntry(f: Format, s: seq<byte>, seen: set<int>): (r: Option<Cut<Entry>>)
    ensures r.Some? ==> |r.value.rest| < |s|
  {
    match ParseFixed(f, s)
    case None => None
    case Some((header, declared)) =>
      var nul := Find(s[Fixed(f)..], 0);
      if Fixed(f) + nul >= |s| then None else FinishEntry(f, s, header, declared, nul, seen)
  }

  lemma FixedSound(f: Format, s: seq<byte>)
    requires ParseFixed(f, s).Some?
    ensures var (e, declared) := ParseFixed(f, s).value;
      && |e.stat1| == 24 && |e.stat2| == 12 && |e.oid| == f.oidBytes && e.mode >= 0
      && forall path :: (declared == if |path| < 4095 then |path| else 4095) ==> s[..Fixed(f)] == PrintFixed(e.(path := path))
  {
    var n := f.oidBytes;
    var (e, declared) := ParseFixed(f, s).value;
    var flags := Value(s[40 + n..42 + n]);
    BigEndianOfValue(s[24..28]);
    BigEndianOfValue(s[40 + n..42 + n]);
    assert flags < 65536 by { assert Power256(2) == 256 * Power256(1) && Power256(1) == 256; }
    assert flags == (if flags >= 32768 then 32768 else 0) + flags % 4096;
    assert s[..Fixed(f)] == s[..24] + s[24..28] + s[28..40] + s[40..40 + n] + s[40 + n..42 + n];
  }

  lemma FixedComplete(f: Format, e: Entry, rest: seq<byte>)
    requires EntryOk(f, e)
    ensures |PrintFixed(e)| == Fixed(f)
    ensures ParseFixed(f, PrintFixed(e) + rest) == Some((e.(path := []), if |e.path| < 4095 then |e.path| else 4095))
  {
    var n := f.oidBytes;
    var s := PrintFixed(e) + rest;
    assert Power256(1) == 256 && Power256(2) == 65536 && Power256(3) == 16777216;
    ValueOfBigEndian(4, e.mode);
    ValueOfBigEndian(2, Flags(e));
    assert s[..24] == e.stat1;
    assert s[24..28] == BigEndian(4, e.mode);
    assert s[28..40] == e.stat2;
    assert s[40..40 + n] == e.oid;
    assert s[40 + n..42 + n] == BigEndian(2, Flags(e));
  }

  /** The three cuts behind an accepted entry: its path, its padding, and the rest. */
  lemma EntryParts(f: Format, s: seq<byte>, seen: set<int>, e: Entry, rest: seq<byte>)
    requires ParseEntry(f, s, seen) == Some(Cut(e, rest))
    ensures EntryOk(f, e) && f.fold(e.path) !in seen && ParseFixed(f, s).Some?
    ensures var (fixed, declared) := ParseFixed(f, s).value;
      var a, c := Fixed(f), Padded(f, |e.path|);
      var b := a + |e.path|;
      && c <= |s| && e == fixed.(path := e.path) && e.path == s[a..b] && Tree.AllZero(s[b..c]) && rest == s[c..]
      && declared == if |e.path| < 4095 then |e.path| else 4095
  {
  }

  lemma EntryTiles(f: Format, s: seq<byte>, e: Entry)
    requires e.mode >= 0 && Padded(f, |e.path|) <= |s| && s[..Fixed(f)] == PrintFixed(e)
    requires e.path == s[Fixed(f)..Fixed(f) + |e.path|] && Tree.AllZero(s[Fixed(f) + |e.path|..Padded(f, |e.path|)])
    ensures s == PrintEntry(f, e) + s[Padded(f, |e.path|)..]
  {
  }

  lemma EntrySound(f: Format, s: seq<byte>, seen: set<int>, e: Entry, rest: seq<byte>)
    requires ParseEntry(f, s, seen) == Some(Cut(e, rest))
    ensures EntryOk(f, e) && f.fold(e.path) !in seen && s == PrintEntry(f, e) + rest
  {
    EntryParts(f, s, seen, e, rest);
    FixedSound(f, s);
    EntryTiles(f, s, e);
  }

  function Declared(e: Entry): nat {
    if |e.path| < 4095 then |e.path| else 4095
  }

  lemma FinishComplete(f: Format, e: Entry, s: seq<byte>, rest: seq<byte>, seen: set<int>)
    requires EntryOk(f, e) && f.fold(e.path) !in seen && s == PrintEntry(f, e) + rest && |PrintFixed(e)| == Fixed(f)
    ensures Fixed(f) + |e.path| < |s|
    ensures FinishEntry(f, s, e.(path := []), Declared(e), |e.path|, seen) == Some(Cut(e, rest))
  {
    var a, c := Fixed(f), Padded(f, |e.path|);
    var b := a + |e.path|;
    assert s == PrintFixed(e) + e.path + Padding(f, e) + rest;
    assert s[a..b] == e.path && s[b..c] == Padding(f, e) && s[c..] == rest;
  }

  lemma NameComplete(f: Format, e: Entry, rest: seq<byte>)
    requires EntryOk(f, e)
    ensures Find(e.path + Padding(f, e) + rest, 0) == |e.path|
  {
    var zeros := Padding(f, e);
    assert zeros == [0] + zeros[1..];
    assert e.path + zeros + rest == e.path + [0] + (zeros[1..] + rest);
    FindAfter(e.path, 0, zeros[1..] + rest);
  }

  lemma EntryComplete(f: Format, e: Entry, rest: seq<byte>, seen: set<int>)
    requires EntryOk(f, e) && f.fold(e.path) !in seen
    ensures ParseEntry(f, PrintEntry(f, e) + rest, seen) == Some(Cut(e, rest))
  {
    var s, behind := PrintEntry(f, e) + rest, e.path + Padding(f, e) + rest;
    assert s == PrintFixed(e) + behind;
    FixedComplete(f, e, behind);
    assert s[Fixed(f)..] == behind;
    NameComplete(f, e, rest);
    FinishComplete(f, e, s, rest, seen);
  }

  // ---------------------------------------------------------------- the entry list

  function Folds(f: Format, es: seq<Entry>): set<int> {
    set i | 0 <= i < |es| :: f.fold(es[i].path)
  }

  predicate EntriesOk(f: Format, es: seq<Entry>) {
    && (forall i :: 0 <= i < |es| ==> EntryOk(f, es[i]))
    && (forall i, j :: 0 <= i < j < |es| ==> f.fold(es[i].path) != f.fold(es[j].path))
  }

  function PrintEntries(f: Format, es: seq<Entry>): seq<byte>
    requires forall i :: 0 <= i < |es| ==> es[i].mode >= 0
  {
    if |es| == 0 then [] else PrintEntry(f, es[0]) + PrintEntries(f, es[1..])
  }

  lemma OneMoreOk(f: Format, done: seq<Entry>, e: Entry)
    requires EntriesOk(f, done) && EntryOk(f, e) && f.fold(e.path) !in Folds(f, done)
    ensures EntriesOk(f, done + [e])
  {
  }

  /** Reads entries behind those already done until there are `count` of them. */
  function ParseEntries(f: Format, count: nat, s: seq<byte>, done: seq<Entry>): Option<Cut<seq<Entry>>>
    decreases |s|
  {
    if |done| >= count then Some(Cut(done, s))
    else
      match ParseEntry(f, s, Folds(f, done))
      case None => None
      case Some(Cut(e, rest)) => ParseEntries(f, count, rest, done + [e])
  }

  /** The bytes in front of `rest` are the entries of `all` behind `done`. */
  predicate Explains(f: Format, s: seq<byte>, done: seq<Entry>, all: seq<Entry>, rest: seq<byte>) {
    && EntriesOk(f, all) && done <= all
    && s == PrintEntries(f, all[|done|..]) + rest
  }

  lemma OneMoreExplained(f: Format, s: seq<byte>, done: seq<Entry>, e: Entry, tail: seq<byte>, more: seq<Entry>, all: seq<Entry>, rest: seq<byte>)
    requires EntryOk(f, e) && s == PrintEntry(f, e) + tail && more == done + [e] && Explains(f, tail, more, all, rest)
    ensures Explains(f, s, done, all, rest)
  {
  }

  lemma OneRead(f: Format, s: seq<byte>, done: seq<Entry>, e: Entry, tail: seq<byte>, more: seq<Entry>)
    requires EntriesOk(f, done) && ParseEntry(f, s, Folds(f, done)) == Some(Cut(e, tail)) && more == done + [e]
    ensures EntriesOk(f, more) && EntryOk(f, e) && s == PrintEntry(f, e) + tail
  {
    EntrySound(f, s, Folds(f, done), e, tail);
    OneMoreOk(f, done, e);
  }

  lemma EntriesStep(f: Format, count: nat, s: seq<byte>, done: seq<Entry>, e: Entry, tail: seq<byte>, more: seq<Entry>)
    requires |done| < count && ParseEntry(f, s, Folds(f, done)) == Some(Cut(e, tail)) && more == done + [e]
    ensures ParseEntries(f, count, s, done) == ParseEntries(f, count, tail, more)
  {
  }

  lemma EntriesFail(f: Format, count: nat, s: seq<byte>, done: seq<Entry>)
    requires |done| < count && ParseEntry(f, s, Folds(f, done)).None?
    ensures ParseEntries(f, count, s, done) == None
  {
  }

  lemma EntriesEnd(f: Format, count: nat, s: seq<byte>, done: seq<Entry>)
    requires |done| >= count
    ensures ParseEntries(f, count, s, done) == Some(Cut(done, s))
  {
  }

  /** Whatever the list parser accepts is the print of what it returns, up to the unread rest. */
  lemma {:induction false} EntriesSound(f: Format, count: nat, s: seq<byte>, done: seq<Entry>, r: Option<Cut<seq<Entry>>>)
    requires EntriesOk(f, done) && |done| <= count && r == ParseEntries(f, count, s, done)
    ensures r.Some? ==> Explains(f, s, done, r.value.value, r.value.rest) && |r.value.value| == count
    decreases |s|
  {
    if |done| >= count {
      EntriesEnd(f, count, s, done);
      assert done[|done|..] == [] && PrintEntries(f, []) + s == s;
    } else {
      var one := ParseEntry(f, s, Folds(f, done));
      if one.None? {
        EntriesFail(f, count, s, done);
      } else {
        var e, tail := one.value.value, one.value.rest;
        var more := done + [e];
        OneRead(f, s, done, e, tail, more);
        EntriesStep(f, count, s, done, e, tail, more);
        EntriesSound(f, count, tail, more, r);
        if r.Some? { OneMoreExplained(f, s, done, e, tail, more, r.value.value, r.value.rest); }
      }
    }
  }

  lemma PrefixGrows<T>(s: seq<T>, n: nat)
    requires n < |s|
    ensures s[..n] + [s[n]] == s[..n + 1]
  {
  }

  lemma {:induction false} EntriesComplete(f: Format, all: seq<Entry>, n: nat, rest: seq<byte>)
    requires EntriesOk(f, all) && n <= |all|
    ensures ParseEntries(f, |all|, PrintEntries(f, all[n..]) + rest, all[..n]) == Some(Cut(all, rest))
    decreases |all| - n
  {
    if n < |all| {
      var e, done, more := all[n], all[..n], all[..n + 1];
      var s, tail := PrintEntries(f, all[n..]) + rest, PrintEntries(f, all[n + 1..]) + rest;
      assert all[n..][1..] == all[n + 1..];
      Tree.Associate3(PrintEntry(f, e), PrintEntries(f, all[n + 1..]), rest);
      EntryComplete(f, e, tail, Folds(f, done));
      PrefixGrows(all, n);
      EntriesStep(f, |all|, s, done, e, tail, more);
      EntriesComplete(f, all, n + 1, rest);
    } else {
      assert all[..n] == all && PrintEntries(f, all[n..]) + rest == rest;
      EntriesEnd(f, |all|, rest, all);
    }
  }

  // ---------------------------------------------------------------- the extension

  function TreePolicy(f: Format, count: nat): Tree.Policy {
    Tree.Policy(f.oidBytes, count, f.nameOk, f.pathOk, f.fold)
  }

  function PrintExtension(tree: Option<Tree.Node>): seq<byte> {
    if tree.None? then [] else TREE + BigEndian(4, |Tree.Print(tree.value)|) + Tree.Print(tree.value)
  }

  predicate ExtensionOk(f: Format, count: nat, tree: Option<Tree.Node>) {
    tree.Some? ==> Tree.Valid(TreePolicy(f, count), tree.value) && |Tree.Print(tree.value)| < LIMIT32
  }

  /** Nothing, or exactly one cache tree: a second extension would repeat the signature. */
  function ParseExtension(f: Format, count: nat, s: seq<byte>): Option<Option<Tree.Node>> {
    if |s| == 0 then Some(None)
    else if |s| < 8 || s[..4] != TREE || |s| != 8 + Value(s[4..8]) then None
    else ParseInner(f, count, s[8..])
  }

  function ParseInner(f: Format, count: nat, inner: seq<byte>): Option<Option<Tree.Node>> {
    match Tree.ParseTree(TreePolicy(f, count), inner)
    case None => None
    case Some(t) => Some(Some(t))
  }

  lemma ExtensionSplit(f: Format, count: nat, s: seq<byte>, signature: seq<byte>, size: nat, inner: seq<byte>)
    requires |s| >= 8 && signature == s[..4] && size == Value(s[4..8]) && inner == s[8..]
    ensures ParseExtension(f, count, s) == if signature != TREE || |s| != 8 + size then None else ParseInner(f, count, inner)
  {
  }

  lemma InnerExact(f: Format, count: nat, inner: seq<byte>, t: Tree.Node)
    ensures ParseInner(f, count, inner) == Some(Some(t)) <==> inner == Tree.Print(t) && Tree.Valid(TreePolicy(f, count), t)
  {
    Tree.ParsesExactly(TreePolicy(f, count), inner, t);
  }

  lemma ExtensionParts(s: seq<byte>, text: seq<byte>)
    ensures |text| < LIMIT32 && s == TREE + BigEndian(4, |text|) + text ==>
              |s| == 8 + |text| && s[..4] == TREE && Value(s[4..8]) == |text| && s[8..] == text
    ensures |s| >= 8 && s[..4] == TREE && |s| == 8 + Value(s[4..8]) ==>
              |s[8..]| < LIMIT32 && s == TREE + BigEndian(4, |s[8..]|) + s[8..]
  {
    if |text| < LIMIT32 && s == TREE + BigEndian(4, |text|) + text {
      ValueOfBigEndian(4, |text|);
      assert s[..4] == TREE && s[4..8] == BigEndian(4, |text|) && s[8..] == text;
    }
    if |s| >= 8 && s[..4] == TREE && |s| == 8 + Value(s[4..8]) {
      BigEndianOfValue(s[4..8]);
      assert s == s[..4] + s[4..8] + s[8..];
    }
  }

  lemma TreeExact(f: Format, count: nat, s: seq<byte>, t: Tree.Node)
    ensures ParseExtension(f, count, s) == Some(Some(t)) <==> s == PrintExtension(Some(t)) && ExtensionOk(f, count, Some(t))
  {
    ExtensionParts(s, Tree.Print(t));
    if |s| >= 8 {
      ExtensionSplit(f, count, s, s[..4], Value(s[4..8]), s[8..]);
      InnerExact(f, count, s[8..], t);
    }
  }

  lemma ExtensionExact(f: Format, count: nat, s: seq<byte>, tree: Option<Tree.Node>)
    ensures ParseExtension(f, count, s) == Some(tree) <==> s == PrintExtension(tree) && ExtensionOk(f, count, tree)
  {
    if tree.Some? { TreeExact(f, count, s, tree.value); }
  }

  // ---------------------------------------------------------------- the whole index

  function PrintHead(count: nat): seq<byte> {
    SIGNATURE + BigEndian(4, 2) + BigEndian(4, count)
  }

  predicate Valid(f: Format, x: Index) {
    && |x.entries| <= f.maxEntries && |x.entries| < LIMIT32
    && EntriesOk(f, x.entries) && ExtensionOk(f, |x.entries|, x.tree)
  }

  function PrintBody(f: Format, x: Index): seq<byte>
    requires EntriesOk(f, x.entries)
  {
    PrintHead(|x.entries|) + (PrintEntries(f, x.entries) + PrintExtension(x.tree))
  }

  function Print(f: Format, x: Index): seq<byte>
    requires EntriesOk(f, x.entries)
  {
    PrintBody(f, x) + f.hash(PrintBody(f, x))
  }

  /** The entries and what follows them. */
  function ParseSections(f: Format, count: nat, s: seq<byte>): Option<Index> {
    match ParseEntries(f, count, s, [])
    case None => None
    case Some(Cut(entries, rest)) =>
      match ParseExtension(f, count, rest)
      case None => None
      case Some(tree) => Some(Index(entries, tree))
  }

  function ParseBody(f: Format, body: seq<byte>): Option<Index> {
    if |body| < 12 || body[..4] != SIGNATURE || Value(body[4..8]) != 2 || Value(body[8..12]) > f.maxEntries then None
    else ParseSections(f, Value(body[8..12]), body[12..])
  }

  /** The index of a buffer with a matching checksum trailer. */
  function Parse(f: Format, payload: seq<byte>): Option<Index> {
    if |payload| < 12 + f.oidBytes then None
    else
      var end := |payload| - f.oidBytes;
      if payload[end..] != f.hash(payload[..end]) then None else ParseBody(f, payload[..end])
  }

  lemma HeadExact(body: seq<byte>, count: nat)
    requires |body| >= 12
    ensures count < LIMIT32 ==>
      (body[..12] == PrintHead(count) <==> body[..4] == SIGNATURE && Value(body[4..8]) == 2 && Value(body[8..12]) == count)
    ensures Value(body[8..12]) < LIMIT32
  {
    BigEndianOfValue(body[4..8]);
    BigEndianOfValue(body[8..12]);
    assert body[..12] == body[..4] + body[4..8] + body[8..12];
    assert Power256(1) == 256 && Power256(2) == 65536 && Power256(3) == 16777216;
    ValueOfBigEndian(4, 2);
    if count < LIMIT32 {
      ValueOfBigEndian(4, count);
      var head := PrintHead(count);
      assert head[..4] == SIGNATURE && head[4..8] == BigEndian(4, 2) && head[8..12] == BigEndian(4, count);
      if body[..12] == head {
        assert body[..4] == head[..4] && body[4..8] == head[4..8] && body[8..12] == head[8..12];
      }
    }
  }

  lemma BodySound(f: Format, body: seq<byte>, x: Index)
    requires ParseBody(f, body) == Some(x)
    ensures Valid(f, x) && body == PrintBody(f, x)
  {
    var count := Value(body[8..12]);
    HeadExact(body, count);
    var cut := ParseEntries(f, count, body[12..], []).value;
    EntriesSound(f, count, body[12..], [], Some(cut));
    assert cut.value[0..] == cut.value;
    ExtensionExact(f, count, cut.rest, x.tree);
    assert body == body[..12] + body[12..];
  }

  lemma BodyComplete(f: Format, x: Index)
    requires Valid(f, x)
    ensures ParseBody(f, PrintBody(f, x)) == Some(x)
  {
    var body, rest := PrintBody(f, x), PrintExtension(x.tree);
    assert body[..12] == PrintHead(|x.entries|) && body[12..] == PrintEntries(f, x.entries) + rest;
    HeadExact(body, |x.entries|);
    EntriesComplete(f, x.entries, 0, rest);
    assert x.entries[0..] == x.entries && x.entries[..0] == [];
    ExtensionExact(f, |x.entries|, rest, x.tree);
  }

  lemma Split(s: seq<byte>, n: nat)
    requires n <= |s|
    ensures s == s[..n] + s[n..]
  {
  }

  lemma ParseSound(f: Format, payload: seq<byte>, x: Index)
    requires Parse(f, payload) == Some(x)
    ensures Valid(f, x) && payload == Print(f, x)
  {
    var end := |payload| - f.oidBytes;
    BodySound(f, payload[..end], x);
    Split(payload, end);
  }

  lemma ParseComplete(f: Format, x: Index)
    requires Sane(f) && Valid(f, x)
    ensures Parse(f, Print(f, x)) == Some(x)
  {
    var body, payload := PrintBody(f, x), Print(f, x);
    assert |f.hash(body)| == f.oidBytes;
    var end := |payload| - f.oidBytes;
    assert payload[..end] == body && payload[end..] == f.hash(body);
    BodyComplete(f, x);
  }

  /**
    A buffer parses as an index exactly when it is, byte for byte, the print of that index and the index
    is valid: header, padded entries, at most one extension, trailer, and nothing else.
   */
  lemma ParsesExactly(f: Format, payload: seq<byte>, x: Index)
    requires Sane(f)
    ensures Parse(f, payload) == Some(x) <==> Valid(f, x) && payload == Print(f, x)
  {
    if Parse(f, payload) == Some(x) { ParseSound(f, payload, x); }
    if Valid(f, x) && payload == Print(f, x) { ParseComplete(f, x); }
  }
}

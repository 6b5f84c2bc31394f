/**
  The structural scan in front of JSON decoding: a byte loop with a depth counter, a string counter and a
  stack of item counts, and the proof that on balanced text it enforces exactly the bounds of the structure.
 */
module JsonPreflight {
  import opened Bytes

  const QUOTE: byte := 0x22
  const ESCAPE: byte := 0x5C
  const COMMA: byte := 0x2C
  const OPENERS: set<byte> := {0x7B, 0x5B}
  const CLOSERS: set<byte> := {0x7D, 0x5D}

  datatype Limits = Limits(bytes: nat, depth: nat, stringBytes: nat, items: nat)

  datatype State = State(depth: int, inString: bool, escaped: bool, stringBytes: nat, counts: seq<int>)

  /** After a byte the loop goes on, has stopped early, or has rejected. */
  datatype Outcome = Going(s: State) | Stopped | Rejected

  function Step(l: Limits, s: State, b: byte): Outcome {
    if s.inString then
      if s.stringBytes + 1 > l.stringBytes then Rejected
      else if s.escaped then Going(s.(stringBytes := s.stringBytes + 1, escaped := false))
      else Going(s.(stringBytes := s.stringBytes + 1, escaped := b == ESCAPE, inString := b != QUOTE))
    else if b == QUOTE then Going(s.(inString := true, stringBytes := 0))
    else if b in OPENERS then
      if s.depth + 1 > l.depth then Rejected else Going(s.(depth := s.depth + 1, counts := s.counts + [1]))
    else if b in CLOSERS then
      if s.depth - 1 < 0 then Stopped
      else Going(s.(depth := s.depth - 1, counts := if |s.counts| > 0 then s.counts[..|s.counts| - 1] else []))
    else if b == COMMA && |s.counts| > 0 then
      var n := s.counts[|s.counts| - 1] + 1;
      if n > l.items then Rejected else Going(s.(counts := s.counts[..|s.counts| - 1] + [n]))
    else Going(s)
  }

  function Scan(l: Limits, s: State, bytes: seq<byte>): Outcome {
    if |bytes| == 0 then Going(s)
    else
      match Scan(l, s, bytes[..|bytes| - 1])
      case Going(t) => Step(l, t, bytes[|bytes| - 1])
      case Stopped => Stopped
      case Rejected => Rejected
  }

  const START := State(0, false, false, 0, [])

  /** The loop's answer: not rejected, and not inside a string at its end. */
  function Accepts(l: Limits, raw: seq<byte>): bool {
    && |raw| <= l.bytes
    && match Scan(l, START, raw)
       case Going(s) => !s.inString
       case Stopped => true
       case Rejected => false
  }

  lemma {:induction false} OutcomeStays(l: Limits, s: State, bytes: seq<byte>, n: nat)
    requires n <= |bytes| && !Scan(l, s, bytes[..n]).Going?
    ensures Scan(l, s, bytes) == Scan(l, s, bytes[..n])
  {
    if n < |bytes| {
      assert bytes[..|bytes| - 1][..n] == bytes[..n];
      OutcomeStays(l, s, bytes[..|bytes| - 1], n);
    } else {
      assert bytes[..n] == bytes;
    }
  }

  lemma ScanOne(l: Limits, s: State, bytes: seq<byte>, n: nat, m: nat, t: State)
    requires m == n + 1 <= |bytes| && Scan(l, s, bytes[..n]) == Going(t)
    ensures Scan(l, s, bytes[..m]) == Step(l, t, bytes[n])
  {
    assert bytes[..m][..n] == bytes[..n];
  }

  /** The scan as it runs. */
  method PreflightJsonBytes(l: Limits, raw: seq<byte>) returns (ok: bool)
    ensures ok == Accepts(l, raw)
  {
    if |raw| > l.bytes { return false; }
    var s, n, end := START, 0, |raw|;
    assert raw[..0] == [];
    while n != end
      invariant 0 <= n <= end == |raw| && (Scan(l, START, raw[..n]) == Going(s)) == true
      decreases end - n
    {
      var b, m := raw[n], n + 1;
      ScanOne(l, START, raw, n, m, s);
      var next := Step(l, s, b);
      if !next.Going? {
        OutcomeStays(l, START, raw, m);
        return next.Stopped?;
      }
      s, n := next.s, m;
    }
    assert raw[..n] == raw;
    return !s.inString;
  }

  lemma {:induction false} ScanConcat(l: Limits, s: State, a: seq<byte>, b: seq<byte>)
    ensures Scan(l, s, a + b) == match Scan(l, s, a) case Going(t) => Scan(l, t, b) case Stopped => Stopped case Rejected => Rejected
  {
    if |b| == 0 {
      assert a + b == a;
    } else {
      assert (a + b)[..|a + b| - 1] == a + b[..|b| - 1];
      ScanConcat(l, s, a, b[..|b| - 1]);
    }
  }

  // ---------------------------------------------------------------- balanced text

  /** Text without structure, a quoted string, or a container whose items are separated by commas. */
  datatype Doc = Plain(text: seq<byte>) | Quoted(body: seq<byte>) | Container(open: byte, items: Items, close: byte)
  datatype Docs = NoDocs | Docs(first: Doc, rest: Docs)
  datatype Items = LastItem(docs: Docs) | Item(docs: Docs, rest: Items)

  /** Whether a string body ends behind an escape character; none when it holds an unescaped quote. */
  function Ending(body: seq<byte>): (r: int)
    ensures r == 0 || r == 1 || r == 2
  {
    if |body| == 0 then 0
    else
      var front, b := Ending(body[..|body| - 1]), body[|body| - 1];
      if front == 2 then 2 else if front == 1 then 0 else if b == QUOTE then 2 else if b == ESCAPE then 1 else 0
  }

  predicate Balanced(d: Doc) {
    match d
    case Plain(text) => forall i :: 0 <= i < |text| ==> text[i] != QUOTE && text[i] !in OPENERS && text[i] !in CLOSERS && text[i] != COMMA
    case Quoted(body) => Ending(body) == 0
    case Container(open, items, close) => open in OPENERS && close in CLOSERS && ItemsBalanced(items)
  }

  predicate AllBalanced(ds: Docs) {
    match ds
    case NoDocs => true
    case Docs(first, rest) => Balanced(first) && AllBalanced(rest)
  }

  predicate ItemsBalanced(items: Items) {
    match items
    case LastItem(docs) => AllBalanced(docs)
    case Item(docs, rest) => AllBalanced(docs) && ItemsBalanced(rest)
  }

  function Print(d: Doc): seq<byte> {
    match d
    case Plain(text) => text
    case Quoted(body) => [QUOTE] + body + [QUOTE]
    case Container(open, items, close) => [open] + PrintItems(items) + [close]
  }

  function PrintAll(ds: Docs): seq<byte> {
    match ds
    case NoDocs => []
    case Docs(first, rest) => Print(first) + PrintAll(rest)
  }

  function PrintItems(items: Items): seq<byte> {
    match items
    case LastItem(docs) => PrintAll(docs)
    case Item(docs, rest) => PrintAll(docs) + ([COMMA] + PrintItems(rest))
  }

  // ---------------------------------------------------------------- bounds of the structure

  function Count(items: Items): (n: nat)
    ensures n >= 1
  {
    match items
    case LastItem(_) => 1
    case Item(_, rest) => 1 + Count(rest)
  }

  /** The document keeps within the limits when it starts at the given depth. */
  predicate Within(l: Limits, d: Doc, depth: nat) {
    match d
    case Plain(_) => true
    case Quoted(body) => |body| + 1 <= l.stringBytes
    case Container(_, items, _) =>
      depth + 1 <= l.depth && (Count(items) == 1 || Count(items) <= l.items) && ItemsWithin(l, items, depth + 1)
  }

  predicate AllWithin(l: Limits, ds: Docs, depth: nat) {
    match ds
    case NoDocs => true
    case Docs(first, rest) => Within(l, first, depth) && AllWithin(l, rest, depth)
  }

  predicate ItemsWithin(l: Limits, items: Items, depth: nat) {
    match items
    case LastItem(docs) => AllWithin(l, docs, depth)
    case Item(docs, rest) => AllWithin(l, docs, depth) && ItemsWithin(l, rest, depth)
  }

  /** Outside strings only depth and item counts matter. */
  predicate At(o: Outcome, depth: int, counts: seq<int>) {
    o.Going? && o.s.depth == depth && o.s.counts == counts && !o.s.inString && !o.s.escaped
  }

  lemma {:induction false} PlainScan(l: Limits, s: State, text: seq<byte>)
    requires At(Going(s), s.depth, s.counts) && Balanced(Plain(text))
    ensures Scan(l, s, text) == Going(s)
  {
    if |text| > 0 { PlainScan(l, s, text[..|text| - 1]); }
  }

  /** A string body is consumed byte by byte; it is rejected exactly when it is too long. */
  lemma {:induction false} BodyScan(l: Limits, s: State, body: seq<byte>)
    requires s.inString && !s.escaped && s.stringBytes == 0 && Ending(body) != 2
    ensures Scan(l, s, body) ==
      if |body| <= l.stringBytes then Going(s.(stringBytes := |body|, escaped := Ending(body) == 1)) else Rejected
  {
    if |body| > 0 { BodyScan(l, s, body[..|body| - 1]); }
  }

  lemma {:induction false} DocScan(l: Limits, s: State, d: Doc)
    requires At(Going(s), s.depth, s.counts) && s.depth >= 0 && Balanced(d)
    ensures if Within(l, d, s.depth) then At(Scan(l, s, Print(d)), s.depth, s.counts) else Scan(l, s, Print(d)).Rejected?
    decreases d, 0
  {
    match d
    case Plain(text) => PlainScan(l, s, text);
    case Quoted(body) => QuotedScan(l, s, body);
    case Container(open, items, close) =>
      var inner := s.(depth := s.depth + 1, counts := s.counts + [1]);
      ScanSingle(l, s, open);
      ScanConcat(l, s, [open] + PrintItems(items), [close]);
      ScanConcat(l, s, [open], PrintItems(items));
      if s.depth + 1 <= l.depth {
        ItemsScan(l, inner, items, s.counts, 1, Count(items));
        CloseScan(l, Scan(l, inner, PrintItems(items)), s.depth + 1, s.counts, Count(items), close);
      }
  }

  lemma ScanSingle(l: Limits, s: State, b: byte)
    ensures Scan(l, s, [b]) == Step(l, s, b)
  {
  }

  lemma QuotedScan(l: Limits, s: State, body: seq<byte>)
    requires At(Going(s), s.depth, s.counts) && Ending(body) == 0
    ensures if |body| + 1 <= l.stringBytes then At(Scan(l, s, Print(Quoted(body))), s.depth, s.counts)
            else Scan(l, s, Print(Quoted(body))).Rejected?
  {
    var inside := s.(inString := true, stringBytes := 0);
    ScanSingle(l, s, QUOTE);
    ScanConcat(l, s, [QUOTE] + body, [QUOTE]);
    ScanConcat(l, s, [QUOTE], body);
    BodyScan(l, inside, body);
    ScanSingle(l, inside.(stringBytes := |body|), QUOTE);
  }

  lemma CloseScan(l: Limits, o: Outcome, depth: int, outer: seq<int>, top: int, close: byte)
    requires depth >= 1 && close in CLOSERS
    ensures At(o, depth, outer + [top]) ==> At(Scan(l, o.s, [close]), depth - 1, outer)
  {
  }

  lemma {:induction false} DocsScan(l: Limits, s: State, ds: Docs)
    requires At(Going(s), s.depth, s.counts) && s.depth >= 0 && AllBalanced(ds)
    ensures if AllWithin(l, ds, s.depth) then At(Scan(l, s, PrintAll(ds)), s.depth, s.counts) else Scan(l, s, PrintAll(ds)).Rejected?
    decreases ds, 1
  {
    match ds
    case NoDocs =>
    case Docs(first, rest) =>
      DocScan(l, s, first);
      ScanConcat(l, s, Print(first), PrintAll(rest));
      var o := Scan(l, s, Print(first));
      if o.Going? { DocsScan(l, o.s, rest); }
  }

  /** Items inside a container whose count so far is `n` and will be `total`. */
  lemma {:induction false} ItemsScan(l: Limits, s: State, items: Items, outer: seq<int>, n: nat, total: nat)
    requires At(Going(s), s.depth, outer + [n]) && s.depth >= 1 && n >= 1 && ItemsBalanced(items)
    requires total == n + Count(items) - 1
    ensures if ItemsWithin(l, items, s.depth) && (Count(items) == 1 || total <= l.items)
            then At(Scan(l, s, PrintItems(items)), s.depth, outer + [total])
            else Scan(l, s, PrintItems(items)).Rejected?
    decreases items, 2
  {
    match items
    case LastItem(docs) =>
      assert total == n;
      DocsScan(l, s, docs);
    case Item(docs, rest) =>
      DocsScan(l, s, docs);
      var o := Scan(l, s, PrintAll(docs));
      CommaScan(l, s, PrintAll(docs), o, PrintItems(rest), outer, n);
      if o.Going? && n + 1 <= l.items {
        var next := o.s.(counts := outer + [n + 1]);
        ItemsScan(l, next, rest, outer, n + 1, total);
      }
  }

  lemma CommaStep(l: Limits, t: State, outer: seq<int>, n: nat)
    requires !t.inString && t.counts == outer + [n]
    ensures Step(l, t, COMMA) == if n + 1 <= l.items then Going(t.(counts := outer + [n + 1])) else Rejected
  {
  }

  /** The comma behind an item counts the next one. */
  lemma CommaScan(l: Limits, s: State, item: seq<byte>, o: Outcome, behind: seq<byte>, outer: seq<int>, n: nat)
    requires o == Scan(l, s, item) && (At(o, s.depth, outer + [n]) || o.Rejected?)
    ensures Scan(l, s, item + ([COMMA] + behind)) ==
      if o.Going? && n + 1 <= l.items then Scan(l, o.s.(counts := outer + [n + 1]), behind) else Rejected
  {
    ScanConcat(l, s, item, [COMMA] + behind);
    if o.Going? {
      CommaStep(l, o.s, outer, n);
      ScanConcat(l, o.s, [COMMA], behind);
      ScanSingle(l, o.s, COMMA);
    }
  }

  /**
    On every balanced text, whatever its plain parts, the scan accepts exactly when the text is short enough
    and its nesting, its strings and the item counts of its containers keep within the limits.
   */
  lemma PreflightIsExact(l: Limits, ds: Docs)
    requires AllBalanced(ds)
    ensures Accepts(l, PrintAll(ds)) <==> |PrintAll(ds)| <= l.bytes && AllWithin(l, ds, 0)
  {
    DocsScan(l, START, ds);
  }
}

/** Git tree objects as bytes: the scan accepts exactly the concatenations of admissible entries. */
module TreeObject {
  import opened Contracts
  import opened Bytes
  import opened Decimals

  datatype Entry = Entry(mode: seq<byte>, name: seq<byte>, oid: seq<byte>)

  /** The digest size, the admitted modes, and the path policy for a name under a mode. */
  datatype Policy = Policy(oidBytes: nat, modes: set<seq<byte>>, nameOk: (seq<byte>, seq<byte>) -> bool)

  predicate EntryOk(p: Policy, e: Entry) {
    && e.mode in p.modes && e.mode != [] && 32 !in e.mode
    && e.name != [] && 0 !in e.name && p.nameOk(e.mode, e.name)
    && |e.oid| == p.oidBytes
  }

  function Print(e: Entry): seq<byte> {
    e.mode + [32] + (e.name + [0] + e.oid)
  }

  function PrintAll(es: seq<Entry>): seq<byte> {
    if |es| == 0 then [] else PrintAll(es[..|es| - 1]) + Print(es[|es| - 1])
  }

  predicate AllOk(p: Policy, es: seq<Entry>) {
    forall i :: 0 <= i < |es| ==> EntryOk(p, es[i])
  }

  /** The first entry of a text, and what follows it. */
  function ParseEntry(p: Policy, s: seq<byte>): (r: Option<(Entry, seq<byte>)>)
    ensures r.Some? ==> |r.value.1| < |s|
  {
    var space := Find(s, 32);
    if space >= |s| || space == 0 then None else ParseNamed(p, s[..space], s[space + 1..])
  }

  function ParseNamed(p: Policy, mode: seq<byte>, tail: seq<byte>): (r: Option<(Entry, seq<byte>)>)
    ensures r.Some? ==> |r.value.1| < |tail|
  {
    var nul := Find(tail, 0);
    if nul >= |tail| || nul == 0 || nul + 1 + p.oidBytes > |tail| then None
    else
      var e := Entry(mode, tail[..nul], tail[nul + 1..nul + 1 + p.oidBytes]);
      if EntryOk(p, e) then Some((e, tail[nul + 1 + p.oidBytes..])) else None
  }

  lemma EntrySound(p: Policy, s: seq<byte>)
    requires ParseEntry(p, s).Some?
    ensures s == Print(ParseEntry(p, s).value.0) + ParseEntry(p, s).value.1 && EntryOk(p, ParseEntry(p, s).value.0)
  {
  }

  lemma EntryComplete(p: Policy, e: Entry, rest: seq<byte>)
    requires EntryOk(p, e)
    ensures ParseEntry(p, Print(e) + rest) == Some((e, rest))
  {
    var s, tail := Print(e) + rest, e.name + [0] + (e.oid + rest);
    assert s == e.mode + [32] + tail;
    FindAfter(e.mode, 32, tail);
    FindAfter(e.name, 0, e.oid + rest);
    assert s[..|e.mode|] == e.mode && s[|e.mode| + 1..] == tail;
    assert tail[..|e.name|] == e.name && tail[|e.name| + 1..] == e.oid + rest;
    assert tail[|e.name| + 1..|e.name| + 1 + p.oidBytes] == e.oid;
  }

  /** A text has at most one reading as a list of entries. */
  lemma {:induction false} ReadingIsUnique(p: Policy, done: seq<Entry>, s: seq<byte>, es: seq<Entry>)
    requires AllOk(p, es) && PrintAll(es) == PrintAll(done) + s && done <= es
    ensures s == [] <==> es == done
    ensures s != [] ==> ParseEntry(p, s).Some? && done + [ParseEntry(p, s).value.0] <= es
  {
    var rest := es[|done|..];
    assert es == done + rest;
    PrintConcat(done, rest);
    assert PrintAll(rest) == s by {
      assert (PrintAll(done) + PrintAll(rest))[|PrintAll(done)|..] == PrintAll(rest);
      assert (PrintAll(done) + s)[|PrintAll(done)|..] == s;
    }
    if rest != [] {
      PrintConcat([rest[0]], rest[1..]);
      assert rest == [rest[0]] + rest[1..];
      assert PrintAll([rest[0]]) == Print(rest[0]) by { assert [rest[0]][..0] == []; assert PrintAll([]) + Print(rest[0]) == Print(rest[0]); }
      EntryComplete(p, rest[0], PrintAll(rest[1..]));
      assert es[|done|] == rest[0];
    }
  }

  lemma {:induction false} PrintConcat(a: seq<Entry>, b: seq<Entry>)
    ensures PrintAll(a + b) == PrintAll(a) + PrintAll(b)
  {
    if |b| == 0 {
      assert a + b == a;
    } else {
      var front, last := b[..|b| - 1], b[|b| - 1];
      PrintConcat(a, front);
      assert (a + b)[..|a + b| - 1] == a + front && (a + b)[|a + b| - 1] == last;
      assert PrintAll(a) + PrintAll(front) + Print(last) == PrintAll(a) + (PrintAll(front) + Print(last));
    }
  }

  /** Some list of admissible entries prints to the payload. */
  ghost predicate Readable(p: Policy, payload: seq<byte>, es: seq<Entry>) {
    AllOk(p, es) && payload == PrintAll(es)
  }

  /** What is read so far is the beginning of every reading. */
  ghost predicate Scanned(p: Policy, payload: seq<byte>, offset: nat, es: seq<Entry>) {
    && offset <= |payload| && AllOk(p, es) && payload == PrintAll(es) + payload[offset..]
    && forall other :: Readable(p, payload, other) ==> es <= other
  }

  lemma NextEntry(p: Policy, payload: seq<byte>, offset: nat, es: seq<Entry>, next: nat, more: seq<Entry>)
    requires Scanned(p, payload, offset, es) && offset < |payload|
    ensures ParseEntry(p, payload[offset..]).None? ==> forall other :: !Readable(p, payload, other)
    ensures ParseEntry(p, payload[offset..]).Some? && more == es + [ParseEntry(p, payload[offset..]).value.0]
              && next == |payload| - |ParseEntry(p, payload[offset..]).value.1| ==>
                offset < next && Scanned(p, payload, next, more)
  {
    var s := payload[offset..];
    var found := ParseEntry(p, s);
    forall other | Readable(p, payload, other) ensures found.Some? && es + [found.value.0] <= other {
      ReadingIsUnique(p, es, s, other);
    }
    if found.Some? {
      EntrySound(p, s);
      Advance(payload, es, s, found.value.0, found.value.1);
    }
  }

  /** An entry whose mode ends `n` bytes behind the offset. */
  lemma EntryAt(p: Policy, payload: seq<byte>, offset: nat, n: nat)
    requires offset + n <= |payload| && n == Find(payload[offset..], 32)
    ensures ParseEntry(p, payload[offset..]) ==
      if offset + n == |payload| || n == 0 then None else ParseNamed(p, payload[offset..offset + n], payload[offset + n + 1..])
  {
    var s := payload[offset..];
    if n < |s| { assert s[..n] == payload[offset..offset + n] && s[n + 1..] == payload[offset + n + 1..]; }
  }

  /** How far behind the offset a byte first occurs. */
  method FindFrom(payload: seq<byte>, b: byte, offset: nat) returns (n: nat)
    requires offset <= |payload|
    ensures n == Find(payload[offset..], b) && offset + n <= |payload|
  {
    var at := offset;
    while at < |payload| && payload[at] != b
      invariant offset <= at <= |payload|
      invariant offset + Find(payload[offset..], b) == at + Find(payload[at..], b)
    {
      assert payload[at..][1..] == payload[at + 1..];
      at := at + 1;
    }
    n := at - offset;
  }

  /** What a read at an offset reports of the specification. */
  predicate Reports(r: Option<(Entry, seq<byte>)>, payload: seq<byte>, e: Option<Entry>, next: nat) {
    if r.None? then e.None? else e == Some(r.value.0) && next == |payload| - |r.value.1|
  }

  /** The entry at an offset. */
  method ReadEntry(p: Policy, payload: seq<byte>, offset: nat) returns (r: Option<Entry>, next: nat)
    requires offset <= |payload|
    ensures Reports(ParseEntry(p, payload[offset..]), payload, r, next)
  {
    var n := FindFrom(payload, 32, offset);
    EntryAt(p, payload, offset, n);
    r, next := None, offset;
    if n > 0 && offset + n < |payload| {
      r, next := ReadNamed(p, payload, payload[offset..offset + n], offset + n + 1);
    }
  }

  /** A tail whose terminator was found `n` bytes behind the start. */
  lemma NamedAt(p: Policy, payload: seq<byte>, mode: seq<byte>, start: nat, n: nat)
    requires start + n <= |payload| && n == Find(payload[start..], 0)
    ensures n == 0 || start + n + 1 + p.oidBytes > |payload| ==> ParseNamed(p, mode, payload[start..]) == None
    ensures n > 0 && start + n + 1 + p.oidBytes <= |payload| ==>
      var e := Entry(mode, payload[start..start + n], payload[start + n + 1..start + n + 1 + p.oidBytes]);
      ParseNamed(p, mode, payload[start..]) == if EntryOk(p, e) then Some((e, payload[start + n + 1 + p.oidBytes..])) else None
  {
    var tail := payload[start..];
    if start + n + 1 + p.oidBytes <= |payload| {
      assert tail[..n] == payload[start..start + n];
      assert tail[n + 1..n + 1 + p.oidBytes] == payload[start + n + 1..start + n + 1 + p.oidBytes];
      assert tail[n + 1 + p.oidBytes..] == payload[start + n + 1 + p.oidBytes..];
    }
  }

  /** The name and object behind a mode. */
  method ReadNamed(p: Policy, payload: seq<byte>, mode: seq<byte>, start: nat) returns (r: Option<Entry>, next: nat)
    requires start <= |payload|
    ensures Reports(ParseNamed(p, mode, payload[start..]), payload, r, next)
  {
    var n := FindFrom(payload, 0, start);
    NamedAt(p, payload, mode, start, n);
    r, next := None, start;
    if n > 0 && start + n + 1 + p.oidBytes <= |payload| {
      var e := Entry(mode, payload[start..start + n], payload[start + n + 1..start + n + 1 + p.oidBytes]);
      if EntryOk(p, e) { r, next := Some(e), start + n + 1 + p.oidBytes; }
    }
  }

  /** The scan: it succeeds exactly on printed lists of admissible entries, and reads the one list there is. */
  method ScanTreePayload(p: Policy, payload: seq<byte>) returns (ok: bool, ghost es: seq<Entry>)
    ensures ok <==> exists other :: Readable(p, payload, other)
    ensures forall other :: Readable(p, payload, other) ==> other == es
  {
    var offset := 0;
    es := [];
    while offset < |payload|
      invariant Scanned(p, payload, offset, es)
    {
      var entry, next := ReadEntry(p, payload, offset);
      ghost var more := if entry.None? then es else es + [entry.value];
      NextEntry(p, payload, offset, es, next, more);
      if entry.None? { return false, es; }
      offset, es := next, more;
    }
    forall other | Readable(p, payload, other) ensures other == es {
      ReadingIsUnique(p, es, [], other);
    }
    assert Readable(p, payload, es);
    ok := true;
  }

  lemma Advance(payload: seq<byte>, es: seq<Entry>, s: seq<byte>, e: Entry, rest: seq<byte>)
    requires payload == PrintAll(es) + s && s == Print(e) + rest
    ensures payload == PrintAll(es + [e]) + rest && payload[|payload| - |rest|..] == rest
  {
  }
}

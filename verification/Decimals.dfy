/** Canonical decimal numbers as ASCII bytes. */
module Decimals {
  import opened Contracts
  import opened Bytes

  predicate IsDigit(b: byte) {
    48 <= b <= 57
  }

  function Digits(n: nat): (s: seq<byte>)
    ensures |s| > 0 && forall i :: 0 <= i < |s| ==> IsDigit(s[i])
  {
    if n < 10 then [48 + n] else Digits(n / 10) + [48 + n % 10]
  }

  /** The decimal text of an integer. */
  function Decimal(v: int): (s: seq<byte>)
    ensures |s| > 0 && forall i :: 0 <= i < |s| ==> IsDigit(s[i]) || s[i] == 45
  {
    if v < 0 then [45] + Digits(-v) else Digits(v)
  }

  function NatOf(s: seq<byte>): Option<int> {
    if |s| == 0 || !IsDigit(s[|s| - 1]) then None
    else if |s| == 1 then Some(s[0] - 48)
    else
      match NatOf(s[..|s| - 1])
      case None => None
      case Some(front) => Some(front * 10 + s[|s| - 1] - 48)
  }

  /**
    The value of a signed run of digits.  Python's int accepts more spellings; none of them is the decimal
    text of its value, which every caller demands.
   */
  function IntOf(s: seq<byte>): Option<int> {
    if |s| > 0 && s[0] == 45 then
      match NatOf(s[1..])
      case None => None
      case Some(n) => Some(-n)
    else
      match NatOf(s)
      case None => None
      case Some(n) => Some(n)
  }

  lemma {:induction false} NatOfDigits(n: nat)
    ensures NatOf(Digits(n)) == Some(n)
  {
    if n >= 10 {
      NatOfDigits(n / 10);
      assert Digits(n)[..|Digits(n)| - 1] == Digits(n / 10);
    }
  }

  lemma IntOfDecimal(v: int)
    ensures IntOf(Decimal(v)) == Some(v)
  {
    NatOfDigits(if v < 0 then -v else v);
    if v < 0 { assert Decimal(v)[1..] == Digits(-v); }
  }

  /** The canonical reader: a text is read as v exactly when it is the decimal text of v. */
  function ReadDecimal(s: seq<byte>): Option<int> {
    match IntOf(s)
    case None => None
    case Some(v) => if Decimal(v) == s then Some(v) else None
  }

  lemma ReadsExactly(s: seq<byte>, v: int)
    ensures ReadDecimal(s) == Some(v) <==> s == Decimal(v)
  {
    IntOfDecimal(v);
  }

  /** The first position of a byte, or the length when it is absent. */
  function Find(s: seq<byte>, b: byte): (n: nat)
    ensures n <= |s| && (n < |s| ==> s[n] == b)
  {
    if |s| == 0 || s[0] == b then 0 else 1 + Find(s[1..], b)
  }

  lemma {:induction false} FindsFirst(s: seq<byte>, b: byte)
    ensures b !in s[..Find(s, b)]
  {
    if |s| > 0 && s[0] != b {
      FindsFirst(s[1..], b);
      var n := Find(s[1..], b);
      assert s[..n + 1] == [s[0]] + s[1..][..n];
    }
  }

  lemma {:induction false} FindAfter(a: seq<byte>, b: byte, rest: seq<byte>)
    requires b !in a
    ensures Find(a + [b] + rest, b) == |a|
  {
    if |a| > 0 {
      assert (a + [b] + rest)[1..] == a[1..] + [b] + rest;
      FindAfter(a[1..], b, rest);
    } else {
      assert (a + [b] + rest)[0] == b;
    }
  }

  /** The text in front of and behind the first occurrence of a separator. */
  function SplitAt(s: seq<byte>, b: byte): (r: Option<(seq<byte>, seq<byte>)>)
    ensures r.Some? ==> |r.value.0| + 1 + |r.value.1| == |s|
  {
    var n := Find(s, b);
    if n >= |s| then None else Some((s[..n], s[n + 1..]))
  }

  lemma SplitSound(s: seq<byte>, b: byte)
    ensures SplitAt(s, b).Some? ==>
      s == SplitAt(s, b).value.0 + [b] + SplitAt(s, b).value.1 && b !in SplitAt(s, b).value.0
  {
    FindsFirst(s, b);
  }

  lemma SplitComplete(a: seq<byte>, b: byte, rest: seq<byte>)
    requires b !in a
    ensures SplitAt(a + [b] + rest, b) == Some((a, rest))
  {
    var s := a + [b] + rest;
    FindAfter(a, b, rest);
    assert s[..|a|] == a && s[|a| + 1..] == rest;
  }

  /** A split of the text behind an offset, from how far the separator is. */
  lemma SplitBehind(payload: seq<byte>, offset: nat, n: nat, start: nat, b: byte)
    requires offset + n <= |payload| && n == Find(payload[offset..], b) && start == offset + n + 1
    ensures offset + n == |payload| ==> SplitAt(payload[offset..], b) == None
    ensures start <= |payload| ==> SplitAt(payload[offset..], b) == Some((payload[offset..offset + n], payload[start..]))
  {
    var s := payload[offset..];
    if n < |s| { assert s[..n] == payload[offset..offset + n] && s[n + 1..] == payload[start..]; }
  }
}

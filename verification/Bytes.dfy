/** Byte strings: big-endian fields and length-prefixed frames, with their inverses. */
module Bytes {
  type byte = x: int | 0 <= x < 256

  function Power256(n: nat): (p: nat)
    ensures p > 0
  {
    if n == 0 then 1 else 256 * Power256(n - 1)
  }

  /** The n-byte big-endian encoding of v. */
  function BigEndian(n: nat, v: nat): (r: seq<byte>)
    ensures |r| == n
  {
    if n == 0 then [] else BigEndian(n - 1, v / 256) + [v % 256]
  }

  function Value(s: seq<byte>): (v: nat) {
    if s == [] then 0 else Value(s[..|s| - 1]) * 256 + s[|s| - 1]
  }

  lemma {:induction false} ValueOfBigEndian(n: nat, v: nat)
    requires v < Power256(n)
    ensures Value(BigEndian(n, v)) == v
  {
    if n > 0 {
      assert BigEndian(n, v)[..n - 1] == BigEndian(n - 1, v / 256);
      ValueOfBigEndian(n - 1, v / 256);
    }
  }

  lemma {:induction false} BigEndianOfValue(s: seq<byte>)
    ensures Value(s) < Power256(|s|) && BigEndian(|s|, Value(s)) == s
  {
    if s != [] {
      var front := s[..|s| - 1];
      BigEndianOfValue(front);
      assert Value(s) / 256 == Value(front) && Value(s) % 256 == s[|s| - 1];
      assert s == front + [s[|s| - 1]];
    }
  }

  const LIMIT64 := Power256(8)

  /** A value behind its eight-byte length. */
  function Frame(s: seq<byte>): seq<byte> {
    BigEndian(8, |s|) + s
  }

  /** Frames are self-delimiting: whatever follows them, they can be told apart. */
  lemma FrameSplits(a: seq<byte>, x: seq<byte>, b: seq<byte>, y: seq<byte>)
    requires |a| < LIMIT64 && |b| < LIMIT64 && Frame(a) + x == Frame(b) + y
    ensures a == b && x == y
  {
    assert BigEndian(8, |a|) == (Frame(a) + x)[..8] == (Frame(b) + y)[..8] == BigEndian(8, |b|);
    ValueOfBigEndian(8, |a|);
    ValueOfBigEndian(8, |b|);
    assert a == (Frame(a) + x)[8..8 + |a|] && b == (Frame(b) + y)[8..8 + |b|];
    assert x == (Frame(a) + x)[8 + |a|..] && y == (Frame(b) + y)[8 + |b|..];
  }

  /** The concatenated frames of a list of components. */
  function Frames(parts: seq<seq<byte>>): seq<byte> {
    if parts == [] then [] else Frame(parts[0]) + Frames(parts[1..])
  }

  lemma {:induction false} FramesSplit(a: seq<seq<byte>>, b: seq<seq<byte>>)
    requires |a| == |b| && Frames(a) == Frames(b)
    requires forall i :: 0 <= i < |a| ==> |a[i]| < LIMIT64
    requires forall i :: 0 <= i < |b| ==> |b[i]| < LIMIT64
    ensures a == b
  {
    if a != [] {
      FrameSplits(a[0], Frames(a[1..]), b[0], Frames(b[1..]));
      FramesSplit(a[1..], b[1..]);
      assert a == [a[0]] + a[1..] && b == [b[0]] + b[1..];
    }
  }
}

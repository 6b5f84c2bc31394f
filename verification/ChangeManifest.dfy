/**
  The manifest of changed content: the same length-framed record list computed once from the worktree
  and once from a commit, its unique decodability, and what agreement of the two means.
 */
module ChangeManifest {
  import opened Contracts
  import opened Bytes
  import opened StableSorting

  type Path = seq<byte>

  datatype File = File(mode: seq<byte>, payload: seq<byte>)

  type Snapshot = map<Path, File>

  datatype Record = Record(path: Path, present: bool, file: File)

  /** The rank of each path's case folding among the foldings of a run, in code point order. */
  type Folding = Path -> int

  // ---------------------------------------------------------------- what a scan computes

  predicate Recordable(base: Snapshot, now: Snapshot, ps: seq<Path>) {
    forall i :: 0 <= i < |ps| ==> ps[i] in now || ps[i] in base
  }

  /** A present path with its content, or a deleted one with the content it had. */
  function RecordOf(base: Snapshot, now: Snapshot, p: Path): Record
    requires p in now || p in base
  {
    if p in now then Record(p, true, now[p]) else Record(p, false, base[p])
  }

  function Records(base: Snapshot, now: Snapshot, ps: seq<Path>): (rs: seq<Record>)
    requires Recordable(base, now, ps)
    ensures |rs| == |ps| && forall i :: 0 <= i < |ps| ==> rs[i] == RecordOf(base, now, ps[i])
  {
    seq(|ps|, i requires 0 <= i < |ps| => RecordOf(base, now, ps[i]))
  }

  function Size(rs: seq<Record>): nat {
    if |rs| == 0 then 0 else Size(rs[..|rs| - 1]) + |rs[|rs| - 1].file.payload|
  }

  lemma {:induction false} SizeGrows(rs: seq<Record>, n: nat)
    requires n <= |rs|
    ensures Size(rs[..n]) <= Size(rs)
  {
    if n < |rs| {
      SizeGrows(rs[..|rs| - 1], n);
      assert rs[..|rs| - 1][..n] == rs[..n];
    } else {
      assert rs[..n] == rs;
    }
  }

  /** The records of the first n paths are collected, within the budget, and none was refused. */
  ghost predicate Collected(base: Snapshot, now: Snapshot, order: seq<Path>, refused: Record -> bool, n: nat, rs: seq<Record>) {
    && n <= |order| && Recordable(base, now, order[..n]) && rs == Records(base, now, order[..n])
    && forall i :: 0 <= i < n ==> !refused(RecordOf(base, now, order[i]))
  }

  lemma CollectOne(base: Snapshot, now: Snapshot, order: seq<Path>, refused: Record -> bool, n: nat, m: nat, rs: seq<Record>, r: Record)
    requires Collected(base, now, order, refused, n, rs) && m == n + 1 <= |order| && (order[n] in now || order[n] in base)
    requires r == RecordOf(base, now, order[n]) && !refused(r)
    ensures Collected(base, now, order, refused, m, rs + [r])
    ensures Size(rs + [r]) == Size(rs) + |r.file.payload|
  {
  }

  lemma CollectedIsPrefix(base: Snapshot, now: Snapshot, order: seq<Path>, refused: Record -> bool, n: nat, rs: seq<Record>)
    requires Collected(base, now, order, refused, n, rs)
    ensures Recordable(base, now, order) ==> Size(rs) <= Size(Records(base, now, order))
    ensures n == |order| ==> Recordable(base, now, order) && rs == Records(base, now, order)
  {
    if Recordable(base, now, order) {
      assert Records(base, now, order)[..n] == rs;
      SizeGrows(Records(base, now, order), n);
    }
    if n == |order| { assert order[..n] == order; }
  }

  /** The listing without later repetitions. */
  function Unique(ps: seq<Path>): seq<Path> {
    if |ps| == 0 then []
    else
      var front := Unique(ps[..|ps| - 1]);
      if ps[|ps| - 1] in front then front else front + [ps[|ps| - 1]]
  }

  lemma {:induction false} UniqueMembers(ps: seq<Path>, p: Path)
    ensures p in Unique(ps) <==> p in ps
  {
    if |ps| > 0 {
      UniqueMembers(ps[..|ps| - 1], p);
      UniqueMembers(ps[..|ps| - 1], ps[|ps| - 1]);
      assert p in ps <==> p in ps[..|ps| - 1] || p == ps[|ps| - 1];
    }
  }

  predicate NoRepetition(ps: seq<Path>) {
    forall i, j :: 0 <= i < j < |ps| ==> ps[i] != ps[j]
  }

  lemma {:induction false} UniqueGrows(ps: seq<Path>, n: nat)
    requires n <= |ps|
    ensures |Unique(ps[..n])| <= |Unique(ps)|
  {
    if n < |ps| {
      UniqueGrows(ps[..|ps| - 1], n);
      assert ps[..|ps| - 1][..n] == ps[..n];
    } else {
      assert ps[..n] == ps;
    }
  }

  /** The records of one ordered listing; none once a path is refused or the byte budget is exceeded. */
  method Collect(base: Snapshot, now: Snapshot, order: seq<Path>, maxBytes: nat, refused: Record -> bool)
    returns (r: Option<seq<Record>>)
    ensures r.Some? <==>
      Recordable(base, now, order) && Size(Records(base, now, order)) <= maxBytes
      && forall i :: 0 <= i < |order| ==> !refused(RecordOf(base, now, order[i]))
    ensures r.Some? ==> r.value == Records(base, now, order)
  {
    var rs: seq<Record>, n, count := [], 0, |order|;
    var remaining: nat := maxBytes;
    while n != count
      invariant 0 <= n <= count == |order| && Size(rs) + remaining == maxBytes
      invariant Collected(base, now, order, refused, n, rs) == true
      decreases count - n
    {
      var p, m := order[n], n + 1;
      if p !in now && p !in base { return None; }
      var record := if p in now then Record(p, true, now[p]) else Record(p, false, base[p]);
      if refused(record) { return None; }
      CollectOne(base, now, order, refused, n, m, rs, record);
      CollectedIsPrefix(base, now, order, refused, m, rs + [record]);
      if |record.file.payload| > remaining { return None; }
      remaining := remaining - |record.file.payload|;
      rs, n := rs + [record], m;
    }
    CollectedIsPrefix(base, now, order, refused, n, rs);
    return Some(rs);
  }

  /** The scan of the worktree: tracked changes, then untracked files, repetitions dropped, sorted by folding. */
  method ScanChangedContent(fold: Folding, head: Snapshot, worktree: Snapshot, tracked: seq<Path>, untracked: seq<Path>,
                            maxBytes: nat, maxFiles: nat, refused: Record -> bool)
    returns (r: Option<seq<Record>>)
    ensures var order := StableSort(fold, Unique(tracked + untracked));
      && (r.Some? <==>
            |Unique(tracked + untracked)| <= maxFiles && Recordable(head, worktree, order)
            && Size(Records(head, worktree, order)) <= maxBytes
            && forall i :: 0 <= i < |order| ==> !refused(RecordOf(head, worktree, order[i])))
      && (r.Some? ==> r.value == Records(head, worktree, order))
  {
    var listed := tracked + untracked;
    var paths, n := [], 0;
    while n < |listed|
      invariant 0 <= n <= |listed| && paths == Unique(listed[..n]) && |paths| <= maxFiles
    {
      assert listed[..n + 1][..n] == listed[..n];
      if listed[n] !in paths { paths := paths + [listed[n]]; }
      n := n + 1;
      UniqueGrows(listed, n);
      if |paths| > maxFiles { return None; }
    }
    assert listed[..n] == listed;
    r := Collect(head, worktree, StableSort(fold, paths), maxBytes, refused);
  }

  /** The scan of a commit against its parent; a repeated path is an error here. */
  method ScanCommitChangedContent(fold: Folding, old_: Snapshot, new_: Snapshot, paths: seq<Path>, maxBytes: nat, maxFiles: nat)
    returns (r: Option<seq<Record>>)
    ensures var order := StableSort(fold, paths);
      && (r.Some? <==>
            |paths| <= maxFiles && NoRepetition(paths) && Recordable(old_, new_, order)
            && Size(Records(old_, new_, order)) <= maxBytes)
      && (r.Some? ==> r.value == Records(old_, new_, order))
  {
    var distinct := set p | p in paths;
    NoRepetitionCounts(paths);
    if |paths| > maxFiles || |distinct| != |paths| { return None; }
    r := Collect(old_, new_, StableSort(fold, paths), maxBytes, record => false);
  }

  lemma {:induction false} NoRepetitionCounts(ps: seq<Path>)
    ensures |set p | p in ps| <= |ps|
    ensures NoRepetition(ps) <==> |set p | p in ps| == |ps|
  {
    if |ps| > 0 {
      var front, last := ps[..|ps| - 1], ps[|ps| - 1];
      NoRepetitionCounts(front);
      assert (set p | p in ps) == (set p | p in front) + {last};
      assert NoRepetition(ps) <==> NoRepetition(front) && last !in front;
    }
  }

  // ---------------------------------------------------------------- agreement of the two scans

  lemma SortMembers(fold: Folding, ps: seq<Path>, p: Path)
    ensures p in StableSort(fold, ps) <==> p in ps
  {
    SortIsStable(fold, ps, fold(p));
    WithKeyMembers(fold, fold(p), ps, p);
    WithKeyMembers(fold, fold(p), StableSort(fold, ps), p);
  }

  /** The commit holds on the listed paths what the worktree holds there. */
  predicate SameContent(worktree: Snapshot, commit: Snapshot, ps: seq<Path>) {
    forall p :: p in ps ==> (p in worktree <==> p in commit) && (p in worktree ==> worktree[p] == commit[p])
  }

  /**
    When the commit holds the worktree's content, the two manifests are equal exactly when, for every
    case folding, both listings have the same paths of that folding in the same order.
   */
  lemma ScansAgree(fold: Folding, base: Snapshot, worktree: Snapshot, commit: Snapshot, a: seq<Path>, b: seq<Path>)
    requires Recordable(base, worktree, StableSort(fold, a)) && Recordable(base, commit, StableSort(fold, b))
    requires SameContent(worktree, commit, a)
    ensures Records(base, worktree, StableSort(fold, a)) == Records(base, commit, StableSort(fold, b))
            <==> forall key :: Alike(fold, key, a, b)
  {
    var sa, sb := StableSort(fold, a), StableSort(fold, b);
    var ra, rb := Records(base, worktree, sa), Records(base, commit, sb);
    SortsAlike(fold, a, b);
    if ra == rb {
      forall i | 0 <= i < |sa| ensures sa[i] == sb[i] { assert ra[i].path == sa[i] && rb[i].path == sb[i]; }
    } else if sa == sb {
      forall i | 0 <= i < |sa| ensures ra[i] == rb[i] { SortMembers(fold, a, sa[i]); }
    }
  }

  /** Distinct foldings suffice: then the two scans of the same content agree whenever both return. */
  lemma DistinctFoldingsAgree(fold: Folding, base: Snapshot, worktree: Snapshot, commit: Snapshot, a: seq<Path>, b: seq<Path>)
    requires Recordable(base, worktree, StableSort(fold, a)) && Recordable(base, commit, StableSort(fold, b))
    requires SameContent(worktree, commit, a) && forall p :: p in a <==> p in b
    requires DistinctKeys(fold, a) && DistinctKeys(fold, b)
    ensures Records(base, worktree, StableSort(fold, a)) == Records(base, commit, StableSort(fold, b))
  {
    DistinctSortAlike(fold, a, b);
    SortsAlike(fold, a, b);
    ScansAgree(fold, base, worktree, commit, a, b);
  }

  lemma {:induction false} UniqueHasNoRepetition(ps: seq<Path>)
    ensures NoRepetition(Unique(ps))
  {
    if |ps| > 0 { UniqueHasNoRepetition(ps[..|ps| - 1]); }
  }

  /**
    The scan of a worktree and the scan of a commit that holds the same change: with one path per folding,
    and whichever paths were tracked, untracked or listed twice, both return the same manifest.
   */
  lemma ScansOfOneChangeAgree(fold: Folding, base: Snapshot, worktree: Snapshot, commit: Snapshot,
                              tracked: seq<Path>, untracked: seq<Path>, listed: seq<Path>)
    requires NoRepetition(listed) && (forall p :: p in tracked + untracked <==> p in listed)
    requires forall p, q :: p in listed && q in listed && fold(p) == fold(q) ==> p == q
    requires SameContent(worktree, commit, listed)
    requires Recordable(base, worktree, StableSort(fold, Unique(tracked + untracked)))
    requires Recordable(base, commit, StableSort(fold, listed))
    ensures Records(base, worktree, StableSort(fold, Unique(tracked + untracked))) == Records(base, commit, StableSort(fold, listed))
  {
    var a := Unique(tracked + untracked);
    forall p ensures p in a <==> p in listed { UniqueMembers(tracked + untracked, p); }
    UniqueHasNoRepetition(tracked + untracked);
    assert forall i :: 0 <= i < |a| ==> a[i] in listed;
    DistinctFoldingsAgree(fold, base, worktree, commit, a, listed);
  }

  lemma SortOfTwo(fold: Folding, a: Path, b: Path)
    requires fold(a) == fold(b)
    ensures StableSort(fold, [a, b]) == [a, b]
  {
    var both := [a, b];
    assert both[1..] == [b] && StableSort(fold, [b]) == [b];
  }

  lemma UniqueOfTwo(a: Path, b: Path)
    requires a != b
    ensures Unique([a] + [b]) == [a, b]
  {
    var both := [a] + [b];
    assert both[..1] == [a] && [a][..0] == [];
    assert Unique([a]) == [a];
  }

  /** Two paths of one folding, one tracked and one untracked, can make the scans of equal content differ. */
  lemma CollidingFoldingsDiffer(fold: Folding, file: File, upper: Path, lower: Path)
    requires upper != lower && fold(upper) == fold(lower)
    ensures var now: Snapshot := map[upper := file, lower := file];
      && StableSort(fold, Unique([lower] + [upper])) == [lower, upper] && StableSort(fold, [upper, lower]) == [upper, lower]
      && Records(map[], now, [lower, upper]) != Records(map[], now, [upper, lower])
  {
    UniqueOfTwo(lower, upper);
    SortOfTwo(fold, lower, upper);
    SortOfTwo(fold, upper, lower);
    var now: Snapshot := map[upper := file, lower := file];
    assert Records(map[], now, [lower, upper])[0].path == lower;
    assert Records(map[], now, [upper, lower])[0].path == upper;
  }

  // ---------------------------------------------------------------- what an approved manifest pins down

  /** The base with the listed paths as they are in the worktree. */
  function Overlay(base: Snapshot, now: Snapshot, ps: seq<Path>): Snapshot {
    map p | p in base.Keys + now.Keys && (if p in ps then p in now else p in base) :: if p in ps then now[p] else base[p]
  }

  predicate ListsChanges(base: Snapshot, now: Snapshot, ps: seq<Path>) {
    forall p :: p in base.Keys + now.Keys && p !in ps ==> p in base && p in now && base[p] == now[p]
  }

  /**
    A commit whose manifest over its base is the manifest that was approved for the worktree is, byte for
    byte and mode for mode, the base with exactly the approved changes.
   */
  lemma ApprovedManifestPinsTree(base: Snapshot, worktree: Snapshot, commit: Snapshot, a: seq<Path>, b: seq<Path>)
    requires Recordable(base, worktree, a) && Recordable(base, commit, b) && ListsChanges(base, commit, b)
    requires Records(base, worktree, a) == Records(base, commit, b)
    ensures commit == Overlay(base, worktree, a)
  {
  }

  // ---------------------------------------------------------------- the hashed bytes

  const PRESENT: seq<byte> := [112, 114, 101, 115, 101, 110, 116]
  const DELETED: seq<byte> := [100, 101, 108, 101, 116, 101, 100]

  /** A digest has 32 bytes. */
  ghost predicate Sized(hash: seq<byte> -> seq<byte>) {
    forall x :: |hash(x)| == 32
  }

  predicate Framable(r: Record) {
    |r.path| < LIMIT64 && |r.file.mode| < LIMIT64 && |r.file.payload| < LIMIT64
  }

  function Encode(hash: seq<byte> -> seq<byte>, r: Record): seq<byte> {
    Frame(r.path) + Frame(State(r)) + Frame(r.file.mode) + BigEndian(8, |r.file.payload|) + hash(r.file.payload)
  }

  function Preimage(hash: seq<byte> -> seq<byte>, rs: seq<Record>): seq<byte> {
    if |rs| == 0 then [] else Encode(hash, rs[0]) + Preimage(hash, rs[1..])
  }

  function State(r: Record): seq<byte> {
    if r.present then PRESENT else DELETED
  }

  function Tail(hash: seq<byte> -> seq<byte>, payload: seq<byte>, x: seq<byte>): seq<byte> {
    BigEndian(8, |payload|) + hash(payload) + x
  }

  lemma TailSplits(hash: seq<byte> -> seq<byte>, p: seq<byte>, x: seq<byte>, q: seq<byte>, y: seq<byte>)
    requires Sized(hash) && |p| < LIMIT64 && |q| < LIMIT64 && Tail(hash, p, x) == Tail(hash, q, y)
    ensures |p| == |q| && hash(p) == hash(q) && x == y
  {
    var t, u := Tail(hash, p, x), Tail(hash, q, y);
    assert |hash(p)| == 32 && |hash(q)| == 32;
    assert BigEndian(8, |p|) == t[..8] && BigEndian(8, |q|) == u[..8];
    ValueOfBigEndian(8, |p|);
    ValueOfBigEndian(8, |q|);
    assert hash(p) == t[8..40] && hash(q) == u[8..40];
    assert x == t[40..] && y == u[40..];
  }

  lemma EncodeShape(hash: seq<byte> -> seq<byte>, r: Record, x: seq<byte>)
    ensures Encode(hash, r) + x
            == Frame(r.path) + (Frame(State(r)) + (Frame(r.file.mode) + Tail(hash, r.file.payload, x)))
  {
  }

  lemma StatesFit(r: Record)
    ensures |State(r)| < LIMIT64 && State(r)[0] == if r.present then 112 else 100
  {
  }

  /** Two records that the manifest bytes cannot tell apart. */
  predicate SameShown(hash: seq<byte> -> seq<byte>, r: Record, s: Record) {
    && r.path == s.path && r.present == s.present && r.file.mode == s.file.mode
    && |r.file.payload| == |s.file.payload| && hash(r.file.payload) == hash(s.file.payload)
  }

  /** An encoded record is self-delimiting, and shows everything of it but the bytes behind the payload digest. */
  lemma EncodeSplits(hash: seq<byte> -> seq<byte>, r: Record, x: seq<byte>, s: Record, y: seq<byte>)
    requires Sized(hash) && Framable(r) && Framable(s) && Encode(hash, r) + x == Encode(hash, s) + y
    ensures SameShown(hash, r, s) && x == y
  {
    EncodeShape(hash, r, x);
    EncodeShape(hash, s, y);
    StatesFit(r);
    StatesFit(s);
    var tr, ts := Tail(hash, r.file.payload, x), Tail(hash, s.file.payload, y);
    FrameSplits(r.path, Frame(State(r)) + (Frame(r.file.mode) + tr), s.path, Frame(State(s)) + (Frame(s.file.mode) + ts));
    FrameSplits(State(r), Frame(r.file.mode) + tr, State(s), Frame(s.file.mode) + ts);
    FrameSplits(r.file.mode, tr, s.file.mode, ts);
    TailSplits(hash, r.file.payload, x, s.file.payload, y);
  }

  predicate AllFramable(rs: seq<Record>) {
    forall i :: 0 <= i < |rs| ==> Framable(rs[i])
  }

  /** Equal hashed bytes mean, record by record, everything but the bytes behind equal payload digests. */
  lemma {:induction false} PreimageShows(hash: seq<byte> -> seq<byte>, rs: seq<Record>, ss: seq<Record>)
    requires Sized(hash) && AllFramable(rs) && AllFramable(ss)
    ensures Preimage(hash, rs) == Preimage(hash, ss) <==>
              |rs| == |ss| && forall i :: 0 <= i < |rs| ==> SameShown(hash, rs[i], ss[i])
  {
    if |rs| > 0 && |ss| > 0 {
      PreimageShows(hash, rs[1..], ss[1..]);
      if Preimage(hash, rs) == Preimage(hash, ss) {
        EncodeSplits(hash, rs[0], Preimage(hash, rs[1..]), ss[0], Preimage(hash, ss[1..]));
        forall i | 0 <= i < |rs| ensures SameShown(hash, rs[i], ss[i]) {
          if i > 0 { assert rs[i] == rs[1..][i - 1] && ss[i] == ss[1..][i - 1]; }
        }
      }
      if |rs| == |ss| && forall i :: 0 <= i < |rs| ==> SameShown(hash, rs[i], ss[i]) {
        assert SameShown(hash, rs[0], ss[0]) && Encode(hash, rs[0]) == Encode(hash, ss[0]);
        assert forall i :: 0 <= i < |rs[1..]| ==> rs[1..][i] == rs[i + 1] && ss[1..][i] == ss[i + 1];
      }
    } else {
      EncodedNotEmpty(hash, rs);
      EncodedNotEmpty(hash, ss);
    }
  }

  lemma EncodedNotEmpty(hash: seq<byte> -> seq<byte>, rs: seq<Record>)
    ensures Preimage(hash, rs) == [] <==> rs == []
  {
  }

  /** No payload of one list collides with a different payload of the other. */
  predicate CollisionFree(hash: seq<byte> -> seq<byte>, rs: seq<Record>, ss: seq<Record>) {
    forall i, j :: 0 <= i < |rs| && 0 <= j < |ss| && hash(rs[i].file.payload) == hash(ss[j].file.payload) ==>
      rs[i].file.payload == ss[j].file.payload
  }

  /** Without a collision among the payloads at hand, the hashed bytes are equal exactly for equal record lists. */
  lemma PreimageIsDecodable(hash: seq<byte> -> seq<byte>, rs: seq<Record>, ss: seq<Record>)
    requires Sized(hash) && CollisionFree(hash, rs, ss) && AllFramable(rs) && AllFramable(ss)
    ensures Preimage(hash, rs) == Preimage(hash, ss) <==> rs == ss
  {
    PreimageShows(hash, rs, ss);
    if Preimage(hash, rs) == Preimage(hash, ss) {
      forall i | 0 <= i < |rs| ensures rs[i] == ss[i] { assert SameShown(hash, rs[i], ss[i]); }
    }
  }

  // ---------------------------------------------------------------- such digests exist

  function Position(payloads: seq<seq<byte>>, x: seq<byte>): (n: nat)
    ensures n <= |payloads| && (x in payloads ==> n < |payloads| && payloads[n] == x)
  {
    if |payloads| == 0 || payloads[0] == x then 0 else 1 + Position(payloads[1..], x)
  }

  /** Numbering the payloads of a run. */
  function Numbering(payloads: seq<seq<byte>>): seq<byte> -> seq<byte> {
    x => BigEndian(32, Position(payloads, x))
  }

  function Payloads(rs: seq<Record>): (ps: seq<seq<byte>>)
    ensures |ps| == |rs| && forall i :: 0 <= i < |rs| ==> ps[i] == rs[i].file.payload
  {
    seq(|rs|, i requires 0 <= i < |rs| => rs[i].file.payload)
  }

  lemma NumberingSeparates(payloads: seq<seq<byte>>, x: seq<byte>, y: seq<byte>)
    requires x in payloads && y in payloads && |payloads| < Power256(32) && Numbering(payloads)(x) == Numbering(payloads)(y)
    ensures x == y
  {
    ValueOfBigEndian(32, Position(payloads, x));
    ValueOfBigEndian(32, Position(payloads, y));
  }

  lemma FreeAmongPayloads(hash: seq<byte> -> seq<byte>, rs: seq<Record>, ss: seq<Record>)
    requires forall x, y :: x in Payloads(rs) && y in Payloads(ss) && hash(x) == hash(y) ==> x == y
    ensures CollisionFree(hash, rs, ss)
  {
    assert forall i :: 0 <= i < |rs| ==> Payloads(rs)[i] == rs[i].file.payload;
    assert forall j :: 0 <= j < |ss| ==> Payloads(ss)[j] == ss[j].file.payload;
  }

  /** For any two manifests of realistic length there is a 32-byte digest without a collision among their payloads. */
  lemma CollisionFreeDigestExists(rs: seq<Record>, ss: seq<Record>)
    requires |rs| + |ss| < Power256(32)
    ensures exists hash :: Sized(hash) && CollisionFree(hash, rs, ss)
  {
    var all := Payloads(rs) + Payloads(ss);
    var hash := Numbering(all);
    forall x, y | x in Payloads(rs) && y in Payloads(ss) && hash(x) == hash(y) ensures x == y {
      NumberingSeparates(all, x, y);
    }
    FreeAmongPayloads(hash, rs, ss);
    assert Sized(hash);
  }
}

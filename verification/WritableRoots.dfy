/** The writable-mount inventory: roots reduced to an antichain, and a stack scan that counts every file once. */
module WritableRoots {
  import opened Contracts
  import opened StableSorting

  /** An absolute path as its parts. */
  type Path = seq<string>

  datatype Kind = Directory | Regular(size: nat, links: nat) | Special

  /** The file system as the scan finds it. */
  type Disk = map<Path, Kind>

  predicate IsDirectory(d: Disk, p: Path) {
    p in d && d[p].Directory?
  }

  /** Everything on the disk lies in a directory on the disk, except a root of the disk. */
  predicate Rooted(d: Disk) {
    forall p, n :: p in d && 0 <= n < |p| && p[..n] in d ==> IsDirectory(d, p[..n]) && p[..n + 1] in d
  }

  predicate IsFile(d: Disk, p: Path) {
    p in d && !d[p].Directory?
  }

  predicate Below(p: Path, root: Path) {
    root <= p
  }

  predicate BelowSome(p: Path, roots: seq<Path>) {
    exists i :: 0 <= i < |roots| && Below(p, roots[i])
  }

  predicate Antichain(roots: seq<Path>) {
    forall i, j :: 0 <= i < |roots| && 0 <= j < |roots| && i != j ==> !Below(roots[i], roots[j])
  }

  function Depth(p: Path): int {
    |p|
  }

  // ---------------------------------------------------------------- roots

  lemma {:induction false} SortedBefore(ps: seq<Path>, i: nat, j: nat)
    requires Sorted(Depth, ps) && i <= j < |ps|
    ensures |ps[i]| <= |ps[j]|
  {
    if i > 0 {
      SortedBefore(ps[1..], i - 1, j - 1);
    } else if j > 0 {
      SortedBefore(ps[1..], 0, j - 1);
    }
  }

  /** Shortest first, each root that no accepted root already covers. */
  method PrepareRoots(raw: seq<Path>) returns (roots: seq<Path>)
    ensures Antichain(roots)
    ensures forall p :: BelowSome(p, roots) <==> BelowSome(p, raw)
  {
    var candidates := StableSort(Depth, raw);
    SortIsStable(Depth, raw, 0);
    forall p ensures p in candidates <==> p in raw {
      SortIsStable(Depth, raw, |p|);
      WithKeyMembers(Depth, |p|, raw, p);
      WithKeyMembers(Depth, |p|, candidates, p);
    }
    roots := [];
    var n := 0;
    while n < |candidates|
      invariant 0 <= n <= |candidates| && Antichain(roots)
      invariant forall r :: r in roots ==> r in candidates[..n]
      invariant forall c :: c in candidates[..n] ==> BelowSome(c, roots)
    {
      var candidate := candidates[n];
      if !BelowSome(candidate, roots) {
        forall i | 0 <= i < |roots| ensures !Below(candidate, roots[i]) && !Below(roots[i], candidate) {
          assert roots[i] in candidates[..n];
          var k :| 0 <= k < n && candidates[k] == roots[i];
          SortedBefore(candidates, k, n);
        }
        ghost var before := roots;
        roots := roots + [candidate];
        forall c | c in candidates[..n + 1] ensures BelowSome(c, roots) { StillBelow(c, before, candidate); }
      }
      n := n + 1;
    }
    assert candidates[..n] == candidates;
    forall p ensures BelowSome(p, roots) <==> BelowSome(p, raw) { SameBelow(p, raw, roots); }
  }

  lemma StillBelow(c: Path, before: seq<Path>, candidate: Path)
    requires BelowSome(c, before) || c == candidate
    ensures BelowSome(c, before + [candidate])
  {
    if c == candidate {
      assert Below(c, (before + [candidate])[|before|]);
    } else {
      var i :| 0 <= i < |before| && Below(c, before[i]);
      assert Below(c, (before + [candidate])[i]);
    }
  }

  lemma SameBelow(p: Path, raw: seq<Path>, roots: seq<Path>)
    requires forall r :: r in roots ==> r in raw
    requires forall c :: c in raw ==> BelowSome(c, roots)
    ensures BelowSome(p, roots) <==> BelowSome(p, raw)
  {
    if BelowSome(p, roots) {
      var i :| 0 <= i < |roots| && Below(p, roots[i]);
      assert roots[i] in raw;
      var j :| 0 <= j < |raw| && raw[j] == roots[i];
      assert Below(p, raw[j]);
    }
    if BelowSome(p, raw) {
      var i :| 0 <= i < |raw| && Below(p, raw[i]);
      assert raw[i] in raw && BelowSome(raw[i], roots);
      var j :| 0 <= j < |roots| && Below(raw[i], roots[j]);
      assert Below(p, roots[j]);
    }
  }

  // ---------------------------------------------------------------- scan

  predicate IsChild(d: Disk, dir: Path, p: Path) {
    p in d && |p| == |dir| + 1 && p[..|dir|] == dir
  }

  function Children(d: Disk, dir: Path): set<Path> {
    set p | p in d && IsChild(d, dir, p)
  }

  /** A file the inventory accepts. */
  predicate Plain(d: Disk, p: Path) {
    p in d && d[p].Regular? && d[p].links <= 1
  }

  function Bytes(d: Disk, files: seq<Path>): nat {
    if |files| == 0 then 0
    else Bytes(d, files[..|files| - 1]) + if Plain(d, files[|files| - 1]) then d[files[|files| - 1]].size else 0
  }

  lemma {:induction false} BytesOfBoth(d: Disk, a: seq<Path>, b: seq<Path>)
    ensures Bytes(d, a + b) == Bytes(d, a) + Bytes(d, b)
  {
    if |b| == 0 {
      assert a + b == a;
    } else {
      assert (a + b)[..|a + b| - 1] == a + b[..|b| - 1];
      BytesOfBoth(d, a, b[..|b| - 1]);
    }
  }

  predicate Distinct(ps: seq<Path>) {
    forall i, j :: 0 <= i < j < |ps| ==> ps[i] != ps[j]
  }

  /** One directory's listing: its child directories, and its files with their total size. */
  method ScanDirectory(d: Disk, dir: Path, before: nat, maxEntries: nat)
    returns (ok: bool, dirs: seq<Path>, bytes: nat, entries: nat, ghost files: seq<Path>)
    ensures ok ==>
      && Distinct(dirs) && (forall p :: p in dirs <==> IsChild(d, dir, p) && IsDirectory(d, p))
      && Distinct(files) && (forall p :: p in files <==> IsChild(d, dir, p) && IsFile(d, p))
      && (forall p :: p in files ==> Plain(d, p)) && bytes == Bytes(d, files)
      && entries == before + |Children(d, dir)| && (entries > before ==> entries <= maxEntries)
  {
    dirs, bytes, entries, files := [], 0, before, [];
    var rest := Children(d, dir);
    while rest != {}
      invariant rest <= Children(d, dir)
      invariant Distinct(dirs) && Distinct(files)
      invariant forall p :: p in dirs <==> p in Children(d, dir) && p !in rest && IsDirectory(d, p)
      invariant forall p :: p in files <==> p in Children(d, dir) && p !in rest && IsFile(d, p)
      invariant forall p :: p in files ==> Plain(d, p)
      invariant bytes == Bytes(d, files)
      invariant entries + |rest| == before + |Children(d, dir)| && (entries > before ==> entries <= maxEntries)
      decreases |rest|
    {
      var p :| p in rest;
      rest := rest - {p};
      entries := entries + 1;
      if entries > maxEntries { return false, dirs, bytes, entries, files; }
      var late: bool := Foreigner();
      if late { return false, dirs, bytes, entries, files; }
      match d[p]
      case Directory => dirs := dirs + [p];
      case Regular(size, links) =>
        if links > 1 { return false, dirs, bytes, entries, files; }
        BytesOfBoth(d, files, [p]);
        assert [p][..0] == [] && Bytes(d, [p]) == size;
        bytes := bytes + size;
        files := files + [p];
      case Special => return false, dirs, bytes, entries, files;
    }
    ok := true;
  }

  /** Files counted so far, and files still below the stack, are exactly the files below the root. */
  ghost predicate Progress(d: Disk, root: Path, stack: seq<Path>, counted: seq<Path>) {
    && Antichain(stack) && (forall i :: 0 <= i < |stack| ==> IsDirectory(d, stack[i]))
    && Distinct(counted) && (forall p :: p in counted ==> Plain(d, p) && !BelowSome(p, stack))
    && (forall p :: IsFile(d, p) ==> (Below(p, root) <==> p in counted || BelowSome(p, stack)))
    && (forall p :: p in counted ==> Below(p, root))
  }

  /** A file below a directory is one of its files, or below one of its child directories. */
  lemma FileBelow(d: Disk, dir: Path, dirs: seq<Path>, files: seq<Path>, p: Path)
    requires Rooted(d) && IsDirectory(d, dir) && IsFile(d, p)
    requires forall c :: c in dirs <==> IsChild(d, dir, c) && IsDirectory(d, c)
    requires forall c :: c in files <==> IsChild(d, dir, c) && IsFile(d, c)
    ensures Below(p, dir) <==> p in files || BelowSome(p, dirs)
  {
    if Below(p, dir) {
      var n := |dir|;
      assert p[..n] == dir && p != dir;
      var child := p[..n + 1];
      assert child in d && child[..n] == dir && IsChild(d, dir, child);
      if n + 1 < |p| {
        assert IsDirectory(d, p[..n + 1]);
        var i :| 0 <= i < |dirs| && dirs[i] == child;
        assert Below(p, dirs[i]);
      } else {
        assert child == p;
      }
    }
    if BelowSome(p, dirs) {
      var i :| 0 <= i < |dirs| && Below(p, dirs[i]);
      assert dirs[i] in dirs && dirs[i][..|dir|] == dir;
    }
  }

  lemma BelowEither(p: Path, a: seq<Path>, b: seq<Path>)
    ensures BelowSome(p, a + b) <==> BelowSome(p, a) || BelowSome(p, b)
  {
    if BelowSome(p, a) { var i :| 0 <= i < |a| && Below(p, a[i]); assert Below(p, (a + b)[i]); }
    if BelowSome(p, b) { var i :| 0 <= i < |b| && Below(p, b[i]); assert Below(p, (a + b)[|a| + i]); }
    if BelowSome(p, a + b) {
      var i :| 0 <= i < |a + b| && Below(p, (a + b)[i]);
      if i < |a| { assert Below(p, a[i]); } else { assert Below(p, b[i - |a|]); }
    }
  }

  /** What lies above or below a child lies above or below its directory, unless it is the child. */
  lemma AroundChild(d: Disk, dir: Path, child: Path, x: Path)
    requires IsChild(d, dir, child)
    ensures Below(x, child) ==> Below(x, dir)
    ensures Below(child, x) ==> Below(dir, x) || x == child
  {
  }

  lemma StillAntichain(d: Disk, rest: seq<Path>, dir: Path, dirs: seq<Path>)
    requires Antichain(rest + [dir]) && Distinct(dirs) && forall c :: c in dirs ==> IsChild(d, dir, c)
    ensures Antichain(rest + dirs)
  {
    var s := rest + dirs;
    var old_ := rest + [dir];
    forall i | 0 <= i < |rest| ensures !Below(rest[i], dir) && !Below(dir, rest[i]) {
      assert old_[i] == rest[i] && old_[|rest|] == dir;
    }
    forall i, j | 0 <= i < |s| && 0 <= j < |s| && i != j ensures !Below(s[i], s[j]) {
      if i < |rest| && j < |rest| {
        assert old_[i] == rest[i] && old_[j] == rest[j];
      } else if i < |rest| {
        assert s[j] in dirs;
        AroundChild(d, dir, s[j], s[i]);
      } else if j < |rest| {
        assert s[i] in dirs;
        AroundChild(d, dir, s[i], s[j]);
      } else {
        assert s[i] in dirs && s[j] in dirs && s[i] != s[j];
      }
    }
  }

  /** Popping a directory, counting its files and pushing its children keeps the books. */
  lemma Expand(d: Disk, root: Path, rest: seq<Path>, dir: Path, dirs: seq<Path>, files: seq<Path>, counted: seq<Path>)
    requires Rooted(d) && Progress(d, root, rest + [dir], counted)
    requires Distinct(dirs) && (forall c :: c in dirs <==> IsChild(d, dir, c) && IsDirectory(d, c))
    requires Distinct(files) && (forall c :: c in files <==> IsChild(d, dir, c) && IsFile(d, c))
    requires forall p :: p in files ==> Plain(d, p)
    ensures Progress(d, root, rest + dirs, counted + files)
  {
    StillAntichain(d, rest, dir, dirs);
    assert (rest + [dir])[|rest|] == dir;
    forall p | IsFile(d, p) ensures (p in counted || BelowSome(p, rest + [dir])) <==> (p in counted + files || BelowSome(p, rest + dirs)) {
      FileBelow(d, dir, dirs, files, p);
      BelowEither(p, rest, [dir]);
      BelowEither(p, rest, dirs);
      assert BelowSome(p, [dir]) <==> Below(p, dir) by { if Below(p, dir) { assert Below(p, [dir][0]); } }
    }
    forall p | p in counted + files ensures Plain(d, p) && !BelowSome(p, rest + dirs) { NotAgain(d, root, rest, dir, dirs, files, counted, p); }
    forall i | 0 <= i < |rest + dirs| ensures IsDirectory(d, (rest + dirs)[i]) {
      if i < |rest| { assert (rest + [dir])[i] == rest[i]; } else { assert dirs[i - |rest|] in dirs; }
    }
    assert Distinct(counted + files) by {
      forall i, j | 0 <= i < |counted| && 0 <= j < |files| ensures counted[i] != files[j] {
        assert files[j] in files && counted[i] in counted && Below(files[j], dir);
        BelowEither(files[j], rest, [dir]);
        assert Below(files[j], [dir][0]);
      }
    }
  }

  lemma NotAgain(d: Disk, root: Path, rest: seq<Path>, dir: Path, dirs: seq<Path>, files: seq<Path>, counted: seq<Path>, p: Path)
    requires Progress(d, root, rest + [dir], counted) && p in counted + files
    requires forall c :: c in dirs ==> IsChild(d, dir, c)
    requires forall c :: c in files ==> IsChild(d, dir, c) && IsFile(d, c) && Plain(d, c)
    requires forall c :: c in dirs ==> IsDirectory(d, c)
    ensures Plain(d, p) && !BelowSome(p, rest + dirs)
  {
    BelowEither(p, rest, [dir]);
    BelowEither(p, rest, dirs);
    if p in files {
      forall i | 0 <= i < |dirs| ensures !Below(p, dirs[i]) {
        assert dirs[i] in dirs;
        AroundChild(d, dir, p, dirs[i]);
      }
      forall i | 0 <= i < |rest| ensures !Below(p, rest[i]) {
        assert (rest + [dir])[i] == rest[i] && (rest + [dir])[|rest|] == dir;
        AroundChild(d, dir, p, rest[i]);
      }
    } else {
      forall i | 0 <= i < |dirs| ensures !Below(p, dirs[i]) {
        assert dirs[i] in dirs;
        AroundChild(d, dir, dirs[i], p);
        assert Below(p, [dir][0]) <==> Below(p, dir);
      }
    }
  }

  // ---------------------------------------------------------------- the whole inventory

  /** The entries still below the stack: what is left to visit. */
  ghost function Left(d: Disk, stack: seq<Path>): set<Path> {
    set p | p in d && BelowSome(p, stack)
  }

  lemma Shrinks(d: Disk, rest: seq<Path>, dir: Path, dirs: seq<Path>)
    requires Antichain(rest + [dir]) && dir in d && forall c :: c in dirs ==> IsChild(d, dir, c)
    ensures |Left(d, rest + dirs)| < |Left(d, rest + [dir])|
  {
    var a, b := Left(d, rest + dirs), Left(d, rest + [dir]);
    forall p | p in a ensures p in b {
      BelowEither(p, rest, dirs);
      BelowEither(p, rest, [dir]);
      if BelowSome(p, dirs) {
        var i :| 0 <= i < |dirs| && Below(p, dirs[i]);
        assert dirs[i] in dirs;
        AroundChild(d, dir, dirs[i], p);
        assert Below(p, [dir][0]);
      }
    }
    BelowEither(dir, rest, [dir]);
    BelowEither(dir, rest, dirs);
    assert Below(dir, [dir][0]);
    assert !BelowSome(dir, rest) by {
      forall i | 0 <= i < |rest| ensures !Below(dir, rest[i]) {
        assert (rest + [dir])[i] == rest[i] && (rest + [dir])[|rest|] == dir;
      }
    }
    assert !BelowSome(dir, dirs) by {
      forall i | 0 <= i < |dirs| ensures !Below(dir, dirs[i]) { assert dirs[i] in dirs; }
    }
    assert a <= b - {dir};
    Smaller(a, b - {dir});
  }

  lemma {:induction false} Smaller(a: set<Path>, b: set<Path>)
    requires a <= b
    ensures |a| <= |b|
  {
    if a != {} {
      var x :| x in a;
      Smaller(a - {x}, b - {x});
    }
  }

  /** The depth-first scan of one root. */
  method ScanRoot(d: Disk, root: Path, before: nat, maxEntries: nat)
    returns (ok: bool, total: nat, entries: nat, ghost counted: seq<Path>)
    requires Rooted(d)
    ensures ok ==>
      && IsDirectory(d, root) && Distinct(counted) && total == Bytes(d, counted)
      && (forall p :: p in counted <==> IsFile(d, p) && Below(p, root))
      && (forall p :: p in counted ==> Plain(d, p))
      && before <= entries && (entries > before ==> entries <= maxEntries)
  {
    total, entries, counted := 0, before, [];
    if !IsDirectory(d, root) { return false, total, entries, counted; }
    var stack := [root];
    assert Progress(d, root, stack, counted) by { OnlyRoot(d, root); }
    while stack != []
      invariant Progress(d, root, stack, counted) && total == Bytes(d, counted)
      invariant before <= entries && (entries > before ==> entries <= maxEntries)
      decreases |Left(d, stack)|
    {
      var late: bool := Foreigner();
      if late { return false, total, entries, counted; }
      var dir, rest := stack[|stack| - 1], stack[..|stack| - 1];
      assert stack == rest + [dir];
      var listed, dirs, bytes;
      ghost var files;
      ghost var soFar := entries;
      listed, dirs, bytes, entries, files := ScanDirectory(d, dir, entries, maxEntries);
      if !listed { return false, total, entries, counted; }
      Expand(d, root, rest, dir, dirs, files, counted);
      Shrinks(d, rest, dir, dirs);
      BytesOfBoth(d, counted, files);
      stack, total, counted := rest + dirs, total + bytes, counted + files;
    }
    ok := true;
  }

  lemma OnlyRoot(d: Disk, root: Path)
    requires IsDirectory(d, root)
    ensures Progress(d, root, [root], [])
  {
    forall p ensures BelowSome(p, [root]) <==> Below(p, root) { if Below(p, root) { assert Below(p, [root][0]); } }
  }

  /** These are the files below the raw roots, each once, all of them plain, and this is their total size. */
  ghost predicate Inventoried(d: Disk, raw: seq<Path>, files: seq<Path>, total: nat) {
    && Distinct(files) && total == Bytes(d, files)
    && (forall p :: p in files <==> IsFile(d, p) && BelowSome(p, raw))
    && (forall p :: p in files ==> Plain(d, p))
  }

  /**
    The inventory of raw roots: on a normal return it is the total size of the regular files below the raw
    roots, each counted exactly once, and there is nothing else below them but directories.
   */
  method Inventory(d: Disk, raw: seq<Path>, maxEntries: nat) returns (r: Option<nat>)
    requires Rooted(d)
    ensures r.Some? ==> exists files :: Inventoried(d, raw, files, r.value)
  {
    ghost var counted: seq<Path> := [];
    var roots := PrepareRoots(raw);
    var total, entries, n := 0, 0, 0;
    while n < |roots|
      invariant 0 <= n <= |roots| && total == Bytes(d, counted) && Distinct(counted)
      invariant forall p :: p in counted <==> IsFile(d, p) && BelowSome(p, roots[..n])
      invariant forall p :: p in counted ==> Plain(d, p)
    {
      var ok, bytes;
      ghost var files;
      ok, bytes, entries, files := ScanRoot(d, roots[n], entries, maxEntries);
      if !ok { return None; }
      OneMoreRoot(d, roots, n, counted, files);
      BytesOfBoth(d, counted, files);
      total, n := total + bytes, n + 1;
      counted := counted + files;
    }
    assert roots[..n] == roots;
    assert Inventoried(d, raw, counted, total);
    r := Some(total);
  }

  /** There is only one such total: the order in which files are met does not matter. */
  lemma TotalIsUnique(d: Disk, raw: seq<Path>, a: seq<Path>, m: nat, b: seq<Path>, n: nat)
    requires Inventoried(d, raw, a, m) && Inventoried(d, raw, b, n)
    ensures m == n
  {
    SameBytes(d, a, b);
  }

  lemma BytesWithout(d: Disk, s: seq<Path>, i: nat)
    requires i < |s|
    ensures Bytes(d, s) == Bytes(d, s[..i] + s[i + 1..]) + Bytes(d, [s[i]])
  {
    BytesOfBoth(d, s[..i], s[i + 1..]);
    BytesOfBoth(d, s[..i], [s[i]]);
    BytesOfBoth(d, s[..i] + [s[i]], s[i + 1..]);
    assert s == s[..i] + [s[i]] + s[i + 1..];
  }

  lemma {:induction false} SameBytes(d: Disk, a: seq<Path>, b: seq<Path>)
    requires Distinct(a) && Distinct(b) && forall p :: p in a <==> p in b
    ensures Bytes(d, a) == Bytes(d, b)
  {
    assert |b| > 0 ==> b[0] in b;
    if |a| > 0 {
      var last := |a| - 1;
      var front := a[..last];
      assert a[last] in b;
      var i :| 0 <= i < |b| && b[i] == a[last];
      var rest := b[..i] + b[i + 1..];
      BytesWithout(d, b, i);
      BytesWithout(d, a, last);
      assert a[..last] + a[last + 1..] == front;
      forall q ensures q in front <==> q in rest { WithoutOne(a, b, i, q); }
      WithoutOne(a, b, i, a[last]);
      SameBytes(d, front, rest);
    }
  }

  lemma WithoutOne(a: seq<Path>, b: seq<Path>, i: nat, q: Path)
    requires Distinct(a) && Distinct(b) && (forall p :: p in a <==> p in b) && i < |b| && |a| > 0 && b[i] == a[|a| - 1]
    ensures q in a[..|a| - 1] <==> q in b[..i] + b[i + 1..]
    ensures Distinct(b[..i] + b[i + 1..])
  {
    assert q in a <==> q in a[..|a| - 1] || q == a[|a| - 1];
    assert q in b <==> q in b[..i] || q == b[i] || q in b[i + 1..] by { assert b == b[..i] + [b[i]] + b[i + 1..]; }
  }

  lemma OneMoreRoot(d: Disk, roots: seq<Path>, n: nat, counted: seq<Path>, files: seq<Path>)
    requires n < |roots| && Antichain(roots) && Distinct(counted) && Distinct(files)
    requires forall p :: p in counted <==> IsFile(d, p) && BelowSome(p, roots[..n])
    requires forall p :: p in files <==> IsFile(d, p) && Below(p, roots[n])
    ensures Distinct(counted + files)
    ensures forall p :: p in counted + files <==> IsFile(d, p) && BelowSome(p, roots[..n + 1])
  {
    assert roots[..n + 1] == roots[..n] + [roots[n]];
    forall p ensures BelowSome(p, roots[..n + 1]) <==> BelowSome(p, roots[..n]) || Below(p, roots[n]) {
      BelowEither(p, roots[..n], [roots[n]]);
      if Below(p, roots[n]) { assert Below(p, [roots[n]][0]); }
    }
    forall i, j | 0 <= i < |counted| && 0 <= j < |files| ensures counted[i] != files[j] {
      assert counted[i] in counted && files[j] in files;
      var k :| 0 <= k < n && Below(counted[i], roots[k]);
      BelowBoth(counted[i], roots[k], roots[n]);
    }
  }

  lemma BelowBoth(p: Path, a: Path, b: Path)
    ensures Below(p, a) && Below(p, b) ==> Below(a, b) || Below(b, a)
  {
  }
}

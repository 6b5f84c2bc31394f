/** The stable sort by a rank, and when two listings sort alike. */
module StableSorting {
  /** Stable insertion of an earlier element: in front of every element whose rank is not smaller. */
  function Insert<P>(rank: P -> int, p: P, sorted: seq<P>): seq<P> {
    if |sorted| == 0 then [p]
    else if rank(sorted[0]) < rank(p) then [sorted[0]] + Insert(rank, p, sorted[1..])
    else [p] + sorted
  }

  /** The stable sort by rank. */
  function StableSort<P>(rank: P -> int, ps: seq<P>): seq<P> {
    if |ps| == 0 then [] else Insert(rank, ps[0], StableSort(rank, ps[1..]))
  }

  predicate Sorted<P>(rank: P -> int, ps: seq<P>) {
    |ps| <= 1 || (rank(ps[0]) <= rank(ps[1]) && Sorted(rank, ps[1..]))
  }

  /** The elements of one rank, in their order. */
  function WithKey<P>(rank: P -> int, key: int, ps: seq<P>): seq<P> {
    if |ps| == 0 then []
    else if rank(ps[0]) == key then [ps[0]] + WithKey(rank, key, ps[1..])
    else WithKey(rank, key, ps[1..])
  }

  lemma {:induction false} InsertSorts<P>(rank: P -> int, p: P, s: seq<P>)
    requires Sorted(rank, s)
    ensures Sorted(rank, Insert(rank, p, s))
    ensures Insert(rank, p, s)[0] == p || (s != [] && Insert(rank, p, s)[0] == s[0])
  {
    if s != [] && rank(s[0]) < rank(p) {
      InsertSorts(rank, p, s[1..]);
      assert Insert(rank, p, s)[1..] == Insert(rank, p, s[1..]);
    } else {
      assert Insert(rank, p, s)[1..] == s;
    }
  }

  lemma {:induction false} InsertKeepsKeys<P>(rank: P -> int, p: P, s: seq<P>, key: int)
    ensures WithKey(rank, key, Insert(rank, p, s)) == if rank(p) == key then [p] + WithKey(rank, key, s) else WithKey(rank, key, s)
  {
    if s != [] && rank(s[0]) < rank(p) {
      InsertKeepsKeys(rank, p, s[1..], key);
      Unfold(rank, key, s[0], Insert(rank, p, s[1..]));
      if rank(p) == key { assert rank(s[0]) != key; }
    } else {
      Unfold(rank, key, p, s);
    }
  }

  lemma Unfold<P>(rank: P -> int, key: int, p: P, s: seq<P>)
    ensures WithKey(rank, key, [p] + s) == if rank(p) == key then [p] + WithKey(rank, key, s) else WithKey(rank, key, s)
  {
  }

  /** The sort is sorted, and stable: elements of equal rank keep their order. */
  lemma {:induction false} SortIsStable<P>(rank: P -> int, ps: seq<P>, key: int)
    ensures Sorted(rank, StableSort(rank, ps))
    ensures WithKey(rank, key, StableSort(rank, ps)) == WithKey(rank, key, ps)
  {
    if ps != [] {
      SortIsStable(rank, ps[1..], key);
      InsertSorts(rank, ps[0], StableSort(rank, ps[1..]));
      InsertKeepsKeys(rank, ps[0], StableSort(rank, ps[1..]), key);
    }
  }

  lemma {:induction false} HeadIsLeast<P>(rank: P -> int, s: seq<P>, key: int)
    requires Sorted(rank, s) && WithKey(rank, key, s) != []
    ensures rank(s[0]) <= key
  {
    if rank(s[0]) != key {
      HeadIsLeast(rank, s[1..], key);
    }
  }

  lemma HeadsAgree<P>(rank: P -> int, a: seq<P>, b: seq<P>)
    requires Sorted(rank, a) && Sorted(rank, b) && a != [] && b != []
    requires WithKey(rank, rank(a[0]), a) == WithKey(rank, rank(a[0]), b)
    requires WithKey(rank, rank(b[0]), a) == WithKey(rank, rank(b[0]), b)
    ensures a[0] == b[0]
  {
    var ka, kb := rank(a[0]), rank(b[0]);
    assert WithKey(rank, ka, a)[0] == a[0] && WithKey(rank, kb, b)[0] == b[0];
    HeadIsLeast(rank, b, ka);
    HeadIsLeast(rank, a, kb);
  }

  /** Both listings have the same elements of one rank, in the same order. */
  ghost predicate Alike<P>(rank: P -> int, key: int, a: seq<P>, b: seq<P>) {
    WithKey(rank, key, a) == WithKey(rank, key, b)
  }

  lemma TailsAgree<P>(rank: P -> int, a: seq<P>, b: seq<P>, key: int)
    requires a != [] && b != [] && a[0] == b[0] && WithKey(rank, key, a) == WithKey(rank, key, b)
    ensures WithKey(rank, key, a[1..]) == WithKey(rank, key, b[1..])
  {
    var x, y := WithKey(rank, key, a), WithKey(rank, key, b);
    if rank(a[0]) == key { assert x[1..] == WithKey(rank, key, a[1..]) && y[1..] == WithKey(rank, key, b[1..]); }
  }

  function FirstKey<P>(rank: P -> int, s: seq<P>): int {
    if |s| == 0 then 0 else rank(s[0])
  }

  lemma {:induction false} SortedIsDetermined<P>(rank: P -> int, a: seq<P>, b: seq<P>)
    requires Sorted(rank, a) && Sorted(rank, b)
    requires forall key :: Alike(rank, key, a, b)
    ensures a == b
  {
    assert Alike(rank, FirstKey(rank, a), a, b) && Alike(rank, FirstKey(rank, b), a, b);
    if a != [] && b != [] {
      HeadsAgree(rank, a, b);
      assert a == [a[0]] + a[1..] && b == [b[0]] + b[1..];
      forall key ensures Alike(rank, key, a[1..], b[1..]) {
        assert Alike(rank, key, a, b);
        TailsAgree(rank, a, b, key);
      }
      SortedIsDetermined(rank, a[1..], b[1..]);
    }
  }

  /** Two listings sort alike exactly when, rank by rank, they list the same elements in the same order. */
  lemma SortsAlike<P>(rank: P -> int, a: seq<P>, b: seq<P>)
    ensures StableSort(rank, a) == StableSort(rank, b) <==> forall key :: Alike(rank, key, a, b)
  {
    var sa, sb := StableSort(rank, a), StableSort(rank, b);
    forall key: int ensures WithKey(rank, key, sa) == WithKey(rank, key, a) && WithKey(rank, key, sb) == WithKey(rank, key, b) {
      SortIsStable(rank, a, key);
      SortIsStable(rank, b, key);
    }
    forall key ensures Alike(rank, key, sa, sb) <==> Alike(rank, key, a, b) { }
    if forall key :: Alike(rank, key, a, b) {
      SortIsStable(rank, a, 0);
      SortIsStable(rank, b, 0);
      SortedIsDetermined(rank, sa, sb);
    }
  }

  predicate DistinctKeys<P>(rank: P -> int, ps: seq<P>) {
    forall i, j :: 0 <= i < j < |ps| ==> rank(ps[i]) != rank(ps[j])
  }

  lemma {:induction false} WithKeyMembers<P>(rank: P -> int, key: int, ps: seq<P>, p: P)
    ensures p in WithKey(rank, key, ps) <==> p in ps && rank(p) == key
  {
    if ps != [] {
      WithKeyMembers(rank, key, ps[1..], p);
      assert p in ps <==> p == ps[0] || p in ps[1..];
    }
  }

  lemma {:induction false} AtMostOneWithKey<P>(rank: P -> int, key: int, ps: seq<P>)
    requires DistinctKeys(rank, ps)
    ensures |WithKey(rank, key, ps)| <= 1
  {
    if ps != [] {
      AtMostOneWithKey(rank, key, ps[1..]);
      var rest := WithKey(rank, key, ps[1..]);
      if rest != [] {
        WithKeyMembers(rank, key, ps[1..], rest[0]);
        var j :| 0 <= j < |ps[1..]| && ps[1..][j] == rest[0];
        assert rank(ps[j + 1]) == key;
      }
    }
  }

  lemma SameSingleton<P>(x: seq<P>, y: seq<P>)
    requires |x| <= 1 && |y| <= 1 && forall p :: p in x <==> p in y
    ensures x == y
  {
    if |x| == 1 { assert x[0] in y; }
    if |y| == 1 { assert y[0] in x; }
  }

  /** Distinct ranks make the order a function of the set of elements. */
  lemma DistinctSortAlike<P>(rank: P -> int, a: seq<P>, b: seq<P>)
    requires DistinctKeys(rank, a) && DistinctKeys(rank, b) && forall p :: p in a <==> p in b
    ensures StableSort(rank, a) == StableSort(rank, b)
  {
    forall key ensures Alike(rank, key, a, b) {
      AtMostOneWithKey(rank, key, a);
      AtMostOneWithKey(rank, key, b);
      forall p ensures p in WithKey(rank, key, a) <==> p in WithKey(rank, key, b) {
        WithKeyMembers(rank, key, a, p);
        WithKeyMembers(rank, key, b, p);
      }
      SameSingleton(WithKey(rank, key, a), WithKey(rank, key, b));
    }
    SortsAlike(rank, a, b);
  }
}

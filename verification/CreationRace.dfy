/**
  Any number of creations and recoveries on one shared world.  A move is one mutation of some process for
  one claim, safe in the sense of WorktreeWorld, or anything at all that a user does.
 */
module CreationRace {
  import opened Contracts
  import opened WorktreeWorld

  datatype Move = Act(claim: nat, effect: Effect) | User

  /** Move n takes world n to world n + 1; `claims` are the intents of all creations that ever take part. */
  datatype Race = Race(claims: seq<Intent>, worlds: seq<World>, moves: seq<Move>)

  /** What any process may have looked at when move n happens. */
  function SightsUntil(worlds: seq<World>, n: nat): set<Sight>
    requires n < |worlds|
  {
    set k: nat | k <= n :: Sight(k, worlds[k])
  }

  /** A process makes the safe moves of its claim; a user never writes the message of a reservation. */
  predicate LegalMove(r: Race, n: nat)
    requires n < |r.moves| && |r.worlds| == |r.moves| + 1
  {
    match r.moves[n]
    case User => forall c :: 0 <= c < |r.claims| && OwnEntry(r.worlds[n + 1], r.claims[c]) ==> OwnEntry(r.worlds[n], r.claims[c])
    case Act(c, effect) =>
      c < |r.claims| && Fits(Event(effect, r.worlds[n], r.worlds[n + 1], false, SightsUntil(r.worlds, n)), r.claims[c], 0, true)
  }

  predicate Reserves(r: Race, n: nat, c: nat)
    requires n < |r.moves|
  {
    r.moves[n].Act? && r.moves[n].claim == c && r.moves[n].effect.ReserveRef?
  }

  predicate Deletes(r: Race, n: nat, c: nat)
    requires n < |r.moves|
  {
    r.moves[n].Act? && r.moves[n].claim == c && r.moves[n].effect.DeleteRef?
  }

  /** Reservation tokens are fresh, and every creation reserves at most once. */
  ghost predicate Legal(r: Race) {
    && |r.worlds| == |r.moves| + 1
    && (forall c, d :: 0 <= c < d < |r.claims| ==> r.claims[c].token != r.claims[d].token)
    && (forall c :: 0 <= c < |r.claims| ==> !OwnEntry(r.worlds[0], r.claims[c]))
    && (forall n: nat :: n < |r.moves| ==> LegalMove(r, n))
    && (forall c: nat, m: nat, n: nat :: m < n < |r.moves| && Reserves(r, m, c) ==> !Reserves(r, n, c))
  }

  /** The newest entry of the branch's log, if there is a branch with a log. */
  function Newest(w: World, b: Branch): Option<LogEntry> {
    if b in w.refs then w.refs[b].newest else None
  }

  lemma TokensSeparate(i: Intent, j: Intent)
    requires i.token != j.token
    ensures Reservation(i) != Reservation(j)
  {
    var prefix := "local-agent-create:";
    assert Reservation(i)[|prefix|..] == i.token && Reservation(j)[|prefix|..] == j.token;
  }

  /** At any moment the log of a branch names at most one claim. */
  lemma OneHolder(r: Race, n: nat, c: nat, d: nat)
    requires Legal(r) && n < |r.worlds| && c < |r.claims| && d < |r.claims| && r.claims[c].branch == r.claims[d].branch
    requires OwnEntry(r.worlds[n], r.claims[c]) && OwnEntry(r.worlds[n], r.claims[d])
    ensures c == d
  {
    if c != d { TokensSeparate(r.claims[c], r.claims[d]); }
  }

  // ---------------------------------------------------------------- between two reservations

  /** The move took the branch away: a compensation of some claim, or a user. */
  predicate TakesAway(r: Race, n: nat, b: Branch)
    requires n < |r.moves| && |r.worlds| == |r.moves| + 1
  {
    && b in r.worlds[n].refs && b !in r.worlds[n + 1].refs
    && (r.moves[n].Act? ==> r.moves[n].effect.DeleteRef? && r.moves[n].effect.branch == b)
  }

  lemma {:induction false} Vanishes(r: Race, b: Branch, m: nat, n: nat) returns (d: nat)
    requires Legal(r) && m < n <= |r.moves| && b in r.worlds[m].refs && b !in r.worlds[n].refs
    ensures m <= d < n && TakesAway(r, d, b)
    decreases n - m
  {
    assert LegalMove(r, m);
    if b !in r.worlds[m + 1].refs { d := m; } else { d := Vanishes(r, b, m + 1, n); }
  }

  /** Of the creations racing for one branch a second one passes only after the branch was taken away again. */
  lemma OneWinner(r: Race, m: nat, c: nat, n: nat, d: nat) returns (k: nat)
    requires Legal(r) && m < n < |r.moves| && Reserves(r, m, c) && Reserves(r, n, d)
    requires r.moves[m].effect.branch == r.moves[n].effect.branch
    ensures m < k < n && TakesAway(r, k, r.moves[m].effect.branch)
  {
    assert LegalMove(r, m) && LegalMove(r, n);
    k := Vanishes(r, r.claims[c].branch, m + 1, n);
  }

  // ---------------------------------------------------------------- what a deletion removes

  /** Only its own reservation puts a claim's entry on top of its branch's log. */
  lemma GainedByReserving(r: Race, c: nat, n: nat)
    requires Legal(r) && c < |r.claims| && n < |r.moves|
    requires !OwnEntry(r.worlds[n], r.claims[c]) && OwnEntry(r.worlds[n + 1], r.claims[c])
    ensures Reserves(r, n, c)
  {
    assert LegalMove(r, n);
    var move := r.moves[n];
    if move.Act? && move.claim != c { TokensSeparate(r.claims[c], r.claims[move.claim]); }
  }

  lemma {:induction false} ReservedBefore(r: Race, c: nat, n: nat) returns (m: nat)
    requires Legal(r) && c < |r.claims| && n < |r.worlds| && OwnEntry(r.worlds[n], r.claims[c])
    ensures m < n && Reserves(r, m, c)
  {
    m := n - 1;
    if OwnEntry(r.worlds[m], r.claims[c]) { m := ReservedBefore(r, c, m); } else { GainedByReserving(r, c, m); }
  }

  /** A reservation that is no longer on top of the log never comes back. */
  lemma {:induction false} NeverReturns(r: Race, c: nat, k: nat, m: nat, n: nat)
    requires Legal(r) && c < |r.claims| && k <= m <= n < |r.worlds|
    requires OwnEntry(r.worlds[k], r.claims[c]) && OwnEntry(r.worlds[n], r.claims[c])
    ensures OwnEntry(r.worlds[m], r.claims[c])
    decreases n - m
  {
    if m < n {
      NeverReturns(r, c, k, m + 1, n);
      var before := ReservedBefore(r, c, k);
      if !OwnEntry(r.worlds[m], r.claims[c]) { GainedByReserving(r, c, m); }
    }
  }

  predicate Overwrites(r: Race, n: nat, b: Branch)
    requires n + 1 < |r.worlds|
  {
    Newest(r.worlds[n + 1], b) != Newest(r.worlds[n], b)
  }

  lemma {:induction false} EntryKept(r: Race, c: nat, m: nat, n: nat)
    requires c < |r.claims| && m <= n < |r.worlds| && OwnEntry(r.worlds[m], r.claims[c])
    requires forall j: nat :: m <= j < n ==> !Overwrites(r, j, r.claims[c].branch)
    ensures OwnEntry(r.worlds[n], r.claims[c])
    decreases n - m
  {
    if m < n {
      assert !Overwrites(r, m, r.claims[c].branch);
      EntryKept(r, c, m + 1, n);
    }
  }

  /** The moment at which the deleting process had seen its reservation. */
  function SeenAt(r: Race, n: nat): nat
    requires n < |r.moves| && r.moves[n].Act? && r.moves[n].effect.DeleteRef?
  {
    r.moves[n].effect.sight.time
  }

  /** From the look that found the reservation until its deletion nothing was written on top of the branch's log. */
  ghost predicate WindowQuiet(r: Race, n: nat, b: Branch)
    requires n < |r.moves| && |r.worlds| == |r.moves| + 1 && r.moves[n].Act? && r.moves[n].effect.DeleteRef?
  {
    forall j: nat :: SeenAt(r, n) <= j < n ==> !Overwrites(r, j, b)
  }

  /**
    A compensation removes its own reservation if and only if nothing was written on top of the branch's log
    since it looked: comparing the commit alone does not notice a branch that was replaced at the same base.
   */
  lemma DeletesOwnExactly(r: Race, n: nat, c: nat)
    requires Legal(r) && n < |r.moves| && Deletes(r, n, c)
    ensures c < |r.claims| && (OwnsRef(r.worlds[n], r.claims[c]) <==> WindowQuiet(r, n, r.claims[c].branch))
  {
    assert LegalMove(r, n);
    var seen := SeenAt(r, n);
    assert OwnEntry(r.worlds[seen], r.claims[c]) && seen <= n;
    if WindowQuiet(r, n, r.claims[c].branch) { EntryKept(r, c, seen, n); }
    if OwnsRef(r.worlds[n], r.claims[c]) {
      forall j: nat | seen <= j < n ensures !Overwrites(r, j, r.claims[c].branch) {
        NeverReturns(r, c, seen, j, n);
        NeverReturns(r, c, seen, j + 1, n);
      }
    }
  }

  // ---------------------------------------------------------------- when every deletion removes its own

  /** While a compensation is between its look and its deletion no other one acts for its claim and no user touches the branch. */
  ghost predicate Alone(r: Race, n: nat, c: nat)
    requires n < |r.moves| && |r.worlds| == |r.moves| + 1 && Deletes(r, n, c) && c < |r.claims|
  {
    forall j: nat :: SeenAt(r, n) <= j < n ==> !Deletes(r, j, c) && (r.moves[j].User? ==> !Overwrites(r, j, r.claims[c].branch))
  }

  ghost predicate DeletesOwn(r: Race, n: nat)
    requires n < |r.moves| && |r.worlds| == |r.moves| + 1
  {
    forall c: nat :: c < |r.claims| && Deletes(r, n, c) ==> OwnsRef(r.worlds[n], r.claims[c])
  }

  ghost predicate AllAlone(r: Race)
    requires |r.worlds| == |r.moves| + 1
  {
    forall n: nat, c: nat :: n < |r.moves| && c < |r.claims| && Deletes(r, n, c) ==> Alone(r, n, c)
  }

  ghost predicate AllDeleteOwn(r: Race)
    requires |r.worlds| == |r.moves| + 1
  {
    forall n: nat :: n < |r.moves| ==> DeletesOwn(r, n)
  }

  /** No move of another claim writes on top of a reservation, as long as deletions remove their own. */
  lemma OthersDoNotOverwrite(r: Race, n: nat, c: nat)
    requires Legal(r) && n < |r.moves| && c < |r.claims| && OwnEntry(r.worlds[n], r.claims[c])
    requires DeletesOwn(r, n) && !Deletes(r, n, c) && !r.moves[n].User?
    ensures !Overwrites(r, n, r.claims[c].branch)
  {
    assert LegalMove(r, n);
    var d := r.moves[n].claim;
    if Deletes(r, n, d) && r.claims[d].branch == r.claims[c].branch { OneHolder(r, n, c, d); }
  }

  lemma {:induction false} KeptWhileAlone(r: Race, n: nat, c: nat, j: nat)
    requires Legal(r) && n < |r.moves| && Deletes(r, n, c) && c < |r.claims| && Alone(r, n, c)
    requires SeenAt(r, n) <= j <= n && forall m: nat :: m < n ==> DeletesOwn(r, m)
    ensures OwnEntry(r.worlds[j], r.claims[c])
  {
    assert LegalMove(r, n);
    if SeenAt(r, n) < j {
      var m := j - 1;
      KeptWhileAlone(r, n, c, m);
      assert DeletesOwn(r, m) && !Deletes(r, m, c);
      if !r.moves[m].User? { OthersDoNotOverwrite(r, m, c); }
      assert !Overwrites(r, m, r.claims[c].branch);
    }
  }

  lemma {:induction false} AloneDeletesOwn(r: Race, n: nat)
    requires Legal(r) && AllAlone(r) && n <= |r.moves|
    ensures forall m: nat :: m < n ==> DeletesOwn(r, m)
  {
    if n > 0 {
      var last := n - 1;
      AloneDeletesOwn(r, last);
      forall c: nat | c < |r.claims| && Deletes(r, last, c) ensures OwnsRef(r.worlds[last], r.claims[c]) {
        assert LegalMove(r, last);
        KeptWhileAlone(r, last, c, last);
      }
    }
  }

  /**
    In a race every compensation removes its own reservation and nobody else's if and only if between its
    look and its deletion no other one acts for its claim and no user touches the branch.
   */
  lemma AllDeleteOwnExactly(r: Race)
    requires Legal(r)
    ensures AllDeleteOwn(r) <==> AllAlone(r)
  {
    if AllAlone(r) { AloneDeletesOwn(r, |r.moves|); }
    if AllDeleteOwn(r) {
      forall n: nat, c: nat | n < |r.moves| && c < |r.claims| && Deletes(r, n, c) ensures Alone(r, n, c) {
        assert DeletesOwn(r, n);
        DeletesOwnExactly(r, n, c);
        forall j: nat | SeenAt(r, n) <= j < n ensures !Deletes(r, j, c) && !Overwrites(r, j, r.claims[c].branch) {
          assert !Overwrites(r, j, r.claims[c].branch);
          assert LegalMove(r, j) && LegalMove(r, n);
          NeverReturns(r, c, SeenAt(r, n), j, n);
        }
      }
    }
  }

  /** Then a reservation leaves its branch only by its own compensation or a user's hand. */
  lemma OnlyOwnRelease(r: Race, n: nat, c: nat)
    requires Legal(r) && AllAlone(r) && n < |r.moves| && c < |r.claims|
    requires OwnEntry(r.worlds[n], r.claims[c]) && !OwnEntry(r.worlds[n + 1], r.claims[c])
    ensures r.moves[n].User? || (Deletes(r, n, c) && OwnsRef(r.worlds[n], r.claims[c]))
  {
    AllDeleteOwnExactly(r);
    assert DeletesOwn(r, n);
    if !r.moves[n].User? && !Deletes(r, n, c) { OthersDoNotOverwrite(r, n, c); }
  }

  lemma {:induction false} Released(r: Race, c: nat, m: nat, n: nat) returns (k: nat)
    requires Legal(r) && c < |r.claims| && m <= n < |r.worlds|
    requires OwnEntry(r.worlds[m], r.claims[c]) && !OwnEntry(r.worlds[n], r.claims[c])
    ensures m <= k < n && OwnEntry(r.worlds[k], r.claims[c]) && !OwnEntry(r.worlds[k + 1], r.claims[c])
    decreases n - m
  {
    if OwnEntry(r.worlds[m + 1], r.claims[c]) { k := Released(r, c, m + 1, n); } else { k := m; }
  }

  /** And a second creation passes on a branch only after the first compensated its own reservation, or a user interfered. */
  lemma NextWinnerWaits(r: Race, m: nat, c: nat, n: nat, d: nat) returns (k: nat)
    requires Legal(r) && AllAlone(r) && m < n < |r.moves| && Reserves(r, m, c) && Reserves(r, n, d)
    requires r.moves[m].effect.branch == r.moves[n].effect.branch
    ensures m < k < n && c < |r.claims| && OwnEntry(r.worlds[k], r.claims[c])
    ensures r.moves[k].User? || (Deletes(r, k, c) && OwnsRef(r.worlds[k], r.claims[c]))
  {
    assert LegalMove(r, m) && LegalMove(r, n);
    k := Released(r, c, m + 1, n);
    OnlyOwnRelease(r, k, c);
  }

  // ---------------------------------------------------------------- two recoveries of one dead creation

  /** The stale deletion is safe in every world in which the branch is at the base again. */
  lemma StaleFits(r: Race, n: nat, i: Intent)
    requires 1 <= n < |r.moves| && |r.worlds| == |r.moves| + 1 && |r.claims| > 0 && r.claims[0] == i
    requires r.moves[n] == Act(0, DeleteRef(i.branch, i.base, Sight(1, r.worlds[1])))
    requires OwnEntry(r.worlds[1], i) && i.branch in r.worlds[n].refs && r.worlds[n].refs[i.branch].commit == i.base
    requires r.worlds[n + 1] == r.worlds[n].(refs := r.worlds[n].refs - {i.branch})
    ensures LegalMove(r, n)
  {
    assert Sight(1, r.worlds[1]) in SightsUntil(r.worlds, n);
  }

  /**
    Two recoveries of one dead creation have both seen its reservation.  The first compensates, another
    creation reserves the branch at the same base, and the second recovery deletes that reservation.
   */
  lemma StaleRecoveryDeletesAnother(i: Intent, j: Intent, empty: World) returns (r: Race)
    requires i.branch == j.branch && i.base == j.base && i.token != j.token && i.branch !in empty.refs
    ensures Legal(r) && r.claims == [i, j] && r.worlds[0] == empty && |r.moves| == 4
    ensures Reserves(r, 0, 0) && Deletes(r, 1, 0) && OwnsRef(r.worlds[1], i)
    ensures Reserves(r, 2, 1) && Deletes(r, 3, 0) && OwnsRef(r.worlds[3], j) && r.worlds[4] == empty
  {
    var first := empty.(refs := empty.refs[i.branch := Reserved(i)]);
    var second := empty.(refs := empty.refs[i.branch := Reserved(j)]);
    var stale := DeleteRef(i.branch, i.base, Sight(1, first));
    r := Race([i, j], [empty, first, empty, second, empty],
              [Act(0, ReserveRef(i.branch, i.base, Reservation(i))), Act(0, stale),
               Act(1, ReserveRef(i.branch, i.base, Reservation(j))), Act(0, stale)]);
    TokensSeparate(i, j);
    assert first.refs - {i.branch} == empty.refs && second.refs - {i.branch} == empty.refs;
    StaleFits(r, 1, i);
    StaleFits(r, 3, i);
    assert LegalMove(r, 0) && LegalMove(r, 2);
  }
}

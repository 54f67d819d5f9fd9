/**
  The game behind Stone Game IV: two players alternately remove a perfect
  square number of stones (1, 4, 9, ...) from a pile; the player who cannot
  move, facing an empty pile, loses.

  `Win` classifies a state by the recurrence the solver evaluates: probe the
  squares in increasing order (`FirstLosingRootFrom`) and stop at the first
  one that leaves the opponent losing. The lemmas give its game meaning (a
  losing move exists), the minimality of the probed square, and concrete
  outcomes.
 */
module Game {

  import opened Wrappers

  /** The move size k*k. */
  function Sq(k: nat): (r: nat)
    ensures 1 <= k ==> k <= r
  {
    k * k
  }

  /** The player to move with `i` stones can force a win. The solver's
      recurrence: some square move leaves the opponent in a losing state, found
      by probing the squares in increasing order. `WinIffLosingMoveExists`
      states the meaning without the search order. */
  function Win(i: nat): bool
    decreases i, i + 2
  {
    FirstLosingRoot(i).Some?
  }

  /** The smallest root k' >= k whose square move from `i` stones leaves a
      losing state, if any: the order in which the solver probes the squares. */
  function FirstLosingRootFrom(i: nat, k: nat): Option<nat>
    requires 1 <= k
    decreases i, i + 1 - k
  {
    if Sq(k) > i then None
    else if !Win(i - Sq(k)) then Some(k)
    else FirstLosingRootFrom(i, k + 1)
  }

  /** The root of the first square, probing from 1 upwards, that leaves a losing state. */
  function FirstLosingRoot(i: nat): Option<nat>
    decreases i, i + 1
  {
    FirstLosingRootFrom(i, 1)
  }

  /** Squares grow strictly with their roots, in both directions. */
  lemma SqStrictlyMonotone(a: nat, b: nat)
    ensures a < b <==> Sq(a) < Sq(b)
  {
    if a < b {
      assert a * a <= a * b < b * b;
    } else {
      assert b * b <= b * a <= a * a;
    }
  }

  /** When the first-fit search from root k finds nothing, every square move
      from root k on leaves the opponent winning. */
  lemma {:induction false} FirstLosingRootFromNone(i: nat, k: nat)
    requires 1 <= k
    ensures FirstLosingRootFrom(i, k).None? ==>
      forall m: nat :: k <= m && Sq(m) <= i ==> Win(i - Sq(m))
    decreases i + 1 - k
  {
    if Sq(k) > i {
      forall m: nat | k < m
        ensures i < Sq(m)
      {
        SqStrictlyMonotone(k, m);
      }
    } else if Win(i - Sq(k)) {
      FirstLosingRootFromNone(i, k + 1);
    }
  }

  /** When the first-fit search from root k finds root r, r is the smallest
      root from k on whose square move leaves the opponent losing. */
  lemma {:induction false} FirstLosingRootFromSome(i: nat, k: nat)
    requires 1 <= k
    ensures FirstLosingRootFrom(i, k).Some? ==>
      var r := FirstLosingRootFrom(i, k).value;
      k <= r && Sq(r) <= i && !Win(i - Sq(r)) &&
      forall m: nat :: k <= m < r ==> Sq(m) <= i && Win(i - Sq(m))
    decreases i + 1 - k
  {
    if Sq(k) <= i && Win(i - Sq(k)) {
      FirstLosingRootFromSome(i, k + 1);
      if FirstLosingRootFrom(i, k + 1).Some? {
        var r := FirstLosingRootFrom(i, k + 1).value;
        forall m: nat | k <= m < r
          ensures Sq(m) <= i && Win(i - Sq(m))
        {
          if m > k {
            SqStrictlyMonotone(m, r);
          }
        }
      }
    }
  }

  /** The game meaning of `Win`: a state is winning exactly when some square
      move leaves the opponent in a losing state. */
  lemma WinIffLosingMoveExists(i: nat)
    ensures Win(i) <==> exists k: nat :: 1 <= k && Sq(k) <= i && !Win(i - Sq(k))
  {
    FirstLosingRootFromNone(i, 1);
    FirstLosingRootFromSome(i, 1);
  }

  /** The first-fit root names the smallest square move that leaves the
      opponent losing; when there is none, every square move leaves the
      opponent winning. */
  lemma FirstLosingRootIsSmallest(i: nat)
    ensures FirstLosingRoot(i).Some? ==>
      var r := FirstLosingRoot(i).value;
      1 <= r && Sq(r) <= i && !Win(i - Sq(r)) &&
      forall m: nat :: 1 <= m && Sq(m) < Sq(r) ==> Win(i - Sq(m))
    ensures FirstLosingRoot(i).None? ==>
      forall m: nat :: 1 <= m && Sq(m) <= i ==> Win(i - Sq(m))
  {
    FirstLosingRootFromNone(i, 1);
    FirstLosingRootFromSome(i, 1);
    if FirstLosingRoot(i).Some? {
      var r := FirstLosingRoot(i).value;
      forall m: nat | 1 <= m && Sq(m) < Sq(r)
        ensures Win(i - Sq(m))
      {
        SqStrictlyMonotone(m, r);
      }
    }
  }

  /** A pile holding a perfect square is won by taking it all. */
  lemma PerfectSquaresWin(k: nat)
    requires 1 <= k
    ensures Win(Sq(k))
  {
    WinIffLosingMoveExists(Sq(k));
    assert Sq(k) - Sq(k) == 0;
  }

  /** The outcomes for piles of up to sixteen stones: the losing states are
      0, 2, 5, 7, 10, 12 and 15. */
  lemma SmallOutcomes()
    ensures !Win(0) && Win(1) && !Win(2) && Win(3) && Win(4) && !Win(5)
    ensures Win(6) && !Win(7) && Win(8) && Win(9) && !Win(10) && Win(11)
    ensures !Win(12) && Win(13) && Win(14) && !Win(15) && Win(16)
  {
  }
}

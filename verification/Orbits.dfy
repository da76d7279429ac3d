/** Loops that carry one position from round to round. */
module Orbits {
  import opened Wrappers

  /** Where a loop goes from each position, or None where it ends. */
  type Step = nat -> Option<nat>

  /** The position after k rounds, or None if the loop has ended by then. */
  function Orbit(next: Step, p: nat, k: nat): Option<nat> {
    if k == 0 then Some(p)
    else
      match Orbit(next, p, k - 1)
      case None => None
      case Some(q) => next(q)
  }

  predicate ReturnsAt(next: Step, p: nat, i: nat, j: nat) {
    i < j && Orbit(next, p, j).Some? && Orbit(next, p, i) == Orbit(next, p, j)
  }

  /** The loop comes back to a position it has been at. */
  ghost predicate Returns(next: Step, p: nat) {
    exists i: nat, j: nat :: ReturnsAt(next, p, i, j)
  }

  lemma {:induction false} FirstStep(next: Step, p: nat, k: nat)
    ensures Orbit(next, p, k + 1) == match next(p)
                                     case None => None
                                     case Some(q) => Orbit(next, q, k)
  {
    if k == 0 {
      assert Orbit(next, p, 0) == Some(p);
      assert next(p).Some? ==> Orbit(next, next(p).value, 0) == next(p);
    } else {
      FirstStep(next, p, k - 1);
    }
  }

  lemma {:induction false} EarlierGoesOn(next: Step, p: nat, i: nat, j: nat)
    requires i <= j && Orbit(next, p, j).Some?
    ensures Orbit(next, p, i).Some?
  {
    if i < j {
      EarlierGoesOn(next, p, i, j - 1);
    }
  }

  /** A loop that has come back is in places it has been at ever after. */
  lemma {:induction false} GoesRound(next: Step, p: nat, i: nat, j: nat, k: nat)
    requires ReturnsAt(next, p, i, j)
    ensures Orbit(next, p, k).Some?
    ensures k >= i ==> exists m: nat :: i <= m < j && Orbit(next, p, m) == Orbit(next, p, k)
  {
    if k < j {
      EarlierGoesOn(next, p, k, j);
    } else if k > j {
      GoesRound(next, p, i, j, k - 1);
      var m: nat :| i <= m < j && Orbit(next, p, m) == Orbit(next, p, k - 1);
      EarlierGoesOn(next, p, m + 1, j);
      assert Orbit(next, p, k) == Orbit(next, p, m + 1);
      if m + 1 == j {
        assert Orbit(next, p, i) == Orbit(next, p, k);
      }
    } else {
      assert Orbit(next, p, i) == Orbit(next, p, k);
    }
  }

  /** More places than values. */
  lemma {:induction false} Pigeonhole(xs: seq<nat>, n: nat) returns (i: nat, j: nat)
    requires |xs| > n && forall k :: 0 <= k < |xs| ==> xs[k] < n
    ensures i < j < |xs| && xs[i] == xs[j]
    decreases n
  {
    var last := |xs| - 1;
    if k :| 0 <= k < last && xs[k] == xs[last] {
      i, j := k, last;
    } else {
      var ys := seq(last, k requires 0 <= k < last => if xs[k] > xs[last] then xs[k] - 1 else xs[k]);
      i, j := Pigeonhole(ys, n - 1);
    }
  }

  /** The positions of the first n rounds. */
  function Visited(next: Step, p: nat, n: nat): (xs: seq<nat>)
    requires Orbit(next, p, n).Some?
    ensures |xs| == n + 1
    ensures forall k :: 0 <= k <= n ==> Orbit(next, p, k) == Some(xs[k])
  {
    if n == 0 then [p] else Visited(next, p, n - 1) + [Orbit(next, p, n).value]
  }

  /** A loop that stays below n for n rounds and more has come back to a position. */
  lemma {:induction false} MustReturn(next: Step, p: nat, n: nat)
    requires forall q: nat :: next(q).Some? ==> q < n
    requires Orbit(next, p, n).Some? && Orbit(next, p, n).value < n
    ensures Returns(next, p)
  {
    var xs := Visited(next, p, n);
    forall k | 0 <= k <= n
      ensures xs[k] < n
    {
      if k < n {
        EarlierGoesOn(next, p, k + 1, n);
        assert next(xs[k]).Some?;
      }
    }
    var i, j := Pigeonhole(xs, n);
    assert ReturnsAt(next, p, i, j);
  }

  /** A loop that only goes forward never comes back. */
  lemma {:induction false} ForwardOnly(next: Step, p: nat, i: nat, j: nat)
    requires i < j && Orbit(next, p, j).Some?
    requires forall k: nat, q: nat :: Orbit(next, p, k) == Some(q) && next(q).Some? ==> next(q).value > q
    ensures Orbit(next, p, i).Some? && Orbit(next, p, i).value < Orbit(next, p, j).value
  {
    EarlierGoesOn(next, p, j - 1, j);
    var q := Orbit(next, p, j - 1).value;
    assert next(q).value > q;
    if i < j - 1 {
      ForwardOnly(next, p, i, j - 1);
    }
  }
}

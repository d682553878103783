/** The small numeric helpers the scorer builds on: Python's
    `max(0, min(1, x))`, `abs`, `max` on counts and `sum` on a list. */
module Numeric {

  /** `max(0, min(1, x))` */
  function Clamp(x: real): (r: real)
    ensures 0.0 <= r <= 1.0
    ensures 0.0 <= x <= 1.0 ==> r == x
    ensures x <= 0.0 ==> r == 0.0
    ensures x >= 1.0 ==> r == 1.0
  {
    if x < 0.0 then 0.0 else if x > 1.0 then 1.0 else x
  }

  function Abs(x: real): real {
    if x < 0.0 then -x else x
  }

  function MaxNat(a: nat, b: nat): nat {
    if a < b then b else a
  }

  predicate AllUnit(xs: seq<real>) {
    forall i :: 0 <= i < |xs| ==> 0.0 <= xs[i] <= 1.0
  }

  predicate AllZero(xs: seq<real>) {
    forall i :: 0 <= i < |xs| ==> xs[i] == 0.0
  }

  /** `sum(xs)` */
  function Sum(xs: seq<real>): real {
    if xs == [] then 0.0 else xs[0] + Sum(xs[1..])
  }

  /** A sum of values in [0, 1] lies between 0 and the number of values, and
      is 0 exactly when every value is. */
  lemma {:induction false} SumBounds(xs: seq<real>)
    requires AllUnit(xs)
    ensures 0.0 <= Sum(xs) <= |xs| as real
    ensures Sum(xs) == 0.0 <==> AllZero(xs)
  {
    if xs != [] {
      SumBounds(xs[1..]);
      assert forall i :: 1 <= i < |xs| ==> xs[1..][i - 1] == xs[i];
    }
  }

  /** The mean of values in [0, 1] is in [0, 1], and 0 exactly when their
      sum is. */
  lemma MeanBounds(s: real, n: real)
    requires n > 0.0 && 0.0 <= s <= n
    ensures 0.0 <= s / n <= 1.0
    ensures s / n == 0.0 <==> s == 0.0
  {
    var m := s / n;
    assert m * n == s;
    ScaleCompare(m, 1.0, n);
    ScaleCompare(m, 0.0, n);
  }

  /** Multiplying by a positive number keeps order and equality. */
  lemma ScaleCompare(x: real, y: real, t: real)
    requires t > 0.0
    ensures x * t == y * t <==> x == y
    ensures x * t <= y * t <==> x <= y
  {
    assert x * t - y * t == (x - y) * t;
    if x < y {
      assert (y - x) * t > 0.0;
    }
    if x > y {
      assert (x - y) * t > 0.0;
    }
  }

  /** With `d * t == p` and `t > 0`, comparing `d` with `k` is comparing
      `p` with `k * t`. */
  lemma CompareScaled(d: real, t: real, p: real, k: real)
    requires t > 0.0 && d * t == p
    ensures d == k <==> p == k * t
    ensures d >= k <==> p >= k * t
    ensures d <= k <==> p <= k * t
  {
    ScaleCompare(d, k, t);
    ScaleCompare(k, d, t);
  }
}

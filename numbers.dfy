/** Arithmetic the analytics code relies on: sums, means, `Math.abs` and `Math.round` of
    JavaScript numbers, taken as exact integers and reals. */
module Numbers {

  function Abs(x: int): nat {
    if x < 0 then -x else x
  }

  /** `Math.min` and `Math.max` of two integers. */
  function Min(x: int, y: int): int {
    if x <= y then x else y
  }

  function Max(x: int, y: int): int {
    if x >= y then x else y
  }

  function RealAbs(x: real): real {
    if x < 0.0 then -x else x
  }

  function Sum(xs: seq<int>): int {
    if xs == [] then 0 else xs[0] + Sum(xs[1..])
  }

  lemma {:induction false} SumAppend(a: seq<int>, b: seq<int>)
    ensures Sum(a + b) == Sum(a) + Sum(b)
  {
    if a == [] {
      assert a + b == b;
    } else {
      assert (a + b)[1..] == a[1..] + b;
      SumAppend(a[1..], b);
    }
  }

  /** `data.reduce((a, b) => a + b, 0) / data.length`, with 0 for the empty case that
      `|| 0` (or a later guard) maps NaN to. */
  function Mean(xs: seq<int>): real {
    if xs == [] then 0.0 else Sum(xs) as real / |xs| as real
  }

  /** `Math.round`: the nearest integer, halves rounded up. */
  function Round(x: real): (r: int)
    ensures x - 0.5 < r as real <= x + 0.5
  {
    (x + 0.5).Floor
  }

  lemma {:induction false} SumBelow(xs: seq<int>, m: real)
    requires forall i :: 0 <= i < |xs| ==> (xs[i] as real) < m
    requires xs != []
    ensures (Sum(xs) as real) < |xs| as real * m
  {
    if |xs| > 1 {
      SumBelow(xs[1..], m);
    }
  }

  /** Some element is at least the mean: the maximum is never below the average. */
  lemma SomeAtLeastMean(xs: seq<int>)
    requires xs != []
    ensures exists i :: 0 <= i < |xs| && xs[i] as real >= Mean(xs)
  {
    if forall i :: 0 <= i < |xs| ==> (xs[i] as real) < Mean(xs) {
      SumBelow(xs, Mean(xs));
      assert false;
    }
  }

  /** With every element negative, so is their mean. */
  lemma {:induction false} NegativeMean(xs: seq<int>)
    requires xs != [] && forall i :: 0 <= i < |xs| ==> xs[i] < 0
    ensures Sum(xs) < 0 && Mean(xs) < 0.0
  {
    if |xs| > 1 {
      NegativeMean(xs[1..]);
    }
  }
}

/** Sums, means and spreads of numbers, and how moments combine. */
module Moments {
  import opened Wrappers

  const ITSELF: real -> real := x => x
  const SQUARED: real -> real := x => x * x

  function DistanceFrom(m: real): real -> real {
    x => (x - m) * (x - m)
  }

  function ScaledBy(a: real): real -> real {
    x => a * x
  }

  function Summed(xs: seq<real>, f: real -> real): real {
    if xs == [] then 0.0 else Summed(xs[..|xs| - 1], f) + f(xs[|xs| - 1])
  }

  function Mean(xs: seq<real>): real
    requires xs != []
  {
    Summed(xs, ITSELF) / |xs| as real
  }

  /** The sum of the squared distances from the mean. */
  function Spread(xs: seq<real>): real
    requires xs != []
  {
    Summed(xs, DistanceFrom(Mean(xs)))
  }

  lemma {:induction false} SumConcat(a: seq<real>, b: seq<real>, f: real -> real)
    ensures Summed(a + b, f) == Summed(a, f) + Summed(b, f)
  {
    if b == [] {
      assert a + b == a;
    } else {
      assert (a + b)[..|a + b| - 1] == a + b[..|b| - 1];
      SumConcat(a, b[..|b| - 1], f);
    }
  }

  lemma OneMore(n: real, c: real)
    ensures (n + 1.0) * c == n * c + c
  {
  }

  lemma Distribute(a: real, s: real, x: real)
    ensures a * (s + x) == a * s + a * x
  {
  }

  lemma Binomial(x: real, m: real)
    ensures (x - m) * (x - m) == x * x + (-2.0 * m) * x + m * m
  {
  }

  lemma SquareNonNegative(x: real)
    ensures x * x >= 0.0
  {
  }

  lemma {:induction false} SumSplits(xs: seq<real>, f: real -> real, g: real -> real, h: real -> real, c: real)
    requires forall x :: f(x) == g(x) + h(x) + c
    ensures Summed(xs, f) == Summed(xs, g) + Summed(xs, h) + |xs| as real * c
  {
    if xs != [] {
      SumSplits(xs[..|xs| - 1], f, g, h, c);
      OneMore((|xs| - 1) as real, c);
    }
  }

  lemma {:induction false} SumScales(xs: seq<real>, a: real)
    ensures Summed(xs, ScaledBy(a)) == a * Summed(xs, ITSELF)
  {
    if xs != [] {
      SumScales(xs[..|xs| - 1], a);
      Distribute(a, Summed(xs[..|xs| - 1], ITSELF), xs[|xs| - 1]);
    }
  }

  lemma {:induction false} SumNonNegative(xs: seq<real>, f: real -> real)
    requires forall x :: f(x) >= 0.0
    ensures Summed(xs, f) >= 0.0
  {
    if xs != [] {
      SumNonNegative(xs[..|xs| - 1], f);
    }
  }

  lemma DistanceSplits(m: real)
    ensures forall x :: DistanceFrom(m)(x) == SQUARED(x) + ScaledBy(-2.0 * m)(x) + m * m
  {
    forall x ensures DistanceFrom(m)(x) == SQUARED(x) + ScaledBy(-2.0 * m)(x) + m * m {
      Binomial(x, m);
    }
  }

  lemma DistanceNonNegative(m: real)
    ensures forall x :: DistanceFrom(m)(x) >= 0.0
  {
    forall x ensures DistanceFrom(m)(x) >= 0.0 {
      SquareNonNegative(x - m);
    }
  }

  lemma SpreadExpands(xs: seq<real>, m: real)
    ensures Summed(xs, DistanceFrom(m)) ==
            Summed(xs, SQUARED) + (-2.0 * m) * Summed(xs, ITSELF) + |xs| as real * (m * m)
  {
    DistanceSplits(m);
    SumSplits(xs, DistanceFrom(m), SQUARED, ScaledBy(-2.0 * m), m * m);
    SumScales(xs, -2.0 * m);
  }

  lemma MomentAlgebra(q: real, t: real, n: real, m: real)
    requires m * n == t
    ensures q + (-2.0 * m) * t + n * (m * m) == q - n * m * m
  {
    assert (-2.0 * m) * t == (-2.0 * m) * (m * n);
  }

  lemma MeanTimesCount(xs: seq<real>)
    requires xs != []
    ensures Mean(xs) * |xs| as real == Summed(xs, ITSELF)
  {
  }

  lemma QuotientNonNegative(x: real, d: real)
    requires x >= 0.0 && d > 0.0
    ensures x / d >= 0.0
  {
  }

  /** The sum of squares less n times the squared mean. */
  function SecondMoment(n: real, mean: real, squares: real): real {
    squares - n * mean * mean
  }

  lemma SpreadAround(xs: seq<real>, m: real)
    requires m * |xs| as real == Summed(xs, ITSELF)
    ensures SecondMoment(|xs| as real, m, Summed(xs, SQUARED)) == Summed(xs, DistanceFrom(m))
  {
    SpreadExpands(xs, m);
    MomentAlgebra(Summed(xs, SQUARED), Summed(xs, ITSELF), |xs| as real, m);
  }

  lemma SpreadNonNegative(xs: seq<real>)
    requires xs != []
    ensures Spread(xs) >= 0.0
  {
    DistanceNonNegative(Mean(xs));
    SumNonNegative(xs, DistanceFrom(Mean(xs)));
  }

  lemma MomentIsSpread(xs: seq<real>)
    requires xs != []
    ensures SecondMoment(|xs| as real, Mean(xs), Summed(xs, SQUARED)) == Spread(xs)
  {
    MeanTimesCount(xs);
    SpreadAround(xs, Mean(xs));
  }

  /** `reduce_one` on the merged moments of `n` numbers: their variance, clamped at zero. */
  function VarianceOf(n: real, sum: real, squares: real, sample: bool): (v: Option<real>) {
    if n == 0.0 then None
    else
      var m2 := SecondMoment(n, sum / n, squares);
      var denom := if sample then n - 1.0 else n;
      if denom <= 0.0 then None
      else Some(if m2 / denom < 0.0 then 0.0 else m2 / denom)
  }

  /** SQL's variance: none for no numbers, none for one number in the sample form. */
  function SqlVariance(xs: seq<real>, sample: bool): Option<real> {
    if xs == [] || (sample && |xs| == 1) then None
    else Some(Spread(xs) / (|xs| - if sample then 1 else 0) as real)
  }

  /** The merged variance is the variance of all the numbers, and the clamp never fires. */
  lemma VarianceIsExact(xs: seq<real>, sample: bool)
    ensures VarianceOf(|xs| as real, Summed(xs, ITSELF), Summed(xs, SQUARED), sample) == SqlVariance(xs, sample)
  {
    if xs != [] {
      MomentIsSpread(xs);
      SpreadNonNegative(xs);
      var d := (|xs| - if sample then 1 else 0) as real;
      assert d == if sample then |xs| as real - 1.0 else |xs| as real;
      if d > 0.0 {
        QuotientNonNegative(Spread(xs), d);
      }
    }
  }
}

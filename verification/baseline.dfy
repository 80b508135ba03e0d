/** The adaptive baseline's EWMA / EWVAR walk, over the reals, against its closed form. */
module Baseline {
  import opened Numbers
  import opened Wrappers

  const ALPHA := 0.15
  const MIN_SAMPLES := 8

  function Pow(b: real, n: nat): real { if n == 0 then 1.0 else b * Pow(b, n - 1) }

  /** The exponential weight of sample `i` among `n`: the first sample seeds the walk. */
  function Weight(n: nat, i: nat): real
    requires i < n
  {
    if i == 0 then Pow(1.0 - ALPHA, n - 1) else ALPHA * Pow(1.0 - ALPHA, n - 1 - i)
  }

  function Weights(n: nat): seq<real> { seq(n, i requires 0 <= i < n => Weight(n, i)) }

  /** The first `k` terms of the sum of `ys` weighted by `ws`. */
  function Dot(ws: seq<real>, ys: seq<real>, k: nat): real
    requires k <= |ws| && k <= |ys|
  {
    if k == 0 then 0.0 else Dot(ws, ys, k - 1) + ws[k - 1] * ys[k - 1]
  }

  /** The exponentially weighted sum of `ys`. */
  function Mix(ys: seq<real>): real { Dot(Weights(|ys|), ys, |ys|) }

  function Square(x: real): real { x * x }

  function SquaresAbout(xs: seq<real>, c: real): seq<real> { seq(|xs|, i requires 0 <= i < |xs| => Square(xs[i] - c)) }

  /** The variance of `xs` about its own mean, under the exponential weights. */
  function Variance(xs: seq<real>): real { Mix(SquaresAbout(xs, Mix(xs))) }

  // ----- the weights -----------------------------------------------------------------------

  lemma {:induction false} PowPositive(n: nat)
    ensures Pow(1.0 - ALPHA, n) > 0.0
  {
    if n > 0 {
      PowPositive(n - 1);
    }
  }

  lemma WeightScales(n: nat, i: nat)
    requires i < n
    ensures Weight(n + 1, i) == (1.0 - ALPHA) * Weight(n, i)
  {
    if i > 0 {
      assert Pow(1.0 - ALPHA, n - i) == (1.0 - ALPHA) * Pow(1.0 - ALPHA, n - 1 - i);
    }
  }

  lemma Distribute(a: real, sum: real, w: real, x: real)
    ensures a * sum + (a * w) * x == a * (sum + w * x)
  {
    assert (a * w) * x == a * (w * x);
  }

  /** Weights scaled throughout scale the sum. */
  lemma {:induction false} DotScales(a: real, ws: seq<real>, ys: seq<real>, vs: seq<real>, zs: seq<real>, k: nat)
    requires k <= |ws| && k <= |ys| && k <= |vs| && k <= |zs|
    requires forall i :: 0 <= i < k ==> vs[i] == a * ws[i] && zs[i] == ys[i]
    ensures Dot(vs, zs, k) == a * Dot(ws, ys, k)
    decreases k
  {
    if k > 0 {
      DotScales(a, ws, ys, vs, zs, k - 1);
      Distribute(a, Dot(ws, ys, k - 1), ws[k - 1], ys[k - 1]);
    }
  }

  /** Appending a sample scales the old sum and gives the newcomer weight ALPHA. */
  lemma MixAppend(ys: seq<real>, y: real)
    requires ys != []
    ensures Mix(ys + [y]) == (1.0 - ALPHA) * Mix(ys) + ALPHA * y
  {
    var n := |ys|;
    forall i | 0 <= i < n
      ensures Weights(n + 1)[i] == (1.0 - ALPHA) * Weights(n)[i]
    {
      WeightScales(n, i);
    }
    DotScales(1.0 - ALPHA, Weights(n), ys, Weights(n + 1), ys + [y], n);
    LastWeight(n);
  }

  lemma LastWeight(n: nat)
    requires n > 0
    ensures Weights(n + 1)[n] == ALPHA
  {
    assert Weight(n + 1, n) == ALPHA * Pow(1.0 - ALPHA, 0);
  }

  lemma MixSingle(y: real)
    ensures Mix([y]) == y
  {
    assert Dot(Weights(1), [y], 1) == Dot(Weights(1), [y], 0) + Weight(1, 0) * y;
  }

  /** The weights are positive and sum to one. */
  lemma {:induction false} WeightsAreAverage(n: nat)
    requires n > 0
    ensures forall i :: 0 <= i < n ==> Weight(n, i) > 0.0
    ensures Mix(seq(n, _ => 1.0)) == 1.0
    decreases n
  {
    forall i | 0 <= i < n
      ensures Weight(n, i) > 0.0
    {
      PowPositive(n - 1);
      PowPositive(n - 1 - i);
    }
    if n == 1 {
      MixSingle(1.0);
      assert seq(1, _ => 1.0) == [1.0];
    } else {
      WeightsAreAverage(n - 1);
      MixAppend(seq(n - 1, _ => 1.0), 1.0);
      assert seq(n, _ => 1.0) == seq(n - 1, _ => 1.0) + [1.0];
    }
  }

  // ----- the walk --------------------------------------------------------------------------

  function Squares(xs: seq<real>): seq<real> { seq(|xs|, i requires 0 <= i < |xs| => Square(xs[i])) }

  lemma SquaresAppend(xs: seq<real>, c: real, x: real)
    ensures Squares(xs + [x]) == Squares(xs) + [Square(x)]
    ensures SquaresAbout(xs + [x], c) == SquaresAbout(xs, c) + [Square(x - c)]
  {
  }

  lemma SquareExpands(x: real, c: real)
    ensures Square(x - c) == Square(x) - 2.0 * (c * x) + Square(c)
  {
  }

  /** The weighted second moment about `c`, from the moments about 0. */
  function MomentFrom(m: real, q: real, c: real): real { q - 2.0 * (c * m) + Square(c) }

  lemma MomentStep(m: real, q: real, c: real, x: real, m': real, q': real)
    requires m' == (1.0 - ALPHA) * m + ALPHA * x && q' == (1.0 - ALPHA) * q + ALPHA * Square(x)
    ensures (1.0 - ALPHA) * MomentFrom(m, q, c) + ALPHA * Square(x - c) == MomentFrom(m', q', c)
  {
    SquareExpands(x, c);
    var cm, cx := c * m, c * x;
    assert c * m' == (1.0 - ALPHA) * cm + ALPHA * cx;
  }

  lemma MomentAppend(front: seq<real>, x: real, c: real)
    requires front != [] && Mix(SquaresAbout(front, c)) == MomentFrom(Mix(front), Mix(Squares(front)), c)
    ensures Mix(SquaresAbout(front + [x], c)) == MomentFrom(Mix(front + [x]), Mix(Squares(front + [x])), c)
  {
    SquaresAppend(front, c, x);
    MixAppend(front, x);
    MixAppend(Squares(front), Square(x));
    MixAppend(SquaresAbout(front, c), Square(x - c));
    MomentStep(Mix(front), Mix(Squares(front)), c, x, Mix(front + [x]), Mix(Squares(front + [x])));
  }

  lemma MomentSingle(x: real, c: real)
    ensures Mix(SquaresAbout([x], c)) == MomentFrom(Mix([x]), Mix(Squares([x])), c)
  {
    SquareExpands(x, c);
    MixSingle(x);
    MixSingle(Square(x));
    MixSingle(Square(x - c));
    assert SquaresAbout([x], c) == [Square(x - c)] && Squares([x]) == [Square(x)];
  }

  /** The weighted second moment about any point. */
  lemma {:induction false} MomentAbout(xs: seq<real>, c: real)
    requires xs != []
    ensures Mix(SquaresAbout(xs, c)) == MomentFrom(Mix(xs), Mix(Squares(xs)), c)
    decreases |xs|
  {
    var front, x := xs[..|xs| - 1], xs[|xs| - 1];
    assert xs == front + [x];
    if front == [] {
      assert xs == [x];
      MomentSingle(x, c);
    } else {
      MomentAbout(front, c);
      MomentAppend(front, x, c);
    }
  }

  /** Variance is the mean square less the square of the mean. */
  lemma VarianceAsMoments(xs: seq<real>)
    requires xs != []
    ensures Variance(xs) == Mix(Squares(xs)) - Square(Mix(xs))
  {
    MomentAbout(xs, Mix(xs));
  }

  lemma StepAlgebra(m: real, q: real, x: real)
    ensures (1.0 - ALPHA) * q + ALPHA * Square(x) - Square((1.0 - ALPHA) * m + ALPHA * x)
         == (1.0 - ALPHA) * (q - Square(m) + ALPHA * Square(x - m))
  {
    var mm, mx, xx := m * m, m * x, x * x;
    assert Square((1.0 - ALPHA) * m + ALPHA * x)
        == (1.0 - ALPHA) * (1.0 - ALPHA) * mm + 2.0 * (1.0 - ALPHA) * ALPHA * mx + ALPHA * ALPHA * xx;
    assert Square(x - m) == xx - 2.0 * mx + mm;
  }

  lemma WalkStep(xs: seq<real>, x: real)
    requires xs != []
    ensures Mix(xs + [x]) == Mix(xs) + 0.15 * (x - Mix(xs))
    ensures Variance(xs + [x]) == 0.85 * (Variance(xs) + 0.15 * ((x - Mix(xs)) * (x - Mix(xs))))
  {
    MixAppend(xs, x);
    SquaresAppend(xs, 0.0, x);
    MixAppend(Squares(xs), Square(x));
    VarianceAsMoments(xs);
    VarianceAsMoments(xs + [x]);
    StepAlgebra(Mix(xs), Mix(Squares(xs)), x);
  }

  datatype Ewma = Ewma(ewma: real, ewvar: real)

  /** The loop of `recompute_baseline`: incrementally the weighted mean and variance of the whole series. */
  method RecomputeBaseline(rows: seq<real>) returns (view: Option<Ewma>)
    ensures view.None? <==> |rows| < 8
    ensures view.Some? ==> view.value == Ewma(Mix(rows), Variance(rows))
  {
    if |rows| < MIN_SAMPLES {
      return None;
    }
    var ewma, ewvar := rows[0], 0.0;
    assert rows[..1] == [rows[0]];
    StartWalk(rows[0]);
    for i := 1 to |rows|
      invariant ewma == Mix(rows[..i]) && ewvar == Variance(rows[..i])
    {
      WalkStep(rows[..i], rows[i]);
      assert rows[..i + 1] == rows[..i] + [rows[i]];
      var diff := rows[i] - ewma;
      ewma := ewma + ALPHA * diff;
      ewvar := (1.0 - ALPHA) * (ewvar + ALPHA * diff * diff);
    }
    assert rows[..|rows|] == rows;
    return Some(Ewma(ewma, ewvar));
  }

  lemma StartWalk(x: real)
    ensures Mix([x]) == x && Variance([x]) == 0.0
  {
    MixSingle(x);
    MixSingle(0.0);
    assert SquaresAbout([x], x) == [0.0];
  }

  // ----- bounds ----------------------------------------------------------------------------

  lemma InnerProduct(x: real, lo: real, hi: real)
    requires lo <= x <= hi
    ensures Square(x) <= (lo + hi) * x - lo * hi
  {
    assert (x - lo) * (hi - x) >= 0.0;
  }

  lemma SquareNonNegative(x: real)
    ensures Square(x) >= 0.0
  {
  }

  lemma {:induction false} VarianceNonNegative(xs: seq<real>)
    requires xs != []
    ensures Variance(xs) >= 0.0
    decreases |xs|
  {
    var front, x := xs[..|xs| - 1], xs[|xs| - 1];
    assert xs == front + [x];
    if front == [] {
      StartWalk(x);
    } else {
      VarianceNonNegative(front);
      WalkStep(front, x);
      SquareNonNegative(x - Mix(front));
    }
  }

  lemma {:induction false} MeanWithin(xs: seq<real>, lo: real, hi: real)
    requires xs != [] && Within(xs, lo, hi)
    ensures lo <= Mix(xs) <= hi
    decreases |xs|
  {
    var front, x := xs[..|xs| - 1], xs[|xs| - 1];
    assert xs == front + [x];
    if front == [] {
      MixSingle(x);
    } else {
      MeanWithin(front, lo, hi);
      MixAppend(front, x);
    }
  }

  lemma {:induction false} MeanSquareBelowChord(xs: seq<real>, lo: real, hi: real)
    requires xs != [] && Within(xs, lo, hi)
    ensures Mix(Squares(xs)) <= (lo + hi) * Mix(xs) - lo * hi
    decreases |xs|
  {
    var front, x := xs[..|xs| - 1], xs[|xs| - 1];
    assert xs == front + [x];
    InnerProduct(x, lo, hi);
    if front == [] {
      MixSingle(x);
      MixSingle(Square(x));
      assert Squares(xs) == [Square(x)];
    } else {
      MeanSquareBelowChord(front, lo, hi);
      MixAppend(front, x);
      SquaresAppend(front, 0.0, x);
      MixAppend(Squares(front), Square(x));
      var s, m := lo + hi, Mix(front);
      assert s * ((1.0 - ALPHA) * m + ALPHA * x) == (1.0 - ALPHA) * (s * m) + ALPHA * (s * x);
    }
  }

  lemma SplitSquare(m: real, lo: real, hi: real)
    ensures (hi - m) * (m - lo) == (lo + hi) * m - lo * hi - Square(m)
    ensures (hi - m) * (m - lo) <= Square(hi - lo) / 4.0
  {
    var a, b := hi - m, m - lo;
    SquareNonNegative(a - b);
    assert Square(a + b) == Square(a - b) + 4.0 * (a * b);
  }

  /**
   For every series inside [lo, hi] the baseline's mean stays inside it and its variance stays between 0
   and (hi - mean)(mean - lo), hence below a quarter of the squared range.
   */
  lemma BaselineBounds(xs: seq<real>, lo: real, hi: real)
    requires xs != [] && Within(xs, lo, hi)
    ensures lo <= Mix(xs) <= hi
    ensures 0.0 <= Variance(xs) <= (hi - Mix(xs)) * (Mix(xs) - lo) <= Square(hi - lo) / 4.0
  {
    MeanWithin(xs, lo, hi);
    VarianceNonNegative(xs);
    MeanSquareBelowChord(xs, lo, hi);
    VarianceAsMoments(xs);
    SplitSquare(Mix(xs), lo, hi);
  }

  /** After a step change to `b`, `k` samples leave the fraction 0.85^k of the old level in the baseline. */
  lemma {:induction false} StepChangeAbsorbed(xs: seq<real>, b: real, k: nat)
    requires xs != []
    ensures Mix(xs + seq(k, _ => b)) - b == Pow(0.85, k) * (Mix(xs) - b)
    decreases k
  {
    if k == 0 {
      assert xs + seq(0, _ => b) == xs;
    } else {
      StepChangeAbsorbed(xs, b, k - 1);
      var before := xs + seq(k - 1, _ => b);
      MixAppend(before, b);
      assert xs + seq(k, _ => b) == before + [b];
      assert (1.0 - ALPHA) * (Pow(1.0 - ALPHA, k - 1) * (Mix(xs) - b)) == Pow(1.0 - ALPHA, k) * (Mix(xs) - b);
    }
  }
}

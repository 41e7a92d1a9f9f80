// The three moving averages of stock_predictor.py: a rolling mean, a rolling
// linearly weighted mean, and exponential smoothing with adjust=False.

module MovingAverages {
  import opened Series

  /** The p closes ending at index i (the rolling window at i). */
  function Window(closes: seq<real>, p: nat, i: nat): (w: seq<real>)
    requires 1 <= p <= i + 1 <= |closes|
    ensures |w| == p
    ensures forall k :: 0 <= k < p ==> w[k] == closes[i + 1 - p + k]
  {
    closes[i + 1 - p..i + 1]
  }

  // ---------------------------------------------------------------- SMA

  /** `Close.rolling(window=p).mean()`: the first p - 1 positions have no full window. */
  function Sma(closes: seq<real>, p: nat): (ma: seq<Option<real>>)
    requires p >= 1
    ensures |ma| == |closes|
    ensures forall i :: 0 <= i < |closes| ==> (ma[i].None? <==> i < p - 1)
  {
    seq(|closes|, i requires 0 <= i < |closes| =>
      if i < p - 1 then None else Some(Mean(Window(closes, p, i))))
  }

  /** A defined SMA value lies between the smallest and largest close of its window. */
  lemma SmaWithin(closes: seq<real>, p: nat, i: nat, lo: real, hi: real)
    requires 1 <= p <= i + 1 <= |closes|
    requires forall k :: i + 1 - p <= k <= i ==> lo <= closes[k] <= hi
    ensures Sma(closes, p)[i].Some?
    ensures lo <= Sma(closes, p)[i].value <= hi
  {
    MeanWithin(Window(closes, p, i), lo, hi);
  }

  /** Over positive prices every defined SMA value is positive, so it can be divided by. */
  lemma SmaPositive(closes: seq<real>, p: nat)
    requires p >= 1
    requires Positive(closes)
    ensures forall i :: 0 <= i < |closes| && Sma(closes, p)[i].Some? ==> Sma(closes, p)[i].value > 0.0
  {
    forall i | 0 <= i < |closes| && Sma(closes, p)[i].Some?
      ensures Sma(closes, p)[i].value > 0.0
    {
      var w := Window(closes, p, i);
      SumAbove(w, 0.0);
    }
  }

  /** The rolling update: moving the window one step adds the new close and drops the
      oldest one, each weighted 1/p. */
  lemma SmaSlide(closes: seq<real>, p: nat, i: nat)
    requires 1 <= p <= i < |closes|
    ensures Sma(closes, p)[i].Some? && Sma(closes, p)[i - 1].Some?
    ensures Sma(closes, p)[i].value
         == Sma(closes, p)[i - 1].value + (closes[i] - closes[i - p]) / p as real
  {
    var prev, cur := Window(closes, p, i - 1), Window(closes, p, i);
    var shared := closes[i + 1 - p..i];
    assert prev[1..] == shared;
    assert cur[..p - 1] == shared;
    SumFront(prev);
    assert Sum(cur) == Sum(shared) + closes[i];
    assert Sum(cur) == Sum(prev) - closes[i - p] + closes[i];
    var n := p as real;
    assert Sum(cur) / n == Sum(prev) / n + (closes[i] - closes[i - p]) / n;
  }

  /** Worked example: SMA(5) over the closes 10, 11, ..., 20. */
  lemma SmaExample()
    ensures Sma([10.0, 11.0, 12.0, 13.0, 14.0, 15.0, 16.0, 17.0, 18.0, 19.0, 20.0], 5)[4] == Some(12.0)
    ensures Sma([10.0, 11.0, 12.0, 13.0, 14.0, 15.0, 16.0, 17.0, 18.0, 19.0, 20.0], 5)[10] == Some(18.0)
  {
    var xs := [10.0, 11.0, 12.0, 13.0, 14.0, 15.0, 16.0, 17.0, 18.0, 19.0, 20.0];
    assert Window(xs, 5, 4) == [10.0, 11.0, 12.0, 13.0, 14.0];
    assert Window(xs, 5, 10) == [16.0, 17.0, 18.0, 19.0, 20.0];
    assert Sum([10.0, 11.0, 12.0, 13.0, 14.0]) == 60.0 by {
      assert [10.0, 11.0, 12.0, 13.0, 14.0][..4] == [10.0, 11.0, 12.0, 13.0];
      assert [10.0, 11.0, 12.0, 13.0][..3] == [10.0, 11.0, 12.0];
      assert [10.0, 11.0, 12.0][..2] == [10.0, 11.0];
      assert [10.0, 11.0][..1] == [10.0];
      assert [10.0][..0] == [];
    }
    assert Sum([16.0, 17.0, 18.0, 19.0, 20.0]) == 90.0 by {
      assert [16.0, 17.0, 18.0, 19.0, 20.0][..4] == [16.0, 17.0, 18.0, 19.0];
      assert [16.0, 17.0, 18.0, 19.0][..3] == [16.0, 17.0, 18.0];
      assert [16.0, 17.0, 18.0][..2] == [16.0, 17.0];
      assert [16.0, 17.0][..1] == [16.0];
      assert [16.0][..0] == [];
    }
  }

  // ---------------------------------------------------------------- LWMA

  /** `rolling(window=p).apply(np.dot(x, weights) / weights.sum())` with weights 1..p:
      the newest close of each window carries the largest weight, p. */
  function Lwma(closes: seq<real>, p: nat): (ma: seq<Option<real>>)
    requires p >= 1
    ensures |ma| == |closes|
    ensures forall i :: 0 <= i < |closes| ==> (ma[i].None? <==> i < p - 1)
  {
    seq(|closes|, i requires 0 <= i < |closes| =>
      if i < p - 1 then None
      else Some(Dot(Window(closes, p, i), Weights(p)) / WeightTotal(p)))
  }

  /** `weights.sum()`: the weights 1..p add up to the triangular number p(p+1)/2. */
  function WeightTotal(p: nat): (t: real)
    requires p >= 1
    ensures t == (p * (p + 1)) as real / 2.0
    ensures t >= 1.0
  {
    WeightsTotal(p);
    Sum(Weights(p))
  }

  /** A window of equal closes yields exactly that close: the weights are normalised. */
  lemma LwmaOfFlatWindow(closes: seq<real>, p: nat, i: nat, c: real)
    requires 1 <= p <= i + 1 <= |closes|
    requires forall k :: i + 1 - p <= k <= i ==> closes[k] == c
    ensures Lwma(closes, p)[i] == Some(c)
  {
    var w := Window(closes, p, i);
    DotConstant(w, Weights(p), c);
    assert Dot(w, Weights(p)) / WeightTotal(p) == c;
  }

  /** On a window that never falls, weighting recent closes more puts the LWMA at or
      above the SMA of the same window. */
  lemma LwmaAtLeastSma(closes: seq<real>, p: nat, i: nat)
    requires 1 <= p <= i + 1 <= |closes|
    requires NonDecreasing(Window(closes, p, i))
    ensures Lwma(closes, p)[i].Some? && Sma(closes, p)[i].Some?
    ensures Lwma(closes, p)[i].value >= Sma(closes, p)[i].value
  {
    var w := Window(closes, p, i);
    WeightedSumDominates(w);
    WeightedOverTriangular(Dot(w, Weights(p)), Sum(w), p as real);
  }

  /** Dividing out the step of LwmaAtLeastSma: 2d >= (n + 1)s gives d / (n(n+1)/2) >= s / n. */
  lemma WeightedOverTriangular(d: real, s: real, n: real)
    requires n >= 1.0
    requires 2.0 * d >= (n + 1.0) * s
    ensures d / (n * (n + 1.0) / 2.0) >= s / n
  {
    var q := n * (n + 1.0);
    assert q > 0.0;
    assert d / (q / 2.0) == 2.0 * d / q;
    assert s / n == (n + 1.0) * s / q;
  }

  // ---------------------------------------------------------------- EMA

  /** The smoothing factor of `ewm(span=p)`: alpha = 2 / (p + 1). */
  function Alpha(p: nat): (a: real)
    requires p >= 1
    ensures 0.0 < a <= 1.0
  {
    2.0 / (p as real + 1.0)
  }

  /** Exponential smoothing with adjust=False, seeded at the first close. */
  function EmaAt(closes: seq<real>, alpha: real, i: nat): real
    requires i < |closes|
  {
    if i == 0 then closes[0]
    else closes[i] * alpha + EmaAt(closes, alpha, i - 1) * (1.0 - alpha)
  }

  /** `Close.ewm(span=p, adjust=False).mean()`: defined at every position, with no warm-up. */
  function Ema(closes: seq<real>, p: nat): (ma: seq<real>)
    requires p >= 1
    ensures |ma| == |closes|
    ensures |closes| > 0 ==> ma[0] == closes[0]
    ensures forall i :: 1 <= i < |closes| ==>
      ma[i] == closes[i] * Alpha(p) + ma[i - 1] * (1.0 - Alpha(p))
  {
    seq(|closes|, i requires 0 <= i < |closes| => EmaAt(closes, Alpha(p), i))
  }

  /** Each EMA value is a convex combination of the closes so far, so it stays within any
      bounds of them. */
  lemma {:induction false} EmaWithin(closes: seq<real>, p: nat, i: nat, lo: real, hi: real)
    requires p >= 1 && i < |closes|
    requires forall k :: 0 <= k <= i ==> lo <= closes[k] <= hi
    ensures lo <= Ema(closes, p)[i] <= hi
  {
    var a := Alpha(p);
    if i > 0 {
      EmaWithin(closes, p, i - 1, lo, hi);
      var e, c := EmaAt(closes, a, i - 1), closes[i];
      assert Ema(closes, p)[i - 1] == e;
      assert Ema(closes, p)[i] == c * a + e * (1.0 - a);
      ConvexWithin(c, e, a, lo, hi);
    }
  }

  /** A convex combination of two values within [lo, hi] stays within [lo, hi]. */
  lemma ConvexWithin(c: real, e: real, a: real, lo: real, hi: real)
    requires 0.0 < a <= 1.0
    requires lo <= c <= hi && lo <= e <= hi
    ensures lo <= c * a + e * (1.0 - a) <= hi
  {
    var b := 1.0 - a;
    assert c * a + e * b - lo == (c - lo) * a + (e - lo) * b;
    assert hi - (c * a + e * b) == (hi - c) * a + (hi - e) * b;
    NonNegativeProduct(c - lo, a);
    NonNegativeProduct(e - lo, b);
    NonNegativeProduct(hi - c, a);
    NonNegativeProduct(hi - e, b);
  }

  lemma NonNegativeProduct(x: real, y: real)
    requires x >= 0.0 && y >= 0.0
    ensures x * y >= 0.0
  {
  }

  /** A flat series is its own EMA. */
  lemma EmaOfFlatSeries(closes: seq<real>, p: nat, c: real)
    requires p >= 1
    requires forall k :: 0 <= k < |closes| ==> closes[k] == c
    ensures forall i :: 0 <= i < |closes| ==> Ema(closes, p)[i] == c
  {
    forall i | 0 <= i < |closes| ensures Ema(closes, p)[i] == c {
      EmaWithin(closes, p, i, c, c);
    }
  }
}

// Closing-price series and the arithmetic the moving averages are built from.
// A series is the `Close` column of the fetched history, oldest first.

module Series {

  /** A value that may be missing; pandas represents the missing case as NaN. */
  datatype Option<+T> = None | Some(value: T)

  /** The outcome of a request that the program can reject. */
  datatype Result<+T, +E> = Ok(value: T) | Err(error: E)

  /** Every close is a strictly positive price. */
  predicate Positive(closes: seq<real>)
  {
    forall i :: 0 <= i < |closes| ==> closes[i] > 0.0
  }

  /** Every element is at most the next one. */
  predicate NonDecreasing(xs: seq<real>)
  {
    forall i, j :: 0 <= i <= j < |xs| ==> xs[i] <= xs[j]
  }

  /** Every element is below the next one. */
  predicate StrictlyIncreasing(xs: seq<real>)
  {
    forall i, j :: 0 <= i < j < |xs| ==> xs[i] < xs[j]
  }

  /** Every element is above the next one. */
  predicate StrictlyDecreasing(xs: seq<real>)
  {
    forall i, j :: 0 <= i < j < |xs| ==> xs[i] > xs[j]
  }

  /** The last element of a series (`iloc[-1]`), missing for an empty one. */
  function Last<T>(xs: seq<Option<T>>): (r: Option<T>)
    ensures |xs| > 0 ==> r == xs[|xs| - 1]
    ensures |xs| == 0 ==> r == None
  {
    if xs == [] then None else xs[|xs| - 1]
  }

  function Sum(xs: seq<real>): real
  {
    if xs == [] then 0.0 else Sum(xs[..|xs| - 1]) + xs[|xs| - 1]
  }

  /** The arithmetic mean of a non-empty sample. */
  function Mean(xs: seq<real>): real
    requires |xs| > 0
  {
    Sum(xs) / |xs| as real
  }

  /** The weights 1, 2, ..., p of a linearly weighted window (`np.arange(1, p + 1)`). */
  function Weights(p: nat): (w: seq<real>)
    ensures |w| == p
    ensures forall k :: 0 <= k < p ==> w[k] == (k + 1) as real
  {
    seq(p, k requires 0 <= k < p => (k + 1) as real)
  }

  /** The dot product of two equally long vectors (`np.dot`). */
  function Dot(xs: seq<real>, ws: seq<real>): real
    requires |xs| == |ws|
  {
    if xs == [] then 0.0
    else Dot(xs[..|xs| - 1], ws[..|ws| - 1]) + xs[|xs| - 1] * ws[|ws| - 1]
  }

  // ---------------------------------------------------------------- sums

  lemma {:induction false} SumFront(xs: seq<real>)
    requires |xs| > 0
    ensures Sum(xs) == xs[0] + Sum(xs[1..])
  {
    if |xs| > 1 {
      SumFront(xs[..|xs| - 1]);
      assert xs[..|xs| - 1][1..] == xs[1..][..|xs[1..]| - 1];
    }
  }

  lemma {:induction false} SumAppend(a: seq<real>, b: seq<real>)
    ensures Sum(a + b) == Sum(a) + Sum(b)
  {
    if b != [] {
      assert (a + b)[..|a + b| - 1] == a + b[..|b| - 1];
      SumAppend(a, b[..|b| - 1]);
    } else {
      assert a + b == a;
    }
  }

  /** A sample whose elements all equal c sums to |xs| * c. */
  lemma {:induction false} SumConstant(xs: seq<real>, c: real)
    requires forall k :: 0 <= k < |xs| ==> xs[k] == c
    ensures Sum(xs) == |xs| as real * c
  {
    if xs != [] {
      SumConstant(xs[..|xs| - 1], c);
    }
  }

  /** A sample whose elements all exceed lo sums to more than |xs| * lo. */
  lemma {:induction false} SumAbove(xs: seq<real>, lo: real)
    requires |xs| > 0
    requires forall k :: 0 <= k < |xs| ==> xs[k] > lo
    ensures Sum(xs) > |xs| as real * lo
  {
    if |xs| > 1 {
      SumAbove(xs[..|xs| - 1], lo);
    }
  }

  /** A non-empty sample whose elements are all below hi sums to less than |xs| * hi. */
  lemma {:induction false} SumBelow(xs: seq<real>, hi: real)
    requires |xs| > 0
    requires forall k :: 0 <= k < |xs| ==> xs[k] < hi
    ensures Sum(xs) < |xs| as real * hi
  {
    if |xs| > 1 {
      SumBelow(xs[..|xs| - 1], hi);
    }
  }

  /** A sample whose elements are all at least lo sums to at least |xs| * lo. */
  lemma {:induction false} SumAtLeast(xs: seq<real>, lo: real)
    requires forall k :: 0 <= k < |xs| ==> xs[k] >= lo
    ensures Sum(xs) >= |xs| as real * lo
  {
    if xs != [] {
      SumAtLeast(xs[..|xs| - 1], lo);
    }
  }

  /** A sample whose elements are all at most hi sums to at most |xs| * hi. */
  lemma {:induction false} SumAtMost(xs: seq<real>, hi: real)
    requires forall k :: 0 <= k < |xs| ==> xs[k] <= hi
    ensures Sum(xs) <= |xs| as real * hi
  {
    if xs != [] {
      SumAtMost(xs[..|xs| - 1], hi);
    }
  }

  /** The mean of a sample whose elements all exceed lo exceeds lo. */
  lemma MeanAbove(xs: seq<real>, lo: real)
    requires |xs| > 0
    requires forall k :: 0 <= k < |xs| ==> xs[k] > lo
    ensures Mean(xs) > lo
  {
    SumAbove(xs, lo);
    var n := |xs| as real;
    assert Sum(xs) > n * lo;
  }

  /** The mean of a sample lies within any bounds of its elements. */
  lemma MeanWithin(xs: seq<real>, lo: real, hi: real)
    requires |xs| > 0
    requires forall k :: 0 <= k < |xs| ==> lo <= xs[k] <= hi
    ensures lo <= Mean(xs) <= hi
  {
    SumAtLeast(xs, lo);
    SumAtMost(xs, hi);
    var n := |xs| as real;
    assert Sum(xs) / n >= lo by { assert Sum(xs) >= n * lo; }
    assert Sum(xs) / n <= hi by { assert Sum(xs) <= n * hi; }
  }

  // ---------------------------------------------------------------- weights

  /** The weights 1..p add up to p(p+1)/2. */
  lemma {:induction false} WeightsTotal(p: nat)
    ensures Sum(Weights(p)) == (p * (p + 1)) as real / 2.0
  {
    if p > 0 {
      assert Weights(p)[..p - 1] == Weights(p - 1);
      WeightsTotal(p - 1);
      assert Sum(Weights(p)) == Sum(Weights(p - 1)) + p as real;
      assert (p - 1) * p + 2 * p == p * (p + 1);
    }
  }

  /** Weighting a flat window by any weights scales the weights' total. */
  lemma {:induction false} DotConstant(xs: seq<real>, ws: seq<real>, c: real)
    requires |xs| == |ws|
    requires forall k :: 0 <= k < |xs| ==> xs[k] == c
    ensures Dot(xs, ws) == c * Sum(ws)
  {
    if xs != [] {
      DotConstant(xs[..|xs| - 1], ws[..|ws| - 1], c);
    }
  }

  /** Chebyshev's sum inequality for the linear weights: on a non-decreasing window,
      twice the weighted sum is at least (p + 1) times the plain sum. */
  lemma {:induction false} WeightedSumDominates(xs: seq<real>)
    requires NonDecreasing(xs)
    ensures 2.0 * Dot(xs, Weights(|xs|)) >= (|xs| + 1) as real * Sum(xs)
  {
    if xs != [] {
      var n := |xs| - 1;
      var init := xs[..n];
      var last := xs[n];
      assert Weights(|xs|)[..n] == Weights(n);
      assert NonDecreasing(init);
      WeightedSumDominates(init);
      assert forall k :: 0 <= k < |init| ==> init[k] <= last;
      SumAtMost(init, last);
      // 2 W(init) >= (n + 1) S(init) and S(init) <= n * last give the step.
      var w, s, m := Dot(init, Weights(n)), Sum(init), n as real;
      assert Dot(xs, Weights(|xs|)) == w + last * (m + 1.0);
      assert Sum(xs) == s + last;
      assert 2.0 * w >= (m + 1.0) * s;
      assert s <= m * last;
      calc {
        2.0 * (w + last * (m + 1.0));
        == 2.0 * w + 2.0 * (m + 1.0) * last;
        >= (m + 1.0) * s + 2.0 * (m + 1.0) * last;
        == (m + 2.0) * s - s + 2.0 * (m + 1.0) * last;
        >= (m + 2.0) * s - m * last + 2.0 * (m + 1.0) * last;
        == (m + 2.0) * (s + last);
      }
    }
  }
}

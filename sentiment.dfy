// Market sentiment (regime) from the trend of a reference index's SMA:
// `calculate_sentiment` in stock_predictor.py.

module Sentiment {
  import opened Series

  datatype Regime = Bullish | Bearish | Sideways

  /** Defaults of `calculate_sentiment`, and the SMA window `main` applies to the index. */
  const DefaultLookback: nat := 5
  const DefaultThreshold: real := 0.005
  const ReferenceWindow: nat := 50

  /** The reference average can be divided by wherever it is defined. */
  predicate NonZeroWhereDefined(sma: seq<Option<real>>)
  {
    forall i :: 0 <= i < |sma| && sma[i].Some? ==> sma[i].value != 0.0
  }

  /** `(sma - sma.shift(k)) / sma.shift(k)` at index i, as a fraction; missing before index k
      and wherever either operand is missing. */
  function PctChange(sma: seq<Option<real>>, k: nat, i: nat): (r: Option<real>)
    requires i < |sma|
    requires NonZeroWhereDefined(sma)
    ensures r.None? <==> i < k || sma[i].None? || sma[i - k].None?
    ensures r.Some? ==> sma[i].value == sma[i - k].value * (1.0 + r.value)
  {
    if i < k || sma[i].None? || sma[i - k].None? then None
    else Some((sma[i].value - sma[i - k].value) / sma[i - k].value)
  }

  // The three masks. A comparison against a missing value is false, so a missing
  // change falls in none of them.

  predicate BullishMask(pct: Option<real>, threshold: real)
  {
    pct.Some? && pct.value > threshold
  }

  predicate BearishMask(pct: Option<real>, threshold: real)
  {
    pct.Some? && pct.value < -threshold
  }

  predicate SidewaysMask(pct: Option<real>, threshold: real)
  {
    pct.Some? && -threshold <= pct.value && pct.value <= threshold
  }

  /** What one position holds after the Series is allocated empty and the Bullish, Bearish
      and Sideways masks are assigned in that order: a later mask overwrites an earlier one.
      Whatever the threshold, every defined change falls in some mask, so a label is missing
      exactly where the change is. */
  function MaskedLabel(pct: Option<real>, threshold: real): (r: Option<Regime>)
    ensures r.None? <==> pct.None?
    ensures r == Some(Sideways) <==> SidewaysMask(pct, threshold)
    ensures r == Some(Bearish) <==> BearishMask(pct, threshold) && !SidewaysMask(pct, threshold)
    ensures r == Some(Bullish) <==>
      BullishMask(pct, threshold) && !BearishMask(pct, threshold) && !SidewaysMask(pct, threshold)
  {
    if SidewaysMask(pct, threshold) then Some(Sideways)
    else if BearishMask(pct, threshold) then Some(Bearish)
    else if BullishMask(pct, threshold) then Some(Bullish)
    else None
  }

  /** The label series `calculate_sentiment` returns, aligned with the reference average. */
  function Labels(sma: seq<Option<real>>, k: nat, threshold: real): (labels: seq<Option<Regime>>)
    requires NonZeroWhereDefined(sma)
    ensures |labels| == |sma|
  {
    seq(|sma|, i requires 0 <= i < |sma| => MaskedLabel(PctChange(sma, k, i), threshold))
  }

  /** `calculate_sentiment`: allocate an all-missing Series, then fill it with three masked
      in-place assignments. */
  method CalculateSentiment(sma: seq<Option<real>>, k: nat, threshold: real)
    returns (labels: seq<Option<Regime>>)
    requires NonZeroWhereDefined(sma)
    ensures labels == Labels(sma, k, threshold)
  {
    var pct := seq(|sma|, i requires 0 <= i < |sma| => PctChange(sma, k, i));
    var sentiment := new Option<Regime>[|sma|](_ => None);
    forall i | 0 <= i < sentiment.Length && BullishMask(pct[i], threshold) {
      sentiment[i] := Some(Bullish);
    }
    forall i | 0 <= i < sentiment.Length && BearishMask(pct[i], threshold) {
      sentiment[i] := Some(Bearish);
    }
    forall i | 0 <= i < sentiment.Length && SidewaysMask(pct[i], threshold) {
      sentiment[i] := Some(Sideways);
    }
    labels := sentiment[..];
  }

  /** For a non-negative threshold the masks are pairwise disjoint, so the order of the
      three assignments does not matter. */
  lemma MasksDisjoint(pct: Option<real>, threshold: real)
    requires threshold >= 0.0
    ensures !(BullishMask(pct, threshold) && BearishMask(pct, threshold))
    ensures !(BullishMask(pct, threshold) && SidewaysMask(pct, threshold))
    ensures !(BearishMask(pct, threshold) && SidewaysMask(pct, threshold))
  {
  }

  /** With a negative threshold the Bullish and Bearish masks overlap and the later
      Bearish assignment wins: a flat reference is labelled Bearish. */
  lemma NegativeThresholdOverlap()
    ensures BullishMask(Some(0.0), -1.0) && BearishMask(Some(0.0), -1.0)
    ensures MaskedLabel(Some(0.0), -1.0) == Some(Bearish)
  {
  }

  /** The label at each position: missing exactly when the change is undefined; otherwise
      exactly one of Bullish (change above the threshold), Bearish (below its negation) and
      Sideways (within both bounds, inclusive). */
  lemma LabelAt(sma: seq<Option<real>>, k: nat, threshold: real, i: nat)
    requires NonZeroWhereDefined(sma)
    requires threshold >= 0.0
    requires i < |sma|
    ensures Labels(sma, k, threshold)[i].None? <==> i < k || sma[i].None? || sma[i - k].None?
    ensures var pct := PctChange(sma, k, i);
      && (Labels(sma, k, threshold)[i] == Some(Bullish) <==> pct.Some? && pct.value > threshold)
      && (Labels(sma, k, threshold)[i] == Some(Bearish) <==> pct.Some? && pct.value < -threshold)
      && (Labels(sma, k, threshold)[i] == Some(Sideways) <==>
            pct.Some? && -threshold <= pct.value <= threshold)
  {
    MasksDisjoint(PctChange(sma, k, i), threshold);
  }

  /** A reference average that rose by 1% over the lookback is Bullish under the defaults. */
  lemma RisingReferenceIsBullish(sma: seq<Option<real>>, i: nat)
    requires NonZeroWhereDefined(sma)
    requires DefaultLookback <= i < |sma|
    requires sma[i].Some? && sma[i - DefaultLookback].Some?
    requires sma[i].value == sma[i - DefaultLookback].value * 1.01
    ensures Labels(sma, DefaultLookback, DefaultThreshold)[i] == Some(Bullish)
  {
    var base := sma[i - DefaultLookback].value;
    assert base != 0.0;
    assert sma[i].value - base == 0.01 * base;
    assert (0.01 * base) / base == 0.01;
    assert PctChange(sma, DefaultLookback, i) == Some(0.01);
  }
}

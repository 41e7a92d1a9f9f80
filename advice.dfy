// The Buy / Sell / Hold rules of options a-g of `main` in stock_predictor.py, the
// period guard in front of options a-c, and the check on the symbol's exchange suffix.

module Advice {
  import opened Series
  import opened MovingAverages

  datatype Recommendation = Buy | Sell | Hold

  // ---------------------------------------------------------------- comparison rules

  /** `"Buy" if x > y else "Sell"`: a tie, or a comparison against NaN, gives Sell. */
  function BuyIfAbove(x: Option<real>, y: Option<real>): (r: Recommendation)
    ensures r != Hold
    ensures r == Buy <==> x.Some? && y.Some? && x.value > y.value
  {
    if x.Some? && y.Some? && x.value > y.value then Buy else Sell
  }

  /** `"Buy" if a > b else "Sell" if a < b else "Hold"`, the 5/20 rule. */
  function TwoAverageAdvice(a: Option<real>, b: Option<real>): (r: Recommendation)
    ensures r == Buy <==> a.Some? && b.Some? && a.value > b.value
    ensures r == Sell <==> a.Some? && b.Some? && a.value < b.value
    ensures r == Hold <==> a.None? || b.None? || a.value == b.value
  {
    if a.Some? && b.Some? && a.value > b.value then Buy
    else if a.Some? && b.Some? && a.value < b.value then Sell
    else Hold
  }

  /** Python's chained comparison `v0 > v1 > ...`: each link is evaluated in turn, and a
      comparison involving NaN is false. */
  predicate ChainedGreater(vals: seq<Option<real>>)
  {
    |vals| < 2
    || (vals[0].Some? && vals[1].Some? && vals[0].value > vals[1].value
        && ChainedGreater(vals[1..]))
  }

  /** Python's chained comparison `v0 < v1 < ...`. */
  predicate ChainedLess(vals: seq<Option<real>>)
  {
    |vals| < 2
    || (vals[0].Some? && vals[1].Some? && vals[0].value < vals[1].value
        && ChainedLess(vals[1..]))
  }

  /** Link j of a chain: both values are defined and the first is above the second. */
  predicate LinkFalls(vals: seq<Option<real>>, j: nat)
    requires j + 1 < |vals|
  {
    vals[j].Some? && vals[j + 1].Some? && vals[j].value > vals[j + 1].value
  }

  /** Link j of a chain: both values are defined and the first is below the second. */
  predicate LinkRises(vals: seq<Option<real>>, j: nat)
    requires j + 1 < |vals|
  {
    vals[j].Some? && vals[j + 1].Some? && vals[j].value < vals[j + 1].value
  }

  /** Every value is defined and each is above the next. */
  predicate FallingChain(vals: seq<Option<real>>)
  {
    forall j: nat :: j + 1 < |vals| ==> LinkFalls(vals, j)
  }

  /** Every value is defined and each is below the next. */
  predicate RisingChain(vals: seq<Option<real>>)
  {
    forall j: nat :: j + 1 < |vals| ==> LinkRises(vals, j)
  }

  lemma {:induction false} ChainedGreaterIsFalling(vals: seq<Option<real>>)
    ensures ChainedGreater(vals) <==> FallingChain(vals)
  {
    if |vals| >= 2 {
      var tail := vals[1..];
      ChainedGreaterIsFalling(tail);
      forall j: nat | j + 1 < |tail|
        ensures LinkFalls(tail, j) <==> LinkFalls(vals, j + 1)
      {
        assert tail[j] == vals[j + 1] && tail[j + 1] == vals[j + 2];
      }
      if ChainedGreater(vals) {
        forall j: nat | j + 1 < |vals| ensures LinkFalls(vals, j) {
          if j > 0 {
            assert LinkFalls(tail, j - 1);
            assert LinkFalls(vals, (j - 1) + 1);
          }
        }
      } else {
        if LinkFalls(vals, 0) {
          var j: nat :| j + 1 < |tail| && !LinkFalls(tail, j);
          assert !LinkFalls(vals, j + 1);
        }
      }
    }
  }

  lemma {:induction false} ChainedLessIsRising(vals: seq<Option<real>>)
    ensures ChainedLess(vals) <==> RisingChain(vals)
  {
    if |vals| >= 2 {
      var tail := vals[1..];
      ChainedLessIsRising(tail);
      forall j: nat | j + 1 < |tail|
        ensures LinkRises(tail, j) <==> LinkRises(vals, j + 1)
      {
        assert tail[j] == vals[j + 1] && tail[j + 1] == vals[j + 2];
      }
      if ChainedLess(vals) {
        forall j: nat | j + 1 < |vals| ensures LinkRises(vals, j) {
          if j > 0 {
            assert LinkRises(tail, j - 1);
            assert LinkRises(vals, (j - 1) + 1);
          }
        }
      } else {
        if LinkRises(vals, 0) {
          var j: nat :| j + 1 < |tail| && !LinkRises(tail, j);
          assert !LinkRises(vals, j + 1);
        }
      }
    }
  }

  /** The ordered-chain rule of options e and f: Buy when the shorter averages are strictly
      greater all the way down the chain, Sell when they are strictly less all the way,
      Hold otherwise (including whenever a value is undefined). */
  function ChainAdvice(vals: seq<Option<real>>): (r: Recommendation)
    requires |vals| >= 2
    ensures r == Buy <==> FallingChain(vals)
    ensures r == Sell <==> RisingChain(vals)
    ensures r == Hold <==> !FallingChain(vals) && !RisingChain(vals)
  {
    ChainedGreaterIsFalling(vals);
    ChainedLessIsRising(vals);
    if ChainedGreater(vals) then Buy
    else if ChainedLess(vals) then Sell
    else Hold
  }

  /** The 5/20 rule is the two-link chain rule, and it holds exactly when the two averages
      are equal or one of them is undefined. */
  lemma TwoAverageIsChain(a: Option<real>, b: Option<real>)
    ensures TwoAverageAdvice(a, b) == ChainAdvice([a, b])
    ensures TwoAverageAdvice(a, b) == Hold <==> a.None? || b.None? || a.value == b.value
  {
    var vals := [a, b];
    assert FallingChain(vals) <==> LinkFalls(vals, 0);
    assert RisingChain(vals) <==> LinkRises(vals, 0);
  }

  // ---------------------------------------------------------------- requests

  datatype MaKind = Simple | LinearlyWeighted | Exponential

  /** The analyses of options a-g of the menu. */
  datatype Request =
    | SingleAverage(kind: MaKind, period: int)  // a, b, c
    | TwoAverages                               // d: SMA(5) against SMA(20)
    | TripleCrossover                           // e: SMA(5), SMA(10), SMA(20)
    | FourNineEighteenTwenty                    // f: SMA(4), SMA(9), SMA(18), SMA(20)
    | TenVersusFifty                            // g: SMA(10) against SMA(50)

  datatype RequestError = PeriodExceedsHistory | NonPositivePeriod

  /** The guard of options a-c: a period longer than the history is rejected. */
  predicate PeriodFits(period: int, available: nat)
  {
    period <= available
  }

  function MovingAverage(kind: MaKind, closes: seq<real>, p: nat): (ma: seq<Option<real>>)
    requires p >= 1
    ensures |ma| == |closes|
  {
    match kind
    case Simple => Sma(closes, p)
    case LinearlyWeighted => Lwma(closes, p)
    case Exponential => seq(|closes|, i requires 0 <= i < |closes| => Some(Ema(closes, p)[i]))
  }

  /** `calculate_sma(hist, p).iloc[-1]`. */
  function LastSma(closes: seq<real>, p: nat): Option<real>
    requires p >= 1
  {
    Last(Sma(closes, p))
  }

  /** The recommendation of one analysis, given the history and the live price. Only
      options a-c can be rejected, the length check first; options a-c and g never say Hold. */
  function Recommend(req: Request, closes: seq<real>, price: real)
    : (r: Result<Recommendation, RequestError>)
    ensures r == Err(PeriodExceedsHistory) <==> req.SingleAverage? && req.period > |closes|
    ensures r == Err(NonPositivePeriod) <==> req.SingleAverage? && req.period < 1 && req.period <= |closes|
    ensures (req.SingleAverage? || req.TenVersusFifty?) ==> r != Ok(Hold)
  {
    match req
    case SingleAverage(kind, period) =>
      if !PeriodFits(period, |closes|) then Err(PeriodExceedsHistory)
      else if period < 1 then Err(NonPositivePeriod)
      else Ok(BuyIfAbove(Some(price), Last(MovingAverage(kind, closes, period))))
    case TwoAverages =>
      Ok(TwoAverageAdvice(LastSma(closes, 5), LastSma(closes, 20)))
    case TripleCrossover =>
      Ok(ChainAdvice([LastSma(closes, 5), LastSma(closes, 10), LastSma(closes, 20)]))
    case FourNineEighteenTwenty =>
      Ok(ChainAdvice([LastSma(closes, 4), LastSma(closes, 9), LastSma(closes, 18), LastSma(closes, 20)]))
    case TenVersusFifty =>
      Ok(BuyIfAbove(LastSma(closes, 10), LastSma(closes, 50)))
  }

  /** Past the period guard the latest average is always defined, and options a-c say Buy
      exactly when the live price is strictly above it (a tie is Sell); for SMA that
      average is the mean of the last `period` closes. A period longer than the history
      is rejected before anything is computed. */
  lemma SingleAverageAdvice(kind: MaKind, period: int, closes: seq<real>, price: real)
    ensures period > |closes| ==>
      Recommend(SingleAverage(kind, period), closes, price) == Err(PeriodExceedsHistory)
    ensures 1 <= period <= |closes| ==>
      var last := Last(MovingAverage(kind, closes, period));
      && last.Some?
      && (kind == Simple ==> last.value == Mean(closes[|closes| - period..]))
      && (Recommend(SingleAverage(kind, period), closes, price) == Ok(Buy) <==> price > last.value)
      && Recommend(SingleAverage(kind, period), closes, price) != Ok(Hold)
  {
    if 1 <= period <= |closes| {
      var i := |closes| - 1;
      var ma := MovingAverage(kind, closes, period);
      assert Last(ma) == ma[i];
      assert ma[i].Some?;
      if kind == Simple {
        assert Window(closes, period, i) == closes[|closes| - period..];
      }
    }
  }

  // ---------------------------------------------------------------- trends

  /** Once the history covers the window, the latest SMA is the mean of the last p closes. */
  lemma LastSmaIsSuffixMean(closes: seq<real>, p: nat)
    requires 1 <= p <= |closes|
    ensures LastSma(closes, p) == Some(Mean(closes[|closes| - p..]))
  {
    assert Window(closes, p, |closes| - 1) == closes[|closes| - p..];
  }

  /** In a steady rise the mean of the last p closes is above the mean of the last q > p. */
  lemma SuffixMeanRising(xs: seq<real>, p: nat, q: nat)
    requires StrictlyIncreasing(xs)
    requires 1 <= p < q <= |xs|
    ensures Mean(xs[|xs| - p..]) > Mean(xs[|xs| - q..])
  {
    var from, mid := |xs| - q, |xs| - p;
    RisingBlocks(xs, from, mid);
    MeanOfSplit(xs, from, mid);
    MeansCompare(Sum(xs[mid..]), Sum(xs[from..mid]), xs[mid], p as real, (q - p) as real);
  }

  /** In a steady rise every close from `mid` on is at least xs[mid], and every close
      before it is below. */
  lemma RisingBlocks(xs: seq<real>, from: nat, mid: nat)
    requires StrictlyIncreasing(xs)
    requires from < mid < |xs|
    ensures Sum(xs[mid..]) >= (|xs| - mid) as real * xs[mid]
    ensures Sum(xs[from..mid]) < (mid - from) as real * xs[mid]
  {
    var recent, older := xs[mid..], xs[from..mid];
    forall k | 0 <= k < |recent| ensures recent[k] >= xs[mid] {
      assert recent[k] == xs[mid + k];
    }
    forall k | 0 <= k < |older| ensures older[k] < xs[mid] {
      assert older[k] == xs[from + k];
    }
    SumAtLeast(recent, xs[mid]);
    SumBelow(older, xs[mid]);
  }

  /** The mean of a suffix split into an older and a recent block. */
  lemma MeanOfSplit(xs: seq<real>, from: nat, mid: nat)
    requires from < mid < |xs|
    ensures Mean(xs[from..]) == (Sum(xs[from..mid]) + Sum(xs[mid..])) / ((mid - from) as real + (|xs| - mid) as real)
  {
    assert xs[from..] == xs[from..mid] + xs[mid..];
    SumAppend(xs[from..mid], xs[mid..]);
  }

  /** The arithmetic of SuffixMeanRising: a recent block of p values, all at least m, and an
      older block of r values, summing to less than r * m. */
  lemma MeansCompare(recent: real, older: real, m: real, p: real, r: real)
    requires p >= 1.0 && r >= 1.0
    requires recent >= p * m && older < r * m
    ensures recent / p > (older + recent) / (p + r)
  {
    assert p * older < p * (r * m);
    assert r * (p * m) <= r * recent;
    assert p * (older + recent) < (p + r) * recent;
    var q := p * (p + r);
    assert recent / p == (p + r) * recent / q;
    assert (older + recent) / (p + r) == p * (older + recent) / q;
  }

  /** In a steady rise of at least 20 closes the latest 4-, 5-, 9-, 10-, 18- and 20-day
      SMAs are defined and the shorter the window the higher the average. */
  lemma RisingAverages(closes: seq<real>)
    requires StrictlyIncreasing(closes)
    requires |closes| >= 20
    ensures var s4, s5, s9, s10, s18, s20 := LastSma(closes, 4), LastSma(closes, 5),
        LastSma(closes, 9), LastSma(closes, 10), LastSma(closes, 18), LastSma(closes, 20);
      && s4.Some? && s5.Some? && s9.Some? && s10.Some? && s18.Some? && s20.Some?
      && s4.value > s9.value > s18.value > s20.value
      && s5.value > s10.value > s20.value
    ensures |closes| >= 50 ==>
      LastSma(closes, 50).Some? && LastSma(closes, 10).value > LastSma(closes, 50).value
  {
    LastSmaIsSuffixMean(closes, 4);
    LastSmaIsSuffixMean(closes, 5);
    LastSmaIsSuffixMean(closes, 9);
    LastSmaIsSuffixMean(closes, 10);
    LastSmaIsSuffixMean(closes, 18);
    LastSmaIsSuffixMean(closes, 20);
    SuffixMeanRising(closes, 4, 9);
    SuffixMeanRising(closes, 5, 10);
    SuffixMeanRising(closes, 9, 18);
    SuffixMeanRising(closes, 10, 20);
    SuffixMeanRising(closes, 18, 20);
    if |closes| >= 50 {
      LastSmaIsSuffixMean(closes, 50);
      SuffixMeanRising(closes, 10, 50);
    }
  }

  /** In a steady rise of at least 20 closes, the 5/20, 5-10-20 and 4-9-18-20 rules all say
      Buy, and with at least 50 closes so does the 10/50 rule. */
  lemma UptrendSaysBuy(closes: seq<real>, price: real)
    requires StrictlyIncreasing(closes)
    requires |closes| >= 20
    ensures Recommend(TwoAverages, closes, price) == Ok(Buy)
    ensures Recommend(TripleCrossover, closes, price) == Ok(Buy)
    ensures Recommend(FourNineEighteenTwenty, closes, price) == Ok(Buy)
    ensures |closes| >= 50 ==> Recommend(TenVersusFifty, closes, price) == Ok(Buy)
  {
    RisingAverages(closes);
    var s4, s5, s9, s10 := LastSma(closes, 4), LastSma(closes, 5), LastSma(closes, 9), LastSma(closes, 10);
    var s18, s20 := LastSma(closes, 18), LastSma(closes, 20);
    TwoAverageIsChain(s5, s20);
    var triple, quad := [s5, s10, s20], [s4, s9, s18, s20];
    assert FallingChain(triple) by {
      assert LinkFalls(triple, 0) && LinkFalls(triple, 1);
    }
    assert FallingChain(quad) by {
      assert LinkFalls(quad, 0) && LinkFalls(quad, 1) && LinkFalls(quad, 2);
    }
  }

  /** In a steady fall the mean of the last p closes is below the mean of the last q > p. */
  lemma SuffixMeanFalling(xs: seq<real>, p: nat, q: nat)
    requires StrictlyDecreasing(xs)
    requires 1 <= p < q <= |xs|
    ensures Mean(xs[|xs| - p..]) < Mean(xs[|xs| - q..])
  {
    var from, mid := |xs| - q, |xs| - p;
    FallingBlocks(xs, from, mid);
    MeanOfSplit(xs, from, mid);
    MeansCompareFalling(Sum(xs[mid..]), Sum(xs[from..mid]), xs[mid], p as real, (q - p) as real);
  }

  /** In a steady fall every close from `mid` on is at most xs[mid], and every close
      before it is above. */
  lemma FallingBlocks(xs: seq<real>, from: nat, mid: nat)
    requires StrictlyDecreasing(xs)
    requires from < mid < |xs|
    ensures Sum(xs[mid..]) <= (|xs| - mid) as real * xs[mid]
    ensures Sum(xs[from..mid]) > (mid - from) as real * xs[mid]
  {
    var recent, older := xs[mid..], xs[from..mid];
    forall k | 0 <= k < |recent| ensures recent[k] <= xs[mid] {
      assert recent[k] == xs[mid + k];
    }
    forall k | 0 <= k < |older| ensures older[k] > xs[mid] {
      assert older[k] == xs[from + k];
    }
    SumAtMost(recent, xs[mid]);
    SumAbove(older, xs[mid]);
  }

  /** The arithmetic of SuffixMeanFalling: a recent block of p values, all at most m, and
      an older block of r values, summing to more than r * m. */
  lemma MeansCompareFalling(recent: real, older: real, m: real, p: real, r: real)
    requires p >= 1.0 && r >= 1.0
    requires recent <= p * m && older > r * m
    ensures recent / p < (older + recent) / (p + r)
  {
    assert p * older > p * (r * m);
    assert r * (p * m) >= r * recent;
    assert p * (older + recent) > (p + r) * recent;
    var q := p * (p + r);
    assert recent / p == (p + r) * recent / q;
    assert (older + recent) / (p + r) == p * (older + recent) / q;
  }

  /** In a steady fall of at least 20 closes the latest 4-, 5-, 9-, 10-, 18- and 20-day
      SMAs are defined and the shorter the window the lower the average; the 50-day SMA is
      undefined on a shorter history. */
  lemma FallingAverages(closes: seq<real>)
    requires StrictlyDecreasing(closes)
    requires |closes| >= 20
    ensures var s4, s5, s9, s10, s18, s20 := LastSma(closes, 4), LastSma(closes, 5),
        LastSma(closes, 9), LastSma(closes, 10), LastSma(closes, 18), LastSma(closes, 20);
      && s4.Some? && s5.Some? && s9.Some? && s10.Some? && s18.Some? && s20.Some?
      && s4.value < s9.value < s18.value < s20.value
      && s5.value < s10.value < s20.value
    ensures |closes| >= 50 ==>
      LastSma(closes, 50).Some? && LastSma(closes, 10).value < LastSma(closes, 50).value
    ensures |closes| < 50 ==> LastSma(closes, 50).None?
  {
    LastSmaIsSuffixMean(closes, 4);
    LastSmaIsSuffixMean(closes, 5);
    LastSmaIsSuffixMean(closes, 9);
    LastSmaIsSuffixMean(closes, 10);
    LastSmaIsSuffixMean(closes, 18);
    LastSmaIsSuffixMean(closes, 20);
    SuffixMeanFalling(closes, 4, 9);
    SuffixMeanFalling(closes, 5, 10);
    SuffixMeanFalling(closes, 9, 18);
    SuffixMeanFalling(closes, 10, 20);
    SuffixMeanFalling(closes, 18, 20);
    if |closes| >= 50 {
      LastSmaIsSuffixMean(closes, 50);
      SuffixMeanFalling(closes, 10, 50);
    } else {
      assert Sma(closes, 50)[|closes| - 1].None?;
    }
  }

  /** In a steady fall of at least 20 closes, the 5/20, 5-10-20 and 4-9-18-20 rules all say
      Sell, and the 10/50 rule (which sells on anything but a rise) does too. */
  lemma DowntrendSaysSell(closes: seq<real>, price: real)
    requires StrictlyDecreasing(closes)
    requires |closes| >= 20
    ensures Recommend(TwoAverages, closes, price) == Ok(Sell)
    ensures Recommend(TripleCrossover, closes, price) == Ok(Sell)
    ensures Recommend(FourNineEighteenTwenty, closes, price) == Ok(Sell)
    ensures Recommend(TenVersusFifty, closes, price) == Ok(Sell)
  {
    FallingAverages(closes);
    var s4, s5, s9, s10 := LastSma(closes, 4), LastSma(closes, 5), LastSma(closes, 9), LastSma(closes, 10);
    var s18, s20 := LastSma(closes, 18), LastSma(closes, 20);
    TwoAverageIsChain(s5, s20);
    var triple, quad := [s5, s10, s20], [s4, s9, s18, s20];
    assert RisingChain(triple) by {
      assert LinkRises(triple, 0) && LinkRises(triple, 1);
    }
    assert RisingChain(quad) by {
      assert LinkRises(quad, 0) && LinkRises(quad, 1) && LinkRises(quad, 2);
    }
  }

  /** Options d-g have no period guard. On fewer than 20 closes the 20-day SMA is NaN, so
      options d, e and f say Hold, whatever the other averages are. */
  lemma ShortHistoryHolds(closes: seq<real>, price: real)
    requires |closes| < 20
    ensures Recommend(TwoAverages, closes, price) == Ok(Hold)
    ensures Recommend(TripleCrossover, closes, price) == Ok(Hold)
    ensures Recommend(FourNineEighteenTwenty, closes, price) == Ok(Hold)
  {
    var s20 := LastSma(closes, 20);
    assert s20.None?;
    var triple := [LastSma(closes, 5), LastSma(closes, 10), s20];
    var quad := [LastSma(closes, 4), LastSma(closes, 9), LastSma(closes, 18), s20];
    assert !LinkFalls(triple, 1) && !LinkRises(triple, 1);
    assert !LinkFalls(quad, 2) && !LinkRises(quad, 2);
  }

  /** On fewer than 50 closes the 50-day SMA is NaN, and option g says Sell. */
  lemma ShortHistoryTenFiftySells(closes: seq<real>, price: real)
    requires |closes| < 50
    ensures Recommend(TenVersusFifty, closes, price) == Ok(Sell)
  {
    assert LastSma(closes, 50).None?;
  }

  // ---------------------------------------------------------------- symbol

  /** `str.upper` on ASCII letters. */
  function ToUpper(c: char): char
  {
    if 'a' <= c <= 'z' then (c as int - 32) as char else c
  }

  function Upper(s: string): (u: string)
    ensures |u| == |s|
    ensures forall i :: 0 <= i < |s| ==> u[i] == ToUpper(s[i])
  {
    seq(|s|, i requires 0 <= i < |s| => ToUpper(s[i]))
  }

  predicate EndsWith(s: string, suffix: string)
  {
    |suffix| <= |s| && s[|s| - |suffix|..] == suffix
  }

  /** The symbol check of `main`: after upper-casing, the symbol must end in `.NS` (NSE)
      or `.BO` (BSE). */
  predicate IsExchangeSymbol(raw: string)
  {
    var symbol := Upper(raw);
    EndsWith(symbol, ".NS") || EndsWith(symbol, ".BO")
  }

  /** A symbol is accepted exactly when its last three characters are a dot followed by
      N, S or by B, O in either case. */
  lemma ExchangeSymbolSuffix(raw: string)
    ensures IsExchangeSymbol(raw) <==>
      && |raw| >= 3
      && raw[|raw| - 3] == '.'
      && ((raw[|raw| - 2] in "Nn" && raw[|raw| - 1] in "Ss")
          || (raw[|raw| - 2] in "Bb" && raw[|raw| - 1] in "Oo"))
  {
    var u := Upper(raw);
    if |raw| >= 3 {
      var n := |raw|;
      assert u[n - 3..] == [ToUpper(raw[n - 3]), ToUpper(raw[n - 2]), ToUpper(raw[n - 1])];
    }
  }
}

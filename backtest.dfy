// The historical backtest of `analyze_historical_crossovers` in stock_predictor.py:
// crossover flags, the n-step forward return, and the mean forward return per
// (sentiment, direction) bucket.

module Backtest {
  import opened Series
  import opened Sentiment

  datatype Dir = Above | Below

  /** A bucket key: the market sentiment on the crossover day and the crossing direction. */
  type Key = (Regime, Dir)

  /** The horizon `n` of `analyze_historical_crossovers`. */
  const DefaultHorizon: nat := 5

  // ---------------------------------------------------------------- crossovers

  /** `(Close.shift(1) < ma.shift(1)) & (Close > ma)` at index i. Index 0 has no previous
      close, and a comparison against an undefined average is false. */
  predicate CrossedAbove(closes: seq<real>, ma: seq<Option<real>>, i: nat)
    requires |ma| == |closes| && i < |closes|
    ensures CrossedAbove(closes, ma, i) ==> 1 <= i && ma[i - 1].Some? && ma[i].Some?
    ensures CrossedAbove(closes, ma, i) ==>
      closes[i] - closes[i - 1] > ma[i].value - ma[i - 1].value
  {
    && 1 <= i
    && ma[i - 1].Some? && ma[i].Some?
    && closes[i - 1] < ma[i - 1].value
    && closes[i] > ma[i].value
  }

  /** `(Close.shift(1) > ma.shift(1)) & (Close < ma)` at index i. */
  predicate CrossedBelow(closes: seq<real>, ma: seq<Option<real>>, i: nat)
    requires |ma| == |closes| && i < |closes|
    ensures CrossedBelow(closes, ma, i) ==> 1 <= i && ma[i - 1].Some? && ma[i].Some?
    ensures CrossedBelow(closes, ma, i) ==>
      closes[i] - closes[i - 1] < ma[i].value - ma[i - 1].value
  {
    && 1 <= i
    && ma[i - 1].Some? && ma[i].Some?
    && closes[i - 1] > ma[i - 1].value
    && closes[i] < ma[i].value
  }

  predicate Crossed(closes: seq<real>, ma: seq<Option<real>>, d: Dir, i: nat)
    requires |ma| == |closes| && i < |closes|
  {
    match d
    case Above => CrossedAbove(closes, ma, i)
    case Below => CrossedBelow(closes, ma, i)
  }

  /** No index is flagged in both directions; index 0 and any index where the average is
      undefined at i or at i - 1 are never flagged. */
  lemma CrossoverFlags(closes: seq<real>, ma: seq<Option<real>>, i: nat)
    requires |ma| == |closes| && i < |closes|
    ensures !(CrossedAbove(closes, ma, i) && CrossedBelow(closes, ma, i))
    ensures i == 0 ==> !CrossedAbove(closes, ma, i) && !CrossedBelow(closes, ma, i)
    ensures ma[i].None? ==> !CrossedAbove(closes, ma, i) && !CrossedBelow(closes, ma, i)
    ensures i >= 1 && ma[i - 1].None? ==> !CrossedAbove(closes, ma, i) && !CrossedBelow(closes, ma, i)
  {
  }

  // ---------------------------------------------------------------- forward return

  /** `(Close.shift(-n) / Close - 1) * 100` at index i: the percentage move over the next
      n closes, undefined for the last n positions. */
  function ForwardReturn(closes: seq<real>, n: nat, i: nat): (r: Option<real>)
    requires Positive(closes) && i < |closes|
    ensures r.None? <==> i + n >= |closes|
    ensures r.Some? ==> closes[i + n] == closes[i] * (1.0 + r.value / 100.0)
    ensures r.Some? ==> r.value > -100.0
  {
    if i + n < |closes| then Some((closes[i + n] / closes[i] - 1.0) * 100.0) else None
  }

  /** `sentiment.reindex(hist.index)` with both series on the same trading days: a position
      the sentiment series does not reach is missing. */
  function SentimentAt(sentiment: seq<Option<Regime>>, i: nat): (r: Option<Regime>)
    ensures i >= |sentiment| ==> r.None?
    ensures i < |sentiment| ==> r == sentiment[i]
  {
    if i < |sentiment| then sentiment[i] else None
  }

  // ---------------------------------------------------------------- the frame

  /** One row of the `crossovers` DataFrame. */
  datatype Row = Row(above: bool, below: bool, sentiment: Option<Regime>, future: Option<real>)

  /** A row that survived `dropna(subset=['Sentiment', 'Future_Pct_Change'])`. */
  datatype Sample = Sample(above: bool, below: bool, sentiment: Regime, future: real)

  /** The `crossovers` DataFrame, one row per close. */
  function Frame(closes: seq<real>, ma: seq<Option<real>>, sentiment: seq<Option<Regime>>, n: nat)
    : (rows: seq<Row>)
    requires |ma| == |closes| && Positive(closes)
    ensures |rows| == |closes|
  {
    seq(|closes|, i requires 0 <= i < |closes| =>
      Row(CrossedAbove(closes, ma, i), CrossedBelow(closes, ma, i),
          SentimentAt(sentiment, i), ForwardReturn(closes, n, i)))
  }

  /** Keep, in order, the rows whose sentiment and forward return are both defined. */
  function DropNa(rows: seq<Row>): seq<Sample>
  {
    if rows == [] then []
    else
      var r := rows[|rows| - 1];
      DropNa(rows[..|rows| - 1])
        + (if r.sentiment.Some? && r.future.Some?
           then [Sample(r.above, r.below, r.sentiment.value, r.future.value)]
           else [])
  }

  /** The filter `crossovers[Crossover_<d> & (Sentiment == regime)]`. */
  predicate Selects(s: Sample, regime: Regime, d: Dir)
  {
    s.sentiment == regime && (match d case Above => s.above case Below => s.below)
  }

  /** The `Future_Pct_Change` column of the selected samples, in order. */
  function Matching(samples: seq<Sample>, regime: Regime, d: Dir): seq<real>
  {
    if samples == [] then []
    else
      var s := samples[|samples| - 1];
      Matching(samples[..|samples| - 1], regime, d)
        + (if Selects(s, regime, d) then [s.future] else [])
  }

  function AllKeys(): set<Key>
  {
    {(Bullish, Above), (Bullish, Below), (Bearish, Above),
     (Bearish, Below), (Sideways, Above), (Sideways, Below)}
  }

  /** The dictionary `avg_changes`: a key is present only for a non-empty group, and then
      holds that group's mean. */
  function Buckets(samples: seq<Sample>): map<Key, real>
  {
    map key | key in AllKeys() && Matching(samples, key.0, key.1) != [] ::
      Mean(Matching(samples, key.0, key.1))
  }

  // ---------------------------------------------------------------- the loops

  /** The total and the size of one group, the two things its `mean()` needs. */
  method Tally(samples: seq<Sample>, regime: Regime, d: Dir) returns (total: real, count: nat)
    ensures total == Sum(Matching(samples, regime, d))
    ensures count == |Matching(samples, regime, d)|
  {
    total, count := 0.0, 0;
    for i := 0 to |samples|
      invariant total == Sum(Matching(samples[..i], regime, d))
      invariant count == |Matching(samples[..i], regime, d)|
    {
      ghost var done := Matching(samples[..i], regime, d);
      assert samples[..i + 1][..i] == samples[..i];
      if Selects(samples[i], regime, d) {
        assert Matching(samples[..i + 1], regime, d) == done + [samples[i].future];
        assert (done + [samples[i].future])[..|done|] == done;
        total := total + samples[i].future;
        count := count + 1;
      } else {
        assert Matching(samples[..i + 1], regime, d) == done + [];
        assert done + [] == done;
      }
    }
    assert samples[..|samples|] == samples;
  }

  /** The position of a sentiment in the list the source iterates over. */
  function Rank(r: Regime): (k: nat)
    ensures k < 3
  {
    match r
    case Bullish => 0
    case Bearish => 1
    case Sideways => 2
  }

  /** `analyze_historical_crossovers`: build the frame, drop incomplete rows, and average
      each (sentiment, direction) group. */
  method AnalyzeHistoricalCrossovers(closes: seq<real>, ma: seq<Option<real>>,
                                     sentiment: seq<Option<Regime>>, n: nat)
    returns (avgChanges: map<Key, real>)
    requires |ma| == |closes| && Positive(closes)
    ensures avgChanges == Buckets(DropNa(Frame(closes, ma, sentiment, n)))
  {
    var crossovers := DropNa(Frame(closes, ma, sentiment, n));
    avgChanges := AverageChanges(crossovers);
  }

  /** The loop of `analyze_historical_crossovers`: for each sentiment in turn, insert the
      mean forward return of each direction group that is not empty. */
  method AverageChanges(samples: seq<Sample>) returns (avgChanges: map<Key, real>)
    ensures avgChanges == Buckets(samples)
  {
    var regimes := [Bullish, Bearish, Sideways];
    avgChanges := map[];
    for j := 0 to |regimes|
      invariant forall key :: key in avgChanges <==>
        Rank(key.0) < j && Matching(samples, key.0, key.1) != []
      invariant forall key :: key in avgChanges ==>
        avgChanges[key] == Mean(Matching(samples, key.0, key.1))
    {
      var sent := regimes[j];
      assert Rank(sent) == j;
      var aboveTotal, aboveCount := Tally(samples, sent, Above);
      var belowTotal, belowCount := Tally(samples, sent, Below);
      if aboveCount > 0 {
        avgChanges := avgChanges[(sent, Above) := aboveTotal / aboveCount as real];
      }
      if belowCount > 0 {
        avgChanges := avgChanges[(sent, Below) := belowTotal / belowCount as real];
      }
      forall key: Key | Rank(key.0) == j
        ensures key in avgChanges <==> Matching(samples, key.0, key.1) != []
        ensures key in avgChanges ==> avgChanges[key] == Mean(Matching(samples, key.0, key.1))
      {
        assert key.0 == sent;
        match key.1
        case Above => assert key == (sent, Above);
        case Below => assert key == (sent, Below);
      }
    }
    forall key: Key ensures key in AllKeys() {
      match key.0
      case Bullish =>
        match key.1 {
          case Above => assert key == (Bullish, Above);
          case Below => assert key == (Bullish, Below);
        }
      case Bearish =>
        match key.1 {
          case Above => assert key == (Bearish, Above);
          case Below => assert key == (Bearish, Below);
        }
      case Sideways =>
        match key.1 {
          case Above => assert key == (Sideways, Above);
          case Below => assert key == (Sideways, Below);
        }
    }
    assert avgChanges.Keys == Buckets(samples).Keys;
  }

  // ---------------------------------------------------------------- what a bucket means

  /** Row i counts towards bucket (regime, d): it crosses in direction d on a day with that
      sentiment and has a defined forward return. */
  predicate Qualifies(closes: seq<real>, ma: seq<Option<real>>, sentiment: seq<Option<Regime>>,
                      n: nat, regime: Regime, d: Dir, i: nat)
    requires |ma| == |closes| && Positive(closes) && i < |closes|
  {
    Crossed(closes, ma, d, i) && SentimentAt(sentiment, i) == Some(regime)
    && ForwardReturn(closes, n, i).Some?
  }

  /** The forward returns of the qualifying rows below index m, oldest first: the bucket's
      sample stated directly over the price history, with no frame and no dropna. */
  function Returns(closes: seq<real>, ma: seq<Option<real>>, sentiment: seq<Option<Regime>>,
                   n: nat, regime: Regime, d: Dir, m: nat): seq<real>
    requires |ma| == |closes| && Positive(closes) && m <= |closes|
  {
    if m == 0 then []
    else
      Returns(closes, ma, sentiment, n, regime, d, m - 1)
        + (if Qualifies(closes, ma, sentiment, n, regime, d, m - 1)
           then [ForwardReturn(closes, n, m - 1).value] else [])
  }

  lemma MatchingSnoc(samples: seq<Sample>, extra: seq<Sample>, regime: Regime, d: Dir)
    requires |extra| <= 1
    ensures Matching(samples + extra, regime, d)
         == Matching(samples, regime, d)
            + (if |extra| == 1 && Selects(extra[0], regime, d) then [extra[0].future] else [])
  {
    if |extra| == 1 {
      assert (samples + extra)[..|samples|] == samples;
    } else {
      assert samples + extra == samples;
    }
  }

  /** Building the frame, dropping incomplete rows and filtering one group gives exactly the
      forward returns of the qualifying rows. */
  lemma {:induction false} MatchingIsReturns(closes: seq<real>, ma: seq<Option<real>>,
                                             sentiment: seq<Option<Regime>>, n: nat,
                                             regime: Regime, d: Dir, m: nat)
    requires |ma| == |closes| && Positive(closes) && m <= |closes|
    ensures Matching(DropNa(Frame(closes, ma, sentiment, n)[..m]), regime, d)
         == Returns(closes, ma, sentiment, n, regime, d, m)
  {
    var rows := Frame(closes, ma, sentiment, n);
    if m == 0 {
      assert rows[..0] == [];
    } else {
      MatchingIsReturns(closes, ma, sentiment, n, regime, d, m - 1);
      assert rows[..m][..m - 1] == rows[..m - 1];
      var r := rows[m - 1];
      var extra := if r.sentiment.Some? && r.future.Some?
                   then [Sample(r.above, r.below, r.sentiment.value, r.future.value)] else [];
      assert DropNa(rows[..m]) == DropNa(rows[..m - 1]) + extra;
      MatchingSnoc(DropNa(rows[..m - 1]), extra, regime, d);
      RowContributes(closes, ma, sentiment, n, regime, d, m - 1);
    }
  }

  /** Row i of the frame survives dropna and is selected for (regime, d) exactly when it
      qualifies, and then it contributes its forward return. */
  lemma RowContributes(closes: seq<real>, ma: seq<Option<real>>,
                       sentiment: seq<Option<Regime>>, n: nat, regime: Regime, d: Dir, i: nat)
    requires |ma| == |closes| && Positive(closes) && i < |closes|
    ensures var r := Frame(closes, ma, sentiment, n)[i];
      var extra := if r.sentiment.Some? && r.future.Some?
                   then [Sample(r.above, r.below, r.sentiment.value, r.future.value)] else [];
      (if |extra| == 1 && Selects(extra[0], regime, d) then [extra[0].future] else [])
      == (if Qualifies(closes, ma, sentiment, n, regime, d, i)
          then [ForwardReturn(closes, n, i).value] else [])
  {
  }

  lemma {:induction false} ReturnsNonEmpty(closes: seq<real>, ma: seq<Option<real>>,
                                           sentiment: seq<Option<Regime>>, n: nat,
                                           regime: Regime, d: Dir, m: nat)
    requires |ma| == |closes| && Positive(closes) && m <= |closes|
    ensures Returns(closes, ma, sentiment, n, regime, d, m) != [] <==>
      exists i :: 0 <= i < m && Qualifies(closes, ma, sentiment, n, regime, d, i)
  {
    if m > 0 {
      ReturnsNonEmpty(closes, ma, sentiment, n, regime, d, m - 1);
    }
  }

  lemma {:induction false} ReturnsAboveMinus100(closes: seq<real>, ma: seq<Option<real>>,
                                                sentiment: seq<Option<Regime>>, n: nat,
                                                regime: Regime, d: Dir, m: nat)
    requires |ma| == |closes| && Positive(closes) && m <= |closes|
    ensures forall k :: 0 <= k < |Returns(closes, ma, sentiment, n, regime, d, m)| ==>
      Returns(closes, ma, sentiment, n, regime, d, m)[k] > -100.0
  {
    if m > 0 {
      ReturnsAboveMinus100(closes, ma, sentiment, n, regime, d, m - 1);
    }
  }

  /** A bucket is present exactly when some row at least n closes before the end crossed in
      its direction on a day with its sentiment: the last n rows never contribute. */
  lemma BucketPresence(closes: seq<real>, ma: seq<Option<real>>,
                       sentiment: seq<Option<Regime>>, n: nat, regime: Regime, d: Dir)
    requires |ma| == |closes| && Positive(closes)
    ensures (regime, d) in Buckets(DropNa(Frame(closes, ma, sentiment, n))) <==>
      exists i :: 0 <= i && i + n < |closes| && Crossed(closes, ma, d, i)
               && SentimentAt(sentiment, i) == Some(regime)
  {
    BucketIsReturns(closes, ma, sentiment, n, regime, d);
    ReturnsNonEmpty(closes, ma, sentiment, n, regime, d, |closes|);
    if exists i :: 0 <= i && i + n < |closes| && Crossed(closes, ma, d, i)
                   && SentimentAt(sentiment, i) == Some(regime) {
      var i :| 0 <= i && i + n < |closes| && Crossed(closes, ma, d, i)
               && SentimentAt(sentiment, i) == Some(regime);
      assert Qualifies(closes, ma, sentiment, n, regime, d, i);
    }
  }

  /** A present bucket holds the mean forward return of its qualifying rows, and because
      prices are positive that mean is above -100%. */
  lemma BucketMean(closes: seq<real>, ma: seq<Option<real>>,
                   sentiment: seq<Option<Regime>>, n: nat, regime: Regime, d: Dir)
    requires |ma| == |closes| && Positive(closes)
    requires (regime, d) in Buckets(DropNa(Frame(closes, ma, sentiment, n)))
    ensures var rs := Returns(closes, ma, sentiment, n, regime, d, |closes|);
      && |rs| > 0
      && Buckets(DropNa(Frame(closes, ma, sentiment, n)))[(regime, d)] == Mean(rs)
      && Mean(rs) > -100.0
  {
    var samples := DropNa(Frame(closes, ma, sentiment, n));
    BucketIsReturns(closes, ma, sentiment, n, regime, d);
    var rs := Returns(closes, ma, sentiment, n, regime, d, |closes|);
    assert Buckets(samples)[(regime, d)] == Mean(Matching(samples, regime, d));
    ReturnsAboveMinus100(closes, ma, sentiment, n, regime, d, |closes|);
    MeanAbove(rs, -100.0);
  }

  lemma BucketIsReturns(closes: seq<real>, ma: seq<Option<real>>,
                        sentiment: seq<Option<Regime>>, n: nat, regime: Regime, d: Dir)
    requires |ma| == |closes| && Positive(closes)
    ensures Matching(DropNa(Frame(closes, ma, sentiment, n)), regime, d)
         == Returns(closes, ma, sentiment, n, regime, d, |closes|)
    ensures (regime, d) in AllKeys()
  {
    var rows := Frame(closes, ma, sentiment, n);
    assert rows[..|closes|] == rows;
    MatchingIsReturns(closes, ma, sentiment, n, regime, d, |closes|);
  }
}

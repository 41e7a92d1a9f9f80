// Option h of `main` in stock_predictor.py: choose the 10- or 50-day SMA, backtest its
// crossovers against the index's sentiment, then judge today's live quote.

module Live {
  import opened Series
  import opened MovingAverages
  import opened Sentiment
  import opened Backtest

  /** The answer of option h for one live quote. */
  datatype Verdict =
    | UnknownSentiment                                     // current sentiment undefined
    | NoCrossover                                          // no crossing today
    | NoPrecedent(regime: Regime, dir: Dir)                // no bucket for this combination
    | Precedent(regime: Regime, dir: Dir, avgPct: real)    // the bucket's mean forward return

  datatype PredictError = InvalidMaChoice

  /** The MA prompt of option h: "1" picks the 10-day SMA and "2" the 50-day SMA. */
  function ParseMaChoice(input: string): (period: Option<nat>)
    ensures period.Some? <==> input == "1" || input == "2"
    ensures period.Some? ==> period.value == (if input == "1" then 10 else 50)
  {
    if input == "1" then Some(10)
    else if input == "2" then Some(50)
    else None
  }

  /** Today's crossing, judged against yesterday's average: Above when yesterday's close was
      strictly below it and the quote is strictly above it, Below for the reverse. */
  function TodayCrossing(yesterdayClose: real, yesterdayMa: Option<real>, quote: real)
    : (d: Option<Dir>)
    ensures d.Some? ==> yesterdayMa.Some?
    ensures d == Some(Above) ==> yesterdayClose < yesterdayMa.value < quote
    ensures d == Some(Below) ==> quote < yesterdayMa.value < yesterdayClose
    ensures d.None? && yesterdayMa.Some? ==>
      (yesterdayClose >= yesterdayMa.value || quote <= yesterdayMa.value)
      && (yesterdayClose <= yesterdayMa.value || quote >= yesterdayMa.value)
  {
    if yesterdayMa.Some? && yesterdayClose < yesterdayMa.value && quote > yesterdayMa.value
    then Some(Above)
    else if yesterdayMa.Some? && yesterdayClose > yesterdayMa.value && quote < yesterdayMa.value
    then Some(Below)
    else None
  }

  /** The live test is the historical detector applied to the history extended by the
      quote, with the average held at yesterday's value. */
  lemma TodayCrossingIsHistorical(closes: seq<real>, ma: seq<Option<real>>, quote: real)
    requires |closes| > 0 && |ma| == |closes|
    ensures var n := |closes|;
      var closes', ma' := closes + [quote], ma + [ma[n - 1]];
      && (TodayCrossing(closes[n - 1], ma[n - 1], quote) == Some(Above) <==> CrossedAbove(closes', ma', n))
      && (TodayCrossing(closes[n - 1], ma[n - 1], quote) == Some(Below) <==> CrossedBelow(closes', ma', n))
  {
    var n := |closes|;
    var closes', ma' := closes + [quote], ma + [ma[n - 1]];
    assert closes'[n - 1] == closes[n - 1] && closes'[n] == quote;
    assert ma'[n - 1] == ma[n - 1] && ma'[n] == ma[n - 1];
  }

  /** The decision at the end of option h. An undefined current sentiment ends it before
      any crossover test; then no crossing means no prediction; otherwise the bucket for
      (sentiment, direction) is looked up, and a missing bucket is reported as such rather
      than as a zero mean. */
  function EvaluateToday(yesterdayClose: real, yesterdayMa: Option<real>, quote: real,
                         current: Option<Regime>, buckets: map<Key, real>): (v: Verdict)
    ensures v == UnknownSentiment <==> current.None?
    ensures v == NoCrossover <==>
      current.Some? && TodayCrossing(yesterdayClose, yesterdayMa, quote).None?
    ensures v.NoPrecedent? <==>
      && current.Some?
      && TodayCrossing(yesterdayClose, yesterdayMa, quote).Some?
      && (current.value, TodayCrossing(yesterdayClose, yesterdayMa, quote).value) !in buckets
    ensures v.Precedent? ==>
      && current == Some(v.regime)
      && TodayCrossing(yesterdayClose, yesterdayMa, quote) == Some(v.dir)
      && (v.regime, v.dir) in buckets
      && v.avgPct == buckets[(v.regime, v.dir)]
  {
    if current.None? then UnknownSentiment
    else
      match TodayCrossing(yesterdayClose, yesterdayMa, quote)
      case None => NoCrossover
      case Some(d) =>
        if (current.value, d) in buckets then Precedent(current.value, d, buckets[(current.value, d)])
        else NoPrecedent(current.value, d)
  }

  /** Worked examples: a close of 95 under an average of 100 followed by a quote of 105 is a
      crossing above; an absent bucket and a bucket whose mean is 0 give different answers. */
  lemma EvaluateExamples()
    ensures TodayCrossing(95.0, Some(100.0), 105.0) == Some(Above)
    ensures EvaluateToday(105.0, Some(100.0), 95.0, Some(Bearish), map[]) == NoPrecedent(Bearish, Below)
    ensures EvaluateToday(105.0, Some(100.0), 95.0, Some(Bearish), map[(Bearish, Below) := 0.0])
         == Precedent(Bearish, Below, 0.0)
  {
  }

  /** `nifty_sentiment`: the labels of the index's 50-day SMA under the default lookback
      and threshold. */
  function IndexSentiment(niftyCloses: seq<real>): (labels: seq<Option<Regime>>)
    requires Positive(niftyCloses)
    ensures |labels| == |niftyCloses|
  {
    SmaPositive(niftyCloses, ReferenceWindow);
    Labels(Sma(niftyCloses, ReferenceWindow), DefaultLookback, DefaultThreshold)
  }

  /** The index's current sentiment, `nifty_sentiment.iloc[-1]`. */
  function CurrentSentiment(niftyCloses: seq<real>): Option<Regime>
    requires Positive(niftyCloses)
  {
    Last(IndexSentiment(niftyCloses))
  }

  /** The current sentiment is undefined exactly when the index history is shorter than the
      50-day window plus the 5-day lookback. */
  lemma CurrentSentimentDefined(niftyCloses: seq<real>)
    requires Positive(niftyCloses)
    ensures CurrentSentiment(niftyCloses).None? <==>
      |niftyCloses| < ReferenceWindow + DefaultLookback
  {
    if |niftyCloses| > 0 {
      SmaPositive(niftyCloses, ReferenceWindow);
      LabelAt(Sma(niftyCloses, ReferenceWindow), DefaultLookback, DefaultThreshold, |niftyCloses| - 1);
    }
  }

  /** What option h reports, stated over the inputs. */
  function Prediction(closes: seq<real>, niftyCloses: seq<real>, maChoice: string, quote: real)
    : Result<Verdict, PredictError>
    requires |closes| > 0 && Positive(closes) && Positive(niftyCloses)
  {
    match ParseMaChoice(maChoice)
    case None => Err(InvalidMaChoice)
    case Some(period) =>
      var sentiment := IndexSentiment(niftyCloses);
      var ma := Sma(closes, period);
      var buckets := Buckets(DropNa(Frame(closes, ma, sentiment, DefaultHorizon)));
      Ok(EvaluateToday(closes[|closes| - 1], ma[|closes| - 1], quote, Last(sentiment), buckets))
  }

  /** Option h as the program runs it: parse the MA choice, compute the index sentiment and
      the chosen SMA, run the backtest, then evaluate the live quote. */
  method PredictAfterCrossover(closes: seq<real>, niftyCloses: seq<real>, maChoice: string,
                               quote: real)
    returns (r: Result<Verdict, PredictError>)
    requires |closes| > 0 && Positive(closes) && Positive(niftyCloses)
    ensures r == Prediction(closes, niftyCloses, maChoice, quote)
  {
    var choice := ParseMaChoice(maChoice);
    if choice.None? {
      return Err(InvalidMaChoice);
    }
    var period := choice.value;
    var niftySma := Sma(niftyCloses, ReferenceWindow);
    SmaPositive(niftyCloses, ReferenceWindow);
    var niftySentiment := CalculateSentiment(niftySma, DefaultLookback, DefaultThreshold);
    var ma := Sma(closes, period);
    var avgChanges := AnalyzeHistoricalCrossovers(closes, ma, niftySentiment, DefaultHorizon);
    var yesterdayClose, yesterdayMa := closes[|closes| - 1], ma[|closes| - 1];
    r := Ok(EvaluateToday(yesterdayClose, yesterdayMa, quote, Last(niftySentiment), avgChanges));
  }

  /** A reported precedent is backed by history: the stock crossed its SMA in the same
      direction at some day at least five closes before the end, on a day whose index
      sentiment matched today's, and the reported figure is the mean five-day forward return
      over all such days, above -100%. */
  lemma PrecedentIsBacked(closes: seq<real>, niftyCloses: seq<real>, maChoice: string,
                          quote: real, regime: Regime, d: Dir, avgPct: real)
    requires |closes| > 0 && Positive(closes) && Positive(niftyCloses)
    requires Prediction(closes, niftyCloses, maChoice, quote) == Ok(Precedent(regime, d, avgPct))
    ensures var period := ParseMaChoice(maChoice).value;
      var sentiment := IndexSentiment(niftyCloses);
      var ma := Sma(closes, period);
      && CurrentSentiment(niftyCloses) == Some(regime)
      && (exists i :: 0 <= i && i + DefaultHorizon < |closes| && Crossed(closes, ma, d, i)
                   && SentimentAt(sentiment, i) == Some(regime))
      && var rs := Returns(closes, ma, sentiment, DefaultHorizon, regime, d, |closes|);
         |rs| > 0 && avgPct == Mean(rs) && avgPct > -100.0
  {
    var period := ParseMaChoice(maChoice).value;
    var sentiment := IndexSentiment(niftyCloses);
    var ma := Sma(closes, period);
    BucketPresence(closes, ma, sentiment, DefaultHorizon, regime, d);
    BucketMean(closes, ma, sentiment, DefaultHorizon, regime, d);
  }
}

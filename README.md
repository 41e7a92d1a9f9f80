# Stock prediction core of `stock_predictor.py`, in Dafny

This project models the numerical core of a console tool for Indian equities (NSE `.NS` and
BSE `.BO` symbols). The core is made of these parts:

- **Moving averages** over a history of daily closes:
  - the simple rolling mean (SMA);
  - the linearly weighted rolling mean (LWMA), with weights 1..p;
  - exponential smoothing with `adjust=False` (EMA).
- **The market-sentiment classifier**. It labels each day Bullish, Bearish or Sideways from the
  percentage change of the index's 50-day SMA over a 5-day lookback, with a threshold of 0.005.
- **The crossover backtest** of `analyze_historical_crossovers`:
  - it flags the days on which the close crosses its moving average, above or below;
  - it computes each day's 5-day forward return;
  - it drops rows without a sentiment or a forward return;
  - it averages the forward returns per (sentiment, direction) bucket.
- **The live evaluator** of menu option h. It judges today's quote against yesterday's close and
  average, then looks the result up in the backtest's buckets.
- **The Buy / Sell / Hold rules** of menu options a-g, together with:
  - the period guard in front of options a-c;
  - the MA prompt of option h;
  - the symbol-suffix check.

Modules, one per file:

| file | module | contents |
|---|---|---|
| `series.dfy` | `Series` | `Option`/`Result`, sums, means, weights, and the arithmetic lemmas about them |
| `moving_averages.dfy` | `MovingAverages` | `Sma`, `Lwma`, `Ema` and their properties |
| `sentiment.dfy` | `Sentiment` | percentage change, the three masks, and the `CalculateSentiment` method, which fills an array with three masked assignments as the source does |
| `backtest.dfy` | `Backtest` | crossover flags, forward return, the frame and `dropna`, the bucket loop (`Tally`, `AverageChanges`), and what a bucket means in terms of the price history |
| `live.dfy` | `Live` | option h from the MA prompt to the verdict |
| `advice.dfy` | `Advice` | the recommendation rules of options a-g, Python's chained comparisons, the period guard, the symbol check, and the behaviour in steady trends |

How the model represents the source:

- A pandas `NaN` is `None` of `Option`, both in a Series and in a scalar taken from one.
- A comparison against `NaN` is false, and the model states that explicitly.
- Prices are `real`, not floating point.
- Two parts of the source are Dafny `method`s, each proved against a specification function:
  - the `for` loop of `analyze_historical_crossovers`;
  - the masked in-place assignments of `calculate_sentiment`.
- The `while True` menu loop of `main` is not modelled (see "## Left out").

The properties proved about those functions are the ones the table below lists.

The specification and the code disagree in two places. The model follows the code in both:

- **A window longer than the history.** Only options a-c reject it (line 145). Options d-g compute
  `iloc[-1]` of an SMA whose window is longer than the history. That value is `NaN`, and the
  comparison then says Sell (option g) or Hold (options d, e and f). `Recommend` models
  this. `Advice.ShortHistoryHolds` proves that options d, e and f say Hold on any history of fewer
  than 20 closes. `Advice.ShortHistoryTenFiftySells` proves that option g says Sell on any history
  of fewer than 50 closes.
- **The order of the sentiment masks.** The sentiment labels come from three masked assignments
  applied in order, so a later mask overwrites an earlier one. For a threshold of 0 or more, the
  masks are disjoint and the order does not matter (`Sentiment.MasksDisjoint`). For a negative
  threshold it does matter (`Sentiment.NegativeThresholdOverlap`).

## Model

| member | source | states |
|---|---|---|
| `MovingAverages.Window` | stock_predictor.py:33 | the rolling window at i holds exactly the p closes ending at index i, in order |
| `MovingAverages.Sma` | stock_predictor.py:31-33 | the SMA is as long as the history, and position i is undefined exactly when i < p - 1 (no full window yet) |
| `MovingAverages.SmaWithin` | stock_predictor.py:31-33 | a defined SMA value lies within any bounds of the closes in its window |
| `MovingAverages.SmaPositive` | stock_predictor.py:31-33 | over positive prices every defined SMA value is positive, so the sentiment may divide by it |
| `MovingAverages.SmaSlide` | stock_predictor.py:31-33 | the rolling mean moves by (new close - dropped close) / p from one day to the next |
| `MovingAverages.SmaExample` | stock_predictor.py:31-33 | over the closes 10..20 with p = 5, the SMA at index 4 is 12.0 and at index 10 is 18.0 |
| `MovingAverages.Lwma` | stock_predictor.py:36-42 | the LWMA is as long as the history and undefined exactly on the first p - 1 positions |
| `MovingAverages.WeightTotal` | stock_predictor.py:38-40 | `weights.sum()` of the weights 1..p is p(p+1)/2, and is at least 1, so the division is defined |
| `MovingAverages.LwmaOfFlatWindow` | stock_predictor.py:38-41 | a window of equal closes c gives LWMA c: the weights are normalised |
| `MovingAverages.LwmaAtLeastSma` | stock_predictor.py:36-42 | on a window that never falls, the LWMA is at least the SMA of the same window, because recent closes weigh more |
| `MovingAverages.Alpha` | stock_predictor.py:47 | the smoothing factor 2/(p+1) of `span=p` lies in (0, 1] |
| `MovingAverages.Ema` | stock_predictor.py:45-47 | the EMA is defined at every position, starts at the first close, and obeys EMA[i] = close[i]·α + EMA[i-1]·(1-α) |
| `MovingAverages.EmaWithin` | stock_predictor.py:45-47 | every EMA value lies within any bounds of the closes up to that day |
| `MovingAverages.EmaOfFlatSeries` | stock_predictor.py:45-47 | the EMA of a flat series is that series |
| `Sentiment.PctChange` | stock_predictor.py:52 | the change over k days is undefined exactly before index k or where either average is undefined; otherwise sma[i] = sma[i-k]·(1 + change) |
| `Sentiment.CalculateSentiment` | stock_predictor.py:50-57 | the array filled by the three masked assignments, in source order, equals `Labels`, which `LabelAt` characterises |
| `Sentiment.MaskedLabel` | stock_predictor.py:53-56 | one position after the three masked writes: missing exactly when the change is undefined, whatever the threshold; Sideways exactly on its mask; Bearish exactly on its mask outside Sideways; Bullish exactly on its mask outside the two later ones (last write wins) |
| `Sentiment.LabelAt` | stock_predictor.py:52-56 | for a threshold of 0 or more, a label is missing exactly when the change is undefined; it is Bullish exactly when change > threshold, Bearish exactly when change < -threshold, and Sideways exactly when -threshold ≤ change ≤ threshold |
| `Sentiment.MasksDisjoint` | stock_predictor.py:54-56 | for a threshold of 0 or more no change satisfies two masks |
| `Sentiment.NegativeThresholdOverlap` | stock_predictor.py:54-56 | with a negative threshold a change of 0 satisfies both the Bullish and the Bearish mask, and the later Bearish assignment wins |
| `Sentiment.RisingReferenceIsBullish` | stock_predictor.py:50-56 | a reference average that rose 1% over the 5-day lookback is Bullish under the defaults |
| `Backtest.CrossedAbove` | stock_predictor.py:62 | a crossing above is flagged only from day 1 on, where the average is defined that day and the day before, and the close then gained more than the average did |
| `Backtest.CrossedBelow` | stock_predictor.py:63 | a crossing below is flagged only from day 1 on, where the average is defined that day and the day before, and the close then lost more than the average did |
| `Backtest.CrossoverFlags` | stock_predictor.py:62-63 | no day crosses in both directions; day 0 never crosses, and neither does a day where the average is undefined that day or the day before |
| `Backtest.ForwardReturn` | stock_predictor.py:64 | the forward return is undefined exactly for the last n days; otherwise close[i+n] = close[i]·(1 + r/100), and r > -100 |
| `Backtest.SentimentAt` | stock_predictor.py:69 | the reindexed sentiment is the label at that position, and missing past the end of the sentiment series |
| `Backtest.Tally` | stock_predictor.py:75-76 | the loop returns the sum and the size of the forward returns selected for (sentiment, direction), in order |
| `Backtest.AverageChanges` | stock_predictor.py:73-81 | the dictionary built by the loop over the three sentiments equals `Buckets`: a key is present only for a non-empty group, and it holds that group's mean |
| `Backtest.AnalyzeHistoricalCrossovers` | stock_predictor.py:60-81 | the result is `Buckets` of the frame after `dropna`, which `BucketPresence` and `BucketMean` characterise |
| `Backtest.MatchingIsReturns` | stock_predictor.py:65-76 | building the frame, dropping incomplete rows and filtering one group gives exactly the forward returns of the qualifying days below m, in order |
| `Backtest.ReturnsNonEmpty` | stock_predictor.py:72-77 | a group is non-empty exactly when some day qualifies |
| `Backtest.ReturnsAboveMinus100` | stock_predictor.py:64 | over positive prices every forward return in a group is above -100 |
| `Backtest.BucketPresence` | stock_predictor.py:60-81 | bucket (sentiment, direction) is present exactly when some day at least n closes before the end crossed in that direction with that sentiment |
| `Backtest.BucketMean` | stock_predictor.py:60-81 | a present bucket holds the mean forward return of its qualifying days, and that mean is above -100 |
| `Backtest.BucketIsReturns` | stock_predictor.py:72-76 | each group of the frame is the forward returns of the qualifying days, and its key is one of the six keys |
| `Live.ParseMaChoice` | stock_predictor.py:239-245 | the input "1" picks 10 and "2" picks 50; any other input is rejected |
| `Live.TodayCrossing` | stock_predictor.py:257-263 | a crossing needs a defined average; Above means yesterday's close < average < quote, Below means quote < average < yesterday's close; otherwise neither strict pattern holds |
| `Live.TodayCrossingIsHistorical` | stock_predictor.py:257-260 | today's crossing test equals the historical detector applied to the history extended by the quote, with the average held at yesterday's value |
| `Live.EvaluateToday` | stock_predictor.py:253-269 | an undefined sentiment ends the evaluation first; then no crossing means no prediction; then a missing bucket is reported as absent rather than as 0; otherwise the verdict carries the bucket's value |
| `Live.EvaluateExamples` | stock_predictor.py:257-269 | a close of 95 under an average of 100 followed by a quote of 105 crosses above; a missing (Bearish, Below) bucket and a bucket worth 0 give different verdicts |
| `Live.IndexSentiment` | stock_predictor.py:118-119 | the index sentiment has one label per index close |
| `Live.CurrentSentimentDefined` | stock_predictor.py:253-256 | the current sentiment is undefined exactly when the index history has fewer than 55 closes |
| `Live.PredictAfterCrossover` | stock_predictor.py:238-269 | option h as run (MA prompt, SMA, sentiment, backtest, live test) equals `Prediction` over the inputs |
| `Live.PrecedentIsBacked` | stock_predictor.py:246-267 | a reported precedent means the current sentiment matches, some earlier crossing in the same direction and sentiment exists, and the reported figure is the mean of those days' forward returns, above -100 |
| `Advice.BuyIfAbove` | stock_predictor.py:153 | the rule never says Hold, and says Buy exactly when both values are defined and the first is strictly greater (a tie or NaN is Sell) |
| `Advice.TwoAverageAdvice` | stock_predictor.py:182 | the 5/20 rule says Buy exactly when both averages are defined and the 5-day one is greater, Sell exactly when it is smaller, and Hold exactly on a tie or an undefined average |
| `Advice.ChainedGreaterIsFalling` | stock_predictor.py:194 | Python's chained `>` holds exactly when every value is defined and each is above the next |
| `Advice.ChainedLessIsRising` | stock_predictor.py:196 | Python's chained `<` holds exactly when every value is defined and each is below the next |
| `Advice.ChainAdvice` | stock_predictor.py:194-199 | the chain rule says Buy exactly on a strictly falling chain, Sell exactly on a strictly rising one, and Hold exactly when neither holds |
| `Advice.TwoAverageIsChain` | stock_predictor.py:182 | the 5/20 rule is the two-link chain rule, and it says Hold exactly when an average is undefined or the two are equal |
| `Advice.MovingAverage` | stock_predictor.py:149-172 | the average chosen by options a-c is as long as the history |
| `Advice.Recommend` | stock_predictor.py:143-228 | only options a-c can be rejected: "period exceeds history" exactly when the period is above the history length, checked first, and "non-positive period" exactly when it passes that check and is below 1; options a-c and g never say Hold |
| `Advice.SingleAverageAdvice` | stock_predictor.py:143-172 | a period longer than the history is rejected; otherwise the latest average is defined, options a-c say Buy exactly when the price is strictly above it and never say Hold, and for SMA that average is the mean of the last `period` closes |
| `Advice.LastSmaIsSuffixMean` | stock_predictor.py:181 | once the history covers the window, `sma.iloc[-1]` is the mean of the last p closes |
| `Advice.SuffixMeanRising` | stock_predictor.py:178-193 | in a strictly rising history a shorter trailing mean is above a longer one |
| `Advice.SuffixMeanFalling` | stock_predictor.py:178-193 | in a strictly falling history a shorter trailing mean is below a longer one |
| `Advice.RisingAverages` | stock_predictor.py:189-211 | in a strictly rising history of at least 20 closes the latest 4/9/18/20 and 5/10/20 SMAs are defined and strictly decreasing in window length, and so are 10/50 when there are 50 closes |
| `Advice.FallingAverages` | stock_predictor.py:189-227 | in a strictly falling history the same averages strictly increase with window length, and the 50-day SMA is undefined below 50 closes |
| `Advice.UptrendSaysBuy` | stock_predictor.py:177-228 | in a strictly rising history of at least 20 closes options d, e and f say Buy, and g does too with at least 50 closes |
| `Advice.ShortHistoryHolds` | stock_predictor.py:177-217 | with no period guard, options d, e and f say Hold on any history of fewer than 20 closes, because the 20-day SMA is NaN |
| `Advice.ShortHistoryTenFiftySells` | stock_predictor.py:223-228 | option g says Sell on any history of fewer than 50 closes, because the 50-day SMA is NaN |
| `Advice.DowntrendSaysSell` | stock_predictor.py:177-228 | in a strictly falling history of at least 20 closes options d, e, f and g all say Sell |
| `Advice.Upper` | stock_predictor.py:103 | ASCII upper-casing keeps the length and upper-cases each letter a-z, leaving other characters alone |
| `Advice.ExchangeSymbolSuffix` | stock_predictor.py:103-104 | a symbol is accepted exactly when it ends in a dot followed by N, S or by B, O, in either case |

## Left out

- Fetching data (`fetch_historical_data`, `get_current_price`, lines 7-28) is I/O. The histories and
  the live quote are parameters. Their failure paths, which end the program or go back to the menu,
  are not modelled.
- Plotting (`plot_ma`, lines 84-98) and the formula strings of each option are presentation and
  are not modelled.
- The interactive menu loop, its prompts and the `int(input(...))` conversion are I/O. The
  model's `Request` type stands for the menu choice, already parsed.
- Option h fetches the live quote a second time (line 250). The model takes one quote as a
  parameter.
- Prices and all arithmetic are exact reals, not IEEE doubles: rounding is not modelled. A
  `NaN` is modelled as a missing value (`None`).
- Prices are required to be positive wherever the source divides by a close or by an average
  (`ForwardReturn`, `PctChange` via `NonZeroWhereDefined`). Division by zero, which pandas turns
  into `inf`, is not modelled.
- `sentiment.reindex(hist.index)` aligns two series by date. The model assumes both series cover
  the same trading days and aligns them by position; a position past the end of the sentiment
  series is missing.
- `Advice.Recommend`: a period of 0 or less passes the guard at line 145 and is handed to pandas.
  The model reports it as the error `NonPositivePeriod` and does not reproduce what pandas does
  with such a window.
- `Advice.Upper`: `str.upper` is modelled on ASCII letters only. Other characters are left
  unchanged. Python's full Unicode mapping is not modelled: `ß` becomes `SS` there, so the
  length is not always kept as the model's contract says, and `ſ` (long s) becomes `S`.
- `Advice.ExchangeSymbolSuffix`: holds for the ASCII `Upper` only. Because Python maps `ſ` to
  `S`, the source accepts `"TCS.Nſ"` at line 104 while the model rejects it.
- `MovingAverages.Ema`: the pandas recursion is modelled as a recursive function over the
  positions, not as an in-place loop.

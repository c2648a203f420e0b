/** Indicators over closed bars, and the volatility regime read off the sliding average true range. Each
    indicator declares how many bars back it looks; on a window at least that long it gives the value it
    gives on the whole history. */
module Indicators {
  import opened Prelude
  import opened Bars
  import Swing

  // ---------------------------------------------------------------- true range and moving averages

  function TrueRange(previous: Bar, bar: Bar): real {
    Max(Max(bar.high - bar.low, Abs(bar.high - previous.close)), Abs(bar.low - previous.close))
  }

  /** One true range per bar that has a predecessor. */
  function TrueRanges(bars: seq<Bar>): (r: seq<real>)
    requires bars != []
    ensures |r| == |bars| - 1
    ensures forall k {:trigger r[k]} :: 0 <= k < |r| ==> r[k] == TrueRange(bars[k], bars[k + 1])
  {
    seq(|bars| - 1, k requires 0 <= k < |bars| - 1 => TrueRange(bars[k], bars[k + 1]))
  }

  function Mean(s: seq<real>): real
    requires s != []
  {
    Sum(s) / |s| as real
  }

  function WeightedSum(s: seq<real>, w: real): real {
    if s == [] then 0.0 else WeightedSum(s[..|s| - 1], w) + s[|s| - 1] * w
  }

  /** Convolution with p equal weights, where the kernel lies fully inside the series. */
  function Convolve(s: seq<real>, p: nat): (r: seq<real>)
    requires p > 0
    ensures |r| == if |s| < p then 0 else |s| - p + 1
    ensures forall k :: 0 <= k < |r| ==> r[k] == WeightedSum(s[k..k + p], 1.0 / p as real)
  {
    if |s| < p then [] else
      seq(|s| - p + 1, k requires 0 <= k < |s| - p + 1 => WeightedSum(s[k..k + p], 1.0 / p as real))
  }

  function AtrSeries(bars: seq<Bar>, period: nat): seq<real>
    requires bars != [] && period > 0
  {
    Convolve(TrueRanges(bars), period)
  }

  function Closes(bars: seq<Bar>): (c: seq<real>)
    ensures |c| == |bars|
    ensures forall k :: 0 <= k < |c| ==> c[k] == bars[k].close
  {
    seq(|bars|, k requires 0 <= k < |bars| => bars[k].close)
  }

  function Ema(s: seq<real>, alpha: real): real
    requires s != []
  {
    if |s| == 1 then s[0] else (1.0 - alpha) * Ema(s[..|s| - 1], alpha) + alpha * s[|s| - 1]
  }

  function Gains(closes: seq<real>): (r: seq<real>)
    requires closes != []
    ensures |r| == |closes| - 1
    ensures forall k :: 0 <= k < |r| ==> r[k] >= 0.0
  {
    seq(|closes| - 1, k requires 0 <= k < |closes| - 1 => Max(closes[k + 1] - closes[k], 0.0))
  }

  function Losses(closes: seq<real>): (r: seq<real>)
    requires closes != []
    ensures |r| == |closes| - 1
    ensures forall k :: 0 <= k < |r| ==> r[k] >= 0.0
  {
    seq(|closes| - 1, k requires 0 <= k < |closes| - 1 => Max(closes[k] - closes[k + 1], 0.0))
  }

  /** The mean of non-negative moves. */
  function AverageMove(moves: seq<real>): (r: real)
    requires moves != [] && forall k :: 0 <= k < |moves| ==> moves[k] >= 0.0
    ensures r >= 0.0
  {
    SumNonNegative(moves);
    Mean(moves)
  }

  lemma {:induction false} SumNonNegative(s: seq<real>)
    requires forall k :: 0 <= k < |s| ==> s[k] >= 0.0
    ensures Sum(s) >= 0.0
  {
    if s != [] { SumNonNegative(s[..|s| - 1]); }
  }

  function RsiOf(averageGain: real, averageLoss: real): real
    requires averageGain >= 0.0 && averageLoss >= 0.0
  {
    if averageLoss == 0.0 then (if averageGain > 0.0 then 100.0 else 50.0)
    else
      var rs := averageGain / averageLoss;
      assert rs >= 0.0;
      100.0 - 100.0 / (1.0 + rs)
  }

  function InsertReal(x: real, s: seq<real>): (r: seq<real>)
    ensures |r| == |s| + 1
  {
    if s == [] || x <= s[0] then [x] + s else [s[0]] + InsertReal(x, s[1..])
  }

  function SortReals(s: seq<real>): (r: seq<real>)
    ensures |r| == |s|
  {
    if s == [] then [] else InsertReal(s[0], SortReals(s[1..]))
  }

  function Median(s: seq<real>): real
    requires s != []
  {
    var sorted, m := SortReals(s), |s| / 2;
    if |s| % 2 == 1 then sorted[m] else (sorted[m - 1] + sorted[m]) / 2.0
  }

  // ---------------------------------------------------------------- volatility regime

  datatype Regime = Low | Normal | High | Extreme

  datatype RegimeReading = RegimeReading(band: Regime, percentile: real)

  function CountBelow(s: seq<real>, v: real): nat {
    if s == [] then 0 else CountBelow(s[..|s| - 1], v) + if s[|s| - 1] < v then 1 else 0
  }

  function Band(percentile: real): Regime {
    if percentile <= 25.0 then Low
    else if percentile <= 75.0 then Normal
    else if percentile <= 95.0 then High
    else Extreme
  }

  function Percentile(below: nat, n: nat): real
    requires n > 0
  {
    below as real / n as real * 100.0
  }

  /** The last n readings, where none asked for means all of them: a slice from minus zero. */
  function Trailing(s: seq<real>, n: nat): seq<real> {
    if n == 0 then s else Tail(s, n)
  }

  /** The percentile reading of an ATR series. */
  function Reading(series: seq<real>, history: nat): Option<RegimeReading>
    requires series != []
  {
    var trailing := Trailing(series[..|series| - 1], history);
    if |trailing| < 5 then None else
      var percentile := Percentile(CountBelow(trailing, series[|series| - 1]), |trailing|);
      Some(RegimeReading(Band(percentile), percentile))
  }

  /** No reading below period + 2 bars; otherwise the series always has at least two entries. */
  function ClassifyRegime(bars: seq<Bar>, period: nat, history: nat): Option<RegimeReading>
    requires period > 0
  {
    if |bars| < period + 2 then None else Reading(AtrSeries(bars, period), history)
  }

  // ---------------------------------------------------------------- the indicator set

  datatype Indicator =
    | SimpleMovingAverage(period: nat)
    | ExponentialMovingAverage(period: nat)
    | AverageTrueRange(period: nat)
    | RelativeStrengthIndex(period: nat)
    | RollingAtrMedian(period: nat, window: nat)
    | SwingStructure(confirm: nat, window: nat)

  predicate ValidIndicator(i: Indicator) {
    match i
    case SwingStructure(_, _) => true
    case RollingAtrMedian(p, w) => p > 0 && w > 0
    case _ => i.period > 0
  }

  /** The number of bars an indicator declares to the engine. */
  function Lookback(i: Indicator): nat {
    match i
    case SimpleMovingAverage(p) => p
    case ExponentialMovingAverage(p) => p * 3
    case AverageTrueRange(p) => p + 1
    case RelativeStrengthIndex(p) => p + 1
    case RollingAtrMedian(p, w) => p + w
    case SwingStructure(c, _) => c * 2 + 1
  }

  /** The number of bars its result can depend on: the declared one, except for the swing scan's window. */
  function Reach(i: Indicator): nat {
    match i
    case SwingStructure(c, w) => if w > c * 2 + 1 then w else c * 2 + 1
    case _ => Lookback(i)
  }

  function Sma(bars: seq<Bar>, p: nat): Option<real>
    requires p > 0
  {
    if |bars| < p then None else Some(Mean(Closes(Tail(bars, p))))
  }

  function EmaValue(bars: seq<Bar>, p: nat): Option<real>
    requires p > 0
  {
    if |bars| < p then None else Some(Ema(Closes(Tail(bars, p * 3)), 2.0 / (p as real + 1.0)))
  }

  function Atr(bars: seq<Bar>, p: nat): Option<real>
    requires p > 0
  {
    if |bars| < p + 1 then None else Some(Mean(TrueRanges(Tail(bars, p + 1))))
  }

  function Rsi(bars: seq<Bar>, p: nat): Option<real>
    requires p > 0
  {
    if |bars| < p + 1 then None else
      var closes := Closes(Tail(bars, p + 1));
      Some(RsiOf(AverageMove(Gains(closes)), AverageMove(Losses(closes))))
  }

  function AtrMedian(bars: seq<Bar>, p: nat, w: nat): Option<real>
    requires p > 0 && w > 0
  {
    if |bars| < p + w then None else
      var series := AtrSeries(bars, p);
      if |series| < w then None else Some(Median(Tail(series, w)))
  }

  function Swings(bars: seq<Bar>, c: nat, w: nat): (Option<real>, Option<real>) {
    if |bars| < c * 2 + 1 then (None, None)
    else (Swing.SwingHigh(Tail(bars, w), c), Swing.SwingLow(Tail(bars, w), c))
  }

  /** The outputs, in declaration order; too few bars give no value rather than a value on a short window. */
  function Compute(i: Indicator, bars: seq<Bar>): (outputs: seq<Option<real>>)
    requires ValidIndicator(i)
    ensures |outputs| == if i.SwingStructure? then 2 else 1
  {
    match i
    case SimpleMovingAverage(p) => [Sma(bars, p)]
    case ExponentialMovingAverage(p) => [EmaValue(bars, p)]
    case AverageTrueRange(p) => [Atr(bars, p)]
    case RelativeStrengthIndex(p) => [Rsi(bars, p)]
    case RollingAtrMedian(p, w) => [AtrMedian(bars, p, w)]
    case SwingStructure(c, w) => [Swings(bars, c, w).0, Swings(bars, c, w).1]
  }

  // ---------------------------------------------------------------- truncation loses nothing

  lemma TrueRangesOfTail(bars: seq<Bar>, n: nat)
    requires bars != [] && n > 0
    ensures TrueRanges(Tail(bars, n)) == Tail(TrueRanges(bars), n - 1)
  {
  }

  lemma ConvolveOfTail(s: seq<real>, p: nat, m: nat)
    requires p > 0 && m >= p
    ensures Convolve(Tail(s, m), p) == Tail(Convolve(s, p), m - p + 1)
  {
    if |s| > m {
      var d := |s| - m;
      var t := Tail(s, m);
      forall k | 0 <= k < m - p + 1 ensures Convolve(t, p)[k] == Convolve(s, p)[d + k] {
        assert t[k..k + p] == s[d + k..d + k + p];
      }
    }
  }

  /** The ATR series of the last n bars is the end of the ATR series. */
  lemma AtrSeriesOfTail(bars: seq<Bar>, p: nat, n: nat)
    requires bars != [] && p > 0 && n > p
    ensures AtrSeries(Tail(bars, n), p) == Tail(AtrSeries(bars, p), n - p)
  {
    TrueRangesOfTail(bars, n);
    ConvolveOfTail(TrueRanges(bars), p, n - 1);
  }

  /** An indicator computed on a window at least as long as its reach has the value it has on the
      whole history. */
  lemma WindowIsLossless(i: Indicator, bars: seq<Bar>, n: nat)
    requires ValidIndicator(i) && Reach(i) <= n
    ensures Compute(i, Tail(bars, n)) == Compute(i, bars)
  {
    match i
    case SimpleMovingAverage(p) => SmaLossless(bars, p, n);
    case ExponentialMovingAverage(p) => EmaLossless(bars, p, n);
    case AverageTrueRange(p) => AtrLossless(bars, p, n);
    case RelativeStrengthIndex(p) => RsiLossless(bars, p, n);
    case RollingAtrMedian(p, w) => MedianLossless(bars, p, w, n);
    case SwingStructure(c, w) => SwingsLossless(bars, c, w, n);
  }

  lemma SmaLossless(bars: seq<Bar>, p: nat, n: nat)
    requires 0 < p <= n
    ensures Sma(Tail(bars, n), p) == Sma(bars, p)
  {
    TailOfTail(bars, p, n);
  }

  lemma EmaLossless(bars: seq<Bar>, p: nat, n: nat)
    requires p > 0 && p * 3 <= n
    ensures EmaValue(Tail(bars, n), p) == EmaValue(bars, p)
  {
    TailOfTail(bars, p * 3, n);
  }

  lemma AtrLossless(bars: seq<Bar>, p: nat, n: nat)
    requires 0 < p < n
    ensures Atr(Tail(bars, n), p) == Atr(bars, p)
  {
    TailOfTail(bars, p + 1, n);
  }

  lemma RsiLossless(bars: seq<Bar>, p: nat, n: nat)
    requires 0 < p < n
    ensures Rsi(Tail(bars, n), p) == Rsi(bars, p)
  {
    TailOfTail(bars, p + 1, n);
  }

  lemma MedianLossless(bars: seq<Bar>, p: nat, w: nat, n: nat)
    requires p > 0 && w > 0 && p + w <= n
    ensures AtrMedian(Tail(bars, n), p, w) == AtrMedian(bars, p, w)
  {
    if |bars| >= p + w {
      AtrSeriesOfTail(bars, p, n);
      TailOfTail(AtrSeries(bars, p), w, n - p);
    }
  }

  lemma SwingsLossless(bars: seq<Bar>, c: nat, w: nat, n: nat)
    requires w <= n && c * 2 + 1 <= n
    ensures Swings(Tail(bars, n), c, w) == Swings(bars, c, w)
  {
    TailOfTail(bars, w, n);
  }

  lemma TrailingOfTail(series: seq<real>, history: nat, m: nat)
    requires 1 < m < |series|
    ensures Trailing(Tail(series, m)[..m - 1], history) ==
      Trailing(series[..|series| - 1], if 0 < history <= m - 1 then history else m - 1)
  {
    assert Tail(series, m)[..m - 1] == Tail(series[..|series| - 1], m - 1);
  }

  lemma ReadingOfTail(series: seq<real>, history: nat, m: nat)
    requires 1 < m < |series|
    ensures Reading(Tail(series, m), history) == Reading(series, if 0 < history <= m - 1 then history else m - 1)
  {
    TrailingOfTail(series, history, m);
  }

  /** What truncation does to the regime: it caps the percentile's history at n - period - 1 readings. */
  lemma RegimeOfTail(bars: seq<Bar>, period: nat, history: nat, n: nat)
    requires period > 0 && n >= period + 2
    ensures ClassifyRegime(Tail(bars, n), period, history) ==
      ClassifyRegime(bars, period, if |bars| <= n || 0 < history <= n - period - 1 then history else n - period - 1)
  {
    if |bars| > n {
      AtrSeriesOfTail(bars, period, n);
      ReadingOfTail(AtrSeries(bars, period), history, n - period);
    }
  }

  /** Hence the regime is unaffected when the window covers its history, which `needed` does not count. */
  lemma RegimeWindowLossless(bars: seq<Bar>, period: nat, history: nat, n: nat)
    requires period > 0 && n >= period + 2 && history > 0 && history + period + 1 <= n
    ensures ClassifyRegime(Tail(bars, n), period, history) == ClassifyRegime(bars, period, history)
  {
    RegimeOfTail(bars, period, history, n);
  }

  // ---------------------------------------------------------------- the two ATRs agree

  lemma {:induction false} WeightedSumScales(s: seq<real>, w: real)
    ensures WeightedSum(s, w) == Sum(s) * w
  {
    if s != [] {
      WeightedSumScales(s[..|s| - 1], w);
      Distribute(Sum(s[..|s| - 1]), s[|s| - 1], w);
    }
  }

  lemma Distribute(a: real, b: real, w: real)
    ensures a * w + b * w == (a + b) * w
  {
  }

  lemma DivideByWeight(a: real, d: real)
    requires d > 0.0
    ensures a * (1.0 / d) == a / d
  {
  }

  lemma UniformWeightsGiveMean(s: seq<real>)
    requires s != []
    ensures WeightedSum(s, 1.0 / |s| as real) == Mean(s)
  {
    WeightedSumScales(s, 1.0 / |s| as real);
    DivideByWeight(Sum(s), |s| as real);
  }

  /** The last value of the convolved series is the ATR indicator of the same period. */
  lemma ConvolvedCurrentIsAtr(bars: seq<Bar>, p: nat)
    requires p > 0 && |bars| >= p + 1
    ensures AtrSeries(bars, p) != []
    ensures Atr(bars, p) == Some(AtrSeries(bars, p)[|AtrSeries(bars, p)| - 1])
  {
    var ranges := TrueRanges(bars);
    TrueRangesOfTail(bars, p + 1);
    LastWindow(ranges, p);
    UniformWeightsGiveMean(Tail(ranges, p));
  }

  lemma LastWindow(s: seq<real>, p: nat)
    requires 0 < p <= |s|
    ensures |Tail(s, p)| == p
    ensures Convolve(s, p)[|s| - p] == WeightedSum(Tail(s, p), 1.0 / p as real)
  {
    assert s[|s| - p..|s| - p + p] == Tail(s, p);
  }

  /** Every entry of the sliding series is the ATR of the history that ends there. */
  lemma AtrSeriesEntry(bars: seq<Bar>, p: nat, k: nat)
    requires p > 0 && p < k <= |bars|
    ensures k - p - 1 < |AtrSeries(bars, p)|
    ensures Atr(bars[..k], p) == Some(AtrSeries(bars, p)[k - p - 1])
  {
    ConvolvedCurrentIsAtr(bars[..k], p);
    PrefixRanges(bars, k);
    PrefixConvolve(TrueRanges(bars), p, k - 1);
  }

  lemma PrefixRanges(bars: seq<Bar>, k: nat)
    requires 0 < k <= |bars|
    ensures TrueRanges(bars[..k]) == TrueRanges(bars)[..k - 1]
  {
  }

  lemma PrefixConvolve(s: seq<real>, p: nat, m: nat)
    requires 0 < p <= m <= |s|
    ensures Convolve(s[..m], p)[m - p] == Convolve(s, p)[m - p]
  {
    assert s[..m][m - p..m - p + p] == s[m - p..m - p + p];
  }

  // ---------------------------------------------------------------- order statistics

  predicate SortedReals(s: seq<real>) {
    forall i, j :: 0 <= i < j < |s| ==> s[i] <= s[j]
  }

  lemma {:induction false} InsertRealSorts(x: real, s: seq<real>)
    requires SortedReals(s)
    ensures SortedReals(InsertReal(x, s))
    ensures forall v :: v in InsertReal(x, s) <==> v == x || v in s
  {
    if s == [] || x <= s[0] {
    } else {
      InsertRealSorts(x, s[1..]);
      assert s == [s[0]] + s[1..];
      var r := InsertReal(x, s[1..]);
      forall j | 0 <= j < |r| ensures s[0] <= r[j] { assert r[j] in r; }
    }
  }

  lemma {:induction false} InsertRealMultiset(x: real, s: seq<real>)
    ensures multiset(InsertReal(x, s)) == multiset{x} + multiset(s)
  {
    if s == [] || x <= s[0] {
    } else {
      InsertRealMultiset(x, s[1..]);
      assert s == [s[0]] + s[1..];
    }
  }

  /** The median is taken of the same readings in ascending order. */
  lemma {:induction false} SortRealsSorts(s: seq<real>)
    ensures SortedReals(SortReals(s)) && multiset(SortReals(s)) == multiset(s)
  {
    if s != [] {
      SortRealsSorts(s[1..]);
      InsertRealSorts(s[0], SortReals(s[1..]));
      InsertRealMultiset(s[0], SortReals(s[1..]));
      assert s == [s[0]] + s[1..];
    }
  }

  // ---------------------------------------------------------------- when the regime survives truncation

  /** One quiet true range, then as many equal ones as there is history for: only the oldest reading of the history
      is below the current one. */
  function QuietStart(n: nat): (bars: seq<Bar>)
    ensures |bars| == n
    ensures forall j {:trigger bars[j]} :: 0 <= j < n ==>
      bars[j].close == bars[j].low == 0.0 && bars[j].high == if j <= 1 then 0.0 else 1.0
  {
    seq(n, j => Bar(j, 0.0, if j <= 1 then 0.0 else 1.0, 0.0, 0.0, 0.0, 0.0, 0.0))
  }

  lemma QuietRanges(n: nat)
    requires n > 0
    ensures forall k {:trigger TrueRanges(QuietStart(n))[k]} :: 0 <= k < n - 1 ==>
      TrueRanges(QuietStart(n))[k] == if k == 0 then 0.0 else 1.0
  {
  }

  lemma {:induction false} SumOfOnes(s: seq<real>)
    requires forall k :: 0 <= k < |s| ==> s[k] == 1.0
    ensures Sum(s) == |s| as real
  {
    if s != [] { SumOfOnes(s[..|s| - 1]); }
  }

  lemma MeanOfOnes(s: seq<real>)
    requires s != [] && forall k :: 1 <= k < |s| ==> s[k] == 1.0
    ensures s[0] == 1.0 ==> Mean(s) == 1.0
    ensures s[0] == 0.0 ==> Mean(s) < 1.0
  {
    FirstAndOnes(s);
    if s[0] == 0.0 { QuotientBelowOne(Sum(s), |s| as real); }
  }

  lemma FirstAndOnes(s: seq<real>)
    requires s != [] && forall k :: 1 <= k < |s| ==> s[k] == 1.0
    ensures Sum(s) == s[0] + (|s| - 1) as real
  {
    assert s == [s[0]] + s[1..];
    SumConcat([s[0]], s[1..]);
    assert [s[0]][..0] == [];
    SumOfOnes(s[1..]);
  }

  lemma QuotientBelowOne(a: real, d: real)
    requires d > 0.0 && a < d
    ensures a / d < 1.0
  {
    DivideThenMultiply(a, d);
  }

  lemma QuietConvolution(ranges: seq<real>, period: nat)
    requires 0 < period <= |ranges| && ranges[0] == 0.0 && forall k :: 1 <= k < |ranges| ==> ranges[k] == 1.0
    ensures var series := Convolve(ranges, period);
      series[0] < 1.0 && forall k :: 1 <= k < |series| ==> series[k] == 1.0
  {
    hide Mean, WeightedSum;
    var series := Convolve(ranges, period);
    forall k | 0 <= k < |series| ensures series[k] == Mean(ranges[k..k + period]) {
      UniformWeightsGiveMean(ranges[k..k + period]);
    }
    MeanOfOnes(ranges[0..period]);
    forall k | 1 <= k < |series| ensures series[k] == 1.0 { MeanOfOnes(ranges[k..k + period]); }
  }

  lemma QuietSeries(period: nat, n: nat)
    requires period > 0 && n > period
    ensures var series := AtrSeries(QuietStart(n), period);
      |series| == n - period && series[0] < 1.0 && forall k :: 1 <= k < |series| ==> series[k] == 1.0
  {
    hide Convolve, TrueRanges, QuietStart;
    QuietRanges(n);
    QuietConvolution(TrueRanges(QuietStart(n)), period);
  }

  lemma {:induction false} OnlyFirstBelow(s: seq<real>, v: real)
    requires forall k :: 1 <= k < |s| ==> s[k] == v
    ensures s != [] && s[0] < v ==> CountBelow(s, v) == 1
    ensures s == [] || s[0] == v ==> CountBelow(s, v) == 0
  {
    if |s| > 1 { OnlyFirstBelow(s[..|s| - 1], v); }
  }

  lemma ReadingIs(series: seq<real>, m: nat)
    requires 5 <= m < |series|
    ensures var p := Percentile(CountBelow(Tail(series[..|series| - 1], m), series[|series| - 1]), m);
      Reading(series, m) == Some(RegimeReading(Band(p), p))
  {
    hide CountBelow, Band;
  }

  lemma PercentileZero(below: nat, n: nat)
    requires n > 0
    ensures Percentile(below, n) == 0.0 <==> below == 0
  {
    if below > 0 { assert below as real / n as real > 0.0; }
  }

  /** On a quiet start the current reading is above none of the last m, unless these are all there are. */
  lemma QuietPercentile(series: seq<real>, history: nat, m: nat)
    requires |series| == history + 1 && 5 <= m <= history
    requires series[0] < 1.0 && forall k :: 1 <= k < |series| ==> series[k] == 1.0
    ensures Reading(series, m).Some? && (Reading(series, m).value.percentile == 0.0 <==> m < history)
  {
    hide CountBelow, Reading, Percentile, Band, Tail;
    ReadingIs(series, m);
    QuietTail(series, history, m);
    var below := CountBelow(Tail(series[..history], m), 1.0);
    PercentileZero(below, m);
  }

  lemma QuietTail(series: seq<real>, history: nat, m: nat)
    requires |series| == history + 1 && 5 <= m <= history
    requires series[0] < 1.0 && forall k :: 1 <= k < |series| ==> series[k] == 1.0
    ensures CountBelow(Tail(series[..history], m), 1.0) == 0 <==> m < history
  {
    hide CountBelow;
    var trailing := Tail(series[..history], m);
    assert trailing == series[history - m..history];
    assert trailing[0] == series[history - m];
    forall k | 1 <= k < |trailing| ensures trailing[k] == 1.0 { assert trailing[k] == series[history - m + k]; }
    OnlyFirstBelow(trailing, 1.0);
  }

  /** The reading on the last n bars of the quiet start differs from the reading on all of them. */
  lemma ReadingLost(period: nat, history: nat, n: nat)
    requires period > 0 && history >= 5 && n < history + period + 1
    ensures var bars := QuietStart(history + period + 1);
      ClassifyRegime(Tail(bars, n), period, history) != ClassifyRegime(bars, period, history)
  {
    hide AtrSeries, Reading;
    var bars := QuietStart(history + period + 1);
    var series := AtrSeries(bars, period);
    QuietSeries(period, |bars|);
    QuietPercentile(series, history, history);
    HasReading(series, history);
    if n >= period + 2 {
      var shorter := n - period - 1;
      RegimeOfTail(bars, period, history, n);
      HasReading(series, shorter);
      if shorter >= 5 { QuietPercentile(series, history, shorter); }
    }
  }

  lemma HasReading(series: seq<real>, history: nat)
    requires |series| > history > 0
    ensures Reading(series, history).Some? <==> history >= 5
  {
  }

  /** With no history asked for, any cut can be seen: the percentile is over all readings there are. */
  lemma AllReadingsLost(period: nat, n: nat)
    requires period > 0
    ensures var bars := QuietStart((if n > 5 then n else 5) + period + 1);
      ClassifyRegime(Tail(bars, n), period, 0) != ClassifyRegime(bars, period, 0)
  {
    hide ClassifyRegime, QuietStart;
    var h := if n > 5 then n else 5;
    ReadingLost(period, h, n);
    AllAreEnough(QuietStart(h + period + 1), period, h);
    AllAreEnough(Tail(QuietStart(h + period + 1), n), period, h);
  }

  lemma AllAreEnough(bars: seq<Bar>, period: nat, history: nat)
    requires period > 0 && |bars| <= history + period + 1
    ensures ClassifyRegime(bars, period, 0) == ClassifyRegime(bars, period, history)
  {
    hide CountBelow, Percentile, Band;
  }

  /** Cutting the history to its last n bars never changes the regime, if and only if some history is asked for, and no
      reading is ever given or the history fits in the window together with the period and one more bar. */
  lemma RegimeLosslessIff(period: nat, history: nat, n: nat)
    requires period > 0
    ensures (forall bars ::
      ClassifyRegime(Tail(bars, n), period, history) == ClassifyRegime(bars, period, history)) <==>
      history > 0 && (history < 5 || history + period + 1 <= n)
  {
    if history == 0 {
      AllReadingsLost(period, n);
    } else if history < 5 {
      forall bars ensures ClassifyRegime(Tail(bars, n), period, history) == ClassifyRegime(bars, period, history) {
        NoReading(bars, period, history);
        NoReading(Tail(bars, n), period, history);
      }
    } else if history + period + 1 <= n {
      forall bars ensures ClassifyRegime(Tail(bars, n), period, history) == ClassifyRegime(bars, period, history) {
        RegimeWindowLossless(bars, period, history, n);
      }
    } else {
      ReadingLost(period, history, n);
    }
  }

  lemma NoReading(bars: seq<Bar>, period: nat, history: nat)
    requires period > 0 && 0 < history < 5
    ensures ClassifyRegime(bars, period, history) == None
  {
  }
}

/** The values of the indicators, in terms of the prices of the bars they look at. */
module IndicatorMeaning {
  import opened Prelude
  import opened Bars
  import opened Indicators
  import Swing

  // ---------------------------------------------------------------- sums over a range of bars

  /** Closes of bars lo..hi. */
  function CloseSum(bars: seq<Bar>, lo: int, hi: int): real
    requires 0 <= lo <= hi <= |bars|
  {
    if lo == hi then 0.0 else CloseSum(bars, lo, hi - 1) + bars[hi - 1].close
  }

  /** How far the closes of bars lo..hi rose from bar to bar, falls left out. */
  function Risen(bars: seq<Bar>, lo: int, hi: int): real
    requires 0 < lo <= hi <= |bars|
  {
    if lo == hi then 0.0
    else
      var move := bars[hi - 1].close - bars[hi - 2].close;
      Risen(bars, lo, hi - 1) + if move > 0.0 then move else 0.0
  }

  function Fallen(bars: seq<Bar>, lo: int, hi: int): real
    requires 0 < lo <= hi <= |bars|
  {
    if lo == hi then 0.0
    else
      var move := bars[hi - 2].close - bars[hi - 1].close;
      Fallen(bars, lo, hi - 1) + if move > 0.0 then move else 0.0
  }

  /** What bars lo..hi spanned, each together with the close before it. */
  function Spanned(bars: seq<Bar>, lo: int, hi: int): real
    requires 0 < lo <= hi <= |bars|
  {
    if lo == hi then 0.0 else Spanned(bars, lo, hi - 1) + TrueRange(bars[hi - 2], bars[hi - 1])
  }

  // ---------------------------------------------------------------- true range

  /** The widest of the three spans; on a bar whose high is not below its low, the span of the bar and the previous
      close together. */
  lemma TrueRangeSpans(previous: Bar, bar: Bar)
    ensures var x, c := TrueRange(previous, bar), previous.close;
      && x >= bar.high - bar.low && x >= bar.high - c && x >= c - bar.high && x >= bar.low - c && x >= c - bar.low
      && (x == bar.high - bar.low || x == bar.high - c || x == c - bar.high || x == bar.low - c || x == c - bar.low)
    ensures var top := if bar.high > previous.close then bar.high else previous.close;
      var bottom := if bar.low < previous.close then bar.low else previous.close;
      bar.low <= bar.high ==> TrueRange(previous, bar) == top - bottom
  {
  }

  // ---------------------------------------------------------------- moving averages

  lemma MeanTimesCount(s: seq<real>)
    requires s != []
    ensures Mean(s) * |s| as real == Sum(s)
  {
    DivideThenMultiply(Sum(s), |s| as real);
  }

  lemma {:induction false} SumOfCloses(bars: seq<Bar>, lo: nat, hi: nat)
    requires lo <= hi <= |bars|
    ensures Sum(Closes(bars[lo..hi])) == CloseSum(bars, lo, hi)
  {
    if lo < hi {
      SumOfCloses(bars, lo, hi - 1);
      assert Closes(bars[lo..hi])[..hi - 1 - lo] == Closes(bars[lo..hi - 1]);
    }
  }

  /** The simple average: with at least p bars, p times the value is the sum of the last p closes. */
  lemma SmaMeans(bars: seq<Bar>, p: nat)
    requires p > 0
    ensures Sma(bars, p).Some? <==> |bars| >= p
    ensures |bars| >= p ==> Sma(bars, p).value * p as real == CloseSum(bars, |bars| - p, |bars|)
  {
    hide Mean, Sum, CloseSum, Closes;
    if |bars| >= p {
      var n := |bars|;
      assert Tail(bars, p) == bars[n - p..n];
      SumOfCloses(bars, n - p, n);
      var closes := Closes(bars[n - p..n]);
      assert |closes| == p;
      MeanTimesCount(closes);
    }
  }

  /** The averages over the last 3p bars: the first close, then each close with weight 2 and the average before it with
      weight p - 1, over p + 1. */
  ghost predicate Smoothed(bars: seq<Bar>, p: nat, lo: nat, e: seq<real>) {
    && lo + |e| == |bars| && e != [] && e[0] == bars[lo].close
    && forall k :: 1 <= k < |e| ==> e[k] * (p as real + 1.0) == e[k - 1] * (p as real - 1.0) + bars[lo + k].close * 2.0
  }

  function EmaSeries(s: seq<real>, alpha: real, k: nat): (e: seq<real>)
    requires k <= |s|
    ensures |e| == k
  {
    if k == 0 then [] else EmaSeries(s, alpha, k - 1) + [Ema(s[..k], alpha)]
  }

  lemma {:induction false} EmaSeriesAt(s: seq<real>, alpha: real, k: nat)
    requires k <= |s|
    ensures forall i :: 0 <= i < k ==> EmaSeries(s, alpha, k)[i] == Ema(s[..i + 1], alpha)
  {
    if k > 0 { EmaSeriesAt(s, alpha, k - 1); }
  }

  lemma EmaStep(s: seq<real>, p: nat, k: nat)
    requires p > 0 && 1 <= k < |s|
    ensures var alpha := 2.0 / (p as real + 1.0);
      Ema(s[..k + 1], alpha) * (p as real + 1.0) == Ema(s[..k], alpha) * (p as real - 1.0) + s[k] * 2.0
  {
    var d, alpha := p as real + 1.0, 2.0 / (p as real + 1.0);
    var before := Ema(s[..k], alpha);
    assert s[..k + 1][..k] == s[..k];
    DivideThenMultiply(2.0, d);
    Weighted(before, s[k], alpha, d);
  }

  lemma Weighted(x: real, y: real, alpha: real, d: real)
    requires alpha * d == 2.0
    ensures ((1.0 - alpha) * x + alpha * y) * d == x * (d - 2.0) + y * 2.0
  {
    assert (1.0 - alpha) * x * d == x * d - x * (alpha * d);
    assert alpha * y * d == y * (alpha * d);
  }

  /** The exponential average is the last of those averages, given p bars. */
  lemma EmaMeans(bars: seq<Bar>, p: nat) returns (e: seq<real>)
    requires p > 0
    ensures EmaValue(bars, p).Some? <==> |bars| >= p
    ensures |bars| >= p ==>
      Smoothed(bars, p, if |bars| > 3 * p then |bars| - 3 * p else 0, e) && EmaValue(bars, p) == Some(e[|e| - 1])
  {
    hide Ema, Smoothed;
    e := [];
    if |bars| >= p {
      var alpha, n := 2.0 / (p as real + 1.0), |bars|;
      var lo := if n > 3 * p then n - 3 * p else 0;
      assert Tail(bars, p * 3) == bars[lo..n];
      var s := Closes(bars[lo..n]);
      e := EmaSeries(s, alpha, |s|);
      EmaSeriesAt(s, alpha, |s|);
      SeriesSmoothed(bars, p, lo, s, e);
      assert s[..|s|] == s;
    }
  }

  lemma SeriesSmoothed(bars: seq<Bar>, p: nat, lo: nat, s: seq<real>, e: seq<real>)
    requires p > 0 && lo < |bars| && s == Closes(bars[lo..]) && |e| == |s|
    requires forall i :: 0 <= i < |s| ==> e[i] == Ema(s[..i + 1], 2.0 / (p as real + 1.0))
    ensures Smoothed(bars, p, lo, e)
  {
    hide Ema;
    forall k | 1 <= k < |e|
      ensures e[k] * (p as real + 1.0) == e[k - 1] * (p as real - 1.0) + bars[lo + k].close * 2.0
    {
      EmaStep(s, p, k);
    }
    EmaOfOne(s, 2.0 / (p as real + 1.0));
  }

  lemma EmaOfOne(s: seq<real>, alpha: real)
    requires s != []
    ensures Ema(s[..1], alpha) == s[0]
  {
  }

  lemma RangesGrow(s: seq<Bar>)
    requires |s| > 1
    ensures var n := |s| - 1; Sum(TrueRanges(s)) == Sum(TrueRanges(s[..n])) + TrueRange(s[n - 1], s[n])
  {
    hide TrueRange;
    var n := |s| - 1;
    assert TrueRanges(s)[..n - 1] == TrueRanges(s[..n]);
  }

  lemma {:induction false} SumOfRanges(bars: seq<Bar>, lo: nat, hi: nat)
    requires 0 < lo <= hi <= |bars|
    ensures Sum(TrueRanges(bars[lo - 1..hi])) == Spanned(bars, lo, hi)
  {
    hide TrueRange, TrueRanges;
    var s := bars[lo - 1..hi];
    if lo < hi {
      SumOfRanges(bars, lo, hi - 1);
      RangesGrow(s);
      assert s[..|s| - 1] == bars[lo - 1..hi - 1];
    } else {
      assert |TrueRanges(s)| == 0;
    }
  }

  /** The average true range: with at least p + 1 bars, p times the value is what the last p bars spanned. */
  lemma AtrMeans(bars: seq<Bar>, p: nat)
    requires p > 0
    ensures Atr(bars, p).Some? <==> |bars| > p
    ensures |bars| > p ==> Atr(bars, p).value * p as real == Spanned(bars, |bars| - p, |bars|)
  {
    hide Mean, Sum, Spanned, TrueRanges, TrueRange;
    if |bars| > p {
      var n := |bars|;
      assert Tail(bars, p + 1) == bars[n - p - 1..n];
      SumOfRanges(bars, n - p, n);
      var ranges := TrueRanges(bars[n - p - 1..n]);
      assert |ranges| == p;
      MeanTimesCount(ranges);
    }
  }

  // ---------------------------------------------------------------- relative strength

  lemma GainsGrow(closes: seq<real>)
    requires |closes| > 1
    ensures var n := |closes| - 1;
      && Sum(Gains(closes)) == Sum(Gains(closes[..n])) + Max(closes[n] - closes[n - 1], 0.0)
      && Sum(Losses(closes)) == Sum(Losses(closes[..n])) + Max(closes[n - 1] - closes[n], 0.0)
  {
    var n := |closes| - 1;
    assert Gains(closes)[..n - 1] == Gains(closes[..n]);
    assert Losses(closes)[..n - 1] == Losses(closes[..n]);
  }

  lemma {:induction false} SumOfMoves(bars: seq<Bar>, lo: nat, hi: nat)
    requires 0 < lo <= hi <= |bars|
    ensures Sum(Gains(Closes(bars[lo - 1..hi]))) == Risen(bars, lo, hi)
    ensures Sum(Losses(Closes(bars[lo - 1..hi]))) == Fallen(bars, lo, hi)
  {
    hide Gains, Losses;
    if lo < hi {
      SumOfMoves(bars, lo, hi - 1);
      var all := Closes(bars[lo - 1..hi]);
      GainsGrow(all);
      assert all[..|all| - 1] == Closes(bars[lo - 1..hi - 1]);
    } else {
      assert |Gains(Closes(bars[lo - 1..hi]))| == |Losses(Closes(bars[lo - 1..hi]))| == 0;
    }
  }

  /** Rises less falls is the way from the first close to the last. */
  lemma {:induction false} MovesAddUp(bars: seq<Bar>, lo: nat, hi: nat)
    requires 0 < lo <= hi <= |bars|
    ensures Risen(bars, lo, hi) - Fallen(bars, lo, hi) == bars[hi - 1].close - bars[lo - 1].close
    ensures Risen(bars, lo, hi) >= 0.0 && Fallen(bars, lo, hi) >= 0.0
  {
    if lo < hi { MovesAddUp(bars, lo, hi - 1); }
  }

  predicate FallsAt(bars: seq<Bar>, k: int)
    requires 0 < k < |bars|
  {
    bars[k].close < bars[k - 1].close
  }

  predicate RisesAt(bars: seq<Bar>, k: int)
    requires 0 < k < |bars|
  {
    bars[k].close > bars[k - 1].close
  }

  /** Nothing fell when no bar closed below the one before it, and likewise for rises. */
  lemma {:induction false} NoMoves(bars: seq<Bar>, lo: nat, hi: nat)
    requires 0 < lo <= hi <= |bars|
    ensures Fallen(bars, lo, hi) == 0.0 <==> forall k :: lo <= k < hi ==> !FallsAt(bars, k)
    ensures Risen(bars, lo, hi) == 0.0 <==> forall k :: lo <= k < hi ==> !RisesAt(bars, k)
  {
    if lo < hi {
      NoMoves(bars, lo, hi - 1);
      MovesAddUp(bars, lo, hi - 1);
      assert FallsAt(bars, hi - 1) || !FallsAt(bars, hi - 1);
      assert RisesAt(bars, hi - 1) || !RisesAt(bars, hi - 1);
    }
  }

  /** A ratio of averages is a ratio of sums. */
  lemma RsiOfSums(gain: real, loss: real, up: real, down: real, p: real)
    requires p > 0.0 && gain >= 0.0 && loss >= 0.0 && gain * p == up && loss * p == down
    ensures loss > 0.0 ==> RsiOf(gain, loss) * (up + down) == 100.0 * up
    ensures loss == 0.0 <==> down == 0.0
    ensures gain == 0.0 <==> up == 0.0
  {
    if loss > 0.0 {
      var rs := gain / loss;
      DivideThenMultiply(gain, loss);
      assert rs * loss == gain;
      assert rs >= 0.0;
      var q := 100.0 / (1.0 + rs);
      DivideThenMultiply(100.0, 1.0 + rs);
      RatioOfSums(rs, q, loss, p);
      assert (1.0 + rs) * loss * p == up + down;
      assert 100.0 * loss * p == 100.0 * down;
    }
  }

  lemma RatioOfSums(rs: real, q: real, loss: real, p: real)
    requires q * (1.0 + rs) == 100.0
    ensures q * ((1.0 + rs) * loss * p) == 100.0 * loss * p
  {
    assert q * ((1.0 + rs) * loss * p) == (q * (1.0 + rs)) * (loss * p);
    assert 100.0 * loss * p == 100.0 * (loss * p);
  }

  lemma Halved(v: real, up: real, down: real)
    requires v * (up + down) == 100.0 * up && up >= 0.0 && down > 0.0
    ensures v > 50.0 <==> up > down
    ensures v == 0.0 <==> up == 0.0
    ensures 0.0 <= v < 100.0
  {
    var t := up + down;
    assert (v - 50.0) * t == 50.0 * (up - down);
    SignOfProduct(v - 50.0, t);
    SignOfProduct(v, t);
    assert (100.0 - v) * t == 100.0 * down;
    SignOfProduct(100.0 - v, t);
  }

  lemma SignOfProduct(x: real, t: real)
    requires t > 0.0
    ensures x > 0.0 <==> x * t > 0.0
    ensures x == 0.0 <==> x * t == 0.0
  {
    if x < 0.0 { assert (-x) * t > 0.0; }
  }

  /** What a relative strength of v says about the rises and falls it is taken of. */
  predicate Strength(v: real, up: real, down: real) {
    && v * (up + down) == 100.0 * up && 0.0 <= v <= 100.0
    && (v == 100.0 <==> down == 0.0 && up > 0.0) && (v == 0.0 <==> up == 0.0 && down > 0.0)
    && (up == down == 0.0 ==> v == 50.0) && (v > 50.0 <==> up > down)
  }

  /** Relative strength over the last p moves: the rises' share of all moves, in percent; 100 when the closes only
      rise, 0 when they only fall, 50 when they do not move; above 50 exactly when the last close is above the first. */
  lemma RsiMeans(bars: seq<Bar>, p: nat)
    requires p > 0
    ensures Rsi(bars, p).Some? <==> |bars| > p
    ensures |bars| > p ==>
      var v, n := Rsi(bars, p).value, |bars|;
      && Strength(v, Risen(bars, n - p, n), Fallen(bars, n - p, n))
      && (v > 50.0 <==> bars[n - 1].close > bars[n - 1 - p].close)
  {
    hide Rsi, Risen, Fallen, Strength;
    RsiGiven(bars, p);
    if |bars| > p {
      var n := |bars|;
      RsiStrength(bars, p, Rsi(bars, p).value);
      MovesAddUp(bars, n - p, n);
      StrengthAboveHalf(Rsi(bars, p).value, Risen(bars, n - p, n), Fallen(bars, n - p, n));
    }
  }

  lemma RsiGiven(bars: seq<Bar>, p: nat)
    requires p > 0
    ensures Rsi(bars, p).Some? <==> |bars| > p
  {
  }

  /** At 100 no close fell and some rose, at 0 the other way round, and when none moved it is 50. */
  lemma RsiAtItsEnds(bars: seq<Bar>, p: nat)
    requires p > 0 && |bars| > p
    ensures var v, n := Rsi(bars, p).value, |bars|;
      var falls := exists k :: n - p <= k < n && FallsAt(bars, k);
      var rises := exists k :: n - p <= k < n && RisesAt(bars, k);
      (v == 100.0 <==> rises && !falls) && (v == 0.0 <==> falls && !rises) && (!rises && !falls ==> v == 50.0)
  {
    hide Rsi, Risen, Fallen;
    var n := |bars|;
    RsiMeans(bars, p);
    NoMoves(bars, n - p, n);
    MovesAddUp(bars, n - p, n);
  }

  lemma StrengthAboveHalf(v: real, up: real, down: real)
    requires Strength(v, up, down)
    ensures v > 50.0 <==> up > down
  {
  }

  lemma RsiStrength(bars: seq<Bar>, p: nat, v: real)
    requires p > 0 && |bars| > p && Rsi(bars, p) == Some(v)
    ensures Strength(v, Risen(bars, |bars| - p, |bars|), Fallen(bars, |bars| - p, |bars|))
  {
    hide Risen, Fallen, RsiOf, Gains, Losses, AverageMove, Sum, Strength, Closes;
    var n := |bars|;
    assert Tail(bars, p + 1) == bars[n - p - 1..n];
    var closes := Closes(bars[n - p - 1..n]);
    var gains, losses := Gains(closes), Losses(closes);
    SumOfMoves(bars, n - p, n);
    AverageTimesCount(gains, p);
    AverageTimesCount(losses, p);
    MovesAddUp(bars, n - p, n);
    RsiValue(AverageMove(gains), AverageMove(losses), Sum(gains), Sum(losses), p as real);
  }

  lemma AverageTimesCount(moves: seq<real>, p: nat)
    requires |moves| == p > 0 && forall k :: 0 <= k < |moves| ==> moves[k] >= 0.0
    ensures AverageMove(moves) * p as real == Sum(moves)
  {
    MeanTimesCount(moves);
  }

  lemma RsiValue(gain: real, loss: real, up: real, down: real, p: real)
    requires p > 0.0 && gain >= 0.0 && loss >= 0.0 && gain * p == up && loss * p == down && up >= 0.0 && down >= 0.0
    ensures Strength(RsiOf(gain, loss), up, down)
  {
    hide RsiOf;
    RsiOfSums(gain, loss, up, down, p);
    if loss > 0.0 { Halved(RsiOf(gain, loss), up, down); } else { NoLoss(gain); }
  }

  lemma NoLoss(gain: real)
    requires gain >= 0.0
    ensures RsiOf(gain, 0.0) == if gain > 0.0 then 100.0 else 50.0
  {
  }

  // ---------------------------------------------------------------- median

  lemma {:induction false} SortedUnique(a: seq<real>, b: seq<real>)
    requires SortedReals(a) && SortedReals(b) && multiset(a) == multiset(b)
    ensures a == b
  {
    hide SortedReals;
    if a == [] {
      assert |multiset(b)| == 0;
    } else {
      assert |multiset(a)| == |multiset(b)|;
      LeastFirst(a, b);
      LeastFirst(b, a);
      WithoutFirst(a);
      WithoutFirst(b);
      SortedUnique(a[1..], b[1..]);
    }
  }

  lemma WithoutFirst(a: seq<real>)
    requires a != []
    ensures a == [a[0]] + a[1..] && multiset(a[1..]) == multiset(a) - multiset{a[0]}
    ensures SortedReals(a) ==> SortedReals(a[1..])
  {
    assert a == [a[0]] + a[1..];
  }

  lemma LeastFirst(a: seq<real>, b: seq<real>)
    requires SortedReals(a) && a != [] && b != [] && multiset(a) == multiset(b)
    ensures a[0] <= b[0]
  {
    assert b[0] in multiset(b);
    assert b[0] in multiset(a);
    var i :| 0 <= i < |a| && a[i] == b[0];
  }

  /** The middle reading of the readings in ascending order, or halfway between the middle two. */
  predicate IsMiddle(x: real, sorted: seq<real>)
    requires sorted != []
  {
    var n := |sorted|;
    if n % 2 == 1 then x == sorted[n / 2] else 2.0 * x == sorted[n / 2 - 1] + sorted[n / 2]
  }

  /** The same readings in ascending order. */
  predicate Arranges(sorted: seq<real>, s: seq<real>) {
    SortedReals(sorted) && multiset(sorted) == multiset(s)
  }

  lemma MedianIsMiddle(s: seq<real>, sorted: seq<real>)
    requires s != [] && Arranges(sorted, s)
    ensures |sorted| == |s| && IsMiddle(Median(s), sorted)
  {
    SortRealsSorts(s);
    SortedUnique(SortReals(s), sorted);
  }

  /** The ATR as of each of the last w bars. */
  function LastAtrs(bars: seq<Bar>, p: nat, w: nat): (s: seq<real>)
    requires p > 0 && w > 0 && |bars| >= p + w
    ensures |s| == w
    ensures forall k {:trigger s[k]} :: 0 <= k < w ==> Some(s[k]) == Atr(bars[..|bars| - w + 1 + k], p)
  {
    seq(w, k requires 0 <= k < w => Atr(bars[..|bars| - w + 1 + k], p).value)
  }

  /** The rolling median: with at least p + w bars, the middle of the last w ATRs. */
  lemma AtrMedianMeans(bars: seq<Bar>, p: nat, w: nat)
    requires p > 0 && w > 0
    ensures AtrMedian(bars, p, w).Some? <==> |bars| >= p + w
    ensures |bars| >= p + w ==> forall sorted ::
      Arranges(sorted, LastAtrs(bars, p, w)) ==> |sorted| == w && IsMiddle(AtrMedian(bars, p, w).value, sorted)
  {
    if |bars| >= p + w {
      var series := AtrSeries(bars, p);
      LastAtrsAreTail(bars, p, w);
      forall sorted | Arranges(sorted, LastAtrs(bars, p, w))
        ensures |sorted| == w && IsMiddle(AtrMedian(bars, p, w).value, sorted)
      {
        MedianIsMiddle(Tail(series, w), sorted);
      }
    }
  }

  lemma SeriesLength(bars: seq<Bar>, p: nat)
    requires p > 0 && |bars| > p
    ensures |AtrSeries(bars, p)| == |bars| - p
  {
  }

  lemma LastAtrsAreTail(bars: seq<Bar>, p: nat, w: nat)
    requires p > 0 && w > 0 && |bars| >= p + w
    ensures |AtrSeries(bars, p)| == |bars| - p
    ensures Tail(AtrSeries(bars, p), w) == LastAtrs(bars, p, w)
  {
    hide AtrSeries, Atr;
    SeriesLength(bars, p);
    var series := AtrSeries(bars, p);
    forall k | 0 <= k < w ensures Tail(series, w)[k] == LastAtrs(bars, p, w)[k] {
      AtrSeriesEntry(bars, p, |bars| - w + 1 + k);
    }
  }

  // ---------------------------------------------------------------- regime

  /** The ATR as of each of the m bars before the last. */
  function EarlierAtrs(bars: seq<Bar>, p: nat, m: nat): (s: seq<real>)
    requires p > 0 && p + m < |bars|
    ensures |s| == m
    ensures forall k {:trigger s[k]} :: 0 <= k < m ==> Some(s[k]) == Atr(bars[..|bars| - m + k], p)
  {
    seq(m, k requires 0 <= k < m => Atr(bars[..|bars| - m + k], p).value)
  }

  ghost function Below(s: seq<real>, v: real): set<int> {
    set k | 0 <= k < |s| && s[k] < v
  }

  lemma {:induction false} CountBelowIsSize(s: seq<real>, v: real)
    ensures CountBelow(s, v) == |Below(s, v)|
  {
    if s != [] {
      var n := |s| - 1;
      CountBelowIsSize(s[..n], v);
      assert Below(s, v) == Below(s[..n], v) + if s[n] < v then {n} else {};
    }
  }

  /** How many ATRs the percentile is over: those before the current one, at most `history` unless that is zero. */
  function Compared(n: nat, period: nat, history: nat): nat
    requires n >= period + 2
  {
    if history == 0 || n - period - 1 <= history then n - period - 1 else history
  }

  predicate Classified(r: RegimeReading, below: nat, m: nat) {
    && r.percentile * m as real == 100.0 * below as real
    && (r.band.Low? <==> r.percentile <= 25.0)
    && (r.band.Normal? <==> 25.0 < r.percentile <= 75.0)
    && (r.band.High? <==> 75.0 < r.percentile <= 95.0)
    && (r.band.Extreme? <==> r.percentile > 95.0)
  }

  /** The regime: a reading if and only if five earlier ATRs are there to compare with; then the share of them below
      the current one in percent, and the band it falls in. */
  lemma RegimeMeans(bars: seq<Bar>, period: nat, history: nat)
    requires period > 0
    ensures ClassifyRegime(bars, period, history).Some? <==>
      |bars| >= period + 2 && Compared(|bars|, period, history) >= 5
    ensures |bars| >= period + 2 && Compared(|bars|, period, history) >= 5 ==>
      var m := Compared(|bars|, period, history);
      Classified(ClassifyRegime(bars, period, history).value,
        |Below(EarlierAtrs(bars, period, m), Atr(bars, period).value)|, m)
  {
    hide AtrSeries, Atr, CountBelow, Percentile, Band, Classified, Below;
    if |bars| >= period + 2 {
      var m, series := Compared(|bars|, period, history), AtrSeries(bars, period);
      SeriesLength(bars, period);
      ConvolvedCurrentIsAtr(bars, period);
      EarlierAreTrailing(bars, period, history);
      CountBelowIsSize(EarlierAtrs(bars, period, m), Atr(bars, period).value);
      if m >= 5 { ClassifiedAs(CountBelow(EarlierAtrs(bars, period, m), Atr(bars, period).value), m); }
    }
  }

  lemma ClassifiedAs(below: nat, m: nat)
    requires m > 0
    ensures Classified(RegimeReading(Band(Percentile(below, m)), Percentile(below, m)), below, m)
  {
    DivideThenMultiply(below as real, m as real);
  }

  lemma EarlierAreTrailing(bars: seq<Bar>, period: nat, history: nat)
    requires period > 0 && |bars| >= period + 2
    ensures |AtrSeries(bars, period)| == |bars| - period
    ensures Trailing(AtrSeries(bars, period)[..|bars| - period - 1], history) ==
      EarlierAtrs(bars, period, Compared(|bars|, period, history))
  {
    hide AtrSeries, Atr;
    SeriesLength(bars, period);
    var m, n, series := Compared(|bars|, period, history), |bars|, AtrSeries(bars, period);
    var trailing := Trailing(series[..n - period - 1], history);
    forall k | 0 <= k < m ensures trailing[k] == EarlierAtrs(bars, period, m)[k] {
      AtrSeriesEntry(bars, period, n - m + k);
    }
  }

  // ---------------------------------------------------------------- how far back a value depends

  /** n bars with these closes, at one price otherwise. */
  function FirstAtOne(n: nat): (bars: seq<Bar>)
    ensures |bars| == n && forall k :: 0 <= k < n ==> bars[k].close == if k == 0 then 1.0 else 0.0
  {
    seq(n, k => Bar(k, 0.0, 1.0, 0.0, if k == 0 then 1.0 else 0.0, 0.0, 0.0, 0.0))
  }

  lemma {:induction false} EmaSign(s: seq<real>, alpha: real)
    requires s != [] && 0.0 < alpha < 1.0 && s[0] >= 0.0 && forall k :: 1 <= k < |s| ==> s[k] == 0.0
    ensures if s[0] > 0.0 then Ema(s, alpha) > 0.0 else Ema(s, alpha) == 0.0
  {
    if |s| > 1 {
      EmaSign(s[..|s| - 1], alpha);
      Scaled(1.0 - alpha, Ema(s[..|s| - 1], alpha));
    }
  }

  lemma Scaled(a: real, x: real)
    requires a > 0.0
    ensures (x > 0.0 ==> a * x > 0.0) && (x == 0.0 ==> a * x == 0.0)
  {
  }

  /** The first of 3p closes still shows in the exponential average, and is out of sight of any shorter window. */
  lemma EmaForgets(p: nat, n: nat)
    requires p > 1 && p <= n < 3 * p
    ensures EmaValue(Tail(FirstAtOne(3 * p), n), p) != EmaValue(FirstAtOne(3 * p), p)
  {
    hide Ema;
    var bars, alpha := FirstAtOne(3 * p), 2.0 / (p as real + 1.0);
    DivideThenMultiply(2.0, p as real + 1.0);
    BelowOne(alpha, p as real + 1.0);
    assert Tail(bars, p * 3) == bars && Tail(Tail(bars, n), p * 3) == Tail(bars, n);
    EmaSign(Closes(bars), alpha);
    EmaSign(Closes(Tail(bars, n)), alpha);
  }

  lemma BelowOne(a: real, d: real)
    requires a * d == 2.0 && d > 2.0
    ensures 0.0 < a < 1.0
  {
    Products(a, d);
  }

  lemma Products(a: real, d: real)
    requires d > 2.0
    ensures (a <= 0.0 ==> a * d <= 0.0) && (a >= 1.0 ==> a * d >= d)
  {
    if a >= 1.0 { assert (a - 1.0) * d >= 0.0; }
  }

  lemma TooFew(i: Indicator, n: nat)
    requires ValidIndicator(i) && !i.SwingStructure? && n < Fewest(i)
    ensures Compute(i, Tail(FirstAtOne(Fewest(i)), n)) != Compute(i, FirstAtOne(Fewest(i)))
  {
    var bars := FirstAtOne(Fewest(i));
    assert |Tail(bars, n)| == n;
    match i {
      case SimpleMovingAverage(p) =>
        SmaMeans(bars, p);
        SmaMeans(Tail(bars, n), p);
      case ExponentialMovingAverage(p) =>
        assert EmaValue(bars, p).Some? && EmaValue(Tail(bars, n), p).None?;
      case AverageTrueRange(p) =>
        AtrMeans(bars, p);
        AtrMeans(Tail(bars, n), p);
      case RelativeStrengthIndex(p) =>
        assert Rsi(bars, p).Some? && Rsi(Tail(bars, n), p).None?;
      case RollingAtrMedian(p, w) =>
        AtrMedianMeans(bars, p, w);
        AtrMedianMeans(Tail(bars, n), p, w);
    }
  }

  /** The least number of bars on which the indicator has a value at all. */
  function Fewest(i: Indicator): nat
    requires !i.SwingStructure?
  {
    match i
    case SimpleMovingAverage(p) => p
    case ExponentialMovingAverage(p) => p
    case AverageTrueRange(p) => p + 1
    case RelativeStrengthIndex(p) => p + 1
    case RollingAtrMedian(p, w) => p + w
  }

  /** The declared lookback is exact: on a window of n bars an indicator always has its full-history value if and only
      if n is at least that; only the exponential average of period one, which is the last close, declares more. */
  lemma LookbackIsExact(i: Indicator, n: nat)
    requires ValidIndicator(i) && !i.SwingStructure? && i != ExponentialMovingAverage(1)
    ensures (forall bars :: Compute(i, Tail(bars, n)) == Compute(i, bars)) <==> n >= Lookback(i)
  {
    hide Compute;
    if n >= Lookback(i) {
      forall bars ensures Compute(i, Tail(bars, n)) == Compute(i, bars) { WindowIsLossless(i, bars, n); }
    } else if n < Fewest(i) {
      TooFew(i, n);
    } else {
      EmaForgets(i.period, n);
      EmaComputes(Tail(FirstAtOne(3 * i.period), n), i.period);
      EmaComputes(FirstAtOne(3 * i.period), i.period);
    }
  }

  lemma EmaComputes(bars: seq<Bar>, p: nat)
    requires p > 0
    ensures Compute(ExponentialMovingAverage(p), bars) == [EmaValue(bars, p)]
  {
  }

  /** One bar stands out from n at one price. */
  function Spike(n: nat, at: nat): (bars: seq<Bar>)
    ensures |bars| == n && forall k :: 0 <= k < n ==> bars[k].high == if k == at then 1.0 else 0.0
  {
    seq(n, k => Bar(k, 0.0, if k == at then 1.0 else 0.0, 0.0, 0.0, 0.0, 0.0, 0.0))
  }

  /** The declared lookback of the swings is exact where the window can hold a confirmed one: n bars can have a swing if
      and only if n is at least that. */
  lemma SwingLookbackIsExact(c: nat, w: nat, n: nat)
    requires w >= 2 * c + 1
    ensures (exists bars :: |bars| == n && Swings(bars, c, w) != (None, None)) <==>
      n >= Lookback(SwingStructure(c, w))
  {
    if n >= 2 * c + 1 {
      var bars := Spike(n, n - 1 - c);
      var h := Swing.Highs(bars);
      assert Swing.IsPeak(h, c, n - 1 - c);
      Swing.SwingIndexExact(h, c, w);
      Swing.SwingHighAtIndex(bars, c, w);
      assert Swings(bars, c, w).0.Some?;
    }
  }
}

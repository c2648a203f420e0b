/** Performance metrics of closed trades: the running-peak drawdown and its duration, gross and net P&L, win rate
    and the averages of the columns present, and the breakdown by an attribute of the trades. */
module Metrics {
  import opened Prelude
  import opened Records
  import Stores
  import Backtest
  import Bars
  import Conservation

  function PnlOf(e: LedgerEntry): real {
    if e.realisedPnl.Some? then e.realisedPnl.value else 0.0
  }

  function Pnls(rows: seq<LedgerEntry>): (r: seq<real>)
    ensures |r| == |rows|
  {
    if rows == [] then [] else Pnls(rows[..|rows| - 1]) + [PnlOf(rows[|rows| - 1])]
  }

  // ---------------------------------------------------------------- the equity curve

  function CumSum(pnl: seq<real>): (r: seq<real>)
    ensures |r| == |pnl|
  {
    if pnl == [] then []
    else
      var init := CumSum(pnl[..|pnl| - 1]);
      init + [(if init == [] then 0.0 else init[|init| - 1]) + pnl[|pnl| - 1]]
  }

  function RunningMax(s: seq<real>): (r: seq<real>)
    ensures |r| == |s|
  {
    if s == [] then []
    else
      var init := RunningMax(s[..|s| - 1]);
      init + [if init == [] then s[|s| - 1] else Max(init[|init| - 1], s[|s| - 1])]
  }

  function Drawdown(equity: seq<real>): (r: seq<real>)
    ensures |r| == |equity|
    ensures forall i {:trigger r[i]} :: 0 <= i < |r| ==> r[i] == equity[i] - RunningMax(equity)[i]
  {
    var peak := RunningMax(equity);
    seq(|equity|, i requires 0 <= i < |equity| && |peak| == |equity| => equity[i] - peak[i])
  }

  function Least(s: seq<real>): real {
    if s == [] then 0.0
    else if |s| == 1 then s[0]
    else Min(Least(s[..|s| - 1]), s[|s| - 1])
  }

  lemma {:induction false} CumSumIsSum(pnl: seq<real>, i: nat)
    requires i < |pnl|
    ensures CumSum(pnl)[i] == Sum(pnl[..i + 1])
  {
    var init := pnl[..|pnl| - 1];
    if i < |init| {
      CumSumIsSum(init, i);
      assert init[..i + 1] == pnl[..i + 1];
    } else {
      assert pnl[..i + 1] == pnl;
      if init != [] {
        CumSumIsSum(init, |init| - 1);
        assert init[..|init|] == init;
      }
    }
  }

  /** The peak so far: attained, and not exceeded. */
  lemma {:induction false} RunningMaxIsPeak(s: seq<real>, j: nat)
    requires j < |s|
    ensures forall i :: 0 <= i <= j ==> s[i] <= RunningMax(s)[j]
    ensures exists i :: 0 <= i <= j && s[i] == RunningMax(s)[j]
  {
    var init := s[..|s| - 1];
    if j < |init| {
      RunningMaxIsPeak(init, j);
      var i :| 0 <= i <= j && init[i] == RunningMax(init)[j];
      assert s[i] == RunningMax(s)[j];
    } else if init != [] {
      RunningMaxIsPeak(init, j - 1);
      var i :| 0 <= i <= j - 1 && init[i] == RunningMax(init)[j - 1];
      assert s[i] == init[i];
      assert s[if RunningMax(init)[j - 1] >= s[j] then i else j] == RunningMax(s)[j];
    } else {
      assert s[0] == RunningMax(s)[0];
    }
  }

  lemma {:induction false} LeastIsLeast(s: seq<real>)
    requires s != []
    ensures Least(s) in s && forall i :: 0 <= i < |s| ==> Least(s) <= s[i]
  {
    if |s| > 1 {
      LeastIsLeast(s[..|s| - 1]);
      assert s == s[..|s| - 1] + [s[|s| - 1]];
    }
  }

  /** A fall is the change of equity from one trade to the same or a later one. */
  ghost predicate IsWorstFall(equity: seq<real>, m: real) {
    && (forall i, j :: 0 <= i <= j < |equity| ==> m <= equity[j] - equity[i])
    && (exists i, j :: 0 <= i <= j < |equity| && m == equity[j] - equity[i])
  }

  /** One pass with a running peak finds the worst fall over all pairs. */
  lemma DrawdownIsWorstFall(equity: seq<real>)
    requires equity != []
    ensures IsWorstFall(equity, Least(Drawdown(equity)))
  {
    var dd := Drawdown(equity);
    LeastIsLeast(dd);
    forall i, j | 0 <= i <= j < |equity| ensures Least(dd) <= equity[j] - equity[i] {
      RunningMaxIsPeak(equity, j);
      assert Least(dd) <= dd[j];
    }
    var j :| 0 <= j < |dd| && dd[j] == Least(dd);
    RunningMaxIsPeak(equity, j);
    var i :| 0 <= i <= j && equity[i] == RunningMax(equity)[j];
    assert Least(dd) == equity[j] - equity[i];
  }

  /** A fall deeper than the curve's own worst begins at the start. */
  lemma FallsFromTheStart(equity: seq<real>, w: real, i: int, j: int)
    requires IsWorstFall(equity, w) && 0 <= i <= j <= |equity|
    ensures ([0.0] + equity)[j] - ([0.0] + equity)[i] < w <= 0.0 ==> 0 < j && equity[j - 1] < w
  {
    if i > 0 { assert w <= equity[j - 1] - equity[i - 1]; }
  }

  /** The curve starts at the first trade's result, so losses below the starting equity count only from
      there: measured from the start, the worst fall is deeper exactly when the curve dips below zero by
      more than the reported drawdown. */
  lemma FallFromTheStart(equity: seq<real>, m: real)
    requires equity != [] && IsWorstFall([0.0] + equity, m)
    ensures m < Least(Drawdown(equity)) <==> exists j :: 0 <= j < |equity| && equity[j] < Least(Drawdown(equity))
  {
    hide Least, Drawdown;
    var w, all := Least(Drawdown(equity)), [0.0] + equity;
    DrawdownIsWorstFall(equity);
    WorstIsNoGain(equity, w);
    if j :| 0 <= j < |equity| && equity[j] < w {
      assert all[j + 1] - all[0] == equity[j];
    }
    if m < w {
      var i, j :| 0 <= i <= j < |all| && m == all[j] - all[i];
      FallsFromTheStart(equity, w, i, j);
    }
  }

  lemma WorstIsNoGain(equity: seq<real>, m: real)
    requires equity != [] && IsWorstFall(equity, m)
    ensures m <= 0.0
  {
    assert m <= equity[0] - equity[0];
  }

  // ---------------------------------------------------------------- duration

  /** Strictly below an earlier point of the curve. */
  ghost predicate Underwater(equity: seq<real>, j: int)
    requires 0 <= j < |equity|
  {
    exists i :: 0 <= i < j && equity[i] > equity[j]
  }

  lemma UnderwaterIsDrawdown(equity: seq<real>, j: nat)
    requires j < |equity|
    ensures Drawdown(equity)[j] < 0.0 <==> Underwater(equity, j)
  {
    RunningMaxIsPeak(equity, j);
    var i :| 0 <= i <= j && equity[i] == RunningMax(equity)[j];
  }

  ghost predicate Stretch(equity: seq<real>, i: int, n: int) {
    0 <= i && 0 <= n && i + n <= |equity| && forall j :: i <= j < i + n ==> Underwater(equity, j)
  }

  /** The length of the longest run of consecutive trades below the peak so far. */
  ghost predicate IsLongestStretch(equity: seq<real>, m: int) {
    && (exists i :: Stretch(equity, i, m))
    && (forall i, n :: Stretch(equity, i, n) ==> n <= m)
  }

  /** The counter loop. */
  method LongestDrawdown(equity: seq<real>, drawdown: seq<real>) returns (maxDuration: nat)
    requires drawdown == Drawdown(equity)
    ensures IsLongestStretch(equity, maxDuration)
  {
    var duration := 0;
    maxDuration := 0;
    ghost var best := 0;
    for k := 0 to |drawdown|
      invariant 0 <= duration <= k && duration <= maxDuration
      invariant Stretch(equity, k - duration, duration)
      invariant duration < k ==> !Underwater(equity, k - duration - 1)
      invariant Stretch(equity, best, maxDuration)
      invariant forall i, n :: Stretch(equity, i, n) && i + n <= k ==> n <= maxDuration
    {
      UnderwaterIsDrawdown(equity, k);
      ghost var before := duration;
      duration := if drawdown[k] < 0.0 then duration + 1 else 0;
      if duration > maxDuration {
        maxDuration := duration;
        best := k + 1 - duration;
      }
      StretchEndsHere(equity, k, before, duration);
    }
  }

  /** A stretch that ends with trade k is no longer than the counter. */
  lemma StretchEndsHere(equity: seq<real>, k: nat, before: nat, duration: nat)
    requires k < |equity| && before <= k
    requires before < k ==> !Underwater(equity, k - before - 1)
    requires duration == if Underwater(equity, k) then before + 1 else 0
    ensures forall i, n :: Stretch(equity, i, n) && i + n == k + 1 ==> n <= duration
  {
    forall i, n | Stretch(equity, i, n) && i + n == k + 1 ensures n <= duration {
      if n > duration {
        StretchCovers(equity, i, n, k);
        StretchCovers(equity, i, n, k - before - 1);
        assert false;
      }
    }
  }

  lemma StretchCovers(equity: seq<real>, i: int, n: int, j: int)
    requires Stretch(equity, i, n) && i <= j < i + n
    ensures 0 <= j < |equity| && Underwater(equity, j)
  {
  }

  // ---------------------------------------------------------------- totals

  function Gains(pnl: seq<real>): seq<real> {
    if pnl == [] then []
    else Gains(pnl[..|pnl| - 1]) + if pnl[|pnl| - 1] > 0.0 then [pnl[|pnl| - 1]] else []
  }

  function Losses(pnl: seq<real>): seq<real> {
    if pnl == [] then []
    else Losses(pnl[..|pnl| - 1]) + if pnl[|pnl| - 1] < 0.0 then [pnl[|pnl| - 1]] else []
  }

  datatype ProfitFactor = Ratio(value: real) | Infinite

  function FactorOf(grossProfit: real, grossLoss: real): ProfitFactor {
    if grossLoss > 0.0 then Ratio(grossProfit / grossLoss)
    else if grossProfit > 0.0 then Infinite
    else Ratio(0.0)
  }

  lemma {:induction false} GrossAndNet(pnl: seq<real>)
    ensures Sum(pnl) == Sum(Gains(pnl)) + Sum(Losses(pnl))
    ensures Sum(Gains(pnl)) >= 0.0 && Sum(Losses(pnl)) <= 0.0
  {
    if pnl != [] {
      var init, last := pnl[..|pnl| - 1], pnl[|pnl| - 1];
      GrossAndNet(init);
      SumAppend(Gains(init), last);
      SumAppend(Losses(init), last);
    }
  }

  lemma SumAppend(s: seq<real>, x: real)
    ensures Sum(s + [x]) == Sum(s) + x && s + [] == s
  {
    assert (s + [x])[..|s|] == s;
  }

  /** Trades made money on the whole exactly when the profit factor exceeds one. */
  lemma ProfitableIffFactorAboveOne(pnl: seq<real>)
    ensures var f := FactorOf(Sum(Gains(pnl)), -Sum(Losses(pnl)));
      Sum(pnl) > 0.0 <==> (f.Infinite? || f.value > 1.0)
  {
    GrossAndNet(pnl);
    var g, l := Sum(Gains(pnl)), -Sum(Losses(pnl));
    if l > 0.0 { RatioAboveOne(g, l); }
  }

  /** The results of winning trades added up, and those of losing ones with the sign turned. */
  function Won(rows: seq<LedgerEntry>): real {
    if rows == [] then 0.0
    else
      var x := rows[|rows| - 1].realisedPnl;
      Won(rows[..|rows| - 1]) + if x.Some? && x.value > 0.0 then x.value else 0.0
  }

  function Lost(rows: seq<LedgerEntry>): real {
    if rows == [] then 0.0
    else
      var x := rows[|rows| - 1].realisedPnl;
      Lost(rows[..|rows| - 1]) + if x.Some? && x.value < 0.0 then -x.value else 0.0
  }

  /** What was won over what was lost; without losses infinite, and zero when nothing was won either. */
  predicate IsFactor(f: ProfitFactor, won: real, lost: real) {
    && (f.Infinite? <==> lost == 0.0 && won > 0.0)
    && (f.Ratio? ==> if lost == 0.0 then f.value == 0.0 else f.value * lost == won)
  }

  lemma {:induction false} GrossIsWon(rows: seq<LedgerEntry>)
    ensures Sum(Gains(Pnls(rows))) == Won(rows) >= 0.0 && -Sum(Losses(Pnls(rows))) == Lost(rows) >= 0.0
  {
    if rows != [] {
      var init, last := rows[..|rows| - 1], PnlOf(rows[|rows| - 1]);
      GrossIsWon(init);
      assert Pnls(rows)[..|init|] == Pnls(init);
      SumAppend(Gains(Pnls(init)), last);
      SumAppend(Losses(Pnls(init)), last);
    }
  }

  lemma FactorIsFactor(won: real, lost: real)
    requires won >= 0.0 && lost >= 0.0
    ensures IsFactor(FactorOf(won, lost), won, lost)
  {
    if lost > 0.0 { DivideThenMultiply(won, lost); }
  }

  /** The negative results alone, each as often as it occurs: what the downside deviation is taken of. */
  lemma {:induction false} LossesAre(pnl: seq<real>, x: real)
    ensures multiset(Losses(pnl))[x] == if x < 0.0 then multiset(pnl)[x] else 0
  {
    if pnl != [] {
      LossesAre(pnl[..|pnl| - 1], x);
      assert pnl == pnl[..|pnl| - 1] + [pnl[|pnl| - 1]];
    }
  }

  lemma RatioAboveOne(g: real, l: real)
    requires l > 0.0
    ensures g / l > 1.0 <==> g > l
  {
    var q := g / l;
    assert q * l == g;
    if q > 1.0 { assert q * l - l == (q - 1.0) * l; }
    if q < 1.0 { assert l - q * l == (1.0 - q) * l; }
  }

  // ---------------------------------------------------------------- risk-adjusted return

  /** The number with this sign and this square. */
  datatype SignedRoot = SignedRoot(sign: int, square: real)

  function Square(x: real): real {
    x * x
  }

  function SquaredDeviations(s: seq<real>, mean: real): real {
    if s == [] then 0.0 else SquaredDeviations(s[..|s| - 1], mean) + Square(s[|s| - 1] - mean)
  }

  /** With n - 1 in the denominator; none below two values. */
  function Variance(s: seq<real>): real {
    if |s| > 1 then SquaredDeviations(s, Sum(s) / |s| as real) / (|s| - 1) as real else 0.0
  }

  function SumOfSquares(s: seq<real>): real {
    if s == [] then 0.0 else SumOfSquares(s[..|s| - 1]) + Square(s[|s| - 1])
  }

  /** The squared deviations d of n values from `mean`, from the sum of the values and of their squares. */
  predicate Deviate(d: real, mean: real, n: real, sum: real, squares: real) {
    d == squares - 2.0 * mean * sum + n * (mean * mean)
  }

  lemma OneMoreDeviates(d: real, mean: real, n: real, sum: real, squares: real, x: real)
    requires Deviate(d, mean, n, sum, squares)
    ensures Deviate(d + Square(x - mean), mean, n + 1.0, sum + x, squares + Square(x))
  {
    assert (x - mean) * (x - mean) == x * x - 2.0 * mean * x + mean * mean;
    assert 2.0 * mean * (sum + x) == 2.0 * mean * sum + 2.0 * mean * x;
    assert (n + 1.0) * (mean * mean) == n * (mean * mean) + mean * mean;
  }

  lemma {:induction false} DeviationsAre(s: seq<real>, mean: real)
    ensures Deviate(SquaredDeviations(s, mean), mean, |s| as real, Sum(s), SumOfSquares(s))
  {
    if s == [] {
      NoDeviation(mean);
    } else {
      hide Deviate, Square;
      var init, x := s[..|s| - 1], s[|s| - 1];
      DeviationsAre(init, mean);
      OneMoreDeviates(SquaredDeviations(init, mean), mean, |init| as real, Sum(init), SumOfSquares(init), x);
      assert |s| as real == |init| as real + 1.0;
    }
  }

  lemma NoDeviation(mean: real)
    ensures Deviate(0.0, mean, 0.0, 0.0, 0.0)
  {
  }

  /** The sample variance: n times n - 1 times it is n times the sum of the squares less the square of the sum;
      none below two values. */
  lemma VarianceIs(s: seq<real>)
    ensures if |s| > 1 then IsVariance(Variance(s), |s| as real, Sum(s), SumOfSquares(s)) else Variance(s) == 0.0
  {
    hide Deviate, IsVariance, SquaredDeviations, Sum, SumOfSquares;
    if |s| > 1 {
      var n := |s| as real;
      DeviationsAre(s, Sum(s) / n);
      assert (|s| - 1) as real == n - 1.0;
      VarianceOfDeviations(SquaredDeviations(s, Sum(s) / n), n, Sum(s), SumOfSquares(s));
    }
  }

  predicate IsVariance(v: real, n: real, sum: real, squares: real) {
    n * ((n - 1.0) * v) == n * squares - sum * sum
  }

  lemma VarianceOfDeviations(d: real, n: real, sum: real, squares: real)
    requires n > 1.0 && Deviate(d, sum / n, n, sum, squares)
    ensures IsVariance(d / (n - 1.0), n, sum, squares)
  {
    var mean := sum / n;
    DivideThenMultiply(sum, n);
    DivideThenMultiply(d, n - 1.0);
    TimesCount(n, mean, sum, squares);
  }

  lemma TimesCount(n: real, mean: real, sum: real, squares: real)
    requires mean * n == sum
    ensures n * (squares - 2.0 * mean * sum + n * (mean * mean)) == n * squares - sum * sum
  {
    assert n * (2.0 * mean * sum) == 2.0 * (mean * n) * sum;
    assert n * (n * (mean * mean)) == (mean * n) * (mean * n);
  }

  function RatioOf(mean: real, variance: real, periods: real): SignedRoot {
    if variance > 0.0 then SignedRoot(if mean > 0.0 then 1 else if mean < 0.0 then -1
      else 0, mean * mean / variance * periods)
    else SignedRoot(0, 0.0)
  }

  /** The mean over the standard deviation, by the root of the periods in a year; zero where there is no deviation. */
  predicate IsRatio(r: SignedRoot, mean: real, variance: real, periods: real) {
    if variance > 0.0 then
      && r.square * variance == mean * mean * periods
      && (r.sign > 0 <==> mean > 0.0) && (r.sign < 0 <==> mean < 0.0)
    else r == SignedRoot(0, 0.0)
  }

  lemma RatioIsRatio(mean: real, variance: real, periods: real)
    ensures IsRatio(RatioOf(mean, variance, periods), mean, variance, periods)
  {
    if variance > 0.0 {
      var q := mean * mean / variance;
      DivideThenMultiply(mean * mean, variance);
      assert q * periods * variance == q * variance * periods;
    }
  }

  datatype Performance = Performance(
    tradeCount: nat,
    netPnl: real,
    winRate: real,
    profitFactor: ProfitFactor,
    expectancyR: real,
    sharpe: SignedRoot,
    sortino: SignedRoot,
    maxDrawdown: real,
    maxDrawdownDuration: nat,
    averageMae: Option<real>,
    averageMfe: Option<real>)

  datatype Column = Mae | Mfe | RealisedR

  function ValueOf(e: LedgerEntry, column: Column): Option<real> {
    match column
    case Mae => e.mae
    case Mfe => e.mfe
    case RealisedR => e.realisedR
  }

  /** The values of a column that are there. */
  function Present(rows: seq<LedgerEntry>, column: Column): seq<real> {
    if rows == [] then []
    else
      var v := ValueOf(rows[|rows| - 1], column);
      Present(rows[..|rows| - 1], column) + if v.Some? then [v.value] else []
  }

  function MeanOf(s: seq<real>): Option<real> {
    if s == [] then None else Some(Sum(s) / |s| as real)
  }

  /** Nothing for an empty column, otherwise the value that as many times makes the sum. */
  predicate IsMean(m: Option<real>, s: seq<real>) {
    match m
    case None => s == []
    case Some(x) => s != [] && x * |s| as real == Sum(s)
  }

  /** What the rows that have a value in this column have together, and how many they are. */
  function TotalOf(rows: seq<LedgerEntry>, value: LedgerEntry -> Option<real>): real {
    if rows == [] then 0.0
    else
      var v := value(rows[|rows| - 1]);
      TotalOf(rows[..|rows| - 1], value) + if v.Some? then v.value else 0.0
  }

  function Having(rows: seq<LedgerEntry>, value: LedgerEntry -> Option<real>): nat {
    if rows == [] then 0
    else Having(rows[..|rows| - 1], value) + if value(rows[|rows| - 1]).Some? then 1 else 0
  }

  /** The average of the values that are there, if any is. */
  predicate IsAverage(m: Option<real>, rows: seq<LedgerEntry>, value: LedgerEntry -> Option<real>) {
    && (m.Some? <==> Having(rows, value) > 0)
    && (m.Some? ==> m.value * Having(rows, value) as real == TotalOf(rows, value))
  }

  lemma {:induction false} PresentTotals(rows: seq<LedgerEntry>, column: Column, value: LedgerEntry -> Option<real>)
    requires forall e :: ValueOf(e, column) == value(e)
    ensures Sum(Present(rows, column)) == TotalOf(rows, value) && |Present(rows, column)| == Having(rows, value)
  {
    if rows != [] {
      var init, v := rows[..|rows| - 1], value(rows[|rows| - 1]);
      PresentTotals(init, column, value);
      assert ValueOf(rows[|rows| - 1], column) == v;
      if v.Some? { SumAppend(Present(init, column), v.value); } else { SumAppend(Present(init, column), 0.0); }
    }
  }

  lemma MeanIsAverage(rows: seq<LedgerEntry>, column: Column, value: LedgerEntry -> Option<real>)
    requires forall e :: ValueOf(e, column) == value(e)
    ensures IsAverage(MeanOf(Present(rows, column)), rows, value)
  {
    PresentTotals(rows, column, value);
    MeanIsMean(Present(rows, column));
  }

  /** The three averages of the report. */
  lemma AveragesAre(rows: seq<LedgerEntry>)
    ensures IsAverage(MeanOf(Present(rows, Mae)), rows, (e: LedgerEntry) => e.mae)
    ensures IsAverage(MeanOf(Present(rows, Mfe)), rows, (e: LedgerEntry) => e.mfe)
    ensures IsAverage(MeanOf(Present(rows, RealisedR)), rows, (e: LedgerEntry) => e.realisedR)
  {
    hide IsAverage;
    MeanIsAverage(rows, Mae, (e: LedgerEntry) => e.mae);
    MeanIsAverage(rows, Mfe, (e: LedgerEntry) => e.mfe);
    MeanIsAverage(rows, RealisedR, (e: LedgerEntry) => e.realisedR);
  }

  lemma MeanIsMean(s: seq<real>)
    ensures IsMean(MeanOf(s), s)
  {
    if s != [] { DivideThenMultiply(Sum(s), |s| as real); }
  }

  lemma EmptyMean(s: seq<real>)
    ensures MeanOf(s).None? <==> s == []
  {
  }

  lemma NothingWon()
    ensures Won([]) == 0.0 && Lost([]) == 0.0
  {
  }

  lemma NoRows()
    ensures Sum(Pnls([])) == 0.0 && Wins([]) == 0 && forall column :: Present([], column) == []
    ensures IsMean(None, [])
  {
  }

  lemma {:induction false} GainsAreWins(rows: seq<LedgerEntry>)
    ensures |Gains(Pnls(rows))| == Wins(rows)
  {
    if rows != [] {
      GainsAreWins(rows[..|rows| - 1]);
      assert Pnls(rows)[..|rows| - 1] == Pnls(rows[..|rows| - 1]);
    }
  }

  /** The metrics of a list of closed trades. */
  method ComputeMetrics(closed: seq<LedgerEntry>, periodsPerYear: real) returns (p: Performance)
    ensures p.tradeCount == |closed| && p.netPnl == Sum(Pnls(closed))
    ensures closed == [] ==> p == Performance(0, 0.0, 0.0, Ratio(0.0), 0.0, SignedRoot(0, 0.0), SignedRoot(0, 0.0),
      0.0, 0, None, None)
    ensures p.winRate * |closed| as real == Wins(closed) as real
    ensures IsMean(p.averageMae, Present(closed, Mae)) && IsMean(p.averageMfe, Present(closed, Mfe))
    ensures var r := Present(closed, RealisedR);
      if r == [] then p.expectancyR == 0.0 else IsMean(Some(p.expectancyR), r)
    ensures closed != [] ==> IsRatio(p.sharpe, p.netPnl / |closed| as real, Variance(Pnls(closed)), periodsPerYear)
    ensures closed != [] ==> IsRatio(p.sortino, p.netPnl / |closed| as real, Variance(Losses(Pnls(closed))),
      periodsPerYear)
    ensures closed != [] ==> IsWorstFall(CumSum(Pnls(closed)), p.maxDrawdown)
    ensures closed != [] ==> IsLongestStretch(CumSum(Pnls(closed)), p.maxDrawdownDuration)
    ensures p.netPnl > 0.0 <==> (p.profitFactor.Infinite? || p.profitFactor.value > 1.0)
    ensures IsFactor(p.profitFactor, Won(closed), Lost(closed))
  {
    hide Won, Lost, FactorOf, Drawdown, Least, CumSum, Gains, Losses, Sum, IsWorstFall, IsLongestStretch, IsMean,
      MeanOf, Present, Wins, Variance, RatioOf, IsRatio;
    MeanIsMean(Present(closed, RealisedR));
    MeanIsMean(Present(closed, Mae));
    MeanIsMean(Present(closed, Mfe));
    if closed == [] {
      NoRows();
      NothingWon();
      return Performance(0, 0.0, 0.0, Ratio(0.0), 0.0, SignedRoot(0, 0.0), SignedRoot(0, 0.0), 0.0, 0, None, None);
    }
    var pnl := Pnls(closed);
    var factor := FactorOf(Sum(Gains(pnl)), -Sum(Losses(pnl)));
    ProfitableIffFactorAboveOne(pnl);
    GrossIsWon(closed);
    FactorIsFactor(Won(closed), Lost(closed));
    var equity := CumSum(pnl);
    var drawdown := Drawdown(equity);
    DrawdownIsWorstFall(equity);
    var duration := LongestDrawdown(equity, drawdown);
    var winRate := |Gains(pnl)| as real / |closed| as real;
    GainsAreWins(closed);
    DivideThenMultiply(Wins(closed) as real, |closed| as real);
    var expectancy := MeanOf(Present(closed, RealisedR));
    var mean := Sum(pnl) / |pnl| as real;
    RatioIsRatio(mean, Variance(pnl), periodsPerYear);
    RatioIsRatio(mean, Variance(Losses(pnl)), periodsPerYear);
    p := Performance(|closed|, Sum(pnl), winRate, factor, if expectancy.Some? then expectancy.value else 0.0,
      RatioOf(mean, Variance(pnl), periodsPerYear), RatioOf(mean, Variance(Losses(pnl)), periodsPerYear),
      Least(drawdown), duration, MeanOf(Present(closed, Mae)), MeanOf(Present(closed, Mfe)));
    assert expectancy.None? <==> Present(closed, RealisedR) == [] by { EmptyMean(Present(closed, RealisedR)); }
  }

  // ---------------------------------------------------------------- attribution

  datatype Group<K> = Group(key: K, count: nat, netPnl: real, wins: nat)

  function Wins(rows: seq<LedgerEntry>): nat {
    if rows == [] then 0 else Wins(rows[..|rows| - 1]) + if PnlOf(rows[|rows| - 1]) > 0.0 then 1 else 0
  }

  /** The rows of one group, in order. */
  function RowsWith<K(==)>(rows: seq<LedgerEntry>, keyOf: LedgerEntry -> K, key: K): seq<LedgerEntry> {
    if rows == [] then []
    else RowsWith(rows[..|rows| - 1], keyOf, key) + if keyOf(rows[|rows| - 1]) == key then [rows[|rows| - 1]] else []
  }

  function GroupOf<K(==)>(rows: seq<LedgerEntry>, keyOf: LedgerEntry -> K, key: K): Group<K> {
    var own := RowsWith(rows, keyOf, key);
    Group(key, |own|, Sum(Pnls(own)), Wins(own))
  }

  /** The breakdown, its groups in the order of `keys`. */
  function Attribution<K(==)>(rows: seq<LedgerEntry>, keyOf: LedgerEntry -> K, keys: seq<K>): seq<Group<K>> {
    if keys == [] then []
    else Attribution(rows, keyOf, keys[..|keys| - 1]) + [GroupOf(rows, keyOf, keys[|keys| - 1])]
  }

  datatype Totals = Totals(count: int, netPnl: real, wins: int)

  function Add<K>(t: Totals, g: Group<K>): Totals {
    Totals(t.count + g.count, t.netPnl + g.netPnl, t.wins + g.wins)
  }

  function TotalsOf<K>(groups: seq<Group<K>>): Totals {
    if groups == [] then Totals(0, 0.0, 0) else Add(TotalsOf(groups[..|groups| - 1]), groups[|groups| - 1])
  }

  lemma GroupGrows<K>(rows: seq<LedgerEntry>, keyOf: LedgerEntry -> K, key: K)
    requires rows != []
    ensures var g, h, last := GroupOf(rows, keyOf, key), GroupOf(rows[..|rows| - 1], keyOf, key), rows[|rows| - 1];
      if keyOf(last) == key then
        g.count == h.count + 1 && g.netPnl == h.netPnl + PnlOf(last) && g.wins == h.wins +
          if PnlOf(last) > 0.0 then 1 else 0
      else g == h
  {
    var own, last := RowsWith(rows[..|rows| - 1], keyOf, key), rows[|rows| - 1];
    if keyOf(last) == key {
      assert (own + [last])[..|own|] == own;
      assert (Pnls(own) + [PnlOf(last)])[..|own|] == Pnls(own);
    } else {
      assert own + [] == own;
    }
  }

  lemma OneMoreKey<K>(rows: seq<LedgerEntry>, keyOf: LedgerEntry -> K, keys: seq<K>)
    requires keys != []
    ensures TotalsOf(Attribution(rows, keyOf, keys)) ==
      Add(TotalsOf(Attribution(rows, keyOf, keys[..|keys| - 1])), GroupOf(rows, keyOf, keys[|keys| - 1]))
  {
    hide GroupOf;
    var init := Attribution(rows, keyOf, keys[..|keys| - 1]);
    assert (init + [GroupOf(rows, keyOf, keys[|keys| - 1])])[..|init|] == init;
  }

  /** The totals with one more trade. */
  function WithTrade(t: Totals, e: LedgerEntry): Totals {
    Totals(t.count + 1, t.netPnl + PnlOf(e), t.wins + if PnlOf(e) > 0.0 then 1 else 0)
  }

  lemma {:induction false} OneGroupGrows<K>(rows: seq<LedgerEntry>, keyOf: LedgerEntry -> K, keys: seq<K>)
    requires rows != [] && forall i, j :: 0 <= i < j < |keys| ==> keys[i] != keys[j]
    ensures var t, u, last := TotalsOf(Attribution(rows, keyOf, keys)),
      TotalsOf(Attribution(rows[..|rows| - 1], keyOf, keys)), rows[|rows| - 1];
      t == if keyOf(last) in keys then WithTrade(u, last) else u
  {
    hide GroupOf, PnlOf, Attribution, TotalsOf;
    if keys == [] {
      NoKeys(rows, keyOf);
      NoKeys(rows[..|rows| - 1], keyOf);
    } else {
      var init, key, k := keys[..|keys| - 1], keys[|keys| - 1], keyOf(rows[|rows| - 1]);
      OneGroupGrows(rows, keyOf, init);
      GroupGrows(rows, keyOf, key);
      OneMoreKey(rows, keyOf, keys);
      OneMoreKey(rows[..|rows| - 1], keyOf, keys);
      LastKey(keys, k);
    }
  }

  lemma NoKeys<K>(rows: seq<LedgerEntry>, keyOf: LedgerEntry -> K)
    ensures TotalsOf(Attribution(rows, keyOf, [])) == Totals(0, 0.0, 0)
  {
  }

  lemma LastKey<K>(keys: seq<K>, k: K)
    requires keys != [] && forall i, j :: 0 <= i < j < |keys| ==> keys[i] != keys[j]
    ensures k in keys <==> k in keys[..|keys| - 1] || k == keys[|keys| - 1]
    ensures keys[|keys| - 1] !in keys[..|keys| - 1]
  {
    assert keys == keys[..|keys| - 1] + [keys[|keys| - 1]];
  }

  /** Whatever the trades are grouped by, and in whatever order the groups are listed, their counts, net P&L
      and wins add up to those of all trades. */
  lemma {:induction false} AttributionSumsBack<K>(rows: seq<LedgerEntry>, keyOf: LedgerEntry -> K, keys: seq<K>)
    requires forall i, j :: 0 <= i < j < |keys| ==> keys[i] != keys[j]
    requires forall i :: 0 <= i < |rows| ==> keyOf(rows[i]) in keys
    ensures TotalsOf(Attribution(rows, keyOf, keys)) == Totals(|rows|, Sum(Pnls(rows)), Wins(rows))
  {
    if rows == [] {
      EmptyGroups(keyOf, keys);
    } else {
      var init, last := rows[..|rows| - 1], rows[|rows| - 1];
      AttributionSumsBack(init, keyOf, keys);
      OneGroupGrows(rows, keyOf, keys);
      assert (Pnls(init) + [PnlOf(last)])[..|init|] == Pnls(init);
    }
  }

  lemma {:induction false} EmptyGroups<K>(keyOf: LedgerEntry -> K, keys: seq<K>)
    ensures TotalsOf(Attribution([], keyOf, keys)) == Totals(0, 0.0, 0)
  {
    if keys != [] { EmptyGroups(keyOf, keys[..|keys| - 1]); }
  }

  // ---------------------------------------------------------------- against a run

  /** Only close rows carry a result. */
  predicate OnlyClosesPay(rows: seq<LedgerEntry>) {
    forall i :: 0 <= i < |rows| ==> (rows[i].event.Opened? ==> rows[i].realisedPnl.None?)
  }

  lemma PnlsAppend(rows: seq<LedgerEntry>, e: LedgerEntry)
    ensures Sum(Pnls(rows + [e])) == Sum(Pnls(rows)) + PnlOf(e)
  {
    assert (rows + [e])[..|rows|] == rows;
    assert (Pnls(rows) + [PnlOf(e)])[..|rows|] == Pnls(rows);
  }

  lemma {:induction false} ClosedPnl(rows: seq<LedgerEntry>)
    requires OnlyClosesPay(rows)
    ensures Sum(Pnls(Stores.CloseRows(rows))) == Conservation.PnlSum(rows)
  {
    if rows != [] {
      var init, last := rows[..|rows| - 1], rows[|rows| - 1];
      ClosedPnl(init);
      var closes := Stores.CloseRows(init);
      PnlsAppend(closes, last);
    }
  }

  lemma {:induction false} ManageRowsPay(c: Config, s: Backtest.State, trades: seq<Backtest.OpenTrade>, b: Bars.Bar,
    i: int, k: nat)
    requires k <= |trades| && OnlyClosesPay(s.ledger)
    ensures OnlyClosesPay(Backtest.ManageTo(c, s, trades, b, i, k).ledger)
  {
    hide Backtest.CheckExit, Backtest.CloseFill, Backtest.ClosePnl;
    if k > 0 { ManageRowsPay(c, s, trades, b, i, k - 1); }
  }

  lemma {:induction false} RunRowsPay(c: Config, bars: seq<Bars.Bar>, readings: seq<Backtest.Reading>,
    s: Backtest.State, k: nat)
    requires k <= |bars| == |readings| && OnlyClosesPay(s.ledger)
    ensures OnlyClosesPay(Backtest.Replay(c, bars, readings, s, k).ledger)
  {
    hide Backtest.ManageTo, MayEnter, GateDecision, SignalOf, Backtest.OpenOrder;
    if k > 0 {
      RunRowsPay(c, bars, readings, s, k - 1);
      var p := Backtest.Replay(c, bars, readings, s, k - 1);
      ManageRowsPay(c, p, p.open, bars[k - 1], k - 1, |p.open|);
    }
  }

  /** Reported over the closed trades of a run, net P&L is exactly what the run did to equity. */
  lemma NetPnlIsEquityChange(c: Config, bars: seq<Bars.Bar>, readings: seq<Backtest.Reading>, s: Backtest.State, k: nat)
    requires k <= |bars| == |readings| && s.open == [] && s.ledger == []
    ensures var f := Backtest.Replay(c, bars, readings, s, k);
      Sum(Pnls(Stores.CloseRows(f.ledger))) == f.equity - s.equity
  {
    hide Backtest.Replay;
    Conservation.RunBalances(c, bars, readings, s, k);
    RunRowsPay(c, bars, readings, s, k);
    var f := Backtest.Replay(c, bars, readings, s, k);
    ClosedPnl(f.ledger);
    assert f.ledger[0..] == f.ledger;
  }
}

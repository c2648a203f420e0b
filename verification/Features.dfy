/** The point-in-time feature engine: whatever bars a source hands over, only bars that have closed by
    the decision time, and of those only the last `needed`, reach an indicator. */
module Features {
  import opened Prelude
  import opened Bars
  import opened Indicators

  datatype Value = Missing | Num(number: real) | Label(text: string) | Flag(flag: bool) | Time(ts: int) | Amount(n: nat)

  datatype Key =
    | Output(indicator: Indicator, index: nat)
    | BarsAvailable
    | LastClosedBar
    | VolatilityRegime
    | AtrPercentile
    | NewsBlackout
    | SessionTag(name: string)

  type FeatureMap = map<Key, Value>

  datatype FeatureVector = FeatureVector(ts: int, values: FeatureMap)

  /** `sessions` and `calendar` tag a timestamp; they see no bars. */
  datatype Engine = Engine(
    indicators: seq<Indicator>,
    regimePeriod: nat,
    regimeHistory: nat,
    extraLookback: nat,
    sessions: int -> FeatureMap,
    calendar: int -> FeatureMap)

  predicate ValidEngine(e: Engine) {
    && e.regimePeriod > 0
    && forall i :: 0 <= i < |e.indicators| ==> ValidIndicator(e.indicators[i])
  }

  function MaxLookback(indicators: seq<Indicator>): nat {
    if indicators == [] then 0
    else
      var rest := MaxLookback(indicators[..|indicators| - 1]);
      var last := Lookback(indicators[|indicators| - 1]);
      if last > rest then last else rest
  }

  /** The number of bars the engine asks for. An empty indicator set counts as a lookback of one. */
  function Needed(e: Engine): nat {
    (if e.indicators == [] then 1 else MaxLookback(e.indicators)) + (e.regimePeriod + 2) + e.extraLookback
  }

  /** Bars closed by `ts`, in time order, at most the last `needed`. */
  function ClosedWindow(raw: seq<Bar>, ts: int, seconds: int, needed: nat): seq<Bar> {
    Tail(SortByTime(Closed(raw, ts - seconds)), needed)
  }

  function OptionValue(v: Option<real>): Value {
    match v
    case Some(x) => Num(x)
    case None => Missing
  }

  /** What one indicator adds to the vector. */
  function WithOutputs(values: FeatureMap, i: Indicator, outputs: seq<Option<real>>): FeatureMap
    requires 1 <= |outputs| <= 2
  {
    var first := values[Output(i, 0) := OptionValue(outputs[0])];
    if |outputs| == 1 then first else first[Output(i, 1) := OptionValue(outputs[1])]
  }

  function Outputs(indicators: seq<Indicator>, closed: seq<Bar>): (r: seq<seq<Option<real>>>)
    requires forall i :: 0 <= i < |indicators| ==> ValidIndicator(indicators[i])
    ensures |r| == |indicators|
    ensures forall i {:trigger r[i]} :: 0 <= i < |r| ==> 1 <= |r[i]| <= 2 && r[i] == Compute(indicators[i], closed)
  {
    seq(|indicators|, i requires 0 <= i < |indicators|
      && ValidIndicator(indicators[i]) => Compute(indicators[i], closed))
  }

  /** The values once the first k indicators have added their outputs. */
  function Gathered(indicators: seq<Indicator>, outputs: seq<seq<Option<real>>>, k: nat): FeatureMap
    requires |outputs| == |indicators| && k <= |indicators|
    requires forall i :: 0 <= i < |outputs| ==> 1 <= |outputs[i]| <= 2
  {
    if k == 0 then map[] else WithOutputs(Gathered(indicators, outputs, k - 1), indicators[k - 1], outputs[k - 1])
  }

  function IndicatorValues(e: Engine, closed: seq<Bar>): FeatureMap
    requires ValidEngine(e)
  {
    Gathered(e.indicators, Outputs(e.indicators, closed), |e.indicators|)
  }

  function RegimeName(r: Regime): string {
    match r
    case Low => "low"
    case Normal => "normal"
    case High => "high"
    case Extreme => "extreme"
  }

  function RegimeValues(reading: Option<RegimeReading>): FeatureMap {
    match reading
    case None => map[VolatilityRegime := Missing, AtrPercentile := Missing]
    case Some(r) => map[VolatilityRegime := Label(RegimeName(r.band)), AtrPercentile := Num(r.percentile)]
  }

  function BarFacts(closed: seq<Bar>): FeatureMap {
    map[BarsAvailable := Amount(|closed|),
        LastClosedBar := if closed == [] then Missing else Time(closed[|closed| - 1].ts)]
  }

  /** The vector computed from a closed window. */
  function VectorOf(e: Engine, ts: int, closed: seq<Bar>): FeatureVector
    requires ValidEngine(e)
  {
    FeatureVector(ts,
      IndicatorValues(e, closed) + BarFacts(closed) + e.sessions(ts)
        + RegimeValues(ClassifyRegime(closed, e.regimePeriod, e.regimeHistory)) + e.calendar(ts))
  }

  /** The vector as it is known at `ts`, from whatever the source returned. */
  function VectorAt(e: Engine, ts: int, seconds: int, raw: seq<Bar>): FeatureVector
    requires ValidEngine(e)
  {
    VectorOf(e, ts, ClosedWindow(raw, ts, seconds, Needed(e)))
  }

  method GatherOutputs(e: Engine, closed: seq<Bar>) returns (values: FeatureMap)
    requires ValidEngine(e)
    ensures values == IndicatorValues(e, closed)
  {
    hide Compute, WithOutputs;
    ghost var outputs := Outputs(e.indicators, closed);
    values := map[];
    for k := 0 to |e.indicators|
      invariant values == Gathered(e.indicators, outputs, k)
    {
      var output := Compute(e.indicators[k], closed);
      assert output == outputs[k];
      values := WithOutputs(values, e.indicators[k], output);
    }
  }

  /** The single entry point: truncate unconditionally, then gather the outputs of every indicator. */
  method GetFeatureVector(e: Engine, ts: int, seconds: int, raw: seq<Bar>) returns (v: FeatureVector)
    requires ValidEngine(e)
    ensures v == VectorAt(e, ts, seconds, raw)
  {
    var needed := Needed(e);
    var closed := SortByTime(Closed(raw, ts - seconds));
    if |closed| > needed {
      closed := Tail(closed, needed);
    }
    var values := GatherOutputs(e, closed);
    values := values + BarFacts(closed);
    values := values + e.sessions(ts);
    values := values + RegimeValues(ClassifyRegime(closed, e.regimePeriod, e.regimeHistory));
    values := values + e.calendar(ts);
    v := FeatureVector(ts, values);
  }

  // ---------------------------------------------------------------- no look-ahead

  /** Only closed bars matter: sources that agree on them give the same vector, whatever they say
      about bars still forming or lying in the future. */
  lemma VectorSeesOnlyClosedBars(e: Engine, ts: int, seconds: int, a: seq<Bar>, b: seq<Bar>)
    requires ValidEngine(e)
    requires Closed(a, ts - seconds) == Closed(b, ts - seconds)
    ensures VectorAt(e, ts, seconds, a) == VectorAt(e, ts, seconds, b)
  {
  }

  /** Handed a whole series at the close of bar i, the engine uses bars 0..i, exactly when bar i + 1
      opens later than bar i. */
  lemma ClosedAtBarClose(bars: seq<Bar>, i: nat, ts: int, closed: seq<Bar>)
    requires Sorted(bars) && i < |bars| && ts == bars[i].ts
    requires closed == Closed(bars, ts)
    ensures closed == bars[..i + 1] <==> (i + 1 == |bars| || bars[i + 1].ts > ts)
  {
    CountAtBar(bars, i);
    ClosedOfSorted(bars, ts);
    PrefixesDiffer(bars, CountBefore(bars, ts + 1), i + 1);
  }

  lemma CountAtBar(bars: seq<Bar>, i: nat)
    requires Sorted(bars) && i < |bars|
    ensures CountBefore(bars, bars[i].ts + 1) >= i + 1
    ensures CountBefore(bars, bars[i].ts + 1) == i + 1 <==> (i + 1 == |bars| || bars[i + 1].ts > bars[i].ts)
  {
    CountBeforeSplits(bars, bars[i].ts + 1);
  }

  lemma PrefixesDiffer<T>(s: seq<T>, a: nat, b: nat)
    requires a <= |s| && b <= |s|
    ensures s[..a] == s[..b] <==> a == b
  {
    assert |s[..a]| == a && |s[..b]| == b;
  }

  // ---------------------------------------------------------------- truncation loses nothing

  /** The reach of everything the engine computes fits in the window. */
  predicate WindowCovers(e: Engine) {
    && (forall i :: 0 <= i < |e.indicators| ==> Reach(e.indicators[i]) <= Needed(e))
    && e.regimeHistory > 0 && e.regimeHistory + e.regimePeriod + 1 <= Needed(e)
  }

  lemma OutputsLossless(indicators: seq<Indicator>, closed: seq<Bar>, window: seq<Bar>, n: nat)
    requires forall i :: 0 <= i < |indicators| ==> ValidIndicator(indicators[i]) && Reach(indicators[i]) <= n
    requires window == Tail(closed, n)
    ensures Outputs(indicators, window) == Outputs(indicators, closed)
  {
    var a, b := Outputs(indicators, window), Outputs(indicators, closed);
    forall i | 0 <= i < |indicators| ensures a[i] == b[i] {
      SameOutputs(indicators[i], closed, window, n);
    }
  }

  lemma SameOutputs(i: Indicator, closed: seq<Bar>, window: seq<Bar>, n: nat)
    requires ValidIndicator(i) && Reach(i) <= n && window == Tail(closed, n)
    ensures Compute(i, window) == Compute(i, closed)
  {
    WindowIsLossless(i, closed, n);
  }

  /** Every indicator and the regime read on the truncated tail what they read on all closed bars; only
      the count of available bars shows the truncation. */
  lemma TruncationIsLossless(e: Engine, ts: int, closed: seq<Bar>)
    requires ValidEngine(e) && WindowCovers(e)
    ensures VectorOf(e, ts, Tail(closed, Needed(e))) ==
      FeatureVector(ts,
        IndicatorValues(e, closed) + BarFacts(Tail(closed, Needed(e))) + e.sessions(ts)
          + RegimeValues(ClassifyRegime(closed, e.regimePeriod, e.regimeHistory)) + e.calendar(ts))
  {
    OutputsLossless(e.indicators, closed, Tail(closed, Needed(e)), Needed(e));
    RegimeWindowLossless(closed, e.regimePeriod, e.regimeHistory, Needed(e));
  }

  lemma {:induction false} LookbackFits(indicators: seq<Indicator>, i: nat)
    requires i < |indicators|
    ensures Lookback(indicators[i]) <= MaxLookback(indicators)
  {
    if i < |indicators| - 1 {
      LookbackFits(indicators[..|indicators| - 1], i);
    }
  }

  /** With the default margin of 300 bars, swing windows and a regime history of one to 300 bars are
      always covered. */
  lemma DefaultMarginCovers(e: Engine)
    requires ValidEngine(e) && e.extraLookback >= 300 && 0 < e.regimeHistory <= 300
    requires forall i :: 0 <= i < |e.indicators| && e.indicators[i].SwingStructure? ==> e.indicators[i].window <= 300
    ensures WindowCovers(e)
  {
    forall i | 0 <= i < |e.indicators| ensures Reach(e.indicators[i]) <= Needed(e) {
      LookbackFits(e.indicators, i);
    }
  }

  // ---------------------------------------------------------------- the two bar sources

  /** What a store-backed source returns: a range of 2 * needed intervals before the decision. */
  function StoreSource(bars: seq<Bar>, ts: int, seconds: int, needed: nat): seq<Bar> {
    Between(bars, ts - seconds * needed * 2, ts)
  }

  /** An in-memory source returns its whole frame. */
  function FrameSource(bars: seq<Bar>): seq<Bar> {
    SortByTime(bars)
  }

  /** Closed bars that the store's range still reaches. */
  function ReachedByStore(bars: seq<Bar>, ts: int, seconds: int, needed: nat): seq<Bar> {
    Closed(StoreSource(bars, ts, seconds, needed), ts - seconds)
  }

  lemma StoreWindowIsSuffix(bars: seq<Bar>, ts: int, seconds: int, needed: nat)
    requires Ascending(bars) && seconds > 0
    ensures |ReachedByStore(bars, ts, seconds, needed)| <= |Closed(bars, ts - seconds)|
    ensures ReachedByStore(bars, ts, seconds, needed) ==
      Tail(Closed(bars, ts - seconds), |ReachedByStore(bars, ts, seconds, needed)|)
  {
    var start := ts - seconds * needed * 2;
    ClosedOfSorted(bars, ts - seconds);
    if needed == 0 {
      EmptyRange(bars, ts);
    } else {
      StoreRangeIsWide(seconds, needed);
      var i, k := CountBefore(bars, start), CountBefore(bars, ts - seconds + 1);
      CountBeforeMonotone(bars, start, ts - seconds + 1);
      ClosedOfRange(bars, start, ts, ts - seconds);
      SuffixOfPrefix(bars, i, k);
    }
  }

  lemma {:induction false} EmptyRange(bars: seq<Bar>, t: int)
    ensures Between(bars, t, t) == []
  {
    if bars != [] { EmptyRange(bars[1..], t); }
  }

  lemma SuffixOfPrefix<T>(s: seq<T>, i: nat, k: nat)
    requires i <= k <= |s|
    ensures s[i..k] == Tail(s[..k], k - i)
  {
  }

  /** Filtering a range again by a cutoff inside it. */
  lemma ClosedOfRange(bars: seq<Bar>, lo: int, hi: int, cutoff: int)
    requires Ascending(bars) && lo <= cutoff + 1 <= hi
    ensures CountBefore(bars, lo) <= CountBefore(bars, cutoff + 1)
    ensures Closed(Between(bars, lo, hi), cutoff) == bars[CountBefore(bars, lo)..CountBefore(bars, cutoff + 1)]
  {
    hide Bars.Closed, Between, CountBefore;
    var i, j, k := CountBefore(bars, lo), CountBefore(bars, hi), CountBefore(bars, cutoff + 1);
    BetweenOfSorted(bars, lo, hi);
    CountBeforeMonotone(bars, lo, cutoff + 1);
    CountBeforeMonotone(bars, cutoff + 1, hi);
    CountBeforeSplits(bars, cutoff + 1);
    var r := bars[i..j];
    ClosedIsPrefix(r, cutoff, k - i);
    assert r[..k - i] == bars[i..k];
  }

  lemma StoreRangeIsWide(seconds: int, needed: nat)
    requires seconds > 0 && needed > 0
    ensures seconds * needed * 2 >= seconds
  {
    assert seconds * needed >= seconds;
  }

  lemma TailsAgree<T>(all: seq<T>, m: nat, n: nat)
    requires m <= |all|
    ensures Tail(Tail(all, m), n) == Tail(all, n) <==> (m == |all| || m >= n)
  {
    if m < |all| && m < n {
      assert |Tail(Tail(all, m), n)| == m;
      assert |Tail(all, n)| > m;
    }
  }

  /** Store-backed and in-memory sources give the same closed window if and only if the store's range
      reaches `needed` closed bars, or all there are. */
  lemma SourceParity(bars: seq<Bar>, ts: int, seconds: int, needed: nat)
    requires Ascending(bars) && seconds > 0
    ensures
      ClosedWindow(StoreSource(bars, ts, seconds, needed), ts, seconds, needed) ==
        ClosedWindow(FrameSource(bars), ts, seconds, needed)
      <==> (|ReachedByStore(bars, ts, seconds, needed)| >= needed
            || |ReachedByStore(bars, ts, seconds, needed)| == |Closed(bars, ts - seconds)|)
  {
    var all, reached := Closed(bars, ts - seconds), ReachedByStore(bars, ts, seconds, needed);
    SortKeepsSorted(bars);
    ClosedSorted(bars, ts - seconds);
    SortKeepsSorted(all);
    StoreWindowIsSuffix(bars, ts, seconds, needed);
    TailSorted(all, |reached|);
    SortKeepsSorted(reached);
    TailsAgree(all, |reached|, needed);
  }

  lemma TailSorted(s: seq<Bar>, n: nat)
    requires Sorted(s)
    ensures Sorted(Tail(s, n))
  {
  }

  /** Hence the same feature vector, gaps or not. */
  lemma SourcesGiveSameVector(e: Engine, bars: seq<Bar>, ts: int, seconds: int)
    requires ValidEngine(e) && Ascending(bars) && seconds > 0
    requires |ReachedByStore(bars, ts, seconds, Needed(e))| >= Needed(e)
      || |ReachedByStore(bars, ts, seconds, Needed(e))| == |Closed(bars, ts - seconds)|
    ensures VectorAt(e, ts, seconds, StoreSource(bars, ts, seconds, Needed(e))) ==
      VectorAt(e, ts, seconds, FrameSource(bars))
  {
    SourceParity(bars, ts, seconds, Needed(e));
  }

  /** Gap-free bars always meet the condition at a bar close. */
  lemma GapFreeReaches(bars: seq<Bar>, seconds: int, needed: nat, k: nat)
    requires GapFree(bars, seconds) && seconds > 0 && 0 < k <= |bars| && needed > 0
    ensures var ts := bars[k - 1].ts + seconds;
      |ReachedByStore(bars, ts, seconds, needed)| >= needed
      || |ReachedByStore(bars, ts, seconds, needed)| == |Closed(bars, ts - seconds)|
    ensures Closed(bars, bars[k - 1].ts) == bars[..k]
  {
    var ts := bars[k - 1].ts + seconds;
    GapFreeAscends(bars, seconds);
    ClosedAtBarClose(bars, k - 1, bars[k - 1].ts, Closed(bars, bars[k - 1].ts));
    var lo := if k <= 2 * needed then 0 else k - 2 * needed;
    GridRange(bars, seconds, k, needed, lo);
    assert ReachedByStore(bars, ts, seconds, needed) == bars[lo..k];
  }

  lemma GapFreeAscends(bars: seq<Bar>, seconds: int)
    requires GapFree(bars, seconds) && seconds > 0
    ensures Ascending(bars)
  {
    forall i, j | 0 <= i < j < |bars| ensures bars[i].ts < bars[j].ts {
      StepUp(i, j, seconds);
    }
  }

  lemma StepUp(i: int, j: int, seconds: int)
    requires i < j && seconds > 0
    ensures i * seconds + seconds <= j * seconds
  {
    StepUpWeak(i + 1, j, seconds);
    assert (i + 1) * seconds == i * seconds + seconds;
  }

  lemma StepUpWeak(i: int, j: int, seconds: int)
    requires i <= j && seconds > 0
    ensures i * seconds <= j * seconds
  {
    if i < j { MulAtLeast(j - i, seconds); }
    assert (j - i) * seconds == j * seconds - i * seconds;
  }

  /** The store's range at the close of bar k - 1 of a gap-free series is its last 2 * needed bars. */
  lemma GridRange(bars: seq<Bar>, seconds: int, k: nat, needed: nat, lo: nat)
    requires GapFree(bars, seconds) && seconds > 0 && 0 < k <= |bars| && needed > 0
    requires lo == if k <= 2 * needed then 0 else k - 2 * needed
    ensures StoreSource(bars, bars[k - 1].ts + seconds, seconds, needed) == bars[lo..k]
    ensures ReachedByStore(bars, bars[k - 1].ts + seconds, seconds, needed) == bars[lo..k]
  {
    GridBetween(bars, seconds, k, 2 * needed, lo);
    var ts := bars[k - 1].ts + seconds;
    assert seconds * needed * 2 == (2 * needed) * seconds;
    var r := bars[lo..k];
    forall i | 0 <= i < |r| ensures r[i].ts <= ts - seconds {
      StepUpWeak(lo + i, k - 1, seconds);
    }
    ClosedIsPrefix(r, ts - seconds, |r|);
  }

  /** A window of w intervals before the close of bar k - 1 of a gap-free series holds its last w bars. */
  lemma GridBetween(bars: seq<Bar>, seconds: int, k: nat, w: nat, lo: nat)
    requires GapFree(bars, seconds) && seconds > 0 && 0 < k <= |bars| && w > 0
    requires lo == if k <= w then 0 else k - w
    ensures Between(bars, bars[k - 1].ts + seconds - w * seconds, bars[k - 1].ts + seconds) == bars[lo..k]
  {
    var first := bars[0].ts;
    var ts := bars[k - 1].ts + seconds;
    var start := ts - w * seconds;
    assert ts == first + k * seconds by { assert (k - 1) * seconds + seconds == k * seconds; }
    assert start == first + (k - w) * seconds by { assert k * seconds - w * seconds == (k - w) * seconds; }
    forall i | 0 <= i < lo ensures bars[i].ts < start { StepUp(i, k - w, seconds); }
    forall i | lo <= i < k ensures start <= bars[i].ts < ts {
      StepUpWeak(k - w, i, seconds);
      StepUp(i, k, seconds);
    }
    forall i | k <= i < |bars| ensures bars[i].ts >= ts { StepUpWeak(k, i, seconds); }
    BetweenIsSlice(bars, start, ts, lo, k);
  }
}

/** What the entries of a feature vector are. */
module FeatureMeaning {
  import opened Prelude
  import opened Bars
  import opened Features
  import Indicators
  import IndicatorMeaning

  // ---------------------------------------------------------------- the window

  lemma {:induction false} ClosedCounts(raw: seq<Bar>, cutoff: int, b: Bar)
    ensures multiset(Closed(raw, cutoff))[b] == if b.ts <= cutoff then multiset(raw)[b] else 0
  {
    if raw != [] {
      ClosedCounts(raw[1..], cutoff, b);
      assert raw == [raw[0]] + raw[1..];
    }
  }

  /** These are the bars that have closed, each as often as it was handed over; a bar has closed once one interval has
      passed since it opened. */
  ghost predicate HasClosed(all: seq<Bar>, raw: seq<Bar>, ts: int, seconds: int) {
    forall b :: multiset(all)[b] == if b.ts + seconds <= ts then multiset(raw)[b] else 0
  }

  lemma SortedHasClosed(raw: seq<Bar>, ts: int, seconds: int)
    ensures HasClosed(SortByTime(Closed(raw, ts - seconds)), raw, ts, seconds)
  {
    hide SortByTime, Closed;
    SortSorts(Closed(raw, ts - seconds));
    forall b
      ensures multiset(Closed(raw, ts - seconds))[b] == if b.ts + seconds <= ts then multiset(raw)[b] else 0
    {
      ClosedCounts(raw, ts - seconds, b);
    }
  }

  /** The engine works on the last `needed` of the bars that have closed, in time order, none left out and none
      added. */
  lemma WindowIsLastClosed(raw: seq<Bar>, ts: int, seconds: int, needed: nat) returns (older: seq<Bar>)
    ensures var window := ClosedWindow(raw, ts, seconds, needed);
      && Sorted(older + window) && |window| <= needed && (older != [] ==> |window| == needed)
      && HasClosed(older + window, raw, ts, seconds)
  {
    hide SortByTime, Closed, HasClosed;
    var all := SortByTime(Closed(raw, ts - seconds));
    SortSorts(Closed(raw, ts - seconds));
    SortedHasClosed(raw, ts, seconds);
    older := if |all| <= needed then [] else all[..|all| - needed];
    assert older + Tail(all, needed) == all;
  }

  /** The longest lookback of the configured indicators, or one where there is none. */
  ghost predicate LongestLookback(indicators: seq<Indicators.Indicator>, m: nat) {
    if indicators == [] then m == 1
    else
      && (exists i :: 0 <= i < |indicators| && Indicators.Lookback(indicators[i]) == m)
      && forall i :: 0 <= i < |indicators| ==> Indicators.Lookback(indicators[i]) <= m
  }

  lemma {:induction false} MaxLookbackIs(indicators: seq<Indicators.Indicator>)
    requires indicators != []
    ensures LongestLookback(indicators, MaxLookback(indicators))
  {
    hide Indicators.Lookback;
    var init, n := indicators[..|indicators| - 1], |indicators| - 1;
    if init != [] {
      MaxLookbackIs(init);
      var i :| 0 <= i < n && Indicators.Lookback(init[i]) == MaxLookback(init);
      assert indicators[i] == init[i];
      assert forall j :: 0 <= j < n ==> indicators[j] == init[j];
    }
    assert Indicators.Lookback(indicators[n]) >= 0;
  }

  /** The number of bars asked for: that lookback, two bars more than the regime's period, and the margin. */
  lemma NeededIs(e: Engine)
    ensures exists m: nat :: LongestLookback(e.indicators, m) && Needed(e) == m + e.regimePeriod + 2 + e.extraLookback
  {
    if e.indicators == [] {
      assert LongestLookback(e.indicators, 1);
    } else {
      MaxLookbackIs(e.indicators);
    }
  }

  // ---------------------------------------------------------------- the entries

  /** Neither the sessions nor the calendar use the name. */
  predicate Untagged(e: Engine, ts: int, k: Key) {
    k !in e.sessions(ts) && k !in e.calendar(ts)
  }

  predicate Has(values: FeatureMap, k: Key, v: Value) {
    k in values && values[k] == v
  }

  predicate IsOutput(v: Value, x: Option<real>) {
    if x.Some? then v == Num(x.value) else v == Missing
  }

  /** An output once written stays: an indicator listed again writes the same. */
  lemma {:induction false} GatheredOutput(e: Engine, closed: seq<Bar>, i: nat, j: nat, k: nat)
    requires ValidEngine(e) && i < k <= |e.indicators| && j < |Indicators.Compute(e.indicators[i], closed)|
    ensures var values := Gathered(e.indicators, Outputs(e.indicators, closed), k);
      var key := Output(e.indicators[i], j);
      key in values && IsOutput(values[key], Indicators.Compute(e.indicators[i], closed)[j])
  {
    hide Indicators.Compute;
    if e.indicators[k - 1] != e.indicators[i] { GatheredOutput(e, closed, i, j, k - 1); }
  }

  /** Every output of every configured indicator is in the vector, missing when there were too few bars. */
  lemma OutputsAreEntries(e: Engine, ts: int, closed: seq<Bar>, i: nat, j: nat)
    requires ValidEngine(e) && i < |e.indicators| && j < |Indicators.Compute(e.indicators[i], closed)|
    requires Untagged(e, ts, Output(e.indicators[i], j))
    ensures var values, key := VectorOf(e, ts, closed).values, Output(e.indicators[i], j);
      key in values && IsOutput(values[key], Indicators.Compute(e.indicators[i], closed)[j])
  {
    hide Indicators.Compute, Gathered, Indicators.ClassifyRegime;
    GatheredOutput(e, closed, i, j, |e.indicators|);
  }

  /** The number of bars in the window and the open time of the last of them, if there is one. */
  lemma BarFactsAreEntries(e: Engine, ts: int, closed: seq<Bar>)
    requires ValidEngine(e)
    ensures var values := VectorOf(e, ts, closed).values;
      && (Untagged(e, ts, BarsAvailable) ==> Has(values, BarsAvailable, Amount(|closed|)))
      && (Untagged(e, ts, LastClosedBar) && closed == [] ==> Has(values, LastClosedBar, Missing))
      && (Untagged(e, ts, LastClosedBar) && closed != [] ==>
          Has(values, LastClosedBar, Time(closed[|closed| - 1].ts)))
  {
    hide Gathered, Indicators.ClassifyRegime;
  }

  /** Up to the 25th percentile low, up to the 75th normal, up to the 95th high, else extreme. */
  predicate Named(name: string, percentile: real) {
    && (name == "low" <==> percentile <= 25.0) && (name == "normal" <==> 25.0 < percentile <= 75.0)
    && (name == "high" <==> 75.0 < percentile <= 95.0) && (name == "extreme" <==> percentile > 95.0)
  }

  predicate IsBand(v: Value, percentile: real) {
    v.Label? && Named(v.text, percentile)
  }

  /** The percentile and the name of its band, or neither; sessions cannot hide them. */
  lemma RegimeIsEntry(e: Engine, ts: int, closed: seq<Bar>)
    requires ValidEngine(e) && VolatilityRegime !in e.calendar(ts) && AtrPercentile !in e.calendar(ts)
    ensures var values := VectorOf(e, ts, closed).values;
      var reading := Indicators.ClassifyRegime(closed, e.regimePeriod, e.regimeHistory);
      && VolatilityRegime in values && AtrPercentile in values
      && (reading.None? ==> values[VolatilityRegime] == values[AtrPercentile] == Missing)
      && (reading.Some? ==> values[AtrPercentile] == Num(reading.value.percentile))
      && (reading.Some? ==> IsBand(values[VolatilityRegime], reading.value.percentile))
  {
    hide Gathered;
    var reading := Indicators.ClassifyRegime(closed, e.regimePeriod, e.regimeHistory);
    IndicatorMeaning.RegimeMeans(closed, e.regimePeriod, e.regimeHistory);
    if reading.Some? { NameOfBand(reading.value); }
  }

  lemma NameOfBand(r: Indicators.RegimeReading)
    requires r.band == Indicators.Band(r.percentile)
    ensures Named(RegimeName(r.band), r.percentile)
  {
  }

  /** The calendar has the last word on its own entries, and the sessions on theirs where the calendar is silent. */
  lemma TagsAreEntries(e: Engine, ts: int, closed: seq<Bar>, k: Key)
    requires ValidEngine(e)
    ensures k in e.calendar(ts) ==> Has(VectorOf(e, ts, closed).values, k, e.calendar(ts)[k])
    ensures k in e.sessions(ts) && k !in e.calendar(ts) && k != VolatilityRegime && k != AtrPercentile ==>
      Has(VectorOf(e, ts, closed).values, k, e.sessions(ts)[k])
  {
    hide Gathered;
  }
}

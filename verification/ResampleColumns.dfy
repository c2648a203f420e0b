/** Every column of a resampled bar, in terms of its rows. */
module ResampleColumns {
  import opened Prelude
  import opened Bars
  import opened Resample

  /** In the bucket that starts at this edge. */
  predicate Falls(ts: int, edge: int, every: int) {
    edge <= ts < edge + every
  }

  /** The earliest row of the bucket; of several at one time the one handed over first. */
  ghost predicate Earliest(bars: seq<Bar>, edge: int, every: int, i: int) {
    && 0 <= i < |bars| && Falls(bars[i].ts, edge, every)
    && forall j :: 0 <= j < |bars| && Falls(bars[j].ts, edge, every) ==>
      bars[i].ts < bars[j].ts || (bars[i].ts == bars[j].ts && i <= j)
  }

  /** The latest row of the bucket; of several at one time the one handed over last. */
  ghost predicate Latest(bars: seq<Bar>, edge: int, every: int, i: int) {
    && 0 <= i < |bars| && Falls(bars[i].ts, edge, every)
    && forall j :: 0 <= j < |bars| && Falls(bars[j].ts, edge, every) ==>
      bars[j].ts < bars[i].ts || (bars[j].ts == bars[i].ts && j <= i)
  }

  ghost predicate Highest(bars: seq<Bar>, edge: int, every: int, high: real) {
    && (exists i :: 0 <= i < |bars| && Falls(bars[i].ts, edge, every) && bars[i].high == high)
    && forall j :: 0 <= j < |bars| && Falls(bars[j].ts, edge, every) ==> bars[j].high <= high
  }

  ghost predicate Lowest(bars: seq<Bar>, edge: int, every: int, low: real) {
    && (exists i :: 0 <= i < |bars| && Falls(bars[i].ts, edge, every) && bars[i].low == low)
    && forall j :: 0 <= j < |bars| && Falls(bars[j].ts, edge, every) ==> low <= bars[j].low
  }

  function VolumeIn(bars: seq<Bar>, edge: int, every: int): real {
    if bars == [] then 0.0
    else VolumeIn(bars[1..], edge, every) + if Falls(bars[0].ts, edge, every) then bars[0].volume else 0.0
  }

  // ---------------------------------------------------------------- the bucket in time order

  lemma BucketIs(ts: int, edge: int, every: int)
    requires every > 0
    ensures Bucket(ts, every) == edge <==> edge % every == 0 && Falls(ts, edge, every)
  {
    var q, r := ts / every, ts % every;
    assert ts == q * every + r;
    DivModUnique(ts - r, every, q, 0);
    if edge % every == 0 && Falls(ts, edge, every) {
      DivModUnique(ts, every, edge / every, ts - edge);
    }
  }

  lemma {:induction false} InBucketIs(s: seq<Bar>, edge: int, every: int)
    requires every > 0
    ensures InBucket(s, edge, every) == if edge % every == 0 then Between(s, edge, edge + every) else []
  {
    hide Bucket;
    if s != [] {
      InBucketIs(s[1..], edge, every);
      BucketIs(s[0].ts, edge, every);
    }
  }

  lemma {:induction false} BetweenInsert(x: Bar, s: seq<Bar>, lo: int, hi: int)
    requires Sorted(s)
    ensures Between(Insert(x, s), lo, hi) ==
      if lo <= x.ts < hi then Insert(x, Between(s, lo, hi)) else Between(s, lo, hi)
  {
    if s == [] || x.ts <= s[0].ts {
      InsertFirst(x, Between(s, lo, hi));
      BetweenElements(s, lo, hi);
      assert ([x] + s)[1..] == s;
    } else {
      BetweenInsert(x, s[1..], lo, hi);
      assert ([s[0]] + Insert(x, s[1..]))[1..] == Insert(x, s[1..]);
      if lo <= s[0].ts < hi { InsertSecond(x, s[0], Between(s[1..], lo, hi)); }
    }
  }

  lemma InsertFirst(x: Bar, s: seq<Bar>)
    ensures (forall b :: b in s ==> x.ts <= b.ts) ==> Insert(x, s) == [x] + s
  {
    if s != [] { assert s[0] in s; }
  }

  lemma InsertSecond(x: Bar, b: Bar, s: seq<Bar>)
    requires b.ts < x.ts
    ensures Insert(x, [b] + s) == [b] + Insert(x, s)
  {
    assert ([b] + s)[1..] == s;
  }

  lemma {:induction false} InsertEnds(x: Bar, s: seq<Bar>)
    requires Sorted(s) && s != []
    ensures var r := Insert(x, s);
      && r != [] && r[0] == (if x.ts <= s[0].ts then x else s[0])
      && r[|r| - 1] == if x.ts > s[|s| - 1].ts then x else s[|s| - 1]
  {
    if x.ts > s[0].ts {
      if |s| > 1 { InsertEnds(x, s[1..]); } else { assert Insert(x, s[1..]) == [x]; }
    }
  }

  /** The rows of one bucket in time order. */
  function InOrder(bars: seq<Bar>, edge: int, every: int): seq<Bar> {
    Between(SortByTime(bars), edge, edge + every)
  }

  lemma InOrderSorted(bars: seq<Bar>, edge: int, every: int)
    ensures Sorted(InOrder(bars, edge, every))
  {
    var s := SortByTime(bars);
    SortSorts(bars);
    if edge <= edge + every { BetweenOfSorted(s, edge, edge + every); } else { NothingBetween(s, edge, edge + every); }
  }

  lemma InOrderStep(bars: seq<Bar>, edge: int, every: int)
    requires bars != []
    ensures var rest := InOrder(bars[1..], edge, every);
      Sorted(rest) && InOrder(bars, edge, every) ==
        if Falls(bars[0].ts, edge, every) then Insert(bars[0], rest) else rest
  {
    hide Between, Insert;
    SortSorts(bars[1..]);
    BetweenInsert(bars[0], SortByTime(bars[1..]), edge, edge + every);
    InOrderSorted(bars[1..], edge, every);
  }

  lemma {:induction false} NothingBetween(s: seq<Bar>, lo: int, hi: int)
    requires hi <= lo
    ensures Between(s, lo, hi) == []
  {
    if s != [] { NothingBetween(s[1..], lo, hi); }
  }

  lemma EarliestStep(bars: seq<Bar>, edge: int, every: int, i: int)
    requires bars != [] && Earliest(bars[1..], edge, every, i)
    ensures Earliest(bars, edge, every,
      if Falls(bars[0].ts, edge, every) && bars[0].ts <= bars[i + 1].ts then 0 else i + 1)
  {
    assert forall j :: 1 <= j < |bars| ==> bars[j] == bars[1..][j - 1];
  }

  lemma LatestStep(bars: seq<Bar>, edge: int, every: int, i: int)
    requires bars != [] && Latest(bars[1..], edge, every, i)
    ensures Latest(bars, edge, every,
      if Falls(bars[0].ts, edge, every) && bars[0].ts > bars[i + 1].ts then 0 else i + 1)
  {
    assert forall j :: 1 <= j < |bars| ==> bars[j] == bars[1..][j - 1];
  }

  lemma OnlyRow(bars: seq<Bar>, edge: int, every: int)
    requires bars != [] && Falls(bars[0].ts, edge, every)
    requires forall j :: 1 <= j < |bars| ==> !Falls(bars[j].ts, edge, every)
    ensures Earliest(bars, edge, every, 0) && Latest(bars, edge, every, 0)
  {
  }

  lemma {:induction false} InOrderElements(bars: seq<Bar>, edge: int, every: int)
    ensures forall b :: b in InOrder(bars, edge, every) <==> b in bars && Falls(b.ts, edge, every)
  {
    SortElements(bars);
    BetweenElements(SortByTime(bars), edge, edge + every);
  }

  lemma NoneFalls(bars: seq<Bar>, edge: int, every: int)
    requires InOrder(bars, edge, every) == []
    ensures forall j :: 0 <= j < |bars| ==> !Falls(bars[j].ts, edge, every)
  {
    hide InOrder;
    InOrderElements(bars, edge, every);
    forall j | 0 <= j < |bars| ensures !Falls(bars[j].ts, edge, every) { assert bars[j] in bars; }
  }

  /** The first and the last row of the bucket in time order. */
  lemma {:induction false} EndsOfBucket(bars: seq<Bar>, edge: int, every: int) returns (i: int, k: int)
    requires InOrder(bars, edge, every) != []
    ensures var group := InOrder(bars, edge, every);
      && Earliest(bars, edge, every, i) && group[0] == bars[i]
      && Latest(bars, edge, every, k) && group[|group| - 1] == bars[k]
  {
    hide InOrder, Earliest, Latest, Insert;
    InOrderElements(bars, edge, every);
    assert bars != [] by { assert InOrder(bars, edge, every)[0] in bars; }
    InOrderStep(bars, edge, every);
    var rest := InOrder(bars[1..], edge, every);
    if rest == [] {
      AloneIn(bars, edge, every);
      i, k := 0, 0;
    } else {
      i, k := EndsOfBucket(bars[1..], edge, every);
      EarliestRow(bars[1..], edge, every, i);
      LatestRow(bars[1..], edge, every, k);
      EarliestStep(bars, edge, every, i);
      LatestStep(bars, edge, every, k);
      InsertEnds(bars[0], rest);
      i := if Falls(bars[0].ts, edge, every) && bars[0].ts <= bars[i + 1].ts then 0 else i + 1;
      k := if Falls(bars[0].ts, edge, every) && bars[0].ts > bars[k + 1].ts then 0 else k + 1;
    }
  }

  lemma EarliestRow(bars: seq<Bar>, edge: int, every: int, i: int)
    requires Earliest(bars, edge, every, i)
    ensures 0 <= i < |bars|
  {
  }

  lemma LatestRow(bars: seq<Bar>, edge: int, every: int, i: int)
    requires Latest(bars, edge, every, i)
    ensures 0 <= i < |bars|
  {
  }

  lemma AloneIn(bars: seq<Bar>, edge: int, every: int)
    requires bars != [] && InOrder(bars[1..], edge, every) == [] && InOrder(bars, edge, every) != []
    ensures InOrder(bars, edge, every) == [bars[0]]
    ensures Earliest(bars, edge, every, 0) && Latest(bars, edge, every, 0)
  {
    hide InOrder;
    InOrderStep(bars, edge, every);
    NoneFalls(bars[1..], edge, every);
    assert forall j :: 1 <= j < |bars| ==> bars[j] == bars[1..][j - 1];
    OnlyRow(bars, edge, every);
  }

  lemma {:induction false} VolumeOfBucket(bars: seq<Bar>, edge: int, every: int)
    ensures Volume(InOrder(bars, edge, every)) == VolumeIn(bars, edge, every)
  {
    hide InOrder;
    if bars == [] {
      EmptyBucket(edge, every);
    } else {
      VolumeOfBucket(bars[1..], edge, every);
      InOrderStep(bars, edge, every);
      VolumeInsert(bars[0], InOrder(bars[1..], edge, every));
    }
  }

  lemma EmptyBucket(edge: int, every: int)
    ensures InOrder([], edge, every) == []
  {
  }

  lemma {:induction false} MaxHighIs(s: seq<Bar>)
    requires s != []
    ensures (exists b :: b in s && b.high == MaxHigh(s)) && forall b :: b in s ==> b.high <= MaxHigh(s)
  {
    assert s[0] in s;
    if |s| > 1 {
      MaxHighIs(s[1..]);
      assert forall b :: b in s <==> b == s[0] || b in s[1..];
    }
  }

  lemma {:induction false} MinLowIs(s: seq<Bar>)
    requires s != []
    ensures (exists b :: b in s && b.low == MinLow(s)) && forall b :: b in s ==> MinLow(s) <= b.low
  {
    assert s[0] in s;
    if |s| > 1 {
      MinLowIs(s[1..]);
      assert forall b :: b in s <==> b == s[0] || b in s[1..];
    }
  }

  lemma RangeOfBucket(bars: seq<Bar>, edge: int, every: int)
    requires InOrder(bars, edge, every) != []
    ensures Highest(bars, edge, every, MaxHigh(InOrder(bars, edge, every)))
    ensures Lowest(bars, edge, every, MinLow(InOrder(bars, edge, every)))
  {
    hide InOrder, MaxHigh, MinLow, Falls;
    var group := InOrder(bars, edge, every);
    InOrderElements(bars, edge, every);
    MaxHighIs(group);
    MinLowIs(group);
    var h :| h in group && h.high == MaxHigh(group);
    var i :| 0 <= i < |bars| && bars[i] == h;
    var l :| l in group && l.low == MinLow(group);
    var k :| 0 <= k < |bars| && bars[k] == l;
    forall j | 0 <= j < |bars| && Falls(bars[j].ts, edge, every)
      ensures bars[j].high <= MaxHigh(group) && MinLow(group) <= bars[j].low
    {
      assert bars[j] in group;
    }
  }

  // ---------------------------------------------------------------- bars

  predicate Closes(b: Bar, last: Bar) {
    b.close == last.close && b.bid == last.bid && b.ask == last.ask
  }

  /** The bar of a bucket: open of its earliest row; close, bid and ask of its latest; the extremes of high and low; and
      the volumes added up. */
  ghost predicate Columns(b: Bar, bars: seq<Bar>, edge: int, every: int) {
    && b.ts == edge
    && (exists i :: 0 <= i < |bars| && Earliest(bars, edge, every, i) && b.open == bars[i].open)
    && (exists k :: 0 <= k < |bars| && Latest(bars, edge, every, k) && Closes(b, bars[k]))
    && Highest(bars, edge, every, b.high) && Lowest(bars, edge, every, b.low)
    && b.volume == VolumeIn(bars, edge, every)
  }

  ghost predicate HasRow(bars: seq<Bar>, edge: int, every: int) {
    exists i :: 0 <= i < |bars| && Falls(bars[i].ts, edge, every)
  }

  lemma AggregateColumns(bars: seq<Bar>, edge: int, every: int)
    requires every > 0 && edge % every == 0 && InOrder(bars, edge, every) != []
    ensures Columns(Aggregate(InOrder(bars, edge, every), every), bars, edge, every)
  {
    hide InOrder, Earliest, Latest, Highest, Lowest, Bucket, MaxHigh, MinLow, Volume;
    var group := InOrder(bars, edge, every);
    var i, k := EndsOfBucket(bars, edge, every);
    EarliestRow(bars, edge, every, i);
    LatestRow(bars, edge, every, k);
    RangeOfBucket(bars, edge, every);
    VolumeOfBucket(bars, edge, every);
    InOrderElements(bars, edge, every);
    assert group[0] in group;
    BucketIs(group[0].ts, edge, every);
  }

  /** Bars to bars, on any frame in any order: there is a bar at a multiple of the interval exactly when some row falls
      in that bucket, at no other time, and every column is as said. */
  lemma BarsToBarsColumns(bars: seq<Bar>, every: int, edge: int)
    requires every > 0
    ensures (exists b :: b in BarsToBars(bars, every) && b.ts == edge) <==>
      edge % every == 0 && HasRow(bars, edge, every)
    ensures forall b :: b in BarsToBars(bars, every) && b.ts == edge ==> Columns(b, bars, edge, every)
  {
    hide Columns, Aggregate, GroupBars, InBucket;
    var s := SortByTime(bars);
    SortSorts(bars);
    GroupBarsExact(s, every, edge);
    InBucketIs(s, edge, every);
    if edge % every == 0 {
      InOrderElements(bars, edge, every);
      if InOrder(bars, edge, every) != [] {
        AggregateColumns(bars, edge, every);
        var i, k := EndsOfBucket(bars, edge, every);
      } else {
        NoneFalls(bars, edge, every);
      }
    }
  }

  // ---------------------------------------------------------------- ticks

  ghost predicate FirstTick(ticks: seq<Tick>, edge: int, every: int, i: int) {
    && 0 <= i < |ticks| && Falls(ticks[i].ts, edge, every)
    && forall j :: 0 <= j < |ticks| && Falls(ticks[j].ts, edge, every) ==>
      ticks[i].ts < ticks[j].ts || (ticks[i].ts == ticks[j].ts && i <= j)
  }

  ghost predicate LastTick(ticks: seq<Tick>, edge: int, every: int, i: int) {
    && 0 <= i < |ticks| && Falls(ticks[i].ts, edge, every)
    && forall j :: 0 <= j < |ticks| && Falls(ticks[j].ts, edge, every) ==>
      ticks[j].ts < ticks[i].ts || (ticks[j].ts == ticks[i].ts && j <= i)
  }

  /** Half way between bid and ask. */
  predicate Halves(x: real, t: Tick) {
    2.0 * x == t.bid + t.ask
  }

  ghost predicate AttainedBy(ticks: seq<Tick>, edge: int, every: int, x: real) {
    exists i :: 0 <= i < |ticks| && Falls(ticks[i].ts, edge, every) && Halves(x, ticks[i])
  }

  ghost function TicksIn(ticks: seq<Tick>, edge: int, every: int): set<int> {
    set i | 0 <= i < |ticks| && Falls(ticks[i].ts, edge, every)
  }

  predicate ClosesOn(b: Bar, last: Tick) {
    Halves(b.close, last) && b.bid == last.bid && b.ask == last.ask
  }

  /** The bar of a bucket of ticks: the middle of the quotes of its first tick and of its last, the highest and lowest
      middle, the number of ticks, and the last tick's quotes. */
  ghost predicate TickColumns(b: Bar, ticks: seq<Tick>, edge: int, every: int) {
    && b.ts == edge
    && (exists i :: 0 <= i < |ticks| && FirstTick(ticks, edge, every, i) && Halves(b.open, ticks[i]))
    && (exists k :: 0 <= k < |ticks| && LastTick(ticks, edge, every, k) && ClosesOn(b, ticks[k]))
    && AttainedBy(ticks, edge, every, b.high) && AttainedBy(ticks, edge, every, b.low)
    && (forall j :: 0 <= j < |ticks| && Falls(ticks[j].ts, edge, every) ==>
          2.0 * b.low <= ticks[j].bid + ticks[j].ask <= 2.0 * b.high)
    && b.volume == |TicksIn(ticks, edge, every)| as real
  }

  lemma {:induction false} TickVolumeIn(ticks: seq<Tick>, edge: int, every: int)
    ensures VolumeIn(TickBars(ticks), edge, every) == |TicksIn(ticks, edge, every)| as real
  {
    if ticks != [] {
      TickVolumeIn(ticks[1..], edge, every);
      assert TickBars(ticks)[1..] == TickBars(ticks[1..]);
      ShiftedCount(ticks, edge, every);
    }
  }

  /** The same numbers, each one higher. */
  ghost function Raised(s: set<int>): set<int> {
    set i | i in s :: i + 1
  }

  lemma {:induction false} RaisedSize(s: set<int>)
    ensures |Raised(s)| == |s|
    decreases |s|
  {
    if s != {} {
      SomeMember(s);
      var x :| x in s;
      RaisedSize(s - {x});
      assert s == (s - {x}) + {x};
      assert Raised(s) == Raised(s - {x}) + {x + 1};
      assert x + 1 !in Raised(s - {x});
    }
  }

  lemma ShiftedCount(ticks: seq<Tick>, edge: int, every: int)
    requires ticks != []
    ensures |TicksIn(ticks, edge, every)| ==
      |TicksIn(ticks[1..], edge, every)| + if Falls(ticks[0].ts, edge, every) then 1 else 0
  {
    hide Falls;
    var rest := TicksIn(ticks[1..], edge, every);
    RaisedSize(rest);
    ShiftedTicks(ticks, edge, every);
    assert 0 !in Raised(rest);
  }

  lemma ShiftedTicks(ticks: seq<Tick>, edge: int, every: int)
    requires ticks != []
    ensures TicksIn(ticks, edge, every) ==
      Raised(TicksIn(ticks[1..], edge, every)) + if Falls(ticks[0].ts, edge, every) then {0} else {}
  {
    hide Falls;
    var all, rest := TicksIn(ticks, edge, every), TicksIn(ticks[1..], edge, every);
    forall i | i in all ensures i in Raised(rest) || (i == 0 && Falls(ticks[0].ts, edge, every)) {
      if i > 0 {
        assert ticks[i] == ticks[1..][i - 1];
        assert i - 1 in rest;
      }
    }
  }

  lemma {:induction false} TickBarColumns(b: Bar, ticks: seq<Tick>, edge: int, every: int)
    requires Columns(b, TickBars(ticks), edge, every)
    ensures TickColumns(b, ticks, edge, every)
  {
    hide Earliest, Latest, FirstTick, LastTick, Highest, Lowest, AttainedBy, Falls;
    var bars := TickBars(ticks);
    TickBarsAt(ticks);
    TickVolumeIn(ticks, edge, every);
    var i :| 0 <= i < |bars| && Earliest(bars, edge, every, i) && b.open == bars[i].open;
    EndTicks(ticks, edge, every, i);
    assert bars[i] == TickBar(ticks[i]) && Halves(b.open, ticks[i]);
    var k :| 0 <= k < |bars| && Latest(bars, edge, every, k) && Closes(b, bars[k]);
    EndTicks(ticks, edge, every, k);
    assert bars[k] == TickBar(ticks[k]) && ClosesOn(b, ticks[k]);
    TickRange(b, ticks, edge, every);
  }

  lemma {:induction false} EndTicks(ticks: seq<Tick>, edge: int, every: int, i: int)
    ensures Earliest(TickBars(ticks), edge, every, i) ==> FirstTick(ticks, edge, every, i)
    ensures Latest(TickBars(ticks), edge, every, i) ==> LastTick(ticks, edge, every, i)
  {
    hide Falls;
    TickBarsAt(ticks);
    assert forall j {:trigger ticks[j]} :: 0 <= j < |ticks| ==> TickBars(ticks)[j].ts == ticks[j].ts;
  }

  lemma {:induction false} TickRange(b: Bar, ticks: seq<Tick>, edge: int, every: int)
    requires Highest(TickBars(ticks), edge, every, b.high) && Lowest(TickBars(ticks), edge, every, b.low)
    ensures AttainedBy(ticks, edge, every, b.high) && AttainedBy(ticks, edge, every, b.low)
    ensures forall j :: 0 <= j < |ticks| && Falls(ticks[j].ts, edge, every) ==>
      2.0 * b.low <= ticks[j].bid + ticks[j].ask <= 2.0 * b.high
  {
    hide Falls;
    var bars := TickBars(ticks);
    TickBarsAt(ticks);
    var h :| 0 <= h < |bars| && Falls(bars[h].ts, edge, every) && bars[h].high == b.high;
    assert Halves(b.high, ticks[h]);
    var l :| 0 <= l < |bars| && Falls(bars[l].ts, edge, every) && bars[l].low == b.low;
    assert Halves(b.low, ticks[l]);
    forall j | 0 <= j < |ticks| && Falls(ticks[j].ts, edge, every)
      ensures 2.0 * b.low <= ticks[j].bid + ticks[j].ask <= 2.0 * b.high
    {
      assert bars[j] == TickBar(ticks[j]);
    }
  }

  /** Ticks to bars, on any ticks in any order: there is a bar at a multiple of the interval exactly when some tick
      falls in that bucket, at no other time, and every column is as said. */
  lemma {:induction false} TicksToBarsColumns(ticks: seq<Tick>, every: int, edge: int)
    requires every > 0
    ensures (exists b :: b in TicksToBars(ticks, every) && b.ts == edge) <==>
      edge % every == 0 && TicksIn(ticks, edge, every) != {}
    ensures forall b :: b in TicksToBars(ticks, every) && b.ts == edge ==> TickColumns(b, ticks, edge, every)
  {
    hide Columns, TickColumns, TicksToBars, BarsToBars;
    var bars := TickBars(ticks);
    TicksAreUnitBars(ticks, every);
    BarsToBarsColumns(bars, every, edge);
    TickBarsAt(ticks);
    RowsAreTicks(ticks, edge, every);
    forall b | b in TicksToBars(ticks, every) && b.ts == edge ensures TickColumns(b, ticks, edge, every) {
      TickBarColumns(b, ticks, edge, every);
    }
  }

  lemma {:induction false} RowsAreTicks(ticks: seq<Tick>, edge: int, every: int)
    ensures HasRow(TickBars(ticks), edge, every) <==> TicksIn(ticks, edge, every) != {}
  {
    hide Falls;
    TickBarsAt(ticks);
    if i :| 0 <= i < |ticks| && Falls(ticks[i].ts, edge, every) {
      assert i in TicksIn(ticks, edge, every);
      assert Falls(TickBars(ticks)[i].ts, edge, every);
    } else {
      assert TicksIn(ticks, edge, every) == {};
    }
  }
}

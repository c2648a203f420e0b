/** Aggregation of ticks and of finer bars into coarser bars. A bucket of `every` seconds is labelled by
    its left edge and holds the rows from that edge up to, not including, the next one; a bucket without
    rows gives no bar. */
module Resample {
  import opened Prelude
  import opened Bars

  datatype Tick = Tick(ts: int, bid: real, ask: real)

  function Bucket(ts: int, every: int): int
    requires every > 0
  {
    ts - ts % every
  }

  // ---------------------------------------------------------------- the aggregations of the source

  function Volume(s: seq<Bar>): real {
    if s == [] then 0.0 else s[0].volume + Volume(s[1..])
  }

  /** First, max, min, last, sum, last, last, labelled with the bucket's left edge. */
  function Aggregate(group: seq<Bar>, every: int): Bar
    requires group != [] && every > 0
  {
    var last := group[|group| - 1];
    Bar(Bucket(group[0].ts, every), group[0].open, MaxHigh(group), MinLow(group), last.close, Volume(group), last.bid,
      last.ask)
  }

  /** The number of leading rows in the bucket of the first row. */
  function RunLength(s: seq<Bar>, every: int): (n: nat)
    requires s != [] && every > 0
    ensures 1 <= n <= |s|
  {
    if |s| > 1 && Bucket(s[1].ts, every) == Bucket(s[0].ts, every) then 1 + RunLength(s[1..], every) else 1
  }

  /** Group the rows of a sorted frame by bucket and aggregate each group. */
  function GroupBars(s: seq<Bar>, every: int): seq<Bar>
    requires every > 0
    decreases |s|
  {
    if s == [] then [] else
      var n := RunLength(s, every);
      [Aggregate(s[..n], every)] + GroupBars(s[n..], every)
  }

  function BarsToBars(bars: seq<Bar>, every: int): seq<Bar>
    requires every > 0
  {
    GroupBars(SortByTime(bars), every)
  }

  function Mid(t: Tick): real {
    (t.bid + t.ask) / 2.0
  }

  function InsertTick(x: Tick, s: seq<Tick>): seq<Tick> {
    if s == [] || x.ts <= s[0].ts then [x] + s else [s[0]] + InsertTick(x, s[1..])
  }

  function SortTicks(s: seq<Tick>): seq<Tick> {
    if s == [] then [] else InsertTick(s[0], SortTicks(s[1..]))
  }

  function MaxMid(s: seq<Tick>): real
    requires s != []
  {
    if |s| == 1 then Mid(s[0]) else Max(Mid(s[0]), MaxMid(s[1..]))
  }

  function MinMid(s: seq<Tick>): real
    requires s != []
  {
    if |s| == 1 then Mid(s[0]) else Min(Mid(s[0]), MinMid(s[1..]))
  }

  /** First, max, min and last of the mid price, row count, last bid and ask. */
  function AggregateTicks(group: seq<Tick>, every: int): Bar
    requires group != [] && every > 0
  {
    var last := group[|group| - 1];
    Bar(Bucket(group[0].ts, every), Mid(group[0]), MaxMid(group), MinMid(group), Mid(last), |group| as real, last.bid,
      last.ask)
  }

  function TickRunLength(s: seq<Tick>, every: int): (n: nat)
    requires s != [] && every > 0
    ensures 1 <= n <= |s|
  {
    if |s| > 1 && Bucket(s[1].ts, every) == Bucket(s[0].ts, every) then 1 + TickRunLength(s[1..], every) else 1
  }

  function GroupTicks(s: seq<Tick>, every: int): seq<Bar>
    requires every > 0
    decreases |s|
  {
    if s == [] then [] else
      var n := TickRunLength(s, every);
      [AggregateTicks(s[..n], every)] + GroupTicks(s[n..], every)
  }

  function TicksToBars(ticks: seq<Tick>, every: int): seq<Bar>
    requires every > 0
  {
    GroupTicks(SortTicks(ticks), every)
  }

  // ---------------------------------------------------------------- a one-row-at-a-time form

  function Relabel(b: Bar, every: int): Bar
    requires every > 0
  {
    b.(ts := Bucket(b.ts, every))
  }

  /** Earlier row a and later row b of one bucket. */
  function Merge(a: Bar, b: Bar): Bar {
    Bar(a.ts, a.open, Max(a.high, b.high), Min(a.low, b.low), b.close, a.volume + b.volume, b.bid, b.ask)
  }

  /** Put a row in front of an aggregated frame. */
  function Push(b: Bar, rest: seq<Bar>, every: int): seq<Bar>
    requires every > 0
  {
    var labelled := Relabel(b, every);
    if rest != [] && rest[0].ts == labelled.ts then [Merge(labelled, rest[0])] + rest[1..] else [labelled] + rest
  }

  function Fold(s: seq<Bar>, every: int): seq<Bar>
    requires every > 0
  {
    if s == [] then [] else Push(s[0], Fold(s[1..], every), every)
  }

  lemma BucketNested(ts: int, fine: int, k: int)
    requires fine > 0 && k > 0 && fine * k > 0
    ensures Bucket(Bucket(ts, fine), fine * k) == Bucket(ts, fine * k)
  {
    var coarse := fine * k;
    var n, r := ts / fine, ts % fine;
    var q, m := n / k, n % k;
    assert ts == fine * n + r;
    assert n == k * q + m;
    NestedDigits(fine, k, q, m, r);
    DivModUnique(ts, coarse, q, fine * m + r);
    DivModUnique(ts - r, coarse, q, fine * m);
  }

  lemma NestedDigits(fine: int, k: int, q: int, m: int, r: int)
    requires fine > 0 && k > 0 && 0 <= m < k && 0 <= r < fine
    ensures fine * (k * q + m) + r == q * (fine * k) + (fine * m + r)
    ensures 0 <= fine * m && fine * m + r < fine * k
  {
    assert fine * (k * q + m) == fine * (k * q) + fine * m;
    assert fine * (k * q) == q * (fine * k);
    MulAtLeast(k - m, fine);
    assert (k - m) * fine == fine * k - fine * m;
  }

  lemma BucketMonotone(a: int, b: int, every: int)
    requires every > 0 && a <= b
    ensures Bucket(a, every) <= Bucket(b, every)
  {
    var p, q := a / every, b / every;
    assert a == every * p + a % every && b == every * q + b % every;
    if p > q {
      MulAtLeast(p - q, every);
    } else if q > p {
      MulAtLeast(q - p, every);
      assert (q - p) * every == every * q - every * p;
    }
  }

  // ---------------------------------------------------------------- the two forms agree

  /** A row in front of a group of the same bucket. */
  lemma AggregatePush(b: Bar, group: seq<Bar>, every: int)
    requires every > 0 && group != [] && Bucket(group[0].ts, every) == Bucket(b.ts, every)
    ensures Aggregate([b] + group, every) == Merge(Relabel(b, every), Aggregate(group, every))
  {
    assert ([b] + group)[1..] == group;
  }

  lemma AggregateOne(b: Bar, every: int)
    requires every > 0
    ensures Aggregate([b], every) == Relabel(b, every)
  {
    assert [b][1..] == [];
    assert Volume([b]) == b.volume + Volume([]);
  }

  /** Grouping by bucket and aggregating is the same as pushing the rows one at a time. */
  lemma {:induction false} GroupIsFold(s: seq<Bar>, every: int)
    requires every > 0
    ensures GroupBars(s, every) == Fold(s, every)
    decreases |s|
  {
    if s != [] {
      var rest := s[1..];
      GroupIsFold(rest, every);
      var n := RunLength(s, every);
      if |s| > 1 && Bucket(rest[0].ts, every) == Bucket(s[0].ts, every) {
        var m := RunLength(rest, every);
        assert n == m + 1;
        assert s[..n] == [s[0]] + rest[..m];
        assert s[n..] == rest[m..];
        AggregatePush(s[0], rest[..m], every);
        assert GroupBars(rest, every) == [Aggregate(rest[..m], every)] + GroupBars(rest[m..], every);
      } else {
        assert s[..1] == [s[0]];
        AggregateOne(s[0], every);
        if |s| > 1 {
          var m := RunLength(rest, every);
          assert GroupBars(rest, every)[0].ts == Bucket(rest[0].ts, every);
        }
      }
    }
  }

  // ---------------------------------------------------------------- ticks as bars of one trade

  /** A tick seen as a bar of one trade at the mid price, which counts one unit of volume. */
  function TickBar(t: Tick): Bar {
    Bar(t.ts, Mid(t), Mid(t), Mid(t), Mid(t), 1.0, t.bid, t.ask)
  }

  function TickBars(ticks: seq<Tick>): seq<Bar> {
    if ticks == [] then [] else [TickBar(ticks[0])] + TickBars(ticks[1..])
  }

  lemma {:induction false} TickBarsAt(s: seq<Tick>)
    ensures |TickBars(s)| == |s|
    ensures forall i :: 0 <= i < |s| ==> TickBars(s)[i] == TickBar(s[i])
  {
    if s != [] { TickBarsAt(s[1..]); }
  }

  lemma {:induction false} SortTicksAsBars(s: seq<Tick>)
    ensures TickBars(SortTicks(s)) == SortByTime(TickBars(s))
  {
    if s != [] {
      SortTicksAsBars(s[1..]);
      InsertTickAsBar(s[0], SortTicks(s[1..]));
      assert TickBars(s)[1..] == TickBars(s[1..]);
    }
  }

  lemma {:induction false} InsertTickAsBar(x: Tick, s: seq<Tick>)
    ensures TickBars(InsertTick(x, s)) == Insert(TickBar(x), TickBars(s))
  {
    if s == [] || x.ts <= s[0].ts {
      assert ([x] + s)[1..] == s;
    } else {
      InsertTickAsBar(x, s[1..]);
      assert ([s[0]] + InsertTick(x, s[1..]))[1..] == InsertTick(x, s[1..]);
      assert TickBars(s)[1..] == TickBars(s[1..]);
    }
  }

  lemma {:induction false} AggregateTicksAsBars(s: seq<Tick>, every: int)
    requires s != [] && every > 0
    ensures AggregateTicks(s, every) == Aggregate(TickBars(s), every)
  {
    TickBarsAt(s);
    if |s| > 1 {
      AggregateTicksAsBars(s[1..], every);
      assert TickBars(s)[1..] == TickBars(s[1..]);
    } else {
      assert TickBars(s) == [TickBar(s[0])];
      AggregateOne(TickBar(s[0]), every);
    }
  }

  lemma {:induction false} RunLengthAsBars(s: seq<Tick>, every: int)
    requires s != [] && every > 0
    ensures TickBars(s) != [] && TickRunLength(s, every) == RunLength(TickBars(s), every)
  {
    TickBarsAt(s);
    if |s| > 1 {
      RunLengthAsBars(s[1..], every);
      assert TickBars(s)[1..] == TickBars(s[1..]);
    }
  }

  lemma {:induction false} GroupTicksAsBars(s: seq<Tick>, every: int)
    requires every > 0
    ensures GroupTicks(s, every) == GroupBars(TickBars(s), every)
    decreases |s|
  {
    if s != [] {
      var n := TickRunLength(s, every);
      RunLengthAsBars(s, every);
      TickBarsAt(s);
      TickBarsAt(s[..n]);
      TickBarsAt(s[n..]);
      assert TickBars(s[..n]) == TickBars(s)[..n];
      assert TickBars(s[n..]) == TickBars(s)[n..];
      AggregateTicksAsBars(s[..n], every);
      GroupTicksAsBars(s[n..], every);
    }
  }

  /** Aggregating ticks is aggregating one-trade bars: the first step of every composition. */
  lemma TicksAreUnitBars(ticks: seq<Tick>, every: int)
    requires every > 0
    ensures TicksToBars(ticks, every) == BarsToBars(TickBars(ticks), every)
  {
    SortTicksAsBars(ticks);
    GroupTicksAsBars(SortTicks(ticks), every);
  }

  // ---------------------------------------------------------------- composition

  /** Coarse-folding a fine-pushed frame is coarse-pushing the row. */
  lemma PushThrough(b: Bar, r: seq<Bar>, fine: int, k: int)
    requires fine > 0 && k > 0 && fine * k > 0
    ensures Fold(Push(b, r, fine), fine * k) == Push(b, Fold(r, fine * k), fine * k)
  {
    var coarse := fine * k;
    BucketNested(b.ts, fine, k);
    var labelled := Relabel(b, fine);
    if r != [] && r[0].ts == labelled.ts {
      var merged := Merge(labelled, r[0]);
      var tail := Fold(r[1..], coarse);
      assert Push(b, r, fine) == [merged] + r[1..];
      assert ([merged] + r[1..])[1..] == r[1..];
      assert Fold(Push(b, r, fine), coarse) == Push(merged, tail, coarse);
    } else {
      assert ([labelled] + r)[1..] == r;
    }
  }

  lemma {:induction false} FoldComposes(s: seq<Bar>, fine: int, k: int)
    requires fine > 0 && k > 0 && fine * k > 0
    ensures Fold(Fold(s, fine), fine * k) == Fold(s, fine * k)
  {
    if s != [] {
      FoldComposes(s[1..], fine, k);
      PushThrough(s[0], Fold(s[1..], fine), fine, k);
    }
  }

  /** Resampling to a fine timeframe and then to a multiple of it gives, on every column, the bars of
      resampling straight to the coarse timeframe. */
  lemma BarsToBarsComposes(bars: seq<Bar>, fine: int, k: int)
    requires fine > 0 && k > 0 && fine * k > 0
    ensures BarsToBars(BarsToBars(bars, fine), fine * k) == BarsToBars(bars, fine * k)
  {
    var s := SortByTime(bars);
    SortSorts(bars);
    GroupedIsAscending(s, fine);
    SortKeepsSorted(GroupBars(s, fine));
    GroupIsFold(s, fine);
    GroupIsFold(s, fine * k);
    GroupIsFold(GroupBars(s, fine), fine * k);
    FoldComposes(s, fine, k);
  }

  lemma TicksComposeWithBars(ticks: seq<Tick>, fine: int, k: int)
    requires fine > 0 && k > 0 && fine * k > 0
    ensures BarsToBars(TicksToBars(ticks, fine), fine * k) == TicksToBars(ticks, fine * k)
  {
    TicksAreUnitBars(ticks, fine);
    TicksAreUnitBars(ticks, fine * k);
    BarsToBarsComposes(TickBars(ticks), fine, k);
  }

  // ---------------------------------------------------------------- what the output is

  lemma {:induction false} FoldAscending(s: seq<Bar>, every: int)
    requires every > 0 && Sorted(s)
    ensures Ascending(Fold(s, every))
    ensures s == [] <==> Fold(s, every) == []
    ensures s != [] ==> Fold(s, every)[0].ts == Bucket(s[0].ts, every)
  {
    if s != [] {
      FoldAscending(s[1..], every);
      if |s| > 1 {
        BucketMonotone(s[0].ts, s[1].ts, every);
      }
    }
  }

  /** Each bucket gives one bar, in time order. */
  lemma GroupedIsAscending(s: seq<Bar>, every: int)
    requires every > 0 && Sorted(s)
    ensures Ascending(GroupBars(s, every))
  {
    GroupIsFold(s, every);
    FoldAscending(s, every);
  }

  /** The rows of one bucket. */
  function InBucket(s: seq<Bar>, edge: int, every: int): seq<Bar>
    requires every > 0
  {
    if s == [] then []
    else if Bucket(s[0].ts, every) == edge then [s[0]] + InBucket(s[1..], edge, every)
    else InBucket(s[1..], edge, every)
  }

  /** Declaratively: the bar at an edge is the aggregate of all rows of that bucket, and an edge
      appears exactly when some row falls in its bucket. */
  lemma {:induction false} GroupBarsExact(s: seq<Bar>, every: int, edge: int)
    requires every > 0 && Sorted(s)
    ensures InBucket(s, edge, every) != [] <==> exists b :: b in GroupBars(s, every) && b.ts == edge
    ensures forall b :: b in GroupBars(s, every) && b.ts == edge ==> b == Aggregate(InBucket(s, edge, every), every)
    decreases |s|
  {
    if s != [] {
      var n := RunLength(s, every);
      var group, rest := s[..n], s[n..];
      RunIsBucket(s, every);
      GroupBarsExact(rest, every, edge);
      GroupStep(s, every, edge);
      assert GroupBars(s, every) == [Aggregate(group, every)] + GroupBars(rest, every);
      if edge == Bucket(s[0].ts, every) {
        assert GroupBars(s, every)[0].ts == edge;
        GroupedIsAscending(s, every);
      }
    }
  }

  /** A bucket's rows are the leading run or lie behind it. */
  lemma GroupStep(s: seq<Bar>, every: int, edge: int)
    requires every > 0 && s != [] && Sorted(s)
    ensures edge == Bucket(s[0].ts, every) ==> InBucket(s, edge, every) == s[..RunLength(s, every)]
    ensures edge == Bucket(s[0].ts, every) ==> InBucket(s[RunLength(s, every)..], edge, every) == []
    ensures edge != Bucket(s[0].ts, every) ==>
      InBucket(s, edge, every) == InBucket(s[RunLength(s, every)..], edge, every)
  {
    var n := RunLength(s, every);
    var group, rest := s[..n], s[n..];
    RunIsBucket(s, every);
    assert s == group + rest;
    InBucketConcat(group, rest, edge, every);
    InBucketUniform(group, edge, every);
    if edge == Bucket(s[0].ts, every) {
      InBucketNone(rest, edge, every);
    }
  }

  lemma {:induction false} RunIsBucket(s: seq<Bar>, every: int)
    requires every > 0 && s != [] && Sorted(s)
    ensures forall i :: 0 <= i < RunLength(s, every) ==> Bucket(s[i].ts, every) == Bucket(s[0].ts, every)
    ensures forall i :: RunLength(s, every) <= i < |s| ==> Bucket(s[i].ts, every) > Bucket(s[0].ts, every)
  {
    if |s| > 1 && Bucket(s[1].ts, every) == Bucket(s[0].ts, every) {
      RunIsBucket(s[1..], every);
      var n := RunLength(s[1..], every);
      forall i | 0 <= i < |s|
        ensures i < n + 1 ==> Bucket(s[i].ts, every) == Bucket(s[0].ts, every)
        ensures i >= n + 1 ==> Bucket(s[i].ts, every) > Bucket(s[0].ts, every)
      {
        if i > 0 { assert s[i] == s[1..][i - 1]; }
      }
    } else {
      forall i | 1 <= i < |s| ensures Bucket(s[i].ts, every) > Bucket(s[0].ts, every) {
        BucketMonotone(s[0].ts, s[1].ts, every);
        BucketMonotone(s[1].ts, s[i].ts, every);
      }
    }
  }

  lemma {:induction false} InBucketConcat(a: seq<Bar>, b: seq<Bar>, edge: int, every: int)
    requires every > 0
    ensures InBucket(a + b, edge, every) == InBucket(a, edge, every) + InBucket(b, edge, every)
  {
    if a == [] {
      assert a + b == b;
    } else {
      assert (a + b)[1..] == a[1..] + b;
      InBucketConcat(a[1..], b, edge, every);
    }
  }

  lemma {:induction false} InBucketUniform(s: seq<Bar>, edge: int, every: int)
    requires every > 0 && s != [] && forall i :: 0 <= i < |s| ==> Bucket(s[i].ts, every) == Bucket(s[0].ts, every)
    ensures InBucket(s, edge, every) == if Bucket(s[0].ts, every) == edge then s else []
  {
    if |s| > 1 {
      InBucketUniform(s[1..], edge, every);
    } else {
      assert s[1..] == [];
    }
  }

  lemma {:induction false} InBucketNone(s: seq<Bar>, edge: int, every: int)
    requires every > 0 && forall i :: 0 <= i < |s| ==> Bucket(s[i].ts, every) != edge
    ensures InBucket(s, edge, every) == []
  {
    if s != [] { InBucketNone(s[1..], edge, every); }
  }

  // ---------------------------------------------------------------- conservation and shape

  lemma {:induction false} FoldVolume(s: seq<Bar>, every: int)
    requires every > 0
    ensures Volume(Fold(s, every)) == Volume(s)
  {
    if s != [] {
      FoldVolume(s[1..], every);
      var rest := Fold(s[1..], every);
      if rest != [] && rest[0].ts == Bucket(s[0].ts, every) {
        assert ([Merge(Relabel(s[0], every), rest[0])] + rest[1..])[1..] == rest[1..];
      } else {
        assert ([Relabel(s[0], every)] + rest)[1..] == rest;
      }
    }
  }

  lemma {:induction false} VolumeInsert(x: Bar, s: seq<Bar>)
    ensures Volume(Insert(x, s)) == x.volume + Volume(s)
  {
    if s == [] || x.ts <= s[0].ts {
      assert ([x] + s)[1..] == s;
    } else {
      VolumeInsert(x, s[1..]);
      assert ([s[0]] + Insert(x, s[1..]))[1..] == Insert(x, s[1..]);
    }
  }

  lemma {:induction false} VolumeSort(s: seq<Bar>)
    ensures Volume(SortByTime(s)) == Volume(s)
  {
    if s != [] {
      VolumeSort(s[1..]);
      VolumeInsert(s[0], SortByTime(s[1..]));
    }
  }

  /** No volume is created or lost. */
  lemma ResamplingConservesVolume(bars: seq<Bar>, every: int)
    requires every > 0
    ensures Volume(BarsToBars(bars, every)) == Volume(bars)
  {
    VolumeSort(bars);
    GroupIsFold(SortByTime(bars), every);
    FoldVolume(SortByTime(bars), every);
  }

  lemma {:induction false} TickVolume(ticks: seq<Tick>, every: int)
    requires every > 0
    ensures Volume(TicksToBars(ticks, every)) == |ticks| as real
  {
    TicksAreUnitBars(ticks, every);
    ResamplingConservesVolume(TickBars(ticks), every);
    CountTicks(ticks);
  }

  lemma {:induction false} CountTicks(ticks: seq<Tick>)
    ensures Volume(TickBars(ticks)) == |ticks| as real
  {
    if ticks != [] {
      CountTicks(ticks[1..]);
      assert ([TickBar(ticks[0])] + TickBars(ticks[1..]))[1..] == TickBars(ticks[1..]);
    }
  }

  /** low <= open, close <= high */
  predicate WellShaped(b: Bar) {
    b.low <= b.open <= b.high && b.low <= b.close <= b.high
  }

  lemma {:induction false} FoldWellShaped(s: seq<Bar>, every: int)
    requires every > 0 && forall b :: b in s ==> WellShaped(b)
    ensures forall b :: b in Fold(s, every) ==> WellShaped(b)
  {
    if s != [] {
      FoldWellShaped(s[1..], every);
      var rest := Fold(s[1..], every);
      assert rest != [] ==> rest[0] in rest;
      assert s[0] in s;
    }
  }

  lemma ResamplingKeepsShape(bars: seq<Bar>, every: int)
    requires every > 0 && forall b :: b in bars ==> WellShaped(b)
    ensures forall b :: b in BarsToBars(bars, every) ==> WellShaped(b)
  {
    SortElements(bars);
    GroupIsFold(SortByTime(bars), every);
    FoldWellShaped(SortByTime(bars), every);
  }

  /** Bars made from ticks are well shaped whatever the quotes. */
  lemma {:induction false} TickBarsWellShaped(ticks: seq<Tick>, every: int)
    requires every > 0
    ensures forall b :: b in TicksToBars(ticks, every) ==> WellShaped(b)
  {
    TicksAreUnitBars(ticks, every);
    EveryTickBarWellShaped(ticks);
    ResamplingKeepsShape(TickBars(ticks), every);
  }

  lemma {:induction false} EveryTickBarWellShaped(ticks: seq<Tick>)
    ensures forall b :: b in TickBars(ticks) ==> WellShaped(b)
  {
    if ticks != [] { EveryTickBarWellShaped(ticks[1..]); }
  }
}

/** Clock time against bars: the two time stops, and what a poll reads when it comes off a bar boundary. */
module Clock {
  import opened Prelude
  import opened Bars
  import opened Features
  import opened LiveLoop
  import opened Records

  // ---------------------------------------------------------------- the two time stops

  /** Bars lie on the grid of their timeframe; some may be missing. */
  predicate OnGrid(bars: seq<Bar>, seconds: int)
    requires seconds > 0
  {
    && Ascending(bars)
    && forall i :: 0 <= i < |bars| ==> (bars[i].ts - bars[0].ts) % seconds == 0
  }

  /** A stop of n bars for a trade opened on bar o, looked at on bar i: counted in bars, and by the clock. */
  predicate IndexStop(o: int, i: int, n: int) {
    i - o >= n
  }

  predicate ClockStop(bars: seq<Bar>, seconds: int, o: int, i: int, n: int)
    requires 0 <= o < |bars| && 0 <= i < |bars|
  {
    bars[i].ts + seconds >= bars[o].ts + seconds + seconds * n
  }

  ghost predicate StopsAgree(bars: seq<Bar>, seconds: int) {
    forall o, i, n {:trigger ClockStop(bars, seconds, o, i, n)} :: 0 <= o <= i < |bars| && n > 0 ==>
      (ClockStop(bars, seconds, o, i, n) <==> IndexStop(o, i, n))
  }

  lemma {:induction false} GridSteps(bars: seq<Bar>, seconds: int, o: nat, i: nat)
    requires seconds > 0 && OnGrid(bars, seconds) && o <= i < |bars|
    ensures bars[i].ts - bars[o].ts >= (i - o) * seconds
  {
    if o < i {
      GridSteps(bars, seconds, o, i - 1);
      NextOnGrid(bars, seconds, i - 1);
      assert (i - o) * seconds == (i - 1 - o) * seconds + seconds;
    }
  }

  lemma NextOnGrid(bars: seq<Bar>, seconds: int, i: nat)
    requires seconds > 0 && OnGrid(bars, seconds) && i + 1 < |bars|
    ensures bars[i + 1].ts - bars[i].ts >= seconds
    ensures bars[i + 1].ts - bars[i].ts == seconds || bars[i + 1].ts - bars[i].ts >= 2 * seconds
  {
    var a, b := bars[i].ts - bars[0].ts, bars[i + 1].ts - bars[0].ts;
    var p, q := a / seconds, b / seconds;
    assert a == p * seconds + a % seconds && b == q * seconds + b % seconds;
    assert a % seconds == 0 && b % seconds == 0;
    if q <= p {
      StepUpWeak(q, p, seconds);
    } else if q > p + 1 {
      StepUpWeak(p + 2, q, seconds);
      assert (p + 2) * seconds == p * seconds + 2 * seconds;
    } else {
      assert (p + 1) * seconds == p * seconds + seconds;
    }
  }

  /** Gaps or not, a clock stop fires no later than the index stop. */
  lemma ClockFiresNoLater(bars: seq<Bar>, seconds: int, o: nat, i: nat, n: int)
    requires seconds > 0 && OnGrid(bars, seconds) && o <= i < |bars| && IndexStop(o, i, n)
    ensures ClockStop(bars, seconds, o, i, n)
  {
    GridSteps(bars, seconds, o, i);
    StepUpWeak(n, i - o, seconds);
  }

  /** The two stops fire on the same bars, for every trade and every bar limit, exactly on gap-free bars. */
  lemma StopsAgreeIffGapFree(bars: seq<Bar>, seconds: int)
    requires seconds > 0 && OnGrid(bars, seconds)
    ensures StopsAgree(bars, seconds) <==> GapFree(bars, seconds)
  {
    if GapFree(bars, seconds) {
      GapFreeStops(bars, seconds);
    } else {
      var i := FirstGap(bars, seconds);
      NextOnGrid(bars, seconds, i);
      assert ClockStop(bars, seconds, i, i + 1, 2) && !IndexStop(i, i + 1, 2);
    }
  }

  lemma GapFreeStops(bars: seq<Bar>, seconds: int)
    requires seconds > 0 && GapFree(bars, seconds)
    ensures StopsAgree(bars, seconds)
  {
    forall o, i, n {:trigger ClockStop(bars, seconds, o, i, n)} | 0 <= o <= i < |bars| && n > 0
      ensures ClockStop(bars, seconds, o, i, n) <==> IndexStop(o, i, n)
    {
      StopAt(bars[0].ts, seconds, o, i, n);
    }
  }

  /** On a grid the clock counts bars. */
  lemma StopAt(first: int, seconds: int, o: int, i: int, n: int)
    requires seconds > 0
    ensures (first + i * seconds) + seconds >= (first + o * seconds) + seconds + seconds * n <==> i - o >= n
  {
    assert (i - o) * seconds == i * seconds - o * seconds;
    if i - o >= n { StepUpWeak(n, i - o, seconds); } else { StepUp(i - o, n, seconds); }
  }

  lemma FirstGap(bars: seq<Bar>, seconds: int) returns (i: nat)
    requires seconds > 0 && OnGrid(bars, seconds) && !GapFree(bars, seconds)
    ensures i + 1 < |bars| && bars[i + 1].ts - bars[i].ts != seconds
  {
    i := 0;
    var bad :| 0 <= bad < |bars| && bars[bad].ts != bars[0].ts + bad * seconds;
    while i + 1 < |bars| && bars[i + 1].ts - bars[i].ts == seconds
      invariant i < |bars|
      invariant bars[i].ts == bars[0].ts + i * seconds
      invariant i < bad
    {
      assert (i + 1) * seconds == i * seconds + seconds;
      i := i + 1;
    }
  }

  // ---------------------------------------------------------------- polls off the bar boundary

  /** How many bars of a gap-free series have opened before `now`. */
  lemma OpenedBefore(bars: seq<Bar>, seconds: int, now: int) returns (k: nat)
    requires seconds > 0 && bars != [] && GapFree(bars, seconds)
    requires bars[0].ts < now <= bars[|bars| - 1].ts + seconds
    ensures 0 < k <= |bars| && CountBefore(bars, now) == k
    ensures bars[k - 1].ts < now <= bars[k - 1].ts + seconds
  {
    GapFreeAscends(bars, seconds);
    CountBeforeSplits(bars, now);
    k := CountBefore(bars, now);
    assert bars[k - 1].ts < now;
    if k < |bars| {
      assert bars[k].ts >= now;
      NextOpen(bars, seconds, k);
    }
  }

  lemma NextOpen(bars: seq<Bar>, seconds: int, k: nat)
    requires GapFree(bars, seconds) && 0 < k < |bars|
    ensures bars[k].ts == bars[k - 1].ts + seconds
  {
    assert k * seconds == (k - 1) * seconds + seconds;
  }

  lemma BoundaryRemainder(first: int, seconds: int, i: nat, now: int)
    requires seconds > 0 && first + i * seconds < now <= first + i * seconds + seconds
    ensures (now - first) % seconds == 0 <==> now == first + i * seconds + seconds
  {
    var r := now - first - i * seconds;
    assert (now - first) == i * seconds + r;
    if r == seconds {
      assert (i + 1) * seconds == i * seconds + seconds;
      DivModUnique(now - first, seconds, i + 1, 0);
    } else {
      DivModUnique(now - first, seconds, i, r);
    }
  }

  /** A poll at any moment reads bars up to the last one that has opened. */
  lemma ReadUpToNow(c: Config, bars: seq<Bar>, now: int) returns (lo: nat, k: nat)
    requires ValidConfig(c) && bars != [] && GapFree(bars, c.seconds)
    requires bars[0].ts < now <= bars[|bars| - 1].ts + c.seconds
    ensures Keyed(BarMap(bars)) && lo < k <= |bars| && BarsRead(c, BarMap(bars), now) == bars[lo..k]
    ensures bars[k - 1].ts < now <= bars[k - 1].ts + c.seconds
  {
    hide ReadTable, Between, BarMap, CountBefore, GapFree, Sorted;
    SortedSeries(bars, c.seconds);
    ReadTableOfSeries(bars, now - Window(c), now);
    k := OpenedBefore(bars, c.seconds, now);
    lo := CountBefore(bars, now - Window(c));
    WindowIsWide(c);
    BetweenOfSorted(bars, now - Window(c), now);
    CountBeforeSplits(bars, now - Window(c));
  }

  lemma SortedSeries(bars: seq<Bar>, seconds: int)
    requires seconds > 0 && GapFree(bars, seconds)
    ensures Ascending(bars) && Sorted(bars)
  {
    GapFreeAscends(bars, seconds);
  }

  /** The last bar a poll reads, the one positions are managed on, has closed exactly when the poll comes
      on a bar boundary; at any other moment it is a bar still forming. */
  lemma LastBarReadHasClosedIffAligned(c: Config, bars: seq<Bar>, now: int)
    requires ValidConfig(c) && bars != [] && GapFree(bars, c.seconds)
    requires bars[0].ts < now <= bars[|bars| - 1].ts + c.seconds
    ensures Keyed(BarMap(bars)) && BarsRead(c, BarMap(bars), now) != []
    ensures var r := BarsRead(c, BarMap(bars), now);
      r[|r| - 1].ts + c.seconds <= now <==> (now - bars[0].ts) % c.seconds == 0
  {
    hide ReadTable, BarMap;
    var lo, k := ReadUpToNow(c, bars, now);
    BoundaryRemainder(bars[0].ts, c.seconds, k - 1, now);
  }

  lemma WindowIsWide(c: Config)
    requires ValidConfig(c)
    ensures Window(c) >= c.seconds
  {
    StepUpWeak(1, c.historyWindowBars + 5, c.seconds);
  }
}

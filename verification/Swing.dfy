/** Swing highs and lows by fractal confirmation: the latest bar whose high strictly exceeds that of
    every other bar within `confirm` bars on both sides, all of them already closed. */
module Swing {
  import opened Prelude
  import opened Bars

  function Highs(bars: seq<Bar>): (h: seq<real>)
    ensures |h| == |bars|
    ensures forall i :: 0 <= i < |bars| ==> h[i] == bars[i].high
  {
    seq(|bars|, i requires 0 <= i < |bars| => bars[i].high)
  }

  function Lows(bars: seq<Bar>): (l: seq<real>)
    ensures |l| == |bars|
    ensures forall i :: 0 <= i < |bars| ==> l[i] == bars[i].low
  {
    seq(|bars|, i requires 0 <= i < |bars| => bars[i].low)
  }

  /** A trough of a series is a peak of its mirror image. */
  function Mirror(s: seq<real>): (m: seq<real>)
    ensures |m| == |s|
    ensures forall i :: 0 <= i < |s| ==> m[i] == -s[i]
  {
    seq(|s|, i requires 0 <= i < |s| => -s[i])
  }

  predicate Below(h: seq<real>, j: int, i: int)
    requires 0 <= j < |h| && 0 <= i < |h|
  {
    h[j] < h[i]
  }

  /** Confirmed on both sides, and strictly above every neighbour. */
  predicate IsPeak(h: seq<real>, c: nat, i: int) {
    && c <= i < |h| - c
    && forall j :: i - c <= j <= i + c && j != i ==> Below(h, j, i)
  }

  /** The largest peak index not above i. */
  function LatestPeak(h: seq<real>, c: nat, i: int): Option<int>
    decreases i + 1 - c
  {
    if i < c then None else if IsPeak(h, c, i) then Some(i) else LatestPeak(h, c, i - 1)
  }

  lemma {:induction false} LatestPeakIsLargest(h: seq<real>, c: nat, i: int)
    ensures LatestPeak(h, c, i).Some? ==>
      var p := LatestPeak(h, c, i).value;
      p <= i && IsPeak(h, c, p) && forall q :: p < q <= i ==> !IsPeak(h, c, q)
    ensures LatestPeak(h, c, i).None? ==> forall q :: q <= i ==> !IsPeak(h, c, q)
    decreases i + 1 - c
  {
    if i < c || IsPeak(h, c, i) {
    } else {
      LatestPeakIsLargest(h, c, i - 1);
    }
  }

  // ---------------------------------------------------------------- the scan

  function MaxOf(s: seq<real>): real
    requires s != []
  {
    if |s| == 1 then s[0] else Max(MaxOf(s[..|s| - 1]), s[|s| - 1])
  }

  function MinOf(s: seq<real>): real
    requires s != []
  {
    if |s| == 1 then s[0] else Min(MinOf(s[..|s| - 1]), s[|s| - 1])
  }

  function Count(s: seq<real>, v: real): nat {
    if s == [] then 0 else Count(s[..|s| - 1], v) + if s[|s| - 1] == v then 1 else 0
  }

  lemma {:induction false} MaxOfBounds(s: seq<real>)
    requires s != []
    ensures MaxOf(s) in s && forall x :: x in s ==> x <= MaxOf(s)
  {
    if |s| > 1 {
      MaxOfBounds(s[..|s| - 1]);
      assert s == s[..|s| - 1] + [s[|s| - 1]];
    }
  }

  lemma {:induction false} MinOfMirror(s: seq<real>)
    requires s != []
    ensures MinOf(s) == -MaxOf(Mirror(s))
  {
    if |s| > 1 {
      MinOfMirror(s[..|s| - 1]);
      assert Mirror(s)[..|s| - 1] == Mirror(s[..|s| - 1]);
    }
  }

  lemma {:induction false} CountMirror(s: seq<real>, v: real)
    ensures Count(Mirror(s), -v) == Count(s, v)
  {
    if s != [] {
      CountMirror(s[..|s| - 1], v);
      assert Mirror(s)[..|s| - 1] == Mirror(s[..|s| - 1]);
    }
  }

  lemma {:induction false} CountOne(s: seq<real>, k: int)
    requires 0 <= k < |s|
    ensures Count(s, s[k]) >= 1
    ensures Count(s, s[k]) == 1 <==> forall j :: 0 <= j < |s| && j != k ==> s[j] != s[k]
    decreases |s|
  {
    var init, last := s[..|s| - 1], s[|s| - 1];
    if k == |s| - 1 {
      CountZero(init, last);
      assert (forall j :: 0 <= j < |init| ==> init[j] != last) <==>
        (forall j :: 0 <= j < |s| && j != k ==> s[j] != s[k]) by {
        if j :| 0 <= j < |init| && init[j] == last { assert s[j] == s[k]; }
      }
    } else {
      CountOne(init, k);
      assert init[k] == s[k];
      assert (forall j :: 0 <= j < |init| && j != k ==> init[j] != s[k]) && last != s[k] <==>
             (forall j :: 0 <= j < |s| && j != k ==> s[j] != s[k]) by {
        if j :| 0 <= j < |init| && j != k && init[j] == s[k] { assert s[j] == s[k]; }
      }
    }
  }

  lemma {:induction false} CountZero(s: seq<real>, v: real)
    ensures Count(s, v) == 0 <==> forall j :: 0 <= j < |s| ==> s[j] != v
  {
    if s != [] {
      CountZero(s[..|s| - 1], v);
      assert s == s[..|s| - 1] + [s[|s| - 1]];
    }
  }

  /** "Equal to the window's maximum, which occurs once" is being a peak. */
  lemma PeakTest(h: seq<real>, c: nat, i: int)
    requires c <= i < |h| - c
    ensures IsPeak(h, c, i) <==>
      var w := h[i - c..i + c + 1];
      h[i] == MaxOf(w) && Count(w, h[i]) == 1
  {
    var w := h[i - c..i + c + 1];
    assert w[c] == h[i];
    MaxOfBounds(w);
    CountOne(w, c);
    if IsPeak(h, c, i) {
      forall j | 0 <= j < |w| && j != c ensures w[j] < w[c] {
        assert w[j] == h[i - c + j];
        assert Below(h, i - c + j, i);
      }
      var m :| 0 <= m < |w| && w[m] == MaxOf(w);
      assert w[c] in w;
      assert m == c;
    } else {
      var j :| i - c <= j <= i + c && j != i && !Below(h, j, i);
      assert w[j - (i - c)] == h[j];
      assert w[j - (i - c)] in w;
    }
  }

  lemma TroughTest(l: seq<real>, c: nat, i: int)
    requires c <= i < |l| - c
    ensures IsPeak(Mirror(l), c, i) <==>
      var w := l[i - c..i + c + 1];
      l[i] == MinOf(w) && Count(w, l[i]) == 1
  {
    var w := l[i - c..i + c + 1];
    PeakTest(Mirror(l), c, i);
    assert Mirror(l)[i - c..i + c + 1] == Mirror(w);
    MinOfMirror(w);
    CountMirror(w, l[i]);
  }

  /** The value at the latest peak not above i. */
  function PeakValue(h: seq<real>, c: nat, i: int): Option<real>
    decreases i + 1 - c
  {
    if i < c || i >= |h| then None else if IsPeak(h, c, i) then Some(h[i]) else PeakValue(h, c, i - 1)
  }

  /** The value at the latest trough not above i. */
  function TroughValue(l: seq<real>, c: nat, i: int): Option<real>
    decreases i + 1 - c
  {
    if i < c || i >= |l| then None else if IsPeak(Mirror(l), c, i) then Some(l[i]) else TroughValue(l, c, i - 1)
  }

  function ValueAt(s: seq<real>, i: Option<int>): Option<real> {
    if i.Some? && 0 <= i.value < |s| then Some(s[i.value]) else None
  }

  /** The latest confirmed swings of a whole window. */
  function SwingHigh(bars: seq<Bar>, c: nat): Option<real> {
    ValueAt(Highs(bars), LatestPeak(Highs(bars), c, |bars| - c - 1))
  }

  function SwingLow(bars: seq<Bar>, c: nat): Option<real> {
    ValueAt(Lows(bars), LatestPeak(Mirror(Lows(bars)), c, |bars| - c - 1))
  }

  /** One backward pass over the last `window` bars fills in both swings and stops once it has both. */
  method Compute(bars: seq<Bar>, confirm: nat, window: nat) returns (swingHigh: Option<real>, swingLow: Option<real>)
    ensures |bars| < 2 * confirm + 1 ==> swingHigh == None && swingLow == None
    ensures |bars| >= 2 * confirm + 1 ==>
      swingHigh == SwingHigh(Tail(bars, window), confirm) && swingLow == SwingLow(Tail(bars, window), confirm)
  {
    swingHigh, swingLow := None, None;
    if |bars| < 2 * confirm + 1 {
      return;
    }
    var recent := Tail(bars, window);
    swingHigh, swingLow := Scan(Highs(recent), Lows(recent), confirm);
    PeakValueAtIndex(Highs(recent), confirm, |recent| - confirm - 1);
    TroughValueAtIndex(Lows(recent), confirm, |recent| - confirm - 1);
  }

  method Scan(highs: seq<real>, lows: seq<real>, c: nat) returns (swingHigh: Option<real>, swingLow: Option<real>)
    requires |highs| == |lows|
    ensures swingHigh == PeakValue(highs, c, |highs| - c - 1)
    ensures swingLow == TroughValue(lows, c, |lows| - c - 1)
  {
    swingHigh, swingLow := None, None;
    var i := |highs| - c - 1;
    while i >= c && !(swingHigh.Some? && swingLow.Some?)
      invariant i <= |highs| - c - 1
      invariant PeakValue(highs, c, |highs| - c - 1) == if swingHigh.None? then PeakValue(highs, c, i) else swingHigh
      invariant TroughValue(lows, c, |lows| - c - 1) == if swingLow.None? then TroughValue(lows, c, i) else swingLow
      decreases i
    {
      if swingHigh.None? {
        PeakTest(highs, c, i);
        var windowHighs := highs[i - c..i + c + 1];
        if highs[i] == MaxOf(windowHighs) && Count(windowHighs, highs[i]) == 1 {
          swingHigh := Some(highs[i]);
        }
      }
      if swingLow.None? {
        TroughTest(lows, c, i);
        var windowLows := lows[i - c..i + c + 1];
        if lows[i] == MinOf(windowLows) && Count(windowLows, lows[i]) == 1 {
          swingLow := Some(lows[i]);
        }
      }
      i := i - 1;
    }
  }

  lemma {:induction false} PeakValueAtIndex(h: seq<real>, c: nat, i: int)
    requires i < |h|
    ensures LatestPeak(h, c, i).Some? ==> 0 <= LatestPeak(h, c, i).value <= i
    ensures PeakValue(h, c, i) == ValueAt(h, LatestPeak(h, c, i))
    decreases i + 1 - c
  {
    if i < c || IsPeak(h, c, i) {
    } else {
      PeakValueAtIndex(h, c, i - 1);
    }
  }

  lemma {:induction false} TroughValueAtIndex(l: seq<real>, c: nat, i: int)
    requires i < |l|
    ensures LatestPeak(Mirror(l), c, i).Some? ==> 0 <= LatestPeak(Mirror(l), c, i).value <= i
    ensures TroughValue(l, c, i) == ValueAt(l, LatestPeak(Mirror(l), c, i))
    decreases i + 1 - c
  {
    if i < c || IsPeak(Mirror(l), c, i) {
    } else {
      TroughValueAtIndex(l, c, i - 1);
    }
  }

  // ---------------------------------------------------------------- one more bar

  /** The latest swing of the last `window` entries of a whole history, as an index into it. */
  function SwingIndex(h: seq<real>, c: nat, window: nat): Option<int> {
    var start := MaxInt(|h| - window, 0);
    match LatestPeak(Tail(h, window), c, |h| - start - c - 1)
    case Some(i) => Some(start + i)
    case None => None
  }

  /** Largest index in the window that is confirmed and strictly unique, or none. */
  ghost predicate IsSwingIndex(h: seq<real>, c: nat, window: nat, r: Option<int>) {
    var start := MaxInt(|h| - window, 0);
    && (r.Some? ==> start + c <= r.value && IsPeak(h, c, r.value) && forall q :: q > r.value ==> !IsPeak(h, c, q))
    && (r.None? ==> forall q :: q >= start + c ==> !IsPeak(h, c, q))
  }

  lemma PeakOfTail(h: seq<real>, c: nat, window: nat, i: int)
    requires c <= i
    ensures IsPeak(Tail(h, window), c, i) <==> IsPeak(h, c, i + MaxInt(|h| - window, 0))
  {
    var start := MaxInt(|h| - window, 0);
    var t := Tail(h, window);
    assert t == h[start..];
    if IsPeak(t, c, i) {
      var k := i + start;
      forall j | k - c <= j <= k + c && j != k ensures Below(h, j, k) {
        assert Below(t, j - start, i);
      }
    }
    if IsPeak(h, c, i + start) {
      forall j | i - c <= j <= i + c && j != i ensures Below(t, j, i) {
        assert Below(h, j + start, i + start);
      }
    }
  }

  /** The scan result is the latest confirmed fractal of the window. */
  lemma SwingIndexExact(h: seq<real>, c: nat, window: nat)
    ensures IsSwingIndex(h, c, window, SwingIndex(h, c, window))
  {
    var start := MaxInt(|h| - window, 0);
    var t := Tail(h, window);
    var top := |h| - start - c - 1;
    LatestPeakIsLargest(t, c, top);
    var found := LatestPeak(t, c, top);
    if found.Some? {
      PeakOfTail(h, c, window, found.value);
    }
    forall q | q >= start + c && (found.None? || q > start + found.value) ensures !IsPeak(h, c, q) {
      if q - start <= top {
        assert !IsPeak(t, c, q - start);
        PeakOfTail(h, c, window, q - start);
      }
    }
  }

  lemma SwingIndexUnique(h: seq<real>, c: nat, window: nat, a: Option<int>, b: Option<int>)
    requires IsSwingIndex(h, c, window, a) && IsSwingIndex(h, c, window, b)
    ensures a == b
  {
  }

  /** Appending one bar confirms the candidate `c` bars back, or keeps the swing, or forgets it
      exactly when its neighbourhood slid out of the window. */
  lemma AppendOneBar(h: seq<real>, x: real, c: nat, window: nat)
    ensures SwingIndex(h + [x], c, window) ==
      var g := h + [x];
      var start := MaxInt(|g| - window, 0);
      var newest := |h| - c;
      if newest >= start + c && IsPeak(g, c, newest) then Some(newest)
      else match SwingIndex(h, c, window)
           case Some(i) => if i >= start + c then Some(i) else None
           case None => None
  {
    var g := h + [x];
    var start := MaxInt(|g| - window, 0);
    var newest := |h| - c;
    SwingIndexExact(h, c, window);
    SwingIndexExact(g, c, window);
    var earlier := SwingIndex(h, c, window);
    var r := if newest >= start + c && IsPeak(g, c, newest) then Some(newest)
             else if earlier.Some? && earlier.value >= start + c then earlier else None;
    AppendedIsSwingIndex(h, x, c, window, earlier, r);
    SwingIndexUnique(g, c, window, r, SwingIndex(g, c, window));
  }

  lemma AppendedIsSwingIndex(h: seq<real>, x: real, c: nat, window: nat, earlier: Option<int>, r: Option<int>)
    requires IsSwingIndex(h, c, window, earlier)
    requires var start := MaxInt(|h| + 1 - window, 0);
      r == if |h| - c >= start + c && IsPeak(h + [x], c, |h| - c) then Some(|h| - c)
           else if earlier.Some? && earlier.value >= start + c then earlier else None
    ensures IsSwingIndex(h + [x], c, window, r)
  {
    var g := h + [x];
    forall q | q < |h| - c ensures IsPeak(g, c, q) <==> IsPeak(h, c, q) {
      OldPeaks(h, x, c, q);
    }
  }

  lemma OldPeaks(h: seq<real>, x: real, c: nat, q: int)
    requires q < |h| - c
    ensures IsPeak(h + [x], c, q) <==> IsPeak(h, c, q)
  {
    var g := h + [x];
    if IsPeak(g, c, q) {
      forall j | q - c <= j <= q + c && j != q ensures Below(h, j, q) { assert Below(g, j, q); }
    }
    if IsPeak(h, c, q) {
      forall j | q - c <= j <= q + c && j != q ensures Below(g, j, q) { assert Below(h, j, q); }
    }
  }

  lemma TailAt<T>(s: seq<T>, n: nat, i: int)
    ensures |Tail(s, n)| == |s| - MaxInt(|s| - n, 0)
    ensures 0 <= i < |Tail(s, n)| ==> Tail(s, n)[i] == s[MaxInt(|s| - n, 0) + i]
  {
  }

  lemma TailOfMirror(l: seq<real>, window: nat)
    ensures Mirror(Tail(l, window)) == Tail(Mirror(l), window)
  {
  }

  lemma TailOfHighs(bars: seq<Bar>, window: nat)
    ensures Highs(Tail(bars, window)) == Tail(Highs(bars), window)
  {
  }

  lemma TailOfLows(bars: seq<Bar>, window: nat)
    ensures Lows(Tail(bars, window)) == Tail(Lows(bars), window)
  {
  }

  lemma {:induction false} LatestPeakInRange(h: seq<real>, c: nat, i: int)
    ensures LatestPeak(h, c, i).Some? ==> 0 <= LatestPeak(h, c, i).value <= i && LatestPeak(h, c, i).value < |h|
    decreases i + 1 - c
  {
    if i < c || IsPeak(h, c, i) {
    } else {
      LatestPeakInRange(h, c, i - 1);
    }
  }

  lemma ValueOfTail(s: seq<real>, h: seq<real>, c: nat, window: nat, k: int)
    requires |s| == |h| && |h| - MaxInt(|h| - window, 0) == k
    ensures ValueAt(Tail(s, window), LatestPeak(Tail(h, window), c, k - c - 1)) == ValueAt(s, SwingIndex(h, c, window))
  {
    hide LatestPeak;
    LatestPeakInRange(Tail(h, window), c, k - c - 1);
    ShiftedValue(s, window, LatestPeak(Tail(h, window), c, k - c - 1));
  }

  lemma SwingHighOfTail(bars: seq<Bar>, c: nat, window: nat)
    ensures SwingHigh(Tail(bars, window), c) ==
      ValueAt(Tail(Highs(bars), window), LatestPeak(Tail(Highs(bars), window), c, |Tail(bars, window)| - c - 1))
  {
    TailOfHighs(bars, window);
  }

  lemma SwingLowOfTail(bars: seq<Bar>, c: nat, window: nat)
    ensures SwingLow(Tail(bars, window), c) ==
      ValueAt(Tail(Lows(bars), window), LatestPeak(Tail(Mirror(Lows(bars)), window), c, |Tail(bars, window)| - c - 1))
  {
    TailOfLows(bars, window);
    TailOfMirror(Lows(bars), window);
  }

  /** The reported swings are the high and the low of the bars at the swing indices. */
  lemma SwingHighAtIndex(bars: seq<Bar>, c: nat, window: nat)
    ensures SwingHigh(Tail(bars, window), c) == ValueAt(Highs(bars), SwingIndex(Highs(bars), c, window))
  {
    SwingHighOfTail(bars, c, window);
    TailAt(bars, window, 0);
    ValueOfTail(Highs(bars), Highs(bars), c, window, |Tail(bars, window)|);
  }

  lemma SwingLowAtIndex(bars: seq<Bar>, c: nat, window: nat)
    ensures SwingLow(Tail(bars, window), c) == ValueAt(Lows(bars), SwingIndex(Mirror(Lows(bars)), c, window))
  {
    SwingLowOfTail(bars, c, window);
    TailAt(bars, window, 0);
    ValueOfTail(Lows(bars), Mirror(Lows(bars)), c, window, |Tail(bars, window)|);
  }

  lemma ShiftedValue(h: seq<real>, window: nat, i: Option<int>)
    requires i.Some? ==> 0 <= i.value < |Tail(h, window)|
    ensures ValueAt(Tail(h, window), i) ==
      ValueAt(h, if i.Some? then Some(MaxInt(|h| - window, 0) + i.value) else None)
  {
    if i.Some? { TailAt(h, window, i.value); }
  }
}

/** Which rows validation keeps and what each issue says, in terms of the batch as it came. */
module ValidationMeaning {
  import opened Bars
  import opened Validation
  import ResampleColumns

  // ---------------------------------------------------------------- of repeated rows the first

  /** The first row of the batch with its timestamp. */
  ghost predicate FirstAt(df: seq<Bar>, i: int) {
    0 <= i < |df| && forall j :: 0 <= j < i ==> df[j].ts != df[i].ts
  }

  ghost predicate FirstOfItsTime(df: seq<Bar>, b: Bar) {
    exists i :: 0 <= i < |df| && df[i] == b && FirstAt(df, i)
  }

  lemma {:induction false} KeepFirstIs(s: seq<Bar>)
    ensures forall b :: b in KeepFirst(s) <==> FirstOfItsTime(s, b)
  {
    if s != [] {
      var init, n := s[..|s| - 1], |s| - 1;
      KeepFirstIs(init);
      forall b ensures b in KeepFirst(s) <==> FirstOfItsTime(s, b) {
        FirstGrows(s, b);
      }
    }
  }

  lemma FirstGrows(s: seq<Bar>, b: Bar)
    requires s != []
    ensures var init, last := s[..|s| - 1], s[|s| - 1];
      FirstOfItsTime(s, b) <==> FirstOfItsTime(init, b) || (b == last && !HasTime(init, last.ts))
  {
    var init, n := s[..|s| - 1], |s| - 1;
    assert forall i :: 0 <= i < n ==> init[i] == s[i];
    if i :| 0 <= i < n && init[i] == b && FirstAt(init, i) { assert FirstAt(s, i) && s[i] == b; }
    if b == s[n] && !HasTime(init, b.ts) { assert FirstAt(s, n); }
    if i :| 0 <= i < |s| && s[i] == b && FirstAt(s, i) {
      if i < n {
        assert FirstAt(init, i) && init[i] == b;
      } else {
        assert forall j :: 0 <= j < n ==> init[j].ts != b.ts;
      }
    }
  }

  /** The first row of a time in the sorted batch is the first in the batch as it came. */
  lemma FirstAfterSorting(df: seq<Bar>, b: Bar)
    ensures FirstOfItsTime(SortByTime(df), b) <==> FirstOfItsTime(df, b)
  {
    hide SortByTime, ResampleColumns.InOrder;
    if FirstOfItsTime(SortByTime(df), b) {
      HeadOfTime(df, b);
    }
    if FirstOfItsTime(df, b) {
      var s := SortByTime(df);
      SortElements(df);
      assert b in s;
      var c := FirstOf(s, b);
      HeadOfTime(df, c);
      OneFirst(df, b, c);
    }
  }

  lemma {:induction false} FirstOf(s: seq<Bar>, b: Bar) returns (c: Bar)
    requires b in s
    ensures FirstOfItsTime(s, c) && c.ts == b.ts
  {
    var k :| 0 <= k < |s| && s[k] == b;
    var i := FirstIndex(s, b.ts, k);
    c := s[i];
  }

  lemma {:induction false} FirstIndex(s: seq<Bar>, t: int, k: nat) returns (i: nat)
    requires k < |s| && s[k].ts == t
    ensures i <= k && s[i].ts == t && FirstAt(s, i)
  {
    if FirstAt(s, k) {
      i := k;
    } else {
      var j :| 0 <= j < k && s[j].ts == t;
      i := FirstIndex(s, t, j);
    }
  }

  lemma OneFirst(df: seq<Bar>, b: Bar, c: Bar)
    requires FirstOfItsTime(df, b) && FirstOfItsTime(df, c) && b.ts == c.ts
    ensures b == c
  {
    var i :| 0 <= i < |df| && df[i] == b && FirstAt(df, i);
    var j :| 0 <= j < |df| && df[j] == c && FirstAt(df, j);
    assert i < j || j < i || i == j;
  }

  lemma HeadOfTime(df: seq<Bar>, b: Bar)
    requires FirstOfItsTime(SortByTime(df), b)
    ensures FirstOfItsTime(df, b)
  {
    hide SortByTime;
    var s := SortByTime(df);
    SortSorts(df);
    var k :| 0 <= k < |s| && s[k] == b && FirstAt(s, k);
    BetweenOfSorted(s, b.ts, b.ts + 1);
    CountBeforeSplits(s, b.ts);
    CountBeforeSplits(s, b.ts + 1);
    var lo, hi := CountBefore(s, b.ts), CountBefore(s, b.ts + 1);
    assert lo <= k < hi;
    assert s[lo].ts == b.ts;
    assert lo == k;
    assert ResampleColumns.InOrder(df, b.ts, 1)[0] == b;
    var i, _ := ResampleColumns.EndsOfBucket(df, b.ts, 1);
    assert df[i] == b && FirstAt(df, i);
  }

  // ---------------------------------------------------------------- what survives

  /** The frame the spike test sees: in time order, the first row of each timestamp, where its ask exceeds its bid. */
  lemma SpreadExactly(df: seq<Bar>)
    ensures Ascending(Spread(df))
    ensures forall b :: b in Spread(df) <==> FirstOfItsTime(df, b) && b.ask > b.bid
  {
    hide SortByTime, KeepFirst, GoodSpreads;
    var sorted := SortByTime(df);
    UniqueIsAscending(df);
    GoodSpreadsKeeps(Unique(df));
    KeepFirstIs(sorted);
    SortElements(KeepFirst(sorted));
    forall b ensures b in Spread(df) <==> FirstOfItsTime(df, b) && b.ask > b.bid {
      FirstAfterSorting(df, b);
    }
  }

  /** Row k of that frame is a spike. */
  predicate Spiked(frame: seq<Bar>, spike: SpikeTest, k: int) {
    |frame| > 2 && spike(frame, k)
  }

  /** What validation returns, exactly: the rows of that frame that are no spikes, in time order. */
  lemma CleanExactly(df: seq<Bar>, spike: SpikeTest)
    ensures Ascending(Clean(df, spike))
    ensures forall b :: b in Clean(df, spike) <==> exists k ::
      0 <= k < |Spread(df)| && Spread(df)[k] == b && !Spiked(Spread(df), spike, k)
  {
    hide Spread;
    var spread := Spread(df);
    SpreadExactly(df);
    UnspikedKeeps(spread, spike, |spread|);
    assert spread[..|spread|] == spread;
    forall b ensures b in Clean(df, spike) <==> exists k ::
      0 <= k < |spread| && spread[k] == b && !Spiked(spread, spike, k)
    {
      if b in Clean(df, spike) {
        var k :| 0 <= k < |spread| && spread[k] == b;
        assert !Spiked(spread, spike, k);
      }
    }
  }

  /** Hence a good row is spared: one with a timestamp of its own, an ask above its bid, and no spike in the frame left
      after the bad spreads have gone. */
  lemma GoodRowSpared(df: seq<Bar>, spike: SpikeTest, i: int)
    requires 0 <= i < |df| && df[i].ask > df[i].bid
    requires forall j :: 0 <= j < |df| && j != i ==> df[j].ts != df[i].ts
    requires forall k :: 0 <= k < |Spread(df)| && Spread(df)[k] == df[i] ==> !Spiked(Spread(df), spike, k)
    ensures df[i] in Clean(df, spike)
  {
    hide Spread, Clean;
    SpreadExactly(df);
    CleanExactly(df, spike);
    assert FirstAt(df, i);
    var k :| 0 <= k < |Spread(df)| && Spread(df)[k] == df[i];
  }

  // ---------------------------------------------------------------- what an issue says

  ghost predicate RepeatedAt(df: seq<Bar>, t: int) {
    exists i, j :: 0 <= i < j < |df| && df[i].ts == df[j].ts == t
  }

  /** Two rows of one time are two of them in any order. */
  lemma {:induction false} RepeatedCount(s: seq<Bar>, t: int)
    ensures RepeatedAt(s, t) <==> |Between(s, t, t + 1)| >= 2
  {
    if s != [] {
      var rest := s[1..];
      RepeatedCount(rest, t);
      assert forall j :: 1 <= j < |s| ==> s[j] == rest[j - 1];
      BetweenElements(rest, t, t + 1);
      SomeAtTime(rest, t);
      if s[0].ts == t {
        if j :| 0 <= j < |rest| && rest[j].ts == t { assert s[0].ts == s[j + 1].ts == t; }
      }
      RepeatedGrows(s, t);
    }
  }

  lemma SomeAtTime(s: seq<Bar>, t: int)
    ensures Between(s, t, t + 1) != [] <==> exists j :: 0 <= j < |s| && s[j].ts == t
  {
    BetweenElements(s, t, t + 1);
    if Between(s, t, t + 1) != [] { assert Between(s, t, t + 1)[0] in s; }
    if j :| 0 <= j < |s| && s[j].ts == t { assert s[j] in Between(s, t, t + 1); }
  }

  lemma RepeatedGrows(s: seq<Bar>, t: int)
    requires s != []
    ensures RepeatedAt(s, t) <==>
      RepeatedAt(s[1..], t) || (s[0].ts == t && exists j :: 0 <= j < |s[1..]| && s[1..][j].ts == t)
  {
    var rest := s[1..];
    if i, j :| 0 <= i < j < |rest| && rest[i].ts == rest[j].ts == t { assert s[i + 1].ts == s[j + 1].ts == t; }
    if i, j :| 0 <= i < j < |s| && s[i].ts == s[j].ts == t {
      assert rest[j - 1].ts == t;
      if i > 0 { assert rest[i - 1].ts == rest[j - 1].ts == t; }
    }
    if j :| s[0].ts == t && 0 <= j < |rest| && rest[j].ts == t { assert s[0].ts == s[j + 1].ts == t; }
  }

  lemma {:induction false} BetweenSorted(s: seq<Bar>, t: int)
    ensures |Between(SortByTime(s), t, t + 1)| == |Between(s, t, t + 1)|
  {
    if s != [] {
      BetweenSorted(s[1..], t);
      SortSorts(s[1..]);
      ResampleColumns.BetweenInsert(s[0], SortByTime(s[1..]), t, t + 1);
      InsertSize(s[0], Between(SortByTime(s[1..]), t, t + 1));
    }
  }

  lemma {:induction false} InsertSize(x: Bar, s: seq<Bar>)
    ensures |Insert(x, s)| == |s| + 1
  {
    if s != [] && x.ts > s[0].ts { InsertSize(x, s[1..]); }
  }

  lemma DuplicatesAre(df: seq<Bar>, t: int)
    ensures var s := SortByTime(df);
      Issue(DuplicateTimestamp, t) in DuplicateIssues(s, |s|) <==> RepeatedAt(df, t)
  {
    hide SortByTime;
    var s := SortByTime(df);
    RepeatedCount(df, t);
    RepeatedCount(s, t);
    BetweenSorted(df, t);
    DuplicateIssuesExact(s, |s|);
    var x := Issue(DuplicateTimestamp, t);
    if x in DuplicateIssues(s, |s|) {
      var i :| 0 <= i < |s| && IsDuplicated(s, i) && s[i].ts == x.ts;
      var j :| 0 <= j < |s| && j != i && s[j].ts == s[i].ts;
      assert i < j || j < i;
    }
    if i, j :| 0 <= i < j < |s| && s[i].ts == s[j].ts == t { assert IsDuplicated(s, i); }
  }

  lemma BadSpreadsAre(df: seq<Bar>, t: int)
    ensures (exists i :: 0 <= i < |Unique(df)| && BadSpread(Unique(df)[i]) && Unique(df)[i].ts == t) <==>
      exists i :: FirstAt(df, i) && 0 <= i < |df| && df[i].ts == t && df[i].ask <= df[i].bid
  {
    hide SortByTime, KeepFirst, FirstAt;
    var unique, sorted := Unique(df), SortByTime(df);
    KeepFirstIs(sorted);
    SortElements(KeepFirst(sorted));
    if i :| 0 <= i < |unique| && BadSpread(unique[i]) && unique[i].ts == t {
      FirstAfterSorting(df, unique[i]);
      assert unique[i] in unique;
    }
    if i :| FirstAt(df, i) && 0 <= i < |df| && df[i].ts == t && df[i].ask <= df[i].bid {
      assert FirstOfItsTime(df, df[i]);
      FirstAfterSorting(df, df[i]);
      assert df[i] in unique;
      var k :| 0 <= k < |unique| && unique[k] == df[i];
      assert BadSpread(unique[k]);
    }
  }

  /** The report, exactly, kind by kind. A duplicate: two rows of the batch at that time. A bad spread: the first row at
      that time has an ask not above its bid. A spike: one in the frame left then. A gap: more than five intervals
      between that surviving row and the one before it. */
  lemma ReportExactly(df: seq<Bar>, spike: SpikeTest, seconds: int, t: int)
    ensures Issue(DuplicateTimestamp, t) in Report(df, spike, seconds) <==> RepeatedAt(df, t)
    ensures Issue(NonpositiveSpread, t) in Report(df, spike, seconds) <==>
      exists i :: FirstAt(df, i) && 0 <= i < |df| && df[i].ts == t && df[i].ask <= df[i].bid
    ensures Issue(PriceSpike, t) in Report(df, spike, seconds) <==>
      exists k :: 0 <= k < |Spread(df)| && Spread(df)[k].ts == t && Spiked(Spread(df), spike, k)
    ensures Issue(Gap, t) in Report(df, spike, seconds) <==>
      exists k :: 0 < k < |Clean(df, spike)| && Clean(df, spike)[k].ts == t
        && t - Clean(df, spike)[k - 1].ts > 5 * seconds
  {
    hide SortByTime, Unique, Spread, Clean, DuplicateIssues, SpreadIssues, SpikeIssues, GapIssues, FirstAt;
    hide IsDuplicated, RepeatedAt, BadSpread;
    var sorted, unique, spread, clean := SortByTime(df), Unique(df), Spread(df), Clean(df, spike);
    OnlyDuplicates(sorted);
    SpreadIssuesExact(unique, |unique|);
    SpikeIssuesExact(spread, spike, |spread|);
    GapIssuesExact(clean, seconds, |clean|);
    DuplicatesAre(df, t);
    BadSpreadsAre(df, t);
    assert seconds * GAP_TOLERANCE_BARS == 5 * seconds;
  }

  lemma OnlyDuplicates(s: seq<Bar>)
    ensures forall x :: x in DuplicateIssues(s, |s|) ==> x.kind.DuplicateTimestamp?
  {
    DuplicateIssuesExact(s, |s|);
  }
}

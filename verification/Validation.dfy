/** Ingest-time validation of a batch of bars: duplicates, non-positive spreads and price spikes are
    quarantined, gaps are only reported. The standard-deviation test behind the spike mask is a
    parameter: an arbitrary predicate on a frame and a row of it. */
module Validation {
  import opened Bars

  datatype IssueKind = DuplicateTimestamp | NonpositiveSpread | PriceSpike | Gap

  datatype Issue = Issue(kind: IssueKind, ts: int)

  type SpikeTest = (seq<Bar>, int) -> bool

  const GAP_TOLERANCE_BARS := 5

  // ---------------------------------------------------------------- the stages as functions

  predicate HasTime(s: seq<Bar>, t: int) {
    exists i :: 0 <= i < |s| && s[i].ts == t
  }

  predicate IsDuplicated(s: seq<Bar>, k: int)
    requires 0 <= k < |s|
  {
    exists j :: 0 <= j < |s| && j != k && s[j].ts == s[k].ts
  }

  predicate BadSpread(b: Bar) {
    b.ask - b.bid <= 0.0
  }

  predicate IsSpike(frame: seq<Bar>, spike: SpikeTest, k: int) {
    |frame| > 2 && spike(frame, k)
  }

  function KeepFirst(s: seq<Bar>): seq<Bar> {
    if s == [] then [] else
      var init, last := s[..|s| - 1], s[|s| - 1];
      if HasTime(init, last.ts) then KeepFirst(init) else KeepFirst(init) + [last]
  }

  function GoodSpreads(s: seq<Bar>): seq<Bar> {
    if s == [] then [] else
      var init, last := s[..|s| - 1], s[|s| - 1];
      if BadSpread(last) then GoodSpreads(init) else GoodSpreads(init) + [last]
  }

  /** The unspiked rows among the first k of a frame. */
  function Unspiked(frame: seq<Bar>, spike: SpikeTest, k: nat): seq<Bar>
    requires k <= |frame|
  {
    if k == 0 then []
    else if IsSpike(frame, spike, k - 1) then Unspiked(frame, spike, k - 1)
    else Unspiked(frame, spike, k - 1) + [frame[k - 1]]
  }

  function DuplicateIssues(s: seq<Bar>, k: nat): seq<Issue>
    requires k <= |s|
  {
    if k == 0 then []
    else if IsDuplicated(s, k - 1) then DuplicateIssues(s, k - 1) + [Issue(DuplicateTimestamp, s[k - 1].ts)]
    else DuplicateIssues(s, k - 1)
  }

  function SpreadIssues(s: seq<Bar>, k: nat): seq<Issue>
    requires k <= |s|
  {
    if k == 0 then []
    else if BadSpread(s[k - 1]) then SpreadIssues(s, k - 1) + [Issue(NonpositiveSpread, s[k - 1].ts)]
    else SpreadIssues(s, k - 1)
  }

  function SpikeIssues(s: seq<Bar>, spike: SpikeTest, k: nat): seq<Issue>
    requires k <= |s|
  {
    if k == 0 then []
    else if IsSpike(s, spike, k - 1) then SpikeIssues(s, spike, k - 1) + [Issue(PriceSpike, s[k - 1].ts)]
    else SpikeIssues(s, spike, k - 1)
  }

  predicate IsGap(s: seq<Bar>, seconds: int, k: int)
    requires 0 <= k < |s|
  {
    k > 0 && s[k].ts - s[k - 1].ts > seconds * GAP_TOLERANCE_BARS
  }

  function GapIssues(s: seq<Bar>, seconds: int, k: nat): seq<Issue>
    requires k <= |s|
  {
    if k == 0 then []
    else if IsGap(s, seconds, k - 1) then GapIssues(s, seconds, k - 1) + [Issue(Gap, s[k - 1].ts)]
    else GapIssues(s, seconds, k - 1)
  }

  function Unique(df: seq<Bar>): seq<Bar> {
    SortByTime(KeepFirst(SortByTime(df)))
  }

  function Spread(df: seq<Bar>): seq<Bar> {
    GoodSpreads(Unique(df))
  }

  /** The bars that survive validation. */
  function Clean(df: seq<Bar>, spike: SpikeTest): seq<Bar> {
    Unspiked(Spread(df), spike, |Spread(df)|)
  }

  /** The report, in the order the stages write it. */
  function Report(df: seq<Bar>, spike: SpikeTest, seconds: int): seq<Issue> {
    var sorted := SortByTime(df);
    var unique := Unique(df);
    var spread := Spread(df);
    var clean := Clean(df, spike);
    DuplicateIssues(sorted, |sorted|) + SpreadIssues(unique, |unique|)
      + SpikeIssues(spread, spike, |spread|) + GapIssues(clean, seconds, |clean|)
  }

  // ---------------------------------------------------------------- the staged pass

  /** One stage after another, rebinding the frame and appending to the issue list; what survives is
      strictly ascending with positive spreads, and no row disappears without an issue at its time. */
  method ValidateBars(df: seq<Bar>, spike: SpikeTest, seconds: int) returns (clean: seq<Bar>, issues: seq<Issue>)
    ensures clean == Clean(df, spike) && issues == Report(df, spike, seconds)
    ensures Ascending(clean)
    ensures forall b :: b in clean ==> b in df && b.ask > b.bid
    ensures forall b :: b in df ==> b in clean || exists i :: i in issues && i.ts == b.ts && !i.kind.Gap?
  {
    var sorted := SortByTime(df);
    issues := ReportDuplicates(sorted);
    var unique := DropDuplicates(sorted);
    var spreadIssues, spread := QuarantineSpreads(unique);
    issues := issues + spreadIssues;
    var spikeIssues;
    spikeIssues, clean := QuarantineSpikes(spread, spike);
    issues := issues + spikeIssues;
    var gapIssues := ReportGaps(clean, seconds);
    issues := issues + gapIssues;
    CleanBars(df, spike);
    NothingDroppedSilently(df, spike, seconds);
  }

  method ReportDuplicates(frame: seq<Bar>) returns (issues: seq<Issue>)
    ensures issues == DuplicateIssues(frame, |frame|)
  {
    issues := [];
    for k := 0 to |frame|
      invariant issues == DuplicateIssues(frame, k)
    {
      if IsDuplicated(frame, k) {
        issues := issues + [Issue(DuplicateTimestamp, frame[k].ts)];
      }
    }
  }

  method DropDuplicates(frame: seq<Bar>) returns (kept: seq<Bar>)
    ensures kept == SortByTime(KeepFirst(frame))
  {
    kept := [];
    for k := 0 to |frame|
      invariant kept == KeepFirst(frame[..k])
    {
      assert frame[..k + 1][..k] == frame[..k];
      if !HasTime(frame[..k], frame[k].ts) {
        kept := kept + [frame[k]];
      }
    }
    assert frame[..|frame|] == frame;
    kept := SortByTime(kept);
  }

  method QuarantineSpreads(frame: seq<Bar>) returns (issues: seq<Issue>, kept: seq<Bar>)
    ensures issues == SpreadIssues(frame, |frame|) && kept == GoodSpreads(frame)
  {
    issues, kept := [], [];
    for k := 0 to |frame|
      invariant issues == SpreadIssues(frame, k)
      invariant kept == GoodSpreads(frame[..k])
    {
      assert frame[..k + 1][..k] == frame[..k];
      if BadSpread(frame[k]) {
        issues := issues + [Issue(NonpositiveSpread, frame[k].ts)];
      } else {
        kept := kept + [frame[k]];
      }
    }
    assert frame[..|frame|] == frame;
  }

  method QuarantineSpikes(frame: seq<Bar>, spike: SpikeTest) returns (issues: seq<Issue>, kept: seq<Bar>)
    ensures issues == SpikeIssues(frame, spike, |frame|) && kept == Unspiked(frame, spike, |frame|)
  {
    issues, kept := [], [];
    for k := 0 to |frame|
      invariant issues == SpikeIssues(frame, spike, k)
      invariant kept == Unspiked(frame, spike, k)
    {
      if IsSpike(frame, spike, k) {
        issues := issues + [Issue(PriceSpike, frame[k].ts)];
      } else {
        kept := kept + [frame[k]];
      }
    }
  }

  method ReportGaps(frame: seq<Bar>, seconds: int) returns (issues: seq<Issue>)
    ensures issues == GapIssues(frame, seconds, |frame|)
  {
    issues := [];
    for k := 0 to |frame|
      invariant issues == GapIssues(frame, seconds, k)
    {
      if IsGap(frame, seconds, k) {
        issues := issues + [Issue(Gap, frame[k].ts)];
      }
    }
  }

  // ---------------------------------------------------------------- what each stage keeps

  lemma {:induction false} KeepFirstDistinct(s: seq<Bar>)
    ensures DistinctTimes(KeepFirst(s))
    ensures forall b :: b in KeepFirst(s) ==> b in s
    ensures forall b :: b in s ==> HasTime(KeepFirst(s), b.ts)
  {
    if s != [] {
      var init, last := s[..|s| - 1], s[|s| - 1];
      KeepFirstDistinct(init);
      var kept := KeepFirst(init);
      assert s == init + [last];
      if HasTime(init, last.ts) {
        assert HasTime(kept, last.ts);
      } else {
        forall i | 0 <= i < |kept| ensures kept[i].ts != last.ts { assert kept[i] in init; }
        var r := kept + [last];
        forall b | b in s ensures HasTime(r, b.ts) {
          if b in init {
            var i :| 0 <= i < |kept| && kept[i].ts == b.ts;
            assert r[i].ts == b.ts;
          } else {
            assert r[|kept|].ts == b.ts;
          }
        }
      }
    }
  }

  lemma {:induction false} GoodSpreadsKeeps(s: seq<Bar>)
    ensures forall b :: b in GoodSpreads(s) <==> b in s && !BadSpread(b)
    ensures Ascending(s) ==> Ascending(GoodSpreads(s))
  {
    if s != [] {
      var init, last := s[..|s| - 1], s[|s| - 1];
      GoodSpreadsKeeps(init);
      assert s == init + [last];
      if Ascending(s) && !BadSpread(last) {
        var r := GoodSpreads(init);
        forall i | 0 <= i < |r| ensures r[i].ts < last.ts { assert r[i] in init; }
      }
    }
  }

  lemma {:induction false} UnspikedKeeps(s: seq<Bar>, spike: SpikeTest, k: nat)
    requires k <= |s| && Ascending(s)
    ensures Ascending(Unspiked(s, spike, k))
    ensures forall b :: b in Unspiked(s, spike, k) ==> b in s[..k]
    ensures forall i :: 0 <= i < k ==> (s[i] in Unspiked(s, spike, k) <==> !IsSpike(s, spike, i))
  {
    if k > 0 {
      UnspikedKeeps(s, spike, k - 1);
      var r := Unspiked(s, spike, k - 1);
      assert s[..k] == s[..k - 1] + [s[k - 1]];
      forall i | 0 <= i < |r| ensures r[i].ts < s[k - 1].ts { assert r[i] in s[..k - 1]; }
    }
  }

  lemma UniqueIsAscending(df: seq<Bar>)
    ensures Ascending(Unique(df))
    ensures forall b :: b in Unique(df) ==> b in df
    ensures forall b :: b in df ==> HasTime(Unique(df), b.ts)
  {
    var sorted := SortByTime(df);
    SortElements(df);
    KeepFirstDistinct(sorted);
    var kept := KeepFirst(sorted);
    SortOfDistinct(kept);
    SortElements(kept);
    forall b | b in df ensures HasTime(Unique(df), b.ts) {
      var i :| 0 <= i < |kept| && kept[i].ts == b.ts;
      assert kept[i] in Unique(df);
    }
  }

  /** What survives is strictly ascending, comes from the input, and has a positive spread. */
  lemma CleanBars(df: seq<Bar>, spike: SpikeTest)
    ensures Ascending(Clean(df, spike))
    ensures forall b :: b in Clean(df, spike) ==> b in df && b.ask > b.bid
  {
    UniqueIsAscending(df);
    GoodSpreadsKeeps(Unique(df));
    var spread := Spread(df);
    UnspikedKeeps(spread, spike, |spread|);
    assert spread[..|spread|] == spread;
  }

  // ---------------------------------------------------------------- the report

  lemma {:induction false} DuplicateIssuesExact(s: seq<Bar>, k: nat)
    requires k <= |s|
    ensures forall i :: 0 <= i < k && IsDuplicated(s, i) ==> Issue(DuplicateTimestamp, s[i].ts) in DuplicateIssues(s, k)
    ensures forall x :: x in DuplicateIssues(s, k) ==>
      x.kind.DuplicateTimestamp? && exists i :: 0 <= i < k && IsDuplicated(s, i) && s[i].ts == x.ts
  {
    if k > 0 { DuplicateIssuesExact(s, k - 1); }
  }

  lemma {:induction false} SpreadIssuesExact(s: seq<Bar>, k: nat)
    requires k <= |s|
    ensures forall i :: 0 <= i < k && BadSpread(s[i]) ==> Issue(NonpositiveSpread, s[i].ts) in SpreadIssues(s, k)
    ensures forall x :: x in SpreadIssues(s, k) ==>
      x.kind.NonpositiveSpread? && exists i :: 0 <= i < k && BadSpread(s[i]) && s[i].ts == x.ts
  {
    if k > 0 { SpreadIssuesExact(s, k - 1); }
  }

  lemma {:induction false} SpikeIssuesExact(s: seq<Bar>, spike: SpikeTest, k: nat)
    requires k <= |s|
    ensures forall i :: 0 <= i < k && IsSpike(s, spike, i) ==> Issue(PriceSpike, s[i].ts) in SpikeIssues(s, spike, k)
    ensures forall x :: x in SpikeIssues(s, spike, k) ==>
      x.kind.PriceSpike? && exists i :: 0 <= i < k && IsSpike(s, spike, i) && s[i].ts == x.ts
  {
    if k > 0 { SpikeIssuesExact(s, spike, k - 1); }
  }

  lemma {:induction false} GapIssuesExact(s: seq<Bar>, seconds: int, k: nat)
    requires k <= |s|
    ensures forall i :: 0 <= i < k && IsGap(s, seconds, i) ==> Issue(Gap, s[i].ts) in GapIssues(s, seconds, k)
    ensures forall x :: x in GapIssues(s, seconds, k) ==>
      x.kind.Gap? && exists i :: 0 <= i < k && IsGap(s, seconds, i) && s[i].ts == x.ts
  {
    if k > 0 { GapIssuesExact(s, seconds, k - 1); }
  }

  /** A row that is missing from the output has an issue of a quarantining kind at its timestamp. */
  lemma NothingDroppedSilently(df: seq<Bar>, spike: SpikeTest, seconds: int)
    ensures forall b :: b in df ==>
      b in Clean(df, spike) || exists i :: i in Report(df, spike, seconds) && i.ts == b.ts && !i.kind.Gap?
  {
    forall b | b in df && b !in Clean(df, spike)
      ensures exists i :: i in Report(df, spike, seconds) && i.ts == b.ts && !i.kind.Gap?
    {
      var i := DroppedHasIssue(df, spike, seconds, b);
    }
  }

  lemma DroppedHasIssue(df: seq<Bar>, spike: SpikeTest, seconds: int, b: Bar) returns (x: Issue)
    requires b in df && b !in Clean(df, spike)
    ensures x in Report(df, spike, seconds) && x.ts == b.ts && !x.kind.Gap?
  {
    var sorted, unique, spread := SortByTime(df), Unique(df), Spread(df);
    UniqueIsAscending(df);
    GoodSpreadsKeeps(unique);
    UnspikedKeeps(spread, spike, |spread|);
    if b in spread {
      var i :| 0 <= i < |spread| && spread[i] == b;
      SpikeIssuesExact(spread, spike, |spread|);
      x := Issue(PriceSpike, b.ts);
    } else if b in unique {
      SpreadIssuesExact(unique, |unique|);
      x := Issue(NonpositiveSpread, b.ts);
    } else {
      var u := UniqueRepresentative(df, b);
      SortElements(df);
      var i :| 0 <= i < |sorted| && sorted[i] == b;
      var j :| 0 <= j < |sorted| && sorted[j] == u;
      assert IsDuplicated(sorted, i);
      DuplicateIssuesExact(sorted, |sorted|);
      x := Issue(DuplicateTimestamp, b.ts);
    }
  }

  lemma UniqueRepresentative(df: seq<Bar>, b: Bar) returns (u: Bar)
    requires b in df
    ensures u in Unique(df) && u in df && u.ts == b.ts
  {
    UniqueIsAscending(df);
    var i :| 0 <= i < |Unique(df)| && Unique(df)[i].ts == b.ts;
    u := Unique(df)[i];
  }

  /** An issue never accuses a surviving row: a spread or spike issue means the row is gone. */
  lemma ReportIsSound(df: seq<Bar>, spike: SpikeTest, seconds: int, x: Issue)
    requires x in Report(df, spike, seconds)
    ensures x.kind.DuplicateTimestamp? ==> !DistinctTimes(df)
    ensures x.kind.NonpositiveSpread? || x.kind.PriceSpike? ==> !HasTime(Clean(df, spike), x.ts)
  {
    var sorted, unique, spread, clean := SortByTime(df), Unique(df), Spread(df), Clean(df, spike);
    DuplicateIssuesExact(sorted, |sorted|);
    SpreadIssuesExact(unique, |unique|);
    SpikeIssuesExact(spread, spike, |spread|);
    GapIssuesExact(clean, seconds, |clean|);
    if x.kind.DuplicateTimestamp? {
      var i :| 0 <= i < |sorted| && IsDuplicated(sorted, i) && sorted[i].ts == x.ts;
      DuplicatedMeansRepeated(df, i);
    }
    if x.kind.NonpositiveSpread? {
      UniqueIsAscending(df);
      var i :| 0 <= i < |unique| && BadSpread(unique[i]) && unique[i].ts == x.ts;
      BadSpreadIsGone(df, spike, unique[i]);
    }
    if x.kind.PriceSpike? {
      var i :| 0 <= i < |spread| && IsSpike(spread, spike, i) && spread[i].ts == x.ts;
      SpikeIsGone(df, spike, i);
    }
  }

  lemma DuplicatedMeansRepeated(df: seq<Bar>, i: int)
    requires 0 <= i < |SortByTime(df)| && IsDuplicated(SortByTime(df), i)
    ensures !DistinctTimes(df)
  {
    var sorted := SortByTime(df);
    if DistinctTimes(df) {
      SortOfDistinct(df);
    }
  }

  lemma BadSpreadIsGone(df: seq<Bar>, spike: SpikeTest, b: Bar)
    requires b in Unique(df) && BadSpread(b)
    ensures !HasTime(Clean(df, spike), b.ts)
  {
    var clean := Clean(df, spike);
    UniqueIsAscending(df);
    GoodSpreadsKeeps(Unique(df));
    UnspikedKeeps(Spread(df), spike, |Spread(df)|);
    assert Spread(df)[..|Spread(df)|] == Spread(df);
    forall j | 0 <= j < |clean| ensures clean[j].ts != b.ts {
      assert clean[j] in Spread(df);
    }
  }

  lemma SpikeIsGone(df: seq<Bar>, spike: SpikeTest, i: int)
    requires 0 <= i < |Spread(df)| && IsSpike(Spread(df), spike, i)
    ensures !HasTime(Clean(df, spike), Spread(df)[i].ts)
  {
    var spread, clean := Spread(df), Clean(df, spike);
    UniqueIsAscending(df);
    GoodSpreadsKeeps(Unique(df));
    UnspikedKeeps(spread, spike, |spread|);
    forall j | 0 <= j < |clean| ensures clean[j].ts != spread[i].ts {
      assert clean[j] in spread[..|spread|];
    }
  }

  /** An empty report means the batch went through unchanged, only sorted. */
  lemma CleanReport(df: seq<Bar>, spike: SpikeTest, seconds: int)
    requires Report(df, spike, seconds) == []
    ensures DistinctTimes(df)
    ensures Clean(df, spike) == SortByTime(df)
  {
    var sorted, unique, spread := SortByTime(df), Unique(df), Spread(df);
    assert DuplicateIssues(sorted, |sorted|) == [] && SpreadIssues(unique, |unique|) == []
        && SpikeIssues(spread, spike, |spread|) == [];
    NoDuplicates(df);
    NoBadSpreads(unique);
    NoSpikes(spread, spike);
  }

  /** Every ask is above its bid, no row is a spike where there are three or more, and no row comes more than five
      intervals after the one before it. */
  predicate Quiet(s: seq<Bar>, spike: SpikeTest, seconds: int) {
    forall k :: 0 <= k < |s| ==> s[k].ask > s[k].bid && (|s| >= 3 ==> !spike(s, k)) && InTime(s, seconds, k)
  }

  predicate InTime(s: seq<Bar>, seconds: int, k: int)
    requires 0 <= k < |s|
  {
    k > 0 ==> s[k].ts - s[k - 1].ts <= 5 * seconds
  }

  predicate AllPass(s: seq<Bar>, spike: SpikeTest, seconds: int) {
    forall k :: 0 <= k < |s| ==> !BadSpread(s[k]) && !IsSpike(s, spike, k) && !IsGap(s, seconds, k)
  }

  lemma QuietPasses(s: seq<Bar>, spike: SpikeTest, seconds: int)
    ensures Quiet(s, spike, seconds) <==> AllPass(s, spike, seconds)
  {
    forall k | 0 <= k < |s|
      ensures s[k].ask > s[k].bid && (|s| >= 3 ==> !spike(s, k)) && InTime(s, seconds, k) <==>
        !BadSpread(s[k]) && !IsSpike(s, spike, k) && !IsGap(s, seconds, k)
    {
      assert seconds * GAP_TOLERANCE_BARS == 5 * seconds;
    }
  }

  /** The report is empty exactly for a batch without repeated timestamps that is quiet once sorted. */
  lemma CleanReportExactly(df: seq<Bar>, spike: SpikeTest, seconds: int)
    ensures Report(df, spike, seconds) == [] <==> DistinctTimes(df) && Quiet(SortByTime(df), spike, seconds)
  {
    hide Quiet, SortByTime;
    var s := SortByTime(df);
    QuietPasses(s, spike, seconds);
    if Report(df, spike, seconds) == [] {
      assert DuplicateIssues(s, |s|) == [];
      NoDuplicates(df);
      assert SpreadIssues(s, |s|) == [];
      NoBadSpreads(s);
      assert SpikeIssues(s, spike, |s|) == [];
      NoSpikes(s, spike);
      assert GapIssues(s, seconds, |s|) == [];
      NothingReported(s, spike, seconds);
    } else if DistinctTimes(df) && AllPass(s, spike, seconds) {
      QuietBatch(df, spike, seconds);
    }
  }

  lemma NothingReported(s: seq<Bar>, spike: SpikeTest, seconds: int)
    requires SpreadIssues(s, |s|) == [] && SpikeIssues(s, spike, |s|) == [] && GapIssues(s, seconds, |s|) == []
    ensures AllPass(s, spike, seconds)
  {
    SpreadIssuesExact(s, |s|);
    SpikeIssuesExact(s, spike, |s|);
    GapIssuesExact(s, seconds, |s|);
  }

  lemma QuietBatch(df: seq<Bar>, spike: SpikeTest, seconds: int)
    requires DistinctTimes(df) && AllPass(SortByTime(df), spike, seconds)
    ensures Report(df, spike, seconds) == []
  {
    hide IsGap, IsSpike;
    var s := SortByTime(df);
    SortOfDistinct(df);
    KeepFirstOfDistinct(s);
    SortKeepsSorted(s);
    GoodSpreadsAll(s);
    UnspikedAll(s, spike, |s|);
    assert s[..|s|] == s;
    QuietStages(s, spike, seconds, |s|);
  }

  lemma {:induction false} QuietStages(s: seq<Bar>, spike: SpikeTest, seconds: int, k: nat)
    requires k <= |s| && Ascending(s) && AllPass(s, spike, seconds)
    ensures DuplicateIssues(s, k) == [] && SpreadIssues(s, k) == []
    ensures SpikeIssues(s, spike, k) == [] && GapIssues(s, seconds, k) == []
  {
    hide IsGap, IsSpike;
    if k > 0 {
      QuietStages(s, spike, seconds, k - 1);
      assert !IsDuplicated(s, k - 1);
    }
  }

  lemma NoDuplicates(df: seq<Bar>)
    requires DuplicateIssues(SortByTime(df), |SortByTime(df)|) == []
    ensures DistinctTimes(df) && Unique(df) == SortByTime(df)
  {
    var sorted := SortByTime(df);
    DuplicateIssuesExact(sorted, |sorted|);
    forall i, j | 0 <= i < j < |sorted| ensures sorted[i].ts != sorted[j].ts {
      assert !IsDuplicated(sorted, i);
    }
    DistinctBeforeSort(df);
    KeepFirstOfDistinct(sorted);
    SortSorts(df);
    SortKeepsSorted(sorted);
  }

  lemma NoBadSpreads(s: seq<Bar>)
    requires SpreadIssues(s, |s|) == []
    ensures GoodSpreads(s) == s
  {
    SpreadIssuesExact(s, |s|);
    GoodSpreadsAll(s);
  }

  lemma NoSpikes(s: seq<Bar>, spike: SpikeTest)
    requires SpikeIssues(s, spike, |s|) == []
    ensures Unspiked(s, spike, |s|) == s
  {
    SpikeIssuesExact(s, spike, |s|);
    UnspikedAll(s, spike, |s|);
  }

  lemma {:induction false} KeepFirstOfDistinct(s: seq<Bar>)
    requires DistinctTimes(s)
    ensures KeepFirst(s) == s
  {
    if s != [] {
      var init, last := s[..|s| - 1], s[|s| - 1];
      KeepFirstOfDistinct(init);
      assert s == init + [last];
    }
  }

  lemma {:induction false} GoodSpreadsAll(s: seq<Bar>)
    requires forall i :: 0 <= i < |s| ==> !BadSpread(s[i])
    ensures GoodSpreads(s) == s
  {
    if s != [] {
      GoodSpreadsAll(s[..|s| - 1]);
      assert s == s[..|s| - 1] + [s[|s| - 1]];
    }
  }

  lemma {:induction false} UnspikedAll(s: seq<Bar>, spike: SpikeTest, k: nat)
    requires k <= |s| && forall i :: 0 <= i < k ==> !IsSpike(s, spike, i)
    ensures Unspiked(s, spike, k) == s[..k]
  {
    if k > 0 {
      UnspikedAll(s, spike, k - 1);
      assert s[..k] == s[..k - 1] + [s[k - 1]];
    }
  }

  lemma {:induction false} DistinctBeforeSort(s: seq<Bar>)
    requires DistinctTimes(SortByTime(s))
    ensures DistinctTimes(s)
  {
    SortSorts(s);
    var r := SortByTime(s);
    forall i, j | 0 <= i < j < |s| ensures s[i].ts != s[j].ts {
      if s[i].ts == s[j].ts {
        TwoOccurrences(s, r, i, j);
        assert false;
      }
    }
  }

  /** Two rows with one timestamp stay two rows under any rearrangement. */
  lemma TwoOccurrences(s: seq<Bar>, r: seq<Bar>, i: int, j: int)
    requires 0 <= i < j < |s| && s[i].ts == s[j].ts
    requires multiset(s) == multiset(r)
    ensures !DistinctTimes(r)
  {
    if s[i] != s[j] {
      assert s[i] in multiset(r) && s[j] in multiset(r);
      var a :| 0 <= a < |r| && r[a] == s[i];
      var b :| 0 <= b < |r| && r[b] == s[j];
      assert a < b || b < a;
    } else {
      var x := s[i];
      assert s == s[..i] + [s[i]] + s[i + 1..j] + [s[j]] + s[j + 1..];
      assert multiset(s)[x] >= 2;
      if DistinctTimes(r) {
        AtMostOnce(r, x);
        assert false;
      }
    }
  }

  lemma {:induction false} AtMostOnce(r: seq<Bar>, x: Bar)
    requires DistinctTimes(r)
    ensures multiset(r)[x] <= 1
  {
    if r != [] {
      var init, last := r[..|r| - 1], r[|r| - 1];
      AtMostOnce(init, x);
      assert r == init + [last];
      if last == x {
        assert x !in init;
        assert x !in multiset(init);
      }
    }
  }
}

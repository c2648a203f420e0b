/** Price bars in time order: sorting, point-in-time filters, and the timestamp-to-bar map that a bar table
    stands for. Timestamps are whole seconds; a bar is labelled by its open time and has closed one
    interval later. */
module Bars {
  import opened Prelude

  datatype Bar = Bar(ts: int, open: real, high: real, low: real, close: real, volume: real, bid: real, ask: real)

  predicate Ascending(s: seq<Bar>) {
    forall i, j :: 0 <= i < j < |s| ==> s[i].ts < s[j].ts
  }

  predicate Sorted(s: seq<Bar>) {
    forall i, j :: 0 <= i < j < |s| ==> s[i].ts <= s[j].ts
  }

  predicate DistinctTimes(s: seq<Bar>) {
    forall i, j :: 0 <= i < j < |s| ==> s[i].ts != s[j].ts
  }

  /** Bars follow each other without a gap, one every `seconds`. */
  predicate GapFree(s: seq<Bar>, seconds: int) {
    forall i :: 0 <= i < |s| ==> s[i].ts == s[0].ts + i * seconds
  }

  function MaxHigh(s: seq<Bar>): real
    requires s != []
  {
    if |s| == 1 then s[0].high else Max(s[0].high, MaxHigh(s[1..]))
  }

  function MinLow(s: seq<Bar>): real
    requires s != []
  {
    if |s| == 1 then s[0].low else Min(s[0].low, MinLow(s[1..]))
  }

  // ---------------------------------------------------------------- sorting

  function Insert(x: Bar, s: seq<Bar>): seq<Bar> {
    if s == [] || x.ts <= s[0].ts then [x] + s else [s[0]] + Insert(x, s[1..])
  }

  /** Stable sort by open time. */
  function SortByTime(s: seq<Bar>): seq<Bar> {
    if s == [] then [] else Insert(s[0], SortByTime(s[1..]))
  }

  lemma {:induction false} InsertElements(x: Bar, s: seq<Bar>)
    ensures forall b :: b in Insert(x, s) <==> b == x || b in s
  {
    if s == [] || x.ts <= s[0].ts {
    } else {
      InsertElements(x, s[1..]);
      assert s == [s[0]] + s[1..];
    }
  }

  lemma {:induction false} InsertMultiset(x: Bar, s: seq<Bar>)
    ensures multiset(Insert(x, s)) == multiset{x} + multiset(s)
  {
    if s == [] || x.ts <= s[0].ts {
    } else {
      InsertMultiset(x, s[1..]);
      assert s == [s[0]] + s[1..];
    }
  }

  lemma {:induction false} InsertSorts(x: Bar, s: seq<Bar>)
    requires Sorted(s)
    ensures Sorted(Insert(x, s))
  {
    if s == [] || x.ts <= s[0].ts {
    } else {
      InsertSorts(x, s[1..]);
      InsertElements(x, s[1..]);
      var r := Insert(x, s[1..]);
      forall j | 0 <= j < |r| ensures s[0].ts <= r[j].ts {
        assert r[j] in r;
      }
    }
  }

  lemma {:induction false} SortSorts(s: seq<Bar>)
    ensures Sorted(SortByTime(s))
    ensures multiset(SortByTime(s)) == multiset(s)
    ensures |SortByTime(s)| == |s|
  {
    if s != [] {
      SortSorts(s[1..]);
      InsertSorts(s[0], SortByTime(s[1..]));
      InsertMultiset(s[0], SortByTime(s[1..]));
      assert s == [s[0]] + s[1..];
    }
    assert |multiset(SortByTime(s))| == |multiset(s)|;
  }

  lemma {:induction false} SortKeepsSorted(s: seq<Bar>)
    requires Sorted(s)
    ensures SortByTime(s) == s
  {
    if s != [] {
      SortKeepsSorted(s[1..]);
    }
  }

  lemma {:induction false} SortElements(s: seq<Bar>)
    ensures forall b :: b in SortByTime(s) <==> b in s
  {
    if s != [] {
      SortElements(s[1..]);
      InsertElements(s[0], SortByTime(s[1..]));
      assert s == [s[0]] + s[1..];
    }
  }

  /** Distinct timestamps survive sorting, as strict order. */
  lemma {:induction false} SortOfDistinct(s: seq<Bar>)
    requires DistinctTimes(s)
    ensures Ascending(SortByTime(s))
  {
    if s != [] {
      var rest := s[1..];
      SortOfDistinct(rest);
      SortElements(rest);
      SortSorts(rest);
      InsertAscending(s[0], SortByTime(rest));
    }
  }

  lemma {:induction false} InsertAscending(x: Bar, s: seq<Bar>)
    requires Ascending(s)
    requires forall b :: b in s ==> b.ts != x.ts
    ensures Ascending(Insert(x, s))
  {
    if s == [] || x.ts <= s[0].ts {
      if s != [] { assert s[0] in s; }
    } else {
      InsertAscending(x, s[1..]);
      InsertElements(x, s[1..]);
      var r := Insert(x, s[1..]);
      forall j | 0 <= j < |r| ensures s[0].ts < r[j].ts {
        assert r[j] in r;
      }
    }
  }

  lemma SharedFirst(a: seq<Bar>, b: seq<Bar>)
    requires b != [] && forall x :: x in a <==> x in b
    ensures b[0] in a
  {
    assert b[0] in b;
  }

  /** A strictly ascending arrangement of a set of bars is unique. */
  lemma {:induction false} AscendingUnique(a: seq<Bar>, b: seq<Bar>)
    requires Ascending(a) && Ascending(b)
    requires forall x :: x in a <==> x in b
    ensures a == b
  {
    if a == [] {
      if b != [] { SharedFirst(a, b); assert false; }
    } else {
      assert a[0] in b;
      assert b[0] in a;
      assert a[0] == b[0];
      forall x ensures x in a[1..] <==> x in b[1..] {
        if x in a[1..] { assert x in b; assert x != a[0]; }
        if x in b[1..] { assert x in a; assert x != a[0]; }
      }
      AscendingUnique(a[1..], b[1..]);
      assert a == [a[0]] + a[1..];
      assert b == [b[0]] + b[1..];
    }
  }

  // ---------------------------------------------------------------- point-in-time filters

  /** Bars opened at or before `cutoff`. */
  function Closed(s: seq<Bar>, cutoff: int): seq<Bar> {
    if s == [] then []
    else if s[0].ts <= cutoff then [s[0]] + Closed(s[1..], cutoff)
    else Closed(s[1..], cutoff)
  }

  /** Bars with lo <= open time < hi. */
  function Between(s: seq<Bar>, lo: int, hi: int): seq<Bar> {
    if s == [] then []
    else if lo <= s[0].ts < hi then [s[0]] + Between(s[1..], lo, hi)
    else Between(s[1..], lo, hi)
  }

  lemma {:induction false} BetweenElements(s: seq<Bar>, lo: int, hi: int)
    ensures forall b :: b in Between(s, lo, hi) <==> b in s && lo <= b.ts < hi
  {
    if s != [] {
      BetweenElements(s[1..], lo, hi);
      assert s == [s[0]] + s[1..];
    }
  }

  lemma {:induction false} ClosedIsPrefix(s: seq<Bar>, cutoff: int, k: nat)
    requires k <= |s|
    requires forall i :: 0 <= i < k ==> s[i].ts <= cutoff
    requires forall i :: k <= i < |s| ==> s[i].ts > cutoff
    ensures Closed(s, cutoff) == s[..k]
  {
    if s != [] {
      if k > 0 {
        ClosedIsPrefix(s[1..], cutoff, k - 1);
        assert s[..k] == [s[0]] + s[1..][..k - 1];
      } else {
        ClosedIsPrefix(s[1..], cutoff, 0);
      }
    }
  }

  lemma {:induction false} BetweenIsSlice(s: seq<Bar>, lo: int, hi: int, i: nat, j: nat)
    requires i <= j <= |s|
    requires forall k :: 0 <= k < i ==> s[k].ts < lo
    requires forall k :: i <= k < j ==> lo <= s[k].ts < hi
    requires forall k :: j <= k < |s| ==> s[k].ts >= hi
    ensures Between(s, lo, hi) == s[i..j]
  {
    if s != [] {
      if i > 0 {
        BetweenIsSlice(s[1..], lo, hi, i - 1, j - 1);
        assert s[i..j] == s[1..][i - 1..j - 1];
      } else if j > 0 {
        BetweenIsSlice(s[1..], lo, hi, 0, j - 1);
        assert s[..j] == [s[0]] + s[1..][..j - 1];
      } else {
        BetweenIsSlice(s[1..], lo, hi, 0, 0);
      }
    }
  }

  /** Where a sorted series crosses a threshold. */
  function CountBefore(s: seq<Bar>, t: int): (k: nat)
    ensures k <= |s|
  {
    if s == [] || s[0].ts >= t then 0 else 1 + CountBefore(s[1..], t)
  }

  lemma {:induction false} CountBeforeSplits(s: seq<Bar>, t: int)
    requires Sorted(s)
    ensures forall i :: 0 <= i < CountBefore(s, t) ==> s[i].ts < t
    ensures forall i :: CountBefore(s, t) <= i < |s| ==> s[i].ts >= t
  {
    if s == [] || s[0].ts >= t {
    } else {
      CountBeforeSplits(s[1..], t);
      forall i | 0 <= i < |s|
        ensures (i < CountBefore(s, t) ==> s[i].ts < t) && (i >= CountBefore(s, t) ==> s[i].ts >= t)
      {
        if i > 0 { assert s[i] == s[1..][i - 1]; }
      }
    }
  }

  lemma {:induction false} CountBeforeMonotone(s: seq<Bar>, lo: int, hi: int)
    requires lo <= hi
    ensures CountBefore(s, lo) <= CountBefore(s, hi)
  {
    if s == [] || s[0].ts >= lo {
    } else {
      CountBeforeMonotone(s[1..], lo, hi);
    }
  }

  lemma BetweenOfSorted(s: seq<Bar>, lo: int, hi: int)
    requires Sorted(s) && lo <= hi
    ensures CountBefore(s, lo) <= CountBefore(s, hi)
    ensures Between(s, lo, hi) == s[CountBefore(s, lo)..CountBefore(s, hi)]
  {
    CountBeforeSplits(s, lo);
    CountBeforeSplits(s, hi);
    var i, j := CountBefore(s, lo), CountBefore(s, hi);
    CountBeforeMonotone(s, lo, hi);
    BetweenIsSlice(s, lo, hi, i, j);
  }

  lemma ClosedOfSorted(s: seq<Bar>, cutoff: int)
    requires Sorted(s)
    ensures Closed(s, cutoff) == s[..CountBefore(s, cutoff + 1)]
  {
    CountBeforeSplits(s, cutoff + 1);
    ClosedIsPrefix(s, cutoff, CountBefore(s, cutoff + 1));
  }

  // ---------------------------------------------------------------- tables

  /** The table a list of rows stands for when a later row replaces an earlier one of the same time. */
  function BarMap(s: seq<Bar>): map<int, Bar> {
    if s == [] then map[] else BarMap(s[..|s| - 1])[s[|s| - 1].ts := s[|s| - 1]]
  }

  predicate Keyed(m: map<int, Bar>) {
    forall t :: t in m ==> m[t].ts == t
  }

  function Restrict(m: map<int, Bar>, lo: int, hi: int): map<int, Bar> {
    map t | t in m && lo <= t < hi :: m[t]
  }

  lemma {:induction false} BarMapConcat(a: seq<Bar>, b: seq<Bar>)
    ensures BarMap(a + b) == BarMap(a) + BarMap(b)
  {
    if b == [] {
      assert a + b == a;
    } else {
      assert (a + b)[..|a + b| - 1] == a + b[..|b| - 1];
      BarMapConcat(a, b[..|b| - 1]);
    }
  }

  lemma {:induction false} BarMapKeyed(s: seq<Bar>)
    ensures Keyed(BarMap(s))
    ensures forall t :: t in BarMap(s) ==> BarMap(s)[t] in s
    ensures forall b :: b in s ==> b.ts in BarMap(s)
  {
    if s != [] {
      BarMapKeyed(s[..|s| - 1]);
      assert s == s[..|s| - 1] + [s[|s| - 1]];
    }
  }

  /** With distinct timestamps the table holds exactly the rows. */
  lemma {:induction false} BarMapDistinct(s: seq<Bar>)
    requires DistinctTimes(s)
    ensures forall b :: b in s <==> b.ts in BarMap(s) && BarMap(s)[b.ts] == b
  {
    BarMapKeyed(s);
    forall b | b in s ensures BarMap(s)[b.ts] == b {
      var i :| 0 <= i < |s| && s[i] == b;
      var c := BarMap(s)[b.ts];
      assert c in s;
      var j :| 0 <= j < |s| && s[j] == c;
      assert c.ts == b.ts;
    }
  }

  ghost function LeastKey(s: set<int>): (k: int)
    requires s != {}
    ensures k in s && forall x :: x in s ==> k <= x
  {
    LeastKeyExists(s);
    var k :| k in s && forall x :: x in s ==> k <= x;
    k
  }

  lemma {:induction false} LeastKeyExists(s: set<int>)
    requires s != {}
    ensures exists k :: k in s && forall x :: x in s ==> k <= x
    decreases |s|
  {
    SomeMember(s);
    var e :| e in s;
    var r := s - {e};
    if r == {} {
      assert s == {e};
      assert e in s && forall x :: x in s ==> e <= x;
    } else {
      LeastKeyExists(r);
      var k :| k in r && forall x :: x in r ==> k <= x;
      var m := if e < k then e else k;
      assert m in s;
      forall x | x in s ensures m <= x {
        assert x == e || x in r;
      }
    }
  }

  /** The rows of a table in time order. */
  ghost function Listing(m: map<int, Bar>): seq<Bar>
    decreases |m.Keys|
  {
    if m == map[] then [] else
      var k := LeastKey(m.Keys);
      var rest := m - {k};
      assert rest.Keys == m.Keys - {k};
      [m[k]] + Listing(rest)
  }

  lemma {:induction false} ListingSpec(m: map<int, Bar>)
    requires Keyed(m)
    ensures Ascending(Listing(m)) && BarMap(Listing(m)) == m
    decreases |m.Keys|
  {
    if m != map[] {
      var k := LeastKey(m.Keys);
      var rest := m - {k};
      assert rest.Keys == m.Keys - {k};
      ListingSpec(rest);
      RemoveAndRestore(m, k);
      PrependRow(m[k], Listing(rest), rest);
    }
  }

  lemma RemoveAndRestore(m: map<int, Bar>, k: int)
    requires k in m
    ensures (m - {k})[k := m[k]] == m
  {
  }

  lemma PrependRow(b: Bar, tail: seq<Bar>, rest: map<int, Bar>)
    requires Ascending(tail) && BarMap(tail) == rest
    requires forall t :: t in rest ==> b.ts < t
    ensures Ascending([b] + tail) && BarMap([b] + tail) == rest[b.ts := b]
  {
    PrependAscending(b, tail);
    PrependToMap(b, tail);
    assert b.ts !in rest;
    assert map[b.ts := b] + rest == rest[b.ts := b];
  }

  lemma PrependAscending(b: Bar, tail: seq<Bar>)
    requires Ascending(tail)
    requires forall t :: t in BarMap(tail) ==> b.ts < t
    ensures Ascending([b] + tail)
  {
    forall j | 0 <= j < |tail| ensures b.ts < tail[j].ts {
      RowIsKey(tail, tail[j]);
    }
  }

  lemma RowIsKey(s: seq<Bar>, b: Bar)
    requires b in s
    ensures b.ts in BarMap(s)
  {
    BarMapKeyed(s);
  }

  lemma PrependToMap(b: Bar, tail: seq<Bar>)
    ensures BarMap([b] + tail) == map[b.ts := b] + BarMap(tail)
  {
    BarMapConcat([b], tail);
    assert [b][..0] == [];
    assert BarMap([b]) == map[b.ts := b];
  }

  /** What a range query over the table returns: the rows with lo <= time < hi, in time order. */
  ghost function ReadTable(m: map<int, Bar>, lo: int, hi: int): (r: seq<Bar>)
    requires Keyed(m)
    ensures Ascending(r) && BarMap(r) == Restrict(m, lo, hi)
  {
    ListingSpec(Restrict(m, lo, hi));
    Listing(Restrict(m, lo, hi))
  }

  /** A range query over the table of an ascending series is the slice of that series. */
  lemma ReadTableOfSeries(s: seq<Bar>, lo: int, hi: int)
    requires Ascending(s)
    ensures Keyed(BarMap(s))
    ensures ReadTable(BarMap(s), lo, hi) == Between(s, lo, hi)
  {
    BarMapKeyed(s);
    BarMapDistinct(s);
    var r := ReadTable(BarMap(s), lo, hi);
    BarMapDistinct(r);
    BetweenElements(s, lo, hi);
    BetweenAscending(s, lo, hi);
    AscendingUnique(r, Between(s, lo, hi));
  }

  lemma {:induction false} BetweenAscending(s: seq<Bar>, lo: int, hi: int)
    requires Ascending(s)
    ensures Ascending(Between(s, lo, hi))
  {
    if s != [] {
      BetweenAscending(s[1..], lo, hi);
      BetweenElements(s[1..], lo, hi);
      var r := Between(s[1..], lo, hi);
      forall j | 0 <= j < |r| ensures s[0].ts < r[j].ts {
        assert r[j] in r;
        assert r[j] in s[1..];
      }
    }
  }

  lemma {:induction false} ClosedSorted(s: seq<Bar>, cutoff: int)
    requires Sorted(s)
    ensures Sorted(Closed(s, cutoff))
  {
    ClosedOfSorted(s, cutoff);
  }
}

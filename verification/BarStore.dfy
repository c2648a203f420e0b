/** Bar history in one file of rows per year, merged last-write-wins. The year of a timestamp is any partitioning
    function: nothing below depends on how rows are spread over files. Files are compared with the one table
    from timestamps to bars that they stand for. */
module BarStore {
  import opened Prelude
  import opened Bars
  import Validation

  type Partitions = map<int, seq<Bar>>

  // ---------------------------------------------------------------- one write, as a function

  function RowsOfYear(yearOf: int -> int, s: seq<Bar>, y: int): seq<Bar> {
    if s == [] then []
    else if yearOf(s[0].ts) == y then [s[0]] + RowsOfYear(yearOf, s[1..], y)
    else RowsOfYear(yearOf, s[1..], y)
  }

  function YearsOf(yearOf: int -> int, s: seq<Bar>): set<int> {
    set b | b in s :: yearOf(b.ts)
  }

  /** Drop every row that a later row of the same time replaces. */
  function KeepLast(s: seq<Bar>): seq<Bar> {
    if s == [] then []
    else if Validation.HasTime(s[1..], s[0].ts) then KeepLast(s[1..])
    else [s[0]] + KeepLast(s[1..])
  }

  /** The new content of one year's file. A first write only sorts; it does not de-duplicate. */
  function Merged(parts: Partitions, y: int, rows: seq<Bar>): seq<Bar> {
    if y in parts then SortByTime(KeepLast(parts[y] + rows)) else SortByTime(rows)
  }

  /** The files after the given years of a batch have been merged. */
  function WrittenYears(yearOf: int -> int, parts: Partitions, df: seq<Bar>, years: set<int>): Partitions {
    map y | y in parts.Keys + years ::
      if y in years then Merged(parts, y, RowsOfYear(yearOf, df, y)) else parts[y]
  }

  function Written(yearOf: int -> int, parts: Partitions, df: seq<Bar>): Partitions {
    WrittenYears(yearOf, parts, df, YearsOf(yearOf, df))
  }

  lemma WriteOneMoreYear(yearOf: int -> int, parts: Partitions, df: seq<Bar>, years: set<int>, y: int)
    requires y !in years
    ensures WrittenYears(yearOf, parts, df, years + {y}) ==
      WrittenYears(yearOf, parts, df, years)[y :=
        Merged(WrittenYears(yearOf, parts, df, years), y, RowsOfYear(yearOf, df, y))]
  {
    assert y in WrittenYears(yearOf, parts, df, years) <==> y in parts;
  }

  /** All rows of the listed years within the range, file after file. */
  function Gather(parts: Partitions, years: seq<int>, lo: int, hi: int): seq<Bar>
    requires forall y :: y in years ==> y in parts
  {
    if years == [] then [] else
      var last := years[|years| - 1];
      assert last in years;
      Gather(parts, years[..|years| - 1], lo, hi) + Between(parts[last], lo, hi)
  }

  // ---------------------------------------------------------------- refinement of a plain table

  /** The files hold exactly the rows of `table`, each in the file of its year, in time order. */
  ghost predicate Refines(yearOf: int -> int, parts: Partitions, table: map<int, Bar>) {
    && Keyed(table)
    && (forall y :: y in parts ==> Ascending(parts[y]))
    && (forall y, b :: y in parts && b in parts[y] ==> yearOf(b.ts) == y && b.ts in table && table[b.ts] == b)
    && (forall t :: t in table ==> yearOf(t) in parts && table[t] in parts[yearOf(t)])
  }

  /** In every year that has no file yet, the batch has one row per timestamp. */
  ghost predicate FreshYearsDistinct(yearOf: int -> int, parts: Partitions, df: seq<Bar>) {
    forall y :: y in YearsOf(yearOf, df) && y !in parts ==> DistinctTimes(RowsOfYear(yearOf, df, y))
  }

  lemma {:induction false} RowsOfYearElements(yearOf: int -> int, s: seq<Bar>, y: int)
    ensures forall b :: b in RowsOfYear(yearOf, s, y) <==> b in s && yearOf(b.ts) == y
    ensures DistinctTimes(s) ==> DistinctTimes(RowsOfYear(yearOf, s, y))
  {
    if s != [] {
      RowsOfYearElements(yearOf, s[1..], y);
      assert s == [s[0]] + s[1..];
      var r := RowsOfYear(yearOf, s[1..], y);
      if DistinctTimes(s) {
        forall j | 0 <= j < |r| ensures r[j].ts != s[0].ts { assert r[j] in s[1..]; }
      }
    }
  }

  lemma {:induction false} RowsOfYearMap(yearOf: int -> int, s: seq<Bar>, y: int, t: int)
    requires yearOf(t) == y
    ensures t in BarMap(RowsOfYear(yearOf, s, y)) <==> t in BarMap(s)
    ensures t in BarMap(s) ==> BarMap(RowsOfYear(yearOf, s, y))[t] == BarMap(s)[t]
  {
    if s != [] {
      RowsOfYearMap(yearOf, s[1..], y, t);
      assert s == [s[0]] + s[1..];
      PrependToMap(s[0], s[1..]);
      PrependToMap(s[0], RowsOfYear(yearOf, s[1..], y));
    }
  }

  lemma {:induction false} KeepLastKeeps(s: seq<Bar>)
    ensures DistinctTimes(KeepLast(s))
    ensures forall b :: b in KeepLast(s) <==> b.ts in BarMap(s) && BarMap(s)[b.ts] == b
  {
    if s != [] {
      KeepLastKeeps(s[1..]);
      assert s == [s[0]] + s[1..];
      PrependToMap(s[0], s[1..]);
      BarMapKeyed(s[1..]);
      HasTimeIsKey(s[1..], s[0].ts);
      var r := KeepLast(s[1..]);
      if !Validation.HasTime(s[1..], s[0].ts) {
        forall j | 0 <= j < |r| ensures r[j].ts != s[0].ts { assert r[j] in r; }
      }
    }
  }

  lemma HasTimeIsKey(s: seq<Bar>, t: int)
    ensures Validation.HasTime(s, t) <==> t in BarMap(s)
  {
    BarMapKeyed(s);
    if Validation.HasTime(s, t) {
      var i :| 0 <= i < |s| && s[i].ts == t;
      assert s[i] in s;
    }
    if t in BarMap(s) {
      var b := BarMap(s)[t];
      var i :| 0 <= i < |s| && s[i] == b;
      assert s[i].ts == t;
    }
  }

  /** A batch agrees with its rows of one year on that year. */
  lemma BatchInYear(yearOf: int -> int, df: seq<Bar>, y: int, t: int)
    requires yearOf(t) == y
    ensures var rows := RowsOfYear(yearOf, df, y);
      (t in BarMap(rows) <==> t in BarMap(df)) && (t in BarMap(df) ==> BarMap(rows)[t] == BarMap(df)[t])
  {
    RowsOfYearMap(yearOf, df, y, t);
  }

  lemma BatchOutsideYear(yearOf: int -> int, df: seq<Bar>, y: int, t: int)
    requires t in BarMap(RowsOfYear(yearOf, df, y))
    ensures yearOf(t) == y
  {
    hide BarMap, RowsOfYear;
    RowsOfYearElements(yearOf, df, y);
    BarMapKeyed(RowsOfYear(yearOf, df, y));
  }

  /** A file agrees with the table on its year. */
  lemma FileInYear(yearOf: int -> int, parts: Partitions, table: map<int, Bar>, y: int, t: int)
    requires Refines(yearOf, parts, table) && y in parts
    ensures t in BarMap(parts[y]) <==> t in table && yearOf(t) == y
    ensures t in BarMap(parts[y]) ==> BarMap(parts[y])[t] == table[t]
  {
    hide BarMap;
    BarMapDistinct(parts[y]);
    BarMapKeyed(parts[y]);
  }

  lemma MergedInto(yearOf: int -> int, parts: Partitions, table: map<int, Bar>, df: seq<Bar>, y: int, b: Bar)
    requires Refines(yearOf, parts, table) && y in parts
    ensures var all := BarMap(parts[y] + RowsOfYear(yearOf, df, y));
      b.ts in all && all[b.ts] == b <==>
        yearOf(b.ts) == y && b.ts in table + BarMap(df) && (table + BarMap(df))[b.ts] == b
  {
    hide BarMap, RowsOfYear, Refines;
    var t, rows := b.ts, RowsOfYear(yearOf, df, y);
    BarMapConcat(parts[y], rows);
    FileInYear(yearOf, parts, table, y, t);
    if yearOf(t) == y { BatchInYear(yearOf, df, y, t); }
    if t in BarMap(rows) { BatchOutsideYear(yearOf, df, y, t); }
  }

  lemma FreshFile(yearOf: int -> int, parts: Partitions, table: map<int, Bar>, df: seq<Bar>, y: int, b: Bar)
    requires Refines(yearOf, parts, table) && y !in parts
    ensures var rows := BarMap(RowsOfYear(yearOf, df, y));
      b.ts in rows && rows[b.ts] == b <==>
        yearOf(b.ts) == y && b.ts in table + BarMap(df) && (table + BarMap(df))[b.ts] == b
  {
    hide BarMap, RowsOfYear;
    var t, rows := b.ts, RowsOfYear(yearOf, df, y);
    if yearOf(t) == y { BatchInYear(yearOf, df, y, t); }
    if t in BarMap(rows) { BatchOutsideYear(yearOf, df, y, t); }
  }

  /** The rows of one merged file are those of the last-write-wins table. */
  lemma MergedRows(yearOf: int -> int, parts: Partitions, table: map<int, Bar>, df: seq<Bar>, y: int)
    requires Refines(yearOf, parts, table)
    requires y !in parts ==> DistinctTimes(RowsOfYear(yearOf, df, y))
    ensures Ascending(Merged(parts, y, RowsOfYear(yearOf, df, y)))
    ensures forall b :: b in Merged(parts, y, RowsOfYear(yearOf, df, y)) <==>
      yearOf(b.ts) == y && b.ts in table + BarMap(df) && (table + BarMap(df))[b.ts] == b
  {
    hide BarMap, SortByTime, KeepLast, RowsOfYear, Refines, Ascending, DistinctTimes;
    var rows := RowsOfYear(yearOf, df, y);
    var file := if y in parts then KeepLast(parts[y] + rows) else rows;
    if y in parts { KeepLastKeeps(parts[y] + rows); } else { BarMapDistinct(rows); }
    SortOfDistinct(file);
    SortElements(file);
    forall b ensures b in file <==> yearOf(b.ts) == y && b.ts in table + BarMap(df) && (table + BarMap(df))[b.ts] == b {
      if y in parts { MergedInto(yearOf, parts, table, df, y, b); } else { FreshFile(yearOf, parts, table, df, y, b); }
    }
  }

  lemma NoRowsOutsideYears(yearOf: int -> int, df: seq<Bar>, t: int)
    requires yearOf(t) !in YearsOf(yearOf, df)
    ensures t !in BarMap(df)
  {
    BarMapKeyed(df);
    assert forall b :: b in df ==> yearOf(b.ts) in YearsOf(yearOf, df);
  }

  /** One write refines the update of the table, whatever the partitioning, provided no year is
      opened by a batch that repeats a timestamp. */
  lemma WriteRefinesUpdate(yearOf: int -> int, parts: Partitions, table: map<int, Bar>, df: seq<Bar>)
    requires Refines(yearOf, parts, table)
    requires FreshYearsDistinct(yearOf, parts, df)
    ensures Refines(yearOf, Written(yearOf, parts, df), table + BarMap(df))
  {
    var parts', table' := Written(yearOf, parts, df), table + BarMap(df);
    var years := YearsOf(yearOf, df);
    BarMapKeyed(df);
    forall y | y in years
      ensures Ascending(parts'[y])
      ensures forall b: Bar :: b in parts'[y] <==> yearOf(b.ts) == y && b.ts in table' && table'[b.ts] == b
    {
      MergedRows(yearOf, parts, table, df, y);
    }
    forall y, b: Bar | y in parts' && b in parts'[y]
      ensures yearOf(b.ts) == y && b.ts in table' && table'[b.ts] == b
    {
      if y !in years {
        assert b in parts[y];
        NoRowsOutsideYears(yearOf, df, b.ts);
      }
    }
    forall t | t in table' ensures yearOf(t) in parts' && table'[t] in parts'[yearOf(t)] {
      if t in BarMap(df) {
        assert BarMap(df)[t] in df;
        assert yearOf(t) in years;
      }
    }
  }

  /** The proviso is exact: a write keeps every file strictly ascending if and only if it holds. */
  lemma WriteStaysUniqueIffFreshYearsDistinct(yearOf: int -> int, parts: Partitions, table: map<int, Bar>, df: seq<Bar>)
    requires Refines(yearOf, parts, table)
    ensures (forall y :: y in Written(yearOf, parts, df) ==> Ascending(Written(yearOf, parts, df)[y]))
       <==> FreshYearsDistinct(yearOf, parts, df)
  {
    var parts' := Written(yearOf, parts, df);
    if FreshYearsDistinct(yearOf, parts, df) {
      WriteRefinesUpdate(yearOf, parts, table, df);
    }
    if forall y :: y in parts' ==> Ascending(parts'[y]) {
      forall y | y in YearsOf(yearOf, df) && y !in parts ensures DistinctTimes(RowsOfYear(yearOf, df, y)) {
        assert y in parts';
        assert parts'[y] == SortByTime(RowsOfYear(yearOf, df, y));
        Validation.DistinctBeforeSort(RowsOfYear(yearOf, df, y));
      }
    }
  }

  /** Two files with the same table are the same files: the content is determined by the map. */
  lemma RefinesDetermines(yearOf: int -> int, p: Partitions, q: Partitions, table: map<int, Bar>)
    requires Refines(yearOf, p, table) && Refines(yearOf, q, table)
    requires p.Keys == q.Keys
    ensures p == q
  {
    forall y | y in p ensures p[y] == q[y] {
      forall b ensures b in p[y] <==> b in q[y] {
        if b in p[y] { assert table[b.ts] in q[yearOf(b.ts)]; }
        if b in q[y] { assert table[b.ts] in p[yearOf(b.ts)]; }
      }
      AscendingUnique(p[y], q[y]);
    }
  }

  /** Writing the same batch again changes nothing. */
  lemma WriteTwiceIsWriteOnce(yearOf: int -> int, parts: Partitions, table: map<int, Bar>, df: seq<Bar>)
    requires Refines(yearOf, parts, table)
    requires FreshYearsDistinct(yearOf, parts, df)
    ensures Written(yearOf, Written(yearOf, parts, df), df) == Written(yearOf, parts, df)
  {
    var once := Written(yearOf, parts, df);
    var twice := Written(yearOf, once, df);
    WriteRefinesUpdate(yearOf, parts, table, df);
    KnownYears(yearOf, once, df);
    WriteRefinesUpdate(yearOf, once, table + BarMap(df), df);
    UpdateTwice(table, BarMap(df));
    RefinesDetermines(yearOf, twice, once, table + BarMap(df));
  }

  lemma KnownYears(yearOf: int -> int, parts: Partitions, df: seq<Bar>)
    requires YearsOf(yearOf, df) <= parts.Keys
    ensures FreshYearsDistinct(yearOf, parts, df)
    ensures Written(yearOf, parts, df).Keys == parts.Keys
  {
    assert YearsOf(yearOf, df) + parts.Keys == parts.Keys;
  }

  lemma UpdateTwice(m: map<int, Bar>, n: map<int, Bar>)
    ensures (m + n) + n == m + n
  {
  }

  // ---------------------------------------------------------------- any sequence of validated writes

  function WrittenAll(yearOf: int -> int, parts: Partitions, batches: seq<seq<Bar>>): Partitions {
    if batches == [] then parts
    else Written(yearOf, WrittenAll(yearOf, parts, batches[..|batches| - 1]), batches[|batches| - 1])
  }

  function TableAfter(table: map<int, Bar>, batches: seq<seq<Bar>>): map<int, Bar> {
    if batches == [] then table
    else TableAfter(table, batches[..|batches| - 1]) + BarMap(batches[|batches| - 1])
  }

  lemma {:induction false} WritesRefineUpdates(yearOf: int -> int, parts: Partitions, table: map<int, Bar>,
    batches: seq<seq<Bar>>)
    requires Refines(yearOf, parts, table)
    requires forall i :: 0 <= i < |batches| ==> DistinctTimes(batches[i])
    ensures Refines(yearOf, WrittenAll(yearOf, parts, batches), TableAfter(table, batches))
  {
    if batches != [] {
      var init, df := batches[..|batches| - 1], batches[|batches| - 1];
      WritesRefineUpdates(yearOf, parts, table, init);
      var p := WrittenAll(yearOf, parts, init);
      forall y | y in YearsOf(yearOf, df) && y !in p ensures DistinctTimes(RowsOfYear(yearOf, df, y)) {
        RowsOfYearElements(yearOf, df, y);
      }
      WriteRefinesUpdate(yearOf, p, TableAfter(table, init), df);
    }
  }

  ghost predicate Enumerates(years: seq<int>, keys: set<int>) {
    && (forall y :: y in years <==> y in keys)
    && (forall i, j :: 0 <= i < j < |years| ==> years[i] != years[j])
  }

  lemma {:induction false} GatherRows(yearOf: int -> int, parts: Partitions, table: map<int, Bar>, years: seq<int>,
    lo: int, hi: int)
    requires Refines(yearOf, parts, table)
    requires forall y :: y in years ==> y in parts
    requires forall i, j :: 0 <= i < j < |years| ==> years[i] != years[j]
    ensures DistinctTimes(Gather(parts, years, lo, hi))
    ensures forall b :: b in Gather(parts, years, lo, hi) <==>
      b.ts in table && table[b.ts] == b && lo <= b.ts < hi && yearOf(b.ts) in years
  {
    if years != [] {
      var init, y := years[..|years| - 1], years[|years| - 1];
      assert years == init + [y];
      GatherRows(yearOf, parts, table, init, lo, hi);
      BetweenElements(parts[y], lo, hi);
      BetweenAscending(parts[y], lo, hi);
      var a, b := Gather(parts, init, lo, hi), Between(parts[y], lo, hi);
      forall i, j | 0 <= i < |a| && 0 <= j < |b| ensures a[i].ts != b[j].ts {
        assert a[i] in a && b[j] in b;
        assert yearOf(a[i].ts) in init && yearOf(b[j].ts) == y;
        assert y !in init;
      }
    }
  }

  /** A range query over the files is the range query over the table, in whatever order the files are visited. */
  lemma ReadIsTableRead(yearOf: int -> int, parts: Partitions, table: map<int, Bar>, years: seq<int>, lo: int, hi: int)
    requires Refines(yearOf, parts, table)
    requires Enumerates(years, parts.Keys)
    ensures SortByTime(Gather(parts, years, lo, hi)) == ReadTable(table, lo, hi)
  {
    GatherRows(yearOf, parts, table, years, lo, hi);
    var rows, r := Gather(parts, years, lo, hi), ReadTable(table, lo, hi);
    SortOfDistinct(rows);
    SortElements(rows);
    BarMapDistinct(r);
    forall b ensures b in SortByTime(rows) <==> b in r {
      assert b in SortByTime(rows) <==> b in rows;
      assert b in r <==> b.ts in BarMap(r) && BarMap(r)[b.ts] == b;
      assert b in r <==> b.ts in table && lo <= b.ts < hi && table[b.ts] == b;
      if b.ts in table {
        var y := yearOf(b.ts);
        assert y in parts.Keys;
        assert y in years;
      }
    }
    AscendingUnique(SortByTime(rows), r);
  }

  // ---------------------------------------------------------------- the store

  class BarStore {
    const yearOf: int -> int
    var partitions: Partitions

    constructor (yearOf: int -> int)
      ensures this.yearOf == yearOf && partitions == map[]
      ensures Refines(yearOf, partitions, map[])
    {
      this.yearOf := yearOf;
      partitions := map[];
    }

    /** Rewrite the file of every year the batch touches, in any order of years. */
    method Write(df: seq<Bar>)
      modifies this
      ensures partitions == Written(yearOf, old(partitions), df)
    {
      var years := YearsOf(yearOf, df);
      var todo := years;
      ghost var before, done := partitions, {};
      while todo != {}
        invariant todo + done == years && todo !! done
        invariant partitions == WrittenYears(yearOf, before, df, done)
        decreases todo
      {
        SomeMember(todo);
        var y :| y in todo;
        var merged := MergeFile(y, RowsOfYear(yearOf, df, y));
        WriteOneMoreYear(yearOf, before, df, done, y);
        partitions := partitions[y := merged];
        todo, done := todo - {y}, done + {y};
      }
      assert done == years;
    }

    method MergeFile(y: int, rows: seq<Bar>) returns (merged: seq<Bar>)
      ensures merged == Merged(partitions, y, rows)
    {
      if y in partitions {
        merged := SortByTime(KeepLast(partitions[y] + rows));
      } else {
        merged := SortByTime(rows);
      }
    }

    /** Rows with lo <= time < hi of all files, in time order. On files that stand for a table, the
        result is that table's range. */
    method Read(lo: int, hi: int) returns (r: seq<Bar>)
      ensures Sorted(r)
      ensures forall table :: Refines(yearOf, partitions, table) ==> r == ReadTable(table, lo, hi)
    {
      var todo := partitions.Keys;
      var years: seq<int> := [];
      var rows: seq<Bar> := [];
      while todo != {}
        invariant todo <= partitions.Keys
        invariant Enumerates(years, partitions.Keys - todo)
        invariant rows == Gather(partitions, years, lo, hi)
        decreases |todo|
      {
        SomeMember(todo);
        var y :| y in todo;
        rows := rows + Between(partitions[y], lo, hi);
        assert (years + [y])[..|years|] == years;
        years := years + [y];
        todo := todo - {y};
      }
      r := SortByTime(rows);
      SortSorts(rows);
      forall table | Refines(yearOf, partitions, table) ensures r == ReadTable(table, lo, hi) {
        ReadIsTableRead(yearOf, partitions, table, years, lo, hi);
      }
    }
  }
}

/** The durable stores. Each statement that changes a table is one entry of a shared journal, which fixes the
    order in which a poll's statements reach disk: what is written before a crash stays, and nothing after it
    does. */
module Stores {
  import opened Prelude
  import opened Records

  class Journal {
    ghost var log: seq<Effect>

    constructor ()
      ensures log == []
    {
      log := [];
    }
  }

  /** Open positions by trade id: written on open, rewritten as excursions accrue, deleted on close. */
  class OpenPositionStore {
    var rows: map<int, LivePosition>
    const journal: Journal

    constructor (journal: Journal, rows: map<int, LivePosition>)
      ensures this.journal == journal && this.rows == rows
    {
      this.journal := journal;
      this.rows := rows;
    }

    /** Insert or replace. */
    method Save(p: LivePosition)
      modifies this, journal
      ensures rows == old(rows)[p.tradeId := p]
      ensures journal.log == old(journal.log) + [Saved(p)]
    {
      rows := rows[p.tradeId := p];
      journal.log := journal.log + [Saved(p)];
    }

    method Delete(tradeId: int)
      modifies this, journal
      ensures rows == old(rows) - {tradeId}
      ensures journal.log == old(journal.log) + [Deleted(tradeId)]
    {
      rows := rows - {tradeId};
      journal.log := journal.log + [Deleted(tradeId)];
    }

    /** All rows, in no particular order. */
    method LoadAll() returns (positions: seq<LivePosition>)
      requires forall id :: id in rows ==> rows[id].tradeId == id
      ensures Lists(positions, rows)
    {
      positions := [];
      var todo := rows.Keys;
      while todo != {}
        invariant todo <= rows.Keys
        invariant forall p :: p in positions <==> p.tradeId in rows.Keys - todo && rows[p.tradeId] == p
        invariant forall i, j :: 0 <= i < j < |positions| ==> positions[i].tradeId != positions[j].tradeId
        decreases todo
      {
        SomeMember(todo);
        var id :| id in todo;
        forall i | 0 <= i < |positions| ensures positions[i].tradeId != id { assert positions[i] in positions; }
        positions := positions + [rows[id]];
        todo := todo - {id};
      }
    }
  }

  /** A list holds each row of the table exactly once. */
  ghost predicate Lists(positions: seq<LivePosition>, rows: map<int, LivePosition>) {
    && (forall i, j :: 0 <= i < j < |positions| ==> positions[i].tradeId != positions[j].tradeId)
    && (forall p :: p in positions <==> p.tradeId in rows && rows[p.tradeId] == p)
    && (forall id :: id in rows ==> rows[id].tradeId == id)
  }

  /** Append-only history, mirrored row by row into a table when it is persisted. */
  class TradeLedger {
    var entries: seq<LedgerEntry>
    const journal: Journal

    constructor (journal: Journal)
      ensures this.journal == journal && entries == []
    {
      this.journal := journal;
      entries := [];
    }

    /** Rebuild the history from a persisted table, ordered by time. */
    constructor LoadExisting(journal: Journal, table: seq<LedgerEntry>)
      ensures this.journal == journal
      ensures multiset(entries) == multiset(table)
      ensures TimeOrdered(entries)
    {
      SortEntriesSorts(table);
      this.journal := journal;
      entries := SortEntries(table);
    }

    method Record(e: LedgerEntry)
      modifies this, journal
      ensures entries == old(entries) + [e]
      ensures journal.log == old(journal.log) + [Recorded(e)]
    {
      entries := entries + [e];
      journal.log := journal.log + [Recorded(e)];
    }

    method ClosedTrades() returns (closes: seq<LedgerEntry>)
      ensures closes == CloseRows(entries)
    {
      closes := [];
      for k := 0 to |entries|
        invariant closes == CloseRows(entries[..k])
      {
        assert entries[..k + 1][..k] == entries[..k];
        if entries[k].event.Closed? {
          closes := closes + [entries[k]];
        }
      }
      assert entries[..|entries|] == entries;
    }
  }

  function CloseRows(entries: seq<LedgerEntry>): seq<LedgerEntry> {
    if entries == [] then []
    else
      var init, last := entries[..|entries| - 1], entries[|entries| - 1];
      if last.event.Closed? then CloseRows(init) + [last] else CloseRows(init)
  }

  lemma {:induction false} OnlyCloseRows(entries: seq<LedgerEntry>, e: LedgerEntry)
    ensures multiset(CloseRows(entries))[e] == if e.event.Closed? then multiset(entries)[e] else 0
  {
    if entries != [] {
      OnlyCloseRows(entries[..|entries| - 1], e);
      assert entries == entries[..|entries| - 1] + [entries[|entries| - 1]];
    }
  }

  lemma {:induction false} CloseRowsInOrder(entries: seq<LedgerEntry>, more: seq<LedgerEntry>)
    ensures CloseRows(entries + more) == CloseRows(entries) + CloseRows(more)
  {
    if more == [] {
      assert entries + more == entries;
    } else {
      assert (entries + more)[..|entries + more| - 1] == entries + more[..|more| - 1];
      CloseRowsInOrder(entries, more[..|more| - 1]);
    }
  }

  /** Each close row as often as it was recorded and nothing else; and what is recorded later comes later. */
  lemma CloseRowsAre(entries: seq<LedgerEntry>, more: seq<LedgerEntry>)
    ensures forall e :: multiset(CloseRows(entries))[e] == if e.event.Closed? then multiset(entries)[e] else 0
    ensures CloseRows(entries + more) == CloseRows(entries) + CloseRows(more)
  {
    hide CloseRows;
    CloseRowsInOrder(entries, more);
    forall e ensures multiset(CloseRows(entries))[e] == if e.event.Closed? then multiset(entries)[e] else 0 {
      OnlyCloseRows(entries, e);
    }
  }

  function InsertEntry(x: LedgerEntry, s: seq<LedgerEntry>): seq<LedgerEntry> {
    if s == [] || x.ts <= s[0].ts then [x] + s else [s[0]] + InsertEntry(x, s[1..])
  }

  function SortEntries(s: seq<LedgerEntry>): seq<LedgerEntry> {
    if s == [] then [] else InsertEntry(s[0], SortEntries(s[1..]))
  }

  lemma {:induction false} InsertEntryElements(x: LedgerEntry, s: seq<LedgerEntry>)
    ensures forall e :: e in InsertEntry(x, s) <==> e == x || e in s
  {
    if s == [] || x.ts <= s[0].ts {
    } else {
      InsertEntryElements(x, s[1..]);
      assert s == [s[0]] + s[1..];
    }
  }

  predicate TimeOrdered(s: seq<LedgerEntry>) {
    forall i, j :: 0 <= i < j < |s| ==> s[i].ts <= s[j].ts
  }

  lemma {:induction false} InsertEntrySorts(x: LedgerEntry, s: seq<LedgerEntry>)
    requires TimeOrdered(s)
    ensures TimeOrdered(InsertEntry(x, s))
  {
    if s == [] || x.ts <= s[0].ts {
    } else {
      InsertEntrySorts(x, s[1..]);
      InsertEntryElements(x, s[1..]);
      var r := InsertEntry(x, s[1..]);
      forall j | 0 <= j < |r| ensures s[0].ts <= r[j].ts { assert r[j] in r; }
    }
  }

  lemma {:induction false} InsertEntryMultiset(x: LedgerEntry, s: seq<LedgerEntry>)
    ensures multiset(InsertEntry(x, s)) == multiset{x} + multiset(s)
  {
    if s == [] || x.ts <= s[0].ts {
    } else {
      InsertEntryMultiset(x, s[1..]);
      assert s == [s[0]] + s[1..];
    }
  }

  /** Reloading keeps every row and puts them in time order. */
  lemma {:induction false} SortEntriesSorts(s: seq<LedgerEntry>)
    ensures multiset(SortEntries(s)) == multiset(s)
    ensures TimeOrdered(SortEntries(s))
  {
    if s != [] {
      SortEntriesSorts(s[1..]);
      InsertEntrySorts(s[0], SortEntries(s[1..]));
      InsertEntryMultiset(s[0], SortEntries(s[1..]));
      assert s == [s[0]] + s[1..];
    }
  }

  /** The ids of taken signals still without a result. */
  function OpenIds(rows: map<int, SignalRow>): set<int> {
    set id | id in rows && rows[id].taken && rows[id].outcome == Some(Open)
  }

  predicate SignalsInOrder(s: seq<SignalRow>) {
    forall i, j :: 0 <= i < j < |s| ==> s[i].ts <= s[j].ts && s[i].signalId != s[j].signalId
  }

  function InsertSignal(x: SignalRow, s: seq<SignalRow>): (r: seq<SignalRow>)
    requires SignalsInOrder(s) && forall row :: row in s ==> row.signalId != x.signalId
    ensures SignalsInOrder(r) && forall row :: row in r <==> row == x || row in s
  {
    if s == [] || x.ts <= s[0].ts then [x] + s
    else
      assert forall row :: row in s <==> row == s[0] || row in s[1..];
      var rest := InsertSignal(x, s[1..]);
      assert forall j :: 0 <= j < |rest| ==> rest[j] in rest;
      [s[0]] + rest
  }

  /** Signal rows by id; outcomes are filled in once a trade closes. */
  class SignalStore {
    var rows: map<int, SignalRow>
    const journal: Journal

    constructor (journal: Journal, rows: map<int, SignalRow>)
      ensures this.journal == journal && this.rows == rows
    {
      this.journal := journal;
      this.rows := rows;
    }

    method Append(row: SignalRow)
      modifies this, journal
      ensures rows == old(rows)[row.signalId := row]
      ensures journal.log == old(journal.log) + [Published(row)]
    {
      rows := rows[row.signalId := row];
      journal.log := journal.log + [Published(row)];
    }

    /** Update the row with this id, if there is one. */
    method ResolveOutcome(id: int, outcome: Outcome, mae: real, mfe: real, r: real)
      modifies this, journal
      ensures rows == Resolve(old(rows), id, outcome, mae, mfe, r)
      ensures journal.log == old(journal.log) + [Resolved(id, outcome, mae, mfe, r)]
    {
      rows := Resolve(rows, id, outcome, mae, mfe, r);
      journal.log := journal.log + [Resolved(id, outcome, mae, mfe, r)];
    }

    /** The open signals, each once, in time order. */
    method ReadOpen() returns (open: seq<SignalRow>)
      requires forall id :: id in rows ==> rows[id].signalId == id
      ensures forall row :: row in open <==> row.signalId in OpenIds(rows) && rows[row.signalId] == row
      ensures SignalsInOrder(open)
    {
      open := [];
      var todo := OpenIds(rows);
      while todo != {}
        invariant todo <= OpenIds(rows) && SignalsInOrder(open)
        invariant forall row :: row in open <==> row.signalId in OpenIds(rows) - todo && rows[row.signalId] == row
        decreases todo
      {
        SomeMember(todo);
        var id :| id in todo;
        open := InsertSignal(rows[id], open);
        todo := todo - {id};
      }
    }
  }
}

/** What a management pass leaves in memory and in the tables, read off the list it walked: for any adapter, any
    list with distinct trades, and wherever the pass stops. The positions it got through are saved or closed, the
    others are as they were. */
module PassTables {
  import opened Prelude
  import opened Bars
  import opened Execution
  import opened Records
  import opened LiveLoop
  import opened CrashSafety
  import opened Tickets
  import opened TableAgreement

  /** The trades among the first k that do not come up for exit: each is saved again. */
  function SavedIds(open: seq<LivePosition>, b: Bar, now: int, k: nat): set<int>
    requires k <= |open|
  {
    if k == 0 then {}
    else SavedIds(open, b, now, k - 1) + if CheckExit(open[k - 1], b, now).None? then {open[k - 1].tradeId} else {}
  }

  /** The trades among the first k that come up for exit. */
  function ExitIds(open: seq<LivePosition>, b: Bar, now: int, k: nat): set<int>
    requires k <= |open|
  {
    if k == 0 then {}
    else ExitIds(open, b, now, k - 1) + if CheckExit(open[k - 1], b, now).Some? then {open[k - 1].tradeId} else {}
  }

  lemma {:induction false} IdsAmong(open: seq<LivePosition>, b: Bar, now: int, k: nat, id: int)
    requires k <= |open|
    ensures id in SavedIds(open, b, now, k) <==> exists j ::
      0 <= j < k && open[j].tradeId == id && CheckExit(open[j], b, now).None?
    ensures id in ExitIds(open, b, now, k) <==> exists j ::
      0 <= j < k && open[j].tradeId == id && CheckExit(open[j], b, now).Some?
  {
    hide CheckExit;
    if k > 0 {
      IdsAmong(open, b, now, k - 1, id);
      if open[k - 1].tradeId == id {
        assert CheckExit(open[k - 1], b, now).None? || CheckExit(open[k - 1], b, now).Some?;
      }
    }
  }

  lemma FreshAt(open: seq<LivePosition>, b: Bar, now: int, k: nat)
    requires DistinctIds(open) && k < |open|
    ensures open[k].tradeId !in SavedIds(open, b, now, k) && open[k].tradeId !in ExitIds(open, b, now, k)
  {
    IdsAmong(open, b, now, k, open[k].tradeId);
  }

  // ---------------------------------------------------------------- tables

  /** The tables once the first m positions have been dealt with. */
  ghost predicate TablesAfter(d0: Disk, d: Disk, open: seq<LivePosition>, b: Bar, now: int, m: nat)
    requires m <= |open|
  {
    && d.positions.Keys == (d0.positions.Keys + SavedIds(open, b, now, m)) - ExitIds(open, b, now, m)
    && (forall id :: HasClose(d.ledger, id) <==> HasClose(d0.ledger, id) || id in ExitIds(open, b, now, m))
    && (forall id :: HasOpen(d.ledger, id) <==> HasOpen(d0.ledger, id))
  }

  lemma SaveTables(d0: Disk, d: Disk, open: seq<LivePosition>, b: Bar, now: int, k: nat, u: LivePosition)
    requires DistinctIds(open) && k < |open| && TablesAfter(d0, d, open, b, now, k)
    requires CheckExit(open[k], b, now).None? && u.tradeId == open[k].tradeId
    ensures TablesAfter(d0, d.(positions := d.positions[u.tradeId := u]), open, b, now, k + 1)
  {
    hide HasClose, HasOpen, CheckExit, DistinctIds;
    FreshAt(open, b, now, k);
  }

  lemma CloseTables(d0: Disk, d: Disk, e: Disk, open: seq<LivePosition>, b: Bar, now: int, k: nat, row: LedgerEntry)
    requires DistinctIds(open) && k < |open| && TablesAfter(d0, d, open, b, now, k)
    requires CheckExit(open[k], b, now).Some? && row.tradeId == open[k].tradeId && row.event.Closed?
    requires e.positions == d.positions - {row.tradeId} && e.ledger == d.ledger + [row]
    ensures TablesAfter(d0, e, open, b, now, k + 1)
  {
    hide HasClose, HasOpen, CheckExit, DistinctIds;
    FreshAt(open, b, now, k);
    LedgerGrows(d.ledger, row);
  }

  /** Every stored row is an entry of the list, under its own id. */
  ghost predicate RowsListed(rows: map<int, LivePosition>, open: seq<LivePosition>) {
    forall id {:trigger rows[id]} :: id in rows ==> rows[id].tradeId == id && rows[id] in open
  }

  lemma SaveListed(rows: map<int, LivePosition>, open: seq<LivePosition>, k: nat, u: LivePosition)
    requires RowsListed(rows, open) && DistinctIds(open) && k < |open| && u.tradeId == open[k].tradeId
    ensures RowsListed(rows[u.tradeId := u], open[k := u]) && DistinctIds(open[k := u])
  {
    var list, more := open[k := u], rows[u.tradeId := u];
    assert list[k] == u;
    forall id {:trigger more[id]} | id in more ensures more[id].tradeId == id && more[id] in list {
      if id != u.tradeId {
        assert rows[id] in open;
        var j :| 0 <= j < |open| && open[j] == rows[id];
        assert list[j] == rows[id];
      }
    }
  }

  /** A management pass after its first k rounds: Handled says how many positions they got through. */
  ghost predicate PassState(c: Config, s: Live, b: Bar, now: int, k: nat, p: Pass)
    requires k <= |s.open|
  {
    && TablesAfter(s.disk, ApplyAll(s.disk, p.effects), s.open, b, now, Handled(c, s, b, now, k))
    && |p.book| == |s.open| && DistinctIds(p.book)
    && (RowsListed(s.disk.positions, s.open) ==> RowsListed(ApplyAll(s.disk, p.effects).positions, p.book))
    && (forall j {:trigger p.book[j]} :: 0 <= j < |p.book| ==>
          p.book[j] == if j < Handled(c, s, b, now, k)
            && CheckExit(s.open[j], b, now).None? then WithExcursion(s.open[j], b) else s.open[j])
    && (!p.raised ==> Handled(c, s, b, now, k) == k)
  }

  lemma NothingHandled(c: Config, s: Live, b: Bar, now: int)
    requires DistinctIds(s.open)
    ensures PassState(c, s, b, now, 0, Begin(s))
  {
  }

  lemma SurvivePasses(c: Config, s: Live, b: Bar, now: int, k: nat, p: Pass)
    requires DistinctIds(s.open) && k < |s.open| && p == ManageTo(c, Begin(s), b, now, k) && !p.raised
    requires PassState(c, s, b, now, k, p) && CheckExit(s.open[k], b, now).None?
    ensures PassState(c, s, b, now, k + 1, Survive(p, k, b))
  {
    hide TablesAfter, ApplyAll, RowsListed, CheckExit, DistinctIds, WithExcursion;
    assert p.book[k] == s.open[k];
    var u := WithExcursion(s.open[k], b);
    SameTrade(s.open[k], b);
    OneMore(s.disk, [], p.effects, Saved(u));
    SaveTables(s.disk, ApplyAll(s.disk, p.effects), s.open, b, now, k, u);
    if RowsListed(s.disk.positions, s.open) {
      SaveListed(ApplyAll(s.disk, p.effects).positions, p.book, k, u);
    }
    DistinctAfter(p.book, k, u);
  }

  lemma SameTrade(p: LivePosition, b: Bar)
    ensures WithExcursion(p, b).tradeId == p.tradeId && WithExcursion(p, b).ticket == p.ticket
  {
  }

  lemma DistinctAfter(open: seq<LivePosition>, k: nat, u: LivePosition)
    requires DistinctIds(open) && k < |open| && u.tradeId == open[k].tradeId
    ensures DistinctIds(open[k := u])
  {
  }

  lemma ClosePasses(c: Config, s: Live, b: Bar, now: int, k: nat, p: Pass)
    requires DistinctIds(s.open) && k < |s.open| && p == ManageTo(c, Begin(s), b, now, k) && !p.raised
    requires PassState(c, s, b, now, k, p) && CheckExit(s.open[k], b, now).Some?
    ensures PassState(c, s, b, now, k + 1, CloseOne(c, p, k, b, now))
  {
    hide TablesAfter, ApplyAll, CheckExit, DistinctIds, WithExcursion, Submit, ClosePnl, RMultiple, CloseEffects;
    assert p.book[k] == s.open[k];
    var pos := s.open[k];
    var order := CloseOrder(c, pos, b, now, p.nextId);
    var answer := Submit(p.adapter, order).1;
    OneMore(s.disk, [], p.effects, Sent(order, pos.tradeId, answer));
    if answer.Ok? {
      CloseEffectsApplied(c, s.disk, p.effects, pos, now, answer.value, order, answer);
      var q := CloseOne(c, p, k, b, now);
      CloseTables(s.disk, ApplyAll(s.disk, p.effects), ApplyAll(s.disk, q.effects), s.open, b, now, k,
        CloseRow(c, pos, now, answer.value));
    }
  }

  lemma {:induction false} ManagePasses(c: Config, s: Live, b: Bar, now: int, k: nat)
    requires DistinctIds(s.open) && k <= |s.open|
    ensures PassState(c, s, b, now, k, ManageTo(c, Begin(s), b, now, k))
  {
    hide CloseOne, Survive, CheckExit, DistinctIds, TablesAfter, RowsListed, ApplyAll, WithExcursion;
    if k == 0 {
      NothingHandled(c, s, b, now);
    } else {
      ManagePasses(c, s, b, now, k - 1);
      var p := ManageTo(c, Begin(s), b, now, k - 1);
      if !p.raised {
        assert p.book[k - 1] == s.open[k - 1];
        if CheckExit(p.book[k - 1], b, now).None? {
          SurvivePasses(c, s, b, now, k - 1, p);
        } else {
          ClosePasses(c, s, b, now, k - 1, p);
        }
      }
    }
  }

  // ---------------------------------------------------------------- the survivors

  /** The list that replaces the old one when the pass completes. */
  ghost predicate IsKept(open: seq<LivePosition>, b: Bar, now: int, k: nat, kept: seq<LivePosition>)
    requires k <= |open|
  {
    && (forall i, j :: 0 <= i < j < |kept| ==> kept[i].tradeId != kept[j].tradeId)
    && (forall q :: q in kept <==> exists j ::
      0 <= j < k && CheckExit(open[j], b, now).None? && q == WithExcursion(open[j], b))
  }

  lemma KeptGrows(open: seq<LivePosition>, b: Bar, now: int, k: nat, kept: seq<LivePosition>)
    requires DistinctIds(open) && k < |open| && IsKept(open, b, now, k, kept)
    ensures CheckExit(open[k], b, now).None? ==> IsKept(open, b, now, k + 1, kept + [WithExcursion(open[k], b)])
    ensures CheckExit(open[k], b, now).Some? ==> IsKept(open, b, now, k + 1, kept)
  {
    hide CheckExit, WithExcursion;
    if CheckExit(open[k], b, now).None? {
      var u := WithExcursion(open[k], b);
      var more := kept + [u];
      SameTrade(open[k], b);
      forall i | 0 <= i < |kept| ensures kept[i].tradeId != u.tradeId {
        assert kept[i] in kept;
        var j :| 0 <= j < k && CheckExit(open[j], b, now).None? && kept[i] == WithExcursion(open[j], b);
        SameTrade(open[j], b);
      }
      forall q
        ensures q in more <==> exists j ::
          0 <= j < k + 1 && CheckExit(open[j], b, now).None? && q == WithExcursion(open[j], b)
      {
        assert q in more <==> q in kept || q == u;
      }
    }
  }

  lemma {:induction false} ManageKeeps(c: Config, s: Live, b: Bar, now: int, k: nat)
    requires DistinctIds(s.open) && k <= |s.open| && !ManageTo(c, Begin(s), b, now, k).raised
    ensures IsKept(s.open, b, now, k, ManageTo(c, Begin(s), b, now, k).kept)
  {
    hide CheckExit, DistinctIds, WithExcursion, IsKept, CloseEffects, Submit, CloseOrder, ClosePnl;
    if k == 0 {
      NothingKept(s.open, b, now);
    } else {
      ManageKeeps(c, s, b, now, k - 1);
      BookAfter(c, s, b, now, k - 1);
      var p := ManageTo(c, Begin(s), b, now, k - 1);
      assert p.book[k - 1] == s.open[k - 1];
      KeptGrows(s.open, b, now, k - 1, p.kept);
    }
  }

  lemma NothingKept(open: seq<LivePosition>, b: Bar, now: int)
    ensures IsKept(open, b, now, 0, [])
  {
  }
}

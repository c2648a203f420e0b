/** Exactly which statements of a poll a crash may not separate: after which last statement the tables disagree, and
    after which broker and store are out of step. */
module CrashCuts {
  import opened Prelude
  import opened Bars
  import opened Execution
  import opened Records
  import opened Stores
  import opened LiveLoop
  import opened CrashSafety
  import opened Tickets
  import opened TableAgreement
  import opened PassTables
  import Backtest
  import Rules

  /** The position store holds exactly the trades the ledger shows open. */
  ghost predicate TablesCoincide(d: Disk) {
    forall id :: id in d.positions <==> OpenInLedger(d.ledger, id)
  }

  /** Memory lists the store, and no id is ahead of the counter. */
  ghost predicate Mirrored(s: Live) {
    Lists(s.open, s.disk.positions) && IdsBelow(s.disk, s.nextId)
  }

  lemma MirroredList(s: Live)
    requires Mirrored(s)
    ensures DistinctIds(s.open) && RowsListed(s.disk.positions, s.open)
    ensures forall j {:trigger s.open[j]} :: 0 <= j < |s.open| ==>
      s.open[j].tradeId in s.disk.positions && s.disk.positions[s.open[j].tradeId] == s.open[j]
        && s.open[j].tradeId < s.nextId
  {
    forall j {:trigger s.open[j]} | 0 <= j < |s.open|
      ensures s.open[j].tradeId in s.disk.positions && s.disk.positions[s.open[j].tradeId] == s.open[j]
      ensures s.open[j].tradeId < s.nextId
    {
      assert s.open[j] in s.open;
    }
    forall id {:trigger s.disk.positions[id]} | id in s.disk.positions ensures s.disk.positions[id] in s.open {
      assert s.disk.positions[id].tradeId == id;
    }
  }

  /** The position the walk comes to is stored as it is listed. */
  lemma NextStored(c: Config, s: Live, b: Bar, now: int, k: nat)
    requires Mirrored(s) && k < |s.open| && !ManageTo(c, Begin(s), b, now, k).raised
    ensures var p := ManageTo(c, Begin(s), b, now, k); var rows := ApplyAll(s.disk, p.effects).positions;
      p.book[k] == s.open[k] && s.open[k].tradeId in rows && rows[s.open[k].tradeId] == s.open[k]
  {
    hide ManageTo, ApplyAll, IdsBelow, StraysSurvive, NothingClosed;
    ManageTracks(c, s, b, now, k);
    var p := ManageTo(c, Begin(s), b, now, k);
    assert (p.kept + s.open[k..])[|p.kept|] == s.open[k];
    assert s.open[k] in p.kept + s.open[k..];
  }

  // ---------------------------------------------------------------- the two tables

  /** The statements after which a trade is in one table only: a close row, the outcome that follows it, and
      the first save of a new position. */
  predicate Halfway(d0: Disk, e: Effect) {
    IsCloseRow(e) || e.Resolved? || (e.Saved? && e.position.tradeId !in d0.positions)
  }

  ghost predicate CutsExact(d0: Disk, es: seq<Effect>) {
    forall cut :: 0 <= cut <= |es| ==>
      (TablesCoincide(ApplyAll(d0, es[..cut])) <==> cut == 0 || !Halfway(d0, es[cut - 1]))
  }

  lemma ExtendCuts(d0: Disk, es: seq<Effect>, e: Effect)
    requires CutsExact(d0, es) && (TablesCoincide(Apply(ApplyAll(d0, es), e)) <==> !Halfway(d0, e))
    ensures CutsExact(d0, es + [e])
  {
    hide TablesCoincide, Halfway, ApplyAll, Apply;
    var all := es + [e];
    OneMore(d0, [], es, e);
    forall cut | 0 <= cut <= |all|
      ensures TablesCoincide(ApplyAll(d0, all[..cut])) <==> cut == 0 || !Halfway(d0, all[cut - 1])
    {
      if cut <= |es| {
        assert all[..cut] == es[..cut];
      } else {
        assert all[..cut] == all;
      }
    }
  }

  lemma BoundaryCoincides(s: Live, d: Disk, b: Bar, now: int, m: nat)
    requires Mirrored(s) && TablesCoincide(s.disk) && m <= |s.open| && TablesAfter(s.disk, d, s.open, b, now, m)
    ensures TablesCoincide(d)
  {
    hide HasClose, HasOpen, Lists, IdsBelow, DistinctIds, RowsListed;
    MirroredList(s);
    forall id ensures id in SavedIds(s.open, b, now, m) ==> id in s.disk.positions {
      IdsAmong(s.open, b, now, m, id);
    }
  }

  lemma HalfClosed(d: Disk, row: LedgerEntry, rows: map<int, SignalRow>)
    requires row.event.Closed? && row.tradeId in d.positions
    ensures !TablesCoincide(Disk(d.positions, d.ledger + [row], rows))
  {
    LedgerGrows(d.ledger, row);
  }

  /** The statements of one position keep the cuts exact. */
  lemma CloseCuts(c: Config, s: Live, b: Bar, now: int, k: nat, p: Pass)
    requires Mirrored(s) && TablesCoincide(s.disk) && k < |s.open| && p == ManageTo(c, Begin(s), b, now, k) && !p.raised
    requires CutsExact(s.disk, p.effects) && CheckExit(s.open[k], b, now).Some?
    ensures CutsExact(s.disk, CloseOne(c, p, k, b, now).effects)
  {
    hide CutsExact, TablesCoincide, Mirrored, CheckExit, Submit, ClosePnl, RMultiple, ManageTo, ApplyAll, Lists,
      IdsBelow, DistinctIds;
    MirroredList(s);
    ManagePasses(c, s, b, now, k);
    var pos, d := s.open[k], ApplyAll(s.disk, p.effects);
    assert p.book[k] == pos;
    BoundaryCoincides(s, d, b, now, k);
    var order := CloseOrder(c, pos, b, now, p.nextId);
    var answer := Submit(p.adapter, order).1;
    var e := Sent(order, pos.tradeId, answer);
    ExtendCuts(s.disk, p.effects, e);
    if answer.Ok? {
      ClosePasses(c, s, b, now, k, p);
      FilledCloseCuts(c, s, b, now, k, p, answer.value, e);
    }
  }

  /** The tables after the close row, and after the outcome. */
  lemma HalfwayTables(c: Config, d0: Disk, es: seq<Effect>, p: LivePosition, now: int, fill: Fill)
    ensures var d, f := ApplyAll(d0, es), CloseEffects(c, p, now, fill);
      && ApplyAll(d0, es + [f[0]]) == d.(ledger := d.ledger + [CloseRow(c, p, now, fill)])
      && ApplyAll(d0, es + [f[0]] + [f[1]]).positions == d.positions
      && ApplyAll(d0, es + [f[0]] + [f[1]]).ledger == d.ledger + [CloseRow(c, p, now, fill)]
      && es + [f[0]] + [f[1]] + [f[2]] == es + f
  {
    hide ClosePnl, RMultiple, ApplyAll, Resolve;
    var f := CloseEffects(c, p, now, fill);
    OneMore(d0, [], es, f[0]);
    OneMore(d0, [], es + [f[0]], f[1]);
  }

  lemma FilledCloseCuts(c: Config, s: Live, b: Bar, now: int, k: nat, p: Pass, fill: Fill, e: Effect)
    requires Mirrored(s) && TablesCoincide(s.disk) && k < |s.open| && PassState(c, s, b, now, k, p) && !p.raised
    requires e.Sent? && CutsExact(s.disk, p.effects + [e])
    requires var es := p.effects + [e] + CloseEffects(c, s.open[k], now, fill);
      TablesAfter(s.disk, ApplyAll(s.disk, es), s.open, b, now, k + 1)
    ensures CutsExact(s.disk, p.effects + [e] + CloseEffects(c, s.open[k], now, fill))
  {
    hide CutsExact, TablesCoincide, Mirrored, CheckExit, ClosePnl, RMultiple, ApplyAll, Lists, IdsBelow, DistinctIds,
      RowsListed, TablesAfter, Resolve;
    var pos, d, es, f := s.open[k], ApplyAll(s.disk, p.effects), p.effects + [e], CloseEffects(c, s.open[k], now, fill);
    OneMore(s.disk, [], p.effects, e);
    HalfwayTables(c, s.disk, es, pos, now, fill);
    OneMore(s.disk, [], es, f[0]);
    OneMore(s.disk, [], es + [f[0]], f[1]);
    OneMore(s.disk, [], es + [f[0]] + [f[1]], f[2]);
    StillThere(s, d, b, now, k);
    var row := f[0].entry;
    HalfClosed(d, row, d.signals);
    ExtendCuts(s.disk, es, f[0]);
    HalfClosed(d, row, ApplyAll(s.disk, es + [f[0]] + [f[1]]).signals);
    ExtendCuts(s.disk, es + [f[0]], f[1]);
    BoundaryCoincides(s, ApplyAll(s.disk, es + f), b, now, k + 1);
    ExtendCuts(s.disk, es + [f[0]] + [f[1]], f[2]);
  }

  lemma StillThere(s: Live, d: Disk, b: Bar, now: int, k: nat)
    requires Mirrored(s) && k < |s.open| && TablesAfter(s.disk, d, s.open, b, now, k)
    ensures s.open[k].tradeId in d.positions
  {
    hide HasClose, HasOpen, CheckExit, Lists, IdsBelow, DistinctIds, RowsListed;
    MirroredList(s);
    FreshAt(s.open, b, now, k);
  }

  lemma SurviveCuts(c: Config, s: Live, b: Bar, now: int, k: nat, p: Pass)
    requires Mirrored(s) && TablesCoincide(s.disk) && k < |s.open| && p == ManageTo(c, Begin(s), b, now, k) && !p.raised
    requires CutsExact(s.disk, p.effects) && CheckExit(s.open[k], b, now).None?
    ensures CutsExact(s.disk, Survive(p, k, b).effects)
  {
    hide CutsExact, TablesCoincide, Mirrored, CheckExit, ManageTo, ApplyAll, WithExcursion, Lists, IdsBelow,
      DistinctIds, RowsListed, TablesAfter;
    MirroredList(s);
    ManagePasses(c, s, b, now, k);
    SurvivePasses(c, s, b, now, k, p);
    assert p.book[k] == s.open[k];
    var u := WithExcursion(s.open[k], b);
    SameTrade(s.open[k], b);
    OneMore(s.disk, [], p.effects, Saved(u));
    SurvivorHandled(c, s, b, now, k, p);
    BoundaryCoincides(s, ApplyAll(s.disk, p.effects + [Saved(u)]), b, now, k + 1);
    ExtendCuts(s.disk, p.effects, Saved(u));
  }

  lemma SurvivorHandled(c: Config, s: Live, b: Bar, now: int, k: nat, p: Pass)
    requires k < |s.open| && p == ManageTo(c, Begin(s), b, now, k) && !p.raised
    requires PassState(c, s, b, now, k + 1, Survive(p, k, b))
    ensures TablesAfter(s.disk, ApplyAll(s.disk, Survive(p, k, b).effects), s.open, b, now, k + 1)
  {
    hide TablesAfter, ApplyAll, RowsListed, DistinctIds;
    SurviveRaisesNothing(p, k, b);
  }

  lemma {:induction false} ManageCuts(c: Config, s: Live, b: Bar, now: int, k: nat)
    requires Mirrored(s) && TablesCoincide(s.disk) && k <= |s.open|
    ensures CutsExact(s.disk, ManageTo(c, Begin(s), b, now, k).effects)
  {
    hide CutsExact, TablesCoincide, Mirrored, CheckExit, CloseOne, Survive;
    if k == 0 {
      NoCut(s.disk);
    } else {
      ManageCuts(c, s, b, now, k - 1);
      var p := ManageTo(c, Begin(s), b, now, k - 1);
      if !p.raised {
        BookAfter(c, s, b, now, k - 1);
        assert p.book[k - 1] == s.open[k - 1];
        if CheckExit(p.book[k - 1], b, now).None? {
          SurviveCuts(c, s, b, now, k - 1, p);
        } else {
          CloseCuts(c, s, b, now, k - 1, p);
        }
      }
    }
  }

  lemma NoCut(d: Disk)
    requires TablesCoincide(d)
    ensures CutsExact(d, [])
  {
  }

  lemma EnterCuts(c: Config, d0: Disk, p: Pass, v: Rules.Verdict, r: Backtest.Reading, b: Bar, now: int, signalId: int)
    requires MayEnter(c, p.equity, |p.book|, v) && CutsExact(d0, p.effects)
    requires TablesCoincide(ApplyAll(d0, p.effects)) && IdsBelow(ApplyAll(d0, p.effects), p.nextId)
    requires IdsBelow(d0, p.nextId)
    ensures CutsExact(d0, Enter(c, p, v, r.fv, b, now, signalId).effects)
  {
    hide CutsExact, TablesCoincide, GateDecision, OpenOrder, ApplyAll, IdsBelow, Submit;
    var size, d := GateDecision(c, p.equity, |p.book|, v).sizeUnits, ApplyAll(d0, p.effects);
    var order := OpenOrder(c, v, r.fv, b, now, size, p.nextId);
    var answer := Submit(p.adapter, order).1;
    var e := Sent(order, p.nextId + 1, answer);
    ExtendCuts(d0, p.effects, e);
    OneMore(d0, [], p.effects, e);
    if answer.Ok? {
      var pos := NewPosition(c, v, answer.value, signalId, p.nextId + 1, now);
      var row, sent := OpenRow(c, pos, now, answer.value), p.effects + [e];
      HalfOpened(d0, d, pos, row, p.nextId);
      ExtendCuts(d0, sent, Saved(pos));
      OneMore(d0, [], sent, Saved(pos));
      ExtendCuts(d0, sent + [Saved(pos)], Recorded(row));
      assert sent + [Saved(pos)] + [Recorded(row)] == p.effects + [e, Saved(pos), Recorded(row)];
    }
  }

  lemma HalfOpened(d0: Disk, d: Disk, p: LivePosition, row: LedgerEntry, n: int)
    requires TablesCoincide(d) && IdsBelow(d, n) && IdsBelow(d0, n) && p.tradeId == n + 1 == row.tradeId
    requires row.event.Opened?
    ensures p.tradeId !in d0.positions
    ensures !TablesCoincide(d.(positions := d.positions[p.tradeId := p]))
    ensures TablesCoincide(Disk(d.positions[p.tradeId := p], d.ledger + [row], d.signals))
  {
    LedgerGrows(d.ledger, row);
    assert !HasOpen(d.ledger, p.tradeId) && !HasClose(d.ledger, p.tradeId);
    var half := d.(positions := d.positions[p.tradeId := p]);
    assert p.tradeId in half.positions && !OpenInLedger(half.ledger, p.tradeId);
  }

  /** From memory that lists the store and tables that coincide, for any adapter and any number of positions:
      cut a poll after any statement, and the tables coincide if and only if the last statement is not a close
      row, an outcome, or the first save of a new position. */
  lemma PollCutsExact(c: Config, s: Live, b: Bar, now: int, r: Backtest.Reading)
    requires Mirrored(s) && TablesCoincide(s.disk)
    ensures CutsExact(s.disk, PassOf(c, s, b, now, r).effects)
  {
    hide CutsExact, TablesCoincide, ManageTo, MayEnter, Enter, SignalOf, Lists, IdsBelow, ApplyAll, DistinctIds,
      NothingClosed, RowsListed, TablesAfter;
    ManageCuts(c, s, b, now, |s.open|);
    var m, v := Manage(c, s, b, now), r.verdict;
    if !m.raised && (v.Taken? || v.TurnedDown?) {
      ManageSettles(c, s, b, now);
      CounterOfManage(c, s, b, now);
      MirroredList(s);
      ManagePasses(c, s, b, now, |s.open|);
      BoundaryCoincides(s, ApplyAll(s.disk, m.effects), b, now, |s.open|);
      var row := SignalOf(m.nextId, now, v);
      var q := Publish(m, row);
      OneMore(s.disk, [], m.effects, Published(row));
      OtherSignals(ApplyAll(s.disk, m.effects), Published(row));
      ExtendCuts(s.disk, m.effects, Published(row));
      PublishSettles(s, m, row);
      if MayEnter(c, q.equity, |q.book|, v) {
        MoreIds(s.disk, s.nextId, q.nextId);
        EnterCuts(c, s.disk, q, v, r, b, now, m.nextId);
      }
    }
  }

  lemma OtherSignals(d: Disk, e: Effect)
    requires e.Published? && TablesCoincide(d)
    ensures TablesCoincide(Apply(d, e))
  {
  }

  // ---------------------------------------------------------------- the answers of the broker

  /** The answers are those the adapter gives to these orders, one after another. */
  ghost predicate Answered(x: Adapter, es: seq<Effect>) {
    forall i {:trigger es[i]} :: 0 <= i < |es| && es[i].Sent? ==>
      Submit(AdapterAfter(x, es[..i]), es[i].order).1 == es[i].answer
  }

  lemma ExtendAnswered(x: Adapter, es: seq<Effect>, e: Effect)
    requires Answered(x, es) && (e.Sent? ==> Submit(AdapterAfter(x, es), e.order).1 == e.answer)
    ensures Answered(x, es + [e])
    ensures AdapterAfter(x, es + [e]) == if e.Sent? then Submit(AdapterAfter(x, es), e.order).0 else AdapterAfter(x, es)
  {
    hide Submit;
    var all := es + [e];
    assert all[..|es|] == es;
    forall i {:trigger all[i]} | 0 <= i < |all| && all[i].Sent?
      ensures Submit(AdapterAfter(x, all[..i]), all[i].order).1 == all[i].answer
    {
      if i < |es| { assert all[..i] == es[..i] && all[i] == es[i]; }
    }
  }

  lemma ExtendAnsweredClose(c: Config, x: Adapter, es: seq<Effect>, p: LivePosition, now: int, fill: Fill)
    requires Answered(x, es)
    ensures Answered(x, es + CloseEffects(c, p, now, fill))
    ensures AdapterAfter(x, es + CloseEffects(c, p, now, fill)) == AdapterAfter(x, es)
  {
    hide Answered, AdapterAfter, ClosePnl, CloseRow;
    var f := CloseEffects(c, p, now, fill);
    ExtendAnswered(x, es, f[0]);
    ExtendAnswered(x, es + [f[0]], f[1]);
    ExtendAnswered(x, es + [f[0]] + [f[1]], f[2]);
    assert es + [f[0]] + [f[1]] + [f[2]] == es + f;
  }

  /** The pass so far carries the adapter's own answers, and the adapter they lead to. */
  ghost predicate TrueTo(x: Adapter, p: Pass) {
    Answered(x, p.effects) && p.adapter == AdapterAfter(x, p.effects)
  }

  lemma CloseTrueTo(c: Config, x: Adapter, p: Pass, k: nat, b: Bar, now: int)
    requires k < |p.book| && TrueTo(x, p)
    ensures TrueTo(x, CloseOne(c, p, k, b, now))
  {
    hide Answered, AdapterAfter, Submit, ClosePnl, CloseEffects;
    var order := CloseOrder(c, p.book[k], b, now, p.nextId);
    var answer := Submit(p.adapter, order).1;
    var e := Sent(order, p.book[k].tradeId, answer);
    ExtendAnswered(x, p.effects, e);
    if answer.Ok? { ExtendAnsweredClose(c, x, p.effects + [e], p.book[k], now, answer.value); }
  }

  lemma {:induction false} ManageTrueTo(c: Config, s: Live, b: Bar, now: int, k: nat)
    requires k <= |s.open|
    ensures TrueTo(s.adapter, ManageTo(c, Begin(s), b, now, k))
  {
    hide CloseOne, CheckExit, WithExcursion, AdapterAfter;
    if k == 0 {
      NothingSent(s.adapter);
    } else {
      ManageTrueTo(c, s, b, now, k - 1);
      var p := ManageTo(c, Begin(s), b, now, k - 1);
      if !p.raised {
        if CheckExit(p.book[k - 1], b, now).None? {
          ExtendAnswered(s.adapter, p.effects, Saved(WithExcursion(p.book[k - 1], b)));
        } else {
          CloseTrueTo(c, s.adapter, p, k - 1, b, now);
        }
      }
    }
  }

  lemma NothingSent(x: Adapter)
    ensures Answered(x, []) && AdapterAfter(x, []) == x
  {
  }

  lemma EnterTrueTo(c: Config, x: Adapter, p: Pass, v: Rules.Verdict, r: Backtest.Reading, b: Bar, now: int,
    signalId: int)
    requires MayEnter(c, p.equity, |p.book|, v) && TrueTo(x, p)
    ensures TrueTo(x, Enter(c, p, v, r.fv, b, now, signalId))
  {
    hide Answered, AdapterAfter, Submit, GateDecision, OpenOrder;
    var size := GateDecision(c, p.equity, |p.book|, v).sizeUnits;
    var order := OpenOrder(c, v, r.fv, b, now, size, p.nextId);
    var answer := Submit(p.adapter, order).1;
    var e := Sent(order, p.nextId + 1, answer);
    ExtendAnswered(x, p.effects, e);
    if answer.Ok? {
      var pos := NewPosition(c, v, answer.value, signalId, p.nextId + 1, now);
      var row := OpenRow(c, pos, now, answer.value);
      ExtendAnswered(x, p.effects + [e], Saved(pos));
      ExtendAnswered(x, p.effects + [e] + [Saved(pos)], Recorded(row));
      assert p.effects + [e] + [Saved(pos)] + [Recorded(row)] == p.effects + [e, Saved(pos), Recorded(row)];
    }
  }

  lemma PollTrueTo(c: Config, s: Live, b: Bar, now: int, r: Backtest.Reading)
    ensures TrueTo(s.adapter, PassOf(c, s, b, now, r))
  {
    hide Answered, AdapterAfter, ManageTo, MayEnter, Enter, SignalOf;
    ManageTrueTo(c, s, b, now, |s.open|);
    var m, v := Manage(c, s, b, now), r.verdict;
    if !m.raised && (v.Taken? || v.TurnedDown?) {
      var row := SignalOf(m.nextId, now, v);
      ExtendAnswered(s.adapter, m.effects, Published(row));
      var q := Publish(m, row);
      if MayEnter(c, q.equity, |q.book|, v) { EnterTrueTo(c, s.adapter, q, v, r, b, now, m.nextId); }
    }
  }

  lemma PrefixAnswered(x: Adapter, es: seq<Effect>, cut: nat)
    requires Answered(x, es) && cut <= |es|
    ensures Answered(x, es[..cut])
  {
    hide Submit;
    var init := es[..cut];
    forall i {:trigger init[i]} | 0 <= i < |init| && init[i].Sent?
      ensures Submit(AdapterAfter(x, init[..i]), init[i].order).1 == init[i].answer
    {
      assert init[..i] == es[..i] && init[i] == es[i];
    }
  }

  /** The account follows the answered orders. */
  lemma {:induction false} AccountFollows(x: Adapter, o: map<int, int>, es: seq<Effect>)
    requires AccountOf(x, o) && Answered(x, es)
    ensures AccountOf(AdapterAfter(x, es), Owners(o, es))
  {
    hide AccountOf, Submit;
    if es != [] {
      var init, e := es[..|es| - 1], es[|es| - 1];
      PrefixAnswered(x, es, |init|);
      AccountFollows(x, o, init);
      if e.Sent? {
        assert Submit(AdapterAfter(x, init), e.order).1 == e.answer;
        if e.order.closes.Some? {
          SendClose(AdapterAfter(x, init), Owners(o, init), e.order, e.forTrade);
        } else {
          SendOpen(AdapterAfter(x, init), Owners(o, init), e.order, e.forTrade);
        }
      }
    }
  }

  // ---------------------------------------------------------------- broker and position store

  /** The stored positions carry exactly the tickets open at the broker, each its own. */
  ghost predicate StoreInStep(rows: map<int, LivePosition>, o: map<int, int>) {
    && (forall id {:trigger rows[id]} :: id in rows ==>
      rows[id].ticket.Some? && rows[id].ticket.value in o && o[rows[id].ticket.value] == id)
    && (forall t {:trigger o[t]} :: t in o ==> o[t] in rows && rows[o[t]].ticket == Some(t))
  }

  /** What a restart gets is in step exactly when the store is. */
  lemma ReloadInStep(reloaded: seq<LivePosition>, rows: map<int, LivePosition>, x: Adapter, o: map<int, int>)
    requires Lists(reloaded, rows) && AccountOf(x, o)
    ensures InStep(reloaded, x, o) <==> StoreInStep(rows, o)
  {
    if InStep(reloaded, x, o) {
      forall id {:trigger rows[id]} | id in rows
        ensures rows[id].ticket.Some? && rows[id].ticket.value in o && o[rows[id].ticket.value] == id
      {
        assert rows[id] in reloaded;
        var i :| 0 <= i < |reloaded| && reloaded[i] == rows[id];
        assert CarriesTicket(reloaded[i], x.account.received, o) && !IsGhost(reloaded[i], o);
      }
      forall t {:trigger o[t]} | t in o ensures o[t] in rows && rows[o[t]].ticket == Some(t) {
        var i :| 0 <= i < |reloaded| && reloaded[i].ticket == Some(t);
        assert CarriesTicket(reloaded[i], x.account.received, o);
        assert reloaded[i] in reloaded;
      }
    }
    if StoreInStep(rows, o) { StoreGivesStep(reloaded, rows, x, o); }
  }

  lemma StoreGivesStep(reloaded: seq<LivePosition>, rows: map<int, LivePosition>, x: Adapter, o: map<int, int>)
    requires Lists(reloaded, rows) && AccountOf(x, o) && StoreInStep(rows, o)
    ensures InStep(reloaded, x, o)
  {
    forall i | 0 <= i < |reloaded|
      ensures CarriesTicket(reloaded[i], x.account.received, o) && !IsGhost(reloaded[i], o)
    {
      assert reloaded[i] in reloaded;
      assert rows[reloaded[i].tradeId] == reloaded[i];
    }
    forall i, j | 0 <= i < j < |reloaded| ensures reloaded[i].ticket != reloaded[j].ticket {
      assert reloaded[i] in reloaded && reloaded[j] in reloaded;
      assert rows[reloaded[i].tradeId] == reloaded[i] && rows[reloaded[j].tradeId] == reloaded[j];
    }
    forall t | t in o ensures exists i :: 0 <= i < |reloaded| && reloaded[i].ticket == Some(t) {
      assert o[t] in rows;
      assert rows[o[t]].tradeId == o[t];
      assert rows[o[t]] in reloaded;
    }
  }

  /** The statements after which broker and store are out of step: a filled order, until the position it
      opened is saved, or the close row and the outcome are written and the position it closed is deleted. */
  predicate MidOrder(e: Effect) {
    (e.Sent? && e.answer.Ok?) || IsCloseRow(e) || e.Resolved?
  }

  ghost predicate StepAfter(d0: Disk, o0: map<int, int>, es: seq<Effect>) {
    StoreInStep(ApplyAll(d0, es).positions, Owners(o0, es))
  }

  ghost predicate TicketCuts(d0: Disk, o0: map<int, int>, es: seq<Effect>) {
    forall cut :: 0 <= cut <= |es| ==> (StepAfter(d0, o0, es[..cut]) <==> cut == 0 || !MidOrder(es[cut - 1]))
  }

  lemma ExtendTicketCuts(d0: Disk, o0: map<int, int>, es: seq<Effect>, e: Effect)
    requires TicketCuts(d0, o0, es) && (StepAfter(d0, o0, es + [e]) <==> !MidOrder(e))
    ensures TicketCuts(d0, o0, es + [e])
  {
    hide StepAfter, MidOrder;
    var all := es + [e];
    forall cut | 0 <= cut <= |all| ensures StepAfter(d0, o0, all[..cut]) <==> cut == 0 || !MidOrder(all[cut - 1]) {
      if cut <= |es| {
        assert all[..cut] == es[..cut];
      } else {
        assert all[..cut] == all;
      }
    }
  }

  /** After a walk: a stored row is a listed position that has not been closed, with its ticket still open. */
  lemma RowInStep(s: Live, o: map<int, int>, w: map<int, int>, b: Bar, now: int, k: nat, j: nat)
    requires DistinctIds(s.open) && InStep(s.open, s.adapter, o) && k <= |s.open| && j < |s.open|
    requires OpenAfter(s, o, w, b, now, k)
    requires s.open[j].tradeId !in ExitIds(s.open, b, now, k)
    ensures s.open[j].ticket.Some? && s.open[j].ticket.value in w && w[s.open[j].ticket.value] == s.open[j].tradeId
  {
    hide Ticketed, CheckExit, DistinctIds;
    TicketsListed(s, o);
    IdsAmong(s.open, b, now, k, s.open[j].tradeId);
    assert !IsGhost(s.open[j], w);
    var t := s.open[j].ticket.value;
    assert w[t] == o[t];
  }

  /** A ticket still open belongs to a listed position that has not been closed. */
  lemma TicketStored(s: Live, o: map<int, int>, w: map<int, int>, b: Bar, now: int, k: nat, t: int) returns (j: nat)
    requires DistinctIds(s.open) && InStep(s.open, s.adapter, o) && k <= |s.open| && OpenAfter(s, o, w, b, now, k)
    requires t in w
    ensures j < |s.open| && s.open[j].ticket == Some(t) && w[t] == s.open[j].tradeId
    ensures s.open[j].tradeId !in ExitIds(s.open, b, now, k)
  {
    hide CheckExit, DistinctIds;
    j := HolderOf(s, o, t);
    assert !IsGhost(s.open[j], w);
    StillStored(s, b, now, k, j);
  }

  lemma RowAtBoundary(c: Config, s: Live, o: map<int, int>, b: Bar, now: int, k: nat, p: Pass, id: int)
    requires Mirrored(s) && InStep(s.open, s.adapter, o) && k <= |s.open|
    requires PassState(c, s, b, now, k, p) && OpenAfter(s, o, Owners(o, p.effects), b, now, k) && !p.raised
    requires id in ApplyAll(s.disk, p.effects).positions
    ensures var row, w := ApplyAll(s.disk, p.effects).positions[id], Owners(o, p.effects);
      row.ticket.Some? && row.ticket.value in w && w[row.ticket.value] == id
  {
    hide Lists, IdsBelow, HasClose, HasOpen, InStep, CheckExit, WithExcursion, ApplyAll, Owners, OpenAfter;
    MirroredList(s);
    SameBook(c, s, b, now, k, p);
    var rows := ApplyAll(s.disk, p.effects).positions;
    assert rows[id] in p.book;
    var j :| 0 <= j < |p.book| && p.book[j] == rows[id];
    RowInStep(s, o, Owners(o, p.effects), b, now, k, j);
  }

  lemma TicketAtBoundary(c: Config, s: Live, o: map<int, int>, b: Bar, now: int, k: nat, p: Pass, t: int)
    requires Mirrored(s) && InStep(s.open, s.adapter, o) && k <= |s.open|
    requires PassState(c, s, b, now, k, p) && OpenAfter(s, o, Owners(o, p.effects), b, now, k) && !p.raised
    requires t in Owners(o, p.effects)
    ensures var rows, id := ApplyAll(s.disk, p.effects).positions, Owners(o, p.effects)[t];
      id in rows && rows[id].ticket == Some(t)
  {
    hide Lists, IdsBelow, HasClose, HasOpen, InStep, CheckExit, WithExcursion, ApplyAll, Owners, OpenAfter;
    MirroredList(s);
    SameBook(c, s, b, now, k, p);
    var rows, w := ApplyAll(s.disk, p.effects).positions, Owners(o, p.effects);
    var j := TicketStored(s, o, w, b, now, k, t);
    assert w[t] in rows && rows[w[t]] in p.book;
    var i :| 0 <= i < |p.book| && p.book[i] == rows[w[t]];
    assert p.book[j].tradeId == w[t];
  }

  /** At a boundary between positions the store is in step. */
  lemma BoundaryInStep(c: Config, s: Live, o: map<int, int>, b: Bar, now: int, k: nat, p: Pass)
    requires Mirrored(s) && InStep(s.open, s.adapter, o) && k <= |s.open|
    requires PassState(c, s, b, now, k, p) && OpenAfter(s, o, Owners(o, p.effects), b, now, k) && !p.raised
    ensures StepAfter(s.disk, o, p.effects)
  {
    hide Mirrored, InStep, PassState, OpenAfter, ApplyAll, Owners;
    var rows, w := ApplyAll(s.disk, p.effects).positions, Owners(o, p.effects);
    forall id {:trigger rows[id]} | id in rows
      ensures rows[id].ticket.Some? && rows[id].ticket.value in w && w[rows[id].ticket.value] == id
    {
      RowAtBoundary(c, s, o, b, now, k, p, id);
    }
    forall t {:trigger w[t]} | t in w ensures w[t] in rows && rows[w[t]].ticket == Some(t) {
      TicketAtBoundary(c, s, o, b, now, k, p, t);
    }
  }

  lemma SameBook(c: Config, s: Live, b: Bar, now: int, k: nat, p: Pass)
    requires k <= |s.open| && PassState(c, s, b, now, k, p)
    ensures |p.book| == |s.open| && forall j {:trigger p.book[j]} :: 0 <= j < |p.book| ==>
      p.book[j].tradeId == s.open[j].tradeId && p.book[j].ticket == s.open[j].ticket
  {
    hide TablesAfter, RowsListed, CheckExit, WithExcursion;
    forall j {:trigger p.book[j]} | 0 <= j < |p.book|
      ensures p.book[j].tradeId == s.open[j].tradeId && p.book[j].ticket == s.open[j].ticket
    {
      SameTrade(s.open[j], b);
    }
  }

  lemma TicketsListed(s: Live, o: map<int, int>)
    requires InStep(s.open, s.adapter, o)
    ensures forall j {:trigger s.open[j]} :: 0 <= j < |s.open| ==>
      s.open[j].ticket.Some? && s.open[j].ticket.value in o && o[s.open[j].ticket.value] == s.open[j].tradeId
  {
    forall j {:trigger s.open[j]} | 0 <= j < |s.open|
      ensures s.open[j].ticket.Some? && s.open[j].ticket.value in o && o[s.open[j].ticket.value] == s.open[j].tradeId
    {
      assert CarriesTicket(s.open[j], s.adapter.account.received, o) && !IsGhost(s.open[j], o);
    }
  }

  lemma HolderOf(s: Live, o: map<int, int>, t: int) returns (j: nat)
    requires Ticketed(s.open, s.adapter, o) && t in o
    ensures j < |s.open| && s.open[j].ticket == Some(t) && o[t] == s.open[j].tradeId
  {
    j :| 0 <= j < |s.open| && s.open[j].ticket == Some(t);
    assert CarriesTicket(s.open[j], s.adapter.account.received, o);
  }

  /** A stored position that has not been closed is not among the exits. */
  lemma StillStored(s: Live, b: Bar, now: int, k: nat, j: nat)
    requires DistinctIds(s.open) && k <= |s.open| && j < |s.open| && !(j < k && CheckExit(s.open[j], b, now).Some?)
    ensures s.open[j].tradeId !in ExitIds(s.open, b, now, k)
  {
    hide CheckExit;
    IdsAmong(s.open, b, now, k, s.open[j].tradeId);
  }

  /** Nothing of the tickets or of the stored positions changes. */
  lemma SameStep(d0: Disk, o0: map<int, int>, es: seq<Effect>, e: Effect)
    requires e.Published? || e.Recorded? || e.Resolved? || (e.Sent? && e.answer.Err?)
    ensures StepAfter(d0, o0, es + [e]) <==> StepAfter(d0, o0, es)
  {
    hide StoreInStep;
    OneMore(d0, [], es, e);
    assert (es + [e])[..|es|] == es;
  }

  /** A filled close leaves a stored position without its ticket until it is deleted. */
  lemma OutOfStep(d0: Disk, o0: map<int, int>, es: seq<Effect>, e: Effect, p: LivePosition)
    requires e.Sent? && e.answer.Ok? && e.order.closes == p.ticket && p.ticket.Some?
    requires var rows := ApplyAll(d0, es).positions; p.tradeId in rows && rows[p.tradeId].ticket == p.ticket
    ensures !StepAfter(d0, o0, es + [e])
  {
    OneMore(d0, [], es, e);
    assert (es + [e])[..|es|] == es;
    var rows, w := ApplyAll(d0, es + [e]).positions, Owners(o0, es + [e]);
    assert rows[p.tradeId].ticket.value !in w;
  }

  lemma CloseTicketCuts(c: Config, s: Live, o: map<int, int>, b: Bar, now: int, k: nat, p: Pass)
    requires Mirrored(s) && InStep(s.open, s.adapter, o) && k < |s.open| && p == ManageTo(c, Begin(s), b, now, k)
    requires !p.raised
    requires TicketCuts(s.disk, o, p.effects) && CheckExit(s.open[k], b, now).Some?
    ensures TicketCuts(s.disk, o, CloseOne(c, p, k, b, now).effects)
  {
    hide TicketCuts, StepAfter, Mirrored, CheckExit, Submit, ClosePnl, RMultiple, ManageTo, ApplyAll, Lists, IdsBelow,
      DistinctIds, CloseEffects, InStep, OpenAfter, Ticketed, Owners, ProtocolKept, HasGhost, NothingClosed, Reaches,
        TablesAfter, RowsListed;
    MirroredList(s);
    StepIsTicketed(s, o);
    ManagePasses(c, s, b, now, k);
    ManageWalks(c, s, o, b, now, k);
    BoundaryInStep(c, s, o, b, now, k, p);
    var pos := s.open[k];
    assert p.book[k] == pos;
    var order := CloseOrder(c, pos, b, now, p.nextId);
    var answer := Submit(p.adapter, order).1;
    var e := Sent(order, pos.tradeId, answer);
    if answer.Err? {
      SameStep(s.disk, o, p.effects, e);
      ExtendTicketCuts(s.disk, o, p.effects, e);
    } else {
      var q := CloseOne(c, p, k, b, now);
      ClosePasses(c, s, b, now, k, p);
      CloseWalks(c, s, o, b, now, p, k);
      NextHandled(c, s, b, now, k, p, q);
      BoundaryInStep(c, s, o, b, now, k + 1, q);
      StoredAt(c, s, b, now, k, p);
      TicketOf(s, o, k);
      OutOfStep(s.disk, o, p.effects, e, pos);
      ExtendTicketCuts(s.disk, o, p.effects, e);
      FilledTicketCuts(c, s.disk, o, p.effects + [e], pos, now, answer.value);
    }
  }

  lemma NextHandled(c: Config, s: Live, b: Bar, now: int, k: nat, p: Pass, q: Pass)
    requires k < |s.open| && p == ManageTo(c, Begin(s), b, now, k) && !p.raised && CheckExit(s.open[k], b, now).Some?
    requires p.book[k] == s.open[k] && q == CloseOne(c, p, k, b, now)
    ensures q == ManageTo(c, Begin(s), b, now, k + 1)
  {
    hide CloseOne, CheckExit;
  }

  lemma StepIsTicketed(s: Live, o: map<int, int>)
    requires InStep(s.open, s.adapter, o)
    ensures Ticketed(s.open, s.adapter, o)
  {
  }

  lemma TicketOf(s: Live, o: map<int, int>, k: nat)
    requires k < |s.open| && InStep(s.open, s.adapter, o)
    ensures s.open[k].ticket.Some?
  {
    TicketsListed(s, o);
  }

  /** A position the walk has not come to is stored as it is listed. */
  lemma StoredAt(c: Config, s: Live, b: Bar, now: int, k: nat, p: Pass)
    requires Mirrored(s) && k < |s.open| && PassState(c, s, b, now, k, p) && !p.raised
    ensures var rows := ApplyAll(s.disk, p.effects).positions;
      s.open[k].tradeId in rows && rows[s.open[k].tradeId].ticket == s.open[k].ticket
  {
    hide ApplyAll, HasClose, HasOpen, CheckExit, WithExcursion, Lists, IdsBelow;
    MirroredList(s);
    FreshAt(s.open, b, now, k);
    SameBook(c, s, b, now, k, p);
    var rows, id := ApplyAll(s.disk, p.effects).positions, s.open[k].tradeId;
    assert rows[id] in p.book;
    var i :| 0 <= i < |p.book| && p.book[i] == rows[id];
    assert p.book[k].tradeId == id;
  }

  lemma FilledTicketCuts(c: Config, d0: Disk, o0: map<int, int>, es: seq<Effect>, p: LivePosition, now: int, fill: Fill)
    requires TicketCuts(d0, o0, es) && !StepAfter(d0, o0, es) && StepAfter(d0, o0, es + CloseEffects(c, p, now, fill))
    ensures TicketCuts(d0, o0, es + CloseEffects(c, p, now, fill))
  {
    hide TicketCuts, StepAfter, ClosePnl, RMultiple;
    var f := CloseEffects(c, p, now, fill);
    SameStep(d0, o0, es, f[0]);
    ExtendTicketCuts(d0, o0, es, f[0]);
    SameStep(d0, o0, es + [f[0]], f[1]);
    ExtendTicketCuts(d0, o0, es + [f[0]], f[1]);
    assert es + [f[0]] + [f[1]] + [f[2]] == es + f;
    ExtendTicketCuts(d0, o0, es + [f[0]] + [f[1]], f[2]);
  }

  lemma SurviveTicketCuts(c: Config, s: Live, o: map<int, int>, b: Bar, now: int, k: nat, p: Pass)
    requires Mirrored(s) && InStep(s.open, s.adapter, o) && k < |s.open| && p == ManageTo(c, Begin(s), b, now, k)
    requires !p.raised
    requires TicketCuts(s.disk, o, p.effects) && CheckExit(s.open[k], b, now).None?
    ensures TicketCuts(s.disk, o, Survive(p, k, b).effects)
  {
    hide TicketCuts, StepAfter, Mirrored, CheckExit, ManageTo, ApplyAll, WithExcursion, Lists, IdsBelow, DistinctIds,
      InStep, OpenAfter, Ticketed, Owners, ProtocolKept, HasGhost, NothingClosed, Reaches, TablesAfter, RowsListed;
    MirroredList(s);
    StepIsTicketed(s, o);
    ManagePasses(c, s, b, now, k);
    ManageWalks(c, s, o, b, now, k);
    var q := Survive(p, k, b);
    SurvivePasses(c, s, b, now, k, p);
    SurviveWalks(s, o, b, now, p, k);
    BoundaryInStep(c, s, o, b, now, k + 1, q);
    ExtendTicketCuts(s.disk, o, p.effects, Saved(WithExcursion(p.book[k], b)));
  }

  lemma {:induction false} ManageTicketCuts(c: Config, s: Live, o: map<int, int>, b: Bar, now: int, k: nat)
    requires Mirrored(s) && InStep(s.open, s.adapter, o) && k <= |s.open|
    ensures TicketCuts(s.disk, o, ManageTo(c, Begin(s), b, now, k).effects)
  {
    hide TicketCuts, Mirrored, InStep, CheckExit, CloseOne, Survive;
    if k == 0 {
      NoTicketCut(s, o);
    } else {
      ManageTicketCuts(c, s, o, b, now, k - 1);
      var p := ManageTo(c, Begin(s), b, now, k - 1);
      if !p.raised {
        BookAfter(c, s, b, now, k - 1);
        assert p.book[k - 1] == s.open[k - 1];
        if CheckExit(p.book[k - 1], b, now).None? {
          SurviveTicketCuts(c, s, o, b, now, k - 1, p);
        } else {
          CloseTicketCuts(c, s, o, b, now, k - 1, p);
        }
      }
    }
  }

  lemma NoTicketCut(s: Live, o: map<int, int>)
    requires Mirrored(s) && InStep(s.open, s.adapter, o)
    ensures TicketCuts(s.disk, o, [])
  {
    hide Ticketed, StoreInStep, Lists, IdsBelow;
    HasAccount(s.open, s.adapter, o);
    ReloadInStep(s.open, s.disk.positions, s.adapter, o);
  }

  lemma EnterTicketCuts(c: Config, d0: Disk, o0: map<int, int>, p: Pass, v: Rules.Verdict, r: Backtest.Reading, b: Bar,
    now: int, signalId: int)
    requires MayEnter(c, p.equity, |p.book|, v) && TicketCuts(d0, o0, p.effects)
    requires StepAfter(d0, o0, p.effects) && IdsBelow(ApplyAll(d0, p.effects), p.nextId)
    requires AccountOf(p.adapter, Owners(o0, p.effects))
    ensures TicketCuts(d0, o0, Enter(c, p, v, r.fv, b, now, signalId).effects)
  {
    hide TicketCuts, StepAfter, GateDecision, OpenOrder, ApplyAll, IdsBelow, Submit, AccountOf, Owners;
    var size, w := GateDecision(c, p.equity, |p.book|, v).sizeUnits, Owners(o0, p.effects);
    var order := OpenOrder(c, v, r.fv, b, now, size, p.nextId);
    var answer := Submit(p.adapter, order).1;
    var e := Sent(order, p.nextId + 1, answer);
    NeverCloses(c, v, r, b, now, size, p.nextId);
    BrokerOnly(p.adapter, w);
    SendOpen(p.adapter, w, order, p.nextId + 1);
    if answer.Err? {
      SameStep(d0, o0, p.effects, e);
      ExtendTicketCuts(d0, o0, p.effects, e);
    } else {
      var pos := NewPosition(c, v, answer.value, signalId, p.nextId + 1, now);
      var row, sent := OpenRow(c, pos, now, answer.value), p.effects + [e];
      OpenedThenSaved(d0, o0, p.effects, e, pos, p.nextId);
      ExtendTicketCuts(d0, o0, p.effects, e);
      ExtendTicketCuts(d0, o0, sent, Saved(pos));
      SameStep(d0, o0, sent + [Saved(pos)], Recorded(row));
      ExtendTicketCuts(d0, o0, sent + [Saved(pos)], Recorded(row));
      assert sent + [Saved(pos)] + [Recorded(row)] == p.effects + [e, Saved(pos), Recorded(row)];
    }
  }

  lemma NeverCloses(c: Config, v: Rules.Verdict, r: Backtest.Reading, b: Bar, now: int, size: real, id: int)
    requires v.Taken?
    ensures OpenOrder(c, v, r.fv, b, now, size, id).closes == None
  {
    hide RegimeOf, BlackoutOf;
  }

  lemma BrokerOnly(x: Adapter, o: map<int, int>)
    requires AccountOf(x, o)
    ensures x.Broker?
  {
  }

  /** A filled opening order is out of step until its position is saved. */
  lemma OpenedThenSaved(d0: Disk, o0: map<int, int>, es: seq<Effect>, e: Effect, p: LivePosition, n: int)
    requires e.Sent? && e.answer.Ok? && e.order.closes.None? && e.answer.value.ticket == p.ticket && p.ticket.Some?
    requires StepAfter(d0, o0, es) && IdsBelow(ApplyAll(d0, es), n) && p.tradeId == n + 1 == e.forTrade
    requires p.ticket.value !in Owners(o0, es)
    ensures !StepAfter(d0, o0, es + [e]) && StepAfter(d0, o0, es + [e] + [Saved(p)])
  {
    OneMore(d0, [], es, e);
    OneMore(d0, [], es + [e], Saved(p));
    assert (es + [e])[..|es|] == es && (es + [e] + [Saved(p)])[..|es| + 1] == es + [e];
    var rows, w, t := ApplyAll(d0, es).positions, Owners(o0, es), p.ticket.value;
    assert Owners(o0, es + [e]) == w[t := p.tradeId] == Owners(o0, es + [e] + [Saved(p)]);
    assert p.tradeId !in rows;
    assert w[t := p.tradeId][t] == p.tradeId;
    var more, owns := rows[p.tradeId := p], w[t := p.tradeId];
    forall id {:trigger more[id]} | id in more
      ensures more[id].ticket.Some? && more[id].ticket.value in owns && owns[more[id].ticket.value] == id
    {
      if id != p.tradeId { assert rows[id].ticket.value in w; }
    }
    forall u {:trigger owns[u]} | u in owns ensures owns[u] in more && more[owns[u]].ticket == Some(u) {
      if u != t { assert w[u] in rows; }
    }
  }

  /** From an in-step loop whose memory lists the store: cut a poll after any statement, and the stored
      positions carry exactly the tickets open at the broker if and only if the last statement is not a filled
      order, a close row, or an outcome. */
  lemma PollTicketCuts(c: Config, s: Live, o: map<int, int>, b: Bar, now: int, r: Backtest.Reading)
    requires Mirrored(s) && InStep(s.open, s.adapter, o)
    ensures TicketCuts(s.disk, o, PassOf(c, s, b, now, r).effects)
  {
    hide TicketCuts, StepAfter, ManageTo, MayEnter, Enter, SignalOf, Lists, IdsBelow, ApplyAll, DistinctIds,
      NothingClosed, RowsListed, TablesAfter, InStep, Ticketed, Owners, OpenAfter, AccountOf, ProtocolKept, HasGhost,
        Reaches;
    ManageTicketCuts(c, s, o, b, now, |s.open|);
    var m, v := Manage(c, s, b, now), r.verdict;
    if !m.raised && (v.Taken? || v.TurnedDown?) {
      ManageSettles(c, s, b, now);
      CounterOfManage(c, s, b, now);
      StepAfterManage(c, s, o, b, now);
      var row := SignalOf(m.nextId, now, v);
      var q := Publish(m, row);
      SameStep(s.disk, o, m.effects, Published(row));
      ExtendTicketCuts(s.disk, o, m.effects, Published(row));
      PublishSettles(s, m, row);
      OneMoreHarmless(o, m.effects, Published(row));
      if MayEnter(c, q.equity, |q.book|, v) {
        MoreIds(s.disk, s.nextId, q.nextId);
        EnterTicketCuts(c, s.disk, o, q, v, r, b, now, m.nextId);
      }
    }
  }

  lemma StepAfterManage(c: Config, s: Live, o: map<int, int>, b: Bar, now: int)
    requires Mirrored(s) && InStep(s.open, s.adapter, o) && !Manage(c, s, b, now).raised
    ensures var m := Manage(c, s, b, now); StepAfter(s.disk, o, m.effects) && AccountOf(m.adapter, Owners(o, m.effects))
  {
    hide StepAfter, ManageTo, Lists, IdsBelow, ApplyAll, DistinctIds, NothingClosed, RowsListed, TablesAfter, InStep,
      Ticketed, Owners, OpenAfter, AccountOf, ProtocolKept, HasGhost, Reaches;
    MirroredList(s);
    StepIsTicketed(s, o);
    var p := ManageTo(c, Begin(s), b, now, |s.open|);
    ManagePasses(c, s, b, now, |s.open|);
    ManageWalks(c, s, o, b, now, |s.open|);
    BoundaryInStep(c, s, o, b, now, |s.open|, p);
    HasAccount(p.kept + s.open[|s.open|..], p.adapter, Owners(o, p.effects));
  }

  /** A crash anywhere in such a poll and a reload from the store: the loop is back in step with the broker if
      and only if the last statement was not a filled order, a close row, or an outcome. */
  lemma CrashLeavesStepIff(c: Config, s: Live, o: map<int, int>, b: Bar, now: int, r: Backtest.Reading, cut: nat,
    reloaded: seq<LivePosition>)
    requires Mirrored(s) && InStep(s.open, s.adapter, o)
    requires var es := PassOf(c, s, b, now, r).effects;
      cut <= |es| && Lists(reloaded, ApplyAll(s.disk, es[..cut]).positions)
    ensures var es := PassOf(c, s, b, now, r).effects;
      InStep(reloaded, AdapterAfter(s.adapter, es[..cut]), Owners(o, es[..cut])) <==> cut == 0 || !MidOrder(es[cut - 1])
  {
    hide PassOf, Lists, InStep, StoreInStep, AdapterAfter, Owners, MidOrder, ApplyAll, AccountOf, Answered, IdsBelow;
    var es := PassOf(c, s, b, now, r).effects;
    PollTicketCuts(c, s, o, b, now, r);
    PollTrueTo(c, s, b, now, r);
    PrefixAnswered(s.adapter, es, cut);
    StepIsTicketed(s, o);
    HasAccount(s.open, s.adapter, o);
    AccountFollows(s.adapter, o, es[..cut]);
    ReloadInStep(reloaded, ApplyAll(s.disk, es[..cut]).positions, AdapterAfter(s.adapter, es[..cut]),
      Owners(o, es[..cut]));
    assert StepAfter(s.disk, o, es[..cut]) <==> cut == 0 || !MidOrder(es[cut - 1]);
  }
}

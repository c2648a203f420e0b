/** Equity and ledger balance in the live loop, for any adapter. */
module LiveConservation {
  import opened Prelude
  import opened Bars
  import opened Execution
  import opened Records
  import opened Stores
  import opened LiveLoop
  import opened CrashSafety
  import opened Tickets
  import opened TableAgreement
  import opened CrashCuts
  import CloseRows
  import Conservation
  import Drift
  import Backtest
  import Rules

  // ---------------------------------------------------------------- equity

  /** Equity and ledger after some statements of a poll. */
  ghost predicate Earned(s: Live, p: Pass) {
    var at := ApplyAll(s.disk, p.effects).ledger;
    && s.disk.ledger <= at
    && p.equity - s.equity == Conservation.PnlSum(at[|s.disk.ledger|..])
  }

  lemma MorePnl(before: seq<LedgerEntry>, now: seq<LedgerEntry>, row: LedgerEntry)
    requires before <= now
    ensures before <= now + [row]
    ensures Conservation.PnlSum((now + [row])[|before|..]) ==
      Conservation.PnlSum(now[|before|..]) + if row.realisedPnl.Some? then row.realisedPnl.value else 0.0
  {
    assert (now + [row])[|before|..] == now[|before|..] + [row];
    assert (now[|before|..] + [row])[..|now[|before|..]|] == now[|before|..];
  }

  lemma CloseEarns(c: Config, s: Live, p: Pass, k: nat, b: Bar, now: int)
    requires k < |p.book| && Earned(s, p)
    ensures Earned(s, CloseOne(c, p, k, b, now))
  {
    hide ApplyAll, ClosePnl, RMultiple, Submit, CloseOrder, CloseEffects, Resolve;
    var pos := p.book[k];
    var order := CloseOrder(c, pos, b, now, p.nextId);
    var answer := Submit(p.adapter, order).1;
    OneMore(s.disk, [], p.effects, Sent(order, pos.tradeId, answer));
    if answer.Ok? {
      CloseEffectsApplied(c, s.disk, p.effects, pos, now, answer.value, order, answer);
      MorePnl(s.disk.ledger, ApplyAll(s.disk, p.effects).ledger, CloseRow(c, pos, now, answer.value));
    }
  }

  lemma {:induction false} ManageEarns(c: Config, s: Live, b: Bar, now: int, k: nat)
    requires k <= |s.open|
    ensures Earned(s, ManageTo(c, Begin(s), b, now, k))
  {
    hide CheckExit, CloseOne, ApplyAll, WithExcursion;
    if k == 0 {
      NothingEarned(s);
    } else {
      ManageEarns(c, s, b, now, k - 1);
      var p := ManageTo(c, Begin(s), b, now, k - 1);
      if !p.raised {
        OneMore(s.disk, [], p.effects, Saved(WithExcursion(p.book[k - 1], b)));
        CloseEarns(c, s, p, k - 1, b, now);
      }
    }
  }

  lemma NothingEarned(s: Live)
    ensures Earned(s, Begin(s))
  {
    assert s.disk.ledger[|s.disk.ledger|..] == [];
  }

  lemma EnterEarns(c: Config, s: Live, p: Pass, v: Rules.Verdict, r: Backtest.Reading, b: Bar, now: int, signalId: int)
    requires MayEnter(c, p.equity, |p.book|, v) && Earned(s, p)
    ensures Earned(s, Enter(c, p, v, r.fv, b, now, signalId))
  {
    hide GateDecision, OpenOrder, ApplyAll, Submit;
    var size := GateDecision(c, p.equity, |p.book|, v).sizeUnits;
    var order := OpenOrder(c, v, r.fv, b, now, size, p.nextId);
    var answer := Submit(p.adapter, order).1;
    var e := Sent(order, p.nextId + 1, answer);
    OneMore(s.disk, [], p.effects, e);
    if answer.Ok? {
      var pos := NewPosition(c, v, answer.value, signalId, p.nextId + 1, now);
      var row, sent := OpenRow(c, pos, now, answer.value), p.effects + [e];
      OneMore(s.disk, [], sent, Saved(pos));
      OneMore(s.disk, [], sent + [Saved(pos)], Recorded(row));
      assert sent + [Saved(pos)] + [Recorded(row)] == p.effects + [e, Saved(pos), Recorded(row)];
      MorePnl(s.disk.ledger, ApplyAll(s.disk, p.effects).ledger, row);
    }
  }

  lemma PollEarns(c: Config, s: Live, b: Bar, now: int, r: Backtest.Reading)
    ensures Earned(s, PassOf(c, s, b, now, r))
  {
    hide ManageTo, ApplyAll, MayEnter, Enter, SignalOf;
    ManageEarns(c, s, b, now, |s.open|);
    var m, v := Manage(c, s, b, now), r.verdict;
    if !m.raised && (v.Taken? || v.TurnedDown?) {
      var row := SignalOf(m.nextId, now, v);
      var q := Publish(m, row);
      OneMore(s.disk, [], m.effects, Published(row));
      if MayEnter(c, q.equity, |q.book|, v) { EnterEarns(c, s, q, v, r, b, now, m.nextId); }
    }
  }

  /** Over any polls, on any bars and readings, with any adapter and any memory, completed or raised: the ledger only
      grows, and equity has moved by exactly the realised P&L of the rows it grew by. */
  lemma {:induction false} EquityIsRealisedPnl(c: Config, s: Live, polls: seq<PollInput>)
    ensures var f := RunPolls(c, s, polls);
      && s.disk.ledger <= f.disk.ledger
      && f.equity == s.equity + Conservation.PnlSum(f.disk.ledger[|s.disk.ledger|..])
  {
    hide PassOf;
    if polls == [] {
      assert s.disk.ledger[|s.disk.ledger|..] == [];
    } else {
      var init, t := polls[..|polls| - 1], polls[|polls| - 1];
      EquityIsRealisedPnl(c, s, init);
      var l := RunPolls(c, s, init);
      PollEarns(c, l, t.bar, t.now, t.reading);
      var a, b, d := s.disk.ledger, l.disk.ledger, RunPolls(c, s, polls).disk.ledger;
      assert d[|a|..] == b[|a|..] + d[|b|..];
      PnlConcat(b[|a|..], d[|b|..]);
    }
  }

  lemma {:induction false} PnlConcat(a: seq<LedgerEntry>, b: seq<LedgerEntry>)
    ensures Conservation.PnlSum(a + b) == Conservation.PnlSum(a) + Conservation.PnlSum(b)
  {
    if b == [] {
      assert a + b == a;
    } else {
      assert (a + b)[..|a + b| - 1] == a + b[..|b| - 1];
      PnlConcat(a, b[..|b| - 1]);
    }
  }

  // ---------------------------------------------------------------- the audit

  function PositionTerms(p: LivePosition): Conservation.Terms {
    Conservation.Terms(p.signalId, p.direction, p.entryPrice, p.sizeUnits)
  }

  function StoreTerms(rows: map<int, LivePosition>): map<int, Conservation.Terms> {
    map id | id in rows :: PositionTerms(rows[id])
  }

  /** Every close row settles an earlier open row at its P&L, and what is left open is what is stored, on its terms. */
  ghost predicate Audited(d: Disk) {
    Conservation.Audit(d.ledger) == Some(StoreTerms(d.positions))
  }

  lemma SavedAgain(d: Disk, u: LivePosition)
    requires Audited(d) && u.tradeId in d.positions && PositionTerms(d.positions[u.tradeId]) == PositionTerms(u)
    ensures Audited(d.(positions := d.positions[u.tradeId := u]))
  {
    assert StoreTerms(d.positions[u.tradeId := u]) == StoreTerms(d.positions);
  }

  lemma CloseAudits(c: Config, d: Disk, p: LivePosition, now: int, fill: Fill, rows: map<int, SignalRow>)
    requires Audited(d) && p.tradeId in d.positions && d.positions[p.tradeId] == p
    ensures Audited(Disk(d.positions - {p.tradeId}, d.ledger + [CloseRow(c, p, now, fill)], rows))
  {
    hide DirectionPnl, RMultiple;
    var row := CloseRow(c, p, now, fill);
    assert (d.ledger + [row])[..|d.ledger|] == d.ledger;
    assert StoreTerms(d.positions - {p.tradeId}) == StoreTerms(d.positions) - {p.tradeId};
  }

  lemma OpenAudits(c: Config, d: Disk, p: LivePosition, now: int, fill: Fill, n: int)
    requires Audited(d) && IdsBelow(d, n) && p.tradeId == n + 1 && fill.price == p.entryPrice
    requires fill.sizeUnits == p.sizeUnits
    ensures Audited(Disk(d.positions[p.tradeId := p], d.ledger + [OpenRow(c, p, now, fill)], d.signals))
  {
    var row := OpenRow(c, p, now, fill);
    assert (d.ledger + [row])[..|d.ledger|] == d.ledger;
    assert !Conservation.HasTrade(d.ledger, p.tradeId);
    assert StoreTerms(d.positions[p.tradeId := p]) == StoreTerms(d.positions)[p.tradeId := PositionTerms(p)];
  }

  lemma {:induction false} ManageAudits(c: Config, s: Live, b: Bar, now: int, k: nat)
    requires Mirrored(s) && Audited(s.disk) && k <= |s.open|
    ensures Audited(ApplyAll(s.disk, ManageTo(c, Begin(s), b, now, k).effects))
  {
    hide CheckExit, ApplyAll, Audited, Mirrored, WithExcursion, Submit, CloseOrder, CloseEffects, ClosePnl;
    if k == 0 {
      NothingApplied(s.disk);
    } else {
      ManageAudits(c, s, b, now, k - 1);
      var p := ManageTo(c, Begin(s), b, now, k - 1);
      if !p.raised {
        NextStored(c, s, b, now, k - 1);
        var pos, d := p.book[k - 1], ApplyAll(s.disk, p.effects);
        if CheckExit(pos, b, now).None? {
          OneMore(s.disk, [], p.effects, Saved(WithExcursion(pos, b)));
          SameTerms(pos, b);
          SavedAgain(d, WithExcursion(pos, b));
        } else {
          var order := CloseOrder(c, pos, b, now, p.nextId);
          var answer := Submit(p.adapter, order).1;
          OneMore(s.disk, [], p.effects, Sent(order, pos.tradeId, answer));
          if answer.Ok? {
            CloseEffectsApplied(c, s.disk, p.effects, pos, now, answer.value, order, answer);
            CloseAudits(c, d, pos, now, answer.value,
              ApplyAll(s.disk, ManageTo(c, Begin(s), b, now, k).effects).signals);
          }
        }
      }
    }
  }

  lemma NothingApplied(d: Disk)
    ensures ApplyAll(d, []) == d
  {
  }

  lemma SameTerms(p: LivePosition, b: Bar)
    ensures PositionTerms(WithExcursion(p, b)) == PositionTerms(p) && WithExcursion(p, b).tradeId == p.tradeId
  {
  }

  /** Fills are for the size ordered, so a row and its position agree. */
  lemma EnterAudits(c: Config, s: Live, p: Pass, v: Rules.Verdict, r: Backtest.Reading, b: Bar, now: int, signalId: int)
    requires MayEnter(c, p.equity, |p.book|, v) && Audited(ApplyAll(s.disk, p.effects))
    requires IdsBelow(ApplyAll(s.disk, p.effects), p.nextId)
    ensures Audited(ApplyAll(s.disk, Enter(c, p, v, r.fv, b, now, signalId).effects))
  {
    hide GateDecision, OpenOrder, ApplyAll, Submit, Audited, IdsBelow;
    var size, d := GateDecision(c, p.equity, |p.book|, v).sizeUnits, ApplyAll(s.disk, p.effects);
    var order := OpenOrder(c, v, r.fv, b, now, size, p.nextId);
    var answer := Submit(p.adapter, order).1;
    var e := Sent(order, p.nextId + 1, answer);
    OneMore(s.disk, [], p.effects, e);
    if answer.Ok? {
      var pos := NewPosition(c, v, answer.value, signalId, p.nextId + 1, now);
      var row, sent := OpenRow(c, pos, now, answer.value), p.effects + [e];
      OneMore(s.disk, [], sent, Saved(pos));
      OneMore(s.disk, [], sent + [Saved(pos)], Recorded(row));
      assert sent + [Saved(pos)] + [Recorded(row)] == p.effects + [e, Saved(pos), Recorded(row)];
      OpenAudits(c, d, pos, now, answer.value, p.nextId);
    }
  }

  /** One poll from memory that lists the store, any adapter, completed or raised. */
  lemma PollAudits(c: Config, s: Live, b: Bar, now: int, r: Backtest.Reading)
    requires Mirrored(s) && Audited(s.disk)
    ensures Audited(ApplyAll(s.disk, PassOf(c, s, b, now, r).effects))
  {
    hide ManageTo, ApplyAll, MayEnter, Enter, SignalOf, Audited, Lists, IdsBelow, StraysSurvive, NothingClosed;
    ManageAudits(c, s, b, now, |s.open|);
    var m, v := Manage(c, s, b, now), r.verdict;
    if !m.raised && (v.Taken? || v.TurnedDown?) {
      ManageSettles(c, s, b, now);
      var row := SignalOf(m.nextId, now, v);
      var q := Publish(m, row);
      OneMore(s.disk, [], m.effects, Published(row));
      OtherTable(ApplyAll(s.disk, m.effects), row);
      PublishSettles(s, m, row);
      if MayEnter(c, q.equity, |q.book|, v) { EnterAudits(c, s, q, v, r, b, now, m.nextId); }
    }
  }

  lemma OtherTable(d: Disk, row: SignalRow)
    requires Audited(d)
    ensures Audited(Apply(d, Published(row)))
  {
  }

  /** Over any polls that leave no stale list, with any adapter: memory lists the store, the ledger audits to
      exactly what is stored, and equity is what it was plus the realised P&L of the new rows. */
  lemma {:induction false} RunBalances(c: Config, s: Live, polls: seq<PollInput>)
    requires Mirrored(s) && Audited(s.disk)
    requires forall k {:trigger polls[k]} :: 0 <= k < |polls| ==>
      !LeavesStaleList(c, RunPolls(c, s, polls[..k]), polls[k].bar, polls[k].now)
    ensures var f := RunPolls(c, s, polls);
      && Mirrored(f) && Audited(f.disk) && s.disk.ledger <= f.disk.ledger
      && f.equity == s.equity + Conservation.PnlSum(f.disk.ledger[|s.disk.ledger|..])
  {
    hide PassOf, Mirrored, Audited, LeavesStaleList;
    EquityIsRealisedPnl(c, s, polls);
    if polls != [] {
      var init, t := polls[..|polls| - 1], polls[|polls| - 1];
      assert polls[..|init|] == init;
      forall k {:trigger init[k]} | 0 <= k < |init|
        ensures !LeavesStaleList(c, RunPolls(c, s, init[..k]), init[k].bar, init[k].now)
      {
        assert init[..k] == polls[..k] && init[k] == polls[k];
      }
      RunBalances(c, s, init);
      var l := RunPolls(c, s, init);
      PollAudits(c, l, t.bar, t.now, t.reading);
      PollMirrors(c, l, t.bar, t.now, t.reading);
    }
  }

  lemma PollMirrors(c: Config, s: Live, b: Bar, now: int, r: Backtest.Reading)
    requires Mirrored(s) && !LeavesStaleList(c, s, b, now)
    ensures Mirrored(After(s, PassOf(c, s, b, now, r)))
  {
    hide PassOf, Lists, IdsBelow, LeavesStaleList, StraysSurvive, ApplyAll;
    PollSettles(c, s, b, now, r);
  }

  // ---------------------------------------------------------------- the audit under crashes

  /** At every statement boundary but after a close row, an outcome, or the first save of a position. */
  ghost predicate AuditCuts(d0: Disk, es: seq<Effect>) {
    forall cut :: 0 <= cut <= |es| ==> Audited(ApplyAll(d0, es[..cut])) || (cut > 0 && Halfway(d0, es[cut - 1]))
  }

  lemma ExtendAudit(d0: Disk, es: seq<Effect>, e: Effect)
    requires AuditCuts(d0, es) && (Halfway(d0, e) || Audited(ApplyAll(d0, es + [e])))
    ensures AuditCuts(d0, es + [e])
  {
    hide Audited, Halfway, ApplyAll;
    var all := es + [e];
    forall cut | 0 <= cut <= |all| ensures Audited(ApplyAll(d0, all[..cut])) || (cut > 0 && Halfway(d0, all[cut - 1])) {
      if cut <= |es| { assert all[..cut] == es[..cut]; } else { assert all[..cut] == all; }
    }
  }

  lemma {:induction false} ManageAuditCuts(c: Config, s: Live, b: Bar, now: int, k: nat)
    requires Mirrored(s) && Audited(s.disk) && k <= |s.open|
    ensures AuditCuts(s.disk, ManageTo(c, Begin(s), b, now, k).effects)
  {
    hide CheckExit, ApplyAll, Audited, Mirrored, WithExcursion, Submit, CloseOrder, ClosePnl, RMultiple, AuditCuts;
    if k == 0 {
      NoCutAudited(s.disk);
    } else {
      ManageAuditCuts(c, s, b, now, k - 1);
      ManageAudits(c, s, b, now, k - 1);
      ManageAudits(c, s, b, now, k);
      var p := ManageTo(c, Begin(s), b, now, k - 1);
      if !p.raised {
        if CheckExit(p.book[k - 1], b, now).None? {
          ExtendAudit(s.disk, p.effects, Saved(WithExcursion(p.book[k - 1], b)));
        } else {
          var order := CloseOrder(c, p.book[k - 1], b, now, p.nextId);
          var answer := Submit(p.adapter, order).1;
          var e := Sent(order, p.book[k - 1].tradeId, answer);
          OneMore(s.disk, [], p.effects, e);
          ExtendAudit(s.disk, p.effects, e);
          if answer.Ok? {
            var es, f := p.effects + [e], CloseEffects(c, p.book[k - 1], now, answer.value);
            assert es + [f[0]] + [f[1]] + [f[2]] == es + f;
            ExtendAudit(s.disk, es, f[0]);
            ExtendAudit(s.disk, es + [f[0]], f[1]);
            ExtendAudit(s.disk, es + [f[0]] + [f[1]], f[2]);
          }
        }
      }
    }
  }

  lemma NoCutAudited(d: Disk)
    requires Audited(d)
    ensures AuditCuts(d, [])
  {
    hide Audited;
  }

  lemma EnterAuditCuts(c: Config, s: Live, p: Pass, v: Rules.Verdict, r: Backtest.Reading, b: Bar, now: int,
    signalId: int)
    requires MayEnter(c, p.equity, |p.book|, v) && AuditCuts(s.disk, p.effects) && Audited(ApplyAll(s.disk, p.effects))
    requires IdsBelow(ApplyAll(s.disk, p.effects), p.nextId) && IdsBelow(s.disk, p.nextId)
    ensures AuditCuts(s.disk, Enter(c, p, v, r.fv, b, now, signalId).effects)
  {
    hide GateDecision, OpenOrder, ApplyAll, Submit, Audited, AuditCuts;
    var size := GateDecision(c, p.equity, |p.book|, v).sizeUnits;
    var order := OpenOrder(c, v, r.fv, b, now, size, p.nextId);
    var answer := Submit(p.adapter, order).1;
    var e := Sent(order, p.nextId + 1, answer);
    EnterAudits(c, s, p, v, r, b, now, signalId);
    OneMore(s.disk, [], p.effects, e);
    ExtendAudit(s.disk, p.effects, e);
    if answer.Ok? {
      var pos := NewPosition(c, v, answer.value, signalId, p.nextId + 1, now);
      var row, sent := OpenRow(c, pos, now, answer.value), p.effects + [e];
      assert sent + [Saved(pos)] + [Recorded(row)] == p.effects + [e, Saved(pos), Recorded(row)];
      assert Halfway(s.disk, Saved(pos));
      ExtendAudit(s.disk, sent, Saved(pos));
      ExtendAudit(s.disk, sent + [Saved(pos)], Recorded(row));
    }
  }

  lemma PollAuditCuts(c: Config, s: Live, b: Bar, now: int, r: Backtest.Reading)
    requires Mirrored(s) && Audited(s.disk)
    ensures AuditCuts(s.disk, PassOf(c, s, b, now, r).effects)
  {
    hide ManageTo, ApplyAll, MayEnter, Enter, SignalOf, Audited, AuditCuts, Lists, IdsBelow, StraysSurvive,
      NothingClosed;
    ManageAuditCuts(c, s, b, now, |s.open|);
    ManageAudits(c, s, b, now, |s.open|);
    var m, v := Manage(c, s, b, now), r.verdict;
    if !m.raised && (v.Taken? || v.TurnedDown?) {
      ManageSettles(c, s, b, now);
      CounterOfManage(c, s, b, now);
      var row := SignalOf(m.nextId, now, v);
      var q := Publish(m, row);
      OneMore(s.disk, [], m.effects, Published(row));
      OtherTable(ApplyAll(s.disk, m.effects), row);
      ExtendAudit(s.disk, m.effects, Published(row));
      PublishSettles(s, m, row);
      if MayEnter(c, q.equity, |q.book|, v) {
        MoreIds(s.disk, s.nextId, q.nextId);
        EnterAuditCuts(c, s, q, v, r, b, now, m.nextId);
      }
    }
  }

  /** In an audited ledger the trades left open are those with an open row and no close row. */
  lemma {:induction false} AuditedOpens(rows: seq<LedgerEntry>, id: int)
    requires Conservation.Audit(rows).Some?
    ensures id in Conservation.Audit(rows).value <==> OpenInLedger(rows, id)
    ensures HasOpen(rows, id) || HasClose(rows, id) <==> Conservation.HasTrade(rows, id)
  {
    if rows != [] {
      var init, last := rows[..|rows| - 1], rows[|rows| - 1];
      AuditedOpens(init, id);
      assert init + [last] == rows;
      LedgerGrows(init, last);
      TradeGrows(init, last, id);
    }
  }

  lemma TradeGrows(rows: seq<LedgerEntry>, row: LedgerEntry, id: int)
    ensures Conservation.HasTrade(rows + [row], id) <==> Conservation.HasTrade(rows, id) || row.tradeId == id
  {
    var all := rows + [row];
    assert all[|rows|] == row;
    if i :| 0 <= i < |rows| && rows[i].tradeId == id { assert all[i] == rows[i]; }
  }

  lemma AuditedCoincides(d: Disk)
    requires Audited(d)
    ensures TablesCoincide(d)
  {
    hide OpenInLedger;
    forall id ensures id in d.positions <==> OpenInLedger(d.ledger, id) { AuditedOpens(d.ledger, id); }
  }

  /** Cut a poll after any statement, with any adapter: the ledger audits to exactly what is stored if and only if that
      statement is not a close row, an outcome, or the first save of a position. */
  lemma PollAuditCutsExact(c: Config, s: Live, b: Bar, now: int, r: Backtest.Reading, cut: nat)
    requires Mirrored(s) && Audited(s.disk) && cut <= |PassOf(c, s, b, now, r).effects|
    ensures var es := PassOf(c, s, b, now, r).effects;
      Audited(ApplyAll(s.disk, es[..cut])) <==> cut == 0 || !Halfway(s.disk, es[cut - 1])
  {
    hide PassOf, Audited, Mirrored, TablesCoincide, Halfway, ApplyAll;
    var es := PassOf(c, s, b, now, r).effects;
    AuditedCoincides(s.disk);
    PollCutsExact(c, s, b, now, r);
    PollAuditCuts(c, s, b, now, r);
    if Audited(ApplyAll(s.disk, es[..cut])) { AuditedCoincides(ApplyAll(s.disk, es[..cut])); }
  }

  /** A crash comes after none of these statements, and a poll leaves no stale list. */
  ghost predicate KeepsAudit(c: Config, s: Live, e: Step) {
    && Drift.Reloads(c, s, e)
    && match e
       case Polled(b, now, _) => !LeavesStaleList(c, s, b, now)
       case Restarted(_, _) => true
       case Crashed(b, now, r, cut, _, _) =>
         var es := Cut(PassOf(c, s, b, now, r).effects, cut);
         es == [] || !Halfway(s.disk, es[|es| - 1])
  }

  lemma StepAudits(c: Config, s: Live, e: Step)
    requires Mirrored(s) && Audited(s.disk) && KeepsAudit(c, s, e)
    ensures Mirrored(StepTo(c, s, e)) && Audited(StepTo(c, s, e).disk)
  {
    hide PassOf, Audited, Mirrored, Halfway, ApplyAll, AdapterAfter, LeavesStaleList, Lists;
    CloseRows.StepMirrors(c, s, e);
    match e {
      case Polled(b, now, r) =>
        PollAudits(c, s, b, now, r);
      case Restarted(_, _) =>
      case Crashed(b, now, r, cut, _, _) =>
        var es := PassOf(c, s, b, now, r).effects;
        var at := if cut <= |es| then cut else |es|;
        assert es[..at] == Cut(es, cut);
        PollAuditCutsExact(c, s, b, now, r, at);
    }
  }

  /** Over every run of polls that leave no stale list, restarts, and crashes after any other statement, with any
      adapter: memory lists the store and the ledger audits to exactly what is stored. */
  lemma {:induction false} AuditSurvivesCrashes(c: Config, s: Live, steps: seq<Step>)
    requires Mirrored(s) && Audited(s.disk)
    requires forall k {:trigger steps[k]} :: 0 <= k < |steps| ==> KeepsAudit(c, RunSteps(c, s, steps[..k]), steps[k])
    ensures Mirrored(RunSteps(c, s, steps)) && Audited(RunSteps(c, s, steps).disk)
  {
    hide StepTo, Mirrored, Audited, KeepsAudit;
    if steps != [] {
      var init, e := steps[..|steps| - 1], steps[|steps| - 1];
      assert steps[..|init|] == init;
      forall k {:trigger init[k]} | 0 <= k < |init| ensures KeepsAudit(c, RunSteps(c, s, init[..k]), init[k]) {
        assert init[..k] == steps[..k] && init[k] == steps[k];
      }
      AuditSurvivesCrashes(c, s, init);
      StepAudits(c, RunSteps(c, s, init), e);
    }
  }
}

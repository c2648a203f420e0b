/** Backtest trades close on the first bar that gives a reason. */
module Exits {
  import opened Prelude
  import opened Bars
  import opened Records
  import opened Backtest
  import opened Conservation
  import Features
  import Rules

  /** The bar touches stop or target, or the trade is as old as its time stop. */
  predicate Due(d: Direction, stop: real, target: real, limit: Option<int>, age: int, b: Bar) {
    || (d == Long && (b.low <= stop || b.high >= target))
    || (d == Short && (b.high >= stop || b.low <= target))
    || (limit.Some? && age >= limit.value)
  }

  predicate DueOn(t: OpenTrade, b: Bar, i: int) {
    Due(t.direction, t.stopPrice, t.targetPrice, t.timeStopBars, i - t.openedBarIndex, b)
  }

  /** The trigger: a level touched, the stop before the target where a bar touches both, or else the close. */
  lemma ExitIffDue(t: OpenTrade, b: Bar, i: int)
    ensures CheckExit(t, b, i).Some? <==> DueOn(t, b, i)
    ensures var stopped := if t.direction == Long then b.low <= t.stopPrice else b.high >= t.stopPrice;
      var reached := if t.direction == Long then b.high >= t.targetPrice else b.low <= t.targetPrice;
      var price := if stopped then t.stopPrice else if reached then t.targetPrice else b.close;
      CheckExit(t, b, i).Some? ==> CheckExit(t, b, i).value == price
  {
  }

  /** The same trade, its excursions aside. */
  predicate SameTrade(t: OpenTrade, u: OpenTrade) {
    u == t.(mae := u.mae, mfe := u.mfe)
  }

  // ---------------------------------------------------------------- one bar

  predicate IsCloseOf(row: LedgerEntry, t: OpenTrade) {
    && row.event.Closed? && row.tradeId == t.tradeId && row.signalId == t.signalId
    && IsResult(row, t.entryPrice, t.stopPrice)
  }

  /** The result: what the price has moved the trade's way times its size, less the commission; and that in multiples of
      what was at risk between entry and stop. */
  predicate IsResult(row: LedgerEntry, entry: real, stop: real) {
    && row.realisedPnl.Some? && row.realisedR.Some? && IsPnl(row, entry, row.realisedPnl.value)
    && IsMultiple(row.realisedR.value, row.realisedPnl.value, AtRisk(entry, stop, row.sizeUnits))
  }

  function AtRisk(entry: real, stop: real, size: real): real {
    (if entry > stop then entry - stop else stop - entry) * size
  }

  predicate IsPnl(row: LedgerEntry, entry: real, pnl: real) {
    pnl + row.commission == (if row.direction == Long then row.price - entry else entry - row.price) * row.sizeUnits
  }

  predicate IsMultiple(r: real, pnl: real, risk: real) {
    if risk > 0.0 then r * risk == pnl else r == 0.0
  }

  /** This trade's close row is among those from row n on. */
  ghost predicate ClosedFrom(ledger: seq<LedgerEntry>, n: nat, t: OpenTrade) {
    exists x {:trigger ledger[x]} :: n <= x < |ledger| && IsCloseOf(ledger[x], t)
  }

  /** A trade that is due, whose close row this is. */
  ghost predicate ClosesDue(trades: seq<OpenTrade>, b: Bar, i: int, row: LedgerEntry) {
    exists t :: t in trades && DueOn(t, b, i) && IsCloseOf(row, t)
  }

  ghost predicate Survives(open: seq<OpenTrade>, t: OpenTrade) {
    exists u :: u in open && SameTrade(t, u)
  }

  ghost predicate Survivor(trades: seq<OpenTrade>, b: Bar, i: int, u: OpenTrade) {
    exists t :: t in trades && !DueOn(t, b, i) && SameTrade(t, u)
  }

  /** Those due have a close row, the others are kept. */
  ghost predicate Sifted(ledger: seq<LedgerEntry>, n: nat, open: seq<OpenTrade>, trades: seq<OpenTrade>, b: Bar, i: int)
  {
    forall t :: t in trades ==> if DueOn(t, b, i) then ClosedFrom(ledger, n, t) else Survives(open, t)
  }

  ghost predicate OnlyDue(ledger: seq<LedgerEntry>, n: nat, trades: seq<OpenTrade>, b: Bar, i: int) {
    forall x {:trigger ledger[x]} :: n <= x < |ledger| ==> ClosesDue(trades, b, i, ledger[x])
  }

  ghost predicate OnlySurvivors(open: seq<OpenTrade>, trades: seq<OpenTrade>, b: Bar, i: int) {
    forall u :: u in open ==> Survivor(trades, b, i, u)
  }

  /** These trades have been dealt with, and nothing else. */
  ghost predicate DealtWith(s: State, m: State, trades: seq<OpenTrade>, b: Bar, i: int) {
    && s.ledger <= m.ledger && m.halted == s.halted && m.published == s.published
    && Sifted(m.ledger, |s.ledger|, m.open, trades, b, i)
    && OnlyDue(m.ledger, |s.ledger|, trades, b, i) && OnlySurvivors(m.open, trades, b, i)
  }

  lemma ClosedGrows(ledger: seq<LedgerEntry>, more: seq<LedgerEntry>, n: nat, t: OpenTrade)
    requires ClosedFrom(ledger, n, t) && ledger <= more
    ensures ClosedFrom(more, n, t)
  {
    hide IsCloseOf;
    var x :| n <= x < |ledger| && IsCloseOf(ledger[x], t);
    assert more[x] == ledger[x];
  }

  lemma SiftedGrows(ledger: seq<LedgerEntry>, more: seq<LedgerEntry>, n: nat, open: seq<OpenTrade>,
    wider: seq<OpenTrade>, trades: seq<OpenTrade>, t: OpenTrade, b: Bar, i: int)
    requires Sifted(ledger, n, open, trades, b, i) && ledger <= more && open <= wider
    requires if DueOn(t, b, i) then ClosedFrom(more, n, t) else Survives(wider, t)
    ensures Sifted(more, n, wider, trades + [t], b, i)
  {
    hide DueOn, SameTrade, ClosedFrom;
    forall x | x in trades + [t] ensures if DueOn(x, b, i) then ClosedFrom(more, n, x) else Survives(wider, x) {
      if x in trades {
        if DueOn(x, b, i) { ClosedGrows(ledger, more, n, x); } else { assert Survives(open, x); }
      }
    }
  }

  lemma MoreDue(trades: seq<OpenTrade>, t: OpenTrade, b: Bar, i: int, row: LedgerEntry)
    requires ClosesDue(trades, b, i, row)
    ensures ClosesDue(trades + [t], b, i, row)
  {
    hide DueOn, IsCloseOf;
    var w :| w in trades && DueOn(w, b, i) && IsCloseOf(row, w);
    assert w in trades + [t];
  }

  lemma MoreSurvivors(trades: seq<OpenTrade>, t: OpenTrade, b: Bar, i: int, u: OpenTrade)
    requires Survivor(trades, b, i, u)
    ensures Survivor(trades + [t], b, i, u)
  {
    hide DueOn, SameTrade;
    var w :| w in trades && !DueOn(w, b, i) && SameTrade(w, u);
    assert w in trades + [t];
  }

  lemma SurvivorDealt(s: State, m: State, trades: seq<OpenTrade>, t: OpenTrade, u: OpenTrade, b: Bar, i: int)
    requires DealtWith(s, m, trades, b, i) && !DueOn(t, b, i) && SameTrade(t, u)
    ensures DealtWith(s, m.(open := m.open + [u]), trades + [t], b, i)
  {
    hide DueOn, SameTrade, IsCloseOf, ClosesDue, Survivor, Sifted;
    var open, all := m.open + [u], trades + [t];
    assert u in open && t in all;
    SiftedGrows(m.ledger, m.ledger, |s.ledger|, m.open, open, trades, t, b, i);
    forall x {:trigger m.ledger[x]} | |s.ledger| <= x < |m.ledger| ensures ClosesDue(all, b, i, m.ledger[x]) {
      MoreDue(trades, t, b, i, m.ledger[x]);
    }
    forall x | x in open ensures Survivor(all, b, i, x) {
      if x in m.open { MoreSurvivors(trades, t, b, i, x); } else { Survived(trades, t, b, i, x); }
    }
  }

  lemma Survived(trades: seq<OpenTrade>, t: OpenTrade, b: Bar, i: int, u: OpenTrade)
    requires !DueOn(t, b, i) && SameTrade(t, u)
    ensures Survivor(trades + [t], b, i, u)
  {
    hide DueOn, SameTrade;
    assert t in trades + [t];
  }

  lemma CloseDealt(s: State, m: State, q: State, trades: seq<OpenTrade>, t: OpenTrade, b: Bar, i: int, row: LedgerEntry)
    requires DealtWith(s, m, trades, b, i) && DueOn(t, b, i) && IsCloseOf(row, t)
    requires q.ledger == m.ledger + [row] && q.open == m.open && q.halted == m.halted && q.published == m.published
    ensures DealtWith(s, q, trades + [t], b, i)
  {
    hide DueOn, SameTrade, IsCloseOf, ClosesDue, Survivor, Sifted;
    var all := trades + [t];
    assert t in all && q.ledger[|m.ledger|] == row;
    SiftedGrows(m.ledger, q.ledger, |s.ledger|, m.open, m.open, trades, t, b, i);
    forall x {:trigger q.ledger[x]} | |s.ledger| <= x < |q.ledger| ensures ClosesDue(all, b, i, q.ledger[x]) {
      if x < |m.ledger| {
        assert q.ledger[x] == m.ledger[x];
        MoreDue(trades, t, b, i, m.ledger[x]);
      } else {
        ClosesThis(trades, t, b, i, row);
      }
    }
    forall x | x in q.open ensures Survivor(all, b, i, x) { MoreSurvivors(trades, t, b, i, x); }
  }

  lemma ClosesThis(trades: seq<OpenTrade>, t: OpenTrade, b: Bar, i: int, row: LedgerEntry)
    requires DueOn(t, b, i) && IsCloseOf(row, t)
    ensures ClosesDue(trades + [t], b, i, row)
  {
    hide DueOn, IsCloseOf;
    assert t in trades + [t];
  }

  lemma {:induction false} ManageDeals(c: Config, s: State, trades: seq<OpenTrade>, b: Bar, i: int, k: nat)
    requires k <= |trades|
    ensures DealtWith(s, ManageTo(c, s, trades, b, i, k), trades[..k], b, i)
  {
    hide CloseRow, WithExcursion, DealtWith, DueOn, SameTrade, CheckExit;
    if k == 0 {
      NoneDealt(s, b, i);
    } else {
      ManageDeals(c, s, trades, b, i, k - 1);
      var m, t := ManageTo(c, s, trades, b, i, k - 1), trades[k - 1];
      assert trades[..k] == trades[..k - 1] + [t];
      ExitIffDue(t, b, i);
      if CheckExit(t, b, i).None? {
        SameWithExcursion(t, b);
        SurvivorDealt(s, m, trades[..k - 1], t, WithExcursion(t, b), b, i);
      } else {
        RowOfTrade(c, t, b, m.nextId);
        CloseDealt(s, m, CloseOne(c, m, t, b), trades[..k - 1], t, b, i, CloseRow(c, t, b, m.nextId));
      }
    }
  }

  lemma NoneDealt(s: State, b: Bar, i: int)
    ensures DealtWith(s, s.(open := []), [], b, i)
  {
  }

  lemma SameWithExcursion(t: OpenTrade, b: Bar)
    ensures SameTrade(t, WithExcursion(t, b))
  {
  }

  lemma RowOfTrade(c: Config, t: OpenTrade, b: Bar, id: int)
    ensures IsCloseOf(CloseRow(c, t, b, id), t)
  {
    hide RMultiple, ClosePnl, CloseFill, IsPnl, IsMultiple, AtRisk;
    PnlOfRow(c, t, b, id);
    MultipleIs(ClosePnl(c, t, b, id), t.entryPrice, t.stopPrice, t.sizeUnits);
  }

  lemma PnlOfRow(c: Config, t: OpenTrade, b: Bar, id: int)
    ensures IsPnl(CloseRow(c, t, b, id), t.entryPrice, ClosePnl(c, t, b, id))
  {
    hide RMultiple, CloseFill;
  }

  lemma MultipleIs(pnl: real, entry: real, stop: real, size: real)
    ensures IsMultiple(RMultiple(pnl, entry, stop, size), pnl, AtRisk(entry, stop, size))
  {
    hide RMultiple;
    RMultipleOfRisk(pnl, entry, stop, size);
  }

  /** A new trade stands on the signal just published: its direction, stop and target, and the configured time stop. */
  predicate StandsOn(c: Config, t: OpenTrade, p: SignalRow) {
    && p.signalId == t.signalId && p.direction == t.direction && p.stop == Some(t.stopPrice)
    && p.target == Some(t.targetPrice) && t.timeStopBars == c.timeStopBars
  }

  ghost predicate HasSignal(c: Config, published: seq<SignalRow>, t: OpenTrade) {
    exists p :: p in published && StandsOn(c, t, p)
  }

  /** The open row of a trade. */
  predicate Opens(row: LedgerEntry, t: OpenTrade) {
    row.event.Opened? && row.tradeId == t.tradeId && row.signalId == t.signalId && row.price == t.entryPrice
  }

  ghost predicate OpenedFrom(ledger: seq<LedgerEntry>, n: nat, t: OpenTrade) {
    exists x {:trigger ledger[x]} :: n <= x < |ledger| && Opens(ledger[x], t)
  }

  ghost predicate NewHere(c: Config, f: State, n: nat, t: OpenTrade, i: int) {
    t.openedBarIndex == i && HasSignal(c, f.published, t) && OpenedFrom(f.ledger, n, t)
  }

  /** What the reaction may add: one open row, and with it one trade on the signal just published. */
  ghost predicate Added(c: Config, m: State, f: State, i: int) {
    && m.published <= f.published && m.ledger <= f.ledger && m.open <= f.open
    && (forall x {:trigger f.ledger[x]} :: |m.ledger| <= x < |f.ledger| ==> f.ledger[x].event.Opened?)
    && (forall x {:trigger f.open[x]} :: |m.open| <= x < |f.open| ==> NewHere(c, f, |m.ledger|, f.open[x], i))
  }

  lemma ReactAdds(c: Config, m: State, v: Rules.Verdict, fv: Features.FeatureVector, b: Bar, i: int)
    ensures Added(c, m, React(c, m, v, fv, b, i), i)
  {
    hide GateDecision, OpenOrder, Execution.SimulatedFill;
    var f := React(c, m, v, fv, b, i);
    if |f.open| > |m.open| {
      var t := f.open[|m.open|];
      assert Opens(f.ledger[|m.ledger|], t);
      assert f.published[|m.published|] in f.published && StandsOn(c, t, f.published[|m.published|]);
    }
  }

  /** One bar: a trade that is due has a close row and no other trade has, the others stay, and new ones stand on their
      signals. */
  ghost predicate BarSifted(c: Config, p: State, f: State, b: Bar, i: int) {
    && p.ledger <= f.ledger && p.published <= f.published
    && (forall t :: t in p.open ==>
          if DueOn(t, b, i) then ClosedFrom(f.ledger, |p.ledger|, t) else Survives(f.open, t))
    && (forall x {:trigger f.ledger[x]} :: |p.ledger| <= x < |f.ledger| && f.ledger[x].event.Closed? ==>
          ClosesDue(p.open, b, i, f.ledger[x]))
    && (forall u :: u in f.open ==> Survivor(p.open, b, i, u) || NewHere(c, f, |p.ledger|, u, i))
  }

  lemma Sifts(c: Config, p: State, m: State, f: State, b: Bar, i: int)
    requires DealtWith(p, m, p.open, b, i) && Added(c, m, f, i)
    ensures BarSifted(c, p, f, b, i)
  {
    hide DueOn, SameTrade, IsCloseOf, ClosesDue, Survivor, HasSignal, Opens;
    forall t | t in p.open && DueOn(t, b, i) ensures ClosedFrom(f.ledger, |p.ledger|, t) {
      var x :| |p.ledger| <= x < |m.ledger| && IsCloseOf(m.ledger[x], t);
      assert f.ledger[x] == m.ledger[x];
    }
    forall t | t in p.open && !DueOn(t, b, i) ensures Survives(f.open, t) {
      var u :| u in m.open && SameTrade(t, u);
      assert u in f.open;
    }
    forall x {:trigger f.ledger[x]} | |p.ledger| <= x < |f.ledger| && f.ledger[x].event.Closed?
      ensures ClosesDue(p.open, b, i, f.ledger[x])
    {
      assert x < |m.ledger| && f.ledger[x] == m.ledger[x];
    }
    forall u | u in f.open ensures Survivor(p.open, b, i, u) || NewHere(c, f, |p.ledger|, u, i) {
      var x :| 0 <= x < |f.open| && f.open[x] == u;
      if x < |m.open| { assert u == m.open[x]; }
    }
  }

  lemma BarSifts(c: Config, p: State, b: Bar, r: Reading, i: nat)
    requires !p.halted
    ensures BarSifted(c, p, BarStep(c, p, b, r, i), b, i)
  {
    hide ManageTo, React, DealtWith, Added, BarSifted;
    ManageDeals(c, p, p.open, b, i, |p.open|);
    assert p.open[..|p.open|] == p.open;
    ReactAdds(c, Manage(c, p, b, i), r.verdict, r.fv, b, i);
    Sifts(c, p, Manage(c, p, b, i), BarStep(c, p, b, r, i), b, i);
  }

  // ---------------------------------------------------------------- where a trade stands

  /** Row j was written on bar e. */
  ghost predicate WrittenOn(c: Config, bars: seq<Bar>, readings: seq<Reading>, s: State, j: int, e: nat)
    requires e < |bars| == |readings|
  {
    |Replay(c, bars, readings, s, e).ledger| <= j < |Replay(c, bars, readings, s, e + 1).ledger|
  }

  ghost predicate OpenedOn(c: Config, bars: seq<Bar>, readings: seq<Reading>, s: State, f: State, t: OpenTrade, a: int)
    requires |bars| == |readings|
  {
    0 <= a < |bars| && exists o {:trigger f.ledger[o]} ::
      0 <= o < |f.ledger| && WrittenOn(c, bars, readings, s, o, a) && Opens(f.ledger[o], t)
  }

  /** No reason so far: on no bar from `from` on and before bar k. */
  ghost predicate NotYetDue(bars: seq<Bar>, t: OpenTrade, from: int, k: int)
    requires 0 <= from && k <= |bars|
  {
    forall x {:trigger bars[x]} :: from <= x < k ==> !DueOn(t, bars[x], x)
  }

  /** Open after k bars. */
  ghost predicate Standing(c: Config, bars: seq<Bar>, readings: seq<Reading>, s: State, f: State, t: OpenTrade, k: nat)
    requires k <= |bars| == |readings|
  {
    && 0 <= t.openedBarIndex < k && OpenedOn(c, bars, readings, s, f, t, t.openedBarIndex)
    && HasSignal(c, f.published, t)
    && (!f.halted ==> NotYetDue(bars, t, t.openedBarIndex + 1, k))
  }

  ghost predicate AllStanding(c: Config, bars: seq<Bar>, readings: seq<Reading>, s: State, f: State, k: nat)
    requires k <= |bars| == |readings|
  {
    forall t :: t in f.open ==> Standing(c, bars, readings, s, f, t, k)
  }

  lemma HaltedStops(c: Config, s: State, b: Bar, r: Reading, i: nat)
    requires s.halted
    ensures BarStep(c, s, b, r, i) == s
  {
  }

  lemma {:induction false} RunGrows(c: Config, bars: seq<Bar>, readings: seq<Reading>, s: State, k: nat, n: nat)
    requires k <= n <= |bars| == |readings|
    ensures Replay(c, bars, readings, s, k).ledger <= Replay(c, bars, readings, s, n).ledger
    ensures Replay(c, bars, readings, s, k).published <= Replay(c, bars, readings, s, n).published
    ensures Replay(c, bars, readings, s, k).halted ==>
      Replay(c, bars, readings, s, n) == Replay(c, bars, readings, s, k)
  {
    hide BarStep;
    if k < n {
      RunGrows(c, bars, readings, s, k, n - 1);
      StepGrows(c, Replay(c, bars, readings, s, n - 1), bars[n - 1], readings[n - 1], n - 1);
    }
  }

  lemma StepGrows(c: Config, s: State, b: Bar, r: Reading, i: nat)
    ensures s.ledger <= BarStep(c, s, b, r, i).ledger && s.published <= BarStep(c, s, b, r, i).published
    ensures s.halted ==> BarStep(c, s, b, r, i) == s
  {
    hide BarStep;
    if s.halted { HaltedStops(c, s, b, r, i); } else { BarSifts(c, s, b, r, i); }
  }

  /** A trade that stays open stands one bar longer. */
  lemma KeepsStanding(c: Config, bars: seq<Bar>, readings: seq<Reading>, s: State, p: State, f: State, t: OpenTrade,
    u: OpenTrade, k: nat)
    requires k < |bars| == |readings| && Standing(c, bars, readings, s, p, t, k) && SameTrade(t, u)
    requires !DueOn(t, bars[k], k) && p.ledger <= f.ledger && p.published <= f.published && !p.halted
    ensures Standing(c, bars, readings, s, f, u, k + 1)
  {
    hide WrittenOn;
    var o :| 0 <= o < |p.ledger| && WrittenOn(c, bars, readings, s, o, t.openedBarIndex) && Opens(p.ledger[o], t);
    assert f.ledger[o] == p.ledger[o] && Opens(f.ledger[o], u);
    var x :| x in p.published && StandsOn(c, t, x);
    assert x in f.published && StandsOn(c, u, x);
    forall x {:trigger bars[x]} | u.openedBarIndex + 1 <= x < k + 1 ensures !DueOn(u, bars[x], x) {
      DueAlike(t, u, bars[x], x);
    }
  }

  lemma NewStands(c: Config, bars: seq<Bar>, readings: seq<Reading>, s: State, f: State, t: OpenTrade, k: nat)
    requires k < |bars| == |readings| && f == Replay(c, bars, readings, s, k + 1)
    requires NewHere(c, f, |Replay(c, bars, readings, s, k).ledger|, t, k)
    ensures Standing(c, bars, readings, s, f, t, k + 1)
  {
    hide Replay, DueOn, Opens;
    var n := |Replay(c, bars, readings, s, k).ledger|;
    var o :| n <= o < |f.ledger| && Opens(f.ledger[o], t);
    assert WrittenOn(c, bars, readings, s, o, k);
  }

  lemma StepStands(c: Config, bars: seq<Bar>, readings: seq<Reading>, s: State, k: nat)
    requires k < |bars| == |readings|
    requires var p := Replay(c, bars, readings, s, k); !p.halted && AllStanding(c, bars, readings, s, p, k)
    ensures AllStanding(c, bars, readings, s, Replay(c, bars, readings, s, k + 1), k + 1)
  {
    hide BarStep, Standing, DueOn, SameTrade, NewHere;
    var p, f := Replay(c, bars, readings, s, k), Replay(c, bars, readings, s, k + 1);
    BarSifts(c, p, bars[k], readings[k], k);
    forall u | u in f.open ensures Standing(c, bars, readings, s, f, u, k + 1) {
      if NewHere(c, f, |p.ledger|, u, k) {
        NewStands(c, bars, readings, s, f, u, k);
      } else {
        var t :| t in p.open && !DueOn(t, bars[k], k) && SameTrade(t, u);
        KeepsStanding(c, bars, readings, s, p, f, t, u, k);
      }
    }
  }

  /** Over every run: each open trade was opened by a row of its entry bar, on the levels of its published signal, and
      no bar since has given a reason to close it. */
  lemma {:induction false} OpenTradesStand(c: Config, bars: seq<Bar>, readings: seq<Reading>, s: State, k: nat)
    requires k <= |bars| == |readings| && s.open == []
    ensures AllStanding(c, bars, readings, s, Replay(c, bars, readings, s, k), k)
  {
    hide BarStep, AllStanding;
    if k == 0 {
      FlatStands(c, bars, readings, s);
    } else {
      OpenTradesStand(c, bars, readings, s, k - 1);
      var p := Replay(c, bars, readings, s, k - 1);
      if p.halted {
        HaltedStops(c, p, bars[k - 1], readings[k - 1], k - 1);
        StandsLonger(c, bars, readings, s, p, k - 1);
      } else {
        StepStands(c, bars, readings, s, k - 1);
      }
    }
  }

  lemma FlatStands(c: Config, bars: seq<Bar>, readings: seq<Reading>, s: State)
    requires |bars| == |readings| && s.open == []
    ensures AllStanding(c, bars, readings, s, s, 0)
  {
  }

  lemma StandsLonger(c: Config, bars: seq<Bar>, readings: seq<Reading>, s: State, p: State, k: nat)
    requires k < |bars| == |readings| && AllStanding(c, bars, readings, s, p, k) && p.halted
    ensures AllStanding(c, bars, readings, s, p, k + 1)
  {
    hide OpenedOn;
    forall t | t in p.open ensures Standing(c, bars, readings, s, p, t, k + 1) {
      assert Standing(c, bars, readings, s, p, t, k);
    }
  }

  // ---------------------------------------------------------------- every close row has a reason

  /** Row j closed on bar e a trade opened by a row of bar a, and bar e is the first after a to give a reason, on the
      levels of the trade's published signal. */
  ghost predicate ClosedForReason(c: Config, bars: seq<Bar>, readings: seq<Reading>, s: State, f: State, j: int,
    a: nat, e: nat, p: SignalRow)
    requires |bars| == |readings| && 0 <= j < |f.ledger|
  {
    && a < e < |bars| && WrittenOn(c, bars, readings, s, j, e)
    && (exists o {:trigger f.ledger[o]} :: 0 <= o < j && WrittenOn(c, bars, readings, s, o, a)
          && f.ledger[o].event.Opened? && f.ledger[o].tradeId == f.ledger[j].tradeId
          && (p.stop.Some? ==> IsResult(f.ledger[j], f.ledger[o].price, p.stop.value)))
    && p in f.published && p.signalId == f.ledger[j].signalId && p.stop.Some? && p.target.Some?
    && Due(p.direction, p.stop.value, p.target.value, c.timeStopBars, e - a, bars[e])
    && (forall x {:trigger bars[x]} :: a < x < e ==>
          !Due(p.direction, p.stop.value, p.target.value, c.timeStopBars, x - a, bars[x]))
  }

  ghost predicate HasReason(c: Config, bars: seq<Bar>, readings: seq<Reading>, s: State, f: State, j: int)
    requires |bars| == |readings| && 0 <= j < |f.ledger|
  {
    f.ledger[j].event.Closed? ==> exists a, e, p :: ClosedForReason(c, bars, readings, s, f, j, a, e, p)
  }

  lemma StillHasReason(c: Config, bars: seq<Bar>, readings: seq<Reading>, s: State, p: State, f: State, j: int)
    requires |bars| == |readings| && 0 <= j < |p.ledger| && HasReason(c, bars, readings, s, p, j)
    requires p.ledger <= f.ledger && p.published <= f.published
    ensures HasReason(c, bars, readings, s, f, j)
  {
    hide WrittenOn, Due;
    if p.ledger[j].event.Closed? {
      var a, e, x :| ClosedForReason(c, bars, readings, s, p, j, a, e, x);
      assert f.ledger[j] == p.ledger[j];
      var o :| 0 <= o < j && WrittenOn(c, bars, readings, s, o, a) && p.ledger[o].event.Opened?
        && p.ledger[o].tradeId == p.ledger[j].tradeId
        && (x.stop.Some? ==> IsResult(p.ledger[j], p.ledger[o].price, x.stop.value));
      assert f.ledger[o] == p.ledger[o];
      assert ClosedForReason(c, bars, readings, s, f, j, a, e, x);
    }
  }

  lemma NewReason(c: Config, bars: seq<Bar>, readings: seq<Reading>, s: State, k: nat, j: int, t: OpenTrade)
    requires k < |bars| == |readings|
    requires var p, f := Replay(c, bars, readings, s, k), Replay(c, bars, readings, s, k + 1);
      && !p.halted && p.ledger <= f.ledger && p.published <= f.published
      && |p.ledger| <= j < |f.ledger| && IsCloseOf(f.ledger[j], t)
      && Standing(c, bars, readings, s, p, t, k) && DueOn(t, bars[k], k)
    ensures HasReason(c, bars, readings, s, Replay(c, bars, readings, s, k + 1), j)
  {
    hide Replay;
    var p, f := Replay(c, bars, readings, s, k), Replay(c, bars, readings, s, k + 1);
    var o :| 0 <= o < |p.ledger| && WrittenOn(c, bars, readings, s, o, t.openedBarIndex) && Opens(p.ledger[o], t);
    assert f.ledger[o] == p.ledger[o];
    var x :| x in p.published && StandsOn(c, t, x);
    assert WrittenOn(c, bars, readings, s, j, k);
    forall y {:trigger bars[y]} | t.openedBarIndex < y < k
      ensures !Due(x.direction, x.stop.value, x.target.value, c.timeStopBars, y - t.openedBarIndex, bars[y])
    {
      assert !DueOn(t, bars[y], y);
    }
    assert ClosedForReason(c, bars, readings, s, f, j, t.openedBarIndex, k, x);
  }

  lemma StepHasReasons(c: Config, bars: seq<Bar>, readings: seq<Reading>, s: State, k: nat, j: int)
    requires k < |bars| == |readings|
    requires var p := Replay(c, bars, readings, s, k);
      !p.halted && AllStanding(c, bars, readings, s, p, k) && |p.ledger| <= j
    requires j < |Replay(c, bars, readings, s, k + 1).ledger|
    ensures HasReason(c, bars, readings, s, Replay(c, bars, readings, s, k + 1), j)
  {
    hide BarStep, Standing, DueOn, IsCloseOf, NewHere, Survivor;
    var p, f := Replay(c, bars, readings, s, k), Replay(c, bars, readings, s, k + 1);
    BarSifts(c, p, bars[k], readings[k], k);
    if f.ledger[j].event.Closed? {
      assert ClosesDue(p.open, bars[k], k, f.ledger[j]);
      var t :| t in p.open && DueOn(t, bars[k], k) && IsCloseOf(f.ledger[j], t);
      NewReason(c, bars, readings, s, k, j, t);
    }
  }

  /** Over every run, on any bars and readings: every close row was written on the first bar after its trade's entry
      that touches the stop or the target of the published signal or is as late as the time stop. */
  lemma {:induction false} CloseRowsHaveReasons(c: Config, bars: seq<Bar>, readings: seq<Reading>, s: State, k: nat,
    j: int)
    requires k <= |bars| == |readings| && s.open == []
    requires |s.ledger| <= j < |Replay(c, bars, readings, s, k).ledger|
    ensures HasReason(c, bars, readings, s, Replay(c, bars, readings, s, k), j)
  {
    hide HasReason, AllStanding, BarStep;
    if k > 0 {
      var p := Replay(c, bars, readings, s, k - 1);
      RunGrows(c, bars, readings, s, k - 1, k);
      if j < |p.ledger| {
        CloseRowsHaveReasons(c, bars, readings, s, k - 1, j);
        StillHasReason(c, bars, readings, s, p, Replay(c, bars, readings, s, k), j);
      } else {
        OpenTradesStand(c, bars, readings, s, k - 1);
        StepHasReasons(c, bars, readings, s, k - 1, j);
      }
    }
  }

  // ---------------------------------------------------------------- and every reason closes

  /** The close row of an open trade is written on bar e. */
  ghost predicate ClosedOn(c: Config, bars: seq<Bar>, readings: seq<Reading>, s: State, t: OpenTrade, e: nat)
    requires e < |bars| == |readings|
  {
    ClosesAfter(Replay(c, bars, readings, s, e + 1).ledger, |Replay(c, bars, readings, s, e).ledger|, t.tradeId)
  }

  ghost predicate ClosesAfter(ledger: seq<LedgerEntry>, n: nat, id: int) {
    exists j {:trigger ledger[j]} :: n <= j < |ledger| && ledger[j].event.Closed? && ledger[j].tradeId == id
  }

  /** The run is not over, no bar since k has given a reason, and bar e does. */
  ghost predicate FirstDue(c: Config, bars: seq<Bar>, readings: seq<Reading>, s: State, t: OpenTrade, k: nat, e: nat)
    requires k <= e < |bars| == |readings|
  {
    !Replay(c, bars, readings, s, e).halted && NotYetDue(bars, t, k, e) && DueOn(t, bars[e], e)
  }

  lemma SameTwice(t: OpenTrade, u: OpenTrade, w: OpenTrade)
    requires SameTrade(t, u) && SameTrade(u, w)
    ensures SameTrade(t, w)
  {
  }

  lemma SameSelf(t: OpenTrade)
    ensures SameTrade(t, t)
  {
  }

  lemma {:induction false} StaysOpen(c: Config, bars: seq<Bar>, readings: seq<Reading>, s: State, t: OpenTrade, k: nat,
    e: nat)
    requires k <= e <= |bars| == |readings| && t in Replay(c, bars, readings, s, k).open && NotYetDue(bars, t, k, e)
    ensures Survives(Replay(c, bars, readings, s, e).open, t)
  {
    hide BarStep, DueOn, SameTrade, ClosedFrom, ClosesDue, Survivor, NewHere;
    if k == e {
      SameSelf(t);
    } else {
      StaysOpen(c, bars, readings, s, t, k, e - 1);
      var p, b, r := Replay(c, bars, readings, s, e - 1), bars[e - 1], readings[e - 1];
      if p.halted {
        HaltedStops(c, p, b, r, e - 1);
      } else {
        var u :| u in p.open && SameTrade(t, u);
        BarSifts(c, p, b, r, e - 1);
        DueAlike(t, u, b, e - 1);
        assert Survives(Replay(c, bars, readings, s, e).open, u);
        var w :| w in Replay(c, bars, readings, s, e).open && SameTrade(u, w);
        SameTwice(t, u, w);
      }
    }
  }

  lemma DueAlike(t: OpenTrade, u: OpenTrade, b: Bar, i: int)
    requires SameTrade(t, u)
    ensures DueOn(t, b, i) <==> DueOn(u, b, i)
  {
  }

  lemma DueCloses(c: Config, bars: seq<Bar>, readings: seq<Reading>, s: State, t: OpenTrade, k: nat, e: nat)
    requires k <= e < |bars| == |readings| && t in Replay(c, bars, readings, s, k).open
    requires FirstDue(c, bars, readings, s, t, k, e)
    ensures ClosedOn(c, bars, readings, s, t, e)
  {
    hide BarStep, DueOn, SameTrade, ClosesDue, Survivor, NewHere;
    StaysOpen(c, bars, readings, s, t, k, e);
    var p, f := Replay(c, bars, readings, s, e), Replay(c, bars, readings, s, e + 1);
    var u :| u in p.open && SameTrade(t, u);
    DueAlike(t, u, bars[e], e);
    SameId(t, u);
    BarSifts(c, p, bars[e], readings[e], e);
    assert ClosedFrom(f.ledger, |p.ledger|, u);
  }

  /** No trade has two close rows, so the bar that writes one is unique. */
  lemma ClosedOnlyOnce(c: Config, bars: seq<Bar>, readings: seq<Reading>, s: State, t: OpenTrade, x: nat, e: nat)
    requires x < e < |bars| == |readings| && s.open == [] && ClosedOn(c, bars, readings, s, t, x)
    ensures !ClosedOn(c, bars, readings, s, t, e)
  {
    hide Replay, Audit, BookOf, Held, Units, Count, PnlSum;
    var f, n0 := Replay(c, bars, readings, s, e + 1), |s.ledger|;
    RunBalances(c, bars, readings, s, e + 1);
    RunGrows(c, bars, readings, s, 0, x);
    AtStart(c, bars, readings, s);
    RunGrows(c, bars, readings, s, x, x + 1);
    RunGrows(c, bars, readings, s, x + 1, e);
    RunGrows(c, bars, readings, s, e, e + 1);
    var g, h := Replay(c, bars, readings, s, x + 1).ledger, |Replay(c, bars, readings, s, e).ledger|;
    var i :| |Replay(c, bars, readings, s, x).ledger| <= i < |g| && g[i].event.Closed? && g[i].tradeId == t.tradeId;
    assert f.ledger[i] == g[i];
    OneCloseRow(f.ledger, n0, h, i);
  }

  lemma OneCloseRow(ledger: seq<LedgerEntry>, n0: nat, h: nat, i: nat)
    requires n0 <= i < h <= |ledger| && Audit(ledger[n0..]).Some? && ledger[i].event.Closed?
    ensures !ClosesAfter(ledger, h, ledger[i].tradeId)
  {
    hide Audit;
    forall j {:trigger ledger[j]} | h <= j < |ledger| && ledger[j].tradeId == ledger[i].tradeId
      ensures !ledger[j].event.Closed?
    {
      assert ledger[n0..][i - n0] == ledger[i] && ledger[n0..][j - n0] == ledger[j];
      if ledger[j].event.Closed? {
        AuditShape(ledger[n0..], i - n0, j - n0);
        assert false;
      }
    }
  }

  lemma AtStart(c: Config, bars: seq<Bar>, readings: seq<Reading>, s: State)
    requires |bars| == |readings|
    ensures Replay(c, bars, readings, s, 0) == s
  {
  }

  /** A trade closed on bar e was open before it and due. */
  lemma ClosedWasDue(c: Config, bars: seq<Bar>, readings: seq<Reading>, s: State, t: OpenTrade, e: nat)
    requires e < |bars| == |readings| && ClosedOn(c, bars, readings, s, t, e)
    ensures var p := Replay(c, bars, readings, s, e);
      !p.halted && exists u :: u in p.open && u.tradeId == t.tradeId && DueOn(u, bars[e], e)
  {
    hide BarStep, DueOn, SameTrade, Survivor, ClosedFrom, NewHere;
    var p, f := Replay(c, bars, readings, s, e), Replay(c, bars, readings, s, e + 1);
    var x :| |p.ledger| <= x < |f.ledger| && f.ledger[x].event.Closed? && f.ledger[x].tradeId == t.tradeId;
    if p.halted {
      HaltedStops(c, p, bars[e], readings[e], e);
    } else {
      BarSifts(c, p, bars[e], readings[e], e);
      assert ClosesDue(p.open, bars[e], e, f.ledger[x]);
    }
  }

  lemma SameOpenTrade(c: Config, bars: seq<Bar>, readings: seq<Reading>, s: State, k: nat, u: OpenTrade, w: OpenTrade)
    requires k <= |bars| == |readings| && s.open == []
    requires var p := Replay(c, bars, readings, s, k); u in p.open && w in p.open && u.tradeId == w.tradeId
    ensures u == w
  {
    hide Replay, BookOf, Held, Units, Count, PnlSum, Audit;
    RunBalances(c, bars, readings, s, k);
    var p := Replay(c, bars, readings, s, k);
    var i :| 0 <= i < |p.open| && p.open[i] == u;
    var j :| 0 <= j < |p.open| && p.open[j] == w;
    assert i < j || j < i || i == j;
  }

  lemma {:induction false} EarlierDue(bars: seq<Bar>, t: OpenTrade, k: nat, e: nat) returns (x: nat)
    requires k <= e <= |bars| && !NotYetDue(bars, t, k, e)
    ensures k <= x < e && DueOn(t, bars[x], x) && NotYetDue(bars, t, k, x)
  {
    hide DueOn;
    if NotYetDue(bars, t, k, e - 1) { x := e - 1; } else { x := EarlierDue(bars, t, k, e - 1); }
  }

  lemma HaltIsFinal(c: Config, bars: seq<Bar>, readings: seq<Reading>, s: State, x: nat, e: nat)
    requires x <= e <= |bars| == |readings| && !Replay(c, bars, readings, s, e).halted
    ensures !Replay(c, bars, readings, s, x).halted
  {
    hide Replay;
    RunGrows(c, bars, readings, s, x, e);
  }

  lemma ClosedIsFirstDue(c: Config, bars: seq<Bar>, readings: seq<Reading>, s: State, t: OpenTrade, k: nat, e: nat)
    requires k <= e < |bars| == |readings| && s.open == [] && t in Replay(c, bars, readings, s, k).open
    requires ClosedOn(c, bars, readings, s, t, e)
    ensures FirstDue(c, bars, readings, s, t, k, e)
  {
    hide Replay, DueOn, SameTrade, ClosedOn, NotYetDue;
    ClosedWasDue(c, bars, readings, s, t, e);
    if !NotYetDue(bars, t, k, e) {
      var x := EarlierDue(bars, t, k, e);
      HaltIsFinal(c, bars, readings, s, x, e);
      DueCloses(c, bars, readings, s, t, k, x);
      ClosedOnlyOnce(c, bars, readings, s, t, x, e);
    }
    StaysOpen(c, bars, readings, s, t, k, e);
    var u :| u in Replay(c, bars, readings, s, e).open && SameTrade(t, u);
    var w :| w in Replay(c, bars, readings, s, e).open && w.tradeId == t.tradeId && DueOn(w, bars[e], e);
    SameId(t, u);
    SameOpenTrade(c, bars, readings, s, e, u, w);
    DueAlike(t, u, bars[e], e);
  }

  /** Over every run, on any bars and readings: an open trade gets its close row on a bar if and only if the run has
      come to that bar and it is the first to touch the trade's stop or target or to be as late as its time stop. */
  lemma ClosedIffFirstDue(c: Config, bars: seq<Bar>, readings: seq<Reading>, s: State, t: OpenTrade, k: nat, e: nat)
    requires k <= e < |bars| == |readings| && s.open == [] && t in Replay(c, bars, readings, s, k).open
    ensures ClosedOn(c, bars, readings, s, t, e) <==> FirstDue(c, bars, readings, s, t, k, e)
  {
    hide Replay, FirstDue, ClosedOn;
    if FirstDue(c, bars, readings, s, t, k, e) { DueCloses(c, bars, readings, s, t, k, e); }
    if ClosedOn(c, bars, readings, s, t, e) { ClosedIsFirstDue(c, bars, readings, s, t, k, e); }
  }

  lemma SameId(t: OpenTrade, u: OpenTrade)
    requires SameTrade(t, u)
    ensures t.tradeId == u.tradeId
  {
  }
}

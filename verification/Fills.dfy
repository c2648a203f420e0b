/** What fills cost, and that every ledger row is one. */
module Fills {
  import opened Prelude
  import opened Bars
  import opened Execution
  import opened Records
  import Backtest
  import LiveLoop
  import Exits
  import Features
  import Rules
  import SignalOutcomes
  import Tickets

  // ---------------------------------------------------------------- one order

  /** A simulated order is filled at once unless a quote is missing: a buy above the ask and a sell below the bid by the
      slippage in pips, for the commission of its lots. The slippage is that of news, else of a high or extreme
      volatility, else the base. */
  lemma FillIs(m: CostModel, pip: real, o: Order)
    ensures SimulatedFill(m, pip, o) == Err(NoQuote) <==> o.bid == None || o.ask == None
    ensures o.bid.Some? && o.ask.Some? ==> SimulatedFill(m, pip, o).Ok?
    ensures o.bid.Some? && o.ask.Some? ==> Filled(SimulatedFill(m, pip, o).value, m, pip, o)
  {
    DivideThenMultiply(o.sizeUnits, UNITS_PER_LOT);
    assert m.commissionPerLot * (o.sizeUnits / UNITS_PER_LOT) * 100000.0 == m.commissionPerLot * o.sizeUnits;
  }

  predicate Filled(f: Fill, m: CostModel, pip: real, o: Order)
    requires o.bid.Some? && o.ask.Some?
  {
    && (o.direction == Long ==> f.price - o.ask.value == f.slippagePips * pip)
    && (o.direction == Short ==> o.bid.value - f.price == f.slippagePips * pip)
    && IsSlippage(f.slippagePips, m, o.regime, o.newsBlackout)
    && f.commission * 100000.0 == m.commissionPerLot * o.sizeUnits
    && f.orderId == o.orderId && f.direction == o.direction && f.sizeUnits == o.sizeUnits && f.ts == o.ts
    && f.ticket == None
  }

  predicate IsSlippage(pips: real, m: CostModel, regime: Option<string>, newsBlackout: bool) {
    && (newsBlackout ==> pips == m.newsSlippagePips)
    && (!newsBlackout && (regime == Some("high") || regime == Some("extreme")) ==> pips == m.highVolatilitySlippagePips)
    && (!newsBlackout && regime != Some("high") && regime != Some("extreme") ==> pips == m.baseSlippagePips)
  }

  // ---------------------------------------------------------------- rows of a backtest

  /** The way a fill's price lies from the quote: above the ask for a buy, below the bid for a sell. */
  function Slipped(b: Bar, buy: bool, price: real): real {
    if buy then price - b.ask else b.bid - price
  }

  /** The row of a fill on this bar: a trade is closed in the other direction and at the base slippage, as no features
      go with a closing order; it is opened at the slippage that the features of the bar call for. */
  ghost predicate FilledOn(c: Config, row: LedgerEntry, b: Bar, fv: Features.FeatureVector) {
    && row.ts == b.ts + c.seconds && row.symbol == c.symbol && row.strategyName == c.strategyName
    && row.commission * 100000.0 == c.costs.commissionPerLot * row.sizeUnits
    && (row.event.Closed? ==> Slipped(b, row.direction == Short, row.price) == c.costs.baseSlippagePips * c.pip)
    && (row.event.Opened? ==> OpenSlips(c, row, b, fv))
  }

  ghost predicate OpenSlips(c: Config, row: LedgerEntry, b: Bar, fv: Features.FeatureVector) {
    exists pips :: IsSlippage(pips, c.costs, RegimeOf(fv), BlackoutOf(fv))
      && Slipped(b, row.direction == Long, row.price) == pips * c.pip
  }

  lemma CloseRowFilled(c: Config, t: Backtest.OpenTrade, b: Bar, id: int, fv: Features.FeatureVector)
    ensures FilledOn(c, Backtest.CloseRow(c, t, b, id), b, fv)
  {
    hide SimulatedFill, RMultiple, DirectionPnl;
    FillIs(c.costs, c.pip, Backtest.CloseOrder(c, t, b, id));
  }

  lemma OpenRowFilled(c: Config, v: Rules.Verdict, fv: Features.FeatureVector, b: Bar, size: real, orderId: int,
    tradeId: int, signalId: int)
    requires v.Taken?
    ensures var fill := SimulatedFill(c.costs, c.pip, Backtest.OpenOrder(c, v, fv, b, size, orderId)).value;
      FilledOn(c, Backtest.OpenRow(c, tradeId, signalId, v.direction, b.ts + c.seconds, fill), b, fv)
  {
    hide SimulatedFill, RegimeOf, BlackoutOf;
    FillIs(c.costs, c.pip, Backtest.OpenOrder(c, v, fv, b, size, orderId));
  }

  /** The rows from n on are fills on this bar. */
  ghost predicate AllFilledOn(c: Config, ledger: seq<LedgerEntry>, n: nat, b: Bar, fv: Features.FeatureVector) {
    forall j {:trigger ledger[j]} :: n <= j < |ledger| ==> FilledOn(c, ledger[j], b, fv)
  }

  lemma {:induction false} ManageFills(c: Config, s: Backtest.State, trades: seq<Backtest.OpenTrade>, b: Bar, i: int,
    fv: Features.FeatureVector, k: nat)
    requires k <= |trades|
    ensures AllFilledOn(c, Backtest.ManageTo(c, s, trades, b, i, k).ledger, |s.ledger|, b, fv)
    ensures s.ledger <= Backtest.ManageTo(c, s, trades, b, i, k).ledger
  {
    hide Backtest.CheckExit, Backtest.CloseRow, Backtest.WithExcursion, FilledOn, Resolve;
    if k > 0 {
      ManageFills(c, s, trades, b, i, fv, k - 1);
      CloseRowFilled(c, trades[k - 1], b, Backtest.ManageTo(c, s, trades, b, i, k - 1).nextId, fv);
    }
  }

  lemma StepFills(c: Config, s: Backtest.State, b: Bar, r: Backtest.Reading, i: nat)
    ensures AllFilledOn(c, Backtest.BarStep(c, s, b, r, i).ledger, |s.ledger|, b, r.fv)
  {
    hide Backtest.ManageTo, FilledOn, GateDecision, SignalOf, SimulatedFill, Backtest.OpenOrder, Backtest.OpenRow;
    var m := Backtest.Manage(c, s, b, i);
    ManageFills(c, s, s.open, b, i, r.fv, |s.open|);
    if r.verdict.Taken? {
      var p := Backtest.Publish(m, SignalOf(m.nextId, b.ts + c.seconds, r.verdict));
      var size := GateDecision(c, p.equity, |p.open|, r.verdict);
      if size.Approved? {
        OpenRowFilled(c, r.verdict, r.fv, b, size.sizeUnits, p.nextId, p.nextId + 1, m.nextId);
      }
    }
  }

  /** Over every run, on any bars and readings: each row written on a bar is a fill at that bar's quotes and costs. */
  lemma RunRowsAreFills(c: Config, bars: seq<Bar>, readings: seq<Backtest.Reading>, s: Backtest.State, j: int, e: nat)
    requires e < |bars| == |readings| && Exits.WrittenOn(c, bars, readings, s, j, e)
    ensures FilledOn(c, Backtest.Replay(c, bars, readings, s, e + 1).ledger[j], bars[e], readings[e].fv)
  {
    hide Backtest.BarStep, FilledOn;
    StepFills(c, Backtest.Replay(c, bars, readings, s, e), bars[e], readings[e], e);
  }

  // ---------------------------------------------------------------- rows of a poll

  /** The row of an order's fill, at the time of the poll and on the bar's quotes. */
  predicate IsRowOf(row: LedgerEntry, o: Order, f: Fill, b: Bar, now: int) {
    && row.ts == o.ts == now && o.bid == Some(b.bid) && o.ask == Some(b.ask)
    && row.price == f.price && row.commission == f.commission
    && (row.event.Opened? ==> row.sizeUnits == f.sizeUnits && row.direction == o.direction && o.closes == None)
    && (row.event.Closed? ==> row.sizeUnits == o.sizeUnits && row.direction != o.direction)
    && (row.event.Closed? ==> o.regime == None && !o.newsBlackout)
  }

  /** Statement i, if it writes a row, follows the filled order it is the row of: at once on a close, after the position
      has been saved on an opening. */
  ghost predicate Follows(es: seq<Effect>, i: int, x: Adapter, b: Bar, now: int)
    requires 0 <= i < |es|
  {
    es[i].Recorded? ==>
      var k := if es[i].entry.event.Closed? then i - 1 else i - 2;
      && 0 <= k && es[k].Sent? && es[k].answer.Ok? && es[k].forTrade == es[i].entry.tradeId
      && IsRowOf(es[i].entry, es[k].order, es[k].answer.value, b, now)
      && (x.Simulated? ==> es[k].answer == SimulatedFill(x.costs, x.pip, es[k].order))
  }

  ghost predicate AllFollow(es: seq<Effect>, x: Adapter, b: Bar, now: int) {
    forall i :: 0 <= i < |es| ==> Follows(es, i, x, b, now)
  }

  lemma MoreFollow(es: seq<Effect>, more: seq<Effect>, x: Adapter, b: Bar, now: int)
    requires AllFollow(es, x, b, now) && es <= more
    requires forall i :: |es| <= i < |more| ==> Follows(more, i, x, b, now)
    ensures AllFollow(more, x, b, now)
  {
    hide IsRowOf;
    forall i | 0 <= i < |more| ensures Follows(more, i, x, b, now) {
      if i < |es| {
        assert more[i] == es[i] && Follows(es, i, x, b, now);
        if i > 0 { assert more[i - 1] == es[i - 1]; }
        if i > 1 { assert more[i - 2] == es[i - 2]; }
      }
    }
  }

  /** A simulated adapter stays what it is. */
  ghost predicate SameCosts(x: Adapter, y: Adapter) {
    x.Simulated? ==> y == x
  }

  lemma CloseFollows(c: Config, p: LiveLoop.Pass, k: nat, b: Bar, now: int, x: Adapter)
    requires k < |p.book| && AllFollow(p.effects, x, b, now) && SameCosts(x, p.adapter)
    ensures var q := LiveLoop.CloseOne(c, p, k, b, now);
      AllFollow(q.effects, x, b, now) && SameCosts(x, q.adapter) && p.effects <= q.effects
  {
    hide SimulatedFill, LiveLoop.ClosePnl, RMultiple, AllFollow;
    var q := LiveLoop.CloseOne(c, p, k, b, now);
    MoreFollow(p.effects, q.effects, x, b, now);
  }

  lemma SurviveFollows(p: LiveLoop.Pass, k: nat, b: Bar, now: int, x: Adapter)
    requires k < |p.book| && AllFollow(p.effects, x, b, now)
    ensures AllFollow(LiveLoop.Survive(p, k, b).effects, x, b, now)
  {
    hide LiveLoop.WithExcursion, AllFollow;
    MoreFollow(p.effects, LiveLoop.Survive(p, k, b).effects, x, b, now);
  }

  lemma {:induction false} ManageFollows(c: Config, s: LiveLoop.Live, b: Bar, now: int, k: nat)
    requires k <= |s.open|
    ensures var p := LiveLoop.ManageTo(c, LiveLoop.Begin(s), b, now, k);
      AllFollow(p.effects, s.adapter, b, now) && SameCosts(s.adapter, p.adapter)
  {
    hide LiveLoop.CheckExit, LiveLoop.CloseOne, LiveLoop.Survive, Follows;
    if k > 0 {
      ManageFollows(c, s, b, now, k - 1);
      var p := LiveLoop.ManageTo(c, LiveLoop.Begin(s), b, now, k - 1);
      if !p.raised {
        SurviveFollows(p, k - 1, b, now, s.adapter);
        SurviveKeepsAdapter(p, k - 1, b);
        CloseFollows(c, p, k - 1, b, now, s.adapter);
      }
    }
  }

  lemma SurviveKeepsAdapter(p: LiveLoop.Pass, k: nat, b: Bar)
    requires k < |p.book|
    ensures LiveLoop.Survive(p, k, b).adapter == p.adapter
  {
  }

  lemma EnterFollows(c: Config, p: LiveLoop.Pass, v: Rules.Verdict, fv: Features.FeatureVector, b: Bar, now: int,
    signalId: int, x: Adapter)
    requires MayEnter(c, p.equity, |p.book|, v) && AllFollow(p.effects, x, b, now) && SameCosts(x, p.adapter)
    ensures AllFollow(LiveLoop.Enter(c, p, v, fv, b, now, signalId).effects, x, b, now)
  {
    hide SimulatedFill, GateDecision, AllFollow, RegimeOf, BlackoutOf;
    MoreFollow(p.effects, LiveLoop.Enter(c, p, v, fv, b, now, signalId).effects, x, b, now);
  }

  lemma PublishFollows(p: LiveLoop.Pass, row: SignalRow, b: Bar, now: int, x: Adapter)
    requires AllFollow(p.effects, x, b, now)
    ensures AllFollow(LiveLoop.Publish(p, row).effects, x, b, now)
  {
    hide AllFollow;
    MoreFollow(p.effects, LiveLoop.Publish(p, row).effects, x, b, now);
  }

  /** One poll, any adapter, any memory, completed or raised: every row it writes is that of the filled order before it,
      at the quotes of the bar; and a simulated fill costs what the cost model says. */
  lemma PollRowsAreFills(c: Config, s: LiveLoop.Live, b: Bar, now: int, r: Backtest.Reading)
    ensures AllFollow(LiveLoop.PassOf(c, s, b, now, r).effects, s.adapter, b, now)
  {
    hide LiveLoop.ManageTo, AllFollow, GateDecision, LiveLoop.Enter, SignalOf;
    ManageFollows(c, s, b, now, |s.open|);
    var m, v := LiveLoop.Manage(c, s, b, now), r.verdict;
    if v.Taken? || v.TurnedDown? {
      var row := SignalOf(m.nextId, now, v);
      PublishFollows(m, row, b, now, s.adapter);
      var q := LiveLoop.Publish(m, row);
      if MayEnter(c, q.equity, |q.book|, v) { EnterFollows(c, q, v, r.fv, b, now, m.nextId, s.adapter); }
    }
  }

  // ---------------------------------------------------------------- what follows a row

  /** The close row of this position: its terms, its result, its extremes. */
  predicate ClosesPosition(row: LedgerEntry, p: LivePosition) {
    && row.tradeId == p.tradeId && row.signalId == p.signalId && row.direction == p.direction
    && row.sizeUnits == p.sizeUnits && row.mae == Some(p.mae) && row.mfe == Some(p.mfe)
    && Exits.IsResult(row, p.entryPrice, p.stopPrice)
  }

  /** The position of this open row: its terms, and nothing seen yet. */
  predicate OpensPosition(row: LedgerEntry, p: LivePosition) {
    && p.tradeId == row.tradeId && p.signalId == row.signalId && p.direction == row.direction
    && p.entryPrice == row.price && p.sizeUnits == row.sizeUnits && p.openedAt == row.ts && p.mae == p.mfe == 0.0
  }

  /** The row's outcome, extremes and R for its signal. */
  predicate Resolves(e: Effect, row: LedgerEntry) {
    && e.Resolved? && e.signalId == row.signalId && row.realisedPnl.Some?
    && SignalOutcomes.IsOutcome(Some(e.outcome), row.realisedPnl.value)
    && row.mae == Some(e.mae) && row.mfe == Some(e.mfe) && row.realisedR == Some(e.realisedR)
  }

  /** Statement i, if it writes a close row, is that of a listed position, and the outcome of its signal and the delete
      of the position follow; if an open row, it follows the save of its position. */
  ghost predicate Concludes(es: seq<Effect>, i: int, open: seq<LivePosition>)
    requires 0 <= i < |es|
  {
    es[i].Recorded? ==>
      var row := es[i].entry;
      if row.event.Closed? then
        && i + 2 < |es| && (exists p :: p in open && ClosesPosition(row, p))
        && Resolves(es[i + 1], row) && es[i + 2] == Deleted(row.tradeId)
      else
        i > 0 && es[i - 1].Saved? && OpensPosition(row, es[i - 1].position)
  }

  ghost predicate AllConclude(es: seq<Effect>, open: seq<LivePosition>) {
    forall i :: 0 <= i < |es| ==> Concludes(es, i, open)
  }

  lemma MoreConclude(es: seq<Effect>, more: seq<Effect>, open: seq<LivePosition>)
    requires AllConclude(es, open) && es <= more
    requires forall i :: |es| <= i < |more| ==> Concludes(more, i, open)
    ensures AllConclude(more, open)
  {
    hide ClosesPosition, OpensPosition, Resolves;
    forall i | 0 <= i < |more| ensures Concludes(more, i, open) {
      if i < |es| {
        assert more[i] == es[i] && Concludes(es, i, open);
        if i > 0 { assert more[i - 1] == es[i - 1]; }
        if i + 2 < |es| { assert more[i + 1] == es[i + 1] && more[i + 2] == es[i + 2]; }
      }
    }
  }

  lemma RowCloses(c: Config, p: LivePosition, now: int, fill: Fill)
    ensures ClosesPosition(LiveLoop.CloseRow(c, p, now, fill), p)
    ensures Resolves(LiveLoop.CloseEffects(c, p, now, fill)[1], LiveLoop.CloseRow(c, p, now, fill))
  {
    hide RMultiple, Exits.IsMultiple, Exits.AtRisk;
    Exits.MultipleIs(LiveLoop.ClosePnl(p, fill), p.entryPrice, p.stopPrice, p.sizeUnits);
  }

  lemma CloseConcludes(c: Config, p: LiveLoop.Pass, k: nat, b: Bar, now: int, open: seq<LivePosition>)
    requires k < |p.book| && p.book[k] in open && AllConclude(p.effects, open)
    ensures AllConclude(LiveLoop.CloseOne(c, p, k, b, now).effects, open)
  {
    hide Submit, LiveLoop.ClosePnl, LiveLoop.CloseRow, LiveLoop.CloseOrder, AllConclude, ClosesPosition, Resolves;
    var q, pos, n := LiveLoop.CloseOne(c, p, k, b, now), p.book[k], |p.effects|;
    var answer := Submit(p.adapter, LiveLoop.CloseOrder(c, pos, b, now, p.nextId)).1;
    if answer.Ok? {
      RowCloses(c, pos, now, answer.value);
      RowIsClose(c, pos, now, answer.value);
      assert q.effects[n + 1] == Recorded(LiveLoop.CloseRow(c, pos, now, answer.value));
      assert q.effects[n + 2] == LiveLoop.CloseEffects(c, pos, now, answer.value)[1];
      assert Concludes(q.effects, n + 1, open);
    }
    MoreConclude(p.effects, q.effects, open);
  }

  lemma RowIsClose(c: Config, p: LivePosition, now: int, fill: Fill)
    ensures LiveLoop.CloseRow(c, p, now, fill).event.Closed?
    ensures LiveLoop.CloseRow(c, p, now, fill).tradeId == p.tradeId
  {
  }

  lemma SurviveConcludes(p: LiveLoop.Pass, k: nat, b: Bar, open: seq<LivePosition>)
    requires k < |p.book| && AllConclude(p.effects, open)
    ensures AllConclude(LiveLoop.Survive(p, k, b).effects, open)
  {
    hide LiveLoop.WithExcursion, AllConclude;
    MoreConclude(p.effects, LiveLoop.Survive(p, k, b).effects, open);
  }

  lemma {:induction false} ManageConcludes(c: Config, s: LiveLoop.Live, b: Bar, now: int, k: nat)
    requires k <= |s.open|
    ensures AllConclude(LiveLoop.ManageTo(c, LiveLoop.Begin(s), b, now, k).effects, s.open)
  {
    hide LiveLoop.CheckExit, LiveLoop.CloseOne, LiveLoop.Survive, Concludes;
    if k > 0 {
      ManageConcludes(c, s, b, now, k - 1);
      var p := LiveLoop.ManageTo(c, LiveLoop.Begin(s), b, now, k - 1);
      if !p.raised {
        Tickets.BookAfter(c, s, b, now, k - 1);
        assert p.book[k - 1] == s.open[k - 1];
        SurviveConcludes(p, k - 1, b, s.open);
        CloseConcludes(c, p, k - 1, b, now, s.open);
      }
    }
  }

  lemma EnterConcludes(c: Config, p: LiveLoop.Pass, v: Rules.Verdict, fv: Features.FeatureVector, b: Bar, now: int,
    signalId: int, open: seq<LivePosition>)
    requires MayEnter(c, p.equity, |p.book|, v) && AllConclude(p.effects, open)
    ensures AllConclude(LiveLoop.Enter(c, p, v, fv, b, now, signalId).effects, open)
  {
    hide Submit, GateDecision, AllConclude, LiveLoop.OpenOrder, ClosesPosition, Resolves;
    MoreConclude(p.effects, LiveLoop.Enter(c, p, v, fv, b, now, signalId).effects, open);
  }

  lemma PublishConcludes(p: LiveLoop.Pass, row: SignalRow, open: seq<LivePosition>)
    requires AllConclude(p.effects, open)
    ensures AllConclude(LiveLoop.Publish(p, row).effects, open)
  {
    hide AllConclude;
    MoreConclude(p.effects, LiveLoop.Publish(p, row).effects, open);
  }

  /** One poll, any adapter, any memory, completed or raised: each close row is that of a listed position, with its
      result and extremes, and its signal's outcome and the delete follow at once; each open row follows the save of a
      position on its terms. */
  lemma PollRowsConclude(c: Config, s: LiveLoop.Live, b: Bar, now: int, r: Backtest.Reading)
    ensures AllConclude(LiveLoop.PassOf(c, s, b, now, r).effects, s.open)
  {
    hide LiveLoop.ManageTo, AllConclude, GateDecision, LiveLoop.Enter, SignalOf;
    ManageConcludes(c, s, b, now, |s.open|);
    var m, v := LiveLoop.Manage(c, s, b, now), r.verdict;
    if v.Taken? || v.TurnedDown? {
      var row := SignalOf(m.nextId, now, v);
      PublishConcludes(m, row, s.open);
      var q := LiveLoop.Publish(m, row);
      if MayEnter(c, q.equity, |q.book|, v) { EnterConcludes(c, q, v, r.fv, b, now, m.nextId, s.open); }
    }
  }
}

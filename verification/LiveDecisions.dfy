/** What a poll publishes and when it enters, exactly, read off the verdict. */
module LiveDecisions {
  import opened Prelude
  import opened Bars
  import opened Execution
  import opened Records
  import opened LiveLoop
  import Decisions
  import Entries
  import Features
  import Recovery
  import RiskGate
  import TableAgreement
  import Backtest
  import Rules

  /** An order for a trade that is not listed yet. */
  predicate IsEntry(e: Effect, n: int) {
    e.Sent? && e.forTrade > n
  }

  /** Buys or sells as the signal says, what risks the clamped percentage of equity between its entry and stop, at the
      quotes of the bar. */
  predicate EntryOrder(c: Config, o: Order, v: Rules.Verdict, fv: Features.FeatureVector, equity: real, b: Bar,
    now: int)
    requires v.Taken?
  {
    && o.symbol == c.symbol && o.direction == v.direction && o.ts == now && o.closes == None
    && o.bid == Some(b.bid) && o.ask == Some(b.ask)
    && o.regime == RegimeOf(fv) && o.newsBlackout == BlackoutOf(fv)
    && o.sizeUnits * Abs(v.entry - v.stop) == equity * (Entries.ClampedRisk(c, v) / 100.0)
  }

  /** The statements of the reaction: the signal if there is one to publish, then an order if the trade is admitted, and
      once it is filled the position and its open row. */
  ghost predicate Reacts(c: Config, m: Pass, p: Pass, r: Backtest.Reading, b: Bar, now: int) {
    var v, n := r.verdict, |m.effects|;
    && m.effects <= p.effects
    && (Decisions.Speaks(v) <==> |p.effects| > n)
    && (Decisions.Speaks(v) ==> p.effects[n].Published? && Decisions.Tells(p.effects[n].row, v, now))
    && (Decisions.Admits(c, v, |m.book|) <==> |p.effects| > n + 1)
    && (|p.effects| > n + 1 ==> v.Taken? && IsEntry(p.effects[n + 1], m.nextId))
    && (|p.effects| > n + 1 ==> EntryOrder(c, p.effects[n + 1].order, v, r.fv, m.equity, b, now))
    && (p.raised <==> v.Raised? || (|p.effects| > n + 1 && p.effects[n + 1].answer.Err?))
    && (|p.effects| > n + 2 ==> |p.effects| == n + 4 && p.effects[n + 2].Saved? && p.effects[n + 3].Recorded?)
    && (|p.effects| > n + 2 <==> |p.effects| > n + 1 && p.effects[n + 1].answer.Ok?)
  }

  lemma EnterReacts(c: Config, p: Pass, v: Rules.Verdict, fv: Features.FeatureVector, b: Bar, now: int, signalId: int)
    requires MayEnter(c, p.equity, |p.book|, v) && !p.raised
    ensures var q, n := Enter(c, p, v, fv, b, now, signalId), |p.effects|;
      && p.effects <= q.effects && |q.effects| > n && IsEntry(q.effects[n], p.nextId)
      && EntryOrder(c, q.effects[n].order, v, fv, p.equity, b, now)
      && (q.raised <==> q.effects[n].answer.Err?)
      && (if q.effects[n].answer.Err? then |q.effects| == n + 1
          else |q.effects| == n + 3 && q.effects[n + 1].Saved? && q.effects[n + 2].Recorded?)
  {
    hide RiskGate.TotalRisk, RiskGate.GroupRisk, RiskGate.FirstGroup, Submit, RegimeOf, BlackoutOf;
    RiskGate.ApprovalRespectsLimits(c.limits, c.sizer, RiskGate.Proposal(c.symbol, v.direction, v.entry, v.stop),
      RiskGate.Portfolio(p.equity, ShownBook(c, |p.book|), 0.0, 0.0));
  }

  /** Any adapter, any state of the pass once the positions have been dealt with. */
  lemma ReactsAsSaid(c: Config, m: Pass, r: Backtest.Reading, b: Bar, now: int)
    requires !m.raised
    ensures Reacts(c, m, React(c, m, r, b, now), r, b, now)
  {
    hide Enter, MayEnter, Decisions.Admits, SignalOf, Decisions.Tells, EntryOrder;
    var v := r.verdict;
    Decisions.MayEnterIffAdmits(c, m.equity, |m.book|, v);
    Decisions.AdmitsTaken(c, v, |m.book|);
    if Decisions.Speaks(v) {
      Decisions.SignalTells(m.nextId, now, v);
      var q := Publish(m, SignalOf(m.nextId, now, v));
      if MayEnter(c, q.equity, |q.book|, v) { EnterReacts(c, q, v, r.fv, b, now, m.nextId); }
    }
  }

  // ---------------------------------------------------------------- one poll

  /** No signal, and no order for a trade that is not listed yet. */
  ghost predicate NoEntries(es: seq<Effect>, n: int) {
    forall i :: 0 <= i < |es| ==> !es[i].Published? && !IsEntry(es[i], n)
  }

  lemma {:induction false} ManageEntersNothing(c: Config, s: Live, b: Bar, now: int, k: nat)
    requires k <= |s.open| && Recovery.ListedBelow(s.open, s.nextId)
    ensures var p := ManageTo(c, Begin(s), b, now, k);
      NoEntries(p.effects, s.nextId) && Recovery.ListedBelow(p.book, s.nextId)
  {
    hide CheckExit, WithExcursion, CloseEffects, Submit, CloseOrder, ClosePnl;
    if k > 0 {
      ManageEntersNothing(c, s, b, now, k - 1);
      var p := ManageTo(c, Begin(s), b, now, k - 1);
      if !p.raised {
        assert p.book[k - 1] in p.book;
        SurvivorId(p.book[k - 1], b);
        var u := WithExcursion(p.book[k - 1], b);
        assert forall q :: q in p.book[k - 1 := u] ==> q in p.book || q == u;
        CloseEntersNothing(c, p, k - 1, b, now, s.nextId);
      }
    }
  }

  lemma SurvivorId(p: LivePosition, b: Bar)
    ensures WithExcursion(p, b).tradeId == p.tradeId
  {
  }

  lemma CloseEntersNothing(c: Config, p: Pass, k: nat, b: Bar, now: int, n: int)
    requires k < |p.book| && p.book[k].tradeId < n && NoEntries(p.effects, n)
    ensures NoEntries(CloseOne(c, p, k, b, now).effects, n)
  {
    hide Submit, CloseOrder, ClosePnl, RMultiple;
  }

  /** One poll, any adapter, any list of earlier trades: unless a refused close stops the pass, it publishes a row if
      and only if the verdict is one to publish, and exactly one, which tells it; and it sends an opening order if and
      only if the verdict is taken, the strategy active, there is room beside the positions that stay, and the new trade
      is within the limits; and exactly one, as the signal says. If a refused close does stop it, it does neither. */
  lemma PollDecides(c: Config, s: Live, b: Bar, now: int, r: Backtest.Reading)
    requires Recovery.ListedBelow(s.open, s.nextId)
    ensures var m, p := Manage(c, s, b, now), PassOf(c, s, b, now, r);
      && NoEntries(m.effects, s.nextId) && s.nextId <= m.nextId
      && if m.raised then p == m else Reacts(c, m, p, r, b, now)
  {
    hide ManageTo, Reacts, React, NoEntries;
    ManageEntersNothing(c, s, b, now, |s.open|);
    TableAgreement.CounterOfManage(c, s, b, now);
    if !Manage(c, s, b, now).raised { ReactsAsSaid(c, Manage(c, s, b, now), r, b, now); }
    RaisedNoReaction(c, Manage(c, s, b, now), r, b, now);
  }

  lemma RaisedNoReaction(c: Config, m: Pass, r: Backtest.Reading, b: Bar, now: int)
    ensures m.raised ==> React(c, m, r, b, now) == m
  {
  }
}

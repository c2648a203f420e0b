/** The backtest engine: a bar loop that first manages open trades on the bar that has just closed,
    then evaluates the rules and may open one trade. */
module Backtest {
  import opened Prelude
  import opened Bars
  import opened Execution
  import opened Records
  import opened Stores
  import opened Features
  import Rules

  datatype OpenTrade = OpenTrade(
    tradeId: int,
    signalId: int,
    symbol: string,
    direction: Direction,
    entryPrice: real,
    stopPrice: real,
    targetPrice: real,
    sizeUnits: real,
    openedBarIndex: int,
    timeStopBars: Option<int>,
    mae: real,
    mfe: real)

  /** The state of a run. `published` is what went over the signal bus, `signals` the signal store.
      Once the rule layer has raised, the run is over. */
  datatype State = State(
    equity: real,
    open: seq<OpenTrade>,
    published: seq<SignalRow>,
    ledger: seq<LedgerEntry>,
    signals: map<int, SignalRow>,
    nextId: int,
    halted: bool)

  // ---------------------------------------------------------------- one trade on one bar

  /** A trigger only: the price it names is not the price of the fill. */
  function CheckExit(t: OpenTrade, b: Bar, i: int): Option<real> {
    if t.direction == Long && b.low <= t.stopPrice then Some(t.stopPrice)
    else if t.direction == Long && b.high >= t.targetPrice then Some(t.targetPrice)
    else if t.direction == Short && b.high >= t.stopPrice then Some(t.stopPrice)
    else if t.direction == Short && b.low <= t.targetPrice then Some(t.targetPrice)
    else if t.timeStopBars.Some? && i - t.openedBarIndex >= t.timeStopBars.value then Some(b.close)
    else None
  }

  function WithExcursion(t: OpenTrade, b: Bar): OpenTrade {
    if t.direction == Long then
      t.(mfe := Max(t.mfe, b.high - t.entryPrice), mae := Min(t.mae, b.low - t.entryPrice))
    else
      t.(mfe := Max(t.mfe, t.entryPrice - b.low), mae := Min(t.mae, t.entryPrice - b.high))
  }

  function CloseOrder(c: Config, t: OpenTrade, b: Bar, id: int): Order {
    Order(id, c.symbol, Opposite(t.direction), t.sizeUnits, b.ts + c.seconds, Some(b.bid), Some(b.ask), None, false,
      None)
  }

  function CloseFill(c: Config, t: OpenTrade, b: Bar, id: int): Fill {
    SimulatedFill(c.costs, c.pip, CloseOrder(c, t, b, id)).value
  }

  function ClosePnl(c: Config, t: OpenTrade, b: Bar, id: int): real {
    DirectionPnl(t.direction, t.entryPrice, CloseFill(c, t, b, id).price, t.sizeUnits) - CloseFill(c, t, b,
      id).commission
  }

  function CloseRow(c: Config, t: OpenTrade, b: Bar, id: int): LedgerEntry {
    var fill, pnl := CloseFill(c, t, b, id), ClosePnl(c, t, b, id);
    LedgerEntry(t.tradeId, t.signalId, c.strategyName, c.symbol, t.direction, Closed, b.ts + c.seconds, fill.price,
      t.sizeUnits, fill.commission, Some(pnl), Some(t.mae), Some(t.mfe),
        Some(RMultiple(pnl, t.entryPrice, t.stopPrice, t.sizeUnits)))
  }

  /** Close one trade. */
  function CloseOne(c: Config, s: State, t: OpenTrade, b: Bar): State {
    var row := CloseRow(c, t, b, s.nextId);
    var pnl := row.realisedPnl.value;
    s.(equity := s.equity + pnl,
       ledger := s.ledger + [row],
       signals := Resolve(s.signals, t.signalId, OutcomeOf(pnl), t.mae, t.mfe, row.realisedR.value),
       nextId := s.nextId + 1)
  }

  function ManageOne(c: Config, s: State, t: OpenTrade, b: Bar, i: int): State {
    if CheckExit(t, b, i).None? then s.(open := s.open + [WithExcursion(t, b)]) else CloseOne(c, s, t, b)
  }

  /** The state after the first k of `trades` have been managed; `open` collects the survivors. */
  function ManageTo(c: Config, s: State, trades: seq<OpenTrade>, b: Bar, i: int, k: nat): State
    requires k <= |trades|
  {
    if k == 0 then s.(open := []) else ManageOne(c, ManageTo(c, s, trades, b, i, k - 1), trades[k - 1], b, i)
  }

  function Manage(c: Config, s: State, b: Bar, i: int): State {
    ManageTo(c, s, s.open, b, i, |s.open|)
  }

  // ---------------------------------------------------------------- signals and entries

  function Publish(s: State, row: SignalRow): State {
    s.(published := s.published + [row], signals := s.signals[row.signalId := row], nextId := s.nextId + 1)
  }

  function OpenOrder(c: Config, v: Rules.Verdict, fv: FeatureVector, b: Bar, size: real, id: int): Order
    requires v.Taken?
  {
    Order(id, c.symbol, v.direction, size, b.ts + c.seconds, Some(b.bid), Some(b.ask), RegimeOf(fv), BlackoutOf(fv),
      None)
  }

  function OpenRow(c: Config, tradeId: int, signalId: int, direction: Direction, ts: int, fill: Fill): LedgerEntry {
    LedgerEntry(tradeId, signalId, c.strategyName, c.symbol, direction, Opened, ts, fill.price, fill.sizeUnits,
      fill.commission, None, None, None, None)
  }

  function NewTrade(c: Config, v: Rules.Verdict, fill: Fill, signalId: int, tradeId: int, i: int): OpenTrade
    requires v.Taken?
  {
    OpenTrade(tradeId, signalId, c.symbol, v.direction, fill.price, v.stop, v.target, fill.sizeUnits, i,
      c.timeStopBars, 0.0, 0.0)
  }

  /** A trade closed at the quote it was opened at loses the spread, the slippage of both fills and one
      commission: the closing one, since the opening commission is recorded but never charged. */
  lemma RoundTripLosesItsCosts(c: Config, v: Rules.Verdict, fv: FeatureVector, b: Bar, size: real, i: int, orderId: int,
    signalId: int)
    requires v.Taken?
    ensures
      var fill := SimulatedFill(c.costs, c.pip, OpenOrder(c, v, fv, b, size, orderId)).value;
      var t := NewTrade(c, v, fill, signalId, orderId + 1, i);
      ClosePnl(c, t, b, orderId + 2) ==
        -((b.ask - b.bid) + (fill.slippagePips + c.costs.baseSlippagePips) * c.pip) * size
          - c.costs.commissionPerLot * (size / UNITS_PER_LOT)
    ensures
      var fill := SimulatedFill(c.costs, c.pip, OpenOrder(c, v, fv, b, size, orderId)).value;
      var regime := if VolatilityRegime in fv.values then fv.values[VolatilityRegime] else Missing;
      fill.slippagePips ==
        if NewsBlackout in fv.values && fv.values[NewsBlackout] == Flag(true) then c.costs.newsSlippagePips
        else if regime == Label("high") || regime == Label("extreme") then c.costs.highVolatilitySlippagePips
        else c.costs.baseSlippagePips
  {
    var fill := SimulatedFill(c.costs, c.pip, OpenOrder(c, v, fv, b, size, orderId)).value;
    var t := NewTrade(c, v, fill, signalId, orderId + 1, i);
    var close := CloseFill(c, t, b, orderId + 2);
    var lost := (b.ask - b.bid) + (fill.slippagePips + c.costs.baseSlippagePips) * c.pip;
    assert (fill.slippagePips + c.costs.baseSlippagePips) * c.pip ==
      fill.slippagePips * c.pip + c.costs.baseSlippagePips * c.pip;
    if v.direction == Long {
      assert close.price - fill.price == -lost;
    } else {
      assert fill.price - close.price == -lost;
    }
  }

  /** Open a trade for the signal just published; the order takes one id and the trade the next. */
  function Enter(c: Config, s: State, v: Rules.Verdict, fv: FeatureVector, b: Bar, i: int, signalId: int): State
    requires MayEnter(c, s.equity, |s.open|, v)
  {
    var size := GateDecision(c, s.equity, |s.open|, v).sizeUnits;
    var fill := SimulatedFill(c.costs, c.pip, OpenOrder(c, v, fv, b, size, s.nextId)).value;
    var t := NewTrade(c, v, fill, signalId, s.nextId + 1, i);
    s.(open := s.open + [t],
       ledger := s.ledger + [OpenRow(c, t.tradeId, signalId, v.direction, b.ts + c.seconds, fill)],
       nextId := s.nextId + 2)
  }

  function React(c: Config, s: State, v: Rules.Verdict, fv: FeatureVector, b: Bar, i: int): State {
    if v.Quiet? then s
    else if v.Raised? then s.(halted := true)
    else
      var p := Publish(s, SignalOf(s.nextId, b.ts + c.seconds, v));
      if MayEnter(c, p.equity, |p.open|, v) then Enter(c, p, v, fv, b, i, s.nextId) else p
  }

  /** What the feature engine and the rules make of one bar close. */
  datatype Reading = Reading(fv: FeatureVector, verdict: Rules.Verdict)

  function ReadingOf(c: Config, fv: FeatureVector, seen: seq<Bar>): Reading {
    Reading(fv, c.rule(fv, seen))
  }

  /** The reading at the close of bar i: the source hands over the whole history, the rules see the
      bars up to i. */
  function ReadingAt(c: Config, bars: seq<Bar>, i: nat): Reading
    requires ValidConfig(c) && i < |bars|
  {
    ReadingOf(c, VectorAt(c.engine, bars[i].ts + c.seconds, c.seconds, FrameSource(bars)), bars[..i + 1])
  }

  function Readings(c: Config, bars: seq<Bar>): (r: seq<Reading>)
    requires ValidConfig(c)
    ensures |r| == |bars|
    ensures forall i {:trigger r[i]} :: 0 <= i < |r| ==> r[i] == ReadingAt(c, bars, i)
  {
    seq(|bars|, i requires 0 <= i < |bars| => ReadingAt(c, bars, i))
  }

  /** Manage the open trades, then let the rules react. */
  function BarStep(c: Config, s: State, b: Bar, r: Reading, i: nat): State {
    if s.halted then s else React(c, Manage(c, s, b, i), r.verdict, r.fv, b, i)
  }

  /** The state after the first k bars. */
  function Replay(c: Config, bars: seq<Bar>, readings: seq<Reading>, s: State, k: nat): State
    requires k <= |bars| == |readings|
  {
    if k == 0 then s
    else BarStep(c, Replay(c, bars, readings, s, k - 1), bars[k - 1], readings[k - 1], k - 1)
  }

  function RunTo(c: Config, bars: seq<Bar>, s: State, k: nat): State
    requires ValidConfig(c) && k <= |bars|
  {
    Replay(c, bars, Readings(c, bars), s, k)
  }

  /** A run starts flat, on whatever history the engine's ledger and signal store already hold. */
  function Start(equity: real, ledger: seq<LedgerEntry>, signals: map<int, SignalRow>, nextId: int): State {
    State(equity, [], [], ledger, signals, nextId, false)
  }

  // ---------------------------------------------------------------- the engine

  datatype RunResult = RunResult(eventCount: nat, finalEquity: real)

  class BacktestEngine {
    const ledger: TradeLedger
    const signalStore: SignalStore
    const journal: Journal
    const initialEquity: real
    var nextId: int

    ghost predicate Valid()
      reads this
    {
      ledger.journal == journal && signalStore.journal == journal
    }

    constructor (initialEquity: real, signalStore: SignalStore, firstId: int)
      ensures Valid() && fresh(ledger)
      ensures this.initialEquity == initialEquity && this.signalStore == signalStore && nextId == firstId
      ensures ledger.entries == []
    {
      this.initialEquity := initialEquity;
      this.signalStore := signalStore;
      journal := signalStore.journal;
      ledger := new TradeLedger(signalStore.journal);
      nextId := firstId;
    }

    /** The engine's share of a run state: its tables and id counter. */
    ghost predicate Holds(s: State)
      reads this, ledger, signalStore
    {
      s.ledger == ledger.entries && s.signals == signalStore.rows && s.nextId == nextId
    }

    /** Close one trade: fill, realised P&L, ledger row, signal outcome. */
    method CloseTrade(c: Config, t: OpenTrade, b: Bar, equity: real, ghost s: State) returns (newEquity: real)
      requires Valid() && Holds(s) && s.equity == equity
      modifies this, ledger, signalStore, journal
      ensures Valid() && Holds(CloseOne(c, s, t, b))
      ensures newEquity == CloseOne(c, s, t, b).equity
    {
      var order := CloseOrder(c, t, b, nextId);
      var fill := SimulatedFill(c.costs, c.pip, order).value;
      var pnl := DirectionPnl(t.direction, t.entryPrice, fill.price, t.sizeUnits) - fill.commission;
      var r := RMultiple(pnl, t.entryPrice, t.stopPrice, t.sizeUnits);
      newEquity := equity + pnl;
      ledger.Record(LedgerEntry(t.tradeId, t.signalId, c.strategyName, c.symbol, t.direction, Closed, b.ts + c.seconds,
        fill.price, t.sizeUnits, fill.commission, Some(pnl), Some(t.mae), Some(t.mfe), Some(r)));
      signalStore.ResolveOutcome(t.signalId, OutcomeOf(pnl), t.mae, t.mfe, r);
      nextId := nextId + 1;
    }

    /** Manage all open trades on one bar. */
    method ManageTrades(c: Config, trades: seq<OpenTrade>, b: Bar, i: int, equity: real, ghost s: State)
      returns (stillOpen: seq<OpenTrade>, newEquity: real)
      requires Valid() && Holds(s) && s.equity == equity && s.open == trades
      modifies this, ledger, signalStore, journal
      ensures Valid() && Holds(Manage(c, s, b, i))
      ensures Manage(c, s, b, i) ==
        s.(equity := newEquity, open := stillOpen, ledger := ledger.entries, signals := signalStore.rows,
          nextId := nextId)
    {
      stillOpen, newEquity := [], equity;
      for k := 0 to |trades|
        invariant Valid()
        invariant ManageTo(c, s, trades, b, i, k) ==
          s.(equity := newEquity, open := stillOpen, ledger := ledger.entries, signals := signalStore.rows,
            nextId := nextId)
      {
        var t := trades[k];
        if CheckExit(t, b, i).None? {
          stillOpen := stillOpen + [WithExcursion(t, b)];
        } else {
          newEquity := CloseTrade(c, t, b, newEquity, ManageTo(c, s, trades, b, i, k));
        }
      }
    }

    /** Publish the signal of a verdict and open a trade when both gates let it through. */
    method HandleVerdict(c: Config, v: Rules.Verdict, fv: FeatureVector, b: Bar, i: int, equity: real,
      open: seq<OpenTrade>, ghost s: State) returns (newOpen: seq<OpenTrade>)
      requires Valid() && Holds(s) && s.equity == equity && s.open == open
      requires v.Taken? || v.TurnedDown?
      modifies this, ledger, signalStore, journal
      ensures Valid() && Holds(React(c, s, v, fv, b, i))
      ensures React(c, s, v, fv, b, i) ==
        s.(open := newOpen, published := s.published + [SignalOf(s.nextId, b.ts + c.seconds, v)],
          ledger := ledger.entries, signals := signalStore.rows, nextId := nextId)
    {
      newOpen := open;
      var signalId := nextId;
      signalStore.Append(SignalOf(signalId, b.ts + c.seconds, v));
      nextId := nextId + 1;
      if MayEnter(c, equity, |open|, v) {
        var size := GateDecision(c, equity, |open|, v).sizeUnits;
        var fill := SimulatedFill(c.costs, c.pip, OpenOrder(c, v, fv, b, size, nextId)).value;
        var t := NewTrade(c, v, fill, signalId, nextId + 1, i);
        newOpen := open + [t];
        ledger.Record(OpenRow(c, t.tradeId, signalId, v.direction, b.ts + c.seconds, fill));
        nextId := nextId + 2;
      }
    }

    /** Replay a history bar by bar. The final state is that of the run function, also when the rule
        layer raised on the way. */
    method Run(c: Config, history: seq<Bar>) returns (result: Option<RunResult>, ghost final: State)
      requires Valid() && ValidConfig(c)
      modifies this, ledger, signalStore, journal
      ensures Valid() && Holds(final)
      ensures final == RunTo(c, SortByTime(history),
        Start(initialEquity, old(ledger.entries), old(signalStore.rows), old(nextId)), |SortByTime(history)|)
      ensures result == if final.halted then None else Some(RunResult(|final.published|, final.equity))
    {
      var bars := SortByTime(history);
      result, final := RunBars(c, bars, Start(initialEquity, ledger.entries, signalStore.rows, nextId),
        Readings(c, bars));
    }

    method RunBars(c: Config, bars: seq<Bar>, ghost start: State, ghost readings: seq<Reading>)
      returns (result: Option<RunResult>, ghost final: State)
      requires Valid() && ValidConfig(c) && readings == Readings(c, bars)
      requires Holds(start) && start.equity == initialEquity && start.open == [] && start.published == []
      requires !start.halted
      modifies this, ledger, signalStore, journal
      ensures Valid() && Holds(final)
      ensures final == Replay(c, bars, readings, start, |bars|)
      ensures result == if final.halted then None else Some(RunResult(|final.published|, final.equity))
    {
      hide BarStep, ReadingAt;
      var equity, open, events := initialEquity, [], 0;
      final := start;
      for i := 0 to |bars|
        invariant Valid() && Holds(final)
        invariant final == Replay(c, bars, readings, start, i)
        invariant final.equity == equity && final.open == open && |final.published| == events && !final.halted
      {
        var r := ReadBar(c, bars, i, readings);
        var signalled, raised;
        equity, open, signalled, raised, final := ProcessBar(c, bars[i], r, i, equity, open, final);
        if signalled {
          events := events + 1;
        }
        if raised {
          RunHalted(c, bars, readings, start, i + 1, |bars|);
          return None, final;
        }
      }
      return Some(RunResult(events, equity)), final;
    }

    /** One pass of the bar loop. */
    method ProcessBar(c: Config, b: Bar, r: Reading, i: nat, equity: real, open: seq<OpenTrade>, ghost s: State)
      returns (newEquity: real, newOpen: seq<OpenTrade>, signalled: bool, raised: bool, ghost next: State)
      requires Valid() && Holds(s) && s.equity == equity && s.open == open && !s.halted
      modifies this, ledger, signalStore, journal
      ensures Valid() && Holds(next)
      ensures next == BarStep(c, s, b, r, i)
      ensures next.equity == newEquity && next.open == newOpen && next.halted == raised
      ensures |next.published| == |s.published| + if signalled then 1 else 0
    {
      newOpen, newEquity := ManageTrades(c, open, b, i, equity, s);
      signalled, raised := false, r.verdict.Raised?;
      next := BarStep(c, s, b, r, i);
      if r.verdict.Taken? || r.verdict.TurnedDown? {
        newOpen := HandleVerdict(c, r.verdict, r.fv, b, i, newEquity, newOpen, Manage(c, s, b, i));
        signalled := true;
      }
    }

    method ReadBar(c: Config, bars: seq<Bar>, i: nat, ghost readings: seq<Reading>) returns (r: Reading)
      requires ValidConfig(c) && i < |bars| && readings == Readings(c, bars)
      ensures r == readings[i]
    {
      hide VectorAt;
      var fv := GetFeatureVector(c.engine, bars[i].ts + c.seconds, c.seconds, FrameSource(bars));
      r := ReadingOf(c, fv, bars[..i + 1]);
    }
  }

  /** Closing a trade touches the tables and equity, not the list of survivors. */
  lemma CloseKeepsOpen(c: Config, s: State, t: OpenTrade, b: Bar)
    ensures CloseOne(c, s, t, b).open == s.open
  {
  }

  lemma HaltedStays(c: Config, s: State, b: Bar, r: Reading, i: nat)
    requires s.halted
    ensures BarStep(c, s, b, r, i) == s
  {
  }

  lemma {:induction false} RunHalted(c: Config, bars: seq<Bar>, readings: seq<Reading>, s: State, k: nat, n: nat)
    requires k <= n <= |bars| == |readings|
    requires Replay(c, bars, readings, s, k).halted
    ensures Replay(c, bars, readings, s, n) == Replay(c, bars, readings, s, k)
  {
    if k < n {
      RunHalted(c, bars, readings, s, k, n - 1);
    }
  }
}

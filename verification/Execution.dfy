/** The execution boundary: one order shape and one call, answered either by a cost model or by a
    broker that issues position tickets and may refuse. */
module Execution {
  import opened Prelude

  datatype Order = Order(
    orderId: int,
    symbol: string,
    direction: Direction,
    sizeUnits: real,
    ts: int,
    bid: Option<real>,
    ask: Option<real>,
    regime: Option<string>,
    newsBlackout: bool,
    closes: Option<int>)

  datatype Fill = Fill(
    orderId: int,
    direction: Direction,
    price: real,
    sizeUnits: real,
    ts: int,
    commission: real,
    slippagePips: real,
    ticket: Option<int>)

  datatype ExecutionError = NoQuote | Disabled | Refused

  // ---------------------------------------------------------------- simulated fills

  datatype CostModel = CostModel(
    baseSlippagePips: real,
    highVolatilitySlippagePips: real,
    newsSlippagePips: real,
    commissionPerLot: real)

  const UNITS_PER_LOT := 100000.0

  function SlippagePips(m: CostModel, regime: Option<string>, newsBlackout: bool): real {
    if newsBlackout then m.newsSlippagePips
    else if regime == Some("high") || regime == Some("extreme") then m.highVolatilitySlippagePips
    else m.baseSlippagePips
  }

  function SimulatedFill(m: CostModel, pip: real, o: Order): Result<Fill, ExecutionError> {
    if o.bid.None? || o.ask.None? then Err(NoQuote)
    else
      var pips := SlippagePips(m, o.regime, o.newsBlackout);
      var price := if o.direction == Long then o.ask.value + pips * pip else o.bid.value - pips * pip;
      Ok(Fill(o.orderId, o.direction, price, o.sizeUnits, o.ts, m.commissionPerLot * (o.sizeUnits / UNITS_PER_LOT),
        pips, None))
  }

  // ---------------------------------------------------------------- a ticket-issuing broker

  /** `replies(n)` is the broker's answer to the n-th order it receives: a price, or a refusal. An
      opening order's number becomes the ticket of its position. */
  datatype Account = Account(received: nat, open: map<int, Order>, replies: nat -> Option<real>)

  datatype Adapter = Simulated(costs: CostModel, pip: real) | Broker(account: Account, enabled: bool)

  function BrokerAccepts(a: Account, o: Order): bool {
    a.replies(a.received).Some? && (o.closes.Some? ==> o.closes.value in a.open)
  }

  function BrokerAfter(a: Account, o: Order): Account {
    if !BrokerAccepts(a, o) then a.(received := a.received + 1)
    else match o.closes
         case Some(t) => a.(received := a.received + 1, open := a.open - {t})
         case None => a.(received := a.received + 1, open := a.open[a.received := o])
  }

  /** Send one order: the adapter's next state and its answer. */
  function Submit(x: Adapter, o: Order): (Adapter, Result<Fill, ExecutionError>) {
    match x
    case Simulated(costs, pip) => (x, SimulatedFill(costs, pip, o))
    case Broker(account, enabled) =>
      if !enabled then (x, Err(Disabled))
      else if !BrokerAccepts(account, o) then (Broker(BrokerAfter(account, o), enabled), Err(Refused))
      else (Broker(BrokerAfter(account, o), enabled),
            Ok(Fill(o.orderId, o.direction, account.replies(account.received).value, o.sizeUnits, o.ts, 0.0, 0.0,
              Some(account.received))))
  }
}

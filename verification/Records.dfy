/** The rows of the three durable tables, and one effect per statement that reaches a table or the
    execution adapter. */
module Records {
  import opened Prelude
  import opened Execution
  import Features
  import Rules
  import RiskGate
  import Validation

  datatype LedgerEvent = Opened | Closed

  datatype LedgerEntry = LedgerEntry(
    tradeId: int,
    signalId: int,
    strategyName: string,
    symbol: string,
    direction: Direction,
    event: LedgerEvent,
    ts: int,
    price: real,
    sizeUnits: real,
    commission: real,
    realisedPnl: Option<real>,
    mae: Option<real>,
    mfe: Option<real>,
    realisedR: Option<real>)

  datatype Outcome = Win | Loss | Timeout | Open

  datatype SignalRow = SignalRow(
    signalId: int,
    ts: int,
    direction: Direction,
    taken: bool,
    reason: Option<string>,
    entry: Option<real>,
    stop: Option<real>,
    target: Option<real>,
    outcome: Option<Outcome>,
    mae: Option<real>,
    mfe: Option<real>,
    realisedR: Option<real>)

  datatype LivePosition = LivePosition(
    tradeId: int,
    signalId: int,
    strategyName: string,
    symbol: string,
    direction: Direction,
    entryPrice: real,
    stopPrice: real,
    targetPrice: real,
    sizeUnits: real,
    openedAt: int,
    timeStopAt: Option<int>,
    mae: real,
    mfe: real,
    ticket: Option<int>)

  /** Everything fixed for the life of a run. `tradeable` says whether the strategy is active. */
  datatype Config = Config(
    strategyName: string,
    symbol: string,
    seconds: int,
    tradeable: bool,
    maxConcurrent: int,
    timeStopBars: Option<int>,
    engine: Features.Engine,
    rule: Rules.Rule,
    limits: RiskGate.Limits,
    sizer: RiskGate.Sizer,
    costs: CostModel,
    pip: real,
    historyWindowBars: nat,
    spike: Validation.SpikeTest)

  predicate ValidConfig(c: Config) {
    && c.seconds > 0
    && Features.ValidEngine(c.engine)
    && (c.timeStopBars.Some? ==> c.timeStopBars.value > 0)
  }

  function OutcomeOf(pnl: real): Outcome {
    if pnl > 0.0 then Win else if pnl < 0.0 then Loss else Timeout
  }

  /** The row a rule verdict is published as; a taken signal starts out open. */
  function SignalOf(id: int, ts: int, v: Rules.Verdict): SignalRow
    requires v.Taken? || v.TurnedDown?
  {
    match v
    case Taken(d, entry, stop, target) =>
      SignalRow(id, ts, d, true, None, Some(entry), Some(stop), Some(target), Some(Open), None, None, None)
    case TurnedDown(d, reason) =>
      SignalRow(id, ts, d, false, Some(reason), None, None, None, None, None, None, None)
  }

  function RegimeOf(fv: Features.FeatureVector): Option<string> {
    if Features.VolatilityRegime in fv.values && fv.values[Features.VolatilityRegime].Label? then
      Some(fv.values[Features.VolatilityRegime].text)
    else None
  }

  function BlackoutOf(fv: Features.FeatureVector): bool {
    Features.NewsBlackout in fv.values && fv.values[Features.NewsBlackout] == Features.Flag(true)
  }

  function DirectionPnl(direction: Direction, entry: real, exit: real, size: real): real {
    if direction == Long then (exit - entry) * size else (entry - exit) * size
  }

  function Opposite(d: Direction): Direction {
    if d == Long then Short else Long
  }

  function RMultiple(pnl: real, entry: real, stop: real, size: real): real {
    var risk := Abs(entry - stop) * size;
    if risk > 0.0 then pnl / risk else 0.0
  }

  /** The multiple of the amount at risk that was made; nothing at risk counts as zero. */
  lemma RMultipleOfRisk(pnl: real, entry: real, stop: real, size: real)
    ensures Abs(entry - stop) * size > 0.0 ==> RMultiple(pnl, entry, stop, size) * (Abs(entry - stop) * size) == pnl
    ensures Abs(entry - stop) * size <= 0.0 ==> RMultiple(pnl, entry, stop, size) == 0.0
  {
    if Abs(entry - stop) * size > 0.0 { DivideThenMultiply(pnl, Abs(entry - stop) * size); }
  }

  // ---------------------------------------------------------------- the way to an entry, common to both loops

  /** Open positions are shown to the gate with no risk of their own. */
  function ShownBook(c: Config, n: nat): seq<RiskGate.OpenPosition> {
    if n == 0 then [] else ShownBook(c, n - 1) + [RiskGate.OpenPosition(c.symbol, 0.0)]
  }

  function GateDecision(c: Config, equity: real, openCount: nat, v: Rules.Verdict): RiskGate.Decision
    requires v.Taken?
  {
    RiskGate.Evaluate(c.limits, c.sizer, RiskGate.Proposal(c.symbol, v.direction, v.entry, v.stop),
      RiskGate.Portfolio(equity, ShownBook(c, openCount), 0.0, 0.0))
  }

  /** Both gates in front of execution: tradeable status and strategy concurrency, then the risk gate. */
  predicate MayEnter(c: Config, equity: real, openCount: nat, v: Rules.Verdict) {
    v.Taken? && c.tradeable && openCount < c.maxConcurrent && GateDecision(c, equity, openCount, v).Approved?
  }

  // ---------------------------------------------------------------- durable tables and effects

  datatype Disk = Disk(positions: map<int, LivePosition>, ledger: seq<LedgerEntry>, signals: map<int, SignalRow>)

  /** One statement of a poll. `forTrade` records on whose behalf an order was sent. */
  datatype Effect =
    | Sent(order: Order, forTrade: int, answer: Result<Fill, ExecutionError>)
    | Published(row: SignalRow)
    | Saved(position: LivePosition)
    | Recorded(entry: LedgerEntry)
    | Resolved(signalId: int, outcome: Outcome, mae: real, mfe: real, realisedR: real)
    | Deleted(tradeId: int)

  function Resolve(rows: map<int, SignalRow>, id: int, outcome: Outcome, mae: real, mfe: real,
    r: real): map<int, SignalRow> {
    if id in rows then
      rows[id := rows[id].(outcome := Some(outcome), mae := Some(mae), mfe := Some(mfe), realisedR := Some(r))]
    else rows
  }

  function Apply(d: Disk, e: Effect): Disk {
    match e
    case Sent(_, _, _) => d
    case Published(row) => d.(signals := d.signals[row.signalId := row])
    case Saved(p) => d.(positions := d.positions[p.tradeId := p])
    case Recorded(entry) => d.(ledger := d.ledger + [entry])
    case Resolved(id, outcome, mae, mfe, r) => d.(signals := Resolve(d.signals, id, outcome, mae, mfe, r))
    case Deleted(id) => d.(positions := d.positions - {id})
  }

  function ApplyAll(d: Disk, effects: seq<Effect>): Disk {
    if effects == [] then d else Apply(ApplyAll(d, effects[..|effects| - 1]), effects[|effects| - 1])
  }

  lemma {:induction false} ApplyAllConcat(d: Disk, a: seq<Effect>, b: seq<Effect>)
    ensures ApplyAll(d, a + b) == ApplyAll(ApplyAll(d, a), b)
  {
    if b == [] {
      assert a + b == a;
    } else {
      assert (a + b)[..|a + b| - 1] == a + b[..|b| - 1];
      ApplyAllConcat(d, a, b[..|b| - 1]);
    }
  }
}

/** The live loop. One poll ingests bars into the store, manages the open positions on the last bar read,
    and lets the rules react; every statement that reaches a table or the broker is one effect, in order. */
module LiveLoop {
  import opened Prelude
  import opened Bars
  import opened Execution
  import opened Records
  import opened Stores
  import opened Features
  import Backtest
  import BarStore
  import Rules
  import Validation

  /** The loop between polls: memory, disk, and the execution adapter. */
  datatype Live = Live(equity: real, open: seq<LivePosition>, disk: Disk, adapter: Adapter, nextId: int)

  /** A poll under way. `book` is the position list being walked, its entries updated in place; `kept`
      collects the survivors. Once `raised`, nothing further happens in this poll. */
  datatype Pass = Pass(
    equity: real,
    book: seq<LivePosition>,
    kept: seq<LivePosition>,
    adapter: Adapter,
    nextId: int,
    effects: seq<Effect>,
    raised: bool)

  // ---------------------------------------------------------------- one position on one bar

  function CheckExit(p: LivePosition, b: Bar, now: int): Option<real> {
    if p.direction == Long && b.low <= p.stopPrice then Some(p.stopPrice)
    else if p.direction == Long && b.high >= p.targetPrice then Some(p.targetPrice)
    else if p.direction == Short && b.high >= p.stopPrice then Some(p.stopPrice)
    else if p.direction == Short && b.low <= p.targetPrice then Some(p.targetPrice)
    else if p.timeStopAt.Some? && now >= p.timeStopAt.value then Some(b.close)
    else None
  }

  function WithExcursion(p: LivePosition, b: Bar): LivePosition {
    if p.direction == Long then
      p.(mfe := Max(p.mfe, b.high - p.entryPrice), mae := Min(p.mae, b.low - p.entryPrice))
    else
      p.(mfe := Max(p.mfe, p.entryPrice - b.low), mae := Min(p.mae, p.entryPrice - b.high))
  }

  /** The close order targets the broker position the opening fill returned, if any. */
  function CloseOrder(c: Config, p: LivePosition, b: Bar, now: int, id: int): Order {
    Order(id, c.symbol, Opposite(p.direction), p.sizeUnits, now, Some(b.bid), Some(b.ask), None, false, p.ticket)
  }

  function ClosePnl(p: LivePosition, fill: Fill): real {
    DirectionPnl(p.direction, p.entryPrice, fill.price, p.sizeUnits) - fill.commission
  }

  function CloseRow(c: Config, p: LivePosition, now: int, fill: Fill): LedgerEntry {
    var pnl := ClosePnl(p, fill);
    LedgerEntry(p.tradeId, p.signalId, c.strategyName, c.symbol, p.direction, Closed, now, fill.price, p.sizeUnits,
      fill.commission, Some(pnl), Some(p.mae), Some(p.mfe),
        Some(RMultiple(pnl, p.entryPrice, p.stopPrice, p.sizeUnits)))
  }

  /** The statements after a close has been filled: ledger row, signal outcome, position deleted. */
  function CloseEffects(c: Config, p: LivePosition, now: int, fill: Fill): seq<Effect> {
    var row := CloseRow(c, p, now, fill);
    [Recorded(row), Resolved(p.signalId, OutcomeOf(ClosePnl(p, fill)), p.mae, p.mfe, row.realisedR.value),
      Deleted(p.tradeId)]
  }

  function Survive(s: Pass, k: nat, b: Bar): Pass
    requires k < |s.book|
  {
    var u := WithExcursion(s.book[k], b);
    s.(book := s.book[k := u], kept := s.kept + [u], effects := s.effects + [Saved(u)])
  }

  function CloseOne(c: Config, s: Pass, k: nat, b: Bar, now: int): Pass
    requires k < |s.book|
  {
    var p := s.book[k];
    var order := CloseOrder(c, p, b, now, s.nextId);
    var (adapter, answer) := Submit(s.adapter, order);
    var sent := s.(adapter := adapter, nextId := s.nextId + 1, effects := s.effects + [Sent(order, p.tradeId, answer)]);
    match answer
    case Err(_) => sent.(raised := true)
    case Ok(fill) =>
      sent.(equity := s.equity + ClosePnl(p, fill), effects := sent.effects + CloseEffects(c, p, now, fill))
  }

  function ManageOne(c: Config, s: Pass, k: nat, b: Bar, now: int): Pass
    requires k < |s.book|
    ensures |ManageOne(c, s, k, b, now).book| == |s.book|
  {
    if s.raised then s
    else if CheckExit(s.book[k], b, now).None? then Survive(s, k, b)
    else CloseOne(c, s, k, b, now)
  }

  function ManageTo(c: Config, s: Pass, b: Bar, now: int, k: nat): Pass
    requires k <= |s.book|
    ensures |ManageTo(c, s, b, now, k).book| == |s.book|
  {
    if k == 0 then s else ManageOne(c, ManageTo(c, s, b, now, k - 1), k - 1, b, now)
  }

  function Begin(s: Live): Pass {
    Pass(s.equity, s.open, [], s.adapter, s.nextId, [], false)
  }

  /** The management pass. Only when it completes does the list of survivors replace the old list. */
  function Manage(c: Config, s: Live, b: Bar, now: int): Pass {
    var m := ManageTo(c, Begin(s), b, now, |s.open|);
    if m.raised then m else m.(book := m.kept)
  }

  // ---------------------------------------------------------------- signals and entries

  function TimeStopAt(c: Config, now: int): Option<int> {
    if c.timeStopBars.Some? then Some(now + c.seconds * c.timeStopBars.value) else None
  }

  function OpenOrder(c: Config, v: Rules.Verdict, fv: FeatureVector, b: Bar, now: int, size: real, id: int): Order
    requires v.Taken?
  {
    Order(id, c.symbol, v.direction, size, now, Some(b.bid), Some(b.ask), RegimeOf(fv), BlackoutOf(fv), None)
  }

  function NewPosition(c: Config, v: Rules.Verdict, fill: Fill, signalId: int, tradeId: int, now: int): LivePosition
    requires v.Taken?
  {
    LivePosition(tradeId, signalId, c.strategyName, c.symbol, v.direction, fill.price, v.stop, v.target,
      fill.sizeUnits, now, TimeStopAt(c, now), 0.0, 0.0, fill.ticket)
  }

  function OpenRow(c: Config, p: LivePosition, now: int, fill: Fill): LedgerEntry {
    LedgerEntry(p.tradeId, p.signalId, c.strategyName, c.symbol, p.direction, Opened, now, fill.price, fill.sizeUnits,
      fill.commission, None, None, None, None)
  }

  /** Send the opening order; on a fill, append, save, and only then record. */
  function Enter(c: Config, s: Pass, v: Rules.Verdict, fv: FeatureVector, b: Bar, now: int, signalId: int): Pass
    requires MayEnter(c, s.equity, |s.book|, v)
  {
    var size := GateDecision(c, s.equity, |s.book|, v).sizeUnits;
    var order := OpenOrder(c, v, fv, b, now, size, s.nextId);
    var (adapter, answer) := Submit(s.adapter, order);
    var tradeId := s.nextId + 1;
    match answer
    case Err(_) =>
      s.(adapter := adapter, nextId := s.nextId + 1, effects := s.effects + [Sent(order, tradeId, answer)],
        raised := true)
    case Ok(fill) =>
      var p := NewPosition(c, v, fill, signalId, tradeId, now);
      s.(adapter := adapter, nextId := s.nextId + 2, book := s.book + [p],
         effects := s.effects + [Sent(order, tradeId, answer), Saved(p), Recorded(OpenRow(c, p, now, fill))])
  }

  function Publish(s: Pass, row: SignalRow): Pass {
    s.(effects := s.effects + [Published(row)], nextId := s.nextId + 1)
  }

  function React(c: Config, s: Pass, r: Backtest.Reading, b: Bar, now: int): Pass {
    var v := r.verdict;
    if s.raised || v.Quiet? then s
    else if v.Raised? then s.(raised := true)
    else
      var p := Publish(s, SignalOf(s.nextId, now, v));
      if MayEnter(c, p.equity, |p.book|, v) then Enter(c, p, v, r.fv, b, now, s.nextId) else p
  }

  /** One pipeline pass on the last bar read. */
  function PassOf(c: Config, s: Live, b: Bar, now: int, r: Backtest.Reading): Pass {
    React(c, Manage(c, s, b, now), r, b, now)
  }

  /** The loop after a pass, completed or cut short by an exception. */
  function After(s: Live, p: Pass): Live {
    Live(p.equity, p.book, ApplyAll(s.disk, p.effects), p.adapter, p.nextId)
  }

  // ---------------------------------------------------------------- runs of polls

  /** What one poll works on: the last bar read, the time, and what the rules make of it. */
  datatype PollInput = PollInput(bar: Bar, now: int, reading: Backtest.Reading)

  /** The loop after some polls, each completed or left by an exception that the scheduler swallows. */
  function RunPolls(c: Config, s: Live, polls: seq<PollInput>): Live {
    if polls == [] then s
    else
      var before, t := RunPolls(c, s, polls[..|polls| - 1]), polls[|polls| - 1];
      After(before, PassOf(c, before, t.bar, t.now, t.reading))
  }

  // ---------------------------------------------------------------- a whole poll

  function Window(c: Config): int {
    c.seconds * (c.historyWindowBars + 5)
  }

  /** The bar table after ingesting what the adapter returned. */
  function Ingested(c: Config, table: map<int, Bar>, raw: seq<Bar>): map<int, Bar> {
    table + BarMap(Validation.Clean(raw, c.spike))
  }

  /** The bars a poll reads back: everything in the window before `now`, a bar still forming included. */
  ghost function BarsRead(c: Config, table: map<int, Bar>, now: int): seq<Bar>
    requires Keyed(table)
  {
    ReadTable(table, now - Window(c), now)
  }

  ghost function PollReading(c: Config, table: map<int, Bar>, now: int): Backtest.Reading
    requires Keyed(table) && ValidConfig(c)
  {
    Backtest.ReadingOf(c,
      VectorAt(c.engine, now, c.seconds, ReadTable(table, now - c.seconds * Needed(c.engine) * 2, now)),
      BarsRead(c, table, now))
  }

  /** The pass of a poll, or None when there is nothing to work on. */
  ghost function PollPass(c: Config, s: Live, table: map<int, Bar>, now: int, raw: seq<Bar>): Option<Pass>
    requires Keyed(table) && ValidConfig(c)
  {
    var after := Ingested(c, table, raw);
    assert Keyed(after) by { BarMapKeyed(Validation.Clean(raw, c.spike)); }
    var bars := BarsRead(c, after, now);
    if raw == [] || bars == [] then None
    else Some(PassOf(c, s, bars[|bars| - 1], now, PollReading(c, after, now)))
  }

  /** The loop and the bar table after a whole poll. */
  ghost function PollTo(c: Config, s: Live, table: map<int, Bar>, now: int, raw: seq<Bar>): (r: (Live, map<int, Bar>))
    requires Keyed(table) && ValidConfig(c)
    ensures Keyed(r.1)
  {
    BarMapKeyed(Validation.Clean(raw, c.spike));
    (match PollPass(c, s, table, now, raw) case None => s case Some(p) => After(s, p),
     if raw == [] then table else Ingested(c, table, raw))
  }

  // ---------------------------------------------------------------- the loop

  class LiveTradingLoop {
    const c: Config
    const barStore: BarStore.BarStore
    const positionStore: OpenPositionStore
    const ledger: TradeLedger
    const signalStore: SignalStore
    const journal: Journal
    var equity: real
    var openPositions: seq<LivePosition>
    var execution: Adapter
    var nextId: int

    /** Bars the store's files stand for. */
    ghost var table: map<int, Bar>

    ghost predicate Valid()
      reads this, barStore
    {
      && ValidConfig(c)
      && positionStore.journal == journal && ledger.journal == journal && signalStore.journal == journal
      && BarStore.Refines(barStore.yearOf, barStore.partitions, table)
    }

    function DiskState(): Disk
      reads positionStore, ledger, signalStore
    {
      Disk(positionStore.rows, ledger.entries, signalStore.rows)
    }

    ghost function Abstract(): Live
      reads this, positionStore, ledger, signalStore
    {
      Live(equity, openPositions, DiskState(), execution, nextId)
    }

    /** Start up: reload whatever positions the store holds; equity starts from its parameter. */
    constructor (c: Config, barStore: BarStore.BarStore, positionStore: OpenPositionStore, ledger: TradeLedger,
      signalStore: SignalStore, execution: Adapter, initialEquity: real, firstId: int, ghost table: map<int, Bar>)
      requires ValidConfig(c) && ledger.journal == positionStore.journal && signalStore.journal == positionStore.journal
      requires BarStore.Refines(barStore.yearOf, barStore.partitions, table)
      requires forall id :: id in positionStore.rows ==> positionStore.rows[id].tradeId == id
      ensures Valid() && this.c == c && this.barStore == barStore && this.positionStore == positionStore
      ensures this.ledger == ledger && this.signalStore == signalStore && this.table == table
      ensures equity == initialEquity && this.execution == execution && nextId == firstId
      ensures Lists(openPositions, positionStore.rows)
    {
      this.c := c;
      this.barStore := barStore;
      this.positionStore := positionStore;
      this.ledger := ledger;
      this.signalStore := signalStore;
      this.journal := positionStore.journal;
      this.execution := execution;
      this.equity := initialEquity;
      this.nextId := firstId;
      this.table := table;
      this.openPositions := [];
      new;
      openPositions := positionStore.LoadAll();
    }

    /** The stores after some effects of a poll, and the journal they left. */
    ghost predicate Reached(disk: Disk, log: seq<Effect>, effects: seq<Effect>)
      reads journal, positionStore, ledger, signalStore
    {
      DiskState() == ApplyAll(disk, effects) && journal.log == log + effects
    }

    // -------------------------------------------------------------- statements

    method SubmitMarketOrder(order: Order, forTrade: int, ghost d: Disk, ghost l: seq<Effect>, ghost es: seq<Effect>)
      returns (answer: Result<Fill, ExecutionError>)
      requires Reached(d, l, es)
      modifies this`execution, journal
      ensures (execution, answer) == Submit(old(execution), order)
      ensures Reached(d, l, es + [Sent(order, forTrade, answer)])
    {
      var (next, reply) := Submit(execution, order);
      execution := next;
      answer := reply;
      journal.log := journal.log + [Sent(order, forTrade, answer)];
      OneMore(d, l, es, Sent(order, forTrade, answer));
    }

    method SavePosition(p: LivePosition, ghost d: Disk, ghost l: seq<Effect>, ghost es: seq<Effect>)
      requires positionStore.journal == journal && Reached(d, l, es)
      modifies positionStore, journal
      ensures Reached(d, l, es + [Saved(p)])
    {
      positionStore.Save(p);
      OneMore(d, l, es, Saved(p));
    }

    method DeletePosition(id: int, ghost d: Disk, ghost l: seq<Effect>, ghost es: seq<Effect>)
      requires positionStore.journal == journal && Reached(d, l, es)
      modifies positionStore, journal
      ensures Reached(d, l, es + [Deleted(id)])
    {
      positionStore.Delete(id);
      OneMore(d, l, es, Deleted(id));
    }

    method RecordEntry(e: LedgerEntry, ghost d: Disk, ghost l: seq<Effect>, ghost es: seq<Effect>)
      requires ledger.journal == journal && Reached(d, l, es)
      modifies ledger, journal
      ensures Reached(d, l, es + [Recorded(e)])
    {
      ledger.Record(e);
      OneMore(d, l, es, Recorded(e));
    }

    method PublishSignal(row: SignalRow, ghost d: Disk, ghost l: seq<Effect>, ghost es: seq<Effect>)
      requires signalStore.journal == journal && Reached(d, l, es)
      modifies signalStore, journal
      ensures Reached(d, l, es + [Published(row)])
    {
      signalStore.Append(row);
      OneMore(d, l, es, Published(row));
    }

    method ResolveSignal(id: int, outcome: Outcome, mae: real, mfe: real, r: real, ghost d: Disk, ghost l: seq<Effect>,
      ghost es: seq<Effect>)
      requires signalStore.journal == journal && Reached(d, l, es)
      modifies signalStore, journal
      ensures Reached(d, l, es + [Resolved(id, outcome, mae, mfe, r)])
    {
      signalStore.ResolveOutcome(id, outcome, mae, mfe, r);
      OneMore(d, l, es, Resolved(id, outcome, mae, mfe, r));
    }

    // -------------------------------------------------------------- the pass

    /** The loop is at point `p` of a pass that started on disk `d` with journal `l`. */
    ghost predicate At(d: Disk, l: seq<Effect>, p: Pass)
      reads this, journal, positionStore, ledger, signalStore
    {
      && equity == p.equity && openPositions == p.book && execution == p.adapter && nextId == p.nextId
      && Reached(d, l, p.effects)
    }

    /** Close the k-th position. On a refused order the pass ends where it stands. */
    method ClosePosition(k: nat, b: Bar, now: int, ghost d: Disk, ghost l: seq<Effect>, ghost p: Pass)
      returns (raised: bool)
      requires Valid() && At(d, l, p) && k < |p.book| && !p.raised
      modifies this`equity, this`execution, this`nextId, journal, positionStore, ledger, signalStore
      ensures Valid() && At(d, l, CloseOne(c, p, k, b, now))
      ensures raised == CloseOne(c, p, k, b, now).raised && CloseOne(c, p, k, b, now).kept == p.kept
    {
      hide CloseOrder, Submit, ApplyAll, BarStore.Refines, ClosePnl;
      var position := openPositions[k];
      var order := CloseOrder(c, position, b, now, nextId);
      nextId := nextId + 1;
      var answer := SubmitMarketOrder(order, position.tradeId, d, l, p.effects);
      ghost var sent := p.effects + [Sent(order, position.tradeId, answer)];
      if answer.Err? {
        return true;
      }
      var fill := answer.value;
      var pnl := ClosePnl(position, fill);
      var realisedR := RMultiple(pnl, position.entryPrice, position.stopPrice, position.sizeUnits);
      equity := equity + pnl;
      var row := CloseRow(c, position, now, fill);
      RecordEntry(row, d, l, sent);
      ResolveSignal(position.signalId, OutcomeOf(pnl), position.mae, position.mfe, realisedR, d, l,
        sent + [Recorded(row)]);
      DeletePosition(position.tradeId, d, l,
        sent + [Recorded(row)] + [Resolved(position.signalId, OutcomeOf(pnl), position.mae, position.mfe, realisedR)]);
      assert sent + [Recorded(row)] + [Resolved(position.signalId, OutcomeOf(pnl), position.mae, position.mfe,
        realisedR)]
        + [Deleted(position.tradeId)] == sent + CloseEffects(c, position, now, fill);
      return false;
    }

    /** Walk the positions, rewriting survivors and closing the rest; the list is replaced only at the end. */
    method ManageOpenPositions(b: Bar, now: int, ghost s: Live, ghost l: seq<Effect>) returns (raised: bool)
      requires Valid() && Abstract() == s && journal.log == l
      modifies this`equity, this`execution, this`nextId, this`openPositions, journal, positionStore, ledger, signalStore
      ensures Valid() && At(s.disk, l, Manage(c, s, b, now)) && raised == Manage(c, s, b, now).raised
    {
      hide CloseOne, CheckExit, WithExcursion, BarStore.Refines;
      var stillOpen: seq<LivePosition> := [];
      var n := |openPositions|;
      assert l + [] == l;
      for k := 0 to n
        invariant Valid() && |openPositions| == |s.open| == n
        invariant At(s.disk, l, ManageTo(c, Begin(s), b, now, k))
        invariant ManageTo(c, Begin(s), b, now, k).kept == stillOpen && !ManageTo(c, Begin(s), b, now, k).raised
      {
        ghost var p := ManageTo(c, Begin(s), b, now, k);
        var position := openPositions[k];
        if CheckExit(position, b, now).None? {
          var updated := WithExcursion(position, b);
          openPositions := openPositions[k := updated];
          SavePosition(updated, s.disk, l, p.effects);
          stillOpen := stillOpen + [updated];
        } else {
          raised := ClosePosition(k, b, now, s.disk, l, p);
          if raised {
            RaisedStays(c, Begin(s), b, now, k + 1, |s.open|);
            return;
          }
        }
      }
      openPositions := stillOpen;
      raised := false;
    }

    /** Open a position for the signal just published. */
    method EnterPosition(v: Rules.Verdict, fv: FeatureVector, b: Bar, now: int, signalId: int, ghost d: Disk,
      ghost l: seq<Effect>, ghost p: Pass) returns (raised: bool)
      requires Valid() && At(d, l, p) && !p.raised && MayEnter(c, p.equity, |p.book|, v)
      modifies this`execution, this`nextId, this`openPositions, journal, positionStore, ledger
      ensures Valid() && At(d, l, Enter(c, p, v, fv, b, now, signalId))
      ensures raised == Enter(c, p, v, fv, b, now, signalId).raised
    {
      hide GateDecision, NewPosition, OpenRow, OpenOrder, Submit, ApplyAll, BarStore.Refines;
      var size := GateDecision(c, equity, |openPositions|, v).sizeUnits;
      var order := OpenOrder(c, v, fv, b, now, size, nextId);
      nextId := nextId + 1;
      var answer := SubmitMarketOrder(order, nextId, d, l, p.effects);
      ghost var sent := p.effects + [Sent(order, p.nextId + 1, answer)];
      if answer.Err? {
        return true;
      }
      var fill := answer.value;
      var position := NewPosition(c, v, fill, signalId, nextId, now);
      nextId := nextId + 1;
      openPositions := openPositions + [position];
      SavePosition(position, d, l, sent);
      var row := OpenRow(c, position, now, fill);
      RecordEntry(row, d, l, sent + [Saved(position)]);
      assert sent + [Saved(position)] + [Recorded(row)] ==
        p.effects + [Sent(order, p.nextId + 1, answer), Saved(position), Recorded(row)];
      return false;
    }

    /** Publish the signal of a reading and enter when both gates let it through. */
    method ReactTo(r: Backtest.Reading, b: Bar, now: int, ghost d: Disk, ghost l: seq<Effect>, ghost p: Pass)
      returns (raised: bool)
      requires Valid() && At(d, l, p) && !p.raised
      modifies this`execution, this`nextId, this`openPositions, journal, positionStore, ledger, signalStore
      ensures Valid() && At(d, l, React(c, p, r, b, now))
      ensures raised == React(c, p, r, b, now).raised
    {
      hide MayEnter, Enter, SignalOf;
      var v := r.verdict;
      if v.Quiet? || v.Raised? {
        return v.Raised?;
      }
      var signalId := nextId;
      var row := SignalOf(signalId, now, v);
      nextId := nextId + 1;
      PublishSignal(row, d, l, p.effects);
      ghost var published := Publish(p, row);
      if !MayEnter(c, equity, |openPositions|, v) {
        return false;
      }
      raised := EnterPosition(v, r.fv, b, now, signalId, d, l, published);
    }

    /** One pass on the last bar read. */
    method RunPass(b: Bar, now: int, r: Backtest.Reading, ghost s: Live, ghost l: seq<Effect>) returns (raised: bool)
      requires Valid() && Abstract() == s && journal.log == l
      modifies this`equity, this`execution, this`nextId, this`openPositions, journal, positionStore, ledger, signalStore
      ensures Valid() && At(s.disk, l, PassOf(c, s, b, now, r)) && raised == PassOf(c, s, b, now, r).raised
    {
      hide Manage, ManageTo;
      raised := ManageOpenPositions(b, now, s, l);
      if !raised {
        raised := ReactTo(r, b, now, s.disk, l, Manage(c, s, b, now));
      }
    }

    // -------------------------------------------------------------- ingestion and the poll

    /** Validate and store what the adapter returned, and read the window back. */
    method Ingest(raw: seq<Bar>, now: int) returns (bars: seq<Bar>)
      requires Valid()
      modifies this`table, barStore
      ensures Valid() && table == Ingested(c, old(table), raw)
      ensures bars == BarsRead(c, table, now)
    {
      hide Validation.Clean, Validation.Report, BarStore.Written, BarStore.Refines, Ingested, ReadTable;
      var clean, _ := Validation.ValidateBars(raw, c.spike, c.seconds);
      IngestRefines(c, barStore.yearOf, barStore.partitions, table, raw);
      barStore.Write(clean);
      table := Ingested(c, table, raw);
      bars := barStore.Read(now - Window(c), now);
    }

    /** The feature vector and verdict of a poll, from the store. */
    method ReadStore(bars: seq<Bar>, now: int) returns (r: Backtest.Reading)
      requires Valid() && bars == BarsRead(c, table, now)
      ensures r == PollReading(c, table, now)
    {
      hide VectorAt, ReadTable;
      var source := barStore.Read(now - c.seconds * Needed(c.engine) * 2, now);
      assert source == ReadTable(table, now - c.seconds * Needed(c.engine) * 2, now);
      var fv := GetFeatureVector(c.engine, now, c.seconds, source);
      r := Backtest.ReadingOf(c, fv, bars);
    }

    /** One full poll. `feed` is the bar adapter: what it returns for [start, end). The result says
        whether an exception left the poll early. */
    method Poll(now: int, feed: (int, int) -> seq<Bar>) returns (raised: bool)
      requires Valid()
      modifies this`equity, this`execution, this`nextId, this`openPositions, this`table
      modifies journal, positionStore, ledger, signalStore, barStore
      ensures Valid()
      ensures var raw := feed(now - Window(c), now);
        && (Abstract(), table) == PollTo(c, old(Abstract()), old(table), now, raw)
        && match PollPass(c, old(Abstract()), old(table), now, raw)
           case None => journal.log == old(journal.log) && !raised
           case Some(p) => journal.log == old(journal.log) + p.effects && raised == p.raised
    {
      hide PassOf, PollReading, Ingested, BarsRead;
      ghost var s, l := Abstract(), journal.log;
      var raw := feed(now - Window(c), now);
      if raw == [] {
        return false;
      }
      var bars := Ingest(raw, now);
      if bars == [] {
        return false;
      }
      var r := ReadStore(bars, now);
      raised := RunPass(bars[|bars| - 1], now, r, s, l);
    }
  }

  /** One more statement after those of a pass. */
  lemma OneMore(d: Disk, l: seq<Effect>, es: seq<Effect>, e: Effect)
    ensures ApplyAll(d, es + [e]) == Apply(ApplyAll(d, es), e)
    ensures (l + es) + [e] == l + (es + [e])
  {
    assert (es + [e])[..|es|] == es;
  }

  /** The tables after a filled close. */
  lemma CloseEffectsApplied(c: Config, d: Disk, es: seq<Effect>, p: LivePosition, now: int, fill: Fill, order: Order,
    answer: Result<Fill, ExecutionError>)
    ensures var after, row := ApplyAll(d, es + [Sent(order, p.tradeId, answer)] + CloseEffects(c, p, now, fill)),
      CloseRow(c, p, now, fill);
      && after.ledger == ApplyAll(d, es).ledger + [row]
      && after.signals == Resolve(ApplyAll(d, es).signals, p.signalId, OutcomeOf(ClosePnl(p, fill)), p.mae, p.mfe,
        row.realisedR.value)
      && after.positions == ApplyAll(d, es).positions - {p.tradeId}
  {
    hide ApplyAll, CloseRow, ClosePnl, Resolve;
    var es1, e := es + [Sent(order, p.tradeId, answer)], CloseEffects(c, p, now, fill);
    OneMore(d, [], es, Sent(order, p.tradeId, answer));
    OneMore(d, [], es1, e[0]);
    OneMore(d, [], es1 + [e[0]], e[1]);
    OneMore(d, [], es1 + [e[0]] + [e[1]], e[2]);
    assert es1 + [e[0]] + [e[1]] + [e[2]] == es1 + e;
  }

  lemma {:induction false} RaisedStays(c: Config, s: Pass, b: Bar, now: int, k: nat, n: nat)
    requires k <= n <= |s.book| && ManageTo(c, s, b, now, k).raised
    ensures ManageTo(c, s, b, now, n) == ManageTo(c, s, b, now, k)
  {
    hide Survive, CloseOne;
    if k < n { RaisedStays(c, s, b, now, k, n - 1); }
  }

  /** Writing the validated batch refines ingesting it into the table. */
  lemma IngestRefines(c: Config, yearOf: int -> int, parts: BarStore.Partitions, table: map<int, Bar>, raw: seq<Bar>)
    requires BarStore.Refines(yearOf, parts, table)
    ensures BarStore.Refines(yearOf, BarStore.Written(yearOf, parts, Validation.Clean(raw, c.spike)),
      Ingested(c, table, raw))
    ensures Keyed(Ingested(c, table, raw))
  {
    hide BarStore.Written, Validation.Clean;
    Validation.CleanBars(raw, c.spike);
    WritableBatch(yearOf, parts, Validation.Clean(raw, c.spike));
    BarStore.WriteRefinesUpdate(yearOf, parts, table, Validation.Clean(raw, c.spike));
  }

  /** A validated batch may open a year. */
  lemma WritableBatch(yearOf: int -> int, parts: BarStore.Partitions, clean: seq<Bar>)
    requires Ascending(clean)
    ensures BarStore.FreshYearsDistinct(yearOf, parts, clean)
  {
    forall y | y in BarStore.YearsOf(yearOf, clean) && y !in parts
      ensures DistinctTimes(BarStore.RowsOfYear(yearOf, clean, y))
    {
      BarStore.RowsOfYearElements(yearOf, clean, y);
    }
  }
}

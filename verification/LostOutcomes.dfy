/** With a broker, a crash right after a close row loses the signal's outcome for good. */
module LostOutcomes {
  import opened Prelude
  import opened Bars
  import opened Execution
  import opened Records
  import opened Stores
  import opened LiveLoop
  import opened CrashSafety
  import opened TableAgreement
  import opened CrashCuts
  import opened Tickets
  import opened Drift
  import opened CloseRows
  import opened BrokerCloses
  import opened LiveSignals
  import PassTables
  import Backtest
  import Rules

  // ---------------------------------------------------------------- one trade for the signal

  /** Only this trade has this signal. */
  ghost predicate Tied(open: seq<LivePosition>, g: int, trade: int) {
    forall q :: q in open && q.signalId == g ==> q.tradeId == trade
  }

  ghost predicate RowsTied(rows: map<int, LivePosition>, g: int, trade: int) {
    forall id {:trigger rows[id]} :: id in rows && rows[id].signalId == g ==> rows[id].tradeId == trade
  }

  /** The trade has got a close row since, or the signal is as it was. */
  ghost predicate KeptSignal(d0: Disk, d: Disk, g: int, trade: int) {
    && CloseCount(d0.ledger, trade) <= CloseCount(d.ledger, trade)
    && g in d0.signals && g in d.signals
    && (CloseCount(d0.ledger, trade) == CloseCount(d.ledger, trade) ==> d.signals[g] == d0.signals[g])
  }

  lemma NextKept(d0: Disk, d: Disk, e: Effect, g: int, trade: int)
    requires KeptSignal(d0, d, g, trade) && RowsTied(d.positions, g, trade)
    requires e.Resolved? && e.signalId == g ==> CloseCount(d0.ledger, trade) < CloseCount(d.ledger, trade)
    requires e.Published? ==> e.row.signalId != g
    requires e.Saved? && e.position.signalId == g ==> e.position.tradeId == trade
    ensures KeptSignal(d0, Apply(d, e), g, trade) && RowsTied(Apply(d, e).positions, g, trade)
  {
    hide CloseCount;
    if e.Recorded? { CountGrows(d.ledger, e.entry, trade); }
  }

  ghost predicate KeptCuts(d0: Disk, es: seq<Effect>, g: int, trade: int) {
    forall cut :: 0 <= cut <= |es| ==>
      KeptSignal(d0, ApplyAll(d0, es[..cut]), g, trade) && RowsTied(ApplyAll(d0, es[..cut]).positions, g, trade)
  }

  lemma ExtendKept(d0: Disk, es: seq<Effect>, e: Effect, g: int, trade: int)
    requires KeptCuts(d0, es, g, trade)
    requires e.Resolved? && e.signalId == g ==> CloseCount(d0.ledger, trade) < CloseCount(ApplyAll(d0, es).ledger,
      trade)
    requires e.Published? ==> e.row.signalId != g
    requires e.Saved? && e.position.signalId == g ==> e.position.tradeId == trade
    ensures KeptCuts(d0, es + [e], g, trade)
  {
    hide KeptSignal, RowsTied, ApplyAll, Apply;
    var all := es + [e];
    assert es[..|es|] == es;
    NextKept(d0, ApplyAll(d0, es), e, g, trade);
    OneMore(d0, [], es, e);
    forall cut | 0 <= cut <= |all|
      ensures KeptSignal(d0, ApplyAll(d0, all[..cut]), g, trade)
      ensures RowsTied(ApplyAll(d0, all[..cut]).positions, g, trade)
    {
      if cut <= |es| { assert all[..cut] == es[..cut]; } else { assert all[..cut] == all; }
    }
  }

  lemma EndOfKept(d0: Disk, es: seq<Effect>, g: int, trade: int)
    requires KeptCuts(d0, es, g, trade)
    ensures KeptSignal(d0, ApplyAll(d0, es), g, trade) && RowsTied(ApplyAll(d0, es).positions, g, trade)
  {
    hide KeptSignal, RowsTied;
    assert es[..|es|] == es;
  }

  // ---------------------------------------------------------------- one poll

  lemma CloseKeepsSignal(c: Config, d0: Disk, p: Pass, k: nat, b: Bar, now: int, g: int, trade: int)
    requires k < |p.book| && KeptCuts(d0, p.effects, g, trade) && Tied(p.book, g, trade)
    ensures KeptCuts(d0, CloseOne(c, p, k, b, now).effects, g, trade)
  {
    hide KeptCuts, ClosePnl, RMultiple, Submit, CloseOrder, ApplyAll, CloseCount;
    var pos := p.book[k];
    var order := CloseOrder(c, pos, b, now, p.nextId);
    var answer := Submit(p.adapter, order).1;
    var e := Sent(order, pos.tradeId, answer);
    ExtendKept(d0, p.effects, e, g, trade);
    if answer.Ok? {
      var es, f := p.effects + [e], CloseEffects(c, pos, now, answer.value);
      EndOfKept(d0, es, g, trade);
      OneMore(d0, [], es, f[0]);
      CountGrows(ApplyAll(d0, es).ledger, f[0].entry, trade);
      ExtendKept(d0, es, f[0], g, trade);
      ExtendKept(d0, es + [f[0]], f[1], g, trade);
      ExtendKept(d0, es + [f[0]] + [f[1]], f[2], g, trade);
      assert es + [f[0]] + [f[1]] + [f[2]] == es + f;
    }
  }

  lemma {:induction false} ManageKeepsSignal(c: Config, s: Live, b: Bar, now: int, k: nat, g: int, trade: int)
    requires k <= |s.open| && g in s.disk.signals && Tied(s.open, g, trade) && RowsTied(s.disk.positions, g, trade)
    ensures var p := ManageTo(c, Begin(s), b, now, k);
      KeptCuts(s.disk, p.effects, g, trade) && Tied(p.book, g, trade) && Tied(p.kept, g, trade)
  {
    hide KeptCuts, CheckExit, CloseOne, WithExcursion;
    if k == 0 {
      NothingLost(s.disk, g, trade);
    } else {
      ManageKeepsSignal(c, s, b, now, k - 1, g, trade);
      var p := ManageTo(c, Begin(s), b, now, k - 1);
      if !p.raised {
        if CheckExit(p.book[k - 1], b, now).None? {
          var u := WithExcursion(p.book[k - 1], b);
          SameSignal(p.book[k - 1], b);
          PassTables.SameTrade(p.book[k - 1], b);
          assert p.book[k - 1] in p.book;
          ExtendKept(s.disk, p.effects, Saved(u), g, trade);
          assert forall q :: q in p.book[k - 1 := u] ==> q in p.book || q == u;
          assert forall q :: q in p.kept + [u] ==> q in p.kept || q == u;
        } else {
          CloseKeepsSignal(c, s.disk, p, k - 1, b, now, g, trade);
          SameLists(c, p, k - 1, b, now);
        }
      }
    }
  }

  lemma SameLists(c: Config, p: Pass, k: nat, b: Bar, now: int)
    requires k < |p.book|
    ensures CloseOne(c, p, k, b, now).book == p.book && CloseOne(c, p, k, b, now).kept == p.kept
  {
  }

  lemma NothingLost(d: Disk, g: int, trade: int)
    requires g in d.signals && RowsTied(d.positions, g, trade)
    ensures KeptCuts(d, [], g, trade)
  {
  }

  lemma EnterKeepsSignal(c: Config, d0: Disk, p: Pass, v: Rules.Verdict, r: Backtest.Reading, b: Bar, now: int,
    signalId: int, g: int, trade: int)
    requires MayEnter(c, p.equity, |p.book|, v) && KeptCuts(d0, p.effects, g, trade) && Tied(p.book, g, trade)
    requires signalId != g
    ensures var q := Enter(c, p, v, r.fv, b, now, signalId); KeptCuts(d0, q.effects, g, trade) && Tied(q.book, g, trade)
  {
    hide KeptCuts, GateDecision, OpenOrder, Submit, CloseCount;
    var size := GateDecision(c, p.equity, |p.book|, v).sizeUnits;
    var order := OpenOrder(c, v, r.fv, b, now, size, p.nextId);
    var answer := Submit(p.adapter, order).1;
    var e := Sent(order, p.nextId + 1, answer);
    ExtendKept(d0, p.effects, e, g, trade);
    if answer.Ok? {
      var pos := NewPosition(c, v, answer.value, signalId, p.nextId + 1, now);
      var row := OpenRow(c, pos, now, answer.value);
      ExtendKept(d0, p.effects + [e], Saved(pos), g, trade);
      ExtendKept(d0, p.effects + [e] + [Saved(pos)], Recorded(row), g, trade);
      assert p.effects + [e] + [Saved(pos)] + [Recorded(row)] == p.effects + [e, Saved(pos), Recorded(row)];
      assert forall q :: q in p.book + [pos] ==> q in p.book || q == pos;
    }
  }

  /** One poll, any adapter, at every statement boundary: the signal changes only once its trade gets a close row. */
  lemma PollKeepsSignal(c: Config, s: Live, b: Bar, now: int, r: Backtest.Reading, g: int, trade: int)
    requires g in s.disk.signals && g < s.nextId && Tied(s.open, g, trade) && RowsTied(s.disk.positions, g, trade)
    ensures var p := PassOf(c, s, b, now, r);
      KeptCuts(s.disk, p.effects, g, trade) && Tied(p.book, g, trade) && s.nextId <= p.nextId
  {
    hide ManageTo, KeptCuts, Tied, MayEnter, Enter, SignalOf, RowsTied;
    ManageKeepsSignal(c, s, b, now, |s.open|, g, trade);
    CounterOfManage(c, s, b, now);
    var m, v := Manage(c, s, b, now), r.verdict;
    if !m.raised && (v.Taken? || v.TurnedDown?) {
      var row := SignalOf(m.nextId, now, v);
      var q := Publish(m, row);
      NamedSo(m.nextId, now, v);
      ExtendKept(s.disk, m.effects, Published(row), g, trade);
      if MayEnter(c, q.equity, |q.book|, v) {
        EnterKeepsSignal(c, s.disk, q, v, r, b, now, m.nextId, g, trade);
        EnterCounts(c, q, v, r, b, now, m.nextId);
      }
    }
  }

  lemma NamedSo(id: int, ts: int, v: Rules.Verdict)
    requires v.Taken? || v.TurnedDown?
    ensures SignalOf(id, ts, v).signalId == id
  {
  }

  // ---------------------------------------------------------------- runs

  lemma TiedReload(d: Disk, reloaded: seq<LivePosition>, g: int, trade: int)
    requires RowsTied(d.positions, g, trade) && Lists(reloaded, d.positions)
    ensures Tied(reloaded, g, trade)
  {
    forall q | q in reloaded && q.signalId == g ensures q.tradeId == trade { assert d.positions[q.tradeId] == q; }
  }

  lemma StepKeepsSignal(c: Config, s: Live, e: Step, g: int, trade: int)
    requires g in s.disk.signals && g < s.nextId && Tied(s.open, g, trade) && RowsTied(s.disk.positions, g, trade)
    requires Reloads(c, s, e)
    ensures var t := StepTo(c, s, e);
      && KeptSignal(s.disk, t.disk, g, trade) && s.nextId <= t.nextId
      && Tied(t.open, g, trade) && RowsTied(t.disk.positions, g, trade)
  {
    hide PassOf, KeptSignal, Tied, RowsTied, ApplyAll, AdapterAfter, Lists;
    match e {
      case Polled(b, now, r) =>
        PollKeepsSignal(c, s, b, now, r, g, trade);
        EndOfKept(s.disk, PassOf(c, s, b, now, r).effects, g, trade);
      case Restarted(reloaded, _) =>
        SameDisk(s.disk, g, trade);
        TiedReload(s.disk, reloaded, g, trade);
      case Crashed(b, now, r, cut, reloaded, _) =>
        PollKeepsSignal(c, s, b, now, r, g, trade);
        var es := PassOf(c, s, b, now, r).effects;
        var at := if cut <= |es| then cut else |es|;
        assert es[..at] == Cut(es, cut);
        TiedReload(StepTo(c, s, e).disk, reloaded, g, trade);
    }
  }

  lemma SameDisk(d: Disk, g: int, trade: int)
    requires g in d.signals
    ensures KeptSignal(d, d, g, trade)
  {
  }

  /** With a broker, once the trade has its close row the signal never changes again: over every run of polls, restarts
      and crashes. */
  lemma {:induction false} SignalStays(c: Config, card: map<int, int>, s: Live, steps: seq<Step>, g: int, trade: int)
    requires CardInv(card, s.disk, s.adapter, s.nextId) && AllCarded(card, s.open) && AllReload(c, s, steps)
    requires g in s.disk.signals && g < s.nextId && Tied(s.open, g, trade) && RowsTied(s.disk.positions, g, trade)
    requires CloseCount(s.disk.ledger, trade) == 1
    ensures var f := RunSteps(c, s, steps);
      && g in f.disk.signals && f.disk.signals[g] == s.disk.signals[g] && CloseCount(f.disk.ledger, trade) == 1
      && g < f.nextId && Tied(f.open, g, trade) && RowsTied(f.disk.positions, g, trade)
  {
    hide StepTo, CardInv, AllCarded, AllReload, Reloads, Tied, RowsTied, CloseCount;
    if steps != [] {
      var init, e := steps[..|steps| - 1], steps[|steps| - 1];
      ReloadInit(c, s, steps);
      SignalStays(c, card, s, init, g, trade);
      var l, f := RunSteps(c, s, init), RunSteps(c, s, steps);
      StepKeepsSignal(c, l, e, g, trade);
      var more := RunKeepsCards(c, card, s, steps);
      OneRow(more, f.disk, f.adapter, f.nextId, trade);
    }
  }

  /** From a loop in step with its broker, whose tables and signals agree: crash right after a close row. Whatever
      polls, restarts and crashes follow, the signal of that trade stays open, though the ledger has its close row. */
  lemma CrashLosesOutcome(c: Config, s: Live, o: map<int, int>, b: Bar, now: int, r: Backtest.Reading, cut: nat,
    reloaded: seq<LivePosition>, equity: real, steps: seq<Step>)
    requires Mirrored(s) && TablesCoincide(s.disk) && InStep(s.open, s.adapter, o)
    requires forall id :: CloseCount(s.disk.ledger, id) <= 1
    requires AllAgree(s.disk) && RowsRefer(s.disk, s.nextId) && AllRefer(s.disk.signals, s.open, s.nextId)
    requires Unresolved(s.open, s.disk)
    requires cut < |PassOf(c, s, b, now, r).effects| && IsCloseRow(PassOf(c, s, b, now, r).effects[cut])
    requires Reloads(c, s, Crashed(b, now, r, cut + 1, reloaded, equity))
    requires AllReload(c, StepTo(c, s, Crashed(b, now, r, cut + 1, reloaded, equity)), steps)
    ensures var row := PassOf(c, s, b, now, r).effects[cut].entry;
      var f := RunSteps(c, StepTo(c, s, Crashed(b, now, r, cut + 1, reloaded, equity)), steps);
      && row.signalId in f.disk.signals && f.disk.signals[row.signalId].outcome == Some(Open)
      && CloseCount(f.disk.ledger, row.tradeId) == 1
  {
    hide PassOf, Mirrored, TablesCoincide, InStep, CloseCount, AllAgree, AllRefer, RowsRefer, Unresolved, CardInv,
      AllCarded, Reloads, AllReload, ApplyAll, AdapterAfter, RunSteps, KeptSignal;
    var e, es := Crashed(b, now, r, cut + 1, reloaded, equity), PassOf(c, s, b, now, r).effects;
    var t, row := StepTo(c, s, e), es[cut].entry;
    var g, trade := row.signalId, row.tradeId;
    AgreementHasCards(s, o);
    var card := StepKeepsCards(c, o, s, e);
    PollSignalCutsExact(c, s, b, now, r, cut + 1);
    TiedAtStart(c, s, b, now, r, cut);
    StepKeepsSignal(c, s, e, g, trade);
    assert Cut(es, cut + 1) == es[..cut + 1] && es[..cut + 1] == es[..cut] + [es[cut]];
    OneMore(s.disk, [], es[..cut], es[cut]);
    CountGrows(ApplyAll(s.disk, es[..cut]).ledger, row, trade);
    OneRow(card, t.disk, t.adapter, t.nextId, trade);
    SignalStays(c, card, t, steps, g, trade);
  }

  lemma TiedAtStart(c: Config, s: Live, b: Bar, now: int, r: Backtest.Reading, cut: nat)
    requires Mirrored(s) && RowsRefer(s.disk, s.nextId) && Unresolved(s.open, s.disk)
    requires cut < |PassOf(c, s, b, now, r).effects| && IsCloseRow(PassOf(c, s, b, now, r).effects[cut])
    ensures var row := PassOf(c, s, b, now, r).effects[cut].entry;
      && Tied(s.open, row.signalId, row.tradeId) && RowsTied(s.disk.positions, row.signalId, row.tradeId)
      && row.signalId in s.disk.signals && row.signalId < s.nextId
  {
    hide PassOf, IdsBelow, LastResult;
    ReactApart(c, s, b, now, r);
    var row := PassOf(c, s, b, now, r).effects[cut].entry;
    var j :| 0 <= j < |s.open| && row.signalId == s.open[j].signalId && row.tradeId == s.open[j].tradeId;
    assert s.open[j] in s.open;
    forall q | q in s.open && q.signalId == row.signalId ensures q.tradeId == row.tradeId {
      var i :| 0 <= i < |s.open| && s.open[i] == q;
      assert i < j || j < i || i == j;
    }
    forall id {:trigger s.disk.positions[id]} | id in s.disk.positions && s.disk.positions[id].signalId == row.signalId
      ensures s.disk.positions[id].tradeId == row.tradeId
    {
      assert s.disk.positions[id].tradeId == id;
      assert s.disk.positions[id] in s.open;
    }
  }
}

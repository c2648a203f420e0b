/** No crash loses an open trade: at any statement, over any run. */
module CrashSafety {
  import opened Prelude
  import opened Bars
  import opened Execution
  import opened Records
  import opened LiveLoop
  import Backtest
  import Rules

  // ---------------------------------------------------------------- open according to the ledger

  predicate HasClose(ledger: seq<LedgerEntry>, id: int) {
    exists i :: 0 <= i < |ledger| && ledger[i].tradeId == id && ledger[i].event.Closed?
  }

  predicate HasOpen(ledger: seq<LedgerEntry>, id: int) {
    exists i :: 0 <= i < |ledger| && ledger[i].tradeId == id && ledger[i].event.Opened?
  }

  /** Opened and not closed. */
  predicate OpenInLedger(ledger: seq<LedgerEntry>, id: int) {
    HasOpen(ledger, id) && !HasClose(ledger, id)
  }

  /** Every trade the ledger shows open is in the position store. */
  ghost predicate Safe(d: Disk) {
    forall id :: OpenInLedger(d.ledger, id) ==> id in d.positions
  }

  /** In the position store but not open according to the ledger. */
  ghost predicate Stray(d: Disk, id: int) {
    id in d.positions && !OpenInLedger(d.ledger, id)
  }

  lemma LedgerGrows(ledger: seq<LedgerEntry>, e: LedgerEntry)
    ensures forall id :: HasClose(ledger + [e], id) <==> HasClose(ledger, id) || (e.event.Closed? && e.tradeId == id)
    ensures forall id :: HasOpen(ledger + [e], id) <==> HasOpen(ledger, id) || (e.event.Opened? && e.tradeId == id)
  {
    var r := ledger + [e];
    assert r[|ledger|] == e;
    forall id ensures HasClose(r, id) <==> HasClose(ledger, id) || (e.event.Closed? && e.tradeId == id) {
      if HasClose(ledger, id) {
        var i :| 0 <= i < |ledger| && ledger[i].tradeId == id && ledger[i].event.Closed?;
        assert r[i] == ledger[i];
      }
    }
    forall id ensures HasOpen(r, id) <==> HasOpen(ledger, id) || (e.event.Opened? && e.tradeId == id) {
      if HasOpen(ledger, id) {
        var i :| 0 <= i < |ledger| && ledger[i].tradeId == id && ledger[i].event.Opened?;
        assert r[i] == ledger[i];
      }
    }
  }

  // ---------------------------------------------------------------- every statement boundary

  ghost predicate SafeThroughout(d: Disk, effects: seq<Effect>) {
    forall cut :: 0 <= cut <= |effects| ==> Safe(ApplyAll(d, effects[..cut]))
  }

  lemma ExtendSafe(d: Disk, es: seq<Effect>, e: Effect)
    requires SafeThroughout(d, es) && Safe(Apply(ApplyAll(d, es), e))
    ensures SafeThroughout(d, es + [e])
  {
    hide Safe, ApplyAll, Apply;
    var all := es + [e];
    OneMore(d, [], es, e);
    forall cut | 0 <= cut <= |all| ensures Safe(ApplyAll(d, all[..cut])) {
      if cut <= |es| {
        assert all[..cut] == es[..cut];
      } else {
        assert all[..cut] == all;
      }
    }
  }

  lemma AtEnd(d: Disk, es: seq<Effect>)
    requires SafeThroughout(d, es)
    ensures Safe(ApplyAll(d, es))
  {
    assert es[..|es|] == es;
  }

  /** The statements that could lose a trade, and why they do not: a position is deleted only once its
      close row is written, an open row is written only once its position is saved. */
  lemma StatementIsSafe(d: Disk, e: Effect)
    requires Safe(d)
    requires e.Deleted? ==> HasClose(d.ledger, e.tradeId)
    requires e.Recorded? && e.entry.event.Opened? ==> e.entry.tradeId in d.positions
    ensures Safe(Apply(d, e))
  {
    if e.Recorded? { LedgerGrows(d.ledger, e.entry); }
  }

  lemma ExtendByStatement(d: Disk, es: seq<Effect>, e: Effect)
    requires SafeThroughout(d, es)
    requires e.Deleted? ==> HasClose(ApplyAll(d, es).ledger, e.tradeId)
    requires e.Recorded? && e.entry.event.Opened? ==> e.entry.tradeId in ApplyAll(d, es).positions
    ensures SafeThroughout(d, es + [e])
  {
    hide Safe, SafeThroughout, ApplyAll;
    AtEnd(d, es);
    StatementIsSafe(ApplyAll(d, es), e);
    ExtendSafe(d, es, e);
  }

  lemma CloseIsSafe(c: Config, d: Disk, s: Pass, k: nat, b: Bar, now: int)
    requires k < |s.book| && SafeThroughout(d, s.effects)
    ensures SafeThroughout(d, CloseOne(c, s, k, b, now).effects)
  {
    hide SafeThroughout, CloseOrder, ClosePnl, RMultiple, ApplyAll;
    var p := s.book[k];
    var order := CloseOrder(c, p, b, now, s.nextId);
    var answer := Submit(s.adapter, order).1;
    var sent := s.effects + [Sent(order, p.tradeId, answer)];
    ExtendByStatement(d, s.effects, Sent(order, p.tradeId, answer));
    if answer.Ok? {
      var closing := CloseEffects(c, p, now, answer.value);
      var row := closing[0].entry;
      ExtendByStatement(d, sent, closing[0]);
      OneMore(d, [], sent, closing[0]);
      LedgerGrows(ApplyAll(d, sent).ledger, row);
      ExtendByStatement(d, sent + [closing[0]], closing[1]);
      OneMore(d, [], sent + [closing[0]], closing[1]);
      ExtendByStatement(d, sent + [closing[0]] + [closing[1]], closing[2]);
      assert sent + [closing[0]] + [closing[1]] + [closing[2]] == sent + closing;
    }
  }

  lemma {:induction false} ManageIsSafe(c: Config, d: Disk, s: Pass, b: Bar, now: int, k: nat)
    requires k <= |s.book| && SafeThroughout(d, s.effects)
    ensures SafeThroughout(d, ManageTo(c, s, b, now, k).effects)
  {
    hide SafeThroughout, CloseOne, WithExcursion, CheckExit;
    if k > 0 {
      ManageIsSafe(c, d, s, b, now, k - 1);
      var m := ManageTo(c, s, b, now, k - 1);
      if !m.raised {
        if CheckExit(m.book[k - 1], b, now).None? {
          ExtendByStatement(d, m.effects, Saved(WithExcursion(m.book[k - 1], b)));
        } else {
          CloseIsSafe(c, d, m, k - 1, b, now);
        }
      }
    }
  }

  lemma EnterIsSafe(c: Config, d: Disk, s: Pass, v: Rules.Verdict, r: Backtest.Reading, b: Bar, now: int, signalId: int)
    requires MayEnter(c, s.equity, |s.book|, v) && SafeThroughout(d, s.effects)
    ensures SafeThroughout(d, Enter(c, s, v, r.fv, b, now, signalId).effects)
  {
    hide SafeThroughout, OpenOrder, GateDecision, ApplyAll;
    var size := GateDecision(c, s.equity, |s.book|, v).sizeUnits;
    var order := OpenOrder(c, v, r.fv, b, now, size, s.nextId);
    var answer := Submit(s.adapter, order).1;
    var sent := s.effects + [Sent(order, s.nextId + 1, answer)];
    ExtendByStatement(d, s.effects, Sent(order, s.nextId + 1, answer));
    if answer.Ok? {
      var p := NewPosition(c, v, answer.value, signalId, s.nextId + 1, now);
      var row := OpenRow(c, p, now, answer.value);
      ExtendByStatement(d, sent, Saved(p));
      OneMore(d, [], sent, Saved(p));
      ExtendByStatement(d, sent + [Saved(p)], Recorded(row));
      assert sent + [Saved(p)] + [Recorded(row)] ==
        s.effects + [Sent(order, s.nextId + 1, answer), Saved(p), Recorded(row)];
    }
  }

  /** At every statement boundary of any poll, from any memory and any adapter state, the tables stay
      safe if they were safe before it. */
  lemma PassIsSafe(c: Config, s: Live, b: Bar, now: int, r: Backtest.Reading)
    requires Safe(s.disk)
    ensures SafeThroughout(s.disk, PassOf(c, s, b, now, r).effects)
  {
    hide SafeThroughout, ManageTo, Enter, MayEnter, SignalOf;
    NothingWritten(s.disk);
    ManageIsSafe(c, s.disk, Begin(s), b, now, |s.open|);
    var m, v := Manage(c, s, b, now), r.verdict;
    if !m.raised && (v.Taken? || v.TurnedDown?) {
      ExtendByStatement(s.disk, m.effects, Published(SignalOf(m.nextId, now, v)));
      var p := Publish(m, SignalOf(m.nextId, now, v));
      if MayEnter(c, p.equity, |p.book|, v) {
        EnterIsSafe(c, s.disk, p, v, r, b, now, m.nextId);
      }
    }
  }

  lemma NothingWritten(d: Disk)
    requires Safe(d)
    ensures SafeThroughout(d, [])
  {
  }

  // ---------------------------------------------------------------- runs with crashes

  /** A poll that ends, normally or by an exception; a restart between polls; or a poll cut short by a crash
      after `cut` statements. After a restart or a crash the loop is rebuilt with some list of positions and
      some equity. */
  datatype Step =
    | Polled(bar: Bar, now: int, reading: Backtest.Reading)
    | Restarted(reloaded: seq<LivePosition>, equity: real)
    | Crashed(bar: Bar, now: int, reading: Backtest.Reading, cut: nat, reloaded: seq<LivePosition>, equity: real)

  /** The adapter after the orders among some effects. */
  function AdapterAfter(x: Adapter, es: seq<Effect>): Adapter {
    if es == [] then x
    else
      var before, e := AdapterAfter(x, es[..|es| - 1]), es[|es| - 1];
      if e.Sent? then Submit(before, e.order).0 else before
  }

  function Cut(es: seq<Effect>, cut: nat): seq<Effect> {
    if cut <= |es| then es[..cut] else es
  }

  /** Ids are never reused: after a crash the counter is past everything the poll would have drawn. */
  function StepTo(c: Config, s: Live, e: Step): Live {
    match e
    case Polled(b, now, r) => After(s, PassOf(c, s, b, now, r))
    case Restarted(reloaded, equity) => s.(open := reloaded, equity := equity)
    case Crashed(b, now, r, cut, reloaded, equity) =>
      var p := PassOf(c, s, b, now, r);
      Live(equity, reloaded, ApplyAll(s.disk, Cut(p.effects, cut)), AdapterAfter(s.adapter, Cut(p.effects, cut)),
        p.nextId)
  }

  function RunSteps(c: Config, s: Live, steps: seq<Step>): Live {
    if steps == [] then s else StepTo(c, RunSteps(c, s, steps[..|steps| - 1]), steps[|steps| - 1])
  }

  lemma StepKeepsSafe(c: Config, s: Live, e: Step)
    requires Safe(s.disk)
    ensures Safe(StepTo(c, s, e).disk)
  {
    hide PassOf, Safe;
    if !e.Restarted? {
      PassIsSafe(c, s, e.bar, e.now, e.reading);
      var p := PassOf(c, s, e.bar, e.now, e.reading);
      AtEnd(s.disk, p.effects);
    }
  }

  /** Over every run, with crashes and reloads anywhere: at every statement boundary, each trade with an
      open ledger row and no close row is in the position store. */
  lemma {:induction false} RunIsCrashSafe(c: Config, s: Live, steps: seq<Step>)
    requires Safe(s.disk)
    ensures var f := RunSteps(c, s, steps);
      && Safe(f.disk)
      && forall b, now, r :: SafeThroughout(f.disk, PassOf(c, f, b, now, r).effects)
  {
    hide PassOf, Safe, StepTo, SafeThroughout;
    if steps != [] {
      RunIsCrashSafe(c, s, steps[..|steps| - 1]);
      StepKeepsSafe(c, RunSteps(c, s, steps[..|steps| - 1]), steps[|steps| - 1]);
    }
    var f := RunSteps(c, s, steps);
    forall b, now, r ensures SafeThroughout(f.disk, PassOf(c, f, b, now, r).effects) {
      PassIsSafe(c, f, b, now, r);
    }
  }
}

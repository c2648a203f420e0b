/** How many close rows a trade gets, exactly, over every run without a stale list. */
module CloseRows {
  import opened Prelude
  import opened Bars
  import opened Execution
  import opened Records
  import opened Stores
  import opened LiveLoop
  import opened CrashSafety
  import opened Tickets
  import opened TableAgreement
  import opened PassTables
  import opened CrashCuts
  import opened Recovery
  import opened Drift
  import Backtest
  import Rules

  function CloseCount(ledger: seq<LedgerEntry>, id: int): nat {
    if ledger == [] then 0
    else
      var last := ledger[|ledger| - 1];
      CloseCount(ledger[..|ledger| - 1], id) + if last.event.Closed? && last.tradeId == id then 1 else 0
  }

  lemma CountGrows(ledger: seq<LedgerEntry>, row: LedgerEntry, id: int)
    ensures CloseCount(ledger + [row], id) == CloseCount(ledger, id) +
      if row.event.Closed? && row.tradeId == id then 1 else 0
  {
    assert (ledger + [row])[..|ledger|] == ledger;
  }

  lemma {:induction false} UnclosedCountsNothing(ledger: seq<LedgerEntry>, id: int)
    ensures CloseCount(ledger, id) == 0 <==> !HasClose(ledger, id)
  {
    if ledger != [] {
      var init, last := ledger[..|ledger| - 1], ledger[|ledger| - 1];
      UnclosedCountsNothing(init, id);
      assert init + [last] == ledger;
      LedgerGrows(init, last);
    }
  }

  // ---------------------------------------------------------------- at every statement boundary

  /** The last statement is the close row of this trade, or the outcome written right after it. */
  predicate LeftHalfClosed(es: seq<Effect>, id: int) {
    var n := |es|;
    || (n > 0 && IsCloseRow(es[n - 1]) && es[n - 1].entry.tradeId == id)
    || (n > 1 && es[n - 1].Resolved? && IsCloseRow(es[n - 2]) && es[n - 2].entry.tradeId == id)
  }

  /** The close rows of a trade that was left half closed `bad` times: one each time, and one more once it has
      been closed and deleted. */
  predicate Tally(d: Disk, id: int, bad: nat) {
    if id in d.positions then CloseCount(d.ledger, id) == bad
    else CloseCount(d.ledger, id) == bad + 1 || CloseCount(d.ledger, id) == bad == 0
  }

  function Half(es: seq<Effect>, id: int): nat {
    if LeftHalfClosed(es, id) then 1 else 0
  }

  ghost predicate TallyCuts(d0: Disk, es: seq<Effect>, id: int, bad: nat) {
    forall cut :: 0 <= cut <= |es| ==> Tally(ApplyAll(d0, es[..cut]), id, bad + Half(es[..cut], id))
  }

  lemma ExtendTally(d0: Disk, es: seq<Effect>, e: Effect, id: int, bad: nat)
    requires TallyCuts(d0, es, id, bad) && Tally(Apply(ApplyAll(d0, es), e), id, bad + Half(es + [e], id))
    ensures TallyCuts(d0, es + [e], id, bad)
  {
    hide Tally, Half, ApplyAll, Apply;
    var all := es + [e];
    OneMore(d0, [], es, e);
    forall cut | 0 <= cut <= |all| ensures Tally(ApplyAll(d0, all[..cut]), id, bad + Half(all[..cut], id)) {
      if cut <= |es| {
        assert all[..cut] == es[..cut];
      } else {
        assert all[..cut] == all;
      }
    }
  }

  /** Nothing is half closed after these statements. */
  predicate Clean(es: seq<Effect>) {
    es == [] || !(IsCloseRow(es[|es| - 1]) || es[|es| - 1].Resolved?)
  }

  lemma TallyAtEnd(d0: Disk, es: seq<Effect>, id: int, bad: nat)
    requires TallyCuts(d0, es, id, bad) && Clean(es)
    ensures Tally(ApplyAll(d0, es), id, bad)
  {
    hide Tally;
    assert es[..|es|] == es;
  }

  /** A statement that changes neither what is stored nor any close row. */
  lemma SameTally(d0: Disk, es: seq<Effect>, e: Effect, id: int, bad: nat)
    requires TallyCuts(d0, es, id, bad) && Clean(es)
    requires e.Sent? || e.Published? || (e.Saved? && e.position.tradeId in ApplyAll(d0, es).positions)
      || (e.Recorded? && e.entry.event.Opened?)
    ensures TallyCuts(d0, es + [e], id, bad) && Clean(es + [e])
  {
    hide TallyCuts;
    TallyAtEnd(d0, es, id, bad);
    if e.Recorded? { CountGrows(ApplyAll(d0, es).ledger, e.entry, id); }
    ExtendTally(d0, es, e, id, bad);
  }

  /** The statements of a filled close, on a stored position. */
  lemma CloseTally(c: Config, d0: Disk, es: seq<Effect>, p: LivePosition, now: int, fill: Fill, id: int, bad: nat)
    requires TallyCuts(d0, es, id, bad) && Clean(es) && p.tradeId in ApplyAll(d0, es).positions
    ensures var all := es + CloseEffects(c, p, now, fill); TallyCuts(d0, all, id, bad) && Clean(all)
  {
    hide TallyCuts, ClosePnl, RMultiple, ApplyAll, Resolve, CloseCount;
    var f := CloseEffects(c, p, now, fill);
    TallyAtEnd(d0, es, id, bad);
    OneMore(d0, [], es, f[0]);
    OneMore(d0, [], es + [f[0]], f[1]);
    OneMore(d0, [], es + [f[0]] + [f[1]], f[2]);
    CountGrows(ApplyAll(d0, es).ledger, f[0].entry, id);
    ExtendTally(d0, es, f[0], id, bad);
    ExtendTally(d0, es + [f[0]], f[1], id, bad);
    ExtendTally(d0, es + [f[0]] + [f[1]], f[2], id, bad);
    assert es + [f[0]] + [f[1]] + [f[2]] == es + f;
  }

  lemma {:induction false} ManageTally(c: Config, s: Live, b: Bar, now: int, k: nat, id: int, bad: nat)
    requires Mirrored(s) && Tally(s.disk, id, bad) && k <= |s.open|
    ensures var es := ManageTo(c, Begin(s), b, now, k).effects; TallyCuts(s.disk, es, id, bad) && Clean(es)
  {
    hide TallyCuts, Tally, Mirrored, CheckExit, Clean, ApplyAll, Submit, CloseEffects, CloseOrder, ClosePnl,
      WithExcursion;
    if k == 0 {
      NothingTold(s.disk, id, bad);
    } else {
      ManageTally(c, s, b, now, k - 1, id, bad);
      var p := ManageTo(c, Begin(s), b, now, k - 1);
      if !p.raised {
        NextStored(c, s, b, now, k - 1);
        if CheckExit(p.book[k - 1], b, now).None? {
          SameTrade(p.book[k - 1], b);
          SameTally(s.disk, p.effects, Saved(WithExcursion(p.book[k - 1], b)), id, bad);
        } else {
          var order := CloseOrder(c, p.book[k - 1], b, now, p.nextId);
          var answer := Submit(p.adapter, order).1;
          var e := Sent(order, p.book[k - 1].tradeId, answer);
          SameTally(s.disk, p.effects, e, id, bad);
          OneMore(s.disk, [], p.effects, e);
          if answer.Ok? { CloseTally(c, s.disk, p.effects + [e], p.book[k - 1], now, answer.value, id, bad); }
        }
      }
    }
  }

  lemma NothingTold(d: Disk, id: int, bad: nat)
    requires Tally(d, id, bad)
    ensures TallyCuts(d, [], id, bad) && Clean([])
  {
    hide Tally;
    var none: seq<Effect> := [];
    assert none[..0] == [];
  }

  lemma EnterTally(c: Config, d0: Disk, p: Pass, v: Rules.Verdict, r: Backtest.Reading, b: Bar, now: int, signalId: int,
    id: int, bad: nat)
    requires MayEnter(c, p.equity, |p.book|, v) && TallyCuts(d0, p.effects, id, bad) && Clean(p.effects)
    requires IdsBelow(ApplyAll(d0, p.effects), p.nextId) && (id >= p.nextId ==> bad == 0)
    ensures var es := Enter(c, p, v, r.fv, b, now, signalId).effects; TallyCuts(d0, es, id, bad) && Clean(es)
  {
    hide TallyCuts, Tally, GateDecision, OpenOrder, ApplyAll, Submit;
    var size, d := GateDecision(c, p.equity, |p.book|, v).sizeUnits, ApplyAll(d0, p.effects);
    var order := OpenOrder(c, v, r.fv, b, now, size, p.nextId);
    var answer := Submit(p.adapter, order).1;
    var e := Sent(order, p.nextId + 1, answer);
    SameTally(d0, p.effects, e, id, bad);
    OneMore(d0, [], p.effects, e);
    if answer.Ok? {
      var pos := NewPosition(c, v, answer.value, signalId, p.nextId + 1, now);
      var row, sent := OpenRow(c, pos, now, answer.value), p.effects + [e];
      TallyAtEnd(d0, sent, id, bad);
      FirstSave(d, pos, p.nextId, id, bad);
      assert Half(sent + [Saved(pos)], id) == 0;
      ExtendTally(d0, sent, Saved(pos), id, bad);
      SameTally(d0, sent + [Saved(pos)], Recorded(row), id, bad);
      assert sent + [Saved(pos)] + [Recorded(row)] == p.effects + [e, Saved(pos), Recorded(row)];
    }
  }

  lemma FirstSave(d: Disk, p: LivePosition, n: int, id: int, bad: nat)
    requires IdsBelow(d, n) && p.tradeId == n + 1 && Tally(d, id, bad) && (id >= n ==> bad == 0)
    ensures Tally(Apply(d, Saved(p)), id, bad)
  {
    UnclosedCountsNothing(d.ledger, p.tradeId);
  }

  /** One poll from memory that lists the store, any adapter: at every statement boundary a trade left half closed
      `bad` times before has a close row for each of those times, one more while this poll has it half closed,
      and one more once it is gone from the store. */
  lemma PollTally(c: Config, s: Live, b: Bar, now: int, r: Backtest.Reading, id: int, bad: nat)
    requires Mirrored(s) && Tally(s.disk, id, bad) && (id >= s.nextId ==> bad == 0)
    ensures var es := PassOf(c, s, b, now, r).effects; TallyCuts(s.disk, es, id, bad) && Clean(es)
  {
    hide TallyCuts, Tally, ManageTo, MayEnter, Enter, SignalOf, Clean, Lists, IdsBelow, ApplyAll, NothingClosed;
    ManageTally(c, s, b, now, |s.open|, id, bad);
    var m, v := Manage(c, s, b, now), r.verdict;
    if !m.raised && (v.Taken? || v.TurnedDown?) {
      ManageSettles(c, s, b, now);
      CounterOfManage(c, s, b, now);
      var row := SignalOf(m.nextId, now, v);
      var q := Publish(m, row);
      SameTally(s.disk, m.effects, Published(row), id, bad);
      PublishSettles(s, m, row);
      if MayEnter(c, q.equity, |q.book|, v) { EnterTally(c, s.disk, q, v, r, b, now, m.nextId, id, bad); }
    }
  }

  // ---------------------------------------------------------------- runs

  /** How many crashes of the run leave this trade half closed. */
  function HalfCloses(c: Config, s: Live, steps: seq<Step>, id: int): nat {
    if steps == [] then 0
    else
      var init, e := steps[..|steps| - 1], steps[|steps| - 1];
      HalfCloses(c, s, init, id) + match e
        case Polled(_, _, _) => 0
        case Restarted(_, _) => 0
        case Crashed(b, now, r, cut, _, _) => Half(Cut(PassOf(c, RunSteps(c, s, init), b, now, r).effects, cut), id)
  }

  /** No poll that ends leaves a stale list. */
  ghost predicate Smooth(c: Config, s: Live, steps: seq<Step>) {
    forall k {:trigger steps[k]} :: 0 <= k < |steps| && steps[k].Polled? ==>
      !LeavesStaleList(c, RunSteps(c, s, steps[..k]), steps[k].bar, steps[k].now)
  }

  lemma SmoothInit(c: Config, s: Live, steps: seq<Step>)
    requires steps != [] && Smooth(c, s, steps)
    ensures Smooth(c, s, steps[..|steps| - 1])
    ensures var e := steps[|steps| - 1]; e.Polled? ==>
      !LeavesStaleList(c, RunSteps(c, s, steps[..|steps| - 1]), e.bar, e.now)
  {
    hide RunSteps, LeavesStaleList;
    var init := steps[..|steps| - 1];
    forall k {:trigger init[k]} | 0 <= k < |init| && init[k].Polled?
      ensures !LeavesStaleList(c, RunSteps(c, s, init[..k]), init[k].bar, init[k].now)
    {
      assert init[..k] == steps[..k] && init[k] == steps[k];
    }
  }

  /** Memory lists the store after every step. */
  lemma StepMirrors(c: Config, s: Live, e: Step)
    requires Mirrored(s) && Reloads(c, s, e) && (e.Polled? ==> !LeavesStaleList(c, s, e.bar, e.now))
    ensures Mirrored(StepTo(c, s, e)) && s.nextId <= StepTo(c, s, e).nextId
  {
    hide PassOf, Lists, IdsBelow, LeavesStaleList, ApplyAll, StraysSurvive, DistinctIds, RowsListed, SmallIds;
    MirroredList(s);
    match e {
      case Polled(b, now, r) =>
        PollSettles(c, s, b, now, r);
        PollSmallIds(c, s, b, now, r);
      case Restarted(_, _) =>
      case Crashed(b, now, r, cut, _, _) =>
        ListedIds(s);
        CrashIds(c, s, b, now, r, cut);
        PollSmallIds(c, s, b, now, r);
    }
  }

  lemma ListedIds(s: Live)
    requires Mirrored(s)
    ensures ListedBelow(s.open, s.nextId)
  {
    hide Lists, IdsBelow;
    MirroredList(s);
    forall q | q in s.open ensures q.tradeId < s.nextId { var j :| 0 <= j < |s.open| && s.open[j] == q; }
  }

  lemma HalfIsSmall(es: seq<Effect>, n: int, cut: nat, id: int)
    requires SmallIds(es, n) && LeftHalfClosed(Cut(es, cut), id)
    ensures id < n
  {
  }

  lemma StepTally(c: Config, s: Live, e: Step, id: int, bad: nat) returns (more: nat)
    requires Mirrored(s) && Tally(s.disk, id, bad) && (id >= s.nextId ==> bad == 0)
    ensures more == match e
      case Polled(_, _, _) => 0
      case Restarted(_, _) => 0
      case Crashed(b, now, r, cut, _, _) => Half(Cut(PassOf(c, s, b, now, r).effects, cut), id)
    ensures Tally(StepTo(c, s, e).disk, id, bad + more) && (id >= StepTo(c, s, e).nextId ==> bad + more == 0)
  {
    hide PassOf, Tally, TallyCuts, Clean, ApplyAll, LeftHalfClosed, Lists, IdsBelow, SmallIds, RowsListed, DistinctIds;
    MirroredList(s);
    more := 0;
    if !e.Restarted? {
      var p := PassOf(c, s, e.bar, e.now, e.reading);
      PollTally(c, s, e.bar, e.now, e.reading, id, bad);
      PollSmallIds(c, s, e.bar, e.now, e.reading);
      if e.Polled? {
        TallyAtEnd(s.disk, p.effects, id, bad);
      } else {
        more := Half(Cut(p.effects, e.cut), id);
        TallyAtCut(s.disk, p.effects, e.cut, id, bad);
        if more > 0 { HalfIsSmall(p.effects, p.nextId, e.cut, id); }
      }
    }
  }

  lemma TallyAtCut(d0: Disk, es: seq<Effect>, cut: nat, id: int, bad: nat)
    requires TallyCuts(d0, es, id, bad)
    ensures Tally(ApplyAll(d0, Cut(es, cut)), id, bad + Half(Cut(es, cut), id))
  {
    hide Tally, Half;
    var at := if cut <= |es| then cut else |es|;
    assert es[..at] == Cut(es, cut);
  }

  /** Over every run of polls, restarts and crashes in which no poll leaves a stale list: a trade has one close row
      for every crash that left it half closed, and one more once it is gone from the store. */
  lemma {:induction false} RunTally(c: Config, s: Live, steps: seq<Step>, id: int)
    requires Mirrored(s) && Tally(s.disk, id, 0) && AllReload(c, s, steps) && Smooth(c, s, steps)
    ensures var f := RunSteps(c, s, steps);
      && Mirrored(f) && Tally(f.disk, id, HalfCloses(c, s, steps, id))
      && (id >= f.nextId ==> HalfCloses(c, s, steps, id) == 0)
  {
    hide StepTo, Mirrored, Tally, AllReload, Smooth, Reloads, LeavesStaleList, PassOf;
    if steps != [] {
      var init, e := steps[..|steps| - 1], steps[|steps| - 1];
      ReloadInit(c, s, steps);
      SmoothInit(c, s, steps);
      RunTally(c, s, init, id);
      var l := RunSteps(c, s, init);
      StepMirrors(c, l, e);
      var more := StepTally(c, l, e, id, HalfCloses(c, s, init, id));
    }
  }

  /** So a trade is closed at most once over the run if and only if no crash left it half closed, or one did and it
      is still stored. */
  lemma ClosedOnceIff(c: Config, s: Live, steps: seq<Step>, id: int)
    requires Mirrored(s) && Tally(s.disk, id, 0) && AllReload(c, s, steps) && Smooth(c, s, steps)
    ensures var f, bad := RunSteps(c, s, steps), HalfCloses(c, s, steps, id);
      CloseCount(f.disk.ledger, id) <= 1 <==> bad == 0 || (bad == 1 && id in f.disk.positions)
  {
    hide RunSteps, HalfCloses, CloseCount, Mirrored, AllReload, Smooth;
    RunTally(c, s, steps, id);
  }

  /** With simulated fills every run is smooth. */
  lemma {:induction false} SimulatedIsSmooth(c: Config, s: Live, steps: seq<Step>)
    requires s.adapter.Simulated?
    ensures Smooth(c, s, steps) && RunSteps(c, s, steps).adapter == s.adapter
  {
    hide PassOf, LeavesStaleList;
    if steps != [] {
      var init, e := steps[..|steps| - 1], steps[|steps| - 1];
      SimulatedIsSmooth(c, s, init);
      var l := RunSteps(c, s, init);
      match e {
        case Polled(b, now, r) =>
          SimulatedStays(c, l, b, now, r);
          SimulatedIsNeverStale(c, l, b, now);
        case Restarted(_, _) =>
        case Crashed(b, now, r, cut, _, _) =>
          AdapterStaysSimulated(l.adapter, Cut(PassOf(c, l, b, now, r).effects, cut));
      }
      forall k {:trigger steps[k]} | 0 <= k < |steps| && steps[k].Polled?
        ensures !LeavesStaleList(c, RunSteps(c, s, steps[..k]), steps[k].bar, steps[k].now)
      {
        if k < |init| { assert init[..k] == steps[..k] && init[k] == steps[k]; } else { assert steps[..k] == init; }
      }
    }
  }

  lemma {:induction false} AdapterStaysSimulated(x: Adapter, es: seq<Effect>)
    requires x.Simulated?
    ensures AdapterAfter(x, es) == x
  {
    if es != [] { AdapterStaysSimulated(x, es[..|es| - 1]); }
  }

  /** Tables that agree, with one close row at most for each trade: nothing is half closed. */
  lemma AgreementTallies(d: Disk, id: int)
    requires TablesCoincide(d) && CloseCount(d.ledger, id) <= 1
    ensures Tally(d, id, 0)
  {
    UnclosedCountsNothing(d.ledger, id);
  }

  /** With simulated fills: from memory that lists the store and tables that coincide, over every run whose crashes
      spare the close row and the outcome after it, every trade has at most one close row, however many
      positions are open; crashes after the first save of a position do no harm to that. */
  lemma SimulatedClosesOnce(c: Config, s: Live, steps: seq<Step>, id: int)
    requires Mirrored(s) && TablesCoincide(s.disk) && CloseCount(s.disk.ledger, id) <= 1 && s.adapter.Simulated?
    requires AllReload(c, s, steps)
    requires HalfCloses(c, s, steps, id) == 0
    ensures CloseCount(RunSteps(c, s, steps).disk.ledger, id) <= 1
  {
    hide RunSteps, HalfCloses, CloseCount, Mirrored, AllReload, Smooth, TablesCoincide;
    SimulatedIsSmooth(c, s, steps);
    AgreementTallies(s.disk, id);
    ClosedOnceIff(c, s, steps, id);
  }

  // ---------------------------------------------------------------- a crash that closes a trade twice

  /** Every exit of a poll with simulated fills has such a crash: two statements into it, or three. */
  lemma EveryExitCanBeCut(c: Config, s: Live, b: Bar, now: int, r: Backtest.Reading, k: nat) returns (cut: nat)
    requires s.adapter.Simulated? && k < |s.open| && CheckExit(s.open[k], b, now).Some?
    ensures var es := PassOf(c, s, b, now, r).effects;
      cut + 1 <= |es| && LeftHalfClosed(es[..cut], s.open[k].tradeId)
        && LeftHalfClosed(es[..cut + 1], s.open[k].tradeId)
  {
    hide CheckExit, ManageTo, React, CloseOne, LeftHalfClosed;
    SimulatedNeverRaises(c, s, b, now, k);
    SimulatedNeverRaises(c, s, b, now, |s.open|);
    BookAfter(c, s, b, now, k);
    var p, q := ManageTo(c, Begin(s), b, now, k), ManageTo(c, Begin(s), b, now, k + 1);
    cut := |p.effects| + 2;
    assert p.book[k] == s.open[k];
    NextHandled(c, s, b, now, k, p, CloseOne(c, p, k, b, now));
    ExitStatements(c, p, k, b, now);
    Longer(c, Begin(s), b, now, k + 1, |s.open|);
    ReactLonger(c, Manage(c, s, b, now), r, b, now);
    var es := PassOf(c, s, b, now, r).effects;
    assert q.effects <= es;
    assert es[..cut] == q.effects[..cut] && es[..cut + 1] == q.effects[..cut + 1];
  }

  lemma ExitStatements(c: Config, p: Pass, k: nat, b: Bar, now: int)
    requires k < |p.book| && p.adapter.Simulated?
    ensures var es, cut, id := CloseOne(c, p, k, b, now).effects, |p.effects| + 2, p.book[k].tradeId;
      cut + 1 <= |es| && LeftHalfClosed(es[..cut], id) && LeftHalfClosed(es[..cut + 1], id)
  {
    hide ClosePnl, RMultiple, SlippagePips, Resolve;
  }

  lemma {:induction false} Longer(c: Config, s: Pass, b: Bar, now: int, k: nat, n: nat)
    requires k <= n <= |s.book|
    ensures ManageTo(c, s, b, now, k).effects <= ManageTo(c, s, b, now, n).effects
  {
    hide CheckExit, CloseOne, WithExcursion;
    if k < n {
      Longer(c, s, b, now, k, n - 1);
      CloseLonger(c, ManageTo(c, s, b, now, n - 1), n - 1, b, now);
    }
  }

  lemma CloseLonger(c: Config, p: Pass, k: nat, b: Bar, now: int)
    requires k < |p.book|
    ensures p.effects <= CloseOne(c, p, k, b, now).effects
  {
    hide CloseOrder, ClosePnl, Submit, CloseEffects;
  }

  lemma ReactLonger(c: Config, m: Pass, r: Backtest.Reading, b: Bar, now: int)
    ensures m.effects <= React(c, m, r, b, now).effects
  {
    hide GateDecision, OpenOrder, Submit, SignalOf, MayEnter;
    var v := r.verdict;
    if !m.raised && (v.Taken? || v.TurnedDown?) {
      var q := Publish(m, SignalOf(m.nextId, now, v));
      if MayEnter(c, q.equity, |q.book|, v) { EnterLonger(c, q, v, r, b, now, m.nextId); }
    }
  }

  lemma EnterLonger(c: Config, p: Pass, v: Rules.Verdict, r: Backtest.Reading, b: Bar, now: int, signalId: int)
    requires MayEnter(c, p.equity, |p.book|, v)
    ensures p.effects <= Enter(c, p, v, r.fv, b, now, signalId).effects
  {
    hide GateDecision, OpenOrder, Submit, MayEnter;
  }

  /** The reaction writes no close row. */
  lemma ReactCloses(c: Config, m: Pass, r: Backtest.Reading, b: Bar, now: int, i: nat)
    requires i < |React(c, m, r, b, now).effects| && IsCloseRow(React(c, m, r, b, now).effects[i])
    ensures i < |m.effects| && m.effects[i] == React(c, m, r, b, now).effects[i]
  {
    hide GateDecision, OpenOrder, Submit, SignalOf, MayEnter;
    var v := r.verdict;
    if !m.raised && (v.Taken? || v.TurnedDown?) {
      var q := Publish(m, SignalOf(m.nextId, now, v));
      if MayEnter(c, q.equity, |q.book|, v) { EnterCloses(c, q, v, r, b, now, m.nextId, i); }
    }
  }

  lemma EnterCloses(c: Config, p: Pass, v: Rules.Verdict, r: Backtest.Reading, b: Bar, now: int, signalId: int, i: nat)
    requires MayEnter(c, p.equity, |p.book|, v)
    requires var q := Enter(c, p, v, r.fv, b, now, signalId); i < |q.effects| && IsCloseRow(q.effects[i])
    ensures i < |p.effects| && p.effects[i] == Enter(c, p, v, r.fv, b, now, signalId).effects[i]
  {
    hide GateDecision, OpenOrder, Submit, MayEnter;
  }

  /** A position that comes up for exit in a poll with simulated fills is gone from the store after it. */
  lemma ExitLeavesStore(c: Config, s: Live, b: Bar, now: int, r: Backtest.Reading, k: nat)
    requires Mirrored(s) && s.adapter.Simulated? && k < |s.open| && CheckExit(s.open[k], b, now).Some?
    ensures s.open[k].tradeId !in After(s, PassOf(c, s, b, now, r)).disk.positions
  {
    hide ManageTo, CheckExit, ApplyAll, HasClose, HasOpen, Lists, IdsBelow, DistinctIds, RowsListed, SignalOf,
      MayEnter, Enter, NothingClosed, Handled;
    MirroredList(s);
    SimulatedIsNeverStale(c, s, b, now);
    ManagePasses(c, s, b, now, |s.open|);
    IdsAmong(s.open, b, now, |s.open|, s.open[k].tradeId);
    CounterOfManage(c, s, b, now);
    HandledAll(c, s, b, now);
    var m, v := Manage(c, s, b, now), r.verdict;
    assert s.open[k].tradeId !in ApplyAll(s.disk, m.effects).positions;
    if v.Taken? || v.TurnedDown? {
      var row := SignalOf(m.nextId, now, v);
      var q := Publish(m, row);
      OneMore(s.disk, [], m.effects, Published(row));
      if MayEnter(c, q.equity, |q.book|, v) {
        EntrySavesAnother(c, s.disk, q, v, r, b, now, m.nextId, s.open[k].tradeId);
      }
    }
  }

  lemma EntrySavesAnother(c: Config, d0: Disk, p: Pass, v: Rules.Verdict, r: Backtest.Reading, b: Bar, now: int,
    signalId: int, id: int)
    requires MayEnter(c, p.equity, |p.book|, v) && id < p.nextId && id !in ApplyAll(d0, p.effects).positions
    ensures id !in ApplyAll(d0, Enter(c, p, v, r.fv, b, now, signalId).effects).positions
  {
    hide GateDecision, OpenOrder, ApplyAll, Submit;
    var size := GateDecision(c, p.equity, |p.book|, v).sizeUnits;
    var order := OpenOrder(c, v, r.fv, b, now, size, p.nextId);
    var answer := Submit(p.adapter, order).1;
    var e := Sent(order, p.nextId + 1, answer);
    OneMore(d0, [], p.effects, e);
    if answer.Ok? {
      var pos := NewPosition(c, v, answer.value, signalId, p.nextId + 1, now);
      var row, sent := OpenRow(c, pos, now, answer.value), p.effects + [e];
      OneMore(d0, [], sent, Saved(pos));
      OneMore(d0, [], sent + [Saved(pos)], Recorded(row));
      assert sent + [Saved(pos)] + [Recorded(row)] == p.effects + [e, Saved(pos), Recorded(row)];
    }
  }

  /** Any number of positions, simulated fills: a crash that leaves a trade half closed, a reload, and a poll on
      which its position comes up for exit: the trade has two close rows. */
  lemma CrashCanCloseTwice(c: Config, s: Live, b: Bar, now: int, r: Backtest.Reading, cut: nat,
    reloaded: seq<LivePosition>, equity: real, b2: Bar, now2: int, r2: Backtest.Reading, k: nat)
    requires Mirrored(s) && TablesCoincide(s.disk) && s.adapter.Simulated? && k < |reloaded|
    requires CloseCount(s.disk.ledger, reloaded[k].tradeId) <= 1
    requires LeftHalfClosed(Cut(PassOf(c, s, b, now, r).effects, cut), reloaded[k].tradeId)
    requires Lists(reloaded, ApplyAll(s.disk, Cut(PassOf(c, s, b, now, r).effects, cut)).positions)
    requires CheckExit(reloaded[k], b2, now2).Some?
    ensures var run := [Crashed(b, now, r, cut, reloaded, equity), Polled(b2, now2, r2)];
      CloseCount(RunSteps(c, s, run).disk.ledger, reloaded[k].tradeId) == 2
  {
    hide PassOf, CheckExit, CloseCount, Lists, IdsBelow, LeftHalfClosed, ApplyAll, LeavesStaleList, TablesCoincide;
    var first, second, id := Crashed(b, now, r, cut, reloaded, equity), Polled(b2, now2, r2), reloaded[k].tradeId;
    var run := [first, second];
    assert run[..1] == [first] && [first][..0] == [];
    var t := StepTo(c, s, first);
    assert RunSteps(c, s, [first]) == t;
    AgreementTallies(s.disk, id);
    AdapterStaysSimulated(s.adapter, Cut(PassOf(c, s, b, now, r).effects, cut));
    StepMirrors(c, s, first);
    var one := StepTally(c, s, first, id, 0);
    var none := StepTally(c, t, second, id, one);
    ExitLeavesStore(c, t, b2, now2, r2, k);
  }
}

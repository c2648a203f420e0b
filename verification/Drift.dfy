/** How far the tables can drift apart over any run: by crashes and stale lists alone. */
module Drift {
  import opened Prelude
  import opened Bars
  import opened Execution
  import opened Records
  import opened Stores
  import opened LiveLoop
  import opened CrashSafety
  import opened Tickets
  import opened TableAgreement
  import opened PassTables
  import opened CrashCuts
  import opened Recovery
  import Backtest
  import Rules

  ghost predicate StraysWithin(x: set<int>, d: Disk) {
    forall id :: Stray(d, id) ==> id in x
  }

  ghost predicate ListedWithin(x: set<int>, open: seq<LivePosition>, ledger: seq<LedgerEntry>) {
    forall q :: q in open ==> q.tradeId in x || OpenInLedger(ledger, q.tradeId)
  }

  /** Only trades of x are stored, or listed, without being open in the ledger. */
  ghost predicate Loose(s: Live, x: set<int>) {
    && DistinctIds(s.open) && ListedBelow(s.open, s.nextId) && IdsBelow(s.disk, s.nextId)
    && StraysWithin(x, s.disk) && ListedWithin(x, s.open, s.disk.ledger)
  }

  /** At every statement boundary at most one trade outside x is stored without being open in the ledger. */
  ghost predicate Throughout(x: set<int>, d: Disk, es: seq<Effect>) {
    forall cut :: 0 <= cut <= |es| ==> exists y :: StraysWithin(x + {y}, ApplyAll(d, es[..cut]))
  }

  // ---------------------------------------------------------------- every statement boundary

  /** A statement that saves or records at most this trade. */
  predicate Touches(e: Effect, id: int) {
    (e.Saved? ==> e.position.tradeId == id) && (e.Recorded? ==> e.entry.tradeId == id)
  }

  lemma TouchedOnly(x: set<int>, d: Disk, e: Effect, id: int)
    requires StraysWithin(x + {id}, d) && Touches(e, id)
    ensures StraysWithin(x + {id}, Apply(d, e))
  {
    hide HasOpen, HasClose;
    if e.Recorded? { LedgerGrows(d.ledger, e.entry); }
    forall i | Stray(Apply(d, e), i) ensures i in x + {id} {
      if i != id { assert Stray(d, i); }
    }
  }

  lemma {:induction false} ExtendBy(x: set<int>, d: Disk, es: seq<Effect>, more: seq<Effect>, id: int)
    requires Throughout(x, d, es) && StraysWithin(x + {id}, ApplyAll(d, es))
    requires forall i :: 0 <= i < |more| ==> Touches(more[i], id)
    ensures Throughout(x, d, es + more) && StraysWithin(x + {id}, ApplyAll(d, es + more))
  {
    hide StraysWithin, ApplyAll, Apply, Touches;
    if more == [] {
      assert es + more == es;
    } else {
      var init, e, all := more[..|more| - 1], more[|more| - 1], es + more;
      ExtendBy(x, d, es, init, id);
      assert es + init + [e] == all;
      OneMore(d, [], es + init, e);
      TouchedOnly(x, ApplyAll(d, es + init), e, id);
      forall cut | 0 <= cut <= |all| ensures exists y :: StraysWithin(x + {y}, ApplyAll(d, all[..cut])) {
        if cut <= |es + init| { assert all[..cut] == (es + init)[..cut]; } else { assert all[..cut] == all; }
      }
    }
  }

  lemma Wider(x: set<int>, d: Disk, id: int)
    requires StraysWithin(x, d)
    ensures StraysWithin(x + {id}, d)
  {
  }

  lemma NothingDone(x: set<int>, d: Disk)
    requires StraysWithin(x, d)
    ensures Throughout(x, d, [])
  {
    Wider(x, d, 0);
  }

  // ---------------------------------------------------------------- the management pass

  lemma BoundaryWithin(s: Live, d: Disk, x: set<int>, b: Bar, now: int, m: nat)
    requires Loose(s, x) && m <= |s.open| && TablesAfter(s.disk, d, s.open, b, now, m)
    ensures StraysWithin(x, d)
  {
    hide HasClose, HasOpen, DistinctIds, ListedBelow, IdsBelow, CheckExit;
    forall id | Stray(d, id) ensures id in x {
      IdsAmong(s.open, b, now, m, id);
      if id in s.disk.positions {
        assert Stray(s.disk, id);
      } else {
        var j :| 0 <= j < m && s.open[j].tradeId == id && CheckExit(s.open[j], b, now).None?;
        assert s.open[j] in s.open;
      }
    }
  }

  lemma CloseTouches(c: Config, p: LivePosition, now: int, fill: Fill, e: Effect)
    requires e.Sent?
    ensures forall i :: 0 <= i < 4 ==> Touches(([e] + CloseEffects(c, p, now, fill))[i], p.tradeId)
  {
    hide ClosePnl, RMultiple;
  }

  lemma CloseThroughout(c: Config, x: set<int>, d: Disk, p: Pass, k: nat, b: Bar, now: int)
    requires k < |p.book| && Throughout(x, d, p.effects) && StraysWithin(x, ApplyAll(d, p.effects))
    ensures Throughout(x, d, CloseOne(c, p, k, b, now).effects)
  {
    hide Throughout, StraysWithin, ApplyAll, Submit, ClosePnl, CloseEffects, CloseOrder;
    var pos := p.book[k];
    var order := CloseOrder(c, pos, b, now, p.nextId);
    var answer := Submit(p.adapter, order).1;
    var e := Sent(order, pos.tradeId, answer);
    Wider(x, ApplyAll(d, p.effects), pos.tradeId);
    ExtendBy(x, d, p.effects, [e], pos.tradeId);
    if answer.Ok? {
      CloseTouches(c, pos, now, answer.value, e);
      var more := [e] + CloseEffects(c, pos, now, answer.value);
      assert |more| == 4 by { FourStatements(c, pos, now, answer.value, e); }
      ExtendBy(x, d, p.effects, more, pos.tradeId);
      assert p.effects + more == p.effects + [e] + CloseEffects(c, pos, now, answer.value);
    }
  }

  lemma FourStatements(c: Config, p: LivePosition, now: int, fill: Fill, e: Effect)
    ensures |[e] + CloseEffects(c, p, now, fill)| == 4
  {
  }

  lemma {:induction false} ManageThroughout(c: Config, s: Live, x: set<int>, b: Bar, now: int, k: nat)
    requires Loose(s, x) && k <= |s.open|
    ensures Throughout(x, s.disk, ManageTo(c, Begin(s), b, now, k).effects)
  {
    hide Throughout, StraysWithin, ApplyAll, CloseOne, CheckExit, WithExcursion, DistinctIds, ListedBelow, IdsBelow,
      TablesAfter, RowsListed, ListedWithin;
    if k == 0 {
      NothingDone(x, s.disk);
    } else {
      ManageThroughout(c, s, x, b, now, k - 1);
      ManagePasses(c, s, b, now, k - 1);
      var p := ManageTo(c, Begin(s), b, now, k - 1);
      if !p.raised {
        BoundaryWithin(s, ApplyAll(s.disk, p.effects), x, b, now, k - 1);
        if CheckExit(p.book[k - 1], b, now).None? {
          var u := WithExcursion(p.book[k - 1], b);
          Wider(x, ApplyAll(s.disk, p.effects), u.tradeId);
          ExtendBy(x, s.disk, p.effects, [Saved(u)], u.tradeId);
        } else {
          CloseThroughout(c, x, s.disk, p, k - 1, b, now);
        }
      }
    }
  }

  /** The trades closed in a pass that is then stopped by a refusal: they stay on the list. */
  function StaleIds(c: Config, s: Live, b: Bar, now: int): set<int> {
    if Manage(c, s, b, now).raised then ExitIds(s.open, b, now, Handled(c, s, b, now, |s.open|)) else {}
  }

  lemma ManageLoose(c: Config, s: Live, x: set<int>, b: Bar, now: int)
    requires Loose(s, x)
    ensures var p := Manage(c, s, b, now); Loose(After(s, p), x + StaleIds(c, s, b, now))
  {
    hide ManageTo, Manage, ApplyAll, HasClose, HasOpen, CheckExit, DistinctIds, IdsBelow, RowsListed, Handled,
      StraysWithin;
    var p, m, y := Manage(c, s, b, now), Handled(c, s, b, now, |s.open|), x + StaleIds(c, s, b, now);
    ManageTables(c, s, b, now);
    CounterOfManage(c, s, b, now);
    ListIds(s);
    ManageIds(c, s, b, now);
    IdsStayBelow(s.disk, p.effects, p.nextId);
    BoundaryWithin(s, ApplyAll(s.disk, p.effects), x, b, now, m);
    MoreWithin(x, y, ApplyAll(s.disk, p.effects));
    forall q | q in p.book
      ensures q.tradeId < p.nextId && (q.tradeId in y || OpenInLedger(ApplyAll(s.disk, p.effects).ledger, q.tradeId))
    {
      var j := ListAfter(c, s, b, now, q);
      assert s.open[j] in s.open;
      if !p.raised { NotClosed(c, s, b, now, m, j); }
    }
  }

  lemma MoreWithin(x: set<int>, y: set<int>, d: Disk)
    requires StraysWithin(x, d) && x <= y
    ensures StraysWithin(y, d)
  {
  }

  /** After a completed pass no position without an exit is among the closed. */
  lemma NotClosed(c: Config, s: Live, b: Bar, now: int, m: nat, j: nat)
    requires DistinctIds(s.open) && m <= |s.open| && j < |s.open| && CheckExit(s.open[j], b, now).None?
    ensures s.open[j].tradeId !in ExitIds(s.open, b, now, m)
  {
    hide CheckExit, DistinctIds;
    IdsAmong(s.open, b, now, m, s.open[j].tradeId);
    if s.open[j].tradeId in ExitIds(s.open, b, now, m) {
      var i :| 0 <= i < m && s.open[i].tradeId == s.open[j].tradeId && CheckExit(s.open[i], b, now).Some?;
      SameIndex(s.open, i, j);
    }
  }

  // ---------------------------------------------------------------- a whole poll

  ghost predicate LooseDuring(s: Live, x: set<int>, p: Pass) {
    Loose(After(s, p), x) && Throughout(x, s.disk, p.effects)
  }

  lemma PublishLoose(s: Live, x: set<int>, p: Pass, row: SignalRow)
    requires LooseDuring(s, x, p)
    ensures LooseDuring(s, x, Publish(p, row))
  {
    hide Throughout, ApplyAll, DistinctIds, OpenInLedger;
    OneMore(s.disk, [], p.effects, Published(row));
    Wider(x, ApplyAll(s.disk, p.effects), 0);
    ExtendBy(x, s.disk, p.effects, [Published(row)], 0);
  }

  /** One more stored, listed and open position leaves everything else as it was. */
  lemma OneMoreLoose(s: Live, x: set<int>, p: LivePosition, row: LedgerEntry, t: Live)
    requires Loose(s, x) && p.tradeId == s.nextId + 1 == row.tradeId && row.event.Opened?
    requires t.open == s.open + [p] && t.nextId == s.nextId + 2
    requires t.disk.positions == s.disk.positions[p.tradeId := p] && t.disk.ledger == s.disk.ledger + [row]
    ensures Loose(t, x)
  {
    hide HasOpen;
    LedgerGrows(s.disk.ledger, row);
    assert !HasClose(s.disk.ledger, p.tradeId);
    forall i | 0 <= i < |s.open| ensures s.open[i].tradeId != p.tradeId { assert s.open[i] in s.open; }
    assert forall q :: q in t.open <==> q in s.open || q == p;
    forall id | Stray(t.disk, id) ensures id in x {
      assert id != p.tradeId;
      assert Stray(s.disk, id);
    }
  }

  lemma EnterLoose(c: Config, s: Live, x: set<int>, p: Pass, v: Rules.Verdict, r: Backtest.Reading, b: Bar, now: int,
    signalId: int)
    requires MayEnter(c, p.equity, |p.book|, v) && LooseDuring(s, x, p)
    ensures LooseDuring(s, x, Enter(c, p, v, r.fv, b, now, signalId))
  {
    hide GateDecision, OpenOrder, ApplyAll, Submit, Throughout, Loose, StraysWithin;
    var q := Enter(c, p, v, r.fv, b, now, signalId);
    var size, id := GateDecision(c, p.equity, |p.book|, v).sizeUnits, p.nextId + 1;
    var order := OpenOrder(c, v, r.fv, b, now, size, p.nextId);
    var answer := Submit(p.adapter, order).1;
    var e := Sent(order, id, answer);
    OneMore(s.disk, [], p.effects, e);
    StraysOf(After(s, p), x);
    Wider(x, ApplyAll(s.disk, p.effects), id);
    ExtendBy(x, s.disk, p.effects, [e], id);
    if answer.Err? {
      LaterCounter(After(s, p), x, After(s, q));
    } else {
      var pos := NewPosition(c, v, answer.value, signalId, id, now);
      var row, sent := OpenRow(c, pos, now, answer.value), p.effects + [e];
      OneMore(s.disk, [], sent, Saved(pos));
      OneMore(s.disk, [], sent + [Saved(pos)], Recorded(row));
      ExtendBy(x, s.disk, p.effects, [e, Saved(pos), Recorded(row)], id);
      assert sent + [Saved(pos)] + [Recorded(row)] == p.effects + [e, Saved(pos), Recorded(row)];
      OneMoreLoose(After(s, p), x, pos, row, After(s, q));
    }
  }

  lemma StraysOf(s: Live, x: set<int>)
    requires Loose(s, x)
    ensures StraysWithin(x, s.disk)
  {
  }

  lemma LaterCounter(s: Live, x: set<int>, t: Live)
    requires Loose(s, x) && t.open == s.open && t.disk == s.disk && s.nextId <= t.nextId
    ensures Loose(t, x)
  {
  }

  /** One poll, any adapter, any memory: at every statement boundary at most one trade outside x is stored without
      being open in the ledger, and afterwards only those of x and those just closed in a pass that was then
      stopped. */
  lemma PollDrift(c: Config, s: Live, x: set<int>, b: Bar, now: int, r: Backtest.Reading)
    requires Loose(s, x)
    ensures var p := PassOf(c, s, b, now, r);
      Throughout(x, s.disk, p.effects) && Loose(After(s, p), x + StaleIds(c, s, b, now))
  {
    hide ManageTo, Throughout, Loose, MayEnter, Enter, SignalOf, ExitIds;
    ManageThroughout(c, s, x, b, now, |s.open|);
    ManageLoose(c, s, x, b, now);
    var m, v := Manage(c, s, b, now), r.verdict;
    if !m.raised {
      assert x + StaleIds(c, s, b, now) == x;
      if v.Raised? { SameLive(s, x, m); }
      if v.Taken? || v.TurnedDown? {
        var row := SignalOf(m.nextId, now, v);
        PublishLoose(s, x, m, row);
        var q := Publish(m, row);
        if MayEnter(c, q.equity, |q.book|, v) { EnterLoose(c, s, x, q, v, r, b, now, m.nextId); }
      }
    }
  }

  lemma SameLive(s: Live, x: set<int>, m: Pass)
    requires Loose(After(s, m), x)
    ensures Loose(After(s, m.(raised := true)), x)
  {
  }

  // ---------------------------------------------------------------- runs

  /** How many closes a pass makes before it is stopped by a refusal. */
  function StaleCloses(c: Config, s: Live, b: Bar, now: int): nat {
    if Manage(c, s, b, now).raised then Exits(s.open[..Handled(c, s, b, now, |s.open|)], b, now) else 0
  }

  lemma {:induction false} FewExitIds(open: seq<LivePosition>, b: Bar, now: int, k: nat)
    requires k <= |open|
    ensures |ExitIds(open, b, now, k)| <= Exits(open[..k], b, now)
  {
    hide CheckExit;
    if k > 0 {
      FewExitIds(open, b, now, k - 1);
      NextExit(open, b, now, k - 1);
      SizeOfUnion(ExitIds(open, b, now, k - 1), {open[k - 1].tradeId});
    }
  }

  /** Such closes are what leaves a stale list. */
  lemma StaleClosesLeaveStaleList(c: Config, s: Live, b: Bar, now: int)
    ensures StaleCloses(c, s, b, now) > 0 <==> LeavesStaleList(c, s, b, now)
  {
    hide ManageTo, NothingClosed, Exits, Handled;
    ClosesAreExits(c, s, b, now, |s.open|);
  }

  /** A poll that began with memory listing the store, any adapter, completed or raised: it ends with memory listing
      the store and no new difference between the tables if and only if it leaves no stale list. */
  lemma SettledIffNotStale(c: Config, s: Live, b: Bar, now: int, r: Backtest.Reading)
    requires Mirrored(s)
    ensures Settled(s, PassOf(c, s, b, now, r)) <==> !LeavesStaleList(c, s, b, now)
  {
    hide Settled, Manage, React, LeavesStaleList, Lists, IdsBelow;
    PollSettles(c, s, b, now, r);
    if LeavesStaleList(c, s, b, now) { StaleIsUnsettled(c, s, b, now, r); }
  }

  /** For a loop in step with its broker, in terms of the exits on the bar and the broker's next answers alone. */
  lemma SettledIffNotRefused(c: Config, s: Live, o: map<int, int>, b: Bar, now: int, r: Backtest.Reading)
    requires Mirrored(s) && InStep(s.open, s.adapter, o)
    ensures Settled(s, PassOf(c, s, b, now, r)) <==> !FillsThenRefuses(s.adapter, Exits(s.open, b, now))
  {
    hide Settled, PassOf, LeavesStaleList, Mirrored, FillsThenRefuses, InStep;
    SettledIffNotStale(c, s, b, now, r);
    StaleListIff(c, s, o, b, now);
  }

  lemma StaleIsUnsettled(c: Config, s: Live, b: Bar, now: int, r: Backtest.Reading)
    requires Mirrored(s) && LeavesStaleList(c, s, b, now)
    ensures !Settled(s, PassOf(c, s, b, now, r))
  {
    hide ManageTo, React, ApplyAll, HasClose, HasOpen, IdsBelow, DistinctIds, RowsListed, CheckExit, WithExcursion,
      NothingClosed, Exits, Handled;
    MirroredList(s);
    var p, m := Manage(c, s, b, now), Handled(c, s, b, now, |s.open|);
    StaleClosesLeaveStaleList(c, s, b, now);
    var j := ExitNumber(s.open, b, now, 0, m);
    ManagePasses(c, s, b, now, |s.open|);
    IdsAmong(s.open, b, now, m, s.open[j].tradeId);
    assert p.book[j] == s.open[j] && p.book[j] in p.book;
    assert s.open[j].tradeId !in ApplyAll(s.disk, p.effects).positions;
    RaisedReacts(c, p, r, b, now);
  }

  lemma {:induction false} ClosesAreExits(c: Config, s: Live, b: Bar, now: int, k: nat)
    requires k <= |s.open|
    ensures var p, m := ManageTo(c, Begin(s), b, now, k), Handled(c, s, b, now, k);
      && (forall j {:trigger p.book[j]} :: k <= j < |s.open| ==> p.book[j] == s.open[j])
      && (NothingClosed(p.effects) <==> Exits(s.open[..m], b, now) == 0)
      && (!p.raised ==> m == k)
  {
    hide CheckExit, CloseEffects, CloseOrder, ClosePnl, Submit, NothingClosed, WithExcursion;
    if k == 0 {
      NothingYet();
    } else {
      ClosesAreExits(c, s, b, now, k - 1);
      NextExit(s.open, b, now, k - 1);
      var p := ManageTo(c, Begin(s), b, now, k - 1);
      if !p.raised {
        if CheckExit(p.book[k - 1], b, now).None? {
          OneMoreRow(p.effects, Saved(WithExcursion(p.book[k - 1], b)));
        } else {
          var order := CloseOrder(c, p.book[k - 1], b, now, p.nextId);
          var answer := Submit(p.adapter, order).1;
          var e := Sent(order, p.book[k - 1].tradeId, answer);
          OneMoreRow(p.effects, e);
          if answer.Ok? { CloseRowAmong(c, p.book[k - 1], now, answer.value, p.effects, e); }
        }
      }
    }
  }

  /** What one step may add: a crash one trade, a stopped pass those it had closed, a restart none. */
  function MayAdd(c: Config, s: Live, e: Step): nat {
    match e
    case Polled(b, now, _) => StaleCloses(c, s, b, now)
    case Restarted(_, _) => 0
    case Crashed(_, _, _, _, _, _) => 1
  }

  function AllAdded(c: Config, s: Live, steps: seq<Step>): nat {
    if steps == [] then 0
    else
      var init := steps[..|steps| - 1];
      AllAdded(c, s, init) + MayAdd(c, RunSteps(c, s, init), steps[|steps| - 1])
  }

  /** Whoever restarts reloads what the store holds. */
  ghost predicate Reloads(c: Config, s: Live, e: Step) {
    match e
    case Polled(_, _, _) => true
    case Restarted(reloaded, _) => Lists(reloaded, s.disk.positions)
    case Crashed(_, _, _, _, reloaded, _) => Lists(reloaded, StepTo(c, s, e).disk.positions)
  }

  ghost predicate AllReload(c: Config, s: Live, steps: seq<Step>) {
    forall k {:trigger steps[k]} :: 0 <= k < |steps| ==> Reloads(c, RunSteps(c, s, steps[..k]), steps[k])
  }

  lemma ReloadInit(c: Config, s: Live, steps: seq<Step>)
    requires steps != [] && AllReload(c, s, steps)
    ensures AllReload(c, s, steps[..|steps| - 1])
    ensures Reloads(c, RunSteps(c, s, steps[..|steps| - 1]), steps[|steps| - 1])
  {
    hide RunSteps, Reloads;
    var init := steps[..|steps| - 1];
    forall k {:trigger init[k]} | 0 <= k < |init| ensures Reloads(c, RunSteps(c, s, init[..k]), init[k]) {
      assert init[..k] == steps[..k] && init[k] == steps[k];
    }
  }

  lemma ReloadIsLoose(s: Live, x: set<int>, reloaded: seq<LivePosition>)
    requires StraysWithin(x, s.disk) && IdsBelow(s.disk, s.nextId) && Lists(reloaded, s.disk.positions)
    requires s.open == reloaded
    ensures Loose(s, x)
  {
    hide OpenInLedger;
    forall q | q in reloaded ensures q.tradeId in x || OpenInLedger(s.disk.ledger, q.tradeId) {
      assert Stray(s.disk, q.tradeId) || OpenInLedger(s.disk.ledger, q.tradeId);
    }
  }

  lemma CrashIds(c: Config, s: Live, b: Bar, now: int, r: Backtest.Reading, cut: nat)
    requires ListedBelow(s.open, s.nextId) && IdsBelow(s.disk, s.nextId)
    ensures var p := PassOf(c, s, b, now, r); IdsBelow(ApplyAll(s.disk, Cut(p.effects, cut)), p.nextId)
  {
    hide PassOf, IdsBelow, SmallIds, ApplyAll;
    var p := PassOf(c, s, b, now, r);
    ListIds(s);
    PollSmallIds(c, s, b, now, r);
    MoreIds(s.disk, s.nextId, p.nextId);
    FewerSmallIds(p.effects, cut, p.nextId);
    IdsStayBelow(s.disk, Cut(p.effects, cut), p.nextId);
  }

  lemma FewerSmallIds(es: seq<Effect>, cut: nat, n: int)
    requires SmallIds(es, n)
    ensures SmallIds(Cut(es, cut), n)
  {
  }

  lemma CutWithin(x: set<int>, d: Disk, es: seq<Effect>, cut: nat) returns (y: int)
    requires Throughout(x, d, es)
    ensures StraysWithin(x + {y}, ApplyAll(d, Cut(es, cut)))
  {
    hide StraysWithin, ApplyAll;
    var at := if cut <= |es| then cut else |es|;
    assert es[..at] == Cut(es, cut);
    y :| StraysWithin(x + {y}, ApplyAll(d, es[..at]));
  }

  lemma StepDrift(c: Config, s: Live, e: Step, x0: set<int>) returns (x: set<int>)
    requires Loose(s, x0) && Reloads(c, s, e)
    ensures Loose(StepTo(c, s, e), x) && |x| <= |x0| + MayAdd(c, s, e)
  {
    hide PassOf, Throughout, StraysWithin, ListedWithin, Lists, IdsBelow, DistinctIds, ListedBelow, ApplyAll, Manage,
      Handled, Exits, ExitIds;
    match e {
      case Polled(b, now, r) =>
        PollDrift(c, s, x0, b, now, r);
        x := x0 + StaleIds(c, s, b, now);
        FewExitIds(s.open, b, now, Handled(c, s, b, now, |s.open|));
        SizeOfUnion(x0, StaleIds(c, s, b, now));
      case Restarted(reloaded, equity) =>
        x := x0;
        ReloadIsLoose(StepTo(c, s, e), x, reloaded);
      case Crashed(b, now, r, cut, reloaded, equity) =>
        PollDrift(c, s, x0, b, now, r);
        var y := CutWithin(x0, s.disk, PassOf(c, s, b, now, r).effects, cut);
        x := x0 + {y};
        CrashIds(c, s, b, now, r, cut);
        ReloadIsLoose(StepTo(c, s, e), x, reloaded);
        SizeOfUnion(x0, {y});
    }
  }

  lemma SizeOfUnion(x: set<int>, y: set<int>)
    ensures |x + y| <= |x| + |y|
  {
    assert x + y == x + (y - x);
    assert |y - x| <= |y|;
  }

  /** Over every run of polls, crashes and restarts, with any adapter and any refusals: the tables differ at the
      end by at most one trade more than at the start for each crash and for each close of a pass that was then
      stopped by a refusal; and at every statement boundary of a further poll by at most one more. */
  lemma {:induction false} RunDrift(c: Config, s: Live, steps: seq<Step>, x0: set<int>) returns (x: set<int>)
    requires Loose(s, x0) && AllReload(c, s, steps)
    ensures var f := RunSteps(c, s, steps);
      Loose(f, x) && forall b, now, r :: Throughout(x, f.disk, PassOf(c, f, b, now, r).effects)
    ensures |x| <= |x0| + AllAdded(c, s, steps)
  {
    hide StepTo, Loose, Reloads, AllReload, MayAdd, PassOf, Throughout;
    if steps == [] {
      x := x0;
    } else {
      ReloadInit(c, s, steps);
      var y := RunDrift(c, s, steps[..|steps| - 1], x0);
      x := StepDrift(c, RunSteps(c, s, steps[..|steps| - 1]), steps[|steps| - 1], y);
    }
    var f := RunSteps(c, s, steps);
    forall b, now, r ensures Throughout(x, f.disk, PassOf(c, f, b, now, r).effects) {
      PollDrift(c, f, x, b, now, r);
    }
  }

  /** Memory that lists the store, and tables that coincide: nothing is loose. */
  lemma AgreementIsTight(s: Live)
    requires Mirrored(s) && TablesCoincide(s.disk)
    ensures Loose(s, {})
  {
    hide OpenInLedger;
    MirroredList(s);
    forall q | q in s.open ensures q.tradeId < s.nextId && OpenInLedger(s.disk.ledger, q.tradeId) {
      var j :| 0 <= j < |s.open| && s.open[j] == q;
    }
  }

  /** So from a clean start at most as many trades are stored without being open in the ledger as the run had crashes
      and closes of passes then stopped; without any of these the tables coincide. */
  lemma DriftFromCleanStart(c: Config, s: Live, steps: seq<Step>) returns (x: set<int>)
    requires Mirrored(s) && TablesCoincide(s.disk) && AllReload(c, s, steps)
    ensures var f := RunSteps(c, s, steps); StraysWithin(x, f.disk) && |x| <= AllAdded(c, s, steps)
    ensures AllAdded(c, s, steps) == 0 ==> TablesCoincide(RunSteps(c, s, steps).disk)
  {
    hide Mirrored, RunSteps, AllReload, AllAdded, OpenInLedger, PassOf, SafeThroughout;
    AgreementIsTight(s);
    RunIsCrashSafe(c, s, steps);
    x := RunDrift(c, s, steps, {});
    var f := RunSteps(c, s, steps);
    StraysOf(f, x);
    if x == {} {
      forall id ensures id in f.disk.positions <==> OpenInLedger(f.disk.ledger, id) { assert !Stray(f.disk, id); }
    }
  }
}

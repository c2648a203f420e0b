/** Live positions close on the first poll that gives a reason. */
module LiveExits {
  import opened Prelude
  import opened Bars
  import opened Execution
  import opened Records
  import opened Stores
  import opened LiveLoop
  import opened CrashSafety
  import opened CrashCuts
  import opened PassTables
  import CloseRows
  import CloseTimes
  import Drift
  import Exits
  import TableAgreement
  import Tickets
  import Backtest

  /** The bar touches stop or target, or the clock has reached the time stop. */
  predicate Due(p: LivePosition, b: Bar, now: int) {
    Exits.Due(p.direction, p.stopPrice, p.targetPrice, p.timeStopAt, now, b)
  }

  /** The trigger: a level touched, the stop before the target where a bar touches both, or else the close. */
  lemma ExitIffDue(p: LivePosition, b: Bar, now: int)
    ensures CheckExit(p, b, now).Some? <==> Due(p, b, now)
    ensures var stopped := if p.direction == Long then b.low <= p.stopPrice else b.high >= p.stopPrice;
      var reached := if p.direction == Long then b.high >= p.targetPrice else b.low <= p.targetPrice;
      var price := if stopped then p.stopPrice else if reached then p.targetPrice else b.close;
      CheckExit(p, b, now).Some? ==> CheckExit(p, b, now).value == price
  {
  }

  predicate Listed(open: seq<LivePosition>, id: int) {
    exists q :: q in open && q.tradeId == id
  }

  /** The same position, its excursions aside. */
  predicate SamePosition(p: LivePosition, q: LivePosition) {
    q == p.(mae := q.mae, mfe := q.mfe)
  }

  lemma SameWithExcursion(p: LivePosition, b: Bar)
    ensures SamePosition(p, WithExcursion(p, b))
  {
  }

  // ---------------------------------------------------------------- one poll

  /** What the reaction may append: positions under new ids. */
  ghost predicate Appends(m: Pass, q: Pass) {
    m.book <= q.book && forall i :: |m.book| <= i < |q.book| ==> q.book[i].tradeId > m.nextId
  }

  lemma ReactAppends(c: Config, m: Pass, r: Backtest.Reading, b: Bar, now: int)
    ensures Appends(m, React(c, m, r, b, now))
  {
    hide GateDecision, OpenOrder, Submit, SignalOf;
  }

  lemma IdsOfPass(c: Config, s: Live, b: Bar, now: int, r: Backtest.Reading, id: int)
    requires id < s.nextId
    ensures var m, q := Manage(c, s, b, now), PassOf(c, s, b, now, r);
      Listed(q.book, id) <==> Listed(m.book, id)
    ensures forall p :: p in PassOf(c, s, b, now, r).book && p.tradeId == id ==> p in Manage(c, s, b, now).book
  {
    hide Manage, React;
    var m, q := Manage(c, s, b, now), PassOf(c, s, b, now, r);
    ReactAppends(c, m, r, b, now);
    TableAgreement.CounterOfManage(c, s, b, now);
    forall p | p in q.book && p.tradeId == id ensures p in m.book {
      var i :| 0 <= i < |q.book| && q.book[i] == p;
      if i < |m.book| { assert m.book[i] == p; }
    }
    forall p | p in m.book && p.tradeId == id ensures p in q.book {
      var i :| 0 <= i < |m.book| && m.book[i] == p;
      assert q.book[i] == p;
    }
  }

  /** One poll, any adapter and any memory of distinct trades: unless a refused close stops the pass, a listed position
      leaves the list if and only if the bar touches its stop or target or the clock has reached its time stop; one
      that stays is unchanged but for its excursions. */
  lemma LeavesListIffDue(c: Config, s: Live, b: Bar, now: int, r: Backtest.Reading, p: LivePosition)
    requires TableAgreement.DistinctIds(s.open) && p in s.open && p.tradeId < s.nextId
    requires !Manage(c, s, b, now).raised
    ensures var open := PassOf(c, s, b, now, r).book;
      && (Listed(open, p.tradeId) <==> !Due(p, b, now))
      && (!Due(p, b, now) ==> WithExcursion(p, b) in open)
      && forall q :: q in open && q.tradeId == p.tradeId ==> SamePosition(p, q)
  {
    hide CheckExit, WithExcursion, ManageTo, React, Due;
    IdsOfPass(c, s, b, now, r, p.tradeId);
    ManageKeeps(c, s, b, now, |s.open|);
    var kept := Manage(c, s, b, now).book;
    ExitIffDue(p, b, now);
    var i :| 0 <= i < |s.open| && s.open[i] == p;
    if !Due(p, b, now) {
      SameWithExcursion(p, b);
      assert WithExcursion(p, b) in kept;
      ReactAppends(c, Manage(c, s, b, now), r, b, now);
      InLonger(kept, PassOf(c, s, b, now, r).book, WithExcursion(p, b));
    }
    forall q | q in kept && q.tradeId == p.tradeId ensures SamePosition(p, q) && !Due(p, b, now) {
      KeptIsListed(s.open, b, now, kept, i, q);
    }
  }

  lemma InLonger(a: seq<LivePosition>, b: seq<LivePosition>, p: LivePosition)
    requires a <= b && p in a
    ensures p in b
  {
  }

  lemma KeptIsListed(open: seq<LivePosition>, b: Bar, now: int, kept: seq<LivePosition>, i: nat, q: LivePosition)
    requires TableAgreement.DistinctIds(open) && IsKept(open, b, now, |open|, kept) && i < |open|
    requires q in kept && q.tradeId == open[i].tradeId
    ensures SamePosition(open[i], q) && !Due(open[i], b, now)
  {
    hide CheckExit, WithExcursion, Due;
    var j :| 0 <= j < |open| && CheckExit(open[j], b, now).None? && q == WithExcursion(open[j], b);
    SameWithExcursion(open[j], b);
    assert j == i;
    ExitIffDue(open[i], b, now);
  }

  lemma UnlistedStays(c: Config, s: Live, b: Bar, now: int, r: Backtest.Reading, id: int)
    requires TableAgreement.DistinctIds(s.open) && !Listed(s.open, id) && id < s.nextId
    requires !Manage(c, s, b, now).raised
    ensures !Listed(PassOf(c, s, b, now, r).book, id)
  {
    hide CheckExit, WithExcursion, ManageTo, React;
    IdsOfPass(c, s, b, now, r, id);
    ManageKeeps(c, s, b, now, |s.open|);
    forall q | q in Manage(c, s, b, now).book ensures q.tradeId != id {
      var j :| 0 <= j < |s.open| && CheckExit(s.open[j], b, now).None? && q == WithExcursion(s.open[j], b);
      SameWithExcursion(s.open[j], b);
      assert s.open[j] in s.open;
    }
  }

  /** With simulated fills no close is refused, and the position gets its close row on the poll that takes it off the
      list and on no other. */
  lemma PollClosesDue(c: Config, s: Live, b: Bar, now: int, r: Backtest.Reading, p: LivePosition)
    requires Mirrored(s) && s.adapter.Simulated? && p in s.open
    ensures var t := StepTo(c, s, Polled(b, now, r));
      && (Listed(t.open, p.tradeId) <==> !Due(p, b, now))
      && (!Due(p, b, now) ==> WithExcursion(p, b) in t.open)
      && CloseRows.CloseCount(t.disk.ledger, p.tradeId) ==
        CloseRows.CloseCount(s.disk.ledger, p.tradeId) + if Due(p, b, now) then 1 else 0
  {
    hide CheckExit, Manage, Due, Lists, React, CloseRows.CloseCount, TableAgreement.IdsBelow, WithExcursion;
    MirroredList(s);
    Tickets.SimulatedIsNeverStale(c, s, b, now);
    var i :| 0 <= i < |s.open| && s.open[i] == p;
    LeavesListIffDue(c, s, b, now, r, p);
    CloseTimes.StepCloses(c, s, Polled(b, now, r), p.tradeId);
    ExitIffDue(p, b, now);
    assert forall j :: 0 <= j < |s.open| && s.open[j].tradeId == p.tradeId ==> j == i;
  }

  // ---------------------------------------------------------------- over a run

  /** No poll of the run gives a reason. */
  ghost predicate NeverDue(steps: seq<Step>, p: LivePosition) {
    forall i {:trigger steps[i]} :: 0 <= i < |steps| && steps[i].Polled? ==> !Due(p, steps[i].bar, steps[i].now)
  }

  ghost predicate NoCrash(steps: seq<Step>) {
    forall i :: 0 <= i < |steps| ==> !steps[i].Crashed?
  }

  /** Still there and untouched, with no close row since; or gone, with one. */
  ghost predicate Either(s: Live, f: Live, p: LivePosition, never: bool) {
    && (if never then exists q :: q in f.open && SamePosition(p, q) else !Listed(f.open, p.tradeId))
    && CloseRows.CloseCount(f.disk.ledger, p.tradeId) ==
      CloseRows.CloseCount(s.disk.ledger, p.tradeId) + if never then 0 else 1
  }

  lemma DueAlike(p: LivePosition, q: LivePosition, b: Bar, now: int)
    requires SamePosition(p, q)
    ensures (Due(p, b, now) <==> Due(q, b, now)) && p.tradeId == q.tradeId
    ensures SamePosition(p, WithExcursion(q, b))
  {
  }

  lemma PollGoesOn(c: Config, s: Live, l: Live, b: Bar, now: int, r: Backtest.Reading, p: LivePosition, never: bool)
    requires Mirrored(l) && l.adapter.Simulated? && Either(s, l, p, never) && p.tradeId < l.nextId
    ensures Either(s, StepTo(c, l, Polled(b, now, r)), p, never && !Due(p, b, now))
  {
    hide CheckExit, Manage, Due, Lists, React, CloseRows.CloseCount, TableAgreement.IdsBelow, WithExcursion;
    hide SamePosition;
    if never {
      var q :| q in l.open && SamePosition(p, q);
      DueAlike(p, q, b, now);
      PollClosesDue(c, l, b, now, r, q);
    } else {
      MirroredList(l);
      Tickets.SimulatedIsNeverStale(c, l, b, now);
      UnlistedStays(c, l, b, now, r, p.tradeId);
      CloseTimes.StepCloses(c, l, Polled(b, now, r), p.tradeId);
      forall j | 0 <= j < |l.open| ensures l.open[j].tradeId != p.tradeId { assert l.open[j] in l.open; }
    }
  }

  lemma RestartGoesOn(c: Config, s: Live, l: Live, e: Step, p: LivePosition, never: bool)
    requires Mirrored(l) && Either(s, l, p, never) && e.Restarted? && Lists(e.reloaded, l.disk.positions)
    ensures Either(s, StepTo(c, l, e), p, never)
  {
    hide CloseRows.CloseCount, TableAgreement.IdsBelow;
    assert forall q :: q in e.reloaded <==> q in l.open;
  }

  /** Over every run of polls and restarts with simulated fills, on any bars at any times: a listed position is still
      listed if and only if no poll since has touched its stop or target or come as late as its time stop, and it has
      then no further close row; otherwise it has exactly one. */
  lemma {:induction false} StaysIffNeverDue(c: Config, s: Live, steps: seq<Step>, p: LivePosition)
    requires Mirrored(s) && s.adapter.Simulated? && Drift.AllReload(c, s, steps) && NoCrash(steps) && p in s.open
    ensures Either(s, RunSteps(c, s, steps), p, NeverDue(steps, p))
  {
    hide StepTo, Mirrored, Drift.AllReload, Drift.Reloads, Either, Due, CloseTimes.Closings;
    if steps == [] {
      AtFirst(s, p);
    } else {
      var init, e := steps[..|steps| - 1], steps[|steps| - 1];
      Drift.ReloadInit(c, s, steps);
      StaysIffNeverDue(c, s, init, p);
      var l := RunSteps(c, s, init);
      CloseTimes.CloseRowsCounted(c, s, init, p.tradeId);
      IdsGrow(c, s, init, p);
      assert forall i :: 0 <= i < |init| ==> init[i] == steps[i];
      if e.Polled? {
        PollGoesOn(c, s, l, e.bar, e.now, e.reading, p, NeverDue(init, p));
        assert NeverDue(steps, p) <==> NeverDue(init, p) && !Due(p, e.bar, e.now);
      } else {
        Reloaded(c, l, e);
        RestartGoesOn(c, s, l, e, p, NeverDue(init, p));
        assert NeverDue(steps, p) <==> NeverDue(init, p);
      }
    }
  }

  lemma Reloaded(c: Config, l: Live, e: Step)
    requires Drift.Reloads(c, l, e) && e.Restarted?
    ensures Lists(e.reloaded, l.disk.positions)
  {
  }

  lemma AtFirst(s: Live, p: LivePosition)
    requires p in s.open
    ensures Either(s, s, p, true)
  {
    assert SamePosition(p, p);
  }

  lemma {:induction false} IdsGrow(c: Config, s: Live, steps: seq<Step>, p: LivePosition)
    requires Mirrored(s) && p in s.open && NoCrash(steps)
    ensures p.tradeId < RunSteps(c, s, steps).nextId
  {
    hide PassOf, ApplyAll, Lists, TableAgreement.IdsBelow;
    if steps == [] {
      CloseRows.ListedIds(s);
    } else {
      var init, e := steps[..|steps| - 1], steps[|steps| - 1];
      IdsGrow(c, s, init, p);
      if e.Polled? { PollCounts(c, RunSteps(c, s, init), e.bar, e.now, e.reading); }
    }
  }

  lemma PollCounts(c: Config, s: Live, b: Bar, now: int, r: Backtest.Reading)
    ensures s.nextId <= PassOf(c, s, b, now, r).nextId
  {
    hide Manage, GateDecision, OpenOrder, Submit, SignalOf;
    TableAgreement.CounterOfManage(c, s, b, now);
  }
}

/** How long positions of the live loop stay, over every run with crashes: out by the clock of their time stop. */
module LiveEntries {
  import opened Prelude
  import opened Bars
  import opened Execution
  import opened Records
  import opened Stores
  import opened LiveLoop
  import opened CrashSafety
  import opened Drift
  import CloseRows
  import Tickets
  import Backtest
  import Rules

  /** The position's time stop is the configured number of bars after it was opened. */
  predicate Timed(c: Config, p: LivePosition) {
    if c.timeStopBars.Some? then p.timeStopAt == Some(p.openedAt + c.seconds * c.timeStopBars.value)
    else p.timeStopAt == None
  }

  ghost predicate AllTimed(c: Config, open: seq<LivePosition>) {
    forall q :: q in open ==> Timed(c, q)
  }

  ghost predicate RowsTimed(c: Config, rows: map<int, LivePosition>) {
    forall id {:trigger rows[id]} :: id in rows ==> Timed(c, rows[id])
  }

  /** Only such positions are saved. */
  ghost predicate SavesTimed(c: Config, es: seq<Effect>) {
    forall i :: 0 <= i < |es| && es[i].Saved? ==> Timed(c, es[i].position)
  }

  lemma {:induction false} RowsStayTimed(c: Config, d: Disk, es: seq<Effect>)
    requires RowsTimed(c, d.positions) && SavesTimed(c, es)
    ensures RowsTimed(c, ApplyAll(d, es).positions)
  {
    if es != [] { RowsStayTimed(c, d, es[..|es| - 1]); }
  }

  /** The position has not reached its time stop. */
  predicate Young(p: LivePosition, now: int) {
    p.timeStopAt.Some? ==> now < p.timeStopAt.value
  }

  lemma Survivor(c: Config, p: LivePosition, b: Bar, now: int)
    requires Timed(c, p) && CheckExit(p, b, now).None?
    ensures Timed(c, WithExcursion(p, b)) && Young(WithExcursion(p, b), now)
  {
  }

  ghost predicate AllYoung(open: seq<LivePosition>, now: int) {
    forall q :: q in open ==> Young(q, now)
  }

  lemma {:induction false} ManageTimes(c: Config, s: Live, b: Bar, now: int, k: nat)
    requires k <= |s.open| && AllTimed(c, s.open)
    ensures var p := ManageTo(c, Begin(s), b, now, k);
      AllTimed(c, p.book) && AllTimed(c, p.kept) && AllYoung(p.kept, now) && SavesTimed(c, p.effects)
  {
    hide CheckExit, WithExcursion, CloseEffects, CloseOrder, ClosePnl, Submit, Timed, Young;
    if k > 0 {
      ManageTimes(c, s, b, now, k - 1);
      var p := ManageTo(c, Begin(s), b, now, k - 1);
      if !p.raised {
        if CheckExit(p.book[k - 1], b, now).None? {
          var u := WithExcursion(p.book[k - 1], b);
          assert p.book[k - 1] in p.book;
          Survivor(c, p.book[k - 1], b, now);
          assert forall q :: q in p.book[k - 1 := u] ==> q in p.book || q == u;
          assert forall q :: q in p.kept + [u] ==> q in p.kept || q == u;
        } else {
          CloseTimes(c, p, k - 1, b, now);
        }
      }
    }
  }

  lemma CloseTimes(c: Config, p: Pass, k: nat, b: Bar, now: int)
    requires k < |p.book| && SavesTimed(c, p.effects)
    ensures SavesTimed(c, CloseOne(c, p, k, b, now).effects)
  {
    hide ClosePnl, RMultiple, Submit, CloseOrder;
  }

  lemma NewIsYoung(c: Config, v: Rules.Verdict, fill: Fill, signalId: int, id: int, now: int)
    requires ValidConfig(c) && v.Taken?
    ensures var p := NewPosition(c, v, fill, signalId, id, now); Timed(c, p) && Young(p, now)
  {
    if c.timeStopBars.Some? {
      MulAtLeast(c.timeStopBars.value, c.seconds);
      assert c.seconds * c.timeStopBars.value == c.timeStopBars.value * c.seconds;
    }
  }

  /** One poll, any adapter: only positions with their own time stop are listed or saved; and unless a refused close
      stops the pass, none that is listed afterwards has reached it. */
  lemma PollTimes(c: Config, s: Live, b: Bar, now: int, r: Backtest.Reading)
    requires ValidConfig(c) && AllTimed(c, s.open)
    ensures var p := PassOf(c, s, b, now, r);
      && AllTimed(c, p.book) && SavesTimed(c, p.effects)
      && (!Manage(c, s, b, now).raised ==> AllYoung(p.book, now))
  {
    hide ManageTo, GateDecision, SignalOf, OpenOrder, Submit, Timed, Young, NewPosition;
    ManageTimes(c, s, b, now, |s.open|);
    var m, v := Manage(c, s, b, now), r.verdict;
    if !m.raised && (v.Taken? || v.TurnedDown?) {
      var q := Publish(m, SignalOf(m.nextId, now, v));
      if MayEnter(c, q.equity, |q.book|, v) {
        var size := GateDecision(c, q.equity, |q.book|, v).sizeUnits;
        var answer := Submit(q.adapter, OpenOrder(c, v, r.fv, b, now, size, q.nextId)).1;
        if answer.Ok? {
          NewIsYoung(c, v, answer.value, m.nextId, q.nextId + 1, now);
          var p := NewPosition(c, v, answer.value, m.nextId, q.nextId + 1, now);
          assert forall x :: x in q.book + [p] ==> x in q.book || x == p;
        }
      }
    }
  }

  lemma {:induction false} RunIsTimed(c: Config, s: Live, steps: seq<Step>)
    requires ValidConfig(c) && AllTimed(c, s.open) && RowsTimed(c, s.disk.positions) && AllReload(c, s, steps)
    ensures var f := RunSteps(c, s, steps); AllTimed(c, f.open) && RowsTimed(c, f.disk.positions)
  {
    hide PassOf, AllTimed, RowsTimed, SavesTimed, AllReload, Lists, ApplyAll, Manage, AllYoung, Timed;
    if steps != [] {
      var init, e := steps[..|steps| - 1], steps[|steps| - 1];
      ReloadInit(c, s, steps);
      RunIsTimed(c, s, init);
      var l, f := RunSteps(c, s, init), RunSteps(c, s, steps);
      match e {
        case Polled(b, now, r) =>
          PollTimes(c, l, b, now, r);
          RowsStayTimed(c, l.disk, PassOf(c, l, b, now, r).effects);
        case Restarted(reloaded, _) =>
          ReloadTimed(c, l.disk, reloaded);
        case Crashed(b, now, r, cut, reloaded, _) =>
          PollTimes(c, l, b, now, r);
          FewerSaves(c, PassOf(c, l, b, now, r).effects, cut);
          RowsStayTimed(c, l.disk, Cut(PassOf(c, l, b, now, r).effects, cut));
          ReloadTimed(c, f.disk, reloaded);
      }
    }
  }

  lemma FewerSaves(c: Config, es: seq<Effect>, cut: nat)
    requires SavesTimed(c, es)
    ensures SavesTimed(c, Cut(es, cut))
  {
  }

  lemma ReloadTimed(c: Config, d: Disk, reloaded: seq<LivePosition>)
    requires RowsTimed(c, d.positions) && Lists(reloaded, d.positions)
    ensures AllTimed(c, reloaded)
  {
    hide Timed;
    forall q | q in reloaded ensures Timed(c, q) { assert d.positions[q.tradeId] == q; }
  }

  /** Over every run of polls, restarts and crashes, with any adapter, and one more poll that no refused close stops: no
      open position is as old as its time stop. With simulated fills no close is refused. */
  lemma LivesAreBounded(c: Config, s: Live, steps: seq<Step>, b: Bar, now: int, r: Backtest.Reading)
    requires ValidConfig(c) && AllTimed(c, s.open) && RowsTimed(c, s.disk.positions) && AllReload(c, s, steps)
    ensures var f := RunSteps(c, s, steps);
      var open := After(f, PassOf(c, f, b, now, r)).open;
      !Manage(c, f, b, now).raised && c.timeStopBars.Some? ==>
        forall q :: q in open ==> now < q.openedAt + c.seconds * c.timeStopBars.value
    ensures s.adapter.Simulated? ==> !Manage(c, RunSteps(c, s, steps), b, now).raised
  {
    hide RunSteps, PassOf, AllReload, RowsTimed, Manage;
    RunIsTimed(c, s, steps);
    var f := RunSteps(c, s, steps);
    PollTimes(c, f, b, now, r);
    if s.adapter.Simulated? {
      CloseRows.SimulatedIsSmooth(c, s, steps);
      Tickets.SimulatedIsNeverStale(c, f, b, now);
    }
    forall q | q in PassOf(c, f, b, now, r).book && !Manage(c, f, b, now).raised && c.timeStopBars.Some?
      ensures now < q.openedAt + c.seconds * c.timeStopBars.value
    {
      assert Timed(c, q) && Young(q, now);
    }
  }
}

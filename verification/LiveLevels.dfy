/** Live positions stand on the levels of their stored signals, over every run. */
module LiveLevels {
  import opened Prelude
  import opened Bars
  import opened Execution
  import opened Records
  import opened Stores
  import opened LiveLoop
  import opened CrashSafety
  import opened Drift
  import LiveEntries
  import TableAgreement
  import Backtest
  import Rules

  /** The position's signal is stored, was taken, and names its direction, stop and target. */
  predicate Stands(signals: map<int, SignalRow>, p: LivePosition) {
    && p.signalId in signals
    && var row := signals[p.signalId];
       row.taken && row.direction == p.direction && row.stop == Some(p.stopPrice) && row.target == Some(p.targetPrice)
  }

  ghost predicate AllStand(signals: map<int, SignalRow>, open: seq<LivePosition>) {
    forall q :: q in open ==> Stands(signals, q)
  }

  /** Every stored position stands on its signal, and no signal's id is ahead of the counter. */
  ghost predicate DiskStands(d: Disk, n: int) {
    && (forall id {:trigger d.positions[id]} :: id in d.positions ==> Stands(d.signals, d.positions[id]))
    && (forall g :: g in d.signals ==> g < n)
  }

  /** At every boundary between these statements. */
  ghost predicate CutsStand(d0: Disk, es: seq<Effect>, n: int) {
    forall cut :: 0 <= cut <= |es| ==> DiskStands(ApplyAll(d0, es[..cut]), n)
  }

  // ---------------------------------------------------------------- one statement

  /** A signal is only added, or given an outcome. */
  predicate KeepsSignals(d: Disk, e: Effect) {
    e.Published? ==> e.row.signalId !in d.signals
  }

  lemma StillStands(d: Disk, e: Effect, q: LivePosition)
    requires KeepsSignals(d, e) && Stands(d.signals, q)
    ensures Stands(Apply(d, e).signals, q)
  {
  }

  lemma AllStillStand(d: Disk, e: Effect, open: seq<LivePosition>)
    requires KeepsSignals(d, e) && AllStand(d.signals, open)
    ensures AllStand(Apply(d, e).signals, open)
  {
    hide Stands, Apply, KeepsSignals;
    forall q | q in open ensures Stands(Apply(d, e).signals, q) { StillStands(d, e, q); }
  }

  lemma StatementStands(d: Disk, e: Effect, n: int)
    requires DiskStands(d, n) && KeepsSignals(d, e) && (e.Published? ==> e.row.signalId < n)
    requires e.Saved? ==> Stands(d.signals, e.position)
    ensures DiskStands(Apply(d, e), n)
  {
    hide Stands;
    var f := Apply(d, e);
    forall id {:trigger f.positions[id]} | id in f.positions ensures Stands(f.signals, f.positions[id]) {
      if e.Saved? && id == e.position.tradeId {
        StillStands(d, e, e.position);
      } else {
        StillStands(d, e, d.positions[id]);
      }
    }
  }

  lemma ExtendCuts(d0: Disk, es: seq<Effect>, e: Effect, n: int)
    requires CutsStand(d0, es, n) && DiskStands(Apply(ApplyAll(d0, es), e), n)
    ensures CutsStand(d0, es + [e], n)
  {
    hide DiskStands, ApplyAll, Apply;
    var all := es + [e];
    OneMore(d0, [], es, e);
    forall cut | 0 <= cut <= |all| ensures DiskStands(ApplyAll(d0, all[..cut]), n) {
      if cut <= |es| { assert all[..cut] == es[..cut]; } else { assert all[..cut] == all; }
    }
  }

  lemma HigherCuts(d0: Disk, es: seq<Effect>, n: int, m: int)
    requires CutsStand(d0, es, n) && n <= m
    ensures CutsStand(d0, es, m)
  {
    hide ApplyAll, Stands;
  }

  // ---------------------------------------------------------------- one poll

  /** A poll under way. */
  ghost predicate PassStands(s: Live, p: Pass, n: int) {
    && CutsStand(s.disk, p.effects, n) && DiskStands(ApplyAll(s.disk, p.effects), n)
    && AllStand(ApplyAll(s.disk, p.effects).signals, p.book) && AllStand(ApplyAll(s.disk, p.effects).signals, p.kept)
  }

  /** One statement more, lists as they were. */
  lemma OneStands(s: Live, p: Pass, e: Effect, n: int)
    requires PassStands(s, p, n) && KeepsSignals(ApplyAll(s.disk, p.effects), e)
    requires e.Published? ==> e.row.signalId < n
    requires e.Saved? ==> Stands(ApplyAll(s.disk, p.effects).signals, e.position)
    ensures PassStands(s, p.(effects := p.effects + [e]), n)
    ensures ApplyAll(s.disk, p.effects + [e]) == Apply(ApplyAll(s.disk, p.effects), e)
  {
    hide CutsStand, DiskStands, AllStand, ApplyAll, Apply, Stands, KeepsSignals;
    var d := ApplyAll(s.disk, p.effects);
    OneMore(s.disk, [], p.effects, e);
    StatementStands(d, e, n);
    ExtendCuts(s.disk, p.effects, e, n);
    AllStillStand(d, e, p.book);
    AllStillStand(d, e, p.kept);
  }

  /** What the predicate says does not depend on equity, adapter or counter. */
  lemma SamePass(s: Live, p: Pass, q: Pass, n: int)
    requires PassStands(s, p, n) && q.effects == p.effects && q.book == p.book && q.kept == p.kept
    ensures PassStands(s, q, n)
  {
  }

  lemma StandsAsListed(signals: map<int, SignalRow>, open: seq<LivePosition>, k: nat, b: Bar)
    requires AllStand(signals, open) && k < |open|
    ensures Stands(signals, WithExcursion(open[k], b))
  {
    assert open[k] in open;
  }

  lemma ListStands(signals: map<int, SignalRow>, book: seq<LivePosition>, kept: seq<LivePosition>, k: nat,
    u: LivePosition)
    requires AllStand(signals, book) && AllStand(signals, kept) && k < |book| && Stands(signals, u)
    ensures AllStand(signals, book[k := u]) && AllStand(signals, kept + [u])
  {
    hide Stands;
    assert forall q :: q in book[k := u] ==> q in book || q == u;
    assert forall q :: q in kept + [u] ==> q in kept || q == u;
  }

  lemma SurviveStands(s: Live, p: Pass, k: nat, b: Bar, n: int)
    requires k < |p.book| && PassStands(s, p, n)
    ensures PassStands(s, Survive(p, k, b), n)
  {
    hide CutsStand, DiskStands, AllStand, ApplyAll, WithExcursion, Stands;
    var u, d := WithExcursion(p.book[k], b), ApplyAll(s.disk, p.effects);
    StandsAsListed(d.signals, p.book, k, b);
    OneStands(s, p, Saved(u), n);
    ListStands(d.signals, p.book, p.kept, k, u);
  }

  lemma CloseStands(c: Config, s: Live, p: Pass, k: nat, b: Bar, now: int, n: int)
    requires k < |p.book| && PassStands(s, p, n)
    ensures PassStands(s, CloseOne(c, p, k, b, now), n)
  {
    hide PassStands, ApplyAll, ClosePnl, RMultiple, Submit, CloseOrder, Resolve;
    var pos := p.book[k];
    var order := CloseOrder(c, pos, b, now, p.nextId);
    var answer := Submit(p.adapter, order).1;
    var e := Sent(order, pos.tradeId, answer);
    var q := CloseOne(c, p, k, b, now);
    OneStands(s, p, e, n);
    var p1 := p.(effects := p.effects + [e]);
    if answer.Ok? {
      var f := CloseEffects(c, pos, now, answer.value);
      OneStands(s, p1, f[0], n);
      var p2 := p1.(effects := p1.effects + [f[0]]);
      OneStands(s, p2, f[1], n);
      var p3 := p2.(effects := p2.effects + [f[1]]);
      OneStands(s, p3, f[2], n);
      var p4 := p3.(effects := p3.effects + [f[2]]);
      assert p4.effects == q.effects;
      SamePass(s, p4, q, n);
    } else {
      SamePass(s, p1, q, n);
    }
  }

  lemma {:induction false} ManageStands(c: Config, s: Live, b: Bar, now: int, n: int, k: nat)
    requires k <= |s.open| && DiskStands(s.disk, n) && AllStand(s.disk.signals, s.open)
    ensures PassStands(s, ManageTo(c, Begin(s), b, now, k), n)
  {
    hide CheckExit, Survive, CloseOne, PassStands, DiskStands, AllStand;
    if k == 0 {
      BeginStands(s, n);
    } else {
      ManageStands(c, s, b, now, n, k - 1);
      var p := ManageTo(c, Begin(s), b, now, k - 1);
      if !p.raised {
        if CheckExit(p.book[k - 1], b, now).None? {
          SurviveStands(s, p, k - 1, b, n);
        } else {
          CloseStands(c, s, p, k - 1, b, now, n);
        }
      }
    }
  }

  lemma BeginStands(s: Live, n: int)
    requires DiskStands(s.disk, n) && AllStand(s.disk.signals, s.open)
    ensures PassStands(s, Begin(s), n)
  {
    hide DiskStands, AllStand;
    assert forall cut :: 0 <= cut <= 0 ==> Begin(s).effects[..cut] == [];
    NoneStand(s.disk.signals);
  }

  lemma NoneStand(signals: map<int, SignalRow>)
    ensures AllStand(signals, [])
  {
  }

  lemma HigherPass(s: Live, p: Pass, n: int, m: int)
    requires PassStands(s, p, n) && n <= m
    ensures PassStands(s, p, m)
  {
    hide CutsStand, AllStand, ApplyAll, Stands;
    HigherCuts(s.disk, p.effects, n, m);
  }

  /** A signal is published under a fresh id, and a new position takes its levels over. */
  lemma EntryStands(c: Config, s: Live, p: Pass, v: Rules.Verdict, fill: Fill, ts: int, tradeId: int)
    requires PassStands(s, p, p.nextId) && v.Taken?
    ensures Stands(ApplyAll(s.disk, Publish(p, SignalOf(p.nextId, ts, v)).effects).signals,
      NewPosition(c, v, fill, p.nextId, tradeId, ts))
  {
    hide PassStands, ApplyAll;
    OneMore(s.disk, [], p.effects, Published(SignalOf(p.nextId, ts, v)));
  }

  lemma PublishStands(s: Live, p: Pass, v: Rules.Verdict, ts: int)
    requires PassStands(s, p, p.nextId) && (v.Taken? || v.TurnedDown?)
    ensures PassStands(s, Publish(p, SignalOf(p.nextId, ts, v)), p.nextId + 1)
  {
    hide ApplyAll, CutsStand, AllStand, Stands;
    var row := SignalOf(p.nextId, ts, v);
    assert p.nextId !in ApplyAll(s.disk, p.effects).signals;
    HigherPass(s, p, p.nextId, p.nextId + 1);
    OneStands(s, p, Published(row), p.nextId + 1);
    SamePass(s, p.(effects := p.effects + [Published(row)]), Publish(p, row), p.nextId + 1);
  }

  lemma EnterStands(c: Config, s: Live, p: Pass, v: Rules.Verdict, r: Backtest.Reading, b: Bar, now: int, signalId: int,
    n: int)
    requires MayEnter(c, p.equity, |p.book|, v) && PassStands(s, p, n)
    requires forall fill, id ::
      Stands(ApplyAll(s.disk, p.effects).signals, NewPosition(c, v, fill, signalId, id, now))
    ensures PassStands(s, Enter(c, p, v, r.fv, b, now, signalId), n)
  {
    hide PassStands, ApplyAll, GateDecision, OpenOrder, Submit, Stands, NewPosition;
    var size := GateDecision(c, p.equity, |p.book|, v).sizeUnits;
    var order := OpenOrder(c, v, r.fv, b, now, size, p.nextId);
    var answer := Submit(p.adapter, order).1;
    var e := Sent(order, p.nextId + 1, answer);
    var q := Enter(c, p, v, r.fv, b, now, signalId);
    OneStands(s, p, e, n);
    var p1 := p.(effects := p.effects + [e]);
    if answer.Ok? {
      var pos := NewPosition(c, v, answer.value, signalId, p.nextId + 1, now);
      var row := OpenRow(c, pos, now, answer.value);
      OneStands(s, p1, Saved(pos), n);
      var p2 := p1.(effects := p1.effects + [Saved(pos)]);
      OneStands(s, p2, Recorded(row), n);
      var p3 := p2.(effects := p2.effects + [Recorded(row)]);
      assert p3.effects == q.effects;
      NewlyListed(s, p3, q, pos, n);
    } else {
      SamePass(s, p1, q, n);
    }
  }

  lemma NewlyListed(s: Live, p: Pass, q: Pass, pos: LivePosition, n: int)
    requires PassStands(s, p, n) && q.effects == p.effects && q.book == p.book + [pos] && q.kept == p.kept
    requires Stands(ApplyAll(s.disk, p.effects).signals, pos)
    ensures PassStands(s, q, n)
  {
    hide CutsStand, DiskStands, ApplyAll, Stands;
    assert forall x :: x in q.book ==> x in p.book || x == pos;
  }

  /** One poll, any adapter, any memory that stands on its signals: so does what it leaves, at every boundary. */
  lemma PollStands(c: Config, s: Live, b: Bar, now: int, r: Backtest.Reading)
    requires DiskStands(s.disk, s.nextId) && AllStand(s.disk.signals, s.open)
    ensures var p := PassOf(c, s, b, now, r); PassStands(s, p, p.nextId)
  {
    hide ManageTo, PassStands, DiskStands, AllStand, ApplyAll, GateDecision, Enter, SignalOf, Stands, NewPosition;
    ManageStands(c, s, b, now, s.nextId, |s.open|);
    TableAgreement.CounterOfManage(c, s, b, now);
    var walked, m, v := ManageTo(c, Begin(s), b, now, |s.open|), Manage(c, s, b, now), r.verdict;
    HigherPass(s, walked, s.nextId, m.nextId);
    Replaced(s, walked, m, m.nextId);
    if !m.raised {
      SamePass(s, m, m.(raised := true), m.nextId);
      if v.Taken? || v.TurnedDown? {
        var q := Publish(m, SignalOf(m.nextId, now, v));
        PublishStands(s, m, v, now);
        if MayEnter(c, q.equity, |q.book|, v) {
          forall fill, id ensures
            Stands(ApplyAll(s.disk, q.effects).signals, NewPosition(c, v, fill, m.nextId, id, now))
          {
            EntryStands(c, s, m, v, fill, now, id);
          }
          EnterStands(c, s, q, v, r, b, now, m.nextId, q.nextId);
          EnterCounts(c, q, v, r, b, now, m.nextId);
          HigherPass(s, Enter(c, q, v, r.fv, b, now, m.nextId), q.nextId, Enter(c, q, v, r.fv, b, now,
            m.nextId).nextId);
        }
      }
    }
  }

  lemma EnterCounts(c: Config, p: Pass, v: Rules.Verdict, r: Backtest.Reading, b: Bar, now: int, signalId: int)
    requires MayEnter(c, p.equity, |p.book|, v)
    ensures p.nextId <= Enter(c, p, v, r.fv, b, now, signalId).nextId
  {
    hide GateDecision, OpenOrder, Submit;
  }

  lemma Replaced(s: Live, p: Pass, q: Pass, n: int)
    requires PassStands(s, p, n) && q.effects == p.effects && (q.book == p.book || q.book == p.kept) && q.kept == p.kept
    ensures PassStands(s, q, n)
  {
  }

  // ---------------------------------------------------------------- runs

  lemma ReloadStands(d: Disk, n: int, reloaded: seq<LivePosition>)
    requires DiskStands(d, n) && Lists(reloaded, d.positions)
    ensures AllStand(d.signals, reloaded)
  {
    hide Stands;
    forall q | q in reloaded ensures Stands(d.signals, q) { assert d.positions[q.tradeId] == q; }
  }

  lemma StepStands(c: Config, s: Live, e: Step)
    requires DiskStands(s.disk, s.nextId) && AllStand(s.disk.signals, s.open) && Reloads(c, s, e)
    ensures var t := StepTo(c, s, e); DiskStands(t.disk, t.nextId) && AllStand(t.disk.signals, t.open)
  {
    hide DiskStands, AllStand, PassOf, ApplyAll, AdapterAfter, Lists;
    match e {
      case Polled(b, now, r) =>
        PollStands(c, s, b, now, r);
      case Restarted(reloaded, _) =>
        ReloadStands(s.disk, s.nextId, reloaded);
      case Crashed(b, now, r, cut, reloaded, _) =>
        PollStands(c, s, b, now, r);
        var es := PassOf(c, s, b, now, r).effects;
        var at := if cut <= |es| then cut else |es|;
        assert es[..at] == Cut(es, cut);
        var t := StepTo(c, s, e);
        ReloadStands(t.disk, t.nextId, reloaded);
    }
  }

  /** Over every run of polls, restarts and crashes, with any adapter: the stop and target a listed or stored position
      is closed on are those of its stored signal, and its time stop is the configured number of bars after its
      opening. */
  lemma {:induction false} PositionsStandOnSignals(c: Config, s: Live, steps: seq<Step>)
    requires ValidConfig(c) && AllReload(c, s, steps) && DiskStands(s.disk, s.nextId)
      && AllStand(s.disk.signals, s.open)
    requires LiveEntries.AllTimed(c, s.open) && LiveEntries.RowsTimed(c, s.disk.positions)
    ensures var f := RunSteps(c, s, steps);
      && DiskStands(f.disk, f.nextId) && AllStand(f.disk.signals, f.open)
      && LiveEntries.AllTimed(c, f.open) && LiveEntries.RowsTimed(c, f.disk.positions)
  {
    hide StepTo, DiskStands, AllStand, AllReload, Reloads, LiveEntries.AllTimed, LiveEntries.RowsTimed;
    LiveEntries.RunIsTimed(c, s, steps);
    if steps != [] {
      ReloadInit(c, s, steps);
      PositionsStandOnSignals(c, s, steps[..|steps| - 1]);
      StepStands(c, RunSteps(c, s, steps[..|steps| - 1]), steps[|steps| - 1]);
    }
  }
}

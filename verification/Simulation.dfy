/** The live loop simulates the backtest at every bar close. */
module Simulation {
  import opened Prelude
  import opened Bars
  import opened Execution
  import opened Records
  import opened Features
  import opened LiveLoop
  import Backtest
  import Clock
  import CrashCuts
  import Entries
  import Stores
  import TableAgreement
  import Rules
  import Validation

  // ---------------------------------------------------------------- the same trade in both engines

  /** The close of bar i of a gap-free series that begins at `first`. */
  function CloseOf(c: Config, first: int, i: int): int {
    first + i * c.seconds + c.seconds
  }

  /** The live position a backtest trade stands for. */
  function Mirror(c: Config, first: int, t: Backtest.OpenTrade): LivePosition {
    var at := CloseOf(c, first, t.openedBarIndex);
    LivePosition(t.tradeId, t.signalId, c.strategyName, t.symbol, t.direction, t.entryPrice, t.stopPrice, t.targetPrice,
      t.sizeUnits, at, TimeStopAt(c, at), t.mae, t.mfe, None)
  }

  function Mirrors(c: Config, first: int, trades: seq<Backtest.OpenTrade>): (r: seq<LivePosition>)
    ensures |r| == |trades|
    ensures forall i {:trigger r[i]} :: 0 <= i < |r| ==> r[i] == Mirror(c, first, trades[i])
  {
    if trades == [] then [] else Mirrors(c, first, trades[..|trades| - 1]) + [Mirror(c, first, trades[|trades| - 1])]
  }

  lemma MirrorsAppend(c: Config, first: int, trades: seq<Backtest.OpenTrade>, t: Backtest.OpenTrade)
    ensures Mirrors(c, first, trades + [t]) == Mirrors(c, first, trades) + [Mirror(c, first, t)]
  {
    assert (trades + [t])[..|trades|] == trades;
  }

  /** What the two engines must agree on, given the live tables. */
  ghost predicate Agree(c: Config, first: int, s: Backtest.State, equity: real, open: seq<LivePosition>, disk: Disk,
    adapter: Adapter, nextId: int) {
    && Entries.OfConfig(c, s.open)
    && equity == s.equity && open == Mirrors(c, first, s.open)
    && disk.ledger == s.ledger && disk.signals == s.signals
    && adapter == Simulated(c.costs, c.pip) && nextId == s.nextId
  }

  /** Agreement, with the position store holding exactly the listed positions. */
  ghost predicate Simulates(c: Config, first: int, s: Backtest.State, l: Live) {
    Agree(c, first, s, l.equity, l.open, l.disk, l.adapter, l.nextId) && CrashCuts.Mirrored(l)
  }

  // ---------------------------------------------------------------- managing

  lemma SameExit(c: Config, first: int, t: Backtest.OpenTrade, b: Bar, i: int)
    requires ValidConfig(c) && t.timeStopBars == c.timeStopBars
    ensures LiveLoop.CheckExit(Mirror(c, first, t), b, CloseOf(c, first, i)) == Backtest.CheckExit(t, b, i)
  {
    if c.timeStopBars.Some? {
      Clock.StopAt(first, c.seconds, t.openedBarIndex, i, c.timeStopBars.value);
    }
  }

  lemma SameExcursion(c: Config, first: int, t: Backtest.OpenTrade, b: Bar)
    ensures LiveLoop.WithExcursion(Mirror(c, first, t), b) == Mirror(c, first, Backtest.WithExcursion(t, b))
  {
  }

  /** A management pass under way in both engines. */
  ghost predicate Managing(c: Config, first: int, m: Backtest.State, d: Disk, p: Pass) {
    && !p.raised
    && Agree(c, first, m, p.equity, p.kept, ApplyAll(d, p.effects), p.adapter, p.nextId)
  }

  lemma SameSurvivor(c: Config, first: int, m: Backtest.State, d: Disk, p: Pass, t: Backtest.OpenTrade, b: Bar, k: nat)
    requires Managing(c, first, m, d, p) && k < |p.book| && p.book[k] == Mirror(c, first, t)
    requires t.timeStopBars == c.timeStopBars
    ensures Managing(c, first, m.(open := m.open + [Backtest.WithExcursion(t, b)]), d, Survive(p, k, b))
  {
    hide ApplyAll, Mirrors, Mirror, LiveLoop.WithExcursion;
    SameExcursion(c, first, t, b);
    var u := LiveLoop.WithExcursion(p.book[k], b);
    OneMore(d, [], p.effects, Saved(u));
    MirrorsAppend(c, first, m.open, Backtest.WithExcursion(t, b));
  }

  lemma SameClose(c: Config, first: int, m: Backtest.State, d: Disk, p: Pass, t: Backtest.OpenTrade, b: Bar, k: nat)
    requires Managing(c, first, m, d, p) && k < |p.book| && p.book[k] == Mirror(c, first, t)
    ensures Managing(c, first, Backtest.CloseOne(c, m, t, b), d, LiveLoop.CloseOne(c, p, k, b, b.ts + c.seconds))
  {
    hide ApplyAll, Resolve, SlippagePips, RMultiple, DirectionPnl;
    var q, now := p.book[k], b.ts + c.seconds;
    var order := LiveLoop.CloseOrder(c, q, b, now, p.nextId);
    assert order == Backtest.CloseOrder(c, t, b, m.nextId);
    var answer := Submit(p.adapter, order).1;
    CloseEffectsApplied(c, d, p.effects, q, now, answer.value, order, answer);
  }

  lemma {:induction false} SameManage(c: Config, first: int, s: Backtest.State, l: Live, b: Bar, i: int, k: nat)
    requires ValidConfig(c) && Simulates(c, first, s, l) && k <= |s.open| && b.ts == first + i * c.seconds
    ensures Managing(c, first, Backtest.ManageTo(c, s, s.open, b, i, k), l.disk,
      LiveLoop.ManageTo(c, Begin(l), b, b.ts + c.seconds, k))
    ensures |LiveLoop.ManageTo(c, Begin(l), b, b.ts + c.seconds, k).book| == |l.open|
    ensures forall j {:trigger LiveLoop.ManageTo(c, Begin(l), b, b.ts + c.seconds, k).book[j]} ::
      k <= j < |l.open| ==> LiveLoop.ManageTo(c, Begin(l), b, b.ts + c.seconds, k).book[j] == l.open[j]
  {
    hide Managing, LiveLoop.CloseOne, Backtest.CloseOne, LiveLoop.CheckExit, Backtest.CheckExit,
      LiveLoop.WithExcursion, Backtest.WithExcursion, CrashCuts.Mirrored;
    if k == 0 {
      BeginsManaging(c, first, s, l);
    } else {
      SameManage(c, first, s, l, b, i, k - 1);
      var m, p, t := Backtest.ManageTo(c, s, s.open, b, i, k - 1),
        LiveLoop.ManageTo(c, Begin(l), b, b.ts + c.seconds, k - 1), s.open[k - 1];
      assert p.book[k - 1] == Mirror(c, first, t);
      SameExit(c, first, t, b, i);
      if Backtest.CheckExit(t, b, i).None? {
        SameSurvivor(c, first, m, l.disk, p, t, b, k - 1);
      } else {
        SameClose(c, first, m, l.disk, p, t, b, k - 1);
        BookKept(c, p, k - 1, b, b.ts + c.seconds);
      }
      NotRaised(c, first, m, l.disk, p);
    }
  }

  lemma NotRaised(c: Config, first: int, m: Backtest.State, d: Disk, p: Pass)
    requires Managing(c, first, m, d, p)
    ensures !p.raised
  {
  }

  lemma BookKept(c: Config, p: Pass, k: nat, b: Bar, now: int)
    requires k < |p.book|
    ensures LiveLoop.CloseOne(c, p, k, b, now).book == p.book
  {
  }

  lemma BeginsManaging(c: Config, first: int, s: Backtest.State, l: Live)
    requires Simulates(c, first, s, l)
    ensures Managing(c, first, s.(open := []), l.disk, Begin(l))
  {
    hide CrashCuts.Mirrored;
  }

  // ---------------------------------------------------------------- reacting

  lemma SameEntry(c: Config, first: int, m: Backtest.State, d: Disk, p: Pass, v: Rules.Verdict, fv: FeatureVector,
    b: Bar, i: int, signalId: int)
    requires !p.raised && Agree(c, first, m, p.equity, p.book, ApplyAll(d, p.effects), p.adapter, p.nextId)
    requires b.ts == first + i * c.seconds && MayEnter(c, m.equity, |m.open|, v)
    ensures var e, q := Backtest.Enter(c, m, v, fv, b, i, signalId),
      LiveLoop.Enter(c, p, v, fv, b, b.ts + c.seconds, signalId);
      !q.raised && Agree(c, first, e, q.equity, q.book, ApplyAll(d, q.effects), q.adapter, q.nextId)
  {
    hide ApplyAll, GateDecision, RegimeOf, BlackoutOf, SlippagePips, Mirrors;
    var e := Backtest.Enter(c, m, v, fv, b, i, signalId);
    var size := GateDecision(c, m.equity, |m.open|, v).sizeUnits;
    var now := b.ts + c.seconds;
    var order := LiveLoop.OpenOrder(c, v, fv, b, now, size, p.nextId);
    assert order == Backtest.OpenOrder(c, v, fv, b, size, m.nextId);
    var answer := Submit(p.adapter, order).1;
    var pos := LiveLoop.NewPosition(c, v, answer.value, signalId, p.nextId + 1, now);
    var row := LiveLoop.OpenRow(c, pos, now, answer.value);
    OneMore(d, [], p.effects, Sent(order, p.nextId + 1, answer));
    var es1 := p.effects + [Sent(order, p.nextId + 1, answer)];
    OneMore(d, [], es1, Saved(pos));
    OneMore(d, [], es1 + [Saved(pos)], Recorded(row));
    assert es1 + [Saved(pos)] + [Recorded(row)] ==
      p.effects + [Sent(order, p.nextId + 1, answer), Saved(pos), Recorded(row)];
    var t := e.open[|m.open|];
    MirrorsAppend(c, first, m.open, t);
    assert pos == Mirror(c, first, t);
  }

  lemma SamePublish(c: Config, first: int, m: Backtest.State, d: Disk, p: Pass, row: SignalRow)
    requires Agree(c, first, m, p.equity, p.book, ApplyAll(d, p.effects), p.adapter, p.nextId)
    ensures var q := LiveLoop.Publish(p, row);
      Agree(c, first, Backtest.Publish(m, row), q.equity, q.book, ApplyAll(d, q.effects), q.adapter, q.nextId)
  {
    hide ApplyAll;
    OneMore(d, [], p.effects, Published(row));
  }

  lemma SameReaction(c: Config, first: int, m: Backtest.State, d: Disk, p: Pass, r: Backtest.Reading, b: Bar, i: int)
    requires !p.raised && Agree(c, first, m, p.equity, p.book, ApplyAll(d, p.effects), p.adapter, p.nextId)
    requires b.ts == first + i * c.seconds
    ensures var e, q := Backtest.React(c, m, r.verdict, r.fv, b, i), LiveLoop.React(c, p, r, b, b.ts + c.seconds);
      && Agree(c, first, e, q.equity, q.book, ApplyAll(d, q.effects), q.adapter, q.nextId)
      && (q.raised <==> r.verdict.Raised?)
  {
    hide ApplyAll, MayEnter, LiveLoop.Enter, Backtest.Enter, SignalOf;
    var v := r.verdict;
    if v.Taken? || v.TurnedDown? {
      var row := SignalOf(m.nextId, b.ts + c.seconds, v);
      SamePublish(c, first, m, d, p, row);
      var n, q := Backtest.Publish(m, row), LiveLoop.Publish(p, row);
      if MayEnter(c, n.equity, |n.open|, v) {
        SameEntry(c, first, n, d, q, v, r.fv, b, i, m.nextId);
      }
    }
  }

  /** One poll's pass does to the loop what one bar does to the backtest. */
  lemma PassSimulatesBar(c: Config, first: int, s: Backtest.State, l: Live, b: Bar, i: nat, r: Backtest.Reading)
    requires ValidConfig(c) && Simulates(c, first, s, l) && !s.halted && b.ts == first + i * c.seconds
    ensures Simulates(c, first, Backtest.BarStep(c, s, b, r, i), After(l, PassOf(c, l, b, b.ts + c.seconds, r)))
  {
    hide LiveLoop.ManageTo, Backtest.ManageTo, LiveLoop.React, Backtest.React, ApplyAll, Stores.Lists,
      TableAgreement.IdsBelow, TableAgreement.StraysSurvive, Mirrors;
    SameManage(c, first, s, l, b, i, |s.open|);
    TableAgreement.PollSettles(c, l, b, b.ts + c.seconds, r);
    var m, p := Backtest.Manage(c, s, b, i), LiveLoop.Manage(c, l, b, b.ts + c.seconds);
    SameReaction(c, first, m, l.disk, p, r, b, i);
  }

  // ---------------------------------------------------------------- reading

  /** The bar adapter answers with the bars it has in the asked range. */
  function Fed(c: Config, bars: seq<Bar>, now: int): seq<Bar> {
    Between(bars, now - Window(c), now)
  }

  lemma SeenIsGapFree(bars: seq<Bar>, seconds: int, k: nat)
    requires seconds > 0 && GapFree(bars, seconds) && k <= |bars|
    ensures GapFree(bars[..k], seconds) && Ascending(bars[..k]) && Ascending(bars)
  {
    GapFreeAscends(bars, seconds);
  }

  lemma FedWindow(c: Config, bars: seq<Bar>, k: nat, lo: nat, now: int)
    requires ValidConfig(c) && GapFree(bars, c.seconds) && 0 < k <= |bars|
    requires lo == MaxInt(0, k - (c.historyWindowBars + 5)) && now == bars[k - 1].ts + c.seconds
    ensures Fed(c, bars, now) == bars[lo..k]
  {
    hide Between, GapFree;
    var w := c.historyWindowBars + 5;
    assert w * c.seconds == Window(c);
    GridBetween(bars, c.seconds, k, w, lo);
  }

  /** What a poll at the close of bar k - 1 is handed: the last bars of the window. */
  lemma FedAtClose(c: Config, bars: seq<Bar>, k: nat, lo: nat, now: int)
    requires ValidConfig(c) && GapFree(bars, c.seconds) && 0 < k <= |bars|
    requires lo == MaxInt(0, k - (c.historyWindowBars + 5)) && now == bars[k - 1].ts + c.seconds
    ensures Fed(c, bars, now) == bars[lo..k]
    ensures Fed(c, bars[..k], now) == bars[lo..k]
  {
    hide Fed, GapFree;
    SeenIsGapFree(bars, c.seconds, k);
    FedWindow(c, bars, k, lo, now);
    FedWindow(c, bars[..k], k, lo, now);
    assert bars[..k][lo..k] == bars[lo..k];
  }

  lemma SplitSlice<T>(s: seq<T>, i: nat, j: nat, k: nat)
    requires i <= j <= k <= |s|
    ensures s[i..k] == s[i..j] + s[j..k]
  {
  }

  lemma TableGrows(bars: seq<Bar>, k: nat, lo: nat)
    requires lo < k <= |bars|
    ensures BarMap(bars[..k - 1]) + BarMap(bars[lo..k]) == BarMap(bars[..k])
  {
    hide BarMap;
    var head, before, batch, last := bars[0..lo], bars[lo..k - 1], bars[lo..k], bars[k - 1..k];
    BarMapConcat(head, before);
    BarMapConcat(head, batch);
    BarMapConcat(before, last);
    SplitSlice(bars, 0, lo, k - 1);
    SplitSlice(bars, 0, lo, k);
    SplitSlice(bars, lo, k - 1, k);
    Overlay(BarMap(head), BarMap(before), BarMap(last));
  }

  /** The batch validates clean, so it is stored unchanged, and the table is the history so far. */
  lemma TableAfterPoll(c: Config, bars: seq<Bar>, k: nat, lo: nat, batch: seq<Bar>)
    requires GapFree(bars, c.seconds) && c.seconds > 0 && lo < k <= |bars| && batch == bars[lo..k]
    requires Validation.Report(batch, c.spike, c.seconds) == []
    ensures Ingested(c, BarMap(bars[..k - 1]), batch) == BarMap(bars[..k])
  {
    hide Validation.Clean, Validation.Report, BarMap, SortByTime;
    GapFreeAscends(bars, c.seconds);
    SortKeepsSorted(batch);
    Validation.CleanReport(batch, c.spike, c.seconds);
    TableGrows(bars, k, lo);
  }

  lemma Overlay<V>(a: map<int, V>, b: map<int, V>, x: map<int, V>)
    ensures (a + b) + (b + x) == a + (b + x)
  {
  }

  /** The feature vector from the store's range is the one from the whole frame, future bars included. */
  lemma SameVector(c: Config, bars: seq<Bar>, k: nat, now: int)
    requires ValidConfig(c) && GapFree(bars, c.seconds) && 0 < k <= |bars| && now == bars[k - 1].ts + c.seconds
    ensures VectorAt(c.engine, now, c.seconds, StoreSource(bars[..k], now, c.seconds, Needed(c.engine)))
        == VectorAt(c.engine, now, c.seconds, FrameSource(bars))
  {
    hide GapFree, Ascending, Bars.Closed, StoreSource, ReachedByStore, FrameSource, VectorAt;
    var seen, n := bars[..k], Needed(c.engine);
    SeenIsGapFree(bars, c.seconds, k);
    GapFreeReaches(bars, c.seconds, n, k);
    GapFreeReaches(seen, c.seconds, n, k);
    SourcesGiveSameVector(c.engine, seen, now, c.seconds);
    assert seen[..k] == seen;
    FramesAgree(c, bars, seen, now);
  }

  lemma VectorTime(e: Engine, ts: int, seconds: int, raw: seq<Bar>)
    requires ValidEngine(e)
    ensures VectorAt(e, ts, seconds, raw).ts == ts
  {
  }

  lemma FramesAgree(c: Config, a: seq<Bar>, b: seq<Bar>, now: int)
    requires ValidConfig(c) && Ascending(a) && Ascending(b)
    requires Bars.Closed(a, now - c.seconds) == Bars.Closed(b, now - c.seconds)
    ensures VectorAt(c.engine, now, c.seconds, FrameSource(a)) == VectorAt(c.engine, now, c.seconds, FrameSource(b))
  {
    hide VectorAt;
    SortKeepsSorted(a);
    SortKeepsSorted(b);
    VectorSeesOnlyClosedBars(c.engine, now, c.seconds, a, b);
  }

  /** A poll reads from the store what the backtest reads from memory. */
  lemma SameReading(c: Config, bars: seq<Bar>, k: nat, lo: nat, now: int)
    requires ValidConfig(c) && GapFree(bars, c.seconds) && 0 < k <= |bars| && now == bars[k - 1].ts + c.seconds
    requires Rules.LocalRule(c.rule, c.seconds, c.historyWindowBars + 5)
    requires lo == MaxInt(0, k - (c.historyWindowBars + 5))
    ensures Keyed(BarMap(bars[..k]))
    ensures BarsRead(c, BarMap(bars[..k]), now) == bars[lo..k]
    ensures PollReading(c, BarMap(bars[..k]), now) == Backtest.ReadingAt(c, bars, k - 1)
  {
    hide VectorAt, ReadTable, Between, Rules.LocalRule, GapFree, BarMap;
    var seen := bars[..k];
    SeenIsGapFree(bars, c.seconds, k);
    ReadTableOfSeries(seen, now - Window(c), now);
    ReadTableOfSeries(seen, now - c.seconds * Needed(c.engine) * 2, now);
    FedAtClose(c, bars, k, lo, now);
    SameVector(c, bars, k, now);
    VectorTime(c.engine, now, c.seconds, FrameSource(bars));
    LocalReading(c, bars, k, lo, VectorAt(c.engine, now, c.seconds, FrameSource(bars)));
  }

  lemma LocalReading(c: Config, bars: seq<Bar>, k: nat, lo: nat, fv: FeatureVector)
    requires ValidConfig(c) && GapFree(bars, c.seconds) && 0 < k <= |bars|
    requires Rules.LocalRule(c.rule, c.seconds, c.historyWindowBars + 5)
    requires lo == MaxInt(0, k - (c.historyWindowBars + 5)) && fv.ts == bars[k - 1].ts + c.seconds
    ensures Backtest.ReadingOf(c, fv, bars[lo..k]) == Backtest.ReadingOf(c, fv, bars[..k])
  {
    var seen, w := bars[..k], c.historyWindowBars + 5;
    assert Tail(seen, w) == bars[lo..k];
    var full := c.rule(fv, seen);
    assert full == c.rule(fv, Tail(seen, w));
  }

  // ---------------------------------------------------------------- the run

  /** The loop polled at the exact close of each of the first k bars, from an empty bar table. */
  ghost function LiveRun(c: Config, bars: seq<Bar>, l: Live, k: nat): (r: (Live, map<int, Bar>))
    requires ValidConfig(c) && k <= |bars|
    ensures Keyed(r.1)
  {
    if k == 0 then (l, map[])
    else
      var before, now := LiveRun(c, bars, l, k - 1), bars[k - 1].ts + c.seconds;
      PollTo(c, before.0, before.1, now, Fed(c, bars, now))
  }

  /** Every batch the adapter hands to one of the first k polls validates without an issue. */
  ghost predicate ValidatesClean(c: Config, bars: seq<Bar>, k: nat)
    requires k <= |bars|
  {
    forall j {:trigger bars[j]} :: 0 <= j < k ==>
      Validation.Report(Fed(c, bars, bars[j].ts + c.seconds), c.spike, c.seconds) == []
  }

  /** One poll at the close of bar k - 1. */
  lemma PollSimulatesBar(c: Config, bars: seq<Bar>, s: Backtest.State, l: Live, k: nat)
    requires ValidConfig(c) && GapFree(bars, c.seconds) && 0 < k <= |bars|
    requires Rules.LocalRule(c.rule, c.seconds, c.historyWindowBars + 5)
    requires Validation.Report(Fed(c, bars, bars[k - 1].ts + c.seconds), c.spike, c.seconds) == []
    requires Simulates(c, bars[0].ts, s, l) && !s.halted && Keyed(BarMap(bars[..k - 1]))
    ensures
      var now := bars[k - 1].ts + c.seconds;
      var after := PollTo(c, l, BarMap(bars[..k - 1]), now, Fed(c, bars, now));
      && Simulates(c, bars[0].ts, Backtest.BarStep(c, s, bars[k - 1], Backtest.ReadingAt(c, bars, k - 1), k - 1),
        after.0)
      && after.1 == BarMap(bars[..k])
  {
    hide Validation.Report, PassOf, PollReading, Simulates, Ingested, BarsRead, Backtest.BarStep, Backtest.ReadingAt,
      Fed;
    var lo, now := MaxInt(0, k - (c.historyWindowBars + 5)), bars[k - 1].ts + c.seconds;
    FedAtClose(c, bars, k, lo, now);
    TableAfterPoll(c, bars, k, lo, bars[lo..k]);
    SameReading(c, bars, k, lo, now);
    PassSimulatesBar(c, bars[0].ts, s, l, bars[k - 1], k - 1, Backtest.ReadingAt(c, bars, k - 1));
  }

  /** After every bar, up to and including the one on which the rule layer raises, if it ever does. */
  lemma {:induction false} LiveSimulatesBacktest(c: Config, bars: seq<Bar>, s: Backtest.State, l: Live, k: nat)
    requires ValidConfig(c) && bars != [] && GapFree(bars, c.seconds) && k <= |bars|
    requires Rules.LocalRule(c.rule, c.seconds, c.historyWindowBars + 5)
    requires ValidatesClean(c, bars, k)
    requires Simulates(c, bars[0].ts, s, l)
    requires k > 0 ==> !Backtest.RunTo(c, bars, s, k - 1).halted
    ensures Simulates(c, bars[0].ts, Backtest.RunTo(c, bars, s, k), LiveRun(c, bars, l, k).0)
    ensures LiveRun(c, bars, l, k).1 == BarMap(bars[..k])
  {
    hide PollTo, Simulates, Backtest.BarStep, Backtest.ReadingAt, Fed, Validation.Report;
    if k > 0 {
      assert k > 1 ==> !Backtest.RunTo(c, bars, s, k - 2).halted by { HaltPersists(c, bars, s, k - 1); }
      LiveSimulatesBacktest(c, bars, s, l, k - 1);
      PollSimulatesBar(c, bars, Backtest.RunTo(c, bars, s, k - 1), LiveRun(c, bars, l, k - 1).0, k);
    }
  }

  lemma HaltPersists(c: Config, bars: seq<Bar>, s: Backtest.State, k: nat)
    requires ValidConfig(c) && k <= |bars| && !Backtest.RunTo(c, bars, s, k).halted
    ensures k > 0 ==> !Backtest.RunTo(c, bars, s, k - 1).halted
  {
  }

  /** Both engines started flat with the same equity, history and supply of ids: the same ledger rows, the
      same signal rows and outcomes, the same equity, position by position the same open trades, and just
      those in the position store. */
  lemma ParityFromFirstBar(c: Config, bars: seq<Bar>, equity: real, ledger: seq<LedgerEntry>, signals: map<int,
    SignalRow>, id: int, k: nat)
    requires ValidConfig(c) && bars != [] && GapFree(bars, c.seconds) && k <= |bars|
    requires Rules.LocalRule(c.rule, c.seconds, c.historyWindowBars + 5)
    requires ValidatesClean(c, bars, k)
    requires forall i :: 0 <= i < |ledger| ==> ledger[i].tradeId < id
    requires k > 0 ==> !Backtest.RunTo(c, bars, Backtest.Start(equity, ledger, signals, id), k - 1).halted
    ensures
      var s := Backtest.RunTo(c, bars, Backtest.Start(equity, ledger, signals, id), k);
      var l := LiveRun(c, bars, Live(equity, [], Disk(map[], ledger, signals), Simulated(c.costs, c.pip), id), k).0;
      && l.disk.ledger == s.ledger && l.disk.signals == s.signals && l.equity == s.equity
      && l.open == Mirrors(c, bars[0].ts, s.open) && Stores.Lists(l.open, l.disk.positions)
  {
    hide Backtest.RunTo, LiveRun, ValidatesClean, Rules.LocalRule;
    LiveSimulatesBacktest(c, bars, Backtest.Start(equity, ledger, signals, id),
      Live(equity, [], Disk(map[], ledger, signals), Simulated(c.costs, c.pip), id), k);
  }
}

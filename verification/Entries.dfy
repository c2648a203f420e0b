/** Who gets in, on what approval, and how long they stay. */
module Entries {
  import opened Prelude
  import opened Bars
  import opened Records
  import opened Backtest
  import opened Conservation
  import Features
  import Rules
  import RiskGate

  // ---------------------------------------------------------------- what the gate sees of the loop's book

  lemma {:induction false} BookIsFlat(c: Config, n: nat, group: set<string>)
    ensures |ShownBook(c, n)| == n
    ensures RiskGate.TotalRisk(ShownBook(c, n)) == 0.0 && RiskGate.GroupRisk(ShownBook(c, n), group) == 0.0
  {
    if n > 0 {
      BookIsFlat(c, n - 1, group);
      assert ShownBook(c, n)[..n - 1] == ShownBook(c, n - 1);
    }
  }

  function ClampedRisk(c: Config, v: Rules.Verdict): real
    requires v.Taken?
  {
    Min(c.sizer(RiskGate.Proposal(c.symbol, v.direction, v.entry, v.stop), c.limits), c.limits.maxRiskPerTradePct)
  }

  /** The new trade alone is within the limits, and there is room for one position more. */
  predicate WithinLimits(c: Config, n: int, v: Rules.Verdict)
    requires v.Taken?
  {
    var r, group := ClampedRisk(c, v), RiskGate.FirstGroup(c.limits.correlatedGroups, c.symbol);
    && c.limits.dailyLossLimitPct != 0.0 && c.limits.weeklyLossLimitPct != 0.0
    && n < c.limits.maxConcurrentPositions
    && 0.0 < r <= c.limits.maxTotalRiskPct
    && (group.Some? ==> r <= c.limits.correlatedExposureCapPct)
    && v.entry != v.stop
  }

  /** Shown positions without risk, the gate approves on the new trade's own risk and the position count
      alone: the total-risk and correlation caps never see what is already open. */
  lemma GateSeesOnlyTheNewTrade(c: Config, equity: real, n: nat, v: Rules.Verdict)
    requires v.Taken?
    ensures GateDecision(c, equity, n, v).Approved? <==> WithinLimits(c, n, v)
  {
    var group := RiskGate.FirstGroup(c.limits.correlatedGroups, c.symbol);
    BookIsFlat(c, n, if group.Some? then group.value else {});
  }

  /** Hence the cap on total risk is not kept by the loops: once n open trades of equal risk reach it,
      one more is still approved, as long as the position count allows. */
  lemma LoopBookExceedsRiskCap(c: Config, equity: real, n: nat, v: Rules.Verdict)
    requires v.Taken? && GateDecision(c, equity, 0, v).Approved? && n < c.limits.maxConcurrentPositions
    requires n as real * ClampedRisk(c, v) >= c.limits.maxTotalRiskPct
    ensures GateDecision(c, equity, n, v).Approved?
    ensures n as real * ClampedRisk(c, v) + GateDecision(c, equity, n, v).riskPct > c.limits.maxTotalRiskPct
  {
    GateSeesOnlyTheNewTrade(c, equity, 0, v);
    GateSeesOnlyTheNewTrade(c, equity, n, v);
  }

  lemma ApprovalNeedsRoom(c: Config, equity: real, n: nat, v: Rules.Verdict)
    requires MayEnter(c, equity, n, v)
    ensures c.tradeable && n + 1 <= c.maxConcurrent && n + 1 <= c.limits.maxConcurrentPositions
  {
    BookIsFlat(c, n, {});
  }

  // ---------------------------------------------------------------- invariants of a run

  /** This signal, taken and published at the row's time, is one the gate approves at that equity and open count,
      with the row's size. */
  predicate Backs(c: Config, p: SignalRow, row: LedgerEntry, equity: real, n: int) {
    && p.taken && p.signalId == row.signalId && p.direction == row.direction && p.ts == row.ts
    && p.entry.Some? && p.stop.Some? && p.target.Some? && n >= 0
    && var v := Rules.Taken(p.direction, p.entry.value, p.stop.value, p.target.value);
       MayEnter(c, equity, n, v) && row.sizeUnits == GateDecision(c, equity, n, v).sizeUnits
  }

  /** How many trades the rows leave open. */
  function OpenCount(rows: seq<LedgerEntry>): int {
    Count(rows, Opened) - Count(rows, Closed)
  }

  /** An open row is backed by a published signal at the equity and the open count that the run's rows before it
      amount to. */
  ghost predicate Justified(c: Config, published: seq<SignalRow>, equity: real, before: seq<LedgerEntry>,
    row: LedgerEntry) {
    row.event.Opened? ==> exists p ::
      0 <= p < |published| && Backs(c, published[p], row, equity + PnlSum(before), OpenCount(before))
  }

  /** So is every open row of a run that began with n0 rows and this equity. */
  ghost predicate RowsJustified(c: Config, s: State, n0: nat, equity: real) {
    && n0 <= |s.ledger|
    && forall j {:trigger s.ledger[j]} :: n0 <= j < |s.ledger| ==>
      Justified(c, s.published, equity, s.ledger[n0..j], s.ledger[j])
  }

  lemma OneMoreRow(c: Config, s: State, n0: nat, equity: real, row: LedgerEntry, t: State)
    requires RowsJustified(c, s, n0, equity) && t.published == s.published && t.ledger == s.ledger + [row]
    requires Justified(c, s.published, equity, s.ledger[n0..], row)
    ensures RowsJustified(c, t, n0, equity)
  {
    hide Justified;
    forall j {:trigger t.ledger[j]} | n0 <= j < |t.ledger|
      ensures Justified(c, t.published, equity, t.ledger[n0..j], t.ledger[j])
    {
      if j < |s.ledger| {
        assert t.ledger[n0..j] == s.ledger[n0..j] && t.ledger[j] == s.ledger[j];
      } else {
        assert t.ledger[n0..j] == s.ledger[n0..];
      }
    }
  }

  ghost predicate WithinConcurrency(c: Config, n: nat) {
    n == 0 || (n <= c.maxConcurrent && n <= c.limits.maxConcurrentPositions)
  }

  /** No open trade has reached its time stop; `i` is the bar just processed. */
  ghost predicate Young(c: Config, trades: seq<OpenTrade>, i: int) {
    forall j :: 0 <= j < |trades| ==>
      && trades[j].timeStopBars == c.timeStopBars
      && (c.timeStopBars.Some? ==> i - trades[j].openedBarIndex < c.timeStopBars.value)
  }

  ghost predicate OfConfig(c: Config, trades: seq<OpenTrade>) {
    forall j :: 0 <= j < |trades| ==> trades[j].timeStopBars == c.timeStopBars
  }

  lemma {:induction false} ManageKeeps(c: Config, s: State, n0: nat, equity: real, trades: seq<OpenTrade>, b: Bar,
    i: int, k: nat)
    requires k <= |trades| && RowsJustified(c, s, n0, equity) && OfConfig(c, trades)
    ensures var m := ManageTo(c, s, trades, b, i, k);
      && RowsJustified(c, m, n0, equity) && m.published == s.published && m.halted == s.halted
      && |m.open| <= k && Young(c, m.open, i)
      && (trades == [] ==> m.ledger == s.ledger && m.equity == s.equity)
  {
    hide ClosePnl, CloseFill, RowsJustified;
    if k == 0 {
      OtherList(c, s, n0, equity);
    } else {
      ManageKeeps(c, s, n0, equity, trades, b, i, k - 1);
      var m, t := ManageTo(c, s, trades, b, i, k - 1), trades[k - 1];
      if CheckExit(t, b, i).Some? {
        var row := CloseRow(c, t, b, m.nextId);
        CloseNeedsNoSignal(c, m, n0, equity, row);
        OneMoreRow(c, m, n0, equity, row, CloseOne(c, m, t, b));
      } else {
        SameRows(c, m, n0, equity, m.(open := m.open + [WithExcursion(t, b)]));
      }
    }
  }

  lemma CloseNeedsNoSignal(c: Config, s: State, n0: nat, equity: real, row: LedgerEntry)
    requires row.event.Closed? && RowsJustified(c, s, n0, equity)
    ensures n0 <= |s.ledger| && Justified(c, s.published, equity, s.ledger[n0..], row)
  {
  }

  lemma SameRows(c: Config, s: State, n0: nat, equity: real, t: State)
    requires RowsJustified(c, s, n0, equity) && t.published == s.published && t.ledger == s.ledger
    ensures RowsJustified(c, t, n0, equity)
  {
  }

  lemma OtherList(c: Config, s: State, n0: nat, equity: real)
    requires RowsJustified(c, s, n0, equity)
    ensures RowsJustified(c, s.(open := []), n0, equity)
  {
  }

  lemma PublishKeepsRows(c: Config, s: State, n0: nat, equity: real, row: SignalRow)
    requires RowsJustified(c, s, n0, equity)
    ensures RowsJustified(c, Publish(s, row), n0, equity)
  {
    hide Backs;
    var p := Publish(s, row);
    forall j {:trigger p.ledger[j]} | n0 <= j < |p.ledger|
      ensures Justified(c, p.published, equity, p.ledger[n0..j], p.ledger[j])
    {
      var before, e := s.ledger[n0..j], s.ledger[j];
      assert Justified(c, s.published, equity, before, e);
      if e.event.Opened? {
        var q :| 0 <= q < |s.published| && Backs(c, s.published[q], e, equity + PnlSum(before), OpenCount(before));
        assert p.published[q] == s.published[q];
      }
    }
  }

  lemma EnterKeeps(c: Config, s: State, n0: nat, equity: real, v: Rules.Verdict, fv: Features.FeatureVector, b: Bar,
    i: int, signalId: int)
    requires ValidConfig(c) && MayEnter(c, s.equity, |s.open|, v) && RowsJustified(c, s, n0, equity)
    requires Young(c, s.open, i)
    requires s.published != [] && s.published[|s.published| - 1] == SignalOf(signalId, b.ts + c.seconds, v)
    requires Balanced(s, n0, equity, s.open)
    ensures var e := Enter(c, s, v, fv, b, i, signalId);
      RowsJustified(c, e, n0, equity) && Young(c, e.open, i) && WithinConcurrency(c, |e.open|) && c.tradeable
  {
    hide GateDecision, MayEnter, RowsJustified, BookOf, Audit, Units, Held, Count, PnlSum;
    var e := Enter(c, s, v, fv, b, i, signalId);
    var row := e.ledger[|s.ledger|];
    ApprovalNeedsRoom(c, s.equity, |s.open|, v);
    SignalBacks(c, s, v, fv, b, i, signalId);
    assert Backs(c, s.published[|s.published| - 1], row, equity + PnlSum(s.ledger[n0..]), OpenCount(s.ledger[n0..]));
    assert Justified(c, s.published, equity, s.ledger[n0..], row);
    OneMoreRow(c, s, n0, equity, row, e);
  }

  lemma SignalBacks(c: Config, s: State, v: Rules.Verdict, fv: Features.FeatureVector, b: Bar, i: int, signalId: int)
    requires MayEnter(c, s.equity, |s.open|, v)
    ensures var e := Enter(c, s, v, fv, b, i, signalId);
      Backs(c, SignalOf(signalId, b.ts + c.seconds, v), e.ledger[|s.ledger|], s.equity, |s.open|)
  {
    hide GateDecision;
    assert v == Rules.Taken(v.direction, v.entry, v.stop, v.target);
  }

  /** The invariant after bar `i`, for a run that started with `start`. */
  ghost predicate Orderly(c: Config, s: State, start: State, i: int) {
    && RowsJustified(c, s, |start.ledger|, start.equity)
    && WithinConcurrency(c, |s.open|)
    && OfConfig(c, s.open)
    && (!s.halted ==> Young(c, s.open, i))
    && (!c.tradeable ==> s.ledger == start.ledger && s.equity == start.equity && s.open == [])
  }

  lemma StepIsOrderly(c: Config, s: State, start: State, b: Bar, r: Reading, i: nat)
    requires ValidConfig(c) && Orderly(c, s, start, i - 1) && !s.halted
    requires Balanced(s, |start.ledger|, start.equity, s.open)
    ensures Orderly(c, BarStep(c, s, b, r, i), start, i)
  {
    hide RowsJustified, ManageTo, Enter, MayEnter, SignalOf, GateDecision, Balanced;
    var n0, e0 := |start.ledger|, start.equity;
    ManageKeeps(c, s, n0, e0, s.open, b, i, |s.open|);
    ManageBalances(c, s, n0, e0, s.open, b, i, |s.open|);
    var m := Manage(c, s, b, i);
    assert m.open + s.open[|s.open|..] == m.open;
    if r.verdict.Raised? {
      SameRows(c, m, n0, e0, m.(halted := true));
    }
    if r.verdict.Taken? || r.verdict.TurnedDown? {
      var row := SignalOf(m.nextId, b.ts + c.seconds, r.verdict);
      var p := Publish(m, row);
      PublishKeepsRows(c, m, n0, e0, row);
      PublishBalances(m, n0, e0, row);
      if MayEnter(c, p.equity, |p.open|, r.verdict) {
        ApprovalNeedsRoom(c, p.equity, |p.open|, r.verdict);
        EnterKeeps(c, p, n0, e0, r.verdict, r.fv, b, i, m.nextId);
      }
    }
  }

  /** After every bar of every run: each open row comes from a taken signal of an active strategy, published at its
      time, that the gate approved with that size at the equity and the number of open trades which the rows
      before it amount to; open trades are within both concurrency limits; a strategy that is not active leaves
      ledger and equity untouched; and no open trade is as old as its time stop. */
  lemma {:induction false} RunIsOrderly(c: Config, bars: seq<Bar>, readings: seq<Reading>, s: State, k: nat)
    requires ValidConfig(c) && k <= |bars| == |readings| && s.open == []
    ensures Orderly(c, Replay(c, bars, readings, s, k), s, k - 1)
  {
    hide BarStep, Balanced;
    if k > 0 {
      RunIsOrderly(c, bars, readings, s, k - 1);
      var p := Replay(c, bars, readings, s, k - 1);
      if p.halted {
        HaltedStays(c, p, bars[k - 1], readings[k - 1], k - 1);
      } else {
        RunBalances(c, bars, readings, s, k - 1);
        StepIsOrderly(c, p, s, bars[k - 1], readings[k - 1], k - 1);
      }
    }
  }
}

/** Exactly when the loops keep the cap on total risk although the gate is shown none. */
module LoopRisk {
  import opened Prelude
  import opened Bars
  import opened Records
  import opened Backtest
  import opened Entries
  import Features
  import Rules
  import RiskGate

  // ---------------------------------------------------------------- the condition

  /** How many trades can be open at once: both concurrency limits, and the time stop, since at most one trade is
      opened on a bar. */
  function Room(c: Config): int {
    var limit := if c.maxConcurrent <= c.limits.maxConcurrentPositions then c.maxConcurrent
      else c.limits.maxConcurrentPositions;
    if c.timeStopBars.Some? && c.timeStopBars.value < limit then c.timeStopBars.value else limit
  }

  /** What the gate approves of a taken signal when it is shown no risk. */
  predicate Approvable(c: Config, v: Rules.Verdict) {
    && v.Taken? && v.entry != v.stop
    && c.limits.dailyLossLimitPct != 0.0 && c.limits.weeklyLossLimitPct != 0.0
    && 0.0 < ClampedRisk(c, v) <= c.limits.maxTotalRiskPct
    && var group := RiskGate.FirstGroup(c.limits.correlatedGroups, c.symbol);
       group.Some? ==> ClampedRisk(c, v) <= c.limits.correlatedExposureCapPct
  }

  lemma EntersIff(c: Config, equity: real, n: nat, v: Rules.Verdict)
    ensures MayEnter(c, equity, n, v) <==>
      Approvable(c, v) && c.tradeable && n < c.maxConcurrent && n < c.limits.maxConcurrentPositions
    ensures MayEnter(c, equity, n, v) ==> GateDecision(c, equity, n, v).riskPct == ClampedRisk(c, v)
  {
    if v.Taken? { GateSeesOnlyTheNewTrade(c, equity, n, v); }
  }

  /** As many of the riskiest trade as there is room for stay within the cap. */
  ghost predicate RoomFits(c: Config) {
    c.tradeable ==> forall v :: Approvable(c, v) ==> Room(c) as real * ClampedRisk(c, v) <= c.limits.maxTotalRiskPct
  }

  // ---------------------------------------------------------------- the risk of a run

  /** What the loop has before the rules of bar k react. */
  function BeforeEntry(c: Config, s: State, b: Bar, r: Reading, i: nat): State
    requires r.verdict.Taken?
  {
    var m := Manage(c, s, b, i);
    Publish(m, SignalOf(m.nextId, b.ts + c.seconds, r.verdict))
  }

  /** The risk the gate approved for each trade of the run, by trade id. */
  function ApprovedRisk(c: Config, bars: seq<Bar>, readings: seq<Reading>, s: State, k: nat): map<int, real>
    requires k <= |bars| == |readings|
  {
    if k == 0 then map[]
    else
      var before, p, r := ApprovedRisk(c, bars, readings, s, k - 1), Replay(c, bars, readings, s, k - 1),
        readings[k - 1];
      if p.halted || !r.verdict.Taken? then before
      else
        var q := BeforeEntry(c, p, bars[k - 1], r, k - 1);
        if MayEnter(c, q.equity, |q.open|, r.verdict) then
          before[q.nextId + 1 := GateDecision(c, q.equity, |q.open|, r.verdict).riskPct]
        else before
  }

  /** The summed approved risk of some open trades. */
  function OpenRisk(open: seq<OpenTrade>, risk: map<int, real>): real {
    if open == [] then 0.0
    else
      var last := open[|open| - 1];
      OpenRisk(open[..|open| - 1], risk) + if last.tradeId in risk then risk[last.tradeId] else 0.0
  }

  ghost predicate WithinCap(c: Config, bars: seq<Bar>, readings: seq<Reading>, s: State, k: nat)
    requires k <= |bars| == |readings|
  {
    var open := Replay(c, bars, readings, s, k).open;
    open == [] || OpenRisk(open, ApprovedRisk(c, bars, readings, s, k)) <= c.limits.maxTotalRiskPct
  }

  /** Every run from a flat start, on bars in time order, stays within the cap after every bar. */
  ghost predicate CapKept(c: Config) {
    forall bars, readings, s: State, k: nat :: Ascending(bars) && k <= |bars| == |readings| && s.open == [] ==>
      WithinCap(c, bars, readings, s, k)
  }

  // ---------------------------------------------------------------- never more than there is room for

  /** Opened one after another, on bars up to i. */
  ghost predicate InTurn(open: seq<OpenTrade>, i: int) {
    && (forall j {:trigger open[j]} :: 0 <= j < |open| ==> open[j].openedBarIndex <= i)
    && (forall j, l {:trigger open[j], open[l]} :: 0 <= j < l < |open| ==>
      open[j].openedBarIndex < open[l].openedBarIndex)
  }

  lemma InTurnWithout(a: seq<OpenTrade>, t: OpenTrade, b: seq<OpenTrade>, i: int)
    requires InTurn(a + [t] + b, i)
    ensures InTurn(a + b, i)
  {
    var all, r := a + [t] + b, a + b;
    forall j {:trigger r[j]} | 0 <= j < |r| ensures r[j] == all[if j < |a| then j else j + 1] {}
  }

  lemma InTurnReplaced(a: seq<OpenTrade>, t: OpenTrade, u: OpenTrade, b: seq<OpenTrade>, i: int)
    requires InTurn(a + [t] + b, i) && u.openedBarIndex == t.openedBarIndex
    ensures InTurn(a + [u] + b, i)
  {
    var p, q := a + [t] + b, a + [u] + b;
    forall j {:trigger q[j]} | 0 <= j < |q| ensures q[j].openedBarIndex == p[j].openedBarIndex {}
  }

  lemma {:induction false} ManageInTurn(c: Config, s: State, trades: seq<OpenTrade>, b: Bar, i: int, k: nat, last: int)
    requires k <= |trades| && InTurn(trades, last)
    ensures InTurn(ManageTo(c, s, trades, b, i, k).open + trades[k..], last)
  {
    hide CheckExit, InTurn;
    if k == 0 {
      assert [] + trades[0..] == trades;
    } else {
      ManageInTurn(c, s, trades, b, i, k - 1, last);
      var m, t, rest := ManageTo(c, s, trades, b, i, k - 1), trades[k - 1], trades[k..];
      assert m.open + trades[k - 1..] == m.open + [t] + rest;
      InTurnWithout(m.open, t, rest, last);
      InTurnReplaced(m.open, t, WithExcursion(t, b), rest, last);
      assert m.open + [WithExcursion(t, b)] + rest == (m.open + [WithExcursion(t, b)]) + rest;
    }
  }

  lemma EnterInTurn(c: Config, s: State, v: Rules.Verdict, fv: Features.FeatureVector, b: Bar, i: int, signalId: int)
    requires MayEnter(c, s.equity, |s.open|, v) && InTurn(s.open, i - 1)
    ensures InTurn(Enter(c, s, v, fv, b, i, signalId).open, i)
  {
    hide GateDecision, MayEnter;
  }

  lemma StepInTurn(c: Config, s: State, b: Bar, r: Reading, i: nat)
    requires InTurn(s.open, i - 1) && !s.halted
    ensures InTurn(BarStep(c, s, b, r, i).open, i)
  {
    hide ManageTo, Enter, GateDecision, SignalOf, InTurn;
    ManageInTurn(c, s, s.open, b, i, |s.open|, i - 1);
    var m := Manage(c, s, b, i);
    assert m.open + s.open[|s.open|..] == m.open;
    LaterBar(m.open, i - 1, i);
    if r.verdict.Taken? {
      var q := BeforeEntry(c, s, b, r, i);
      if MayEnter(c, q.equity, |q.open|, r.verdict) { EnterInTurn(c, q, r.verdict, r.fv, b, i, m.nextId); }
    }
  }

  lemma LaterBar(open: seq<OpenTrade>, i: int, n: int)
    requires InTurn(open, i) && i <= n
    ensures InTurn(open, n)
  {
  }

  lemma {:induction false} RunInTurn(c: Config, bars: seq<Bar>, readings: seq<Reading>, s: State, k: nat)
    requires k <= |bars| == |readings| && s.open == []
    ensures InTurn(Replay(c, bars, readings, s, k).open, k - 1)
  {
    hide BarStep;
    if k > 0 {
      RunInTurn(c, bars, readings, s, k - 1);
      var p := Replay(c, bars, readings, s, k - 1);
      if p.halted {
        HaltedStays(c, p, bars[k - 1], readings[k - 1], k - 1);
        LaterBar(p.open, k - 2, k - 1);
      } else {
        StepInTurn(c, p, bars[k - 1], readings[k - 1], k - 1);
      }
    }
  }

  lemma {:induction false} Spread(open: seq<OpenTrade>, i: int, j: nat)
    requires InTurn(open, i) && j < |open|
    ensures open[0].openedBarIndex + j <= open[j].openedBarIndex
  {
    if j > 0 { Spread(open, i, j - 1); }
  }

  lemma YoungAreFew(c: Config, open: seq<OpenTrade>, i: int)
    requires InTurn(open, i) && Young(c, open, i) && c.timeStopBars.Some?
    ensures open == [] || |open| <= c.timeStopBars.value
  {
    if open != [] {
      Spread(open, i, |open| - 1);
      assert i - open[0].openedBarIndex < c.timeStopBars.value;
    }
  }

  /** After every bar of every run there are at most Room open trades. */
  lemma RunFitsRoom(c: Config, bars: seq<Bar>, readings: seq<Reading>, s: State, k: nat)
    requires ValidConfig(c) && k <= |bars| == |readings| && s.open == []
    ensures var open := Replay(c, bars, readings, s, k).open; open == [] || |open| <= Room(c)
    decreases k
  {
    hide BarStep, RowsJustified, Young, InTurn;
    RunIsOrderly(c, bars, readings, s, k);
    RunInTurn(c, bars, readings, s, k);
    var f := Replay(c, bars, readings, s, k);
    if !f.halted {
      if c.timeStopBars.Some? { YoungAreFew(c, f.open, k - 1); }
    } else if k > 0 {
      HaltedFits(c, bars, readings, s, k);
    }
  }

  /** The bar on which the rule layer raised adds no trade. */
  lemma HaltedFits(c: Config, bars: seq<Bar>, readings: seq<Reading>, s: State, k: nat)
    requires ValidConfig(c) && 0 < k <= |bars| == |readings| && s.open == [] && Replay(c, bars, readings, s, k).halted
    ensures var open := Replay(c, bars, readings, s, k).open; open == [] || |open| <= Room(c)
    decreases k, 0
  {
    hide BarStep, Room;
    var p := Replay(c, bars, readings, s, k - 1);
    RunFitsRoom(c, bars, readings, s, k - 1);
    RaisedAddsNone(c, p, bars[k - 1], readings[k - 1], k - 1);
  }

  lemma RaisedAddsNone(c: Config, s: State, b: Bar, r: Reading, i: nat)
    requires BarStep(c, s, b, r, i).halted
    ensures |BarStep(c, s, b, r, i).open| <= |s.open|
  {
    hide ManageTo, MayEnter, GateDecision, SignalOf;
    ManageKeepsFew(c, s, s.open, b, i, |s.open|);
  }

  lemma {:induction false} ManageKeepsFew(c: Config, s: State, trades: seq<OpenTrade>, b: Bar, i: int, k: nat)
    requires k <= |trades|
    ensures |ManageTo(c, s, trades, b, i, k).open| <= k && ManageTo(c, s, trades, b, i, k).halted == s.halted
  {
    hide CheckExit, ClosePnl, CloseFill;
    if k > 0 { ManageKeepsFew(c, s, trades, b, i, k - 1); }
  }

  // ---------------------------------------------------------------- the condition keeps the cap

  /** Every open trade has an approved risk of which Room fit under the cap. */
  ghost predicate Fitting(c: Config, open: seq<OpenTrade>, risk: map<int, real>) {
    && c.limits.maxTotalRiskPct > 0.0 && c.tradeable
    && forall j {:trigger open[j]} :: 0 <= j < |open| ==> FitsOne(c, open[j].tradeId, risk)
  }

  predicate FitsOne(c: Config, id: int, risk: map<int, real>) {
    id in risk && Room(c) as real * risk[id] <= c.limits.maxTotalRiskPct
  }

  lemma {:induction false} SumFits(c: Config, open: seq<OpenTrade>, risk: map<int, real>)
    requires open == [] || Fitting(c, open, risk)
    ensures Room(c) as real * OpenRisk(open, risk) <= |open| as real * c.limits.maxTotalRiskPct
  {
    hide Room;
    if open != [] {
      var init, last := open[..|open| - 1], open[|open| - 1];
      assert init == [] || Fitting(c, init, risk) by {
        forall j {:trigger init[j]} | 0 <= j < |init| ensures init[j] == open[j] {}
      }
      SumFits(c, init, risk);
      assert FitsOne(c, last.tradeId, risk);
      var n, a, b, cap := Room(c) as real, OpenRisk(init, risk), risk[last.tradeId], c.limits.maxTotalRiskPct;
      assert n * (a + b) == n * a + n * b;
      assert |open| as real * cap == |init| as real * cap + cap;
    }
  }

  lemma CapFromSum(room: int, n: int, sum: real, cap: real)
    requires 0 < n <= room && cap > 0.0 && room as real * sum <= n as real * cap
    ensures sum <= cap
  {
    ScaleLeast((room - n) as real, cap);
    assert (room - n) as real * cap == room as real * cap - n as real * cap;
    assert room as real * (sum - cap) == room as real * sum - room as real * cap;
    if sum > cap { Scale(room as real, sum - cap); }
  }

  lemma Scale(x: real, y: real)
    requires x > 0.0 && y > 0.0
    ensures x * y > 0.0
  {
  }

  lemma ScaleLeast(x: real, y: real)
    requires x >= 0.0 && y > 0.0
    ensures x * y >= 0.0
  {
  }

  ghost predicate AllFit(c: Config, open: seq<OpenTrade>, risk: map<int, real>) {
    open == [] || Fitting(c, open, risk)
  }

  lemma {:induction false} ManageFits(c: Config, s: State, trades: seq<OpenTrade>, b: Bar, i: int, k: nat,
    risk: map<int, real>)
    requires k <= |trades| && AllFit(c, trades, risk)
    ensures AllFit(c, ManageTo(c, s, trades, b, i, k).open, risk)
  {
    hide CheckExit, ClosePnl, CloseFill, FitsOne;
    if k > 0 {
      ManageFits(c, s, trades, b, i, k - 1, risk);
      assert FitsOne(c, trades[k - 1].tradeId, risk);
    }
  }

  lemma EnterFits(c: Config, s: State, v: Rules.Verdict, fv: Features.FeatureVector, b: Bar, i: int, signalId: int,
    risk: map<int, real>)
    requires RoomFits(c) && MayEnter(c, s.equity, |s.open|, v) && AllFit(c, s.open, risk)
    ensures AllFit(c, Enter(c, s, v, fv, b, i, signalId).open,
      risk[s.nextId + 1 := GateDecision(c, s.equity, |s.open|, v).riskPct])
  {
    hide GateDecision, Room;
    EntersIff(c, s.equity, |s.open|, v);
    var r, more := GateDecision(c, s.equity, |s.open|, v).riskPct, Enter(c, s, v, fv, b, i, signalId).open;
    var wider := risk[s.nextId + 1 := r];
    forall j {:trigger more[j]} | 0 <= j < |more| ensures FitsOne(c, more[j].tradeId, wider) {
      if j < |s.open| { assert more[j] == s.open[j] && FitsOne(c, s.open[j].tradeId, risk); }
    }
  }

  lemma {:induction false} RunFits(c: Config, bars: seq<Bar>, readings: seq<Reading>, s: State, k: nat)
    requires RoomFits(c) && k <= |bars| == |readings| && s.open == []
    ensures AllFit(c, Replay(c, bars, readings, s, k).open, ApprovedRisk(c, bars, readings, s, k))
  {
    hide AllFit, RoomFits, ManageTo, Enter, GateDecision, SignalOf;
    if k == 0 {
      NothingOpen(c);
    } else {
      RunFits(c, bars, readings, s, k - 1);
      var p, b, r, risk := Replay(c, bars, readings, s, k - 1), bars[k - 1], readings[k - 1],
        ApprovedRisk(c, bars, readings, s, k - 1);
      ManageFits(c, p, p.open, b, k - 1, |p.open|, risk);
      if !p.halted && r.verdict.Taken? {
        var q := BeforeEntry(c, p, b, r, k - 1);
        if MayEnter(c, q.equity, |q.open|, r.verdict) {
          EnterFits(c, q, r.verdict, r.fv, b, k - 1, q.nextId - 1, risk);
        }
      }
    }
  }

  lemma NothingOpen(c: Config)
    ensures AllFit(c, [], map[])
  {
  }

  /** When as many of the riskiest approvable trade as there is room for fit under the cap, the summed approved risk
      of the open trades is within it after every bar of every run, on any bars. */
  lemma RunStaysWithinCap(c: Config, bars: seq<Bar>, readings: seq<Reading>, s: State, k: nat)
    requires ValidConfig(c) && RoomFits(c) && k <= |bars| == |readings| && s.open == []
    ensures WithinCap(c, bars, readings, s, k)
  {
    hide Replay, ApprovedRisk, Room, RoomFits;
    RunFits(c, bars, readings, s, k);
    RunFitsRoom(c, bars, readings, s, k);
    var open, risk := Replay(c, bars, readings, s, k).open, ApprovedRisk(c, bars, readings, s, k);
    if open != [] {
      SumFits(c, open, risk);
      CapFromSum(Room(c), |open|, OpenRisk(open, risk), c.limits.maxTotalRiskPct);
    }
  }

  // ---------------------------------------------------------------- and otherwise a run breaks it

  /** A price at which the trade neither stops out nor reaches a target one beyond it. */
  function CalmPrice(v: Rules.Verdict): real
    requires v.Taken?
  {
    if v.direction == Long then v.stop + 1.0 else v.stop - 1.0
  }

  /** The same signal with a target out of reach. */
  function Patient(v: Rules.Verdict): Rules.Verdict
    requires v.Taken?
  {
    Rules.Taken(v.direction, v.entry, v.stop, if v.direction == Long then v.stop + 2.0 else v.stop - 2.0)
  }

  function CalmBars(c: Config, price: real, n: nat): (bars: seq<Bar>)
    ensures |bars| == n
    ensures forall j {:trigger bars[j]} :: 0 <= j < n ==>
      bars[j] == Bar(j * c.seconds, price, price, price, price, 0.0, price, price)
  {
    seq(n, j => Bar(j * c.seconds, price, price, price, price, 0.0, price, price))
  }

  function SameReadings(v: Rules.Verdict, n: nat): (readings: seq<Reading>)
    ensures |readings| == n
    ensures forall j {:trigger readings[j]} :: 0 <= j < n ==> readings[j].verdict == v
  {
    seq(n, j => Reading(Features.FeatureVector(0, map[]), v))
  }

  lemma CalmAscends(c: Config, price: real, n: nat)
    requires c.seconds > 0
    ensures Ascending(CalmBars(c, price, n))
  {
    var bars := CalmBars(c, price, n);
    forall i, j | 0 <= i < j < |bars| ensures bars[i].ts < bars[j].ts {
      MulAtLeast(j - i, c.seconds);
      assert j * c.seconds - i * c.seconds == (j - i) * c.seconds;
    }
  }

  /** A trade of such a signal, opened on bar j or later, on such a bar. */
  predicate Patience(c: Config, v: Rules.Verdict, t: OpenTrade, risk: map<int, real>) {
    && v.Taken? && t.direction == v.direction && t.stopPrice == v.stop && t.targetPrice == Patient(v).target
    && t.timeStopBars == c.timeStopBars && t.openedBarIndex >= 0
    && t.tradeId in risk && risk[t.tradeId] == ClampedRisk(c, v)
  }

  ghost predicate AllPatient(c: Config, v: Rules.Verdict, open: seq<OpenTrade>, risk: map<int, real>) {
    forall j {:trigger open[j]} :: 0 <= j < |open| ==> Patience(c, v, open[j], risk)
  }

  lemma {:induction false} NobodyLeaves(c: Config, v: Rules.Verdict, s: State, b: Bar, i: int, k: nat, risk: map<int,
    real>)
    requires k <= |s.open| && AllPatient(c, v, s.open, risk) && v.Taken?
    requires b.high == b.low == b.close == CalmPrice(v) && (c.timeStopBars.Some? ==> i < c.timeStopBars.value)
    ensures var m := ManageTo(c, s, s.open, b, i, k);
      |m.open| == k && AllPatient(c, v, m.open, risk) && m.halted == s.halted
  {
    hide WithExcursion, ClosePnl, CloseFill;
    if k > 0 {
      NobodyLeaves(c, v, s, b, i, k - 1, risk);
      assert Patience(c, v, s.open[k - 1], risk);
      StillPatient(c, v, s.open[k - 1], b, risk);
    }
  }

  lemma StillPatient(c: Config, v: Rules.Verdict, t: OpenTrade, b: Bar, risk: map<int, real>)
    requires Patience(c, v, t, risk)
    ensures Patience(c, v, WithExcursion(t, b), risk)
  {
  }

  lemma EnterPatient(c: Config, v: Rules.Verdict, s: State, fv: Features.FeatureVector, b: Bar, i: nat, signalId: int,
    risk: map<int, real>)
    requires v.Taken? && MayEnter(c, s.equity, |s.open|, Patient(v)) && AllPatient(c, v, s.open, risk)
    ensures var e := Enter(c, s, Patient(v), fv, b, i, signalId);
      && AllPatient(c, v, e.open, risk[s.nextId + 1 := GateDecision(c, s.equity, |s.open|, Patient(v)).riskPct])
      && |e.open| == |s.open| + 1 && e.halted == s.halted
  {
    hide GateDecision;
    EntersIff(c, s.equity, |s.open|, Patient(v));
    var r := GateDecision(c, s.equity, |s.open|, Patient(v)).riskPct;
    assert r == ClampedRisk(c, v);
    var more, wider := Enter(c, s, Patient(v), fv, b, i, signalId).open, risk[s.nextId + 1 := r];
    forall j {:trigger more[j]} | 0 <= j < |more| ensures Patience(c, v, more[j], wider) {
      if j < |s.open| { assert more[j] == s.open[j] && Patience(c, v, s.open[j], risk); }
    }
  }

  lemma PatientApprovable(c: Config, v: Rules.Verdict)
    requires Approvable(c, v)
    ensures v.Taken? && Approvable(c, Patient(v)) && ClampedRisk(c, Patient(v)) == ClampedRisk(c, v)
  {
  }

  lemma RoomIsLeast(c: Config)
    ensures Room(c) <= c.maxConcurrent && Room(c) <= c.limits.maxConcurrentPositions
    ensures c.timeStopBars.Some? ==> Room(c) <= c.timeStopBars.value
  {
  }

  lemma NobodyPatient(c: Config, v: Rules.Verdict)
    ensures AllPatient(c, v, [], map[])
  {
  }

  /** One such bar adds a trade. */
  lemma OneMoreTrade(c: Config, v: Rules.Verdict, s: State, b: Bar, r: Reading, i: nat, risk: map<int, real>)
    requires Approvable(c, v) && c.tradeable && r.verdict == Patient(v) && b.high == b.low == b.close == CalmPrice(v)
    requires |s.open| == i && i < c.maxConcurrent && i < c.limits.maxConcurrentPositions
    requires (c.timeStopBars.Some? ==> i < c.timeStopBars.value)
    requires !s.halted && AllPatient(c, v, s.open, risk)
    ensures var q, f := BeforeEntry(c, s, b, r, i), BarStep(c, s, b, r, i);
      && MayEnter(c, q.equity, |q.open|, r.verdict) && |f.open| == i + 1 && !f.halted
      && AllPatient(c, v, f.open, risk[q.nextId + 1 := GateDecision(c, q.equity, |q.open|, r.verdict).riskPct])
  {
    hide ManageTo, Enter, GateDecision, SignalOf, CalmPrice, AllPatient, Approvable, ClampedRisk;
    PatientApprovable(c, v);
    NobodyLeaves(c, v, s, b, i, |s.open|, risk);
    var q := BeforeEntry(c, s, b, r, i);
    EntersIff(c, q.equity, |q.open|, Patient(v));
    EnterPatient(c, v, q, r.fv, b, i, q.nextId - 1, risk);
  }

  /** On such bars, with such a signal on each, every bar adds a trade until there is no room left. */
  lemma {:induction false} RoomFillsUp(c: Config, v: Rules.Verdict, s: State, n: nat, k: nat)
    requires Approvable(c, v) && c.tradeable && k <= n && n <= Room(c) && s.open == [] && !s.halted
    ensures var bars, readings := CalmBars(c, CalmPrice(v), n), SameReadings(Patient(v), n);
      var f := Replay(c, bars, readings, s, k);
      |f.open| == k && !f.halted && AllPatient(c, v, f.open, ApprovedRisk(c, bars, readings, s, k))
  {
    hide BarStep, MayEnter, CalmPrice, AllPatient, Approvable, Room, BeforeEntry, GateDecision;
    PatientApprovable(c, v);
    var bars, readings := CalmBars(c, CalmPrice(v), n), SameReadings(Patient(v), n);
    if k == 0 {
      NobodyPatient(c, v);
    } else {
      RoomFillsUp(c, v, s, n, k - 1);
      RoomIsLeast(c);
      OneMoreTrade(c, v, Replay(c, bars, readings, s, k - 1), bars[k - 1], readings[k - 1], k - 1,
        ApprovedRisk(c, bars, readings, s, k - 1));
    }
  }

  lemma {:induction false} PatientRisk(c: Config, v: Rules.Verdict, open: seq<OpenTrade>, risk: map<int, real>)
    requires v.Taken? && AllPatient(c, v, open, risk)
    ensures OpenRisk(open, risk) == |open| as real * ClampedRisk(c, v)
  {
    if open != [] {
      var init := open[..|open| - 1];
      forall j {:trigger init[j]} | 0 <= j < |init| ensures Patience(c, v, init[j], risk) { assert init[j] == open[j]; }
      PatientRisk(c, v, init, risk);
      assert Patience(c, v, open[|open| - 1], risk);
      assert |open| as real * ClampedRisk(c, v) == |init| as real * ClampedRisk(c, v) + ClampedRisk(c, v);
    }
  }

  /** When they do not fit, this run breaks the cap: as many bars as there is room for, at one calm price, with the
      signal on each. */
  lemma BreakingRun(c: Config, v: Rules.Verdict, s: State) returns (bars: seq<Bar>, readings: seq<Reading>)
    requires ValidConfig(c) && c.tradeable && Approvable(c, v) && s.open == [] && !s.halted
    requires Room(c) as real * ClampedRisk(c, v) > c.limits.maxTotalRiskPct
    ensures |bars| == |readings| == Room(c) && Ascending(bars) && |Replay(c, bars, readings, s, |bars|).open| == Room(c)
    ensures OpenRisk(Replay(c, bars, readings, s, |bars|).open, ApprovedRisk(c, bars, readings, s, |bars|)) ==
      Room(c) as real * ClampedRisk(c, v)
    ensures !WithinCap(c, bars, readings, s, |bars|)
  {
    hide Room, Replay, ApprovedRisk, Patience, OpenRisk, CalmPrice;
    var n := Room(c);
    bars, readings := CalmBars(c, CalmPrice(v), n), SameReadings(Patient(v), n);
    CalmAscends(c, CalmPrice(v), n);
    RoomFillsUp(c, v, s, n, n);
    PatientRisk(c, v, Replay(c, bars, readings, s, n).open, ApprovedRisk(c, bars, readings, s, n));
  }

  /** In every run the summed approved risk of the open trades stays within the cap, if and only if Room of the
      riskiest approvable trade do, or the strategy does not trade. */
  lemma CapKeptIffRoomFits(c: Config)
    requires ValidConfig(c)
    ensures CapKept(c) <==> RoomFits(c)
  {
    hide WithinCap, Room;
    if RoomFits(c) {
      forall bars, readings, s: State, k: nat | Ascending(bars) && k <= |bars| == |readings| && s.open == []
        ensures WithinCap(c, bars, readings, s, k)
      {
        RunStaysWithinCap(c, bars, readings, s, k);
      }
    }
    if CapKept(c) && c.tradeable {
      forall v | Approvable(c, v) ensures Room(c) as real * ClampedRisk(c, v) <= c.limits.maxTotalRiskPct {
        if Room(c) as real * ClampedRisk(c, v) > c.limits.maxTotalRiskPct {
          var s := Start(0.0, [], map[], 0);
          var bars, readings := BreakingRun(c, v, s);
        }
      }
    }
  }

  /** With the default sizer, which always proposes the maximum, and limits that approve anything at all: the cap
      holds in every run if and only if Room times the maximum risk per trade is within it. */
  lemma FixedFractionCapKept(c: Config, v: Rules.Verdict)
    requires ValidConfig(c) && c.tradeable && Approvable(c, v)
    requires forall p :: c.sizer(p, c.limits) == c.limits.maxRiskPerTradePct
    ensures CapKept(c) <==> Room(c) as real * c.limits.maxRiskPerTradePct <= c.limits.maxTotalRiskPct
  {
    hide Room, CapKept;
    CapKeptIffRoomFits(c);
    assert ClampedRisk(c, v) == c.limits.maxRiskPerTradePct;
    assert forall w: Rules.Verdict :: Approvable(c, w) ==> ClampedRisk(c, w) == c.limits.maxRiskPerTradePct;
  }
}

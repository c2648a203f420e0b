/** The hard risk gate between the rule engine and execution, and what it guarantees about a book over
    any run when the book carries the risk of every approved position. */
module RiskGate {
  import opened Prelude

  datatype Limits = Limits(
    maxRiskPerTradePct: real,
    maxConcurrentPositions: int,
    maxTotalRiskPct: real,
    correlatedExposureCapPct: real,
    dailyLossLimitPct: real,
    weeklyLossLimitPct: real,
    correlatedGroups: seq<set<string>>)

  datatype OpenPosition = OpenPosition(symbol: string, riskPct: real)

  datatype Portfolio = Portfolio(
    equity: real,
    openPositions: seq<OpenPosition>,
    realisedPnlTodayPct: real,
    realisedPnlThisWeekPct: real)

  datatype Proposal = Proposal(symbol: string, direction: Direction, entryPrice: real, stopPrice: real)

  datatype Veto = DailyLoss | WeeklyLoss | MaxConcurrent | NoRisk | BookRisk | CorrelatedExposure | ZeroStopDistance

  datatype Decision = Approved(riskPct: real, sizeUnits: real) | Rejected(reason: Veto)

  /** A pluggable sizer: any function of the proposal and the limits. */
  type Sizer = (Proposal, Limits) -> real

  function TotalRisk(book: seq<OpenPosition>): real {
    if book == [] then 0.0 else TotalRisk(book[..|book| - 1]) + book[|book| - 1].riskPct
  }

  function GroupRisk(book: seq<OpenPosition>, group: set<string>): real {
    if book == [] then 0.0
    else GroupRisk(book[..|book| - 1], group) + if book[|book| - 1].symbol in group then book[|book| - 1].riskPct
      else 0.0
  }

  /** The first configured group that contains the symbol; later groups are not looked at. */
  function FirstGroup(groups: seq<set<string>>, symbol: string): Option<set<string>> {
    if groups == [] then None
    else if symbol in groups[0] then Some(groups[0])
    else FirstGroup(groups[1..], symbol)
  }

  function Evaluate(limits: Limits, sizer: Sizer, p: Proposal, portfolio: Portfolio): Decision {
    if portfolio.realisedPnlTodayPct <= -Abs(limits.dailyLossLimitPct) then Rejected(DailyLoss)
    else if portfolio.realisedPnlThisWeekPct <= -Abs(limits.weeklyLossLimitPct) then Rejected(WeeklyLoss)
    else if |portfolio.openPositions| >= limits.maxConcurrentPositions then Rejected(MaxConcurrent)
    else Sized(limits, Min(sizer(p, limits), limits.maxRiskPerTradePct), p, portfolio)
  }

  /** The checks on a clamped risk percentage, and the size that goes with it. */
  function Sized(limits: Limits, riskPct: real, p: Proposal, portfolio: Portfolio): Decision {
    if riskPct <= 0.0 then Rejected(NoRisk)
    else if TotalRisk(portfolio.openPositions) + riskPct > limits.maxTotalRiskPct then Rejected(BookRisk)
    else
      var group := FirstGroup(limits.correlatedGroups, p.symbol);
      if group.Some? && riskPct + GroupRisk(portfolio.openPositions, group.value) > limits.correlatedExposureCapPct then
        Rejected(CorrelatedExposure)
      else
        var stopDistance := Abs(p.entryPrice - p.stopPrice);
        if stopDistance <= 0.0 then Rejected(ZeroStopDistance)
        else Approved(riskPct, portfolio.equity * (riskPct / 100.0) / stopDistance)
  }

  // ---------------------------------------------------------------- one decision

  /** What approval means: risk, count and total limits hold with the new position, and the size risks exactly
      the approved fraction of equity at the stop. */
  lemma ApprovalRespectsLimits(limits: Limits, sizer: Sizer, p: Proposal, portfolio: Portfolio)
    requires Evaluate(limits, sizer, p, portfolio).Approved?
    ensures var d := Evaluate(limits, sizer, p, portfolio);
      && 0.0 < d.riskPct <= limits.maxRiskPerTradePct
      && |portfolio.openPositions| + 1 <= limits.maxConcurrentPositions
      && TotalRisk(portfolio.openPositions) + d.riskPct <= limits.maxTotalRiskPct
      && d.sizeUnits * Abs(p.entryPrice - p.stopPrice) == portfolio.equity * (d.riskPct / 100.0)
  {
    var d := Evaluate(limits, sizer, p, portfolio);
    DivideThenMultiply(portfolio.equity * (d.riskPct / 100.0), Abs(p.entryPrice - p.stopPrice));
  }

  /** A sizer matters only through the clamp: proposals at or above the maximum are indistinguishable. */
  lemma GreedySizersAreClamped(limits: Limits, a: Sizer, b: Sizer, p: Proposal, portfolio: Portfolio)
    requires a(p, limits) >= limits.maxRiskPerTradePct && b(p, limits) >= limits.maxRiskPerTradePct
    ensures Evaluate(limits, a, p, portfolio) == Evaluate(limits, b, p, portfolio)
  {
    assert Min(a(p, limits), limits.maxRiskPerTradePct) == limits.maxRiskPerTradePct;
    assert Min(b(p, limits), limits.maxRiskPerTradePct) == limits.maxRiskPerTradePct;
  }

  /** Group i is the first that contains the symbol. */
  predicate FirstWith(groups: seq<set<string>>, symbol: string, i: int) {
    0 <= i < |groups| && symbol in groups[i] && forall j :: 0 <= j < i ==> symbol !in groups[j]
  }

  lemma {:induction false} FirstGroupIs(groups: seq<set<string>>, symbol: string)
    ensures FirstGroup(groups, symbol).None? ==> forall i :: 0 <= i < |groups| ==> symbol !in groups[i]
    ensures FirstGroup(groups, symbol).Some? ==>
      exists i :: FirstWith(groups, symbol, i) && groups[i] == FirstGroup(groups, symbol).value
  {
    if groups != [] && symbol !in groups[0] {
      var rest := groups[1..];
      FirstGroupIs(rest, symbol);
      assert forall j :: 1 <= j < |groups| ==> groups[j] == rest[j - 1];
      if FirstGroup(rest, symbol).Some? {
        var i :| FirstWith(rest, symbol, i) && rest[i] == FirstGroup(rest, symbol).value;
        assert FirstWith(groups, symbol, i + 1);
      }
    } else if groups != [] {
      assert FirstWith(groups, symbol, 0);
    }
  }

  /** What each veto says. The loss limits count by their size, whatever their sign. */
  ghost predicate Stands(veto: Veto, limits: Limits, riskPct: real, p: Proposal, portfolio: Portfolio) {
    match veto
    case DailyLoss =>
      portfolio.realisedPnlTodayPct <= limits.dailyLossLimitPct
        && portfolio.realisedPnlTodayPct <= -limits.dailyLossLimitPct
    case WeeklyLoss =>
      portfolio.realisedPnlThisWeekPct <= limits.weeklyLossLimitPct
        && portfolio.realisedPnlThisWeekPct <= -limits.weeklyLossLimitPct
    case MaxConcurrent => |portfolio.openPositions| >= limits.maxConcurrentPositions
    case NoRisk => riskPct <= 0.0
    case BookRisk => TotalRisk(portfolio.openPositions + [OpenPosition(p.symbol, riskPct)]) > limits.maxTotalRiskPct
    case CorrelatedExposure =>
      exists i :: FirstWith(limits.correlatedGroups, p.symbol, i)
        && GroupRisk(portfolio.openPositions + [OpenPosition(p.symbol, riskPct)], limits.correlatedGroups[i]) >
          limits.correlatedExposureCapPct
    case ZeroStopDistance => p.entryPrice == p.stopPrice
  }

  /** The order in which they are checked. */
  function Rank(veto: Veto): int {
    match veto
    case DailyLoss => 0
    case WeeklyLoss => 1
    case MaxConcurrent => 2
    case NoRisk => 3
    case BookRisk => 4
    case CorrelatedExposure => 5
    case ZeroStopDistance => 6
  }

  predicate Clamps(riskPct: real, proposed: real, limit: real) {
    (riskPct == proposed <= limit) || (riskPct == limit <= proposed)
  }

  /** Any book, any sizer: with the proposed risk clamped to the limit of one trade, a trade is approved if and only if
      no veto stands against the book with it, and otherwise turned down with the first that does. */
  lemma DecisionExactly(limits: Limits, sizer: Sizer, p: Proposal, portfolio: Portfolio, riskPct: real)
    requires Clamps(riskPct, sizer(p, limits), limits.maxRiskPerTradePct)
    ensures var d := Evaluate(limits, sizer, p, portfolio);
      && (d.Approved? <==> forall veto :: !Stands(veto, limits, riskPct, p, portfolio))
      && (d.Approved? ==> d.riskPct == riskPct)
      && (d.Rejected? ==> Stands(d.reason, limits, riskPct, p, portfolio))
      && (d.Rejected? ==> forall veto ::
            Rank(veto) < Rank(d.reason) ==> !Stands(veto, limits, riskPct, p, portfolio))
  {
    hide GroupRisk, TotalRisk, FirstGroup, FirstWith;
    var book, one := portfolio.openPositions, OpenPosition(p.symbol, riskPct);
    TotalRiskConcat(book, [one]);
    SingleRisk(one, {});
    CorrelatedIs(limits, riskPct, p, portfolio);
    var d := Evaluate(limits, sizer, p, portfolio);
    assert d.Rejected? ==> Stands(d.reason, limits, riskPct, p, portfolio);
    forall veto | Stands(veto, limits, riskPct, p, portfolio)
      ensures d.Rejected? && Rank(d.reason) <= Rank(veto)
    {
      match veto {
        case DailyLoss =>
        case WeeklyLoss =>
        case MaxConcurrent =>
        case NoRisk =>
        case BookRisk =>
        case CorrelatedExposure =>
        case ZeroStopDistance =>
      }
    }
  }

  lemma CorrelatedIs(limits: Limits, riskPct: real, p: Proposal, portfolio: Portfolio)
    ensures Stands(CorrelatedExposure, limits, riskPct, p, portfolio) <==>
      var group := FirstGroup(limits.correlatedGroups, p.symbol);
      group.Some? && riskPct + GroupRisk(portfolio.openPositions, group.value) > limits.correlatedExposureCapPct
  {
    hide GroupRisk, FirstGroup;
    var groups, book, one := limits.correlatedGroups, portfolio.openPositions, OpenPosition(p.symbol, riskPct);
    FirstGroupIs(groups, p.symbol);
    forall i | FirstWith(groups, p.symbol, i)
      ensures GroupRisk(book + [one], groups[i]) == GroupRisk(book, groups[i]) + riskPct
    {
      GroupRiskConcat(book, [one], groups[i]);
      SingleRisk(one, groups[i]);
    }
    var group := FirstGroup(groups, p.symbol);
    if group.Some? {
      var i :| FirstWith(groups, p.symbol, i) && groups[i] == group.value;
      assert forall j :: FirstWith(groups, p.symbol, j) ==> j == i by {
        forall j | FirstWith(groups, p.symbol, j) ensures j == i { assert j < i || i < j || i == j; }
      }
    }
  }

  // ---------------------------------------------------------------- a book over a run

  /** What can happen to a book: a proposal reaches the gate with an arbitrary sizer, equity and
      realised P&L, or the position at an index closes. */
  datatype Event =
    | Propose(sizer: Sizer, proposal: Proposal, equity: real, today: real, week: real)
    | Close(index: nat)

  function Step(limits: Limits, book: seq<OpenPosition>, e: Event): seq<OpenPosition> {
    match e
    case Close(i) => if i < |book| then book[..i] + book[i + 1..] else book
    case Propose(sizer, p, equity, today, week) =>
      match Evaluate(limits, sizer, p, Portfolio(equity, book, today, week))
      case Approved(riskPct, _) => book + [OpenPosition(p.symbol, riskPct)]
      case Rejected(_) => book
  }

  function Run(limits: Limits, events: seq<Event>): seq<OpenPosition> {
    if events == [] then [] else Step(limits, Run(limits, events[..|events| - 1]), events[|events| - 1])
  }

  ghost predicate GroupCapped(limits: Limits, book: seq<OpenPosition>, group: set<string>) {
    GroupRisk(book, group) <= limits.correlatedExposureCapPct || GroupRisk(book, group) == 0.0
  }

  ghost predicate RisksPositive(limits: Limits, book: seq<OpenPosition>) {
    forall p :: p in book ==> 0.0 < p.riskPct <= limits.maxRiskPerTradePct
  }

  ghost predicate BookWithinLimits(limits: Limits, book: seq<OpenPosition>) {
    && RisksPositive(limits, book)
    && (book == [] || |book| <= limits.maxConcurrentPositions)
    && (book == [] || TotalRisk(book) <= limits.maxTotalRiskPct)
  }

  ghost predicate DisjointGroups(groups: seq<set<string>>) {
    forall i, j, s :: 0 <= i < j < |groups| && s in groups[i] ==> s !in groups[j]
  }

  lemma {:induction false} TotalRiskConcat(a: seq<OpenPosition>, b: seq<OpenPosition>)
    ensures TotalRisk(a + b) == TotalRisk(a) + TotalRisk(b)
  {
    if b == [] {
      assert a + b == a;
    } else {
      assert (a + b)[..|a + b| - 1] == a + b[..|b| - 1];
      TotalRiskConcat(a, b[..|b| - 1]);
    }
  }

  lemma {:induction false} GroupRiskConcat(a: seq<OpenPosition>, b: seq<OpenPosition>, group: set<string>)
    ensures GroupRisk(a + b, group) == GroupRisk(a, group) + GroupRisk(b, group)
  {
    if b == [] {
      assert a + b == a;
    } else {
      assert (a + b)[..|a + b| - 1] == a + b[..|b| - 1];
      GroupRiskConcat(a, b[..|b| - 1], group);
    }
  }

  lemma {:induction false} RiskIsNonNegative(limits: Limits, book: seq<OpenPosition>, group: set<string>)
    requires RisksPositive(limits, book)
    ensures 0.0 <= GroupRisk(book, group) <= TotalRisk(book)
    ensures book != [] ==> TotalRisk(book) > 0.0
  {
    if book != [] {
      var init, last := book[..|book| - 1], book[|book| - 1];
      assert book == init + [last];
      assert last in book;
      RiskIsNonNegative(limits, init, group);
    }
  }

  lemma CloseLowersRisk(limits: Limits, book: seq<OpenPosition>, i: nat, group: set<string>)
    requires i < |book| && RisksPositive(limits, book)
    ensures var rest := book[..i] + book[i + 1..];
      && RisksPositive(limits, rest)
      && TotalRisk(rest) < TotalRisk(book)
      && GroupRisk(rest, group) <= GroupRisk(book, group)
      && GroupRisk(rest, group) >= 0.0
  {
    var rest := book[..i] + book[i + 1..];
    assert book == book[..i] + [book[i]] + book[i + 1..];
    assert [book[i]][..0] == [];
    assert book[i] in book;
    TotalRiskConcat(book[..i] + [book[i]], book[i + 1..]);
    TotalRiskConcat(book[..i], [book[i]]);
    TotalRiskConcat(book[..i], book[i + 1..]);
    GroupRiskConcat(book[..i] + [book[i]], book[i + 1..], group);
    GroupRiskConcat(book[..i], [book[i]], group);
    GroupRiskConcat(book[..i], book[i + 1..], group);
    SingleRisk(book[i], group);
    RiskIsNonNegative(limits, rest, group);
  }

  lemma SingleRisk(p: OpenPosition, group: set<string>)
    ensures TotalRisk([p]) == p.riskPct
    ensures GroupRisk([p], group) == if p.symbol in group then p.riskPct else 0.0
  {
    assert [p][..0] == [];
  }

  lemma StepKeepsLimits(limits: Limits, book: seq<OpenPosition>, e: Event)
    requires BookWithinLimits(limits, book)
    ensures BookWithinLimits(limits, Step(limits, book, e))
  {
    match e
    case Close(i) =>
      if i < |book| { CloseLowersRisk(limits, book, i, {}); }
    case Propose(sizer, p, equity, today, week) =>
      var portfolio := Portfolio(equity, book, today, week);
      var d := Evaluate(limits, sizer, p, portfolio);
      if d.Approved? {
        ApprovalRespectsLimits(limits, sizer, p, portfolio);
        TotalRiskConcat(book, [OpenPosition(p.symbol, d.riskPct)]);
        SingleRisk(OpenPosition(p.symbol, d.riskPct), {});
      }
  }

  /** Over every run, with any sizer at every step and positions closing at any time, the number of
      positions, the total risk and every single risk stay within the limits. */
  lemma {:induction false} RunKeepsLimits(limits: Limits, events: seq<Event>)
    ensures BookWithinLimits(limits, Run(limits, events))
  {
    if events != [] {
      RunKeepsLimits(limits, events[..|events| - 1]);
      StepKeepsLimits(limits, Run(limits, events[..|events| - 1]), events[|events| - 1]);
    }
  }

  // ---------------------------------------------------------------- correlated groups

  /** All symbols of group g are checked against one and the same group. */
  ghost predicate OneFirstGroup(groups: seq<set<string>>, g: nat)
    requires g < |groups|
  {
    forall s, t :: s in groups[g] && t in groups[g] ==> FirstGroup(groups, s) == FirstGroup(groups, t)
  }

  lemma {:induction false} FirstGroupContains(groups: seq<set<string>>, s: string)
    ensures FirstGroup(groups, s).Some? ==> s in FirstGroup(groups, s).value
    ensures FirstGroup(groups, s).None? ==> forall i :: 0 <= i < |groups| ==> s !in groups[i]
  {
    if groups != [] && s !in groups[0] { FirstGroupContains(groups[1..], s); }
  }

  lemma {:induction false} GroupRiskMonotone(limits: Limits, book: seq<OpenPosition>, small: set<string>,
    large: set<string>)
    requires RisksPositive(limits, book) && small <= large
    ensures GroupRisk(book, small) <= GroupRisk(book, large)
  {
    if book != [] {
      var init, last := book[..|book| - 1], book[|book| - 1];
      assert book == init + [last];
      assert last in book;
      GroupRiskMonotone(limits, init, small, large);
    }
  }

  lemma StepKeepsGroupCap(limits: Limits, book: seq<OpenPosition>, e: Event, g: nat)
    requires g < |limits.correlatedGroups| && OneFirstGroup(limits.correlatedGroups, g)
    requires RisksPositive(limits, book) && GroupCapped(limits, book, limits.correlatedGroups[g])
    ensures GroupCapped(limits, Step(limits, book, e), limits.correlatedGroups[g])
  {
    hide Evaluate, GroupRisk, FirstGroup;
    var group := limits.correlatedGroups[g];
    match e
    case Close(i) =>
      if i < |book| { CloseLowersRisk(limits, book, i, group); }
    case Propose(sizer, p, equity, today, week) =>
      var portfolio := Portfolio(equity, book, today, week);
      var d := Evaluate(limits, sizer, p, portfolio);
      if d.Approved? {
        var added := OpenPosition(p.symbol, d.riskPct);
        GroupRiskConcat(book, [added], group);
        SingleRisk(added, group);
        if p.symbol in group {
          var first := SharedFirstGroup(limits.correlatedGroups, g, p.symbol);
          ApprovalCapsFirstGroup(limits, sizer, p, portfolio, first);
          GroupRiskMonotone(limits, book, group, first);
        }
      }
  }

  /** The one group a symbol is checked against. */
  lemma ApprovalCapsFirstGroup(limits: Limits, sizer: Sizer, p: Proposal, portfolio: Portfolio, first: set<string>)
    requires Evaluate(limits, sizer, p, portfolio).Approved?
    requires FirstGroup(limits.correlatedGroups, p.symbol) == Some(first)
    ensures Evaluate(limits, sizer, p, portfolio).riskPct +
      GroupRisk(portfolio.openPositions, first) <= limits.correlatedExposureCapPct
  {
  }

  lemma SharedFirstGroup(groups: seq<set<string>>, g: nat, symbol: string) returns (first: set<string>)
    requires g < |groups| && OneFirstGroup(groups, g) && symbol in groups[g]
    ensures FirstGroup(groups, symbol) == Some(first) && groups[g] <= first
  {
    hide FirstGroup;
    FirstGroupContains(groups, symbol);
    first := FirstGroup(groups, symbol).value;
    forall s | s in groups[g] ensures s in first { FirstGroupContains(groups, s); }
  }

  /** Over every run, the exposure of a group whose symbols are all checked against one group never
      exceeds the cap. */
  lemma {:induction false} RunKeepsGroupCap(limits: Limits, events: seq<Event>, g: nat)
    requires g < |limits.correlatedGroups| && OneFirstGroup(limits.correlatedGroups, g)
    ensures GroupCapped(limits, Run(limits, events), limits.correlatedGroups[g])
  {
    if events != [] {
      var init := events[..|events| - 1];
      RunKeepsGroupCap(limits, init, g);
      RunKeepsLimits(limits, init);
      StepKeepsGroupCap(limits, Run(limits, init), events[|events| - 1], g);
    }
  }

  /** With pairwise disjoint groups every group is capped over every run. */
  lemma DisjointGroupsAreCapped(limits: Limits, events: seq<Event>)
    requires DisjointGroups(limits.correlatedGroups)
    ensures forall g :: 0 <= g < |limits.correlatedGroups| ==>
      GroupCapped(limits, Run(limits, events), limits.correlatedGroups[g])
  {
    var groups := limits.correlatedGroups;
    forall g | 0 <= g < |groups| ensures GroupCapped(limits, Run(limits, events), groups[g]) {
      forall s | s in groups[g] ensures FirstGroup(groups, s) == Some(groups[g]) {
        DisjointFirstGroup(groups, g, s);
      }
      RunKeepsGroupCap(limits, events, g);
    }
  }

  lemma {:induction false} DisjointFirstGroup(groups: seq<set<string>>, g: nat, s: string)
    requires g < |groups| && s in groups[g]
    requires forall i :: 0 <= i < g ==> s !in groups[i]
    ensures FirstGroup(groups, s) == Some(groups[g])
  {
    if g > 0 {
      assert s !in groups[0];
      DisjointFirstGroup(groups[1..], g - 1, s);
    }
  }

  ghost predicate CapHoldsInEveryRun(groups: seq<set<string>>, g: nat)
    requires g < |groups|
  {
    forall limits: Limits, events: seq<Event> {:trigger Run(limits, events)} ::
      limits.correlatedGroups == groups ==> GroupCapped(limits, Run(limits, events), groups[g])
  }

  /** Overlapping groups: because the gate stops at the first group that contains the symbol, the cap
      of group g holds in every run under all limits if and only if its symbols share a first group. */
  lemma GroupCapHoldsIffOneFirstGroup(groups: seq<set<string>>, g: nat)
    requires g < |groups|
    ensures CapHoldsInEveryRun(groups, g) <==> OneFirstGroup(groups, g)
  {
    if OneFirstGroup(groups, g) {
      forall limits: Limits, events: seq<Event> {:trigger Run(limits, events)} | limits.correlatedGroups == groups
        ensures GroupCapped(limits, Run(limits, events), groups[g])
      {
        RunKeepsGroupCap(limits, events, g);
      }
    } else {
      var s, t :| s in groups[g] && t in groups[g] && FirstGroup(groups, s) != FirstGroup(groups, t);
      FirstGroupContains(groups, s);
      FirstGroupContains(groups, t);
      FirstGroupsDoNotOverlapTwice(groups, s, t);
      if s !in FirstGroup(groups, t).value {
        UncheckedPairExceedsCap(groups, g, s, t);
      } else {
        UncheckedPairExceedsCap(groups, g, t, s);
      }
    }
  }

  lemma {:induction false} FirstGroupsDoNotOverlapTwice(groups: seq<set<string>>, s: string, t: string)
    requires FirstGroup(groups, s).Some? && FirstGroup(groups, t).Some?
    requires FirstGroup(groups, s) != FirstGroup(groups, t)
    ensures s !in FirstGroup(groups, t).value || t !in FirstGroup(groups, s).value
  {
    if s !in groups[0] && t !in groups[0] {
      FirstGroupsDoNotOverlapTwice(groups[1..], s, t);
    }
  }

  /** Open s, then t, whose first group does not contain s: both are approved at the cap. */
  lemma UncheckedPairExceedsCap(groups: seq<set<string>>, g: nat, s: string, t: string)
    requires g < |groups| && s in groups[g] && t in groups[g] && s != t
    requires FirstGroup(groups, s).Some? && FirstGroup(groups, t).Some? && s !in FirstGroup(groups, t).value
    ensures !CapHoldsInEveryRun(groups, g)
  {
    var limits := Limits(1.0, 2, 2.0, 1.0, 1.0, 1.0, groups);
    var sizer: Sizer := (p, l) => 1.0;
    var first := Propose(sizer, Proposal(s, Long, 2.0, 1.0), 100.0, 0.0, 0.0);
    var second := Propose(sizer, Proposal(t, Long, 2.0, 1.0), 100.0, 0.0, 0.0);
    var one, two := [OpenPosition(s, 1.0)], [OpenPosition(s, 1.0), OpenPosition(t, 1.0)];
    SingleRisk(one[0], FirstGroup(groups, t).value);
    SecondApproval(limits, sizer, s, t, FirstGroup(groups, t).value);
    assert [first, second][..1] == [first];
    assert [first][..0] == [];
    assert Run(limits, [first]) == one;
    assert Run(limits, [first, second]) == two;
    SingleRisk(one[0], groups[g]);
    SingleRisk(OpenPosition(t, 1.0), groups[g]);
    assert two == one + [OpenPosition(t, 1.0)];
    GroupRiskConcat(one, [OpenPosition(t, 1.0)], groups[g]);
    assert !GroupCapped(limits, Run(limits, [first, second]), groups[g]);
  }

  lemma SecondApproval(limits: Limits, sizer: Sizer, s: string, t: string, group: set<string>)
    requires limits.maxRiskPerTradePct == 1.0 && limits.maxConcurrentPositions == 2 && limits.maxTotalRiskPct == 2.0
    requires limits.correlatedExposureCapPct == 1.0 && limits.dailyLossLimitPct == 1.0
    requires limits.weeklyLossLimitPct == 1.0
    requires FirstGroup(limits.correlatedGroups, t) == Some(group) && s !in group
    requires sizer(Proposal(t, Long, 2.0, 1.0), limits) == 1.0
    ensures Step(limits, [OpenPosition(s, 1.0)], Propose(sizer, Proposal(t, Long, 2.0, 1.0), 100.0, 0.0, 0.0))
      == [OpenPosition(s, 1.0), OpenPosition(t, 1.0)]
  {
    SingleRisk(OpenPosition(s, 1.0), group);
  }

}

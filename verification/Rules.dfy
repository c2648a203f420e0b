/** The rule engine of one strategy, and exactly how far back it looks. */
module Rules {
  import opened Prelude
  import opened Bars
  import opened Features

  datatype Verdict =
    | Quiet
    | Taken(direction: Direction, entry: real, stop: real, target: real)
    | TurnedDown(direction: Direction, reason: string)
    | Raised

  /** What the trading loops need of a rule engine. */
  type Rule = (FeatureVector, seq<Bar>) -> Verdict

  // ---------------------------------------------------------------- the vocabulary of a strategy

  datatype PriceField = OpenField | HighField | LowField | CloseField

  datatype Reference = AsianHigh | AsianLow | LondonHigh | LondonLow

  datatype Token = Literal(value: real) | Feature(key: Key) | Price(field: PriceField)

  datatype Operator = Greater | Less | AtLeast | AtMost | Equal

  datatype Condition =
    | PriceBreaks(reference: Reference, confirmation: PriceField)
    | IndicatorComparison(left: Token, op: Operator, right: Token)

  /** A filter sees the vector and the last closed bar; it passes with None or fails with a reason. */
  type Filter = (FeatureVector, Option<Bar>) -> Option<string>

  datatype StopRule = AtrStop(key: Key, multiple: real) | FixedStop(distance: real)

  datatype TargetRule = RTarget(multiple: real) | FixedTarget(distance: real)

  datatype Definition = Definition(
    conditions: seq<Condition>,
    filters: seq<Filter>,
    stop: StopRule,
    target: TargetRule)

  // ---------------------------------------------------------------- session extremes

  const DAY := 86400
  const HOUR := 3600

  function StartHour(r: Reference): int {
    if r.AsianHigh? || r.AsianLow? then 0 else 8
  }

  function EndHour(r: Reference): int {
    if r.AsianHigh? || r.AsianLow? then 8 else 16
  }

  predicate IsHigh(r: Reference) {
    r.AsianHigh? || r.LondonHigh?
  }

  function DayOf(ts: int): int {
    ts / DAY
  }

  function HourOf(ts: int): int {
    ts % DAY / HOUR
  }

  /** Today's session once its end hour has come, else yesterday's. */
  function SessionDay(ts: int, r: Reference): int {
    if HourOf(ts) >= EndHour(r) then DayOf(ts) else DayOf(ts) - 1
  }

  function SessionBars(bars: seq<Bar>, day: int, r: Reference): seq<Bar> {
    if bars == [] then []
    else if DayOf(bars[0].ts) == day && StartHour(r) <= HourOf(bars[0].ts) < EndHour(r) then
      [bars[0]] + SessionBars(bars[1..], day, r)
    else SessionBars(bars[1..], day, r)
  }

  function SessionExtreme(bars: seq<Bar>, ts: int, r: Reference): Option<real> {
    var session := SessionBars(bars, SessionDay(ts, r), r);
    if session == [] then None else Some(if IsHigh(r) then MaxHigh(session) else MinLow(session))
  }

  // ---------------------------------------------------------------- evaluation

  function FieldOf(b: Bar, f: PriceField): real {
    match f
    case OpenField => b.open
    case HighField => b.high
    case LowField => b.low
    case CloseField => b.close
  }

  /** A condition is met, not met, or cannot be evaluated at all. */
  datatype Check = Met | NotMet | Unresolvable

  function LastBar(bars: seq<Bar>): Option<Bar> {
    if bars == [] then None else Some(bars[|bars| - 1])
  }

  function CheckBreak(level: Option<real>, last: Option<Bar>, r: Reference, f: PriceField): Check {
    if level.None? || last.None? then NotMet
    else
      var price := FieldOf(last.value, f);
      if (if IsHigh(r) then price > level.value else price < level.value) then Met else NotMet
  }

  function Compare(a: real, op: Operator, b: real): bool {
    match op
    case Greater => a > b
    case Less => a < b
    case AtLeast => a >= b
    case AtMost => a <= b
    case Equal => a == b
  }

  datatype Operand = Absent | Number(value: real) | Text(text: string) | Instant(ts: int) | Unknown

  function Resolve(t: Token, fv: FeatureVector, last: Option<Bar>): Operand {
    match t
    case Literal(v) => Number(v)
    case Price(f) => if last.None? then Unknown else Number(FieldOf(last.value, f))
    case Feature(k) =>
      if k !in fv.values then Unknown
      else match fv.values[k]
           case Missing => Absent
           case Num(x) => Number(x)
           case Amount(n) => Number(n as real)
           case Flag(b) => Number(if b then 1.0 else 0.0)
           case Label(text) => Text(text)
           case Time(ts) => Instant(ts)
  }

  /** Texts are ordered character by character, a prefix before what it begins. */
  predicate Precedes(a: string, b: string) {
    b != "" && (a == "" || a[0] < b[0] || (a[0] == b[0] && Precedes(a[1..], b[1..])))
  }

  function CompareText(a: string, op: Operator, b: string): bool {
    match op
    case Greater => Precedes(b, a)
    case Less => Precedes(a, b)
    case AtLeast => Precedes(b, a) || a == b
    case AtMost => Precedes(a, b) || a == b
    case Equal => a == b
  }

  function CheckOf(met: bool): Check {
    if met then Met else NotMet
  }

  /** A missing value fails the condition; an unknown name, or an ordering of two things of different kinds, is an
      error. */
  function CheckComparison(a: Operand, op: Operator, b: Operand): Check {
    if a.Unknown? || b.Unknown? then Unresolvable
    else if a.Absent? || b.Absent? then NotMet
    else if a.Number? && b.Number? then CheckOf(Compare(a.value, op, b.value))
    else if a.Text? && b.Text? then CheckOf(CompareText(a.text, op, b.text))
    else if a.Instant? && b.Instant? then CheckOf(Compare(a.ts as real, op, b.ts as real))
    else if op.Equal? then NotMet
    else Unresolvable
  }

  function CheckCondition(c: Condition, fv: FeatureVector, bars: seq<Bar>): Check {
    match c
    case PriceBreaks(r, f) => CheckBreak(SessionExtreme(bars, fv.ts, r), LastBar(bars), r, f)
    case IndicatorComparison(left, op, right) =>
      CheckComparison(Resolve(left, fv, LastBar(bars)), op, Resolve(right, fv, LastBar(bars)))
  }

  function Checks(conditions: seq<Condition>, fv: FeatureVector, bars: seq<Bar>): seq<Check> {
    if conditions == [] then []
    else Checks(conditions[..|conditions| - 1], fv, bars) + [CheckCondition(conditions[|conditions| - 1], fv, bars)]
  }

  function CountMet(checks: seq<Check>): nat {
    if checks == [] then 0 else CountMet(checks[..|checks| - 1]) + if checks[|checks| - 1].Met? then 1 else 0
  }

  function FirstFailure(filters: seq<Filter>, fv: FeatureVector, last: Option<Bar>): Option<string> {
    if filters == [] then None
    else
      var reason := filters[0](fv, last);
      if reason.Some? then reason else FirstFailure(filters[1..], fv, last)
  }

  /** The first condition with an implied direction decides; without one, long. */
  function InferDirection(conditions: seq<Condition>): Direction {
    if conditions == [] then Long
    else if conditions[0].PriceBreaks? then (if IsHigh(conditions[0].reference) then Long else Short)
    else InferDirection(conditions[1..])
  }

  function Away(price: real, direction: Direction, distance: real): real {
    if direction == Long then price + distance else price - distance
  }

  /** None when the stop needs a feature that is not there. */
  function StopLevel(rule: StopRule, entry: real, direction: Direction, fv: FeatureVector): Option<real> {
    match rule
    case FixedStop(d) => Some(Away(entry, direction, -d))
    case AtrStop(k, m) =>
      if k in fv.values && fv.values[k].Num? then Some(Away(entry, direction, -(m * fv.values[k].number))) else None
  }

  function TargetLevel(rule: TargetRule, entry: real, direction: Direction, stop: real): real {
    match rule
    case FixedTarget(d) => Away(entry, direction, d)
    case RTarget(m) => Away(entry, direction, m * Abs(entry - stop))
  }

  /** The decision once every condition has been checked. */
  function Decide(d: Definition, checks: seq<Check>, fv: FeatureVector, last: Option<Bar>): Verdict {
    var met, total, direction := CountMet(checks), |checks|, InferDirection(d.conditions);
    if Unresolvable in checks then Raised
    else if met < total && 2 * met < total then Quiet
    else if total == 0 then Quiet
    else if met < total then TurnedDown(direction, "near-miss entry")
    else
      var failure := FirstFailure(d.filters, fv, last);
      if failure.Some? then TurnedDown(direction, failure.value)
      else if last.None? then TurnedDown(direction, "no bar data available for entry price")
      else
        var entry := last.value.close;
        match StopLevel(d.stop, entry, direction, fv)
        case None => Raised
        case Some(stop) => Taken(direction, entry, stop, TargetLevel(d.target, entry, direction, stop))
  }

  function Evaluate(d: Definition, fv: FeatureVector, bars: seq<Bar>): Verdict {
    Decide(d, Checks(d.conditions, fv, bars), fv, LastBar(bars))
  }

  function RuleOf(d: Definition): Rule {
    (fv: FeatureVector, bars: seq<Bar>) => Evaluate(d, fv, bars)
  }

  // ---------------------------------------------------------------- what the decision means

  predicate SameKind(a: Operand, b: Operand) {
    (a.Number? && b.Number?) || (a.Text? && b.Text?) || (a.Instant? && b.Instant?)
  }

  lemma {:induction false} TextsAreOrdered(a: string, b: string)
    ensures Precedes(a, b) ==> !Precedes(b, a) && a != b
    ensures Precedes(a, b) || Precedes(b, a) || a == b
  {
    if a != "" && b != "" && a[0] == b[0] {
      TextsAreOrdered(a[1..], b[1..]);
      if a[1..] == b[1..] { assert a == [a[0]] + a[1..] && b == [b[0]] + b[1..]; }
    }
  }

  /** A comparison raises exactly on an unknown name or an ordering of different kinds; and of two present operands
      of one kind exactly one of less, equal and greater is met. */
  lemma ComparisonsAreTotal(a: Operand, b: Operand)
    ensures forall op :: CheckComparison(a, op, b) == Unresolvable <==>
      a.Unknown? || b.Unknown? || (!a.Absent? && !b.Absent? && !SameKind(a, b) && !op.Equal?)
    ensures SameKind(a, b) ==>
      (CheckComparison(a, Less, b) == Met <==>
        CheckComparison(a, Greater, b) == NotMet && CheckComparison(a, Equal, b) == NotMet)
    ensures SameKind(a, b) ==> (CheckComparison(a, AtLeast, b) == Met <==> CheckComparison(a, Less, b) == NotMet)
    ensures SameKind(a, b) ==> CheckComparison(a, Less, b) == CheckComparison(b, Greater, a)
  {
    if a.Text? && b.Text? {
      TextsAreOrdered(a.text, b.text);
      TextsAreOrdered(b.text, a.text);
    }
  }

  /** Taken exactly when there are conditions and all are met, no filter objects, there is a bar, and the
      stop can be computed. */
  lemma TakenExactly(d: Definition, fv: FeatureVector, bars: seq<Bar>)
    ensures Evaluate(d, fv, bars).Taken? <==>
      && d.conditions != []
      && (forall i :: 0 <= i < |d.conditions| ==> CheckCondition(d.conditions[i], fv, bars) == Met)
      && FirstFailure(d.filters, fv, LastBar(bars)) == None
      && bars != []
      && StopLevel(d.stop, bars[|bars| - 1].close, InferDirection(d.conditions), fv).Some?
  {
    var checks := Checks(d.conditions, fv, bars);
    ChecksAt(d.conditions, fv, bars);
    AllMet(checks);
    if CountMet(checks) == |checks| {
      assert forall i :: 0 <= i < |checks| ==> checks[i] == Met;
      assert Unresolvable !in checks;
    }
    assert forall i :: 0 <= i < |checks| ==> checks[i] == CheckCondition(d.conditions[i], fv, bars);
  }

  /** Then the entry is the last close, the stop lies its distance against the trade and the target its
      distance with it. */
  lemma TakenLevels(d: Definition, fv: FeatureVector, bars: seq<Bar>)
    requires Evaluate(d, fv, bars).Taken?
    ensures var t := Evaluate(d, fv, bars);
      var against, gain := if t.direction == Long then t.entry - t.stop else t.stop - t.entry,
        if t.direction == Long then t.target - t.entry else t.entry - t.target;
      && bars != [] && t.entry == bars[|bars| - 1].close && t.direction == InferDirection(d.conditions)
      && (match d.stop
          case FixedStop(x) => against == x
          case AtrStop(k, m) => k in fv.values && fv.values[k].Num? && against == m * fv.values[k].number)
      && (match d.target
          case FixedTarget(x) => gain == x
          case RTarget(m) => gain == m * Abs(t.entry - t.stop))
  {
    hide Checks, CountMet, FirstFailure, InferDirection;
  }

  /** Condition i is the first that breaks a session level, and it breaks a low. */
  predicate FirstBreaksLow(conditions: seq<Condition>, i: int) {
    && 0 <= i < |conditions| && conditions[i].PriceBreaks? && !IsHigh(conditions[i].reference)
    && forall j :: 0 <= j < i ==> !conditions[j].PriceBreaks?
  }

  /** Short exactly when the first condition that breaks a session level breaks a low. */
  lemma {:induction false} ShortExactly(conditions: seq<Condition>)
    ensures InferDirection(conditions) == Short <==> exists i :: FirstBreaksLow(conditions, i)
  {
    if conditions != [] && !conditions[0].PriceBreaks? {
      var rest := conditions[1..];
      ShortExactly(rest);
      if i :| FirstBreaksLow(rest, i) {
        assert forall j :: 0 < j < i + 1 ==> conditions[j] == rest[j - 1];
        assert FirstBreaksLow(conditions, i + 1);
      }
      if i :| FirstBreaksLow(conditions, i) {
        assert forall j :: 0 <= j < i - 1 ==> rest[j] == conditions[j + 1];
        assert FirstBreaksLow(rest, i - 1);
      }
    } else if conditions != [] && InferDirection(conditions) == Short {
      assert FirstBreaksLow(conditions, 0);
    }
  }

  lemma {:induction false} ChecksAt(conditions: seq<Condition>, fv: FeatureVector, bars: seq<Bar>)
    ensures |Checks(conditions, fv, bars)| == |conditions|
    ensures forall i {:trigger Checks(conditions, fv, bars)[i]} :: 0 <= i < |conditions| ==>
      Checks(conditions, fv, bars)[i] == CheckCondition(conditions[i], fv, bars)
  {
    if conditions != [] { ChecksAt(conditions[..|conditions| - 1], fv, bars); }
  }

  lemma {:induction false} AllMet(checks: seq<Check>)
    ensures CountMet(checks) <= |checks|
    ensures CountMet(checks) == |checks| <==> forall i :: 0 <= i < |checks| ==> checks[i] == Met
  {
    if checks != [] {
      AllMet(checks[..|checks| - 1]);
      assert forall i :: 0 <= i < |checks| - 1 ==> checks[..|checks| - 1][i] == checks[i];
    }
  }

  // ---------------------------------------------------------------- bounded look-back

  function SessionStart(ts: int, r: Reference): int {
    SessionDay(ts, r) * DAY + StartHour(r) * HOUR
  }

  function SessionEnd(ts: int, r: Reference): int {
    SessionDay(ts, r) * DAY + EndHour(r) * HOUR
  }

  lemma DayHourRange(t: int, day: int, start: int, end: int)
    requires 0 <= start <= end <= 24
    ensures DayOf(t) == day && start <= HourOf(t) < end <==> day * DAY + start * HOUR <= t < day * DAY + end * HOUR
  {
    var q, m := t / DAY, t % DAY;
    assert t == q * DAY + m && 0 <= m < DAY;
    assert start <= m / HOUR < end <==> start * HOUR <= m < end * HOUR;
  }

  /** The session asked for is the last one that has ended: never one still forming. */
  lemma SessionIsLastCompleted(ts: int, r: Reference)
    ensures SessionEnd(ts, r) <= ts < SessionEnd(ts, r) + DAY
    ensures ts - SessionStart(ts, r) < 32 * HOUR
  {
    var q, m := ts / DAY, ts % DAY;
    assert ts == q * DAY + m && 0 <= m < DAY;
    assert HourOf(ts) >= EndHour(r) <==> m >= EndHour(r) * HOUR;
  }

  /** Selecting by date and hour is selecting the session's time range. */
  lemma {:induction false} SessionBarsAreRange(bars: seq<Bar>, day: int, r: Reference)
    ensures SessionBars(bars, day, r) == Between(bars, day * DAY + StartHour(r) * HOUR, day * DAY + EndHour(r) * HOUR)
  {
    if bars != [] {
      DayHourRange(bars[0].ts, day, StartHour(r), EndHour(r));
      SessionBarsAreRange(bars[1..], day, r);
    }
  }

  lemma {:induction false} BetweenDropsEarlier(bars: seq<Bar>, n: nat, lo: int, hi: int)
    requires n <= |bars| && forall i :: 0 <= i < n ==> bars[i].ts < lo
    ensures Between(bars[n..], lo, hi) == Between(bars, lo, hi)
  {
    if n > 0 {
      BetweenDropsEarlier(bars[1..], n - 1, lo, hi);
      assert bars[1..][n - 1..] == bars[n..];
    } else {
      assert bars[0..] == bars;
    }
  }

  lemma DropEarlier(bars: seq<Bar>, n: nat, day: int, r: Reference)
    requires n <= |bars| && forall i :: 0 <= i < n ==> bars[i].ts < day * DAY + StartHour(r) * HOUR
    ensures SessionBars(bars[n..], day, r) == SessionBars(bars, day, r)
  {
    SessionBarsAreRange(bars, day, r);
    SessionBarsAreRange(bars[n..], day, r);
    BetweenDropsEarlier(bars, n, day * DAY + StartHour(r) * HOUR, day * DAY + EndHour(r) * HOUR);
  }

  /** A rule that looks no further back than `window` bars of a gap-free series that has just closed. */
  ghost predicate LocalRule(rule: Rule, seconds: int, window: nat) {
    forall fv: FeatureVector, bars: seq<Bar> {:trigger rule(fv, bars)} ::
      bars != [] && GapFree(bars, seconds) && fv.ts == bars[|bars| - 1].ts + seconds ==>
        rule(fv, bars) == rule(fv, Tail(bars, window))
  }

  /** On gap-free bars a session extreme needs no bar that opened 32 hours ago or more. */
  lemma SessionExtremeIsLocal(bars: seq<Bar>, seconds: int, window: nat, ts: int, r: Reference)
    requires seconds > 0 && (window + 1) * seconds >= 32 * HOUR
    requires bars != [] && GapFree(bars, seconds) && ts == bars[|bars| - 1].ts + seconds
    ensures SessionExtreme(bars, ts, r) == SessionExtreme(Tail(bars, window), ts, r)
  {
    SessionIsLastCompleted(ts, r);
    if |bars| > window {
      var n := |bars| - window;
      forall i | 0 <= i < n ensures bars[i].ts < SessionStart(ts, r) {
        StepUpWeak(i, n - 1, seconds);
        GridDistance(|bars|, window, seconds);
      }
      DropEarlier(bars, n, SessionDay(ts, r), r);
    }
  }

  /** The newest bar before the last w of k. */
  lemma GridDistance(k: int, w: int, seconds: int)
    ensures (k - w - 1) * seconds == k * seconds - (w + 1) * seconds
    ensures (k - 1) * seconds + seconds == k * seconds
  {
  }

  lemma {:induction false} ChecksAreLocal(conditions: seq<Condition>, fv: FeatureVector, bars: seq<Bar>, seconds: int,
    window: nat)
    requires seconds > 0 && window > 0 && (window + 1) * seconds >= 32 * HOUR
    requires bars != [] && GapFree(bars, seconds) && fv.ts == bars[|bars| - 1].ts + seconds
    ensures Checks(conditions, fv, bars) == Checks(conditions, fv, Tail(bars, window))
  {
    if conditions != [] {
      ChecksAreLocal(conditions[..|conditions| - 1], fv, bars, seconds, window);
      LastOfTail(bars, window);
      var c := conditions[|conditions| - 1];
      if c.PriceBreaks? {
        SessionExtremeIsLocal(bars, seconds, window, fv.ts, c.reference);
      }
    }
  }

  lemma LastOfTail(bars: seq<Bar>, window: nat)
    requires window > 0
    ensures LastBar(Tail(bars, window)) == LastBar(bars)
  {
  }

  lemma LocalWhenLongEnough(d: Definition, seconds: int, window: nat)
    requires seconds > 0 && window > 0 && (window + 1) * seconds >= 32 * HOUR
    ensures LocalRule(RuleOf(d), seconds, window)
  {
    var rule := RuleOf(d);
    forall fv: FeatureVector, bars: seq<Bar> {:trigger rule(fv, bars)} |
      bars != [] && GapFree(bars, seconds) && fv.ts == bars[|bars| - 1].ts + seconds
      ensures rule(fv, bars) == rule(fv, Tail(bars, window))
    {
      ChecksAreLocal(d.conditions, fv, bars, seconds, window);
      LastOfTail(bars, window);
    }
  }

  // ---------------------------------------------------------------- a window that is too short

  /** Buy when the close breaks above the last Asian high. */
  const BREAKOUT := Definition([PriceBreaks(AsianHigh, CloseField)], [], FixedStop(1.0), FixedTarget(1.0))

  /** Buy whenever there is a bar. */
  const ALWAYS := Definition([IndicatorComparison(Literal(1.0), Equal, Literal(1.0))], [], FixedStop(1.0),
    FixedTarget(1.0))

  /** The first of n bars that a session lies behind: the last bar of the session where that is recent enough. */
  function FirstTime(seconds: int, n: nat): int {
    if n * seconds <= 24 * HOUR && seconds < 8 * HOUR then 8 * HOUR - seconds else 0
  }

  /** Well-shaped bars at one price, the first with its own high, the last rising to a close of two. */
  function BreakoutBars(seconds: int, n: nat, high: real): (bars: seq<Bar>)
    requires high >= 1.0
    ensures |bars| == n && (seconds > 0 && n > 0 ==> GapFree(bars, seconds) && bars[0].ts == FirstTime(seconds, n))
    ensures forall i :: 0 <= i < n ==>
      bars[i].low <= bars[i].open <= bars[i].high && bars[i].low <= bars[i].close <= bars[i].high
    ensures n > 1 ==> bars[0].high == high && bars[n - 1].close == 2.0 && forall i :: 0 < i < n - 1 ==>
      bars[i].high == 1.0
  {
    seq(n, i => Bar(FirstTime(seconds, n) + i * seconds, 1.0, if i == 0 then high else if i == n - 1 then 2.0
      else 1.0, 1.0, if i > 0 && i == n - 1 then 2.0 else 1.0, 0.0, 1.0, 1.0))
  }

  lemma BreakoutTaken(fv: FeatureVector, bars: seq<Bar>)
    requires bars != []
    ensures Evaluate(BREAKOUT, fv, bars).Taken? <==>
      var level := SessionExtreme(bars, fv.ts, AsianHigh); level.Some? && bars[|bars| - 1].close > level.value
  {
    hide SessionExtreme;
    TakenExactly(BREAKOUT, fv, bars);
    var c := BREAKOUT.conditions[0];
    assert (forall i :: 0 <= i < |BREAKOUT.conditions| ==> CheckCondition(BREAKOUT.conditions[i], fv, bars) == Met) <==>
      CheckCondition(c, fv, bars) == Met;
  }

  lemma {:induction false} SessionBarsAmong(bars: seq<Bar>, day: int, r: Reference)
    ensures forall b :: b in SessionBars(bars, day, r) ==>
      b in bars && DayOf(b.ts) == day && StartHour(r) <= HourOf(b.ts) < EndHour(r)
  {
    if bars != [] { SessionBarsAmong(bars[1..], day, r); }
  }

  lemma {:induction false} LevelOfHighs(bars: seq<Bar>, high: real)
    requires bars != [] && forall b :: b in bars ==> b.high == high
    ensures MaxHigh(bars) == high
  {
    if |bars| > 1 {
      assert forall b :: b in bars[1..] ==> b in bars;
      LevelOfHighs(bars[1..], high);
    }
  }

  /** Times on the first day and shortly after it. */
  lemma FirstDay(t: int)
    ensures 0 <= t < 8 * HOUR <==> DayOf(t) == 0 && HourOf(t) < 8
    ensures HourOf(t) >= 0
    ensures 8 * HOUR <= t < 32 * HOUR ==> SessionDay(t, AsianHigh) == 0
  {
    DayHourRange(t, 0, 0, 8);
    var q, m := t / DAY, t % DAY;
    assert t == q * DAY + m && 0 <= m < DAY;
    assert HourOf(t) >= 0;
    assert m / HOUR >= 8 <==> m >= 8 * HOUR;
  }

  /** The first of these bars is in the session consulted at the close of the last, and the last is not. */
  lemma BreakoutTimes(seconds: int, n: nat)
    requires seconds > 0 && n > 1 && n * seconds < 32 * HOUR
    ensures var first := FirstTime(seconds, n);
      0 <= first < 8 * HOUR && 8 * HOUR <= first + (n - 1) * seconds && first + n * seconds < 32 * HOUR
  {
    StepUpWeak(2, n, seconds);
    assert n * seconds == (n - 1) * seconds + seconds;
    StepUpWeak(1, n - 1, seconds);
  }

  /** On window + 1 such bars the breakout comes out differently when the first is forgotten: either it was the only
      bar of the session, or it made the level. */
  lemma BreakoutForgets(seconds: int, window: nat) returns (bars: seq<Bar>, fv: FeatureVector)
    requires seconds > 0 && window > 0 && (window + 1) * seconds < 32 * HOUR
    ensures bars != [] && GapFree(bars, seconds) && fv.ts == bars[|bars| - 1].ts + seconds && |bars| == window + 1
    ensures forall i :: 0 <= i < |bars| ==>
      bars[i].low <= bars[i].open <= bars[i].high && bars[i].low <= bars[i].close <= bars[i].high
    ensures Evaluate(BREAKOUT, fv, bars).Taken? <==> !Evaluate(BREAKOUT, fv, Tail(bars, window)).Taken?
  {
    hide SessionBars, MaxHigh, Evaluate, SessionDay, DayOf, HourOf;
    var n := window + 1;
    BreakoutTimes(seconds, n);
    var plain := BreakoutBars(seconds, n, 1.0);
    var seen := SessionBars(plain[1..], 0, AsianHigh);
    bars := if seen == [] then plain else BreakoutBars(seconds, n, 3.0);
    assert bars[1..] == plain[1..];
    fv := FeatureVector(bars[n - 1].ts + seconds, map[]);
    assert Tail(bars, window) == bars[1..];
    assert (n - 1) * seconds + seconds == n * seconds;
    FirstDay(fv.ts);
    FirstDay(bars[0].ts);
    FirstDay(bars[n - 1].ts);
    FirstInSession(bars, 0, AsianHigh);
    SessionBarsAmong(bars[1..], 0, AsianHigh);
    forall b | b in seen ensures b.high == 1.0 {
      var i :| 0 <= i < window && bars[1..][i] == b;
      assert bars[i + 1] == b;
    }
    if seen == [] { LevelOfHighs([bars[0]], 1.0); } else { LevelOfHighs(seen, 1.0); }
    PushHigh(bars[0], seen);
    BreakoutTaken(fv, bars);
    BreakoutTaken(fv, bars[1..]);
  }

  lemma FirstInSession(bars: seq<Bar>, day: int, r: Reference)
    requires bars != [] && DayOf(bars[0].ts) == day && StartHour(r) <= HourOf(bars[0].ts) < EndHour(r)
    ensures SessionBars(bars, day, r) == [bars[0]] + SessionBars(bars[1..], day, r)
  {
  }

  lemma PushHigh(b: Bar, rest: seq<Bar>)
    ensures MaxHigh([b] + rest) == if rest == [] then b.high else Max(b.high, MaxHigh(rest))
  {
    assert ([b] + rest)[1..] == rest;
  }

  lemma AlwaysNeedsABar(fv: FeatureVector, b: Bar)
    ensures Evaluate(ALWAYS, fv, [b]).Taken? && !Evaluate(ALWAYS, fv, []).Taken?
  {
    TakenExactly(ALWAYS, fv, [b]);
    TakenExactly(ALWAYS, fv, []);
  }

  lemma SomeStrategyForgets(seconds: int, window: nat) returns (d: Definition)
    requires seconds > 0 && (window == 0 || (window + 1) * seconds < 32 * HOUR)
    ensures !LocalRule(RuleOf(d), seconds, window)
  {
    hide Evaluate;
    if window == 0 {
      d := ALWAYS;
      var bar := Bar(0, 1.0, 1.0, 1.0, 1.0, 0.0, 1.0, 1.0);
      var fv := FeatureVector(seconds, map[]);
      AlwaysNeedsABar(fv, bar);
      assert Tail([bar], 0) == [];
      assert RuleOf(d)(fv, [bar]) != RuleOf(d)(fv, Tail([bar], 0));
    } else {
      d := BREAKOUT;
      var bars, fv := BreakoutForgets(seconds, window);
      assert RuleOf(d)(fv, bars) != RuleOf(d)(fv, Tail(bars, window));
    }
  }

  /** Every strategy of this vocabulary is local to the live window if and only if there is a window and it, with one
      bar more, spans 32 hours: with the default 505 bars from 228 seconds a bar on, hence on five-minute bars and
      slower, and not on one-minute bars. */
  lemma StrategiesAreLocalIff(seconds: int, window: nat)
    requires seconds > 0
    ensures (forall d :: LocalRule(RuleOf(d), seconds, window)) <==> window > 0 && (window + 1) * seconds >= 32 * HOUR
  {
    hide LocalRule, RuleOf;
    if window > 0 && (window + 1) * seconds >= 32 * HOUR {
      forall d ensures LocalRule(RuleOf(d), seconds, window) { LocalWhenLongEnough(d, seconds, window); }
    } else {
      var d := SomeStrategyForgets(seconds, window);
    }
  }
}

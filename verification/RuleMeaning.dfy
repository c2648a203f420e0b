/** What a rule's conditions say about bars and features, and the decision they add up to. */
module RuleMeaning {
  import opened Prelude
  import opened Bars
  import opened Features
  import opened Rules

  // ---------------------------------------------------------------- operators

  /** The operators on two numbers or two times are the orderings of the number line. */
  lemma NumbersCompare(x: real, y: real)
    ensures CheckComparison(Number(x), Greater, Number(y)) == if x > y then Met else NotMet
    ensures CheckComparison(Number(x), Less, Number(y)) == if x < y then Met else NotMet
    ensures CheckComparison(Number(x), AtLeast, Number(y)) == if x >= y then Met else NotMet
    ensures CheckComparison(Number(x), AtMost, Number(y)) == if x <= y then Met else NotMet
    ensures CheckComparison(Number(x), Equal, Number(y)) == if x == y then Met else NotMet
  {
  }

  lemma InstantsCompare(s: int, t: int)
    ensures CheckComparison(Instant(s), Greater, Instant(t)) == if s > t then Met else NotMet
    ensures CheckComparison(Instant(s), Less, Instant(t)) == if s < t then Met else NotMet
    ensures CheckComparison(Instant(s), AtLeast, Instant(t)) == if s >= t then Met else NotMet
    ensures CheckComparison(Instant(s), AtMost, Instant(t)) == if s <= t then Met else NotMet
    ensures CheckComparison(Instant(s), Equal, Instant(t)) == if s == t then Met else NotMet
  {
  }

  /** The texts agree on their first n characters, and there the first has ended or has the smaller character. */
  predicate DiffersAt(a: string, b: string, n: int) {
    0 <= n <= |a| && n < |b| && a[..n] == b[..n] && (n == |a| || a[n] < b[n])
  }

  ghost predicate Before(a: string, b: string) {
    exists n :: DiffersAt(a, b, n)
  }

  lemma {:induction false} PrecedesMeans(a: string, b: string)
    ensures Precedes(a, b) <==> Before(a, b)
  {
    if a != "" && b != "" {
      PrecedesMeans(a[1..], b[1..]);
      if a[0] == b[0] {
        if n :| DiffersAt(a, b, n) {
          if n > 0 {
            assert a[1..][..n - 1] == a[..n][1..] == b[..n][1..] == b[1..][..n - 1];
            assert DiffersAt(a[1..], b[1..], n - 1);
          }
        }
        if n :| DiffersAt(a[1..], b[1..], n) {
          assert a[..n + 1] == [a[0]] + a[1..][..n] && b[..n + 1] == [b[0]] + b[1..][..n];
          assert DiffersAt(a, b, n + 1);
        }
      } else {
        OnlyAtFirst(a, b);
      }
    } else if b != "" {
      assert DiffersAt(a, b, 0);
    }
  }

  lemma OnlyAtFirst(a: string, b: string)
    requires a != "" && b != "" && a[0] != b[0]
    ensures a[0] < b[0] <==> Before(a, b)
  {
    if a[0] < b[0] { assert DiffersAt(a, b, 0); }
    if n :| DiffersAt(a, b, n) { FirstAgrees(a, b, n); }
  }

  lemma FirstAgrees(a: string, b: string, n: nat)
    requires n <= |a| && n <= |b| && a[..n] == b[..n]
    ensures n > 0 ==> a[0] == b[0]
  {
    if n > 0 { assert a[..n][0] == a[0] && b[..n][0] == b[0]; }
  }

  /** The operators on two texts compare them at their first difference. */
  lemma TextsCompare(a: string, b: string)
    ensures CheckComparison(Text(a), Greater, Text(b)) == if Before(b, a) then Met else NotMet
    ensures CheckComparison(Text(a), Less, Text(b)) == if Before(a, b) then Met else NotMet
    ensures CheckComparison(Text(a), AtLeast, Text(b)) == if Before(b, a) || a == b then Met else NotMet
    ensures CheckComparison(Text(a), AtMost, Text(b)) == if Before(a, b) || a == b then Met else NotMet
    ensures CheckComparison(Text(a), Equal, Text(b)) == if a == b then Met else NotMet
  {
    PrecedesMeans(a, b);
    PrecedesMeans(b, a);
  }

  // ---------------------------------------------------------------- what a condition says

  predicate IsPrice(b: Bar, f: PriceField, x: Operand) {
    && (f.OpenField? ==> x == Number(b.open)) && (f.HighField? ==> x == Number(b.high))
    && (f.LowField? ==> x == Number(b.low)) && (f.CloseField? ==> x == Number(b.close))
  }

  /** Flags count as one and zero. */
  predicate IsValue(v: Value, x: Operand) {
    && (v.Num? ==> x == Number(v.number)) && (v.Amount? ==> x == Number(v.n as real))
    && (v.Flag? ==> x == Number(if v.flag then 1.0 else 0.0)) && (v.Label? ==> x == Text(v.text))
    && (v.Time? ==> x == Instant(v.ts)) && (v.Missing? ==> x == Absent)
  }

  /** What a token stands for: a number as written, a price of the last bar, or a feature of the vector. Nothing when
      there is no such thing. */
  predicate StandsFor(t: Token, fv: FeatureVector, bars: seq<Bar>, x: Operand) {
    match t
    case Literal(v) => x == Number(v)
    case Price(f) => bars != [] && IsPrice(bars[|bars| - 1], f, x)
    case Feature(k) => k in fv.values && IsValue(fv.values[k], x)
  }

  /** The relation an operator names, on numbers, times and texts; anything else is only ever compared for equality,
      and differs. */
  ghost predicate Related(x: Operand, op: Operator, y: Operand) {
    || (x.Number? && y.Number? && (
         || (op.Greater? && x.value > y.value) || (op.Less? && x.value < y.value)
         || (op.AtLeast? && x.value >= y.value) || (op.AtMost? && x.value <= y.value)
         || (op.Equal? && x.value == y.value)))
    || (x.Instant? && y.Instant? && (
         || (op.Greater? && x.ts > y.ts) || (op.Less? && x.ts < y.ts)
         || (op.AtLeast? && x.ts >= y.ts) || (op.AtMost? && x.ts <= y.ts) || (op.Equal? && x.ts == y.ts)))
    || (x.Text? && y.Text? && (
         || ((op.Greater? || op.AtLeast?) && Before(y.text, x.text))
         || ((op.Less? || op.AtMost?) && Before(x.text, y.text))
         || ((op.AtLeast? || op.AtMost? || op.Equal?) && x.text == y.text)))
  }

  /** Opened in the session's hours of this day: midnight to eight for Asia, eight to sixteen for London. */
  predicate InSession(r: Reference, day: int, ts: int) {
    if r.AsianHigh? || r.AsianLow? then day * 86400 <= ts < day * 86400 + 28800
    else day * 86400 + 28800 <= ts < day * 86400 + 57600
  }

  /** This day's session is over at ts, and the next day's is not. */
  predicate LastSession(r: Reference, day: int, ts: int) {
    if r.AsianHigh? || r.AsianLow? then day * 86400 + 28800 <= ts < day * 86400 + 115200
    else day * 86400 + 57600 <= ts < day * 86400 + 144000
  }

  /** The last price is beyond every bar of the last completed session, and there is one. */
  ghost predicate Breaks(r: Reference, f: PriceField, ts: int, bars: seq<Bar>) {
    bars != [] && exists day, price :: LastSession(r, day, ts) && BreaksOn(r, f, bars, day, price)
  }

  ghost predicate BreaksOn(r: Reference, f: PriceField, bars: seq<Bar>, day: int, price: real) {
    && StandsFor(Price(f), FeatureVector(0, map[]), bars, Number(price))
    && (exists b :: b in bars && InSession(r, day, b.ts))
    && (forall b :: b in bars && InSession(r, day, b.ts) ==>
          if r.AsianHigh? || r.LondonHigh? then price > b.high else price < b.low)
  }

  /** What a condition says, in terms of bars and features alone. */
  ghost predicate Says(c: Condition, fv: FeatureVector, bars: seq<Bar>) {
    match c
    case PriceBreaks(r, f) => Breaks(r, f, fv.ts, bars)
    case IndicatorComparison(left, op, right) => exists x, y ::
      StandsFor(left, fv, bars, x) && StandsFor(right, fv, bars, y) && Related(x, op, y)
  }

  // ---------------------------------------------------------------- it is met when it holds

  lemma Resolves(t: Token, fv: FeatureVector, bars: seq<Bar>)
    ensures var x := Resolve(t, fv, LastBar(bars));
      (x == Unknown && forall y :: !StandsFor(t, fv, bars, y)) || forall y :: StandsFor(t, fv, bars, y) <==> y == x
  {
  }

  lemma ComparisonMet(x: Operand, op: Operator, y: Operand)
    ensures CheckComparison(x, op, y) == Met <==> Related(x, op, y)
  {
    hide Before, Precedes;
    if x.Text? && y.Text? {
      PrecedesMeans(x.text, y.text);
      PrecedesMeans(y.text, x.text);
    }
  }

  lemma SessionDayIsLast(ts: int, r: Reference, day: int)
    ensures LastSession(r, day, ts) <==> day == SessionDay(ts, r)
  {
    var q, m := ts / DAY, ts % DAY;
    assert ts == q * DAY + m && 0 <= m < DAY;
    assert HourOf(ts) >= EndHour(r) <==> m >= EndHour(r) * HOUR;
    var last := SessionDay(ts, r);
    assert EndHour(r) * HOUR <= ts - last * DAY < EndHour(r) * HOUR + DAY;
    if LastSession(r, day, ts) {
      assert EndHour(r) * HOUR <= ts - day * DAY < EndHour(r) * HOUR + DAY;
      assert -1 < day - last < 1;
    }
  }

  lemma {:induction false} SessionBarsAre(bars: seq<Bar>, day: int, r: Reference)
    ensures forall b :: b in SessionBars(bars, day, r) <==> b in bars && InSession(r, day, b.ts)
  {
    SessionBarsAreRange(bars, day, r);
    BetweenElements(bars, day * DAY + StartHour(r) * HOUR, day * DAY + EndHour(r) * HOUR);
  }

  lemma {:induction false} HighIsBound(s: seq<Bar>, x: real)
    requires s != []
    ensures x > MaxHigh(s) <==> forall b :: b in s ==> x > b.high
  {
    assert s[0] in s;
    if |s| > 1 {
      HighIsBound(s[1..], x);
      assert forall b :: b in s <==> b == s[0] || b in s[1..];
    }
  }

  lemma {:induction false} LowIsBound(s: seq<Bar>, x: real)
    requires s != []
    ensures x < MinLow(s) <==> forall b :: b in s ==> x < b.low
  {
    assert s[0] in s;
    if |s| > 1 {
      LowIsBound(s[1..], x);
      assert forall b :: b in s <==> b == s[0] || b in s[1..];
    }
  }

  lemma LevelIsBound(bars: seq<Bar>, ts: int, r: Reference, x: real)
    ensures var level, day := SessionExtreme(bars, ts, r), SessionDay(ts, r);
      && (level.Some? <==> exists b :: b in bars && InSession(r, day, b.ts))
      && (level.Some? ==>
          ((if IsHigh(r) then x > level.value else x < level.value) <==>
            forall b :: b in bars && InSession(r, day, b.ts) ==> if IsHigh(r) then x > b.high else x < b.low))
  {
    hide InSession, SessionBars, SessionDay, MaxHigh, MinLow;
    var session := SessionBars(bars, SessionDay(ts, r), r);
    SessionBarsAre(bars, SessionDay(ts, r), r);
    if session != [] {
      assert session[0] in session;
      HighIsBound(session, x);
      LowIsBound(session, x);
    } else {
      assert forall b :: b !in session;
    }
  }

  /** A level is broken exactly when the last price is beyond every bar of the last session to have ended. */
  lemma BreakMeans(r: Reference, f: PriceField, fv: FeatureVector, bars: seq<Bar>)
    ensures CheckCondition(PriceBreaks(r, f), fv, bars) == Met <==> Breaks(r, f, fv.ts, bars)
    ensures CheckCondition(PriceBreaks(r, f), fv, bars) != Unresolvable
  {
    hide SessionExtreme, InSession, LastSession, SessionDay;
    if bars != [] {
      var price, day := FieldOf(bars[|bars| - 1], f), SessionDay(fv.ts, r);
      LevelIsBound(bars, fv.ts, r, price);
      SessionDayIsLast(fv.ts, r, day);
      if CheckCondition(PriceBreaks(r, f), fv, bars) == Met { assert BreaksOn(r, f, bars, day, price); }
      if d, x :| LastSession(r, d, fv.ts) && BreaksOn(r, f, bars, d, x) {
        SessionDayIsLast(fv.ts, r, d);
        assert d == day && x == price;
      }
    }
  }

  /** A condition is met exactly when what it says holds. */
  lemma MetMeans(c: Condition, fv: FeatureVector, bars: seq<Bar>)
    ensures CheckCondition(c, fv, bars) == Met <==> Says(c, fv, bars)
  {
    hide Breaks, SessionExtreme, StandsFor, Resolve, Related, CheckComparison;
    match c {
      case PriceBreaks(r, f) => BreakMeans(r, f, fv, bars);
      case IndicatorComparison(left, op, right) =>
        var x, y := Resolve(left, fv, LastBar(bars)), Resolve(right, fv, LastBar(bars));
        Resolves(left, fv, bars);
        Resolves(right, fv, bars);
        ComparisonMet(x, op, y);
        UnknownIsNotMet(x, op, y);
        if CheckComparison(x, op, y) == Met { assert StandsFor(left, fv, bars, x) && StandsFor(right, fv, bars, y); }
    }
  }

  lemma UnknownIsNotMet(x: Operand, op: Operator, y: Operand)
    ensures x.Unknown? || y.Unknown? ==> CheckComparison(x, op, y) != Met
  {
  }

  /** Both sides are there, and of different kinds. */
  ghost predicate Clash(c: Condition, fv: FeatureVector, bars: seq<Bar>)
    requires c.IndicatorComparison?
  {
    exists x, y :: StandsFor(c.left, fv, bars, x) && StandsFor(c.right, fv, bars, y) && KindsDiffer(x, y)
  }

  predicate KindsDiffer(x: Operand, y: Operand) {
    !x.Absent? && !y.Absent? && !SameKind(x, y)
  }

  /** It raises exactly when it names something that is not there, or orders two present things of different kinds. */
  ghost predicate Fails(c: Condition, fv: FeatureVector, bars: seq<Bar>) {
    c.IndicatorComparison? &&
    ((forall x :: !StandsFor(c.left, fv, bars, x)) || (forall y :: !StandsFor(c.right, fv, bars, y))
      || (!c.op.Equal? && Clash(c, fv, bars)))
  }

  lemma RaisesMeans(c: Condition, fv: FeatureVector, bars: seq<Bar>)
    ensures CheckCondition(c, fv, bars) == Unresolvable <==> Fails(c, fv, bars)
  {
    hide Breaks, SessionExtreme, StandsFor, Resolve, CheckComparison;
    match c {
      case PriceBreaks(r, f) => BreakMeans(r, f, fv, bars);
      case IndicatorComparison(left, op, right) =>
        var x, y := Resolve(left, fv, LastBar(bars)), Resolve(right, fv, LastBar(bars));
        Resolves(left, fv, bars);
        Resolves(right, fv, bars);
        NothingIsUnknown(left, fv, bars);
        NothingIsUnknown(right, fv, bars);
        ComparisonsAreTotal(x, y);
        var known := StandsFor(left, fv, bars, x) && StandsFor(right, fv, bars, y);
        assert Clash(c, fv, bars) <==> known && KindsDiffer(x, y);
    }
  }

  lemma NothingIsUnknown(t: Token, fv: FeatureVector, bars: seq<Bar>)
    ensures !StandsFor(t, fv, bars, Unknown)
  {
  }

  // ---------------------------------------------------------------- the decision

  /** The conditions that hold. */
  ghost function Holding(conditions: seq<Condition>, fv: FeatureVector, bars: seq<Bar>): set<int> {
    set i | 0 <= i < |conditions| && Says(conditions[i], fv, bars)
  }

  lemma {:induction false} CountIsSize(conditions: seq<Condition>, fv: FeatureVector, bars: seq<Bar>)
    ensures CountMet(Checks(conditions, fv, bars)) == |Holding(conditions, fv, bars)| <= |conditions|
  {
    hide Says, CheckCondition;
    if conditions != [] {
      var n := |conditions| - 1;
      var init := conditions[..n];
      CountIsSize(init, fv, bars);
      MetMeans(conditions[n], fv, bars);
      assert Checks(conditions, fv, bars)[..|Checks(init, fv, bars)|] == Checks(init, fv, bars);
      assert Holding(conditions, fv, bars) ==
        Holding(init, fv, bars) + if Says(conditions[n], fv, bars) then {n} else {};
    }
  }

  /** The first filter to object, and what it says. */
  predicate ObjectsFirst(filters: seq<Filter>, fv: FeatureVector, last: Option<Bar>, j: int, reason: string) {
    0 <= j < |filters| && filters[j](fv, last) == Some(reason)
      && forall i :: 0 <= i < j ==> filters[i](fv, last) == None
  }

  predicate NoneObjects(filters: seq<Filter>, fv: FeatureVector, last: Option<Bar>) {
    forall i :: 0 <= i < |filters| ==> filters[i](fv, last) == None
  }

  lemma {:induction false} FirstFailureIs(filters: seq<Filter>, fv: FeatureVector, last: Option<Bar>)
    ensures FirstFailure(filters, fv, last) == None <==> NoneObjects(filters, fv, last)
    ensures FirstFailure(filters, fv, last).Some? ==>
      exists j :: ObjectsFirst(filters, fv, last, j, FirstFailure(filters, fv, last).value)
  {
    if filters != [] {
      var rest := filters[1..];
      if filters[0](fv, last).Some? {
        assert ObjectsFirst(filters, fv, last, 0, filters[0](fv, last).value);
      } else {
        FirstFailureIs(rest, fv, last);
        assert forall i :: 1 <= i < |filters| ==> filters[i] == rest[i - 1];
        assert NoneObjects(filters, fv, last) <==> NoneObjects(rest, fv, last);
        var first := FirstFailure(rest, fv, last);
        if first.Some? {
          var j :| ObjectsFirst(rest, fv, last, j, first.value);
          assert ObjectsFirst(filters, fv, last, j + 1, first.value);
        }
      }
    }
  }

  predicate StopKnown(d: Definition, fv: FeatureVector) {
    d.stop.AtrStop? ==> d.stop.key in fv.values && fv.values[d.stop.key].Num?
  }

  ghost predicate SomeFails(conditions: seq<Condition>, fv: FeatureVector, bars: seq<Bar>) {
    exists i :: 0 <= i < |conditions| && Fails(conditions[i], fv, bars)
  }

  /** Every condition holds and no filter objects. */
  ghost predicate AllClear(d: Definition, fv: FeatureVector, bars: seq<Bar>) {
    && !SomeFails(d.conditions, fv, bars) && 0 < |d.conditions| == |Holding(d.conditions, fv, bars)|
    && NoneObjects(d.filters, fv, LastBar(bars))
  }

  /** The whole decision. Some condition fails to evaluate: an error. Fewer than half hold, or there is none: nothing
      is published. Half or more but not all: rejected as a near miss. All, but a filter objects: rejected with the
      first objection. All and no objection: taken, if there is a bar to enter on and the stop can be computed. */
  lemma DecisionMeans(d: Definition, fv: FeatureVector, bars: seq<Bar>)
    ensures var v := Evaluate(d, fv, bars); var n, held := |d.conditions|, |Holding(d.conditions, fv, bars)|;
      && (v.Quiet? <==> !SomeFails(d.conditions, fv, bars) && (n == 0 || 2 * held < n))
      && (v.Taken? <==> AllClear(d, fv, bars) && bars != [] && StopKnown(d, fv))
    ensures var v := Evaluate(d, fv, bars);
      v.Raised? <==> SomeFails(d.conditions, fv, bars) || (AllClear(d, fv, bars) && bars != [] && !StopKnown(d, fv))
    ensures var v := Evaluate(d, fv, bars); var n, held := |d.conditions|, |Holding(d.conditions, fv, bars)|;
      v.TurnedDown? ==> v.direction == InferDirection(d.conditions) && Rejection(d, fv, bars, n, held, v.reason)
  {
    hide Fails, Checks, CountMet, Holding, FirstFailure, NoneObjects, ObjectsFirst, InferDirection, TargetLevel;
    var checks := Checks(d.conditions, fv, bars);
    CountIsSize(d.conditions, fv, bars);
    FirstFailureIs(d.filters, fv, LastBar(bars));
    FailsAmong(d.conditions, fv, bars);
    ChecksAt(d.conditions, fv, bars);
  }

  ghost predicate Rejection(d: Definition, fv: FeatureVector, bars: seq<Bar>, n: nat, held: nat, reason: string) {
    if held < n then n <= 2 * held && reason == "near-miss entry"
    else if NoneObjects(d.filters, fv, LastBar(bars)) then
      bars == [] && reason == "no bar data available for entry price"
    else exists j :: ObjectsFirst(d.filters, fv, LastBar(bars), j, reason)
  }

  lemma FailsAmong(conditions: seq<Condition>, fv: FeatureVector, bars: seq<Bar>)
    ensures Unresolvable in Checks(conditions, fv, bars) <==> SomeFails(conditions, fv, bars)
  {
    hide Fails, CheckCondition, Checks;
    var checks := Checks(conditions, fv, bars);
    ChecksAt(conditions, fv, bars);
    forall i | 0 <= i < |conditions| ensures checks[i] == Unresolvable <==> Fails(conditions[i], fv, bars) {
      RaisesMeans(conditions[i], fv, bars);
    }
    if i :| 0 <= i < |checks| && checks[i] == Unresolvable { assert Fails(conditions[i], fv, bars); }
    if i :| 0 <= i < |conditions| && Fails(conditions[i], fv, bars) { assert checks[i] == Unresolvable; }
  }

  /** A strategy of one comparison of a numeric feature with a number, like an oversold RSI: taken only if the feature
      stands in that very relation to the number, and exactly then when nothing else is in the way. */
  lemma OneComparison(d: Definition, k: Key, op: Operator, x: real, fv: FeatureVector, bars: seq<Bar>)
    requires d.conditions == [IndicatorComparison(Feature(k), op, Literal(x))]
    requires k in fv.values && fv.values[k].Num?
    ensures Evaluate(d, fv, bars).Taken? <==>
      && (match op
          case Greater => fv.values[k].number > x
          case Less => fv.values[k].number < x
          case AtLeast => fv.values[k].number >= x
          case AtMost => fv.values[k].number <= x
          case Equal => fv.values[k].number == x)
      && NoneObjects(d.filters, fv, LastBar(bars)) && bars != [] && StopKnown(d, fv)
  {
    hide Evaluate, CheckComparison;
    TakenExactly(d, fv, bars);
    FirstFailureIs(d.filters, fv, LastBar(bars));
    NumbersCompare(fv.values[k].number, x);
    var c := d.conditions[0];
    assert CheckCondition(c, fv, bars) == CheckComparison(Number(fv.values[k].number), op, Number(x));
    assert (forall i :: 0 <= i < |d.conditions| ==> CheckCondition(d.conditions[i], fv, bars) == Met) <==>
      CheckCondition(c, fv, bars) == Met;
  }

  /** The same for two numeric features, like a volatility above its median. */
  lemma TwoFeatures(d: Definition, j: Key, op: Operator, k: Key, fv: FeatureVector, bars: seq<Bar>)
    requires d.conditions == [IndicatorComparison(Feature(j), op, Feature(k))]
    requires j in fv.values && fv.values[j].Num? && k in fv.values && fv.values[k].Num?
    ensures Evaluate(d, fv, bars).Taken? <==>
      && (match op
          case Greater => fv.values[j].number > fv.values[k].number
          case Less => fv.values[j].number < fv.values[k].number
          case AtLeast => fv.values[j].number >= fv.values[k].number
          case AtMost => fv.values[j].number <= fv.values[k].number
          case Equal => fv.values[j].number == fv.values[k].number)
      && NoneObjects(d.filters, fv, LastBar(bars)) && bars != [] && StopKnown(d, fv)
  {
    hide Evaluate, CheckComparison;
    TakenExactly(d, fv, bars);
    FirstFailureIs(d.filters, fv, LastBar(bars));
    NumbersCompare(fv.values[j].number, fv.values[k].number);
    var c := d.conditions[0];
    assert CheckCondition(c, fv, bars) ==
      CheckComparison(Number(fv.values[j].number), op, Number(fv.values[k].number));
    assert (forall i :: 0 <= i < |d.conditions| ==> CheckCondition(d.conditions[i], fv, bars) == Met) <==>
      CheckCondition(c, fv, bars) == Met;
  }
}

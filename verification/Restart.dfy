/** A restart between polls changes only the order of the list, wherever that does not show. */
module Restart {
  import opened Prelude
  import opened Bars
  import opened Execution
  import opened Records
  import opened Stores
  import opened LiveLoop
  import opened TableAgreement
  import opened CrashCuts
  import opened Tickets
  import opened PassTables
  import Recovery
  import Backtest
  import Rules

  // ---------------------------------------------------------------- the store gives back the list

  lemma {:induction false} OnceEach(a: seq<LivePosition>, p: LivePosition)
    requires DistinctIds(a)
    ensures multiset(a)[p] == if p in a then 1 else 0
  {
    if a != [] {
      var init, last := a[..|a| - 1], a[|a| - 1];
      OnceEach(init, p);
      assert a == init + [last];
    }
  }

  /** Two lists of one table differ in order only. */
  lemma ListsSameElements(a: seq<LivePosition>, b: seq<LivePosition>, rows: map<int, LivePosition>)
    requires Lists(a, rows) && Lists(b, rows)
    ensures multiset(a) == multiset(b)
  {
    forall p ensures multiset(a)[p] == multiset(b)[p] {
      OnceEach(a, p);
      OnceEach(b, p);
    }
  }

  /** And a list determines its table. */
  lemma ListsSameTable(a: seq<LivePosition>, b: seq<LivePosition>, m: map<int, LivePosition>, n: map<int, LivePosition>)
    requires Lists(a, m) && Lists(b, n) && multiset(a) == multiset(b)
    ensures m == n
  {
    hide Lists;
    SameMembers(a, b);
    RowsAmong(a, b, m, n);
    RowsAmong(b, a, n, m);
    assert m.Keys == n.Keys;
    forall id | id in m ensures m[id] == n[id] {}
  }

  lemma SameMembers(a: seq<LivePosition>, b: seq<LivePosition>)
    requires multiset(a) == multiset(b)
    ensures forall p :: p in a <==> p in b
  {
    forall p ensures p in a <==> p in b { assert p in a <==> p in multiset(a); }
  }

  lemma RowsAmong(a: seq<LivePosition>, b: seq<LivePosition>, m: map<int, LivePosition>, n: map<int, LivePosition>)
    requires Lists(a, m) && Lists(b, n) && forall p :: p in a ==> p in b
    ensures m.Keys <= n.Keys && forall id {:trigger m[id]} :: id in m ==> id in n && m[id] == n[id]
  {
    forall id | id in m ensures id in n && m[id] == n[id] { assert m[id] in a; }
  }

  // ---------------------------------------------------------------- what managing does, order aside

  datatype Summary = Summary(kept: multiset<LivePosition>, pnl: real, rows: multiset<LedgerEntry>, closes: nat,
    tickets: set<int>)

  const NOTHING := Summary(multiset{}, 0.0, multiset{}, 0, {})

  function Plus(a: Summary, b: Summary): Summary {
    Summary(a.kept + b.kept, a.pnl + b.pnl, a.rows + b.rows, a.closes + b.closes, a.tickets + b.tickets)
  }

  /** The adapter answers the next closes, however many, all at one price, or at a price that depends on the
      order alone. */
  predicate AnswersAlike(x: Adapter, closes: nat) {
    || x.Simulated? || closes == 0
    || (x.enabled && forall n: nat :: n < closes ==>
      !RefusesNext(x.account, n) && Reply(x.account, n) == Reply(x.account, 0))
  }

  function Reply(a: Account, n: nat): Option<real> {
    a.replies(a.received + n)
  }

  /** Every listed position has a ticket of its own, open at the broker. */
  ghost predicate OwnTickets(open: seq<LivePosition>, x: Adapter) {
    x.Simulated? ||
    (&& (forall t :: t in x.account.open ==> t < x.account.received)
     && (forall i {:trigger open[i]} :: 0 <= i < |open| ==>
       open[i].ticket.Some? && open[i].ticket.value in x.account.open)
     && (forall i, j :: 0 <= i < j < |open| ==> open[i].ticket != open[j].ticket))
  }

  /** The fill of a close by such an adapter, order number and receipt aside. */
  function FillOf(c: Config, x: Adapter, p: LivePosition, b: Bar, now: int): Fill {
    var order := CloseOrder(c, p, b, now, 0);
    if x.Simulated? then SimulatedFill(x.costs, x.pip, order).value
    else Fill(0, order.direction, if Reply(x.account, 0).Some? then Reply(x.account, 0).value
      else 0.0, p.sizeUnits, now, 0.0, 0.0, None)
  }

  function SummaryOf(c: Config, x: Adapter, p: LivePosition, b: Bar, now: int): Summary {
    if CheckExit(p, b, now).None? then Summary(multiset{WithExcursion(p, b)}, 0.0, multiset{}, 0, {})
    else
      var fill := FillOf(c, x, p, b, now);
      Summary(multiset{}, ClosePnl(p, fill), multiset{CloseRow(c, p, now, fill)}, 1, TicketsOf(p))
  }

  function TicketsOf(p: LivePosition): set<int> {
    if p.ticket.Some? then {p.ticket.value} else {}
  }

  function Total(c: Config, x: Adapter, open: seq<LivePosition>, b: Bar, now: int): Summary {
    if open == [] then NOTHING
    else Plus(Total(c, x, open[..|open| - 1], b, now), SummaryOf(c, x, open[|open| - 1], b, now))
  }

  function ResolveOne(c: Config, x: Adapter, rows: map<int, SignalRow>, p: LivePosition, b: Bar,
    now: int): map<int, SignalRow> {
    if CheckExit(p, b, now).None? then rows
    else
      var fill := FillOf(c, x, p, b, now);
      Resolve(rows, p.signalId, OutcomeOf(ClosePnl(p, fill)), p.mae, p.mfe, CloseRow(c, p, now, fill).realisedR.value)
  }

  function ResolveAll(c: Config, x: Adapter, rows: map<int, SignalRow>, open: seq<LivePosition>, b: Bar,
    now: int): map<int, SignalRow> {
    if open == [] then rows
    else ResolveOne(c, x, ResolveAll(c, x, rows, open[..|open| - 1], b, now), open[|open| - 1], b, now)
  }

  /** The adapter once some positions are closed. */
  function AfterCloses(x: Adapter, t: Summary): Adapter {
    match x
    case Simulated(_, _) => x
    case Broker(a, enabled) => Broker(a.(received := a.received + t.closes, open := a.open - t.tickets), enabled)
  }

  ghost predicate Summed(c: Config, s: Live, b: Bar, now: int, k: nat, p: Pass)
    requires k <= |s.open|
  {
    var t, at := Total(c, s.adapter, s.open[..k], b, now), ApplyAll(s.disk, p.effects);
    && !p.raised && p.adapter == AfterCloses(s.adapter, t) && |p.book| == |s.open|
    && (forall j {:trigger p.book[j]} :: k <= j < |s.open| ==> p.book[j] == s.open[j])
    && multiset(p.kept) == t.kept && p.equity == s.equity + t.pnl && p.nextId == s.nextId + t.closes
    && multiset(at.ledger) == multiset(s.disk.ledger) + t.rows
    && at.signals == ResolveAll(c, s.adapter, s.disk.signals, s.open[..k], b, now)
  }

  lemma TotalNext(c: Config, x: Adapter, rows: map<int, SignalRow>, open: seq<LivePosition>, b: Bar, now: int, k: nat)
    requires k < |open|
    ensures Total(c, x, open[..k + 1], b, now) == Plus(Total(c, x, open[..k], b, now), SummaryOf(c, x, open[k], b, now))
    ensures ResolveAll(c, x, rows, open[..k + 1], b, now) ==
      ResolveOne(c, x, ResolveAll(c, x, rows, open[..k], b, now), open[k], b, now)
  {
    assert open[..k + 1][..k] == open[..k] && open[..k + 1][k] == open[k];
  }

  /** The ticket of a position that comes up for exit. */
  ghost predicate ClosesTicket(open: seq<LivePosition>, b: Bar, now: int, t: int) {
    exists i :: 0 <= i < |open| && CheckExit(open[i], b, now).Some? && open[i].ticket == Some(t)
  }

  lemma {:induction false} ClosesCounted(c: Config, x: Adapter, open: seq<LivePosition>, b: Bar, now: int)
    ensures Total(c, x, open, b, now).closes == Exits(open, b, now)
  {
    hide CheckExit, FillOf, ClosePnl, CloseRow, WithExcursion;
    if open != [] { ClosesCounted(c, x, open[..|open| - 1], b, now); }
  }

  lemma {:induction false} TicketsAreExits(c: Config, x: Adapter, open: seq<LivePosition>, b: Bar, now: int, t: int)
    requires t in Total(c, x, open, b, now).tickets
    ensures ClosesTicket(open, b, now, t)
  {
    hide CheckExit, SummaryOf;
    var init, last := open[..|open| - 1], open[|open| - 1];
    if t in Total(c, x, init, b, now).tickets {
      TicketsAreExits(c, x, init, b, now, t);
      var i :| 0 <= i < |init| && CheckExit(init[i], b, now).Some? && init[i].ticket == Some(t);
      assert open[i] == init[i];
    } else {
      ClosedTicket(c, x, last, b, now, t);
      assert open[|open| - 1].ticket == Some(t);
    }
  }

  lemma ClosedTicket(c: Config, x: Adapter, p: LivePosition, b: Bar, now: int, t: int)
    requires t in SummaryOf(c, x, p, b, now).tickets
    ensures CheckExit(p, b, now).Some? && p.ticket == Some(t)
  {
    hide CheckExit, FillOf, ClosePnl, CloseRow;
  }

  lemma SurviveSums(c: Config, s: Live, b: Bar, now: int, k: nat, p: Pass)
    requires k < |s.open| && Summed(c, s, b, now, k, p) && CheckExit(s.open[k], b, now).None?
    ensures Summed(c, s, b, now, k + 1, Survive(p, k, b))
  {
    hide ApplyAll, CheckExit, WithExcursion, CloseRow, ClosePnl, FillOf, Resolve, Total, ResolveAll;
    var u, t := WithExcursion(p.book[k], b), Total(c, s.adapter, s.open[..k], b, now);
    TotalNext(c, s.adapter, s.disk.signals, s.open, b, now, k);
    OneMore(s.disk, [], p.effects, Saved(u));
    assert Plus(t, SummaryOf(c, s.adapter, s.open[k], b, now)) ==
      Summary(t.kept + multiset{u}, t.pnl, t.rows, t.closes, t.tickets);
  }

  /** The ledger row of a close does not depend on the order's number or its receipt. */
  lemma FillIdUnused(c: Config, x: Adapter, p: LivePosition, b: Bar, now: int, id: int, t: Summary)
    requires AnswersAlike(x, t.closes + 1)
    requires x.Broker? ==> p.ticket.Some? && p.ticket.value in x.account.open - t.tickets
    ensures var y := AfterCloses(x, t);
      var (z, answer) := Submit(y, CloseOrder(c, p, b, now, id));
      && z == AfterCloses(x, t.(closes := t.closes + 1, tickets := t.tickets + TicketsOf(p))) && answer.Ok?
      && CloseRow(c, p, now, answer.value) == CloseRow(c, p, now, FillOf(c, x, p, b, now))
      && ClosePnl(p, answer.value) == ClosePnl(p, FillOf(c, x, p, b, now))
  {
    hide SlippagePips, DirectionPnl;
    var y := AfterCloses(x, t);
    var answer := Submit(y, CloseOrder(c, p, b, now, id)).1;
    if x.Simulated? {
      assert answer.value == FillOf(c, x, p, b, now).(orderId := id);
    } else {
      assert !RefusesNext(x.account, t.closes) && Reply(x.account, t.closes) == Reply(x.account, 0);
      assert x.account.open - t.tickets - {p.ticket.value} == x.account.open - (t.tickets + TicketsOf(p));
      assert answer.value.(orderId := 0, ticket := None) == FillOf(c, x, p, b, now);
    }
  }

  lemma TicketStillOpen(c: Config, s: Live, b: Bar, now: int, k: nat)
    requires k < |s.open| && OwnTickets(s.open, s.adapter) && s.adapter.Broker?
    ensures s.open[k].ticket.Some?
    ensures s.open[k].ticket.value in s.adapter.account.open - Total(c, s.adapter, s.open[..k], b, now).tickets
  {
    hide Total, CheckExit;
    var t := s.open[k].ticket.value;
    if t in Total(c, s.adapter, s.open[..k], b, now).tickets {
      TicketsAreExits(c, s.adapter, s.open[..k], b, now, t);
    }
  }

  lemma CloseSums(c: Config, s: Live, b: Bar, now: int, k: nat, p: Pass)
    requires k < |s.open| && Summed(c, s, b, now, k, p) && CheckExit(s.open[k], b, now).Some?
    requires OwnTickets(s.open, s.adapter) && AnswersAlike(s.adapter, Exits(s.open[..k], b, now) + 1)
    ensures Summed(c, s, b, now, k + 1, CloseOne(c, p, k, b, now))
  {
    hide ApplyAll, CheckExit, WithExcursion, CloseRow, ClosePnl, FillOf, Resolve, CloseEffects, Submit, CloseOrder,
      Total, ResolveAll, AnswersAlike, OwnTickets;
    TotalNext(c, s.adapter, s.disk.signals, s.open, b, now, k);
    ClosesCounted(c, s.adapter, s.open[..k], b, now);
    var pos, t := p.book[k], Total(c, s.adapter, s.open[..k], b, now);
    var order := CloseOrder(c, pos, b, now, p.nextId);
    var answer := Submit(p.adapter, order).1;
    if s.adapter.Broker? { TicketStillOpen(c, s, b, now, k); }
    FillIdUnused(c, s.adapter, pos, b, now, p.nextId, t);
    CloseEffectsApplied(c, s.disk, p.effects, pos, now, answer.value, order, answer);
    var pnl, row := ClosePnl(pos, answer.value), CloseRow(c, pos, now, answer.value);
    assert Plus(t, SummaryOf(c, s.adapter, pos, b, now)) ==
      Summary(t.kept, t.pnl + pnl, t.rows + multiset{row}, t.closes + 1, t.tickets + TicketsOf(pos));
  }

  lemma FewerAlike(x: Adapter, n: nat, m: nat)
    requires AnswersAlike(x, n) && m <= n
    ensures AnswersAlike(x, m)
  {
  }

  lemma {:induction false} ManageSums(c: Config, s: Live, b: Bar, now: int, k: nat)
    requires k <= |s.open| && OwnTickets(s.open, s.adapter) && AnswersAlike(s.adapter, Exits(s.open, b, now))
    ensures Summed(c, s, b, now, k, ManageTo(c, Begin(s), b, now, k))
  {
    hide CheckExit, Survive, CloseOne, AnswersAlike, OwnTickets, Summed, Exits;
    if k == 0 {
      BeginSums(c, s, b, now);
    } else {
      ManageSums(c, s, b, now, k - 1);
      var p := ManageTo(c, Begin(s), b, now, k - 1);
      NextUp(c, s, b, now, k - 1, p);
      if CheckExit(s.open[k - 1], b, now).None? {
        SurviveSums(c, s, b, now, k - 1, p);
      } else {
        NextExit(s.open, b, now, k - 1);
        ExitsGrow(s.open, b, now, k, |s.open|);
        assert s.open[..|s.open|] == s.open;
        FewerAlike(s.adapter, Exits(s.open, b, now), Exits(s.open[..k - 1], b, now) + 1);
        CloseSums(c, s, b, now, k - 1, p);
      }
    }
  }

  lemma NextUp(c: Config, s: Live, b: Bar, now: int, k: nat, p: Pass)
    requires k < |s.open| && Summed(c, s, b, now, k, p)
    ensures !p.raised && |p.book| == |s.open| && p.book[k] == s.open[k]
  {
  }

  lemma BeginSums(c: Config, s: Live, b: Bar, now: int)
    ensures Summed(c, s, b, now, 0, Begin(s))
  {
    assert s.open[..0] == [];
    if s.adapter.Broker? { assert s.adapter.account.open - {} == s.adapter.account.open; }
  }

  // ---------------------------------------------------------------- order does not matter

  predicate DistinctSignals(open: seq<LivePosition>) {
    forall i, j :: 0 <= i < j < |open| ==> open[i].signalId != open[j].signalId
  }

  function Without(open: seq<LivePosition>, i: nat): seq<LivePosition>
    requires i < |open|
  {
    open[..i] + open[i + 1..]
  }

  lemma WithoutInit(open: seq<LivePosition>, i: nat)
    requires i < |open| - 1
    ensures |Without(open, i)| == |open| - 1
    ensures Without(open, i)[..|open| - 2] == Without(open[..|open| - 1], i)
    ensures Without(open, i)[|open| - 2] == open[|open| - 1]
  {
  }

  lemma ResolvesCommute(c: Config, x: Adapter, rows: map<int, SignalRow>, p: LivePosition, q: LivePosition, b: Bar,
    now: int)
    requires p.signalId != q.signalId
    ensures ResolveOne(c, x, ResolveOne(c, x, rows, p, b, now), q, b, now) ==
      ResolveOne(c, x, ResolveOne(c, x, rows, q, b, now), p, b, now)
  {
    hide CheckExit, FillOf, CloseRow, ClosePnl;
  }

  lemma PlusSwaps(a: Summary, b: Summary, d: Summary)
    ensures Plus(Plus(a, b), d) == Plus(Plus(a, d), b)
  {
  }

  /** Any position may be managed last. */
  lemma {:induction false} ManagedLast(c: Config, x: Adapter, rows: map<int, SignalRow>, open: seq<LivePosition>,
    b: Bar, now: int, i: nat)
    requires i < |open| && DistinctSignals(open)
    ensures Total(c, x, open, b, now) == Plus(Total(c, x, Without(open, i), b, now), SummaryOf(c, x, open[i], b, now))
    ensures ResolveAll(c, x, rows, open, b, now) ==
      ResolveOne(c, x, ResolveAll(c, x, rows, Without(open, i), b, now), open[i], b, now)
  {
    hide SummaryOf, ResolveOne, Plus;
    if i == |open| - 1 {
      assert Without(open, i) == open[..|open| - 1];
    } else {
      var init, last := open[..|open| - 1], open[|open| - 1];
      ManagedLast(c, x, rows, init, b, now, i);
      WithoutInit(open, i);
      PlusSwaps(Total(c, x, Without(init, i), b, now), SummaryOf(c, x, open[i], b, now), SummaryOf(c, x, last, b, now));
      ResolvesCommute(c, x, ResolveAll(c, x, rows, Without(init, i), b, now), open[i], last, b, now);
    }
  }

  lemma WithoutElements(open: seq<LivePosition>, i: nat)
    requires i < |open|
    ensures multiset(Without(open, i)) == multiset(open) - multiset{open[i]}
  {
    assert open == open[..i] + [open[i]] + open[i + 1..];
  }

  lemma WithoutSignals(open: seq<LivePosition>, i: nat)
    requires i < |open| && DistinctSignals(open)
    ensures DistinctSignals(Without(open, i))
  {
    var w := Without(open, i);
    forall j | 0 <= j < |w| ensures w[j] == open[Around(i, j)] {
      AroundAt(open[..i], open[i], open[i + 1..], j);
      assert open == open[..i] + [open[i]] + open[i + 1..];
    }
  }

  lemma WithoutLast(open: seq<LivePosition>)
    requires open != []
    ensures Without(open, |open| - 1) == open[..|open| - 1]
  {
  }

  lemma Found(p: seq<LivePosition>, q: seq<LivePosition>) returns (i: nat)
    requires p != [] && multiset(p) == multiset(q)
    ensures i < |q| && q[i] == p[|p| - 1]
  {
    assert p[|p| - 1] in multiset(q);
    i :| 0 <= i < |q| && q[i] == p[|p| - 1];
  }

  /** Managing a permuted list comes to the same. */
  lemma {:induction false} OrderDoesNotMatter(c: Config, x: Adapter, rows: map<int, SignalRow>, p: seq<LivePosition>,
    q: seq<LivePosition>, b: Bar, now: int)
    requires multiset(p) == multiset(q) && DistinctSignals(p) && DistinctSignals(q)
    ensures Total(c, x, p, b, now) == Total(c, x, q, b, now)
    ensures ResolveAll(c, x, rows, p, b, now) == ResolveAll(c, x, rows, q, b, now)
  {
    hide SummaryOf, ResolveOne, Plus, Without, DistinctSignals;
    if p == [] {
      assert |q| == |multiset(q)| == 0;
    } else {
      var i := Found(p, q);
      WithoutElements(q, i);
      WithoutElements(p, |p| - 1);
      WithoutSignals(q, i);
      WithoutSignals(p, |p| - 1);
      WithoutLast(p);
      OrderDoesNotMatter(c, x, rows, p[..|p| - 1], Without(q, i), b, now);
      ManagedLast(c, x, rows, q, b, now, i);
    }
  }

  // ---------------------------------------------------------------- two loops that differ in order only

  /** Same equity, tables and ids; lists and ledgers the same up to order. */
  ghost predicate Alike(s: Live, t: Live) {
    && s.equity == t.equity && s.adapter == t.adapter && s.nextId == t.nextId
    && multiset(s.open) == multiset(t.open) && TablesAlike(s.disk, t.disk)
  }

  ghost predicate TablesAlike(d: Disk, e: Disk) {
    d.positions == e.positions && d.signals == e.signals && multiset(d.ledger) == multiset(e.ledger)
  }

  /** Memory lists the store, and every open position has a signal and, with a broker, an open ticket of its own. */
  ghost predicate Ready(s: Live) {
    && Mirrored(s) && OwnSignals(s.open, s.nextId) && OwnTickets(s.open, s.adapter)
  }

  /** The adapter answers all closes of this poll alike: simulated fills always do, and a broker does when at most
      one position comes up for exit and its close is filled. */
  predicate Even(s: Live, b: Bar, now: int) {
    AnswersAlike(s.adapter, Exits(s.open, b, now))
  }

  /** The first close will be refused: the broker is switched off, or its next answer is a refusal. */
  predicate FirstRefused(x: Adapter) {
    x.Broker? && (!x.enabled || RefusesNext(x.account, 0))
  }

  /** The bar moves no excursion of a position that stays. */
  ghost predicate Unmoved(open: seq<LivePosition>, b: Bar, now: int) {
    forall p :: p in open && CheckExit(p, b, now).None? ==> WithExcursion(p, b) == p
  }

  /** The order of the list will not show in this poll: all closes are answered alike, or the first is refused before
      anything has changed. */
  ghost predicate OrderFree(s: Live, b: Bar, now: int) {
    Even(s, b, now) || (FirstRefused(s.adapter) && Unmoved(s.open, b, now))
  }

  predicate OwnSignals(open: seq<LivePosition>, n: int) {
    DistinctSignals(open) && forall i :: 0 <= i < |open| ==> open[i].signalId < n
  }

  /** The ledger rows among some effects. */
  function RowsOf(es: seq<Effect>): seq<LedgerEntry> {
    if es == [] then []
    else RowsOf(es[..|es| - 1]) + if es[|es| - 1].Recorded? then [es[|es| - 1].entry] else []
  }

  lemma {:induction false} LedgerIsRows(d: Disk, es: seq<Effect>)
    ensures ApplyAll(d, es).ledger == d.ledger + RowsOf(es)
  {
    if es != [] { LedgerIsRows(d, es[..|es| - 1]); }
  }

  lemma {:induction false} SameEffectsSameTables(d: Disk, e: Disk, es: seq<Effect>)
    requires TablesAlike(d, e)
    ensures TablesAlike(ApplyAll(d, es), ApplyAll(e, es))
  {
    if es != [] { SameEffectsSameTables(d, e, es[..|es| - 1]); }
  }

  // ---------------------------------------------------------------- signals stay apart

  lemma OwnSignalsReplaced(a: seq<LivePosition>, p: LivePosition, u: LivePosition, b: seq<LivePosition>, n: int)
    requires OwnSignals(a + [p] + b, n) && u.signalId == p.signalId
    ensures OwnSignals(a + [u] + b, n)
  {
    var before, after := a + [p] + b, a + [u] + b;
    assert forall i {:trigger after[i]} :: 0 <= i < |after| ==> after[i].signalId == before[i].signalId;
  }

  lemma OwnSignalsRemoved(a: seq<LivePosition>, p: LivePosition, b: seq<LivePosition>, n: int)
    requires OwnSignals(a + [p] + b, n)
    ensures OwnSignals(a + b, n)
  {
    var all, r := a + [p] + b, a + b;
    forall i | 0 <= i < |r| ensures r[i] == all[Around(|a|, i)] { AroundAt(a, p, b, i); }
  }

  lemma {:induction false} ManageKeepsSignals(c: Config, s: Live, b: Bar, now: int, k: nat, n: int)
    requires OwnSignals(s.open, n) && k <= |s.open|
    ensures var p := ManageTo(c, Begin(s), b, now, k);
      && (forall j {:trigger p.book[j]} :: k <= j < |s.open| ==> p.book[j] == s.open[j])
      && (!p.raised ==> OwnSignals(p.kept + s.open[k..], n))
  {
    hide CheckExit, OwnSignals, Submit, CloseEffects, CloseOrder, ClosePnl;
    if k == 0 {
      assert [] + s.open[0..] == s.open;
    } else {
      ManageKeepsSignals(c, s, b, now, k - 1, n);
      var p, pos, rest := ManageTo(c, Begin(s), b, now, k - 1), s.open[k - 1], s.open[k..];
      if !p.raised {
        assert p.kept + s.open[k - 1..] == p.kept + [pos] + rest;
        OwnSignalsReplaced(p.kept, pos, WithExcursion(pos, b), rest, n);
        OwnSignalsRemoved(p.kept, pos, rest, n);
      }
    }
  }

  // ---------------------------------------------------------------- managing and reacting alike

  lemma ManageAlike(c: Config, s: Live, t: Live, b: Bar, now: int)
    requires Ready(s) && Ready(t) && Alike(s, t) && Even(s, b, now)
    ensures var m, n := Manage(c, s, b, now), Manage(c, t, b, now);
      && !m.raised && !n.raised && m.equity == n.equity && m.adapter == n.adapter && m.nextId == n.nextId
      && multiset(m.book) == multiset(n.book)
      && TablesAlike(ApplyAll(s.disk, m.effects), ApplyAll(t.disk, n.effects))
      && multiset(RowsOf(m.effects)) == multiset(RowsOf(n.effects))
      && s.nextId <= m.nextId && OwnSignals(m.book, m.nextId) && OwnSignals(n.book, n.nextId)
      && OwnTickets(m.book, m.adapter) && OwnTickets(n.book, n.adapter)
  {
    hide ManageTo, Total, ResolveAll, ApplyAll, RowsOf, Lists, IdsBelow, OwnSignals, OwnTickets, StraysSurvive,
      AnswersAlike, Exits, NothingClosed;
    DistinctOf(s);
    DistinctOf(t);
    OrderDoesNotMatter(c, s.adapter, s.disk.signals, s.open, t.open, b, now);
    ClosesCounted(c, s.adapter, s.open, b, now);
    ClosesCounted(c, t.adapter, t.open, b, now);
    ManageSummed(c, s, b, now);
    ManageSummed(c, t, b, now);
    var m, n := Manage(c, s, b, now), Manage(c, t, b, now);
    ManageSettles(c, s, b, now);
    ManageSettles(c, t, b, now);
    ListsSameTable(m.book, n.book, ApplyAll(s.disk, m.effects).positions, ApplyAll(t.disk, n.effects).positions);
  }

  lemma DistinctOf(s: Live)
    requires Ready(s)
    ensures DistinctSignals(s.open) && OwnTickets(s.open, s.adapter)
  {
  }

  /** A completed management pass in terms of the order-free summary. */
  lemma ManageSummed(c: Config, s: Live, b: Bar, now: int)
    requires Ready(s) && Even(s, b, now)
    ensures var m, t := Manage(c, s, b, now), Total(c, s.adapter, s.open, b, now);
      && !m.raised && m.adapter == AfterCloses(s.adapter, t) && m.equity == s.equity + t.pnl
        && m.nextId == s.nextId + t.closes
      && multiset(m.book) == t.kept && multiset(RowsOf(m.effects)) == t.rows
      && multiset(ApplyAll(s.disk, m.effects).ledger) == multiset(s.disk.ledger) + t.rows
      && ApplyAll(s.disk, m.effects).signals == ResolveAll(c, s.adapter, s.disk.signals, s.open, b, now)
      && OwnSignals(m.book, m.nextId) && OwnTickets(m.book, m.adapter)
  {
    hide ManageTo, Total, ResolveAll, ApplyAll, RowsOf, Mirrored, OwnSignals, OwnTickets, AnswersAlike, Exits,
      AfterCloses;
    assert s.open[..|s.open|] == s.open;
    DistinctOf(s);
    ManageSums(c, s, b, now, |s.open|);
    ManageKeepsSignals(c, s, b, now, |s.open|, s.nextId);
    KeptTickets(c, s, b, now);
    var m := ManageTo(c, Begin(s), b, now, |s.open|);
    assert m.kept + s.open[|s.open|..] == m.kept;
    LedgerIsRows(s.disk, m.effects);
    var rows := RowsOf(m.effects);
    assert multiset(s.disk.ledger + rows) == multiset(s.disk.ledger) + multiset(rows);
    Cancel(multiset(s.disk.ledger), multiset(rows), Total(c, s.adapter, s.open, b, now).rows);
    OwnSignalsLoose(m.kept, s.nextId, m.nextId);
  }

  /** The survivors' tickets are still open. */
  lemma KeptTickets(c: Config, s: Live, b: Bar, now: int)
    requires Ready(s) && !ManageTo(c, Begin(s), b, now, |s.open|).raised
    requires ManageTo(c, Begin(s), b, now, |s.open|).adapter ==
      AfterCloses(s.adapter, Total(c, s.adapter, s.open, b, now))
    ensures OwnTickets(ManageTo(c, Begin(s), b, now, |s.open|).kept, ManageTo(c, Begin(s), b, now, |s.open|).adapter)
  {
    hide ManageTo, Total, Lists, IdsBelow, OwnSignals, CheckExit, WithExcursion;
    if s.adapter.Broker? {
      MirroredList(s);
      ManageKeeps(c, s, b, now, |s.open|);
      var m := ManageTo(c, Begin(s), b, now, |s.open|);
      forall i {:trigger m.kept[i]} | 0 <= i < |m.kept|
        ensures m.kept[i].ticket.Some? && m.kept[i].ticket.value in m.adapter.account.open
      {
        var j := KeptFrom(s.open, b, now, m.kept, i);
        SurvivorsTicket(c, s, b, now, j);
      }
      forall i, j | 0 <= i < j < |m.kept| ensures m.kept[i].ticket != m.kept[j].ticket {
        var x := KeptFrom(s.open, b, now, m.kept, i);
        var y := KeptFrom(s.open, b, now, m.kept, j);
        assert m.kept[i].tradeId != m.kept[j].tradeId;
        assert x < y || y < x;
      }
    }
  }

  lemma KeptFrom(open: seq<LivePosition>, b: Bar, now: int, kept: seq<LivePosition>, i: nat) returns (j: nat)
    requires IsKept(open, b, now, |open|, kept) && i < |kept|
    ensures j < |open| && CheckExit(open[j], b, now).None? && kept[i].ticket == open[j].ticket
    ensures kept[i].tradeId == open[j].tradeId
  {
    hide CheckExit, WithExcursion;
    assert kept[i] in kept;
    j :| 0 <= j < |open| && CheckExit(open[j], b, now).None? && kept[i] == WithExcursion(open[j], b);
    SameTrade(open[j], b);
  }

  lemma SurvivorsTicket(c: Config, s: Live, b: Bar, now: int, j: nat)
    requires s.adapter.Broker? && OwnTickets(s.open, s.adapter) && j < |s.open| && CheckExit(s.open[j], b, now).None?
    ensures s.open[j].ticket.Some?
    ensures s.open[j].ticket.value in s.adapter.account.open - Total(c, s.adapter, s.open, b, now).tickets
  {
    hide Total, CheckExit;
    var t := s.open[j].ticket.value;
    if t in Total(c, s.adapter, s.open, b, now).tickets {
      TicketsAreExits(c, s.adapter, s.open, b, now, t);
    }
  }

  lemma Cancel<T>(a: multiset<T>, b: multiset<T>, d: multiset<T>)
    requires a + b == a + d
    ensures b == d
  {
    forall x ensures b[x] == d[x] { assert (a + b)[x] == (a + d)[x]; }
  }

  lemma OwnSignalsLoose(open: seq<LivePosition>, n: int, m: int)
    requires OwnSignals(open, n) && n <= m
    ensures OwnSignals(open, m)
  {
  }

  /** What the rules decide to do after a management pass, as the statements it leads to. */
  function Decisions(c: Config, s: Live, k: PollInput): seq<Effect> {
    React(c, Manage(c, s, k.bar, k.now).(effects := []), k.reading, k.bar, k.now).effects
  }

  /** Two passes that the rest of the poll cannot tell apart. */
  ghost predicate LooksLike(m: Pass, n: Pass) {
    m.equity == n.equity && m.adapter == n.adapter && m.nextId == n.nextId && |m.book| == |n.book|
      && m.raised == n.raised
  }

  /** Two passes after the same statements and the same opened positions. */
  ghost predicate WentOn(m: Pass, p: Pass, es: seq<Effect>, added: seq<LivePosition>) {
    && p.effects == m.effects + es && p.book == m.book + added
    && (OwnTickets(m.book, m.adapter) ==> OwnTickets(p.book, p.adapter))
    && |added| <= 1 && m.nextId + |added| <= p.nextId
  }

  lemma EnterAlike(c: Config, m: Pass, n: Pass, v: Rules.Verdict, r: Backtest.Reading, b: Bar, now: int, signalId: int)
    returns (es: seq<Effect>, added: seq<LivePosition>)
    requires LooksLike(m, n) && MayEnter(c, m.equity, |m.book|, v)
    ensures var p, q := Enter(c, m, v, r.fv, b, now, signalId), Enter(c, n, v, r.fv, b, now, signalId);
      LooksLike(p, q) && WentOn(m, p, es, added) && WentOn(n, q, es, added)
    ensures added != [] ==> added[0].signalId == signalId
  {
    hide GateDecision, OpenOrder, SimulatedFill, OpenRow, RegimeOf, BlackoutOf, BrokerAccepts, BrokerAfter, OwnTickets;
    var p := Enter(c, m, v, r.fv, b, now, signalId);
    EnterOwnTickets(c, m, v, r, b, now, signalId);
    EnterOwnTickets(c, n, v, r, b, now, signalId);
    es, added := p.effects[|m.effects|..], p.book[|m.book|..];
  }

  lemma EnterOwnTickets(c: Config, m: Pass, v: Rules.Verdict, r: Backtest.Reading, b: Bar, now: int, signalId: int)
    requires MayEnter(c, m.equity, |m.book|, v)
    ensures var p := Enter(c, m, v, r.fv, b, now, signalId);
      OwnTickets(m.book, m.adapter) ==> OwnTickets(p.book, p.adapter)
  {
    hide GateDecision, SimulatedFill, OpenRow, RegimeOf, BlackoutOf;
    if OwnTickets(m.book, m.adapter) && m.adapter.Broker? {
      var p := Enter(c, m, v, r.fv, b, now, signalId);
      forall i {:trigger p.book[i]} | 0 <= i < |p.book|
        ensures p.book[i].ticket.Some? && p.book[i].ticket.value in p.adapter.account.open
      {
        if i < |m.book| { assert p.book[i] == m.book[i]; }
      }
    }
  }

  /** The reaction sees equity, the number of open positions, the adapter and the id counter, nothing else. */
  lemma ReactAlike(c: Config, m: Pass, n: Pass, r: Backtest.Reading, b: Bar, now: int)
    returns (es: seq<Effect>, added: seq<LivePosition>)
    requires LooksLike(m, n)
    ensures var p, q := React(c, m, r, b, now), React(c, n, r, b, now);
      LooksLike(p, q) && WentOn(m, p, es, added) && WentOn(n, q, es, added)
    ensures added != [] ==> added[0].signalId == m.nextId
  {
    hide MayEnter, SignalOf, Enter, OwnTickets;
    var v := r.verdict;
    es, added := [], [];
    if !m.raised && (v.Taken? || v.TurnedDown?) {
      var row := SignalOf(m.nextId, now, v);
      var p, q := Publish(m, row), Publish(n, row);
      es := [Published(row)];
      if MayEnter(c, p.equity, |p.book|, v) {
        var more;
        more, added := EnterAlike(c, p, q, v, r, b, now, m.nextId);
        es := es + more;
      }
    }
  }

  lemma {:induction false} RowsOfConcat(a: seq<Effect>, b: seq<Effect>)
    ensures RowsOf(a + b) == RowsOf(a) + RowsOf(b)
  {
    if b == [] {
      assert a + b == a;
    } else {
      assert (a + b)[..|a + b| - 1] == a + b[..|b| - 1];
      RowsOfConcat(a, b[..|b| - 1]);
    }
  }

  lemma SignalsAfter(a: seq<LivePosition>, added: seq<LivePosition>, n: int, m: int)
    requires OwnSignals(a, n) && |added| <= 1 && (added != [] ==> added[0].signalId == n) && n + |added| <= m
    ensures OwnSignals(a + added, m)
  {
  }

  lemma EvenPollAlike(c: Config, s: Live, t: Live, k: PollInput)
    requires Ready(s) && Ready(t) && Alike(s, t) && Even(s, k.bar, k.now)
    ensures var p, q := PassOf(c, s, k.bar, k.now, k.reading), PassOf(c, t, k.bar, k.now, k.reading);
      && Ready(After(s, p)) && Ready(After(t, q)) && Alike(After(s, p), After(t, q))
      && p.raised == q.raised && multiset(RowsOf(p.effects)) == multiset(RowsOf(q.effects))
    ensures Decisions(c, s, k) == Decisions(c, t, k)
  {
    hide Manage, React, OwnSignals, OwnTickets, Lists, IdsBelow, ApplyAll, RowsOf, TablesAlike, StraysSurvive,
      ManageTo, Even;
    var b, now, r := k.bar, k.now, k.reading;
    var m, n := Manage(c, s, b, now), Manage(c, t, b, now);
    ManageAlike(c, s, t, b, now);
    BookSizes(m.book, n.book);
    var es, added := ReactAlike(c, m, n, r, b, now);
    var e1, _ := ReactAlike(c, m, m.(effects := []), r, b, now);
    var e2, _ := ReactAlike(c, n, n.(effects := []), r, b, now);
    SameTail(m.effects, es, e1);
    SameTail(n.effects, es, e2);
    ApplyAllConcat(s.disk, m.effects, es);
    ApplyAllConcat(t.disk, n.effects, es);
    SameEffectsSameTables(ApplyAll(s.disk, m.effects), ApplyAll(t.disk, n.effects), es);
    RowsOfConcat(m.effects, es);
    RowsOfConcat(n.effects, es);
    PollSettles(c, s, b, now, r);
    PollSettles(c, t, b, now, r);
    var p, q := PassOf(c, s, b, now, r), PassOf(c, t, b, now, r);
    SignalsAfter(m.book, added, m.nextId, p.nextId);
    SignalsAfter(n.book, added, n.nextId, q.nextId);
  }

  // ---------------------------------------------------------------- a pass that is stopped before anything changed

  /** Nothing has happened but saves of positions as they were. */
  ghost predicate Untouched(s: Live, p: Pass) {
    && p.book == s.open && p.equity == s.equity && p.adapter == s.adapter && p.nextId == s.nextId && !p.raised
    && ApplyAll(s.disk, p.effects) == s.disk && RowsOf(p.effects) == []
  }

  lemma RowsOfOne(es: seq<Effect>, e: Effect)
    ensures RowsOf(es + [e]) == RowsOf(es) + if e.Recorded? then [e.entry] else []
  {
    assert (es + [e])[..|es|] == es;
  }

  lemma {:induction false} WalkUntouched(c: Config, s: Live, b: Bar, now: int, k: nat)
    requires Mirrored(s) && Unmoved(s.open, b, now) && k <= |s.open| && Exits(s.open[..k], b, now) == 0
    ensures Untouched(s, ManageTo(c, Begin(s), b, now, k))
  {
    hide CheckExit, WithExcursion, Lists, IdsBelow, DistinctIds, RowsListed, CloseOne, Exits, ApplyAll, RowsOf;
    if k == 0 {
      NothingTouched(s);
    } else {
      NextExit(s.open, b, now, k - 1);
      WalkUntouched(c, s, b, now, k - 1);
      MirroredList(s);
      var p, q := ManageTo(c, Begin(s), b, now, k - 1), s.open[k - 1];
      assert q in s.open && WithExcursion(q, b) == q;
      OneMore(s.disk, [], p.effects, Saved(q));
      RowsOfOne(p.effects, Saved(q));
      assert s.disk.positions[q.tradeId := q] == s.disk.positions;
      assert p.book[k - 1 := q] == s.open;
    }
  }

  lemma NothingTouched(s: Live)
    ensures Untouched(s, Begin(s))
  {
  }

  /** The adapter after one refused close. */
  function AfterRefusal(x: Adapter): Adapter {
    if x.Broker? && x.enabled then x.(account := x.account.(received := x.account.received + 1)) else x
  }

  lemma RefusedOnce(x: Adapter, order: Order)
    requires FirstRefused(x)
    ensures Submit(x, order).0 == AfterRefusal(x) && Submit(x, order).1.Err?
  {
  }

  /** The poll then ends at the first exit with one refused order; all it leaves is that the order was sent. */
  lemma StoppedPoll(c: Config, s: Live, b: Bar, now: int, r: Backtest.Reading)
    requires Mirrored(s) && FirstRefused(s.adapter) && Unmoved(s.open, b, now) && Exits(s.open, b, now) > 0
    ensures var p := PassOf(c, s, b, now, r);
      && p.raised && After(s, p) == s.(adapter := AfterRefusal(s.adapter), nextId := s.nextId + 1)
        && RowsOf(p.effects) == []
    ensures Manage(c, s, b, now).raised
  {
    hide CheckExit, ApplyAll, RowsOf, Mirrored, Unmoved, FirstRefused, Submit, AfterRefusal, Exits, React, CloseOrder,
      Survive;
    assert s.open[..|s.open|] == s.open;
    var k := ExitNumber(s.open, b, now, 0, |s.open|);
    WalkUntouched(c, s, b, now, k);
    var p := ManageTo(c, Begin(s), b, now, k);
    var order := CloseOrder(c, s.open[k], b, now, p.nextId);
    var e := Sent(order, s.open[k].tradeId, Submit(p.adapter, order).1);
    RefusedOnce(p.adapter, order);
    OneMore(s.disk, [], p.effects, e);
    RowsOfOne(p.effects, e);
    RaisedStays(c, Begin(s), b, now, k + 1, |s.open|);
    RaisedReacts(c, Manage(c, s, b, now), r, b, now);
  }

  lemma StillReady(s: Live)
    requires Ready(s)
    ensures Ready(s.(adapter := AfterRefusal(s.adapter), nextId := s.nextId + 1))
  {
    hide Lists;
    MoreIds(s.disk, s.nextId, s.nextId + 1);
    OwnSignalsLoose(s.open, s.nextId, s.nextId + 1);
  }

  lemma ExitsPermuted(c: Config, s: Live, t: Live, b: Bar, now: int)
    requires Ready(s) && Ready(t) && Alike(s, t)
    ensures Exits(s.open, b, now) == Exits(t.open, b, now)
    ensures Unmoved(s.open, b, now) ==> Unmoved(t.open, b, now)
  {
    hide Mirrored, OwnSignals, OwnTickets, TablesAlike, CheckExit, WithExcursion, Total, ResolveAll, Exits;
    DistinctOf(s);
    DistinctOf(t);
    OrderDoesNotMatter(c, s.adapter, s.disk.signals, s.open, t.open, b, now);
    ClosesCounted(c, s.adapter, s.open, b, now);
    ClosesCounted(c, t.adapter, t.open, b, now);
    SameMembers(s.open, t.open);
  }

  lemma StoppedPollAlike(c: Config, s: Live, t: Live, k: PollInput)
    requires Ready(s) && Ready(t) && Alike(s, t) && Exits(s.open, k.bar, k.now) > 0
    requires FirstRefused(s.adapter) && Unmoved(s.open, k.bar, k.now)
    ensures var p, q := PassOf(c, s, k.bar, k.now, k.reading), PassOf(c, t, k.bar, k.now, k.reading);
      && Ready(After(s, p)) && Ready(After(t, q)) && Alike(After(s, p), After(t, q))
      && p.raised == q.raised && multiset(RowsOf(p.effects)) == multiset(RowsOf(q.effects))
    ensures Decisions(c, s, k) == Decisions(c, t, k)
  {
    hide PassOf, Mirrored, OwnSignals, OwnTickets, RowsOf, TablesAlike, Manage, Unmoved, FirstRefused, AfterRefusal,
      Exits;
    ExitsPermuted(c, s, t, k.bar, k.now);
    StoppedPoll(c, s, k.bar, k.now, k.reading);
    StoppedPoll(c, t, k.bar, k.now, k.reading);
    StillReady(s);
    StillReady(t);
    RaisedReacts(c, Manage(c, s, k.bar, k.now).(effects := []), k.reading, k.bar, k.now);
    RaisedReacts(c, Manage(c, t, k.bar, k.now).(effects := []), k.reading, k.bar, k.now);
  }

  /** One poll of the loop and of its restarted twin: the same decisions, the same rows up to order, and
      the two are still alike. */
  lemma PollAlike(c: Config, s: Live, t: Live, k: PollInput)
    requires Ready(s) && Ready(t) && Alike(s, t) && OrderFree(s, k.bar, k.now)
    ensures var p, q := PassOf(c, s, k.bar, k.now, k.reading), PassOf(c, t, k.bar, k.now, k.reading);
      && Ready(After(s, p)) && Ready(After(t, q)) && Alike(After(s, p), After(t, q))
      && p.raised == q.raised && multiset(RowsOf(p.effects)) == multiset(RowsOf(q.effects))
    ensures Decisions(c, s, k) == Decisions(c, t, k)
  {
    hide PassOf, Ready, Alike, RowsOf, Decisions, Unmoved, FirstRefused, Exits, After;
    if Even(s, k.bar, k.now) { EvenPollAlike(c, s, t, k); } else { StoppedPollAlike(c, s, t, k); }
  }

  lemma SameTail(a: seq<Effect>, b: seq<Effect>, d: seq<Effect>)
    requires a + b == a + d
    ensures b == d
  {
    assert (a + b)[|a|..] == b && (a + d)[|a|..] == d;
  }

  lemma BookSizes(a: seq<LivePosition>, b: seq<LivePosition>)
    requires multiset(a) == multiset(b)
    ensures |a| == |b|
  {
    assert |multiset(a)| == |a| && |multiset(b)| == |b|;
  }

  // ---------------------------------------------------------------- runs

  /** The order of the list shows in no poll. */
  ghost predicate OrderFreeRun(c: Config, s: Live, polls: seq<PollInput>) {
    forall k {:trigger polls[k]} :: 0 <= k < |polls| ==>
      OrderFree(RunPolls(c, s, polls[..k]), polls[k].bar, polls[k].now)
  }

  lemma OrderFreePrefix(c: Config, s: Live, polls: seq<PollInput>, n: nat)
    requires OrderFreeRun(c, s, polls) && n <= |polls|
    ensures OrderFreeRun(c, s, polls[..n])
    ensures n < |polls| ==> OrderFree(RunPolls(c, s, polls[..n]), polls[n].bar, polls[n].now)
  {
    hide RunPolls, OrderFree;
    var init := polls[..n];
    forall i {:trigger init[i]} | 0 <= i < n ensures OrderFree(RunPolls(c, s, init[..i]), init[i].bar, init[i].now) {
      assert init[..i] == polls[..i] && init[i] == polls[i];
    }
  }

  lemma {:induction false} RunsAlike(c: Config, s: Live, t: Live, polls: seq<PollInput>)
    requires Ready(s) && Ready(t) && Alike(s, t) && OrderFreeRun(c, s, polls)
    ensures Ready(RunPolls(c, s, polls)) && Ready(RunPolls(c, t, polls))
    ensures Alike(RunPolls(c, s, polls), RunPolls(c, t, polls))
  {
    hide PassOf, Ready, Alike, After, OrderFree, OrderFreeRun;
    if polls != [] {
      var init, k := polls[..|polls| - 1], polls[|polls| - 1];
      OrderFreePrefix(c, s, polls, |init|);
      RunsAlike(c, s, t, init);
      PollAlike(c, RunPolls(c, s, init), RunPolls(c, t, init), k);
    }
  }

  /** What a restart between polls makes of the loop: positions and ledger come back in some order, equity
      is set to what it was, fresh ids stay fresh. */
  ghost predicate RestartOf(s: Live, t: Live) {
    && Lists(t.open, s.disk.positions) && multiset(t.disk.ledger) == multiset(s.disk.ledger)
    && t.disk.positions == s.disk.positions && t.disk.signals == s.disk.signals
    && t.equity == s.equity && t.adapter == s.adapter && t.nextId == s.nextId
  }

  lemma RestartIsAlike(s: Live, t: Live)
    requires Ready(s) && RestartOf(s, t)
    ensures Ready(t) && Alike(s, t)
  {
    ListsSameElements(s.open, t.open, s.disk.positions);
    OwnSignalsPermuted(s.open, t.open, s.nextId);
    OwnTicketsPermuted(s.open, t.open, s.adapter);
    forall i | 0 <= i < |t.disk.ledger| ensures t.disk.ledger[i].tradeId < t.nextId {
      assert t.disk.ledger[i] in multiset(s.disk.ledger);
    }
  }

  lemma OwnSignalsPermuted(a: seq<LivePosition>, b: seq<LivePosition>, n: int)
    requires OwnSignals(a, n) && DistinctIds(b) && multiset(a) == multiset(b)
    ensures OwnSignals(b, n)
  {
    forall i | 0 <= i < |b| ensures b[i] in a { assert b[i] in multiset(a); }
    forall i, j | 0 <= i < j < |b| ensures b[i].signalId != b[j].signalId {
      assert b[i] in a && b[j] in a && b[i] != b[j];
      var x :| 0 <= x < |a| && a[x] == b[i];
      var y :| 0 <= y < |a| && a[y] == b[j];
      assert x < y || y < x;
    }
  }

  lemma OwnTicketsPermuted(a: seq<LivePosition>, b: seq<LivePosition>, x: Adapter)
    requires OwnTickets(a, x) && DistinctIds(b) && multiset(a) == multiset(b)
    ensures OwnTickets(b, x)
  {
    if x.Broker? {
      forall i | 0 <= i < |b| ensures b[i] in a { assert b[i] in multiset(a); }
      forall i {:trigger b[i]} | 0 <= i < |b| ensures b[i].ticket.Some? && b[i].ticket.value in x.account.open {
        assert b[i] in a;
        var y :| 0 <= y < |a| && a[y] == b[i];
      }
      forall i, j | 0 <= i < j < |b| ensures b[i].ticket != b[j].ticket {
        assert b[i] in a && b[j] in a && b[i] != b[j];
        var u :| 0 <= u < |a| && a[u] == b[i];
        var v :| 0 <= v < |a| && a[v] == b[j];
        assert u < v || v < u;
      }
    }
  }

  /** Restart equivalence. Stop after any poll and rebuild the loop from disk: whatever polls follow, both
      loops have the same equity, the same positions and signals on disk, the same open positions and
      ledger rows up to order; and in the next poll they decide the same and write the same rows, closes
      possibly in another order. */
  lemma RestartChangesNothing(c: Config, s: Live, t: Live, polls: seq<PollInput>, k: PollInput)
    requires Ready(s) && RestartOf(s, t) && OrderFreeRun(c, s, polls + [k])
    ensures Alike(RunPolls(c, s, polls), RunPolls(c, t, polls))
    ensures var s1, t1 := RunPolls(c, s, polls), RunPolls(c, t, polls);
      && Decisions(c, s1, k) == Decisions(c, t1, k)
      && multiset(RowsOf(PassOf(c, s1, k.bar, k.now, k.reading).effects))
           == multiset(RowsOf(PassOf(c, t1, k.bar, k.now, k.reading).effects))
  {
    hide PassOf, Ready, Alike, RestartOf, Decisions, RowsOf, OrderFree, OrderFreeRun, RunPolls;
    RestartIsAlike(s, t);
    var all := polls + [k];
    assert all[|polls|] == k && all[..|polls|] == polls;
    OrderFreePrefix(c, s, all, |polls|);
    RunsAlike(c, s, t, polls);
    PollAlike(c, RunPolls(c, s, polls), RunPolls(c, t, polls), k);
  }

  /** With simulated fills the order of the list shows in no run. */
  lemma {:induction false} SimulatedIsOrderFree(c: Config, s: Live, polls: seq<PollInput>)
    requires s.adapter.Simulated?
    ensures OrderFreeRun(c, s, polls) && RunPolls(c, s, polls).adapter == s.adapter
  {
    hide PassOf;
    if polls != [] {
      var init, k := polls[..|polls| - 1], polls[|polls| - 1];
      SimulatedIsOrderFree(c, s, init);
      Recovery.SimulatedStays(c, RunPolls(c, s, init), k.bar, k.now, k.reading);
      forall i {:trigger polls[i]} | 0 <= i < |polls|
        ensures OrderFree(RunPolls(c, s, polls[..i]), polls[i].bar, polls[i].now)
      {
        if i < |init| { assert init[..i] == polls[..i] && init[i] == polls[i]; } else { assert polls[..i] == init; }
      }
    }
  }

  /** With at most one exit on the bar the order shows exactly when its close is refused and some position that stays
      has a new excursion. */
  lemma OneExitIsOrderFree(s: Live, b: Bar, now: int)
    requires s.adapter.Broker? && Exits(s.open, b, now) <= 1
    ensures OrderFree(s, b, now) <==> Exits(s.open, b, now) == 0 || !FirstRefused(s.adapter) || Unmoved(s.open, b, now)
  {
  }

  /** A list of one position has only one order. */
  lemma OnePositionIsOrderFree(s: Live, b: Bar, now: int)
    requires |s.open| <= 1
    ensures OrderFree(s, b, now)
  {
    if s.open != [] {
      assert s.open[..1] == s.open;
      NextExit(s.open, b, now, 0);
      assert forall p :: p in s.open ==> p == s.open[0];
    }
  }

  /** So for a strategy that holds one position at a time the order shows in no run, with any adapter. */
  lemma OneAtATimeIsOrderFree(c: Config, s: Live, polls: seq<PollInput>)
    requires c.maxConcurrent <= 1 && |s.open| <= 1
    ensures OrderFreeRun(c, s, polls)
  {
    hide RunPolls, OrderFree;
    forall k {:trigger polls[k]} | 0 <= k < |polls|
      ensures OrderFree(RunPolls(c, s, polls[..k]), polls[k].bar, polls[k].now)
    {
      OneAtATimeIsNeverStale(c, s, polls[..k], polls[k].bar, polls[k].now);
      OnePositionIsOrderFree(RunPolls(c, s, polls[..k]), polls[k].bar, polls[k].now);
    }
  }

  /** A loop started on empty tables, and every loop it becomes while the order shows in no poll, is ready. */
  lemma FreshIsReady(c: Config, equity: real, signals: map<int, SignalRow>, x: Adapter, id: int, polls: seq<PollInput>)
    requires x.Broker? ==> forall t :: t in x.account.open ==> t < x.account.received
    requires OrderFreeRun(c, Live(equity, [], Disk(map[], [], signals), x, id), polls)
    ensures Ready(RunPolls(c, Live(equity, [], Disk(map[], [], signals), x, id), polls))
  {
    hide PassOf, After, RunPolls, OrderFreeRun;
    var s := Live(equity, [], Disk(map[], [], signals), x, id);
    RunsAlike(c, s, s, polls);
  }
}

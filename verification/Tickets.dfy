/** The broker-ticket protocol of the live loop. The broker issues a fresh ticket for every position it
    opens; nothing else touches the account. */
module Tickets {
  import opened Prelude
  import opened Bars
  import opened Execution
  import opened Records
  import opened LiveLoop
  import Backtest
  import Rules

  // ---------------------------------------------------------------- who owns which ticket

  /** Tickets open at the broker, each with the trade it was opened for, as the answered orders tell. */
  function OwnersAfter(o: map<int, int>, e: Effect): map<int, int> {
    if !e.Sent? || e.answer.Err? then o
    else match e.order.closes
         case Some(t) => o - {t}
         case None => if e.answer.value.ticket.Some? then o[e.answer.value.ticket.value := e.forTrade] else o
  }

  function Owners(o: map<int, int>, es: seq<Effect>): map<int, int> {
    if es == [] then o else OwnersAfter(Owners(o, es[..|es| - 1]), es[|es| - 1])
  }

  /** A close order names a ticket that is open and was opened for that same trade. */
  predicate NamesItsOwn(o: map<int, int>, e: Effect) {
    e.Sent? && e.order.closes.Some? ==> e.order.closes.value in o && o[e.order.closes.value] == e.forTrade
  }

  ghost predicate ProtocolKept(o: map<int, int>, es: seq<Effect>) {
    forall i :: 0 <= i < |es| ==> NamesItsOwn(Owners(o, es[..i]), es[i])
  }

  lemma OneMoreEffect(o: map<int, int>, es: seq<Effect>, e: Effect)
    ensures Owners(o, es + [e]) == OwnersAfter(Owners(o, es), e)
    ensures ProtocolKept(o, es) && NamesItsOwn(Owners(o, es), e) ==> ProtocolKept(o, es + [e])
  {
    var all := es + [e];
    assert all[..|es|] == es;
    if ProtocolKept(o, es) && NamesItsOwn(Owners(o, es), e) {
      forall i | 0 <= i < |all| ensures NamesItsOwn(Owners(o, all[..i]), all[i]) {
        if i < |es| { assert all[..i] == es[..i]; }
      }
    }
  }

  lemma {:induction false} OwnersConcat(o: map<int, int>, a: seq<Effect>, b: seq<Effect>)
    ensures Owners(o, a + b) == Owners(Owners(o, a), b)
  {
    if b == [] {
      assert a + b == a;
    } else {
      assert (a + b)[..|a + b| - 1] == a + b[..|b| - 1];
      OwnersConcat(o, a, b[..|b| - 1]);
    }
  }

  lemma LastOfKept(o: map<int, int>, es: seq<Effect>)
    requires ProtocolKept(o, es) && es != []
    ensures ProtocolKept(o, es[..|es| - 1]) && NamesItsOwn(Owners(o, es[..|es| - 1]), es[|es| - 1])
  {
    var init := es[..|es| - 1];
    forall i | 0 <= i < |init| ensures NamesItsOwn(Owners(o, init[..i]), init[i]) {
      assert init[..i] == es[..i];
    }
  }

  lemma {:induction false} ProtocolConcat(o: map<int, int>, a: seq<Effect>, b: seq<Effect>)
    requires ProtocolKept(o, a) && ProtocolKept(Owners(o, a), b)
    ensures ProtocolKept(o, a + b)
  {
    hide ProtocolKept, NamesItsOwn, Owners;
    if b == [] {
      assert a + b == a;
    } else {
      var init, last := b[..|b| - 1], b[|b| - 1];
      LastOfKept(Owners(o, a), b);
      ProtocolConcat(o, a, init);
      OwnersConcat(o, a, init);
      OneMoreEffect(o, a + init, last);
      assert a + init + [last] == a + b;
    }
  }

  // ---------------------------------------------------------------- positions and account

  /** The account holds exactly these tickets, all of them issued already. */
  ghost predicate AccountOf(x: Adapter, o: map<int, int>) {
    x.Broker? && x.account.open.Keys == o.Keys && forall t :: t in o ==> t < x.account.received
  }

  /** A position carries an issued ticket; while that is open at the broker, it is the position's own. */
  predicate CarriesTicket(p: LivePosition, issued: int, o: map<int, int>) {
    && p.ticket.Some? && p.ticket.value < issued
    && (p.ticket.value in o ==> o[p.ticket.value] == p.tradeId)
  }

  /** Every listed position carries a ticket of its own, and every ticket open at the broker is listed. A
      listed ticket need not be open any more. */
  ghost predicate Ticketed(open: seq<LivePosition>, x: Adapter, o: map<int, int>) {
    && AccountOf(x, o)
    && (forall i :: 0 <= i < |open| ==> CarriesTicket(open[i], x.account.received, o))
    && (forall i, j :: 0 <= i < j < |open| ==> open[i].ticket != open[j].ticket)
    && (forall t :: t in o ==> exists i :: 0 <= i < |open| && open[i].ticket == Some(t))
  }

  /** A listed position whose ticket is no longer open. */
  predicate IsGhost(p: LivePosition, o: map<int, int>) {
    p.ticket.Some? && p.ticket.value !in o
  }

  ghost predicate HasGhost(open: seq<LivePosition>, o: map<int, int>) {
    exists j :: 0 <= j < |open| && IsGhost(open[j], o)
  }

  /** The open positions carry exactly the tickets open at the broker, each its own. */
  ghost predicate InStep(open: seq<LivePosition>, x: Adapter, o: map<int, int>) {
    Ticketed(open, x, o) && !HasGhost(open, o)
  }

  /** Where the i-th element of a + b sits in a + [p] + b. */
  function Around(a: int, i: int): int {
    if i < a then i else i + 1
  }

  lemma AroundAt(a: seq<LivePosition>, p: LivePosition, b: seq<LivePosition>, i: int)
    requires 0 <= i < |a + b|
    ensures 0 <= Around(|a|, i) < |a + [p] + b| && Around(|a|, i) != |a|
    ensures (a + [p] + b)[Around(|a|, i)] == (a + b)[i] && (a + [p] + b)[|a|] == p
  {
  }

  lemma AroundOf(a: seq<LivePosition>, p: LivePosition, b: seq<LivePosition>, k: int) returns (i: int)
    requires 0 <= k < |a + [p] + b| && k != |a|
    ensures 0 <= i < |a + b| && (a + b)[i] == (a + [p] + b)[k]
  {
    i := if k < |a| then k else k - 1;
  }

  lemma Removed(a: seq<LivePosition>, p: LivePosition, b: seq<LivePosition>, x: Adapter, o: map<int, int>, y: Adapter,
    t: int)
    requires Ticketed(a + [p] + b, x, o) && p.ticket == Some(t)
    requires AccountOf(y, o - {t}) && x.account.received <= y.account.received
    ensures Ticketed(a + b, y, o - {t})
  {
    var all, r := a + [p] + b, a + b;
    assert all[|a|] == p;
    forall i | 0 <= i < |r| ensures CarriesTicket(r[i], y.account.received, o - {t}) {
      AroundAt(a, p, b, i);
      assert CarriesTicket(all[Around(|a|, i)], x.account.received, o);
    }
    forall i, j | 0 <= i < j < |r| ensures r[i].ticket != r[j].ticket {
      AroundAt(a, p, b, i);
      AroundAt(a, p, b, j);
    }
    forall u | u in o - {t} ensures exists i :: 0 <= i < |r| && r[i].ticket == Some(u) {
      var k :| 0 <= k < |all| && all[k].ticket == Some(u);
      var i := AroundOf(a, p, b, k);
    }
  }

  /** Taking out a position whose ticket was open leaves the ghosts what they were. */
  lemma RemovedGhosts(a: seq<LivePosition>, p: LivePosition, b: seq<LivePosition>, x: Adapter, o: map<int, int>, t: int)
    requires Ticketed(a + [p] + b, x, o) && p.ticket == Some(t) && t in o
    ensures HasGhost(a + b, o - {t}) <==> HasGhost(a + [p] + b, o)
  {
    hide AccountOf;
    var all, r := a + [p] + b, a + b;
    assert all[|a|] == p;
    if i :| 0 <= i < |r| && IsGhost(r[i], o - {t}) {
      AroundAt(a, p, b, i);
      assert all[Around(|a|, i)].ticket != all[|a|].ticket;
      assert IsGhost(all[Around(|a|, i)], o);
    }
    if k :| 0 <= k < |all| && IsGhost(all[k], o) {
      var i := AroundOf(a, p, b, k);
      assert IsGhost(r[i], o - {t});
    }
  }

  /** Only tickets and trade ids matter. */
  predicate SameTickets(p: seq<LivePosition>, q: seq<LivePosition>) {
    |p| == |q| && forall i :: 0 <= i < |p| ==> p[i].ticket == q[i].ticket && p[i].tradeId == q[i].tradeId
  }

  lemma Relabelled(p: seq<LivePosition>, q: seq<LivePosition>, x: Adapter, o: map<int, int>)
    requires Ticketed(p, x, o) && SameTickets(p, q)
    ensures Ticketed(q, x, o)
  {
    forall i | 0 <= i < |q| ensures CarriesTicket(q[i], x.account.received, o) {
      assert CarriesTicket(p[i], x.account.received, o);
    }
    forall t | t in o ensures exists i :: 0 <= i < |q| && q[i].ticket == Some(t) {
      var i :| 0 <= i < |p| && p[i].ticket == Some(t);
      assert q[i].ticket == Some(t);
    }
  }

  lemma RelabelledGhosts(p: seq<LivePosition>, q: seq<LivePosition>, o: map<int, int>)
    requires SameTickets(p, q)
    ensures HasGhost(p, o) <==> HasGhost(q, o)
  {
    if j :| 0 <= j < |p| && IsGhost(p[j], o) { assert IsGhost(q[j], o); }
    if j :| 0 <= j < |q| && IsGhost(q[j], o) { assert IsGhost(p[j], o); }
  }

  lemma Added(open: seq<LivePosition>, p: LivePosition, x: Adapter, o: map<int, int>, y: Adapter, t: int)
    requires Ticketed(open, x, o) && p.ticket == Some(t) && t == x.account.received
    requires AccountOf(y, o[t := p.tradeId]) && y.account.received > t
    ensures Ticketed(open + [p], y, o[t := p.tradeId])
    ensures HasGhost(open + [p], o[t := p.tradeId]) <==> HasGhost(open, o)
  {
    var r, n := open + [p], o[t := p.tradeId];
    forall i | 0 <= i < |r| ensures CarriesTicket(r[i], y.account.received, n) {
      if i < |open| { assert CarriesTicket(open[i], x.account.received, o); }
    }
    forall i, j | 0 <= i < j < |r| ensures r[i].ticket != r[j].ticket {
      if j == |open| { assert CarriesTicket(open[i], x.account.received, o); }
    }
    forall u | u in n ensures exists i :: 0 <= i < |r| && r[i].ticket == Some(u) {
      if u == t {
        assert r[|open|].ticket == Some(u);
      } else {
        var i :| 0 <= i < |open| && open[i].ticket == Some(u);
        assert r[i].ticket == Some(u);
      }
    }
    AddedGhosts(open, p, x.account.received, o, n);
  }

  lemma AddedGhosts(open: seq<LivePosition>, p: LivePosition, t: int, o: map<int, int>, n: map<int, int>)
    requires n == o[t := p.tradeId] && p.ticket == Some(t)
    requires forall i :: 0 <= i < |open| ==> CarriesTicket(open[i], t, o)
    ensures HasGhost(open + [p], n) <==> HasGhost(open, o)
  {
    var r := open + [p];
    if j :| 0 <= j < |r| && IsGhost(r[j], n) { assert IsGhost(open[j], o); }
    if j :| 0 <= j < |open| && IsGhost(open[j], o) {
      assert CarriesTicket(open[j], t, o);
      assert IsGhost(r[j], n);
    }
  }

  lemma NewReceipt(open: seq<LivePosition>, x: Adapter, o: map<int, int>, y: Adapter)
    requires Ticketed(open, x, o) && AccountOf(y, o) && x.account.received <= y.account.received
    ensures Ticketed(open, y, o)
  {
    forall i | 0 <= i < |open| ensures CarriesTicket(open[i], y.account.received, o) {
      assert CarriesTicket(open[i], x.account.received, o);
    }
  }

  // ---------------------------------------------------------------- one order

  /** A close on an issued ticket: filled if and only if the ticket is open and the broker's next answer is
      a price; then the ticket is gone, otherwise nothing changed. */
  lemma SendClose(x: Adapter, o: map<int, int>, order: Order, id: int)
    requires AccountOf(x, o) && order.closes.Some?
    ensures var (y, answer) := Submit(x, order);
      && AccountOf(y, OwnersAfter(o, Sent(order, id, answer)))
      && (answer.Ok? <==> x.enabled && x.account.replies(x.account.received).Some? && order.closes.value in o)
      && y.enabled == x.enabled && y.account.replies == x.account.replies
      && y.account.received == x.account.received + if x.enabled then 1 else 0
  {
  }

  lemma SendOpen(x: Adapter, o: map<int, int>, order: Order, id: int)
    requires AccountOf(x, o) && order.closes.None?
    ensures var (y, answer) := Submit(x, order);
      && AccountOf(y, OwnersAfter(o, Sent(order, id, answer)))
      && x.account.received <= y.account.received
      && (answer.Ok? ==>
            answer.value.ticket == Some(x.account.received) && x.account.received !in o
              && x.account.received < y.account.received)
  {
  }

  // ---------------------------------------------------------------- what a pass will meet

  /** How many listed positions come up for exit. */
  function Exits(open: seq<LivePosition>, b: Bar, now: int): nat {
    if open == [] then 0
    else Exits(open[..|open| - 1], b, now) + if CheckExit(open[|open| - 1], b, now).Some? then 1 else 0
  }

  /** The answer to the n-th order from now is a refusal. */
  predicate RefusesNext(a: Account, n: nat) {
    a.replies(a.received + n).None?
  }

  /** The k-th position comes up for exit and its close will be refused, if nothing is refused before it:
      its ticket is not open, or the broker's answer to this order is a refusal. */
  predicate RefusedAt(open: seq<LivePosition>, x: Adapter, b: Bar, now: int, k: int)
    requires 0 <= k < |open|
  {
    && x.Broker? && CheckExit(open[k], b, now).Some?
    && !(x.enabled && !RefusesNext(x.account, Exits(open[..k], b, now))
         && open[k].ticket.Some? && open[k].ticket.value in x.account.open)
  }

  /** Nothing is refused before the k-th position. */
  ghost predicate Reaches(open: seq<LivePosition>, x: Adapter, b: Bar, now: int, k: int) {
    0 <= k <= |open| && forall i :: 0 <= i < k ==> !RefusedAt(open, x, b, now, i)
  }

  /** The k-th position is where the pass will stop. */
  ghost predicate StopsAt(open: seq<LivePosition>, x: Adapter, b: Bar, now: int, k: int) {
    0 <= k < |open| && Reaches(open, x, b, now, k) && RefusedAt(open, x, b, now, k)
  }

  /** A close will be filled and a later one refused. */
  ghost predicate WillGoStale(s: Live, b: Bar, now: int) {
    exists k :: StopsAt(s.open, s.adapter, b, now, k) && Exits(s.open[..k], b, now) > 0
  }

  /** A close order will go out on a ticket that is no longer open. */
  ghost predicate WillSendDead(s: Live, b: Bar, now: int) {
    exists k :: 0 <= k < |s.open| && StopsAt(s.open, s.adapter, b, now, k) && s.adapter.Broker?
      && s.open[k].ticket.Some? && s.open[k].ticket.value !in s.adapter.account.open
  }

  lemma NextExit(open: seq<LivePosition>, b: Bar, now: int, k: nat)
    requires k < |open|
    ensures Exits(open[..k + 1], b, now) == Exits(open[..k], b, now) + if CheckExit(open[k], b, now).Some? then 1 else 0
  {
    assert open[..k + 1][..k] == open[..k];
  }

  lemma {:induction false} ExitsGrow(open: seq<LivePosition>, b: Bar, now: int, j: nat, k: nat)
    requires j <= k <= |open|
    ensures Exits(open[..j], b, now) <= Exits(open[..k], b, now)
  {
    if j < k {
      ExitsGrow(open, b, now, j, k - 1);
      NextExit(open, b, now, k - 1);
    }
  }

  /** The n-th exit sits somewhere. */
  lemma {:induction false} ExitNumber(open: seq<LivePosition>, b: Bar, now: int, n: nat, m: nat) returns (k: nat)
    requires m <= |open| && n < Exits(open[..m], b, now)
    ensures k < m && CheckExit(open[k], b, now).Some? && Exits(open[..k], b, now) == n
  {
    NextExit(open, b, now, m - 1);
    if n < Exits(open[..m - 1], b, now) { k := ExitNumber(open, b, now, n, m - 1); } else { k := m - 1; }
  }

  // ---------------------------------------------------------------- the management pass

  predicate IsCloseRow(e: Effect) {
    e.Recorded? && e.entry.event.Closed?
  }

  /** No close has been filled so far in this pass. */
  predicate NothingClosed(es: seq<Effect>) {
    forall i :: 0 <= i < |es| ==> !IsCloseRow(es[i])
  }

  /** After the exits among the first k, just their tickets are gone. */
  ghost predicate OpenAfter(s: Live, o: map<int, int>, w: map<int, int>, b: Bar, now: int, k: nat)
    requires k <= |s.open|
  {
    && w.Keys <= o.Keys && (forall t :: t in w ==> w[t] == o[t])
    && (forall j {:trigger s.open[j]} :: 0 <= j < |s.open| ==>
          if j < k && CheckExit(s.open[j], b, now).Some? then IsGhost(s.open[j], w)
          else IsGhost(s.open[j], w) <==> IsGhost(s.open[j], o))
  }

  /** An unraised pass after k positions. */
  ghost predicate Walking(s: Live, o: map<int, int>, b: Bar, now: int, p: Pass, k: nat) {
    && k <= |s.open| && SameTickets(p.book, s.open) && s.adapter.Broker? && p.adapter.Broker?
    && ProtocolKept(o, p.effects)
    && Ticketed(p.kept + s.open[k..], p.adapter, Owners(o, p.effects))
    && (HasGhost(p.kept + s.open[k..], Owners(o, p.effects)) <==> HasGhost(s.open, o))
    && (forall j {:trigger p.book[j]} :: k <= j < |s.open| ==> p.book[j] == s.open[j])
    && OpenAfter(s, o, Owners(o, p.effects), b, now, k)
    && p.adapter.enabled == s.adapter.enabled && p.adapter.account.replies == s.adapter.account.replies
    && (s.adapter.enabled ==> p.adapter.account.received == s.adapter.account.received + Exits(s.open[..k], b, now))
    && s.adapter.account.received <= p.adapter.account.received
    && (NothingClosed(p.effects) <==> Exits(s.open[..k], b, now) == 0)
    && Reaches(s.open, s.adapter, b, now, k)
  }

  /** A pass stopped by a refused close at position k. */
  ghost predicate Stopped(s: Live, o: map<int, int>, b: Bar, now: int, p: Pass, k: nat) {
    && StopsAt(s.open, s.adapter, b, now, k)
    && OpenAfter(s, o, Owners(o, p.effects), b, now, k)
    && Ticketed(p.book, p.adapter, Owners(o, p.effects))
    && (HasGhost(p.book, Owners(o, p.effects)) <==> HasGhost(s.open, o) || Exits(s.open[..k], b, now) > 0)
    && (ProtocolKept(o, p.effects) <==> !IsGhost(s.open[k], o))
    && (NothingClosed(p.effects) <==> Exits(s.open[..k], b, now) == 0)
  }

  lemma OneMoreRow(es: seq<Effect>, e: Effect)
    ensures NothingClosed(es + [e]) <==> NothingClosed(es) && !IsCloseRow(e)
  {
    var all := es + [e];
    assert all[|es|] == e;
    assert forall i :: 0 <= i < |es| ==> all[i] == es[i];
  }

  lemma CloseRowAmong(c: Config, p: LivePosition, now: int, fill: Fill, es: seq<Effect>, sent: Effect)
    requires sent.Sent?
    ensures !NothingClosed(es + [sent] + CloseEffects(c, p, now, fill))
  {
    var all := es + [sent] + CloseEffects(c, p, now, fill);
    assert IsCloseRow(all[|es| + 1]);
  }

  lemma CloseStatements(c: Config, o: map<int, int>, es: seq<Effect>, p: LivePosition, now: int, fill: Fill)
    ensures Owners(o, es + CloseEffects(c, p, now, fill)) == Owners(o, es)
    ensures ProtocolKept(o, es) ==> ProtocolKept(o, es + CloseEffects(c, p, now, fill))
  {
    hide ProtocolKept, Owners, CloseRow, ClosePnl;
    var e := CloseEffects(c, p, now, fill);
    OneMoreEffect(o, es, e[0]);
    OneMoreEffect(o, es + [e[0]], e[1]);
    OneMoreEffect(o, es + [e[0]] + [e[1]], e[2]);
    assert es + [e[0]] + [e[1]] + [e[2]] == es + e;
  }

  lemma ReachesNext(s: Live, b: Bar, now: int, k: nat)
    requires k < |s.open| && Reaches(s.open, s.adapter, b, now, k) && !RefusedAt(s.open, s.adapter, b, now, k)
    ensures Reaches(s.open, s.adapter, b, now, k + 1)
  {
  }

  lemma SurviveWalks(s: Live, o: map<int, int>, b: Bar, now: int, p: Pass, k: nat)
    requires k < |s.open| && Walking(s, o, b, now, p, k) && CheckExit(s.open[k], b, now).None?
    ensures Walking(s, o, b, now, Survive(p, k, b), k + 1)
  {
    hide Ticketed, ProtocolKept, NothingClosed, HasGhost, Owners, CheckExit, Reaches;
    var u, q := WithExcursion(p.book[k], b), Survive(p, k, b);
    var before, after := p.kept + s.open[k..], q.kept + s.open[k + 1..];
    assert SameTickets(before, after);
    OneMoreEffect(o, p.effects, Saved(u));
    OneMoreRow(p.effects, Saved(u));
    Relabelled(before, after, p.adapter, Owners(o, p.effects));
    RelabelledGhosts(before, after, Owners(o, p.effects));
    NextExit(s.open, b, now, k);
    ReachesNext(s, b, now, k);
  }

  lemma HeadCarries(a: seq<LivePosition>, b: seq<LivePosition>, x: Adapter, o: map<int, int>)
    requires Ticketed(a + b, x, o) && b != []
    ensures AccountOf(x, o) && CarriesTicket(b[0], x.account.received, o)
  {
    assert (a + b)[|a|] == b[0];
  }

  /** Which tickets are open once the k-th position's is gone. */
  lemma OneTicketGone(s: Live, o: map<int, int>, w: map<int, int>, b: Bar, now: int, k: nat, x: Adapter)
    requires k < |s.open| && OpenAfter(s, o, w, b, now, k) && Ticketed(s.open, x, o) && !IsGhost(s.open[k], w)
    requires CheckExit(s.open[k], b, now).Some?
    ensures s.open[k].ticket.Some? && OpenAfter(s, o, w - {s.open[k].ticket.value}, b, now, k + 1)
  {
    assert CarriesTicket(s.open[k], x.account.received, o);
    var t := s.open[k].ticket.value;
    forall j {:trigger s.open[j]} | 0 <= j < |s.open| && j != k ensures s.open[j].ticket != Some(t) {
      assert s.open[j].ticket != s.open[k].ticket;
    }
  }

  /** What RefusedAt says is what the adapter does. */
  lemma RefusalForeseen(s: Live, o: map<int, int>, b: Bar, now: int, p: Pass, k: nat)
    requires k < |s.open| && Walking(s, o, b, now, p, k) && CheckExit(s.open[k], b, now).Some?
    requires Ticketed(s.open, s.adapter, o)
    ensures AccountOf(p.adapter, Owners(o, p.effects)) && s.open[k].ticket.Some?
    ensures RefusedAt(s.open, s.adapter, b, now, k) <==>
      !(p.adapter.enabled && p.adapter.account.replies(p.adapter.account.received).Some?
        && s.open[k].ticket.value in Owners(o, p.effects))
    ensures IsGhost(s.open[k], Owners(o, p.effects)) <==> IsGhost(s.open[k], o)
  {
    hide ProtocolKept, NothingClosed, HasGhost, Owners, CheckExit, Reaches, Exits;
    HeadCarries(p.kept, s.open[k..], p.adapter, Owners(o, p.effects));
    assert s.open[k..][0] == s.open[k];
    assert CarriesTicket(s.open[k], s.adapter.account.received, o);
  }

  /** The order goes out on the position's own ticket. Filled, the pass walks on without that ticket;
      refused, it stops here. */
  lemma CloseWalks(c: Config, s: Live, o: map<int, int>, b: Bar, now: int, p: Pass, k: nat)
    requires k < |s.open| && Walking(s, o, b, now, p, k) && CheckExit(s.open[k], b, now).Some? && !p.raised
    requires Ticketed(s.open, s.adapter, o)
    ensures var q := CloseOne(c, p, k, b, now);
      if q.raised then Stopped(s, o, b, now, q, k) else Walking(s, o, b, now, q, k + 1)
  {
    hide ProtocolKept, NothingClosed, HasGhost, Owners, CheckExit, CloseEffects, ClosePnl, Submit, Ticketed, Reaches,
      OpenAfter, RefusedAt;
    var pos, w := p.book[k], Owners(o, p.effects);
    var order := CloseOrder(c, pos, b, now, p.nextId);
    var (y, answer) := Submit(p.adapter, order);
    var e := Sent(order, pos.tradeId, answer);
    RefusalForeseen(s, o, b, now, p, k);
    SendClose(p.adapter, w, order, pos.tradeId);
    OneMoreEffect(o, p.effects, e);
    OneMoreRow(p.effects, e);
    NextExit(s.open, b, now, k);
    HeadCarries(p.kept, s.open[k..], p.adapter, w);
    if answer.Ok? {
      CloseFilled(c, s, o, b, now, p, k, y, answer.value, e);
    } else {
      CloseRefused(c, s, o, b, now, p, k, y, e);
    }
  }

  lemma CloseFilled(c: Config, s: Live, o: map<int, int>, b: Bar, now: int, p: Pass, k: nat, y: Adapter, fill: Fill,
    e: Effect)
    requires k < |s.open| && Walking(s, o, b, now, p, k) && Ticketed(s.open, s.adapter, o)
    requires CheckExit(s.open[k], b, now).Some?
    requires e.Sent? && e.order.closes == s.open[k].ticket && e.answer == Ok(fill) && e.forTrade == s.open[k].tradeId
    requires !RefusedAt(s.open, s.adapter, b, now, k) && !IsGhost(s.open[k], Owners(o, p.effects))
    requires y.Broker? && AccountOf(y, Owners(o, p.effects + [e])) && y.enabled == p.adapter.enabled
    requires y.account.replies == p.adapter.account.replies
    requires y.account.received == p.adapter.account.received + 1 && s.adapter.enabled
    ensures Walking(s, o, b, now, p.(adapter := y, nextId := p.nextId + 1,
      equity := p.equity + ClosePnl(p.book[k], fill),
        effects := p.effects + [e] + CloseEffects(c, p.book[k], now, fill)), k + 1)
  {
    hide ProtocolKept, NothingClosed, HasGhost, Owners, CheckExit, CloseEffects, ClosePnl, Ticketed, Reaches,
      OpenAfter, RefusedAt, AccountOf;
    var pos, w, rest := s.open[k], Owners(o, p.effects), s.open[k + 1..];
    assert p.book[k] == pos;
    assert p.kept + s.open[k..] == p.kept + [pos] + rest;
    OneTicketGone(s, o, w, b, now, k, s.adapter);
    var t := pos.ticket.value;
    OneMoreEffect(o, p.effects, e);
    OneMoreRow(p.effects, e);
    HeadCarries(p.kept, s.open[k..], p.adapter, w);
    Removed(p.kept, pos, rest, p.adapter, w, y, t);
    RemovedGhosts(p.kept, pos, rest, p.adapter, w, t);
    CloseStatements(c, o, p.effects + [e], pos, now, fill);
    CloseRowAmong(c, pos, now, fill, p.effects, e);
    NextExit(s.open, b, now, k);
    ReachesNext(s, b, now, k);
  }

  lemma CloseRefused(c: Config, s: Live, o: map<int, int>, b: Bar, now: int, p: Pass, k: nat, y: Adapter, e: Effect)
    requires k < |s.open| && Walking(s, o, b, now, p, k) && Ticketed(s.open, s.adapter, o)
    requires e.Sent? && e.order.closes == s.open[k].ticket && e.answer.Err? && e.forTrade == s.open[k].tradeId
    requires RefusedAt(s.open, s.adapter, b, now, k) && CheckExit(s.open[k], b, now).Some?
    requires AccountOf(y, Owners(o, p.effects)) && p.adapter.account.received <= y.account.received
    ensures Stopped(s, o, b, now, p.(adapter := y, nextId := p.nextId + 1, effects := p.effects + [e], raised := true),
      k)
  {
    hide ProtocolKept, NothingClosed, Owners, CheckExit, Reaches, RefusedAt;
    var w := Owners(o, p.effects);
    OneMoreEffect(o, p.effects, e);
    OneMoreRow(p.effects, e);
    RefusalForeseen(s, o, b, now, p, k);
    BookTicketed(s, o, b, now, p, k, y);
    BookGhosts(s, o, b, now, p, k);
    if ProtocolKept(o, p.effects + [e]) { LastNames(o, p.effects, e); }
    assert CarriesTicket(s.open[k], s.adapter.account.received, o);
    HeadCarries(p.kept, s.open[k..], p.adapter, w);
    assert s.open[k..][0] == s.open[k];
  }

  lemma LastNames(o: map<int, int>, es: seq<Effect>, e: Effect)
    requires ProtocolKept(o, es + [e])
    ensures NamesItsOwn(Owners(o, es), e)
  {
    LastOfKept(o, es + [e]);
    assert (es + [e])[..|es|] == es;
  }

  /** The list being walked stays one of the account's tickets, open or not. */
  lemma BookTicketed(s: Live, o: map<int, int>, b: Bar, now: int, p: Pass, k: nat, y: Adapter)
    requires k <= |s.open| && Walking(s, o, b, now, p, k) && Ticketed(s.open, s.adapter, o)
    requires AccountOf(y, Owners(o, p.effects)) && p.adapter.account.received <= y.account.received
    ensures Ticketed(p.book, y, Owners(o, p.effects))
  {
    hide ProtocolKept, NothingClosed, Owners, CheckExit, Reaches, RefusedAt, HasGhost;
    var w, live := Owners(o, p.effects), p.kept + s.open[k..];
    Relabelled(s.open, p.book, s.adapter, o);
    forall i | 0 <= i < |p.book| ensures CarriesTicket(p.book[i], y.account.received, w) {
      assert CarriesTicket(s.open[i], s.adapter.account.received, o);
    }
    forall t | t in w ensures exists i :: 0 <= i < |p.book| && p.book[i].ticket == Some(t) {
      assert t in o;
      var i :| 0 <= i < |s.open| && s.open[i].ticket == Some(t);
      assert p.book[i].ticket == Some(t);
    }
  }

  lemma SomeExit(open: seq<LivePosition>, b: Bar, now: int, j: nat, k: nat)
    requires j < k <= |open| && CheckExit(open[j], b, now).Some?
    ensures Exits(open[..k], b, now) > 0
  {
    NextExit(open, b, now, j);
    ExitsGrow(open, b, now, j + 1, k);
  }

  lemma BookGhosts(s: Live, o: map<int, int>, b: Bar, now: int, p: Pass, k: nat)
    requires k <= |s.open| && Walking(s, o, b, now, p, k)
    ensures HasGhost(p.book, Owners(o, p.effects)) <==> HasGhost(s.open, o) || Exits(s.open[..k], b, now) > 0
  {
    hide ProtocolKept, NothingClosed, Owners, CheckExit, Reaches, RefusedAt, Ticketed, Exits;
    var w := Owners(o, p.effects);
    RelabelledGhosts(p.book, s.open, w);
    if j :| 0 <= j < |s.open| && IsGhost(s.open[j], w) {
      if j < k && CheckExit(s.open[j], b, now).Some? {
        SomeExit(s.open, b, now, j, k);
      } else {
        assert IsGhost(s.open[j], o);
      }
    }
    if j :| 0 <= j < |s.open| && IsGhost(s.open[j], o) { assert IsGhost(s.open[j], w); }
    if Exits(s.open[..k], b, now) > 0 {
      var j := ExitNumber(s.open, b, now, 0, k);
      assert IsGhost(s.open[j], w);
    }
  }

  lemma Begins(s: Live, o: map<int, int>, b: Bar, now: int)
    requires Ticketed(s.open, s.adapter, o)
    ensures Walking(s, o, b, now, Begin(s), 0)
  {
    assert [] + s.open[0..] == s.open;
  }

  /** How many positions the first k rounds of the walk get through. */
  function Handled(c: Config, s: Live, b: Bar, now: int, k: nat): (m: nat)
    requires k <= |s.open|
    ensures m <= k && (ManageTo(c, Begin(s), b, now, k).raised ==> m < k)
  {
    if k == 0 then 0
    else if ManageTo(c, Begin(s), b, now, k).raised then Handled(c, s, b, now, k - 1)
    else k
  }

  lemma {:induction false} ManageWalks(c: Config, s: Live, o: map<int, int>, b: Bar, now: int, k: nat)
    requires Ticketed(s.open, s.adapter, o) && k <= |s.open|
    ensures var p := ManageTo(c, Begin(s), b, now, k);
      if p.raised then Stopped(s, o, b, now, p, Handled(c, s, b, now, k)) else Walking(s, o, b, now, p, k)
  {
    hide CloseOne, Survive, CheckExit, Ticketed, Stopped, ProtocolKept, Owners, NothingClosed, HasGhost, AccountOf,
      OpenAfter, Reaches, Exits;
    if k == 0 {
      Begins(s, o, b, now);
    } else {
      ManageWalks(c, s, o, b, now, k - 1);
      var p := ManageTo(c, Begin(s), b, now, k - 1);
      if !p.raised {
        if CheckExit(p.book[k - 1], b, now).None? {
          SurviveWalks(s, o, b, now, p, k - 1);
          SurviveRaisesNothing(p, k - 1, b);
        } else {
          CloseWalks(c, s, o, b, now, p, k - 1);
        }
      }
    }
  }

  lemma SurviveRaisesNothing(p: Pass, k: nat, b: Bar)
    requires k < |p.book|
    ensures Survive(p, k, b).raised == p.raised
  {
  }

  // ---------------------------------------------------------------- a whole poll

  /** A close was filled and then a later close of the same pass refused: the loop keeps the old list. */
  predicate LeavesStaleList(c: Config, s: Live, b: Bar, now: int) {
    Manage(c, s, b, now).raised && !NothingClosed(Manage(c, s, b, now).effects)
  }

  lemma OneStop(s: Live, b: Bar, now: int, j: nat, k: nat)
    requires StopsAt(s.open, s.adapter, b, now, j) && StopsAt(s.open, s.adapter, b, now, k)
    ensures j == k
  {
    hide RefusedAt;
  }

  lemma NoStop(s: Live, b: Bar, now: int)
    requires Reaches(s.open, s.adapter, b, now, |s.open|)
    ensures forall k :: !StopsAt(s.open, s.adapter, b, now, k)
  {
    hide RefusedAt;
  }

  /** Where a management pass ends, from the list, the bar and the broker's answers alone. */
  lemma ManageEnds(c: Config, s: Live, o: map<int, int>, b: Bar, now: int)
    requires Ticketed(s.open, s.adapter, o)
    ensures var p := Manage(c, s, b, now);
      && Ticketed(p.book, p.adapter, Owners(o, p.effects))
      && (p.raised <==> StopsAt(s.open, s.adapter, b, now, Handled(c, s, b, now, |s.open|)))
      && (!p.raised ==> Handled(c, s, b, now, |s.open|) == |s.open| && Reaches(s.open, s.adapter, b, now, |s.open|))
      && (LeavesStaleList(c, s, b, now) <==> WillGoStale(s, b, now))
      && (HasGhost(p.book, Owners(o, p.effects)) <==> HasGhost(s.open, o) || WillGoStale(s, b, now))
      && (ProtocolKept(o, p.effects) <==> !WillSendDead(s, b, now))
  {
    hide ManageTo, ProtocolKept, Owners, NothingClosed, HasGhost, AccountOf, RefusedAt, Reaches, OpenAfter, Ticketed;
    var m, k := ManageTo(c, Begin(s), b, now, |s.open|), Handled(c, s, b, now, |s.open|);
    ManageWalks(c, s, o, b, now, |s.open|);
    if m.raised {
      forall j | StopsAt(s.open, s.adapter, b, now, j) ensures j == k { OneStop(s, b, now, j, k); }
      DeadStop(s, o, k);
    } else {
      assert m.kept + s.open[|s.open|..] == m.kept;
      HandledAll(c, s, b, now);
      NoStop(s, b, now);
    }
  }

  lemma HandledAll(c: Config, s: Live, b: Bar, now: int)
    requires !ManageTo(c, Begin(s), b, now, |s.open|).raised
    ensures Handled(c, s, b, now, |s.open|) == |s.open|
  {
  }

  lemma DeadStop(s: Live, o: map<int, int>, k: nat)
    requires k < |s.open| && Ticketed(s.open, s.adapter, o)
    ensures s.adapter.Broker? && s.open[k].ticket.Some?
    ensures IsGhost(s.open[k], o) <==> s.open[k].ticket.value !in s.adapter.account.open
  {
    assert CarriesTicket(s.open[k], s.adapter.account.received, o);
  }

  /** Ticketed positions after these effects, the ghosts and the protocol as they were. */
  ghost predicate Carried(o: map<int, int>, m: Pass, p: Pass) {
    && Ticketed(p.book, p.adapter, Owners(o, p.effects))
    && (HasGhost(p.book, Owners(o, p.effects)) <==> HasGhost(m.book, Owners(o, m.effects)))
    && (ProtocolKept(o, p.effects) <==> ProtocolKept(o, m.effects))
  }

  lemma OneMoreHarmless(o: map<int, int>, es: seq<Effect>, e: Effect)
    requires e.Sent? ==> e.order.closes.None?
    ensures ProtocolKept(o, es + [e]) <==> ProtocolKept(o, es)
    ensures Owners(o, es + [e]) == OwnersAfter(Owners(o, es), e)
  {
    OneMoreEffect(o, es, e);
    if ProtocolKept(o, es + [e]) {
      LastOfKept(o, es + [e]);
      assert (es + [e])[..|es|] == es;
    }
  }

  lemma EnterCarries(c: Config, o: map<int, int>, p: Pass, v: Rules.Verdict, r: Backtest.Reading, b: Bar, now: int,
    signalId: int)
    requires MayEnter(c, p.equity, |p.book|, v) && Ticketed(p.book, p.adapter, Owners(o, p.effects))
    ensures Carried(o, p, Enter(c, p, v, r.fv, b, now, signalId))
  {
    hide GateDecision, RegimeOf, BlackoutOf, ProtocolKept, Owners, Ticketed, AccountOf, HasGhost;
    var size, w := GateDecision(c, p.equity, |p.book|, v).sizeUnits, Owners(o, p.effects);
    var order := OpenOrder(c, v, r.fv, b, now, size, p.nextId);
    var (y, answer) := Submit(p.adapter, order);
    var e := Sent(order, p.nextId + 1, answer);
    HasAccount(p.book, p.adapter, w);
    SendOpen(p.adapter, w, order, p.nextId + 1);
    OneMoreHarmless(o, p.effects, e);
    match answer
    case Err(_) =>
      NewReceipt(p.book, p.adapter, w, y);
    case Ok(fill) =>
      var pos := NewPosition(c, v, fill, signalId, p.nextId + 1, now);
      var row := OpenRow(c, pos, now, fill);
      OneMoreHarmless(o, p.effects + [e], Saved(pos));
      OneMoreHarmless(o, p.effects + [e] + [Saved(pos)], Recorded(row));
      assert p.effects + [e] + [Saved(pos)] + [Recorded(row)] == p.effects + [e, Saved(pos), Recorded(row)];
      Added(p.book, pos, p.adapter, w, y, fill.ticket.value);
  }

  lemma HasAccount(open: seq<LivePosition>, x: Adapter, o: map<int, int>)
    requires Ticketed(open, x, o)
    ensures x.Broker? && AccountOf(x, o)
  {
  }

  lemma ReactCarries(c: Config, o: map<int, int>, m: Pass, r: Backtest.Reading, b: Bar, now: int)
    requires Ticketed(m.book, m.adapter, Owners(o, m.effects))
    ensures Carried(o, m, React(c, m, r, b, now))
  {
    hide ProtocolKept, Owners, Ticketed, HasGhost, MayEnter, Enter, SignalOf;
    var v := r.verdict;
    if !m.raised && (v.Taken? || v.TurnedDown?) {
      var row := SignalOf(m.nextId, now, v);
      var q := Publish(m, row);
      OneMoreHarmless(o, m.effects, Published(row));
      if MayEnter(c, q.equity, |q.book|, v) {
        EnterCarries(c, o, q, v, r, b, now, m.nextId);
      }
    }
  }

  /** One poll, completed or cut short anywhere, from any list that carries the account's tickets. It keeps
      carrying them; a listed ticket stops being open exactly when the poll goes stale; and every close order
      names a ticket open at the broker and opened for that same trade, exactly when none goes out on a
      ticket that is no longer open. What will happen is read off the list, the bar and the broker's answers. */
  lemma PollKeepsTickets(c: Config, s: Live, o: map<int, int>, b: Bar, now: int, r: Backtest.Reading)
    requires Ticketed(s.open, s.adapter, o)
    ensures var p := PassOf(c, s, b, now, r);
      && Ticketed(p.book, p.adapter, Owners(o, p.effects))
      && (HasGhost(p.book, Owners(o, p.effects)) <==> HasGhost(s.open, o) || WillGoStale(s, b, now))
      && (ProtocolKept(o, p.effects) <==> !WillSendDead(s, b, now))
  {
    hide Manage, React, ProtocolKept, Owners, Ticketed, HasGhost, WillGoStale, WillSendDead, StopsAt;
    ManageEnds(c, s, o, b, now);
    ReactCarries(c, o, Manage(c, s, b, now), r, b, now);
  }

  // ---------------------------------------------------------------- when a list goes stale

  /** The broker's next answer is a price, and one of the answers to the other exits is a refusal. */
  predicate FillsThenRefuses(x: Adapter, exits: nat) {
    && x.Broker? && x.enabled && !RefusesNext(x.account, 0)
    && exists n: nat :: 0 < n < exits && RefusesNext(x.account, n)
  }

  /** With every listed ticket open, staleness is a matter of the broker's answers and the number of exits. */
  lemma StaleExactly(s: Live, o: map<int, int>, b: Bar, now: int)
    requires InStep(s.open, s.adapter, o)
    ensures WillGoStale(s, b, now) <==> FillsThenRefuses(s.adapter, Exits(s.open, b, now))
  {
    hide RefusedAt, FillsThenRefuses, Ticketed, Exits, CheckExit, RefusesNext;
    var x, exits := s.adapter, Exits(s.open, b, now);
    assert s.open[..|s.open|] == s.open;
    if k :| StopsAt(s.open, x, b, now, k) && Exits(s.open[..k], b, now) > 0 {
      StaleRefuses(s, o, b, now, k);
    }
    if FillsThenRefuses(x, exits) {
      var n := FirstRefusal(x, exits);
      var k := ExitNumber(s.open, b, now, n, |s.open|);
      RefusalStops(s, o, b, now, k, n);
    }
  }

  /** So with a broker in step, a stale list is left exactly when the next answer is a price and one of those to the
      other exits a refusal. */
  lemma StaleListIff(c: Config, s: Live, o: map<int, int>, b: Bar, now: int)
    requires InStep(s.open, s.adapter, o)
    ensures LeavesStaleList(c, s, b, now) <==> FillsThenRefuses(s.adapter, Exits(s.open, b, now))
  {
    hide Manage, ManageTo, Ticketed, HasGhost, ProtocolKept, WillSendDead, Owners, FillsThenRefuses, WillGoStale,
      LeavesStaleList;
    ManageEnds(c, s, o, b, now);
    StaleExactly(s, o, b, now);
  }

  lemma StaleRefuses(s: Live, o: map<int, int>, b: Bar, now: int, k: nat)
    requires InStep(s.open, s.adapter, o)
    requires StopsAt(s.open, s.adapter, b, now, k) && Exits(s.open[..k], b, now) > 0
    ensures FillsThenRefuses(s.adapter, Exits(s.open, b, now))
  {
    hide Ticketed, Exits, CheckExit, RefusesNext;
    TicketsOpen(s, o);
    assert s.open[..|s.open|] == s.open;
    var first := ExitNumber(s.open, b, now, 0, k);
    assert !RefusedAt(s.open, s.adapter, b, now, first);
    NextExit(s.open, b, now, k);
    ExitsGrow(s.open, b, now, k + 1, |s.open|);
    assert RefusesNext(s.adapter.account, Exits(s.open[..k], b, now));
  }

  lemma RefusalStops(s: Live, o: map<int, int>, b: Bar, now: int, k: nat, n: nat)
    requires InStep(s.open, s.adapter, o) && k < |s.open| && s.adapter.Broker?
    requires CheckExit(s.open[k], b, now).Some? && Exits(s.open[..k], b, now) == n && s.adapter.enabled
    requires RefusesNext(s.adapter.account, n) && forall i: nat :: i < n ==> !RefusesNext(s.adapter.account, i)
    ensures StopsAt(s.open, s.adapter, b, now, k)
  {
    hide Ticketed, Exits, CheckExit, RefusesNext;
    TicketsOpen(s, o);
    forall i | 0 <= i < k ensures !RefusedAt(s.open, s.adapter, b, now, i) {
      if CheckExit(s.open[i], b, now).Some? {
        NextExit(s.open, b, now, i);
        ExitsGrow(s.open, b, now, i + 1, k);
      }
    }
  }

  lemma TicketsOpen(s: Live, o: map<int, int>)
    requires InStep(s.open, s.adapter, o)
    ensures s.adapter.Broker?
    ensures forall i {:trigger s.open[i]} :: 0 <= i < |s.open| ==>
      s.open[i].ticket.Some? && s.open[i].ticket.value in s.adapter.account.open
  {
    forall i {:trigger s.open[i]} | 0 <= i < |s.open|
      ensures s.open[i].ticket.Some? && s.open[i].ticket.value in s.adapter.account.open
    {
      assert CarriesTicket(s.open[i], s.adapter.account.received, o);
      assert !IsGhost(s.open[i], o);
    }
  }

  /** The first refusal after a price. */
  lemma FirstRefusal(x: Adapter, exits: nat) returns (n: nat)
    requires FillsThenRefuses(x, exits)
    ensures x.Broker? && x.enabled && 0 < n < exits && RefusesNext(x.account, n)
    ensures forall i: nat :: i < n ==> !RefusesNext(x.account, i)
  {
    hide RefusesNext;
    var last: nat :| 0 < last < exits && RefusesNext(x.account, last);
    n := 1;
    while !RefusesNext(x.account, n)
      invariant 0 < n <= last
      invariant forall i: nat :: i < n ==> !RefusesNext(x.account, i)
      decreases last - n
    {
      n := n + 1;
    }
  }

  /** Closes filled and refused, whatever the adapter and the tickets. */
  lemma {:induction false} ClosesNeedExits(c: Config, s: Live, b: Bar, now: int, k: nat)
    requires k <= |s.open|
    ensures var p := ManageTo(c, Begin(s), b, now, k);
      && (forall j {:trigger p.book[j]} :: k <= j < |s.open| ==> p.book[j] == s.open[j])
      && (!NothingClosed(p.effects) ==> Exits(s.open[..k], b, now) >= if p.raised then 2 else 1)
  {
    hide CheckExit, CloseEffects, CloseOrder, ClosePnl, Submit, NothingClosed;
    if k == 0 {
      assert NothingClosed([]) by { NothingYet(); }
    } else {
      ClosesNeedExits(c, s, b, now, k - 1);
      NextExit(s.open, b, now, k - 1);
      var p := ManageTo(c, Begin(s), b, now, k - 1);
      if !p.raised {
        if CheckExit(p.book[k - 1], b, now).None? {
          OneMoreRow(p.effects, Saved(WithExcursion(p.book[k - 1], b)));
        } else {
          var order := CloseOrder(c, p.book[k - 1], b, now, p.nextId);
          OneMoreRow(p.effects, Sent(order, p.book[k - 1].tradeId, Submit(p.adapter, order).1));
        }
      }
    }
  }

  lemma NothingYet()
    ensures NothingClosed([])
  {
  }

  /** With at most one exit on the bar no list goes stale, whatever adapter and tickets. */
  lemma OneExitIsNeverStale(c: Config, s: Live, b: Bar, now: int)
    requires Exits(s.open, b, now) <= 1
    ensures !LeavesStaleList(c, s, b, now)
  {
    hide ManageTo, NothingClosed, Exits;
    assert s.open[..|s.open|] == s.open;
    ClosesNeedExits(c, s, b, now, |s.open|);
  }

  lemma {:induction false} ExitsAtMost(open: seq<LivePosition>, b: Bar, now: int)
    ensures Exits(open, b, now) <= |open|
  {
    if open != [] { ExitsAtMost(open[..|open| - 1], b, now); }
  }

  lemma {:induction false} KeptAtMost(c: Config, s: Live, b: Bar, now: int, k: nat)
    requires k <= |s.open|
    ensures |ManageTo(c, Begin(s), b, now, k).kept| <= k
  {
    hide CheckExit, CloseEffects, CloseOrder, ClosePnl, Submit;
    if k > 0 { KeptAtMost(c, s, b, now, k - 1); }
  }

  /** A poll never brings the list above the strategy's concurrency limit. */
  lemma PollWithinConcurrency(c: Config, s: Live, b: Bar, now: int, r: Backtest.Reading, n: nat)
    requires |s.open| <= n && c.maxConcurrent <= n
    ensures |PassOf(c, s, b, now, r).book| <= n
  {
    hide ManageTo, GateDecision, SignalOf, OpenOrder, Submit;
    KeptAtMost(c, s, b, now, |s.open|);
  }

  /** A strategy that holds one position at a time never leaves a stale list, in any run, with any adapter. */
  lemma {:induction false} OneAtATimeIsNeverStale(c: Config, s: Live, polls: seq<PollInput>, b: Bar, now: int)
    requires c.maxConcurrent <= 1 && |s.open| <= 1
    ensures |RunPolls(c, s, polls).open| <= 1 && !LeavesStaleList(c, RunPolls(c, s, polls), b, now)
  {
    hide PassOf, LeavesStaleList;
    if polls != [] {
      var init, t := polls[..|polls| - 1], polls[|polls| - 1];
      OneAtATimeIsNeverStale(c, s, init, b, now);
      PollWithinConcurrency(c, RunPolls(c, s, init), t.bar, t.now, t.reading, 1);
    }
    ExitsAtMost(RunPolls(c, s, polls).open, b, now);
    OneExitIsNeverStale(c, RunPolls(c, s, polls), b, now);
  }

  lemma SimulatedFills(c: Config, x: Adapter, p: LivePosition, b: Bar, now: int, id: int)
    requires x.Simulated?
    ensures Submit(x, CloseOrder(c, p, b, now, id)).1.Ok?
  {
  }

  lemma {:induction false} SimulatedNeverRaises(c: Config, s: Live, b: Bar, now: int, k: nat)
    requires s.adapter.Simulated? && k <= |s.open|
    ensures var p := ManageTo(c, Begin(s), b, now, k); !p.raised && p.adapter == s.adapter
  {
    hide CheckExit, CloseEffects, ClosePnl, SlippagePips;
    if k > 0 { SimulatedNeverRaises(c, s, b, now, k - 1); }
  }

  /** Simulated fills are never refused, so no list goes stale. */
  lemma SimulatedIsNeverStale(c: Config, s: Live, b: Bar, now: int)
    requires s.adapter.Simulated?
    ensures !Manage(c, s, b, now).raised && !LeavesStaleList(c, s, b, now)
  {
    hide ManageTo;
    SimulatedNeverRaises(c, s, b, now, |s.open|);
  }

  // ---------------------------------------------------------------- a stale list, concretely

  /** A long position of an example: entry 1.0, stop 0.9, target 2.0. */
  function ExampleLong(c: Config, now: int, id: int, ticket: int): LivePosition {
    LivePosition(id, id + 10, c.strategyName, c.symbol, Long, 1.0, 0.9, 2.0, 100.0, now, None, 0.0, 0.0, Some(ticket))
  }

  /** Two such positions, stored and open in the ledger, at a broker that fills the next order and no later one. */
  function TwoLongs(c: Config, now: int): Live {
    var p, q := ExampleLong(c, now, 10, 0), ExampleLong(c, now, 11, 1);
    var order := Order(9, c.symbol, Long, 100.0, now, None, None, None, false, None);
    var fill := Fill(9, Long, 1.0, 100.0, now, 0.0, 0.0, None);
    Live(0.0, [p, q], Disk(map[10 := p, 11 := q], [OpenRow(c, p, now, fill), OpenRow(c, q, now, fill)], map[]),
      Broker(Account(2, map[0 := order, 1 := order], n => if n == 2 then Some(0.8) else None), true), 30)
  }

  /** A bar on which both are stopped out. */
  function StopBar(now: int): Bar {
    Bar(now, 1.0, 1.0, 0.5, 0.8, 0.0, 0.8, 0.8)
  }

  /** The two rounds of the walk over them: the first close is filled, the second refused. */
  lemma FirstRound(c: Config, now: int) returns (m: Pass)
    ensures var s, b := TwoLongs(c, now), StopBar(now);
      && m == ManageTo(c, Begin(s), b, now, 1) && !m.raised && m.book == s.open
      && m.adapter.Broker? && m.adapter.account.received == 3 && m.adapter.account.replies == s.adapter.account.replies
      && |m.effects| == 4 && IsCloseRow(m.effects[1]) && ApplyAll(s.disk, m.effects).positions == map[11 := s.open[1]]
  {
    hide ClosePnl, RMultiple, Resolve;
    var s, b := TwoLongs(c, now), StopBar(now);
    m := ManageTo(c, Begin(s), b, now, 1);
    assert ManageTo(c, Begin(s), b, now, 0) == Begin(s);
    assert m == CloseOne(c, Begin(s), 0, b, now);
    var order := CloseOrder(c, s.open[0], b, now, 30);
    var answer := Submit(s.adapter, order).1;
    CloseEffectsApplied(c, s.disk, [], s.open[0], now, answer.value, order, answer);
    assert [] + [Sent(order, 10, answer)] + CloseEffects(c, s.open[0], now, answer.value) == m.effects;
  }

  lemma TwoRounds(c: Config, now: int) returns (m: Pass, n: Pass)
    ensures var s, b := TwoLongs(c, now), StopBar(now);
      && n == ManageTo(c, Begin(s), b, now, 2) && n.raised && n.book == s.open && n.adapter.Broker?
      && |m.effects| == 4 && IsCloseRow(m.effects[1]) && ApplyAll(s.disk, m.effects).positions == map[11 := s.open[1]]
      && |n.effects| == 5 && n.effects[..4] == m.effects && n.effects[4].Sent?
  {
    hide ClosePnl, CloseEffects, ApplyAll;
    var s, b := TwoLongs(c, now), StopBar(now);
    m := FirstRound(c, now);
    n := ManageTo(c, Begin(s), b, now, 2);
    assert n == CloseOne(c, m, 1, b, now);
  }

  /** It does happen: both come up for exit, the first close is filled and the second refused. The first
      position is gone from the store and still listed. */
  lemma StaleListExample(c: Config, now: int, r: Backtest.Reading)
    requires r.verdict.Quiet?
    ensures var s, b := TwoLongs(c, now), StopBar(now);
      InStep(s.open, s.adapter, map[0 := 10, 1 := 11]) && LeavesStaleList(c, s, b, now)
    ensures var s := TwoLongs(c, now); var t := After(s, PassOf(c, s, StopBar(now), now, r));
      t.open == s.open && t.disk.positions == map[11 := s.open[1]] && t.adapter.Broker?
  {
    hide ManageTo;
    var s, b := TwoLongs(c, now), StopBar(now);
    assert s.open[0].ticket == Some(0) && s.open[1].ticket == Some(1);
    var m, n := TwoRounds(c, now);
    assert IsCloseRow(n.effects[1]);
    OneMore(s.disk, [], m.effects, n.effects[4]);
    assert n.effects == m.effects + [n.effects[4]];
    assert PassOf(c, s, b, now, r) == n;
  }

  // ---------------------------------------------------------------- what a dead ticket does

  /** The first refused close stops the pass there: the positions before it are as a completed walk leaves
      them, those after it untouched, and the poll does nothing else. On a dead ticket that happens at every
      poll that gets to the position while it is due for exit. */
  lemma DeadTicketBlocksPolls(c: Config, s: Live, o: map<int, int>, b: Bar, now: int, r: Backtest.Reading, k: nat)
    requires Ticketed(s.open, s.adapter, o) && k < |s.open| && Reaches(s.open, s.adapter, b, now, k)
    requires IsGhost(s.open[k], o) && CheckExit(s.open[k], b, now).Some?
    ensures var before, p := ManageTo(c, Begin(s), b, now, k), PassOf(c, s, b, now, r);
      && !before.raised && p.raised
      && |p.effects| == |before.effects| + 1 && p.effects[..|before.effects|] == before.effects
      && p.effects[|before.effects|].Sent? && p.effects[|before.effects|].order.closes == s.open[k].ticket
      && p.book == before.book && p.equity == before.equity
      && After(s, p).disk == ApplyAll(s.disk, before.effects)
    ensures var book := PassOf(c, s, b, now, r).book;
      && |book| == |s.open|
      && forall j {:trigger book[j]} :: 0 <= j < |book| ==>
           book[j] == if j < k && CheckExit(s.open[j], b, now).None? then WithExcursion(s.open[j], b) else s.open[j]
  {
    hide React, CheckExit, ClosePnl, Ticketed, Owners, ProtocolKept, Reaches, RefusedAt, HasGhost, NothingClosed,
      Exits, WithExcursion;
    DeadIsRefused(s, o, b, now, k);
    UnraisedTo(c, s, o, b, now, k);
    BookAfter(c, s, b, now, k);
    var p := ManageTo(c, Begin(s), b, now, k);
    StopsHere(c, s, o, b, now, k);
    var q := ManageTo(c, Begin(s), b, now, k + 1);
    RaisedStays(c, Begin(s), b, now, k + 1, |s.open|);
    OneMore(s.disk, [], p.effects, q.effects[|p.effects|]);
    RaisedReacts(c, Manage(c, s, b, now), r, b, now);
  }

  lemma DeadIsRefused(s: Live, o: map<int, int>, b: Bar, now: int, k: nat)
    requires Ticketed(s.open, s.adapter, o) && k < |s.open| && IsGhost(s.open[k], o)
    requires CheckExit(s.open[k], b, now).Some?
    ensures RefusedAt(s.open, s.adapter, b, now, k)
  {
  }

  lemma UnraisedTo(c: Config, s: Live, o: map<int, int>, b: Bar, now: int, k: nat)
    requires Ticketed(s.open, s.adapter, o) && k <= |s.open| && Reaches(s.open, s.adapter, b, now, k)
    ensures !ManageTo(c, Begin(s), b, now, k).raised
  {
    hide ManageTo, Ticketed, ProtocolKept, Owners, HasGhost, RefusedAt, NothingClosed;
    ManageWalks(c, s, o, b, now, k);
  }

  lemma StopsHere(c: Config, s: Live, o: map<int, int>, b: Bar, now: int, k: nat)
    requires Ticketed(s.open, s.adapter, o) && k < |s.open| && !ManageTo(c, Begin(s), b, now, k).raised
    requires CheckExit(s.open[k], b, now).Some? && RefusedAt(s.open, s.adapter, b, now, k)
    ensures var p, q := ManageTo(c, Begin(s), b, now, k), ManageTo(c, Begin(s), b, now, k + 1);
      && q.raised && q.book == p.book && q.equity == p.equity
      && |q.effects| == |p.effects| + 1 && q.effects[..|p.effects|] == p.effects
      && q.effects[|p.effects|].Sent? && q.effects[|p.effects|].order.closes == s.open[k].ticket
  {
    hide Ticketed, ProtocolKept, Owners, HasGhost, RefusedAt, NothingClosed, CheckExit, Reaches, OpenAfter, ClosePnl,
      CloseEffects, Exits;
    ManageWalks(c, s, o, b, now, k);
    var p := ManageTo(c, Begin(s), b, now, k);
    assert p.book[k] == s.open[k];
    CloseWalks(c, s, o, b, now, p, k);
    NotReached(s, b, now, k);
  }

  lemma NotReached(s: Live, b: Bar, now: int, k: nat)
    requires k < |s.open| && RefusedAt(s.open, s.adapter, b, now, k)
    ensures !Reaches(s.open, s.adapter, b, now, k + 1)
  {
  }

  lemma {:induction false} BookAfter(c: Config, s: Live, b: Bar, now: int, k: nat)
    requires k <= |s.open| && !ManageTo(c, Begin(s), b, now, k).raised
    ensures var book := ManageTo(c, Begin(s), b, now, k).book;
      && |book| == |s.open|
      && forall j {:trigger book[j]} :: 0 <= j < |book| ==>
           book[j] == if j < k && CheckExit(s.open[j], b, now).None? then WithExcursion(s.open[j], b) else s.open[j]
  {
    hide CheckExit, WithExcursion, CloseEffects, CloseOrder, ClosePnl, Submit;
    if k > 0 { BookAfter(c, s, b, now, k - 1); }
  }

  lemma RaisedReacts(c: Config, p: Pass, r: Backtest.Reading, b: Bar, now: int)
    requires p.raised
    ensures React(c, p, r, b, now) == p
  {
  }
}

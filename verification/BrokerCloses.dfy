/** With a broker no trade is closed twice, in any run. */
module BrokerCloses {
  import opened Prelude
  import opened Bars
  import opened Execution
  import opened Records
  import opened Stores
  import opened LiveLoop
  import opened CrashSafety
  import opened Tickets
  import opened TableAgreement
  import opened CrashCuts
  import opened Recovery
  import opened Drift
  import opened CloseRows
  import Backtest
  import Rules

  // ---------------------------------------------------------------- one ticket for each trade

  /** The position carries the one ticket on the card of its trade. */
  predicate Carded(card: map<int, int>, p: LivePosition) {
    p.ticket.Some? && p.ticket.value in card && card[p.ticket.value] == p.tradeId
  }

  ghost predicate AllCarded(card: map<int, int>, open: seq<LivePosition>) {
    forall q :: q in open ==> Carded(card, q)
  }

  /** Each ticket stands for one trade and each trade for one ticket; while a ticket is open at the broker its trade
      has no close row; and no trade has two. */
  ghost predicate CardInv(card: map<int, int>, d: Disk, x: Adapter, n: int) {
    && x.Broker?
    && (forall t :: t in x.account.open ==> t < x.account.received)
    && (forall t :: t in card ==> t < x.account.received && card[t] < n)
    && (forall t, u :: t in card && u in card && card[t] == card[u] ==> t == u)
    && (forall id {:trigger d.positions[id]} :: id in d.positions ==>
      d.positions[id].tradeId == id && Carded(card, d.positions[id]))
    && (forall t {:trigger card[t]} :: t in card && t in x.account.open ==> !HasClose(d.ledger, card[t]))
    && (forall i :: 0 <= i < |d.ledger| ==> d.ledger[i].tradeId < n)
    && (forall id :: CloseCount(d.ledger, id) <= 1)
  }

  ghost predicate HasCards(d: Disk, x: Adapter, n: int) {
    exists card :: CardInv(card, d, x, n)
  }

  ghost predicate CardCuts(d0: Disk, x0: Adapter, es: seq<Effect>, n: int) {
    forall cut :: 0 <= cut <= |es| ==> HasCards(ApplyAll(d0, es[..cut]), AdapterAfter(x0, es[..cut]), n)
  }

  function NextAdapter(x: Adapter, e: Effect): Adapter {
    if e.Sent? then Submit(x, e.order).0 else x
  }

  lemma AdapterGrows(x0: Adapter, es: seq<Effect>, e: Effect)
    ensures AdapterAfter(x0, es + [e]) == NextAdapter(AdapterAfter(x0, es), e)
  {
    assert (es + [e])[..|es|] == es;
  }

  /** One statement. A close row goes to a trade that has none and whose ticket is no longer open. */
  lemma StatementKeepsCards(card: map<int, int>, d: Disk, x: Adapter, e: Effect, n: int)
    requires CardInv(card, d, x, n)
    requires e.Saved? ==> Carded(card, e.position)
    requires e.Recorded? ==> e.entry.tradeId < n
    requires IsCloseRow(e) ==>
      !HasClose(d.ledger, e.entry.tradeId) && forall t {:trigger card[t]} :: t in card && t in x.account.open ==>
        card[t] != e.entry.tradeId
    ensures CardInv(card, Apply(d, e), NextAdapter(x, e), n)
  {
    hide HasClose, CloseCount;
    if e.Recorded? {
      LedgerGrows(d.ledger, e.entry);
      forall id ensures CloseCount(d.ledger + [e.entry], id) <= 1 {
        CountGrows(d.ledger, e.entry, id);
        UnclosedCountsNothing(d.ledger, id);
      }
    }
  }

  lemma ExtendCards(card: map<int, int>, d0: Disk, x0: Adapter, es: seq<Effect>, e: Effect, n: int)
    requires CardCuts(d0, x0, es, n)
    requires CardInv(card, Apply(ApplyAll(d0, es), e), NextAdapter(AdapterAfter(x0, es), e), n)
    ensures CardCuts(d0, x0, es + [e], n)
  {
    hide CardInv, ApplyAll, AdapterAfter, Apply, NextAdapter;
    var all := es + [e];
    OneMore(d0, [], es, e);
    AdapterGrows(x0, es, e);
    forall cut | 0 <= cut <= |all| ensures HasCards(ApplyAll(d0, all[..cut]), AdapterAfter(x0, all[..cut]), n) {
      if cut <= |es| { assert all[..cut] == es[..cut]; } else { assert all[..cut] == all; }
    }
  }

  // ---------------------------------------------------------------- during a poll

  /** A poll under way. */
  ghost predicate CardsDuring(card: map<int, int>, s: Live, p: Pass, n: int) {
    && CardInv(card, ApplyAll(s.disk, p.effects), p.adapter, n)
    && p.adapter == AdapterAfter(s.adapter, p.effects)
    && AllCarded(card, p.book) && AllCarded(card, p.kept)
    && CardCuts(s.disk, s.adapter, p.effects, n)
  }

  /** The effects alone. */
  ghost predicate CardsAt(card: map<int, int>, s: Live, es: seq<Effect>, n: int) {
    && CardInv(card, ApplyAll(s.disk, es), AdapterAfter(s.adapter, es), n)
    && CardCuts(s.disk, s.adapter, es, n)
  }

  lemma OneStatement(card: map<int, int>, s: Live, es: seq<Effect>, e: Effect, n: int)
    requires CardsAt(card, s, es, n)
    requires e.Saved? ==> Carded(card, e.position)
    requires e.Recorded? ==> e.entry.tradeId < n
    requires IsCloseRow(e) ==> !HasClose(ApplyAll(s.disk, es).ledger, e.entry.tradeId)
    requires IsCloseRow(e) ==> forall t {:trigger card[t]} ::
      t in card && t in AdapterAfter(s.adapter, es).account.open ==> card[t] != e.entry.tradeId
    ensures CardsAt(card, s, es + [e], n)
    ensures AdapterAfter(s.adapter, es + [e]) == NextAdapter(AdapterAfter(s.adapter, es), e)
    ensures ApplyAll(s.disk, es + [e]) == Apply(ApplyAll(s.disk, es), e)
  {
    hide CardInv, CardCuts, ApplyAll, AdapterAfter, Apply, NextAdapter, Carded, HasClose;
    OneMore(s.disk, [], es, e);
    AdapterGrows(s.adapter, es, e);
    BrokerOf(card, ApplyAll(s.disk, es), AdapterAfter(s.adapter, es), n);
    StatementKeepsCards(card, ApplyAll(s.disk, es), AdapterAfter(s.adapter, es), e, n);
    ExtendCards(card, s.disk, s.adapter, es, e, n);
  }

  lemma BrokerOf(card: map<int, int>, d: Disk, x: Adapter, n: int)
    requires CardInv(card, d, x, n)
    ensures x.Broker?
  {
  }

  /** A filled close order: its ticket was open, so its trade had no close row, and no other ticket is that trade's. */
  lemma FilledClose(card: map<int, int>, d: Disk, x: Adapter, n: int, order: Order, p: LivePosition)
    requires CardInv(card, d, x, n) && Carded(card, p) && order.closes == p.ticket && Submit(x, order).1.Ok?
    ensures !HasClose(d.ledger, p.tradeId) && p.tradeId < n
    ensures forall t {:trigger card[t]} :: t in card && t in Submit(x, order).0.account.open ==> card[t] != p.tradeId
  {
    hide HasClose, CloseCount;
  }

  lemma CloseKeepsCards(c: Config, card: map<int, int>, s: Live, p: Pass, k: nat, b: Bar, now: int, n: int)
    requires k < |p.book| && CardsDuring(card, s, p, n)
    ensures CardsDuring(card, s, CloseOne(c, p, k, b, now), n)
  {
    hide CardInv, CardCuts, ApplyAll, AdapterAfter, Submit, ClosePnl, RMultiple, HasClose, Carded, Apply;
    var pos := p.book[k];
    var order := CloseOrder(c, pos, b, now, p.nextId);
    var answer := Submit(p.adapter, order).1;
    var e := Sent(order, pos.tradeId, answer);
    OneStatement(card, s, p.effects, e, n);
    if answer.Ok? {
      var f, es := CloseEffects(c, pos, now, answer.value), p.effects + [e];
      FilledClose(card, ApplyAll(s.disk, p.effects), p.adapter, n, order, pos);
      assert Apply(ApplyAll(s.disk, p.effects), e) == ApplyAll(s.disk, p.effects) by {
        SentChangesNothing(ApplyAll(s.disk, p.effects), e);
      }
      OneStatement(card, s, es, f[0], n);
      OneStatement(card, s, es + [f[0]], f[1], n);
      OneStatement(card, s, es + [f[0]] + [f[1]], f[2], n);
      assert es + [f[0]] + [f[1]] + [f[2]] == es + f;
    }
  }

  lemma SentChangesNothing(d: Disk, e: Effect)
    requires e.Sent?
    ensures Apply(d, e) == d
  {
  }

  lemma {:induction false} ManageKeepsCards(c: Config, card: map<int, int>, s: Live, b: Bar, now: int, k: nat)
    requires CardInv(card, s.disk, s.adapter, s.nextId) && AllCarded(card, s.open) && k <= |s.open|
    ensures CardsDuring(card, s, ManageTo(c, Begin(s), b, now, k), s.nextId)
  {
    hide CardInv, CardCuts, ApplyAll, AdapterAfter, CloseOne, CheckExit, Carded, WithExcursion;
    if k == 0 {
      NoStatements(card, s);
    } else {
      ManageKeepsCards(c, card, s, b, now, k - 1);
      var p := ManageTo(c, Begin(s), b, now, k - 1);
      if !p.raised {
        if CheckExit(p.book[k - 1], b, now).None? {
          SurviveKeepsCards(card, s, p, k - 1, b, s.nextId);
        } else {
          CloseKeepsCards(c, card, s, p, k - 1, b, now, s.nextId);
        }
      }
    }
  }

  lemma SurviveKeepsCards(card: map<int, int>, s: Live, p: Pass, k: nat, b: Bar, n: int)
    requires k < |p.book| && CardsDuring(card, s, p, n)
    ensures CardsDuring(card, s, Survive(p, k, b), n)
  {
    hide CardInv, CardCuts, ApplyAll, AdapterAfter, WithExcursion;
    var u := WithExcursion(p.book[k], b);
    SameCard(card, p.book[k], b);
    OneStatement(card, s, p.effects, Saved(u), n);
    assert forall q :: q in p.book[k := u] ==> q in p.book || q == u;
  }

  lemma SameCard(card: map<int, int>, p: LivePosition, b: Bar)
    ensures Carded(card, WithExcursion(p, b)) <==> Carded(card, p)
  {
  }

  lemma NoStatements(card: map<int, int>, s: Live)
    requires CardInv(card, s.disk, s.adapter, s.nextId) && AllCarded(card, s.open)
    ensures CardsDuring(card, s, Begin(s), s.nextId)
  {
    hide CardInv;
    assert forall cut :: 0 <= cut <= 0 ==> Begin(s).effects[..cut] == [];
  }

  lemma HigherCounter(card: map<int, int>, d: Disk, x: Adapter, n: int, m: int)
    requires CardInv(card, d, x, n) && n <= m
    ensures CardInv(card, d, x, m)
  {
    hide HasClose, CloseCount;
  }

  lemma HigherCuts(d0: Disk, x0: Adapter, es: seq<Effect>, n: int, m: int)
    requires CardCuts(d0, x0, es, n) && n <= m
    ensures CardCuts(d0, x0, es, m)
  {
    hide CardInv, ApplyAll, AdapterAfter;
    forall cut | 0 <= cut <= |es| ensures HasCards(ApplyAll(d0, es[..cut]), AdapterAfter(x0, es[..cut]), m) {
      var card :| CardInv(card, ApplyAll(d0, es[..cut]), AdapterAfter(x0, es[..cut]), n);
      HigherCounter(card, ApplyAll(d0, es[..cut]), AdapterAfter(x0, es[..cut]), n, m);
    }
  }

  /** A filled opening order brings a new ticket, for a new trade. */
  lemma NewCard(card: map<int, int>, d: Disk, x: Adapter, n: int, t: int, id: int)
    requires CardInv(card, d, x, n) && n <= id && t !in card && t < x.account.received
    ensures CardInv(card[t := id], d, x, id + 1)
  {
    assert !HasClose(d.ledger, id);
    var more := card[t := id];
    forall i {:trigger d.positions[i]} | i in d.positions
      ensures d.positions[i].tradeId == i && Carded(more, d.positions[i])
    {
      assert Carded(card, d.positions[i]);
    }
  }

  lemma EnterKeepsCards(c: Config, card: map<int, int>, s: Live, p: Pass, v: Rules.Verdict, r: Backtest.Reading, b: Bar,
    now: int, signalId: int, n: int) returns (more: map<int, int>)
    requires MayEnter(c, p.equity, |p.book|, v) && CardsDuring(card, s, p, n) && n <= p.nextId
    ensures var q := Enter(c, p, v, r.fv, b, now, signalId); CardsDuring(more, s, q.(kept := []), q.nextId)
  {
    hide CardInv, CardCuts, ApplyAll, AdapterAfter, Submit, GateDecision, OpenOrder, Carded;
    var size, id := GateDecision(c, p.equity, |p.book|, v).sizeUnits, p.nextId + 1;
    var order := OpenOrder(c, v, r.fv, b, now, size, p.nextId);
    var (y, answer) := Submit(p.adapter, order);
    var e := Sent(order, id, answer);
    NeverCloses(c, v, r, b, now, size, p.nextId);
    OneStatement(card, s, p.effects, e, n);
    var sent := p.effects + [e];
    HigherCounter(card, ApplyAll(s.disk, sent), y, n, p.nextId + 1);
    HigherCuts(s.disk, s.adapter, sent, n, p.nextId + 1);
    more := card;
    if answer.Ok? {
      var pos := NewPosition(c, v, answer.value, signalId, id, now);
      var row := OpenRow(c, pos, now, answer.value);
      NewTicket(card, ApplyAll(s.disk, p.effects), p.adapter, n, order);
      more := card[pos.ticket.value := id];
      NewCard(card, ApplyAll(s.disk, sent), y, p.nextId + 1, pos.ticket.value, id);
      HigherCuts(s.disk, s.adapter, sent, p.nextId + 1, p.nextId + 2);
      assert Carded(more, pos) by { ItsCard(card, pos, id); }
      OneStatement(more, s, sent, Saved(pos), p.nextId + 2);
      OneStatement(more, s, sent + [Saved(pos)], Recorded(row), p.nextId + 2);
      assert sent + [Saved(pos)] + [Recorded(row)] == p.effects + [e, Saved(pos), Recorded(row)];
      OldCards(card, p.book, pos.ticket.value, id);
      assert forall q :: q in p.book + [pos] ==> q in p.book || q == pos;
    }
  }

  lemma ItsCard(card: map<int, int>, p: LivePosition, id: int)
    requires p.ticket.Some? && p.tradeId == id
    ensures Carded(card[p.ticket.value := id], p)
  {
  }

  lemma OldCards(card: map<int, int>, open: seq<LivePosition>, t: int, id: int)
    requires AllCarded(card, open) && t !in card
    ensures AllCarded(card[t := id], open)
  {
    forall q | q in open ensures Carded(card[t := id], q) { assert Carded(card, q); }
  }

  lemma NewTicket(card: map<int, int>, d: Disk, x: Adapter, n: int, order: Order)
    requires CardInv(card, d, x, n) && order.closes.None? && Submit(x, order).1.Ok?
    ensures var (y, answer) := Submit(x, order);
      y.Broker? && answer.value.ticket.Some? && answer.value.ticket.value !in card
        && answer.value.ticket.value < y.account.received
  {
  }

  /** One poll, completed, raised or cut at any statement. */
  lemma PollKeepsCards(c: Config, card: map<int, int>, s: Live, b: Bar, now: int, r: Backtest.Reading)
    returns (more: map<int, int>)
    requires CardInv(card, s.disk, s.adapter, s.nextId) && AllCarded(card, s.open)
    ensures var p := PassOf(c, s, b, now, r);
      && CardInv(more, After(s, p).disk, p.adapter, p.nextId) && AllCarded(more, p.book)
      && CardCuts(s.disk, s.adapter, p.effects, p.nextId)
  {
    hide CardInv, CardCuts, ApplyAll, AdapterAfter, ManageTo, MayEnter, Enter, SignalOf, Carded;
    ManageKeepsCards(c, card, s, b, now, |s.open|);
    CounterOfManage(c, s, b, now);
    var m, v := Manage(c, s, b, now), r.verdict;
    HigherCounter(card, ApplyAll(s.disk, m.effects), m.adapter, s.nextId, m.nextId);
    HigherCuts(s.disk, s.adapter, m.effects, s.nextId, m.nextId);
    more := card;
    if !m.raised && (v.Taken? || v.TurnedDown?) {
      var row := SignalOf(m.nextId, now, v);
      var q := Publish(m, row);
      OneStatement(card, s, m.effects, Published(row), m.nextId);
      if MayEnter(c, q.equity, |q.book|, v) {
        assert CardsDuring(card, s, q, m.nextId);
        more := EnterKeepsCards(c, card, s, q, v, r, b, now, m.nextId, m.nextId);
      } else {
        HigherCounter(card, ApplyAll(s.disk, q.effects), q.adapter, m.nextId, q.nextId);
        HigherCuts(s.disk, s.adapter, q.effects, m.nextId, q.nextId);
      }
    }
  }

  // ---------------------------------------------------------------- runs

  lemma StoredAreCarded(card: map<int, int>, d: Disk, x: Adapter, n: int, reloaded: seq<LivePosition>)
    requires CardInv(card, d, x, n) && Lists(reloaded, d.positions)
    ensures AllCarded(card, reloaded)
  {
    hide HasClose, CloseCount, Carded;
    forall q | q in reloaded ensures Carded(card, q) { assert d.positions[q.tradeId] == q; }
  }

  lemma StepKeepsCards(c: Config, card: map<int, int>, s: Live, e: Step) returns (more: map<int, int>)
    requires CardInv(card, s.disk, s.adapter, s.nextId) && AllCarded(card, s.open) && Reloads(c, s, e)
    ensures var t := StepTo(c, s, e); CardInv(more, t.disk, t.adapter, t.nextId) && AllCarded(more, t.open)
  {
    hide CardInv, AllCarded, PassOf, Lists, ApplyAll, AdapterAfter;
    match e {
      case Polled(b, now, r) =>
        more := PollKeepsCards(c, card, s, b, now, r);
      case Restarted(reloaded, _) =>
        more := card;
        StoredAreCarded(card, s.disk, s.adapter, s.nextId, reloaded);
      case Crashed(b, now, r, cut, reloaded, _) =>
        var p, t := PassOf(c, s, b, now, r), StepTo(c, s, e);
        more := PollKeepsCards(c, card, s, b, now, r);
        var at := if cut <= |p.effects| then cut else |p.effects|;
        assert p.effects[..at] == Cut(p.effects, cut);
        more :| CardInv(more, ApplyAll(s.disk, p.effects[..at]), AdapterAfter(s.adapter, p.effects[..at]), p.nextId);
        StoredAreCarded(more, t.disk, t.adapter, t.nextId, reloaded);
    }
  }

  lemma {:induction false} RunKeepsCards(c: Config, card: map<int, int>, s: Live, steps: seq<Step>)
    returns (more: map<int, int>)
    requires CardInv(card, s.disk, s.adapter, s.nextId) && AllCarded(card, s.open) && AllReload(c, s, steps)
    ensures var t := RunSteps(c, s, steps); CardInv(more, t.disk, t.adapter, t.nextId) && AllCarded(more, t.open)
  {
    hide CardInv, AllCarded, StepTo, Reloads, AllReload;
    more := card;
    if steps != [] {
      ReloadInit(c, s, steps);
      var l := RunSteps(c, s, steps[..|steps| - 1]);
      more := RunKeepsCards(c, card, s, steps[..|steps| - 1]);
      more := StepKeepsCards(c, more, l, steps[|steps| - 1]);
    }
  }

  /** A loop in step with its broker, with agreeing tables, has its cards: the tickets open at the broker. */
  lemma AgreementHasCards(s: Live, o: map<int, int>)
    requires Mirrored(s) && TablesCoincide(s.disk) && InStep(s.open, s.adapter, o)
    requires forall id :: CloseCount(s.disk.ledger, id) <= 1
    ensures CardInv(o, s.disk, s.adapter, s.nextId) && AllCarded(o, s.open)
  {
    hide HasOpen, HasClose, CloseCount;
    MirroredList(s);
    TicketsListed(s, o);
    forall q | q in s.open ensures Carded(o, q) { var j :| 0 <= j < |s.open| && s.open[j] == q; }
    forall t {:trigger o[t]} | t in o
      ensures o[t] < s.nextId && !HasClose(s.disk.ledger, o[t])
    {
      var j := HolderOf(s, o, t);
    }
    forall t, u | t in o && u in o && o[t] == o[u] ensures t == u {
      var i := HolderOf(s, o, t);
      var j := HolderOf(s, o, u);
      SameIndex(s.open, i, j);
    }
  }

  /** With a broker: from a loop in step whose tables agree, over every run of polls, restarts and crashes after any
      statement, whatever is refused, no trade ever has more than one close row, at the end or at any statement
      boundary of a further poll. */
  lemma BrokerClosesOnce(c: Config, s: Live, o: map<int, int>, steps: seq<Step>, b: Bar, now: int, r: Backtest.Reading,
    cut: nat, id: int)
    requires Mirrored(s) && TablesCoincide(s.disk) && InStep(s.open, s.adapter, o) && AllReload(c, s, steps)
    requires forall i :: CloseCount(s.disk.ledger, i) <= 1
    ensures var f := RunSteps(c, s, steps);
      && CloseCount(f.disk.ledger, id) <= 1
      && CloseCount(ApplyAll(f.disk, Cut(PassOf(c, f, b, now, r).effects, cut)).ledger, id) <= 1
  {
    hide RunSteps, PassOf, InStep, Mirrored, TablesCoincide, AllReload, CloseCount, AllCarded, ApplyAll, AdapterAfter;
    AgreementHasCards(s, o);
    var card := RunKeepsCards(c, o, s, steps);
    OneRow(card, RunSteps(c, s, steps).disk, RunSteps(c, s, steps).adapter, RunSteps(c, s, steps).nextId, id);
    var f := RunSteps(c, s, steps);
    var p := PassOf(c, f, b, now, r);
    var more := PollKeepsCards(c, card, f, b, now, r);
    var at := if cut <= |p.effects| then cut else |p.effects|;
    assert p.effects[..at] == Cut(p.effects, cut);
    more :| CardInv(more, ApplyAll(f.disk, p.effects[..at]), AdapterAfter(f.adapter, p.effects[..at]), p.nextId);
    OneRow(more, ApplyAll(f.disk, p.effects[..at]), AdapterAfter(f.adapter, p.effects[..at]), p.nextId, id);
  }

  lemma OneRow(card: map<int, int>, d: Disk, x: Adapter, n: int, id: int)
    requires CardInv(card, d, x, n)
    ensures CloseCount(d.ledger, id) <= 1
  {
  }
}

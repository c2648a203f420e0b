/** MFE and MAE in the live loop: the extremes over exactly the bars polled between entry and exit. */
module LiveExcursions {
  import opened Prelude
  import opened Bars
  import opened Execution
  import opened Records
  import opened LiveLoop
  import Excursions
  import Recovery
  import Tickets
  import Rules

  function BarsOf(polls: seq<PollInput>): (bars: seq<Bar>)
    ensures |bars| == |polls| && forall i {:trigger bars[i]} :: 0 <= i < |bars| ==> bars[i] == polls[i].bar
  {
    seq(|polls|, i requires 0 <= i < |polls| => polls[i].bar)
  }

  /** Opened at poll a, and up to date through poll k - 1. */
  ghost predicate Since(q: LivePosition, polls: seq<PollInput>, a: int, k: int) {
    && 0 <= a < k <= |polls| && q.openedAt == polls[a].now
    && q.mfe == Excursions.BestOver(q.direction, q.entryPrice, BarsOf(polls), a + 1, k)
    && q.mae == Excursions.WorstOver(q.direction, q.entryPrice, BarsOf(polls), a + 1, k)
  }

  /** An open row of this trade, at its entry price, written when it was opened. */
  predicate OpensIt(row: LedgerEntry, q: LivePosition) {
    row.event.Opened? && row.tradeId == q.tradeId && row.direction == q.direction && row.price == q.entryPrice
      && row.ts == q.openedAt
  }

  ghost predicate Exact(q: LivePosition, ledger: seq<LedgerEntry>, polls: seq<PollInput>, n0: nat, k: int) {
    && (exists a :: 0 <= a < k && Since(q, polls, a, k))
    && (exists o :: n0 <= o < |ledger| && OpensIt(ledger[o], q))
  }

  /** A close row, written at poll e, carries the extremes over the bars of the polls strictly between the one that
      opened its trade and e. */
  ghost predicate ClosesIt(open: LedgerEntry, row: LedgerEntry, polls: seq<PollInput>, a: int, e: int) {
    && 0 <= a < e < |polls| && open.event.Opened? && open.tradeId == row.tradeId && open.direction == row.direction
    && open.ts == polls[a].now && row.ts == polls[e].now
    && row.mfe == Some(Excursions.BestOver(row.direction, open.price, BarsOf(polls), a + 1, e))
    && row.mae == Some(Excursions.WorstOver(row.direction, open.price, BarsOf(polls), a + 1, e))
  }

  ghost predicate RowIsExact(ledger: seq<LedgerEntry>, polls: seq<PollInput>, n0: nat, j: int)
    requires 0 <= j < |ledger|
  {
    ledger[j].event.Closed? ==> exists o, a, e :: n0 <= o < j && ClosesIt(ledger[o], ledger[j], polls, a, e)
  }

  ghost predicate RowsExact(ledger: seq<LedgerEntry>, polls: seq<PollInput>, n0: nat) {
    n0 <= |ledger| && forall j :: n0 <= j < |ledger| ==> RowIsExact(ledger, polls, n0, j)
  }

  ghost predicate AllExact(open: seq<LivePosition>, ledger: seq<LedgerEntry>, polls: seq<PollInput>, n0: nat, k: int) {
    forall q :: q in open ==> Exact(q, ledger, polls, n0, k)
  }

  // ---------------------------------------------------------------- one row more

  lemma MoreRows(ledger: seq<LedgerEntry>, row: LedgerEntry, polls: seq<PollInput>, n0: nat)
    requires RowsExact(ledger, polls, n0) && RowIsExact(ledger + [row], polls, n0, |ledger|)
    ensures RowsExact(ledger + [row], polls, n0)
  {
    hide ClosesIt;
    var all := ledger + [row];
    forall j | n0 <= j < |all| ensures RowIsExact(all, polls, n0, j) {
      if j < |ledger| && ledger[j].event.Closed? {
        assert RowIsExact(ledger, polls, n0, j);
        var o, a, e :| n0 <= o < j && ClosesIt(ledger[o], ledger[j], polls, a, e);
        assert ClosesIt(all[o], all[j], polls, a, e);
      }
    }
  }

  lemma StillExact(open: seq<LivePosition>, ledger: seq<LedgerEntry>, row: LedgerEntry, polls: seq<PollInput>, n0: nat,
    k: int)
    requires AllExact(open, ledger, polls, n0, k)
    ensures AllExact(open, ledger + [row], polls, n0, k)
  {
    hide Since, OpensIt;
    forall q | q in open ensures Exact(q, ledger + [row], polls, n0, k) {
      assert Exact(q, ledger, polls, n0, k);
      var o :| n0 <= o < |ledger| && OpensIt(ledger[o], q);
      assert (ledger + [row])[o] == ledger[o];
    }
  }

  /** A position that stays takes this poll's bar in. */
  lemma StaysExact(q: LivePosition, ledger: seq<LedgerEntry>, polls: seq<PollInput>, n0: nat, k: int)
    requires Exact(q, ledger, polls, n0, k) && 0 <= k < |polls|
    ensures Exact(WithExcursion(q, polls[k].bar), ledger, polls, n0, k + 1)
  {
    var u := WithExcursion(q, polls[k].bar);
    var a :| 0 <= a < k && Since(q, polls, a, k);
    assert BarsOf(polls)[k] == polls[k].bar;
    assert Since(u, polls, a, k + 1);
    var o :| n0 <= o < |ledger| && OpensIt(ledger[o], q);
    assert OpensIt(ledger[o], u);
  }

  lemma ClosedIsExact(c: Config, q: LivePosition, fill: Fill, ledger: seq<LedgerEntry>, polls: seq<PollInput>, n0: nat,
    k: int)
    requires Exact(q, ledger, polls, n0, k) && 0 <= k < |polls| && RowsExact(ledger, polls, n0)
    ensures RowsExact(ledger + [CloseRow(c, q, polls[k].now, fill)], polls, n0)
  {
    hide ClosePnl, RMultiple;
    var row := CloseRow(c, q, polls[k].now, fill);
    var all := ledger + [row];
    var a :| 0 <= a < k && Since(q, polls, a, k);
    var o :| n0 <= o < |ledger| && OpensIt(ledger[o], q);
    assert ClosesIt(all[o], all[|ledger|], polls, a, k);
    MoreRows(ledger, row, polls, n0);
  }

  // ---------------------------------------------------------------- one poll

  /** A walk over the list at poll k, i positions done. */
  ghost predicate Walked(s: Live, polls: seq<PollInput>, n0: nat, k: int, p: Pass, i: nat)
    requires i <= |s.open|
  {
    var ledger := ApplyAll(s.disk, p.effects).ledger;
    && RowsExact(ledger, polls, n0) && AllExact(p.kept, ledger, polls, n0, k + 1)
      && AllExact(s.open, ledger, polls, n0, k)
    && !p.raised && |p.book| == |s.open| && forall j {:trigger p.book[j]} :: i <= j < |s.open| ==>
      p.book[j] == s.open[j]
  }

  lemma SurviveWalks(s: Live, polls: seq<PollInput>, n0: nat, k: int, p: Pass, i: nat)
    requires i < |s.open| && 0 <= k < |polls| && Walked(s, polls, n0, k, p, i)
    ensures Walked(s, polls, n0, k, Survive(p, i, polls[k].bar), i + 1)
  {
    hide ApplyAll, RowsExact, Exact, WithExcursion;
    var u := WithExcursion(p.book[i], polls[k].bar);
    assert s.open[i] in s.open;
    StaysExact(s.open[i], ApplyAll(s.disk, p.effects).ledger, polls, n0, k);
    OneMore(s.disk, [], p.effects, Saved(u));
    assert forall q :: q in p.kept + [u] ==> q in p.kept || q == u;
  }

  lemma CloseWalks(c: Config, s: Live, polls: seq<PollInput>, n0: nat, k: int, p: Pass, i: nat)
    requires i < |s.open| && 0 <= k < |polls| && Walked(s, polls, n0, k, p, i) && p.adapter.Simulated?
    ensures Walked(s, polls, n0, k, CloseOne(c, p, i, polls[k].bar, polls[k].now), i + 1)
  {
    hide ApplyAll, RowsExact, Exact, AllExact, ClosePnl, RMultiple, Resolve, CloseEffects, Submit, CloseOrder;
    var b, now, pos := polls[k].bar, polls[k].now, s.open[i];
    assert p.book[i] == pos;
    var order := CloseOrder(c, pos, b, now, p.nextId);
    var answer := Submit(p.adapter, order).1;
    Tickets.SimulatedFills(c, p.adapter, pos, b, now, p.nextId);
    CloseEffectsApplied(c, s.disk, p.effects, pos, now, answer.value, order, answer);
    var ledger, row := ApplyAll(s.disk, p.effects).ledger, CloseRow(c, pos, now, answer.value);
    ItIsExact(s.open, ledger, polls, n0, k, i);
    ClosedIsExact(c, pos, answer.value, ledger, polls, n0, k);
    StillExact(p.kept, ledger, row, polls, n0, k + 1);
    StillExact(s.open, ledger, row, polls, n0, k);
  }

  lemma ItIsExact(open: seq<LivePosition>, ledger: seq<LedgerEntry>, polls: seq<PollInput>, n0: nat, k: int, i: nat)
    requires AllExact(open, ledger, polls, n0, k) && i < |open|
    ensures Exact(open[i], ledger, polls, n0, k)
  {
  }

  lemma {:induction false} ManageWalks(c: Config, s: Live, polls: seq<PollInput>, n0: nat, k: int, i: nat)
    requires i <= |s.open| && 0 <= k < |polls| && s.adapter.Simulated?
    requires RowsExact(s.disk.ledger, polls, n0) && AllExact(s.open, s.disk.ledger, polls, n0, k)
    ensures Walked(s, polls, n0, k, ManageTo(c, Begin(s), polls[k].bar, polls[k].now, i), i)
  {
    hide CheckExit, Survive, CloseOne, Walked, RowsExact, AllExact;
    if i == 0 {
      WalkBegins(s, polls, n0, k);
    } else {
      ManageWalks(c, s, polls, n0, k, i - 1);
      Tickets.SimulatedNeverRaises(c, s, polls[k].bar, polls[k].now, i - 1);
      var p := ManageTo(c, Begin(s), polls[k].bar, polls[k].now, i - 1);
      if CheckExit(p.book[i - 1], polls[k].bar, polls[k].now).None? {
        SurviveWalks(s, polls, n0, k, p, i - 1);
      } else {
        CloseWalks(c, s, polls, n0, k, p, i - 1);
      }
    }
  }

  lemma WalkBegins(s: Live, polls: seq<PollInput>, n0: nat, k: int)
    requires RowsExact(s.disk.ledger, polls, n0) && AllExact(s.open, s.disk.ledger, polls, n0, k)
    ensures Walked(s, polls, n0, k, Begin(s), 0)
  {
  }

  lemma EnterIsExact(c: Config, s: Live, polls: seq<PollInput>, n0: nat, k: int, p: Pass, v: Rules.Verdict,
    signalId: int)
    requires 0 <= k < |polls| && MayEnter(c, p.equity, |p.book|, v)
    requires var ledger := ApplyAll(s.disk, p.effects).ledger;
      RowsExact(ledger, polls, n0) && AllExact(p.book, ledger, polls, n0, k + 1)
    ensures var q := Enter(c, p, v, polls[k].reading.fv, polls[k].bar, polls[k].now, signalId);
      var ledger := ApplyAll(s.disk, q.effects).ledger;
      RowsExact(ledger, polls, n0) && AllExact(q.book, ledger, polls, n0, k + 1)
  {
    hide ApplyAll, RowsExact, GateDecision, OpenOrder, Submit, Exact;
    var b, now, fv := polls[k].bar, polls[k].now, polls[k].reading.fv;
    var size := GateDecision(c, p.equity, |p.book|, v).sizeUnits;
    var order := OpenOrder(c, v, fv, b, now, size, p.nextId);
    var answer := Submit(p.adapter, order).1;
    var e := Sent(order, p.nextId + 1, answer);
    OneMore(s.disk, [], p.effects, e);
    if answer.Ok? {
      var pos := NewPosition(c, v, answer.value, signalId, p.nextId + 1, now);
      var row, sent, ledger := OpenRow(c, pos, now, answer.value), p.effects + [e], ApplyAll(s.disk, p.effects).ledger;
      OneMore(s.disk, [], sent, Saved(pos));
      OneMore(s.disk, [], sent + [Saved(pos)], Recorded(row));
      assert sent + [Saved(pos)] + [Recorded(row)] == p.effects + [e, Saved(pos), Recorded(row)];
      OpenedIsExact(ledger, row, pos, polls, n0, k);
      StillExact(p.book, ledger, row, polls, n0, k + 1);
      assert forall q :: q in p.book + [pos] ==> q in p.book || q == pos;
    }
  }

  lemma OpenedIsExact(ledger: seq<LedgerEntry>, row: LedgerEntry, q: LivePosition, polls: seq<PollInput>, n0: nat,
    k: int)
    requires 0 <= k < |polls| && OpensIt(row, q) && q.openedAt == polls[k].now && q.mfe == q.mae == 0.0
    requires RowsExact(ledger, polls, n0)
    ensures Exact(q, ledger + [row], polls, n0, k + 1) && RowsExact(ledger + [row], polls, n0)
  {
    assert Since(q, polls, k, k + 1);
    assert (ledger + [row])[|ledger|] == row;
    MoreRows(ledger, row, polls, n0);
  }

  lemma PollIsExact(c: Config, s: Live, polls: seq<PollInput>, n0: nat, k: int)
    requires 0 <= k < |polls| && s.adapter.Simulated?
    requires RowsExact(s.disk.ledger, polls, n0) && AllExact(s.open, s.disk.ledger, polls, n0, k)
    ensures var t := After(s, PassOf(c, s, polls[k].bar, polls[k].now, polls[k].reading));
      RowsExact(t.disk.ledger, polls, n0) && AllExact(t.open, t.disk.ledger, polls, n0, k + 1)
  {
    hide ManageTo, ApplyAll, RowsExact, AllExact, MayEnter, Enter, SignalOf;
    var b, now, r := polls[k].bar, polls[k].now, polls[k].reading;
    ManageWalks(c, s, polls, n0, k, |s.open|);
    var m, v := Manage(c, s, b, now), r.verdict;
    if v.Taken? || v.TurnedDown? {
      var row := SignalOf(m.nextId, now, v);
      var q := Publish(m, row);
      OneMore(s.disk, [], m.effects, Published(row));
      if MayEnter(c, q.equity, |q.book|, v) { EnterIsExact(c, s, polls, n0, k, q, v, m.nextId); }
    }
  }

  /** Over all polls from a flat loop with simulated fills, on any bars at any times: after poll k every listed position
      carries the extremes over exactly the bars polled since its entry, and every close row of the run those over
      exactly the bars polled between entry and exit. */
  lemma {:induction false} LiveRunIsExact(c: Config, s: Live, polls: seq<PollInput>, k: nat)
    requires k <= |polls| && s.open == [] && s.adapter.Simulated?
    ensures var f, n0 := RunPolls(c, s, polls[..k]), |s.disk.ledger|;
      f.adapter.Simulated? && RowsExact(f.disk.ledger, polls, n0) && AllExact(f.open, f.disk.ledger, polls, n0, k)
  {
    hide PassOf, RowsExact, AllExact;
    if k == 0 {
      NothingYet(s, polls);
    } else {
      assert polls[..k][..k - 1] == polls[..k - 1];
      LiveRunIsExact(c, s, polls, k - 1);
      var l := RunPolls(c, s, polls[..k - 1]);
      PollIsExact(c, l, polls, |s.disk.ledger|, k - 1);
      Recovery.SimulatedStays(c, l, polls[k - 1].bar, polls[k - 1].now, polls[k - 1].reading);
    }
  }

  lemma NothingYet(s: Live, polls: seq<PollInput>)
    requires s.open == []
    ensures RowsExact(s.disk.ledger, polls, |s.disk.ledger|)
    ensures AllExact(s.open, s.disk.ledger, polls, |s.disk.ledger|, 0)
  {
  }
}

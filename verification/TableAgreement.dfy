/** One poll that began with memory listing the position store: when no stale list is left, memory lists the store
    after it, and no difference between store and ledger is new. Also the ids a poll writes: all below the
    counter it ends with. */
module TableAgreement {
  import opened Prelude
  import opened Bars
  import opened Execution
  import opened Records
  import opened Stores
  import opened LiveLoop
  import opened CrashSafety
  import opened Tickets
  import Backtest
  import Rules

  // ---------------------------------------------------------------- memory lists the store

  predicate DistinctIds(open: seq<LivePosition>) {
    forall i, j :: 0 <= i < j < |open| ==> open[i].tradeId != open[j].tradeId
  }

  lemma DistinctReplaced(a: seq<LivePosition>, p: LivePosition, u: LivePosition, b: seq<LivePosition>)
    requires DistinctIds(a + [p] + b) && u.tradeId == p.tradeId
    ensures DistinctIds(a + [u] + b)
  {
    var before, after := a + [p] + b, a + [u] + b;
    assert forall i {:trigger after[i]} :: 0 <= i < |after| ==> after[i].tradeId == before[i].tradeId;
  }

  lemma ListsReplaced(a: seq<LivePosition>, p: LivePosition, u: LivePosition, b: seq<LivePosition>, rows: map<int,
    LivePosition>)
    requires Lists(a + [p] + b, rows) && u.tradeId == p.tradeId
    ensures Lists(a + [u] + b, rows[u.tradeId := u]) && p.tradeId in rows
  {
    var before, after, rows1 := a + [p] + b, a + [u] + b, rows[u.tradeId := u];
    assert before[|a|] == p && after[|a|] == u;
    assert p in before;
    DistinctReplaced(a, p, u, b);
    forall q ensures q in after <==> q.tradeId in rows1 && rows1[q.tradeId] == q {
      if q in after {
        var i :| 0 <= i < |after| && after[i] == q;
        if i != |a| {
          assert before[i] == q && q in before;
          assert q.tradeId != p.tradeId;
        }
      }
      if q.tradeId in rows1 && rows1[q.tradeId] == q && q != u {
        assert q in before;
        var i :| 0 <= i < |before| && before[i] == q;
        assert after[i] == q;
      }
    }
  }

  lemma ListsRemoved(a: seq<LivePosition>, p: LivePosition, b: seq<LivePosition>, rows: map<int, LivePosition>)
    requires Lists(a + [p] + b, rows)
    ensures Lists(a + b, rows - {p.tradeId}) && p.tradeId in rows
  {
    var all, r, rows1 := a + [p] + b, a + b, rows - {p.tradeId};
    assert all[|a|] == p && p in all;
    forall i, j | 0 <= i < j < |r| ensures r[i].tradeId != r[j].tradeId {
      AroundAt(a, p, b, i);
      AroundAt(a, p, b, j);
    }
    forall q ensures q in r <==> q.tradeId in rows1 && rows1[q.tradeId] == q {
      if q in r {
        var i :| 0 <= i < |r| && r[i] == q;
        AroundAt(a, p, b, i);
        assert q in all;
      }
      if q.tradeId in rows1 && rows1[q.tradeId] == q {
        assert q in all;
        var k :| 0 <= k < |all| && all[k] == q;
        var i := AroundOf(a, p, b, k);
        assert r[i] == q;
      }
    }
  }

  lemma ListsAdded(open: seq<LivePosition>, p: LivePosition, rows: map<int, LivePosition>)
    requires Lists(open, rows) && p.tradeId !in rows
    ensures Lists(open + [p], rows[p.tradeId := p])
  {
    var r, rows1 := open + [p], rows[p.tradeId := p];
    forall i, j | 0 <= i < j < |r| ensures r[i].tradeId != r[j].tradeId {
      assert r[i] in open;
    }
    forall q ensures q in r <==> q.tradeId in rows1 && rows1[q.tradeId] == q {
      assert q in r <==> q in open || q == p;
    }
  }

  // ---------------------------------------------------------------- strays

  /** The differences on `d` are exactly those of `d0` whose position is still stored. */
  ghost predicate StraysSurvive(d0: Disk, d: Disk) {
    forall id :: Stray(d, id) <==> Stray(d0, id) && id in d.positions
  }

  ghost predicate IdsBelow(d: Disk, n: int) {
    && (forall id :: id in d.positions ==> id < n)
    && (forall i :: 0 <= i < |d.ledger| ==> d.ledger[i].tradeId < n)
  }

  lemma CloseLeavesNoStray(d0: Disk, d: Disk, row: LedgerEntry, rows: map<int, SignalRow>, n: int)
    requires row.event.Closed? && row.tradeId in d.positions && StraysSurvive(d0, d) && IdsBelow(d, n)
    ensures StraysSurvive(d0, Disk(d.positions - {row.tradeId}, d.ledger + [row], rows))
    ensures IdsBelow(Disk(d.positions - {row.tradeId}, d.ledger + [row], rows), n)
  {
    hide HasOpen, HasClose;
    LedgerGrows(d.ledger, row);
    var e := Disk(d.positions - {row.tradeId}, d.ledger + [row], rows);
    forall id ensures Stray(e, id) <==> Stray(d0, id) && id in e.positions {
      assert Stray(d, id) <==> Stray(d0, id) && id in d.positions;
    }
  }

  lemma OpenLeavesNoStray(d0: Disk, d: Disk, p: LivePosition, row: LedgerEntry, n: int)
    requires row.event.Opened? && row.tradeId == p.tradeId == n + 1 && StraysSurvive(d0, d) && IdsBelow(d, n)
    requires IdsBelow(d0, n)
    ensures StraysSurvive(d0, Disk(d.positions[p.tradeId := p], d.ledger + [row], d.signals))
    ensures IdsBelow(Disk(d.positions[p.tradeId := p], d.ledger + [row], d.signals), n + 2)
  {
    hide HasOpen;
    LedgerGrows(d.ledger, row);
    var e := Disk(d.positions[p.tradeId := p], d.ledger + [row], d.signals);
    assert !HasClose(d.ledger, p.tradeId);
    forall id ensures Stray(e, id) <==> Stray(d0, id) && id in e.positions {
      assert Stray(d, id) <==> Stray(d0, id) && id in d.positions;
    }
  }

  // ---------------------------------------------------------------- the management pass

  /** An unraised pass after k positions of a poll that began with memory listing the store. */
  ghost predicate Tracking(s: Live, p: Pass, k: nat) {
    && k <= |s.open| && |p.book| == |s.open|
    && Lists(p.kept + s.open[k..], ApplyAll(s.disk, p.effects).positions)
    && (forall j {:trigger p.book[j]} :: k <= j < |s.open| ==> p.book[j] == s.open[j])
    && (NothingClosed(p.effects) ==> p.book == p.kept + s.open[k..])
    && StraysSurvive(s.disk, ApplyAll(s.disk, p.effects))
    && IdsBelow(ApplyAll(s.disk, p.effects), p.nextId)
  }

  lemma Resaved(d: Disk, u: LivePosition, n: int)
    requires u.tradeId in d.positions && IdsBelow(d, n)
    ensures var e := d.(positions := d.positions[u.tradeId := u]);
      IdsBelow(e, n) && forall id :: Stray(e, id) <==> Stray(d, id)
  {
  }

  lemma SurviveTracks(s: Live, p: Pass, k: nat, b: Bar)
    requires k < |s.open| && Tracking(s, p, k)
    ensures Tracking(s, Survive(p, k, b), k + 1)
  {
    hide ApplyAll, Lists, NothingClosed, OpenInLedger, IdsBelow;
    var pos, d := p.book[k], ApplyAll(s.disk, p.effects);
    var u, rest := WithExcursion(pos, b), s.open[k + 1..];
    assert p.kept + s.open[k..] == p.kept + [pos] + rest;
    ListsReplaced(p.kept, pos, u, rest, d.positions);
    OneMore(s.disk, [], p.effects, Saved(u));
    OneMoreRow(p.effects, Saved(u));
    Resaved(d, u, p.nextId);
  }

  /** What a poll that stops at a refused order leaves. */
  ghost predicate CutShort(s: Live, p: Pass) {
    && StraysSurvive(s.disk, ApplyAll(s.disk, p.effects))
    && IdsBelow(ApplyAll(s.disk, p.effects), p.nextId)
    && (NothingClosed(p.effects) ==> Lists(p.book, ApplyAll(s.disk, p.effects).positions))
  }

  lemma MoreIds(d: Disk, n: int, m: int)
    requires IdsBelow(d, n) && n <= m
    ensures IdsBelow(d, m)
  {
  }

  lemma CloseTracks(c: Config, s: Live, p: Pass, k: nat, b: Bar, now: int)
    requires k < |s.open| && Tracking(s, p, k) && !p.raised
    ensures var q := CloseOne(c, p, k, b, now);
      if q.raised then CutShort(s, q) else Tracking(s, q, k + 1)
  {
    hide ApplyAll, Lists, NothingClosed, StraysSurvive, IdsBelow, ClosePnl, RMultiple, Submit;
    var pos, d := p.book[k], ApplyAll(s.disk, p.effects);
    var rest := s.open[k + 1..];
    assert p.kept + s.open[k..] == p.kept + [pos] + rest;
    var order := CloseOrder(c, pos, b, now, p.nextId);
    var answer := Submit(p.adapter, order).1;
    var e := Sent(order, pos.tradeId, answer);
    OneMore(s.disk, [], p.effects, e);
    OneMoreRow(p.effects, e);
    ListsRemoved(p.kept, pos, rest, d.positions);
    MoreIds(d, p.nextId, p.nextId + 1);
    if answer.Ok? {
      var row, at := CloseRow(c, pos, now, answer.value),
        ApplyAll(s.disk, p.effects + [e] + CloseEffects(c, pos, now, answer.value));
      CloseEffectsApplied(c, s.disk, p.effects, pos, now, answer.value, order, answer);
      CloseLeavesNoStray(s.disk, d, row, at.signals, p.nextId + 1);
      CloseRowAmong(c, pos, now, answer.value, p.effects, e);
    }
  }

  lemma BeginTracks(s: Live)
    requires Lists(s.open, s.disk.positions) && IdsBelow(s.disk, s.nextId)
    ensures Tracking(s, Begin(s), 0)
  {
    assert [] + s.open[0..] == s.open;
  }

  lemma {:induction false} ManageTracks(c: Config, s: Live, b: Bar, now: int, k: nat)
    requires Lists(s.open, s.disk.positions) && IdsBelow(s.disk, s.nextId) && k <= |s.open|
    ensures var p := ManageTo(c, Begin(s), b, now, k);
      if p.raised then CutShort(s, p) else Tracking(s, p, k)
  {
    hide CloseOne, Survive, CheckExit, CutShort, Lists, IdsBelow, ApplyAll, StraysSurvive, NothingClosed;
    if k == 0 {
      BeginTracks(s);
    } else {
      ManageTracks(c, s, b, now, k - 1);
      var p := ManageTo(c, Begin(s), b, now, k - 1);
      if !p.raised {
        if CheckExit(p.book[k - 1], b, now).None? {
          SurviveTracks(s, p, k - 1, b);
          SurviveRaisesNothing(p, k - 1, b);
        } else {
          CloseTracks(c, s, p, k - 1, b, now);
        }
      }
    }
  }

  // ---------------------------------------------------------------- a whole poll

  /** Memory lists the store after these effects, and no difference is new. */
  ghost predicate Settled(s: Live, p: Pass) {
    && Lists(p.book, ApplyAll(s.disk, p.effects).positions)
    && StraysSurvive(s.disk, ApplyAll(s.disk, p.effects))
    && IdsBelow(ApplyAll(s.disk, p.effects), p.nextId)
  }

  lemma ManageSettles(c: Config, s: Live, b: Bar, now: int)
    requires Lists(s.open, s.disk.positions) && IdsBelow(s.disk, s.nextId)
    ensures var p := Manage(c, s, b, now);
      !LeavesStaleList(c, s, b, now) ==> Settled(s, p)
  {
    hide ManageTo, ApplyAll, Lists, NothingClosed, StraysSurvive, IdsBelow;
    ManageTracks(c, s, b, now, |s.open|);
    var m := ManageTo(c, Begin(s), b, now, |s.open|);
    if !m.raised {
      assert m.kept + s.open[|s.open|..] == m.kept;
    }
  }

  lemma EnterSettles(c: Config, s: Live, p: Pass, v: Rules.Verdict, r: Backtest.Reading, b: Bar, now: int,
    signalId: int)
    requires MayEnter(c, p.equity, |p.book|, v) && Settled(s, p) && IdsBelow(s.disk, p.nextId)
    ensures Settled(s, Enter(c, p, v, r.fv, b, now, signalId))
  {
    hide GateDecision, OpenOrder, ApplyAll, Lists, StraysSurvive, IdsBelow, Submit;
    var size, d := GateDecision(c, p.equity, |p.book|, v).sizeUnits, ApplyAll(s.disk, p.effects);
    var order, id := OpenOrder(c, v, r.fv, b, now, size, p.nextId), p.nextId + 1;
    var answer := Submit(p.adapter, order).1;
    var e := Sent(order, id, answer);
    OneMore(s.disk, [], p.effects, e);
    MoreIds(d, p.nextId, p.nextId + 1);
    if answer.Ok? {
      var pos := NewPosition(c, v, answer.value, signalId, id, now);
      var row, sent := OpenRow(c, pos, now, answer.value), p.effects + [e];
      ListsAdded(p.book, pos, d.positions);
      OneMore(s.disk, [], sent, Saved(pos));
      OneMore(s.disk, [], sent + [Saved(pos)], Recorded(row));
      OpenLeavesNoStray(s.disk, d, pos, row, p.nextId);
      assert sent + [Saved(pos)] + [Recorded(row)] == p.effects + [e, Saved(pos), Recorded(row)];
    }
  }

  lemma PublishSettles(s: Live, p: Pass, row: SignalRow)
    requires Settled(s, p)
    ensures Settled(s, Publish(p, row))
  {
    hide ApplyAll, Lists, OpenInLedger;
    OneMore(s.disk, [], p.effects, Published(row));
  }

  lemma {:induction false} CounterGrows(c: Config, s: Live, b: Bar, now: int, k: nat)
    requires k <= |s.open|
    ensures s.nextId <= ManageTo(c, Begin(s), b, now, k).nextId
  {
    hide CheckExit, WithExcursion, Submit, CloseEffects, CloseOrder, ClosePnl;
    if k > 0 { CounterGrows(c, s, b, now, k - 1); }
  }

  /** One poll that began with memory listing the store. Unless it leaves a stale list, a poll that ends,
      completed or raised, leaves memory listing the store and only those earlier differences still stored. */
  lemma PollSettles(c: Config, s: Live, b: Bar, now: int, r: Backtest.Reading)
    requires Lists(s.open, s.disk.positions) && IdsBelow(s.disk, s.nextId)
    ensures !LeavesStaleList(c, s, b, now) ==> Settled(s, PassOf(c, s, b, now, r))
  {
    hide Manage, Settled, Lists, IdsBelow, NothingClosed, MayEnter, Enter, SignalOf, ManageTo;
    ManageSettles(c, s, b, now);
    CounterOfManage(c, s, b, now);
    var m, v := Manage(c, s, b, now), r.verdict;
    if !m.raised {
      RaisedIsSettled(s, m);
      if v.Taken? || v.TurnedDown? {
        var row := SignalOf(m.nextId, now, v);
        PublishSettles(s, m, row);
        var q := Publish(m, row);
        if MayEnter(c, q.equity, |q.book|, v) {
          MoreIds(s.disk, s.nextId, q.nextId);
          EnterSettles(c, s, q, v, r, b, now, m.nextId);
        }
      }
    }
  }

  lemma CounterOfManage(c: Config, s: Live, b: Bar, now: int)
    ensures s.nextId <= Manage(c, s, b, now).nextId
  {
    hide ManageTo;
    CounterGrows(c, s, b, now, |s.open|);
  }

  lemma RaisedIsSettled(s: Live, m: Pass)
    requires Settled(s, m)
    ensures Settled(s, m.(raised := true))
  {
  }

  // ---------------------------------------------------------------- ids written by a poll

  predicate SmallIds(es: seq<Effect>, n: int) {
    forall i :: 0 <= i < |es| ==>
      (es[i].Saved? ==> es[i].position.tradeId < n) && (es[i].Recorded? ==> es[i].entry.tradeId < n)
  }

  lemma MoreSmallIds(es: seq<Effect>, more: seq<Effect>, n: int, m: int)
    requires SmallIds(es, n) && n <= m && SmallIds(more, m)
    ensures SmallIds(es + more, m)
  {
  }

  lemma CloseSmallIds(c: Config, p: Pass, k: nat, b: Bar, now: int)
    requires k < |p.book| && p.book[k].tradeId < p.nextId && SmallIds(p.effects, p.nextId)
    ensures var q := CloseOne(c, p, k, b, now);
      SmallIds(q.effects, q.nextId) && q.nextId == p.nextId + 1 && q.book == p.book
  {
    hide SmallIds, ClosePnl, RMultiple, CloseOrder;
    var order := CloseOrder(c, p.book[k], b, now, p.nextId);
    var answer := Submit(p.adapter, order).1;
    var e := [Sent(order, p.book[k].tradeId, answer)];
    assert SmallIds(e, p.nextId + 1) by { SentIsSmall(e[0], p.nextId + 1); }
    MoreSmallIds(p.effects, e, p.nextId, p.nextId + 1);
    if answer.Ok? {
      MoreSmallIds(p.effects + e, CloseEffects(c, p.book[k], now, answer.value), p.nextId + 1, p.nextId + 1);
    }
  }

  lemma SentIsSmall(e: Effect, n: int)
    requires !e.Saved? && !e.Recorded?
    ensures SmallIds([e], n)
  {
  }

  predicate SameIds(p: seq<LivePosition>, q: seq<LivePosition>) {
    |p| == |q| && forall i :: 0 <= i < |p| ==> p[i].tradeId == q[i].tradeId
  }

  lemma {:induction false} ManageSmallIds(c: Config, s: Live, b: Bar, now: int, k: nat)
    requires k <= |s.open| && forall j :: 0 <= j < |s.open| ==> s.open[j].tradeId < s.nextId
    ensures var p := ManageTo(c, Begin(s), b, now, k);
      SmallIds(p.effects, p.nextId) && SameIds(p.book, s.open) && s.nextId <= p.nextId
  {
    hide CloseOne, CheckExit, SmallIds;
    if k == 0 {
      NothingIsSmall(s.nextId);
    } else {
      ManageSmallIds(c, s, b, now, k - 1);
      var p := ManageTo(c, Begin(s), b, now, k - 1);
      if !p.raised {
        if CheckExit(p.book[k - 1], b, now).None? {
          var u := WithExcursion(p.book[k - 1], b);
          MoreSmallIds(p.effects, [Saved(u)], p.nextId, p.nextId);
        } else {
          CloseSmallIds(c, p, k - 1, b, now);
        }
      }
    }
  }

  lemma NothingIsSmall(n: int)
    ensures SmallIds([], n)
  {
  }

  lemma EnterSmallIds(c: Config, p: Pass, v: Rules.Verdict, r: Backtest.Reading, b: Bar, now: int, signalId: int)
    requires MayEnter(c, p.equity, |p.book|, v) && SmallIds(p.effects, p.nextId)
    ensures var q := Enter(c, p, v, r.fv, b, now, signalId); SmallIds(q.effects, q.nextId)
  {
    hide OpenOrder, Submit, GateDecision;
  }

  lemma PollSmallIds(c: Config, s: Live, b: Bar, now: int, r: Backtest.Reading)
    requires forall j :: 0 <= j < |s.open| ==> s.open[j].tradeId < s.nextId
    ensures var p := PassOf(c, s, b, now, r); SmallIds(p.effects, p.nextId) && s.nextId <= p.nextId
  {
    hide ManageTo, SmallIds, MayEnter, Enter, SignalOf;
    ManageSmallIds(c, s, b, now, |s.open|);
    var m, v := Manage(c, s, b, now), r.verdict;
    if !m.raised && (v.Taken? || v.TurnedDown?) {
      var row := SignalOf(m.nextId, now, v);
      SentIsSmall(Published(row), m.nextId + 1);
      MoreSmallIds(m.effects, [Published(row)], m.nextId, m.nextId + 1);
      var q := Publish(m, row);
      if MayEnter(c, q.equity, |q.book|, v) {
        EnterSmallIds(c, q, v, r, b, now, m.nextId);
        EnterCounts(c, q, v, r, b, now, m.nextId);
      }
    }
  }

  lemma EnterCounts(c: Config, p: Pass, v: Rules.Verdict, r: Backtest.Reading, b: Bar, now: int, signalId: int)
    requires MayEnter(c, p.equity, |p.book|, v)
    ensures p.nextId <= Enter(c, p, v, r.fv, b, now, signalId).nextId
  {
    hide OpenOrder, Submit, GateDecision;
  }

  lemma {:induction false} IdsStayBelow(d: Disk, es: seq<Effect>, n: int)
    requires IdsBelow(d, n) && SmallIds(es, n)
    ensures IdsBelow(ApplyAll(d, es), n)
  {
    if es != [] { IdsStayBelow(d, es[..|es| - 1], n); }
  }
}

/** When the order of a reloaded list does show: exactly in the polls that are not order-free. */
module RestartOrder {
  import opened Prelude
  import opened Bars
  import opened Execution
  import opened Records
  import opened Stores
  import opened LiveLoop
  import opened CrashSafety
  import opened TableAgreement
  import opened CrashCuts
  import opened Tickets
  import opened PassTables
  import opened Restart
  import CloseRows
  import Backtest

  // ---------------------------------------------------------------- a list with two entries exchanged

  function Exchanged(open: seq<LivePosition>, i: nat, j: nat): (r: seq<LivePosition>)
    requires i < |open| && j < |open|
    ensures |r| == |open| && r[i] == open[j] && r[j] == open[i]
    ensures forall k {:trigger r[k]} :: 0 <= k < |r| && k != i && k != j ==> r[k] == open[k]
  {
    open[i := open[j]][j := open[i]]
  }

  lemma ExchangedLists(open: seq<LivePosition>, rows: map<int, LivePosition>, i: nat, j: nat)
    requires Lists(open, rows) && i < |open| && j < |open|
    ensures Lists(Exchanged(open, i, j), rows)
  {
    var r := Exchanged(open, i, j);
    forall p ensures p in r <==> p in open {
      if k :| 0 <= k < |open| && open[k] == p { assert r[if k == i then j else if k == j then i else k] == p; }
      if k :| 0 <= k < |r| && r[k] == p { assert open[if k == i then j else if k == j then i else k] == p; }
    }
    forall k, l | 0 <= k < l < |r| ensures r[k].tradeId != r[l].tradeId {
      var x, y := if k == i then j else if k == j then i else k, if l == i then j else if l == j then i else l;
      assert open[x] == r[k] && open[y] == r[l] && x != y;
    }
  }

  /** A reload that differs from memory in two entries. */
  lemma ExchangedRestart(s: Live, i: nat, j: nat) returns (t: Live)
    requires Ready(s) && i < |s.open| && j < |s.open|
    ensures RestartOf(s, t) && t == s.(open := Exchanged(s.open, i, j))
    ensures Ready(t)
  {
    hide Lists, IdsBelow, OwnSignals, OwnTickets;
    t := s.(open := Exchanged(s.open, i, j));
    ExchangedLists(s.open, s.disk.positions, i, j);
    RestartIsAlike(s, t);
  }

  // ---------------------------------------------------------------- a survivor before or after a refused exit

  /** Up to the first exit everything is saved and nothing is sent. */
  lemma {:induction false} WalkToFirstExit(c: Config, s: Live, b: Bar, now: int, k: nat)
    requires k <= |s.open| && Exits(s.open[..k], b, now) == 0
    ensures var p := ManageTo(c, Begin(s), b, now, k);
      && !p.raised && p.adapter == s.adapter && forall j {:trigger p.book[j]} :: k <= j < |s.open| ==>
        p.book[j] == s.open[j]
  {
    hide CheckExit, WithExcursion, CloseOne, Exits;
    if k > 0 {
      NextExit(s.open, b, now, k - 1);
      WalkToFirstExit(c, s, b, now, k - 1);
    }
  }

  lemma FirstExit(s: Live, b: Bar, now: int) returns (k: nat)
    requires Exits(s.open, b, now) > 0
    ensures k < |s.open| && CheckExit(s.open[k], b, now).Some? && Exits(s.open[..k], b, now) == 0
  {
    assert s.open[..|s.open|] == s.open;
    k := ExitNumber(s.open, b, now, 0, |s.open|);
  }

  /** When the first close is refused the pass gets through just the positions before it. */
  lemma RefusedAtFirst(c: Config, s: Live, b: Bar, now: int, k: nat)
    requires k < |s.open| && CheckExit(s.open[k], b, now).Some? && Exits(s.open[..k], b, now) == 0
    requires FirstRefused(s.adapter)
    ensures Manage(c, s, b, now).raised && Handled(c, s, b, now, |s.open|) == k
  {
    hide CheckExit, Exits, FirstRefused, Submit, CloseOrder, Survive;
    WalkToFirstExit(c, s, b, now, k);
    var p := ManageTo(c, Begin(s), b, now, k);
    RefusedOnce(p.adapter, CloseOrder(c, s.open[k], b, now, p.nextId));
    RaisedStays(c, Begin(s), b, now, k + 1, |s.open|);
    HandledSame(c, s, b, now, k + 1, |s.open|);
  }

  lemma {:induction false} HandledSame(c: Config, s: Live, b: Bar, now: int, k: nat, n: nat)
    requires k <= n <= |s.open| && ManageTo(c, Begin(s), b, now, k).raised
    ensures Handled(c, s, b, now, n) == Handled(c, s, b, now, k)
  {
    hide ManageTo;
    if k < n {
      HandledSame(c, s, b, now, k, n - 1);
      RaisedStays(c, Begin(s), b, now, k, n);
    }
  }

  /** What such a poll leaves stored for a position that stays: its new excursion if the walk came to it, its old one
      otherwise. */
  lemma StoredAfterRefusal(c: Config, s: Live, b: Bar, now: int, r: Backtest.Reading, k: nat, j: nat)
    requires Mirrored(s) && FirstRefused(s.adapter) && j < |s.open| && CheckExit(s.open[j], b, now).None?
    requires k < |s.open| && CheckExit(s.open[k], b, now).Some? && Exits(s.open[..k], b, now) == 0
    ensures var rows, id := After(s, PassOf(c, s, b, now, r)).disk.positions, s.open[j].tradeId;
      id in rows && rows[id] == if j < k then WithExcursion(s.open[j], b) else s.open[j]
  {
    hide CheckExit, Exits, FirstRefused, ManageTo, ApplyAll, HasClose, HasOpen, Lists, IdsBelow, DistinctIds,
      WithExcursion, React, Handled;
    MirroredList(s);
    RefusedAtFirst(c, s, b, now, k);
    ManagePasses(c, s, b, now, |s.open|);
    var p := Manage(c, s, b, now);
    RaisedReacts(c, p, r, b, now);
    var rows, id := ApplyAll(s.disk, p.effects).positions, s.open[j].tradeId;
    IdsAmong(s.open, b, now, k, id);
    if id in ExitIds(s.open, b, now, k) {
      var i :| 0 <= i < k && s.open[i].tradeId == id && CheckExit(s.open[i], b, now).Some?;
      NoEarlierExit(s.open, b, now, i, k);
    }
    assert id in rows && rows[id] in p.book;
    var i :| 0 <= i < |p.book| && p.book[i] == rows[id];
    SameTrade(s.open[i], b);
    SameTrade(s.open[j], b);
    SamePlace(p.book, i, j);
  }

  lemma NoEarlierExit(open: seq<LivePosition>, b: Bar, now: int, i: nat, k: nat)
    requires i < k <= |open| && Exits(open[..k], b, now) == 0
    ensures CheckExit(open[i], b, now).None?
  {
    hide CheckExit;
    if CheckExit(open[i], b, now).Some? { SomeExit(open, b, now, i, k); }
  }

  lemma SamePlace(book: seq<LivePosition>, i: nat, j: nat)
    requires DistinctIds(book) && i < |book| && j < |book| && book[i].tradeId == book[j].tradeId
    ensures i == j
  {
  }

  /** Exchange a position that stays, and has a new excursion, with the first exit, which is refused. */
  lemma SurvivorOrderShows(c: Config, s: Live, b: Bar, now: int, r: Backtest.Reading, j: nat) returns (t: Live)
    requires Ready(s) && FirstRefused(s.adapter) && Exits(s.open, b, now) > 0
    requires j < |s.open| && CheckExit(s.open[j], b, now).None? && WithExcursion(s.open[j], b) != s.open[j]
    ensures RestartOf(s, t) && !Alike(After(s, PassOf(c, s, b, now, r)), After(t, PassOf(c, t, b, now, r)))
  {
    hide CheckExit, Exits, FirstRefused, PassOf, ApplyAll, Lists, IdsBelow, OwnSignals, OwnTickets, WithExcursion,
      After;
    var k := FirstExit(s, b, now);
    t := ExchangedRestart(s, k, j);
    var l := FirstOfExchanged(s.open, b, now, k, j);
    StoredAfterRefusal(c, s, b, now, r, k, j);
    StoredAfterRefusal(c, t, b, now, r, l, k);
  }

  /** After the exchange the first exit comes later if it came too early for the survivor, and earlier otherwise. */
  lemma FirstOfExchanged(open: seq<LivePosition>, b: Bar, now: int, k: nat, j: nat) returns (l: nat)
    requires k < |open| && CheckExit(open[k], b, now).Some? && Exits(open[..k], b, now) == 0
    requires j < |open| && CheckExit(open[j], b, now).None?
    ensures var r := Exchanged(open, k, j);
      l < |r| && CheckExit(r[l], b, now).Some? && Exits(r[..l], b, now) == 0 && (k < l <==> k < j)
  {
    hide CheckExit, Exits;
    var r := Exchanged(open, k, j);
    SomeExit(r, b, now, j, |r|);
    assert r[..|r|] == r;
    l := ExitNumber(r, b, now, 0, |r|);
    if j < l { NoEarlierExit(r, b, now, j, l); }
    if k < j {
      forall i | 0 <= i <= k ensures CheckExit(r[i], b, now).None? { if i < k { NoEarlierExit(open, b, now, i, k); } }
    }
  }

  // ---------------------------------------------------------------- two exits that are answered differently

  /** Every row a pass writes closes a position it came to, at the answer that position's place among the exits gets. */
  ghost predicate RowsPriced(s: Live, b: Bar, now: int, k: nat, es: seq<Effect>) {
    forall i :: 0 <= i < |es| && es[i].Recorded? ==> Priced(s, b, now, k, es[i].entry)
  }

  ghost predicate Priced(s: Live, b: Bar, now: int, k: nat, row: LedgerEntry) {
    s.adapter.Broker? && exists j :: 0 <= j < k && j < |s.open| && PricedAt(s, b, now, j, row)
  }

  predicate PricedAt(s: Live, b: Bar, now: int, j: nat, row: LedgerEntry)
    requires s.adapter.Broker? && j < |s.open|
  {
    row.tradeId == s.open[j].tradeId && Some(row.price) == Reply(s.adapter.account, Exits(s.open[..j], b, now))
  }

  /** A walk under way with a broker. */
  ghost predicate InTurn(s: Live, b: Bar, now: int, k: nat, p: Pass)
    requires k <= |s.open|
  {
    && s.adapter.Broker? && p.adapter.Broker? && |p.book| == |s.open|
    && RowsPriced(s, b, now, k, p.effects)
    && (!p.raised ==>
          && p.adapter.enabled == s.adapter.enabled && p.adapter.account.replies == s.adapter.account.replies
          && (s.adapter.enabled ==>
            p.adapter.account.received == s.adapter.account.received + Exits(s.open[..k], b, now))
          && forall j {:trigger p.book[j]} :: k <= j < |s.open| ==> p.book[j] == s.open[j])
  }

  lemma MorePriced(s: Live, b: Bar, now: int, k: nat, es: seq<Effect>, more: seq<Effect>)
    requires k < |s.open| && RowsPriced(s, b, now, k, es)
    requires forall i :: 0 <= i < |more| && more[i].Recorded? ==> Priced(s, b, now, k + 1, more[i].entry)
    ensures RowsPriced(s, b, now, k + 1, es + more)
  {
    hide Exits, Reply;
    forall i | 0 <= i < |es + more| && (es + more)[i].Recorded? ensures Priced(s, b, now, k + 1, (es + more)[i].entry) {
      if i < |es| {
        assert Priced(s, b, now, k, es[i].entry);
      } else {
        assert (es + more)[i] == more[i - |es|];
      }
    }
  }

  /** What an order does to a broker, and what a fill then costs. */
  lemma OrderAnswered(x: Adapter, order: Order)
    requires x.Broker?
    ensures var (y, answer) := Submit(x, order);
      && y.Broker? && y.enabled == x.enabled && y.account.replies == x.account.replies
      && y.account.received == x.account.received + (if x.enabled then 1 else 0)
      && (answer.Ok? ==> x.enabled && Some(answer.value.price) == Reply(x.account, 0))
  {
  }

  lemma CloseInTurn(c: Config, s: Live, b: Bar, now: int, k: nat, p: Pass)
    requires k < |s.open| && InTurn(s, b, now, k, p) && !p.raised && CheckExit(s.open[k], b, now).Some?
    ensures InTurn(s, b, now, k + 1, CloseOne(c, p, k, b, now))
  {
    hide CheckExit, Submit, ClosePnl, RMultiple, Exits, RowsPriced, CloseOrder;
    var order := CloseOrder(c, s.open[k], b, now, p.nextId);
    var (y, answer) := Submit(p.adapter, order);
    var e := Sent(order, s.open[k].tradeId, answer);
    OrderAnswered(p.adapter, order);
    NextExit(s.open, b, now, k);
    MorePriced(s, b, now, k, p.effects, [e]);
    if answer.Ok? {
      var row := CloseRow(c, s.open[k], now, answer.value);
      assert PricedAt(s, b, now, k, row);
      MorePriced(s, b, now, k, p.effects, [e] + CloseEffects(c, s.open[k], now, answer.value));
      assert p.effects + [e] + CloseEffects(c, s.open[k], now, answer.value) ==
        p.effects + ([e] + CloseEffects(c, s.open[k], now, answer.value));
    }
  }

  lemma {:induction false} WalkInTurn(c: Config, s: Live, b: Bar, now: int, k: nat)
    requires s.adapter.Broker? && k <= |s.open|
    ensures InTurn(s, b, now, k, ManageTo(c, Begin(s), b, now, k))
  {
    hide CheckExit, CloseOne, WithExcursion, RowsPriced, Exits;
    if k == 0 {
      NothingPriced(s, b, now);
    } else {
      WalkInTurn(c, s, b, now, k - 1);
      var p := ManageTo(c, Begin(s), b, now, k - 1);
      NextExit(s.open, b, now, k - 1);
      MorePriced(s, b, now, k - 1, p.effects, []);
      assert p.effects + [] == p.effects;
      if !p.raised {
        if CheckExit(s.open[k - 1], b, now).None? {
          MorePriced(s, b, now, k - 1, p.effects, [Saved(WithExcursion(p.book[k - 1], b))]);
        } else {
          CloseInTurn(c, s, b, now, k - 1, p);
        }
      }
    }
  }

  lemma NothingPriced(s: Live, b: Bar, now: int)
    requires s.adapter.Broker?
    ensures InTurn(s, b, now, 0, Begin(s))
  {
    assert s.open[..0] == [];
  }

  /** The first exit, filled: its close row is among those of the poll, at the first answer. */
  lemma FirstRow(c: Config, s: Live, b: Bar, now: int, r: Backtest.Reading, k: nat) returns (row: LedgerEntry)
    requires OwnTickets(s.open, s.adapter) && s.adapter.Broker? && !FirstRefused(s.adapter)
    requires k < |s.open| && CheckExit(s.open[k], b, now).Some? && Exits(s.open[..k], b, now) == 0
    ensures row in RowsOf(PassOf(c, s, b, now, r).effects)
    ensures row.event.Closed? && row.tradeId == s.open[k].tradeId && Some(row.price) == Reply(s.adapter.account, 0)
  {
    hide CheckExit, Exits, React, ClosePnl, RMultiple, Survive, RowsOf;
    WalkToFirstExit(c, s, b, now, k);
    var p, q := ManageTo(c, Begin(s), b, now, k), ManageTo(c, Begin(s), b, now, k + 1);
    var order := CloseOrder(c, s.open[k], b, now, p.nextId);
    var answer := Submit(p.adapter, order).1;
    assert answer.Ok?;
    row := CloseRow(c, s.open[k], now, answer.value);
    assert q.effects[|p.effects| + 1] == Recorded(row);
    CloseRows.Longer(c, Begin(s), b, now, k + 1, |s.open|);
    CloseRows.ReactLonger(c, Manage(c, s, b, now), r, b, now);
    RecordedAmong(PassOf(c, s, b, now, r).effects, |p.effects| + 1);
  }

  lemma {:induction false} RecordedAmong(es: seq<Effect>, i: nat)
    requires i < |es| && es[i].Recorded?
    ensures es[i].entry in RowsOf(es)
  {
    if i < |es| - 1 { RecordedAmong(es[..|es| - 1], i); }
  }

  lemma {:induction false} RowRecorded(es: seq<Effect>, row: LedgerEntry) returns (i: nat)
    requires row in RowsOf(es)
    ensures i < |es| && es[i] == Recorded(row)
  {
    if es[|es| - 1] == Recorded(row) {
      i := |es| - 1;
    } else {
      i := RowRecorded(es[..|es| - 1], row);
    }
  }

  /** So the close row of the position at place k is priced by the number of exits before it. */
  lemma CloseRowPriced(c: Config, s: Live, b: Bar, now: int, r: Backtest.Reading, k: nat, row: LedgerEntry)
    requires s.adapter.Broker? && DistinctIds(s.open) && k < |s.open|
    requires row in RowsOf(PassOf(c, s, b, now, r).effects) && row.event.Closed? && row.tradeId == s.open[k].tradeId
    ensures Some(row.price) == Reply(s.adapter.account, Exits(s.open[..k], b, now))
  {
    hide ManageTo, React, Exits, RowsOf;
    var i := RowRecorded(PassOf(c, s, b, now, r).effects, row);
    var m := Manage(c, s, b, now);
    CloseRows.ReactCloses(c, m, r, b, now, i);
    WalkInTurn(c, s, b, now, |s.open|);
    assert Priced(s, b, now, |s.open|, m.effects[i].entry);
    var j :| 0 <= j < |s.open| && PricedAt(s, b, now, j, row);
    SamePlace(s.open, j, k);
  }

  lemma {:induction false} SameExits(p: seq<LivePosition>, q: seq<LivePosition>, b: Bar, now: int)
    requires |p| == |q|
    requires forall i {:trigger q[i]} :: 0 <= i < |q| ==>
      (CheckExit(p[i], b, now).Some? <==> CheckExit(q[i], b, now).Some?)
    ensures Exits(p, b, now) == Exits(q, b, now)
  {
    hide CheckExit;
    if p != [] { SameExits(p[..|p| - 1], q[..|q| - 1], b, now); }
  }

  /** Exchange the first exit with one that gets another answer. */
  lemma ExitOrderShows(c: Config, s: Live, b: Bar, now: int, r: Backtest.Reading, n: nat) returns (t: Live)
    requires Ready(s) && s.adapter.Broker? && !FirstRefused(s.adapter)
    requires 0 < n < Exits(s.open, b, now) && Reply(s.adapter.account, n) != Reply(s.adapter.account, 0)
    ensures RestartOf(s, t) && !Alike(After(s, PassOf(c, s, b, now, r)), After(t, PassOf(c, t, b, now, r)))
  {
    hide CheckExit, Exits, FirstRefused, PassOf, ApplyAll, Lists, IdsBelow, OwnSignals, OwnTickets, RowsOf, Reply;
    var k := FirstExit(s, b, now);
    assert s.open[..|s.open|] == s.open;
    var j := ExitNumber(s.open, b, now, n, |s.open|);
    t := ExchangedRestart(s, k, j);
    SameExits(s.open[..j], t.open[..j], b, now);
    ReadyParts(s);
    ReadyParts(t);
    var row := FirstRow(c, s, b, now, r, k);
    var es, fs := PassOf(c, s, b, now, r).effects, PassOf(c, t, b, now, r).effects;
    if row in RowsOf(fs) { CloseRowPriced(c, t, b, now, r, j, row); }
    LedgerIsRows(s.disk, es);
    LedgerIsRows(t.disk, fs);
    assert row in multiset(RowsOf(es)) && row !in multiset(RowsOf(fs));
    if multiset(s.disk.ledger + RowsOf(es)) == multiset(t.disk.ledger + RowsOf(fs)) {
      Cancel(multiset(s.disk.ledger), multiset(RowsOf(es)), multiset(RowsOf(fs)));
    }
  }

  lemma ReadyParts(s: Live)
    requires Ready(s)
    ensures DistinctIds(s.open) && OwnTickets(s.open, s.adapter)
  {
    hide IdsBelow, OwnTickets;
    MirroredList(s);
  }

  // ---------------------------------------------------------------- exactly

  /** In a poll that is not order-free some reload gives another result. */
  lemma OrderShows(c: Config, s: Live, b: Bar, now: int, r: Backtest.Reading) returns (t: Live)
    requires Ready(s) && !OrderFree(s, b, now)
    ensures RestartOf(s, t) && !Alike(After(s, PassOf(c, s, b, now, r)), After(t, PassOf(c, t, b, now, r)))
  {
    hide CheckExit, Exits, PassOf, WithExcursion, Ready, Alike, After, RestartOf;
    if FirstRefused(s.adapter) {
      var p :| p in s.open && CheckExit(p, b, now).None? && WithExcursion(p, b) != p;
      var j :| 0 <= j < |s.open| && s.open[j] == p;
      t := SurvivorOrderShows(c, s, b, now, r, j);
    } else {
      var n: nat :| n < Exits(s.open, b, now) && (RefusesNext(s.adapter.account, n)
        || Reply(s.adapter.account, n) != Reply(s.adapter.account, 0));
      t := ExitOrderShows(c, s, b, now, r, n);
    }
  }

  /** Whatever order the store gives the positions back in, this poll comes to the same. */
  ghost predicate RestartUnseen(c: Config, s: Live, k: PollInput) {
    forall t {:trigger RestartOf(s, t)} :: RestartOf(s, t) ==>
      Alike(After(s, PassOf(c, s, k.bar, k.now, k.reading)), After(t, PassOf(c, t, k.bar, k.now, k.reading)))
  }

  /** A restart before a poll makes no difference to it, whatever order the store gives the positions back in, if and
      only if fills are simulated, or nothing comes up for exit, or the broker answers all closes with one price, or
      it refuses the first and the bar moves no excursion of a position that stays. */
  lemma RestartUnseenIff(c: Config, s: Live, k: PollInput)
    requires Ready(s)
    ensures RestartUnseen(c, s, k) <==> OrderFree(s, k.bar, k.now)
  {
    hide Ready, Alike, PassOf, After, RestartOf, OrderFree;
    if OrderFree(s, k.bar, k.now) {
      forall t | RestartOf(s, t)
        ensures Alike(After(s, PassOf(c, s, k.bar, k.now, k.reading)), After(t, PassOf(c, t, k.bar, k.now, k.reading)))
      {
        RestartIsAlike(s, t);
        PollAlike(c, s, t, k);
      }
    } else {
      var t := OrderShows(c, s, k.bar, k.now, k.reading);
    }
  }

  /** A restart before any poll of the run makes no difference to that poll. */
  ghost predicate RestartsUnseen(c: Config, s: Live, polls: seq<PollInput>) {
    forall k {:trigger polls[k]} :: 0 <= k < |polls| ==> RestartUnseen(c, RunPolls(c, s, polls[..k]), polls[k])
  }

  lemma UnseenGrows(c: Config, s: Live, polls: seq<PollInput>)
    requires polls != []
    ensures var init := polls[..|polls| - 1];
      RestartsUnseen(c, s, polls) <==>
        RestartsUnseen(c, s, init) && RestartUnseen(c, RunPolls(c, s, init), polls[|polls| - 1])
  {
    hide RunPolls, RestartUnseen;
    var init := polls[..|polls| - 1];
    if RestartsUnseen(c, s, polls) {
      forall k {:trigger init[k]} | 0 <= k < |init| ensures RestartUnseen(c, RunPolls(c, s, init[..k]), init[k]) {
        assert init[..k] == polls[..k] && init[k] == polls[k];
      }
    }
    if RestartsUnseen(c, s, init) && RestartUnseen(c, RunPolls(c, s, init), polls[|polls| - 1]) {
      forall k {:trigger polls[k]} | 0 <= k < |polls| ensures RestartUnseen(c, RunPolls(c, s, polls[..k]), polls[k]) {
        if k < |init| { assert init[..k] == polls[..k] && init[k] == polls[k]; } else { assert polls[..k] == init; }
      }
    }
  }

  lemma OrderFreeGrows(c: Config, s: Live, polls: seq<PollInput>)
    requires polls != []
    ensures var init, k := polls[..|polls| - 1], polls[|polls| - 1];
      OrderFreeRun(c, s, polls) <==> OrderFreeRun(c, s, init) && OrderFree(RunPolls(c, s, init), k.bar, k.now)
  {
    hide RunPolls, OrderFree;
    var init := polls[..|polls| - 1];
    if OrderFreeRun(c, s, polls) { OrderFreePrefix(c, s, polls, |init|); }
    if OrderFreeRun(c, s, init) && OrderFree(RunPolls(c, s, init), polls[|polls| - 1].bar, polls[|polls| - 1].now) {
      forall k {:trigger polls[k]} | 0 <= k < |polls|
        ensures OrderFree(RunPolls(c, s, polls[..k]), polls[k].bar, polls[k].now)
      {
        if k < |init| { assert init[..k] == polls[..k] && init[k] == polls[k]; } else { assert polls[..k] == init; }
      }
    }
  }

  lemma AlikeItself(s: Live)
    ensures Alike(s, s)
  {
  }

  /** And over a run: a restart before any of its polls makes no difference to that poll, if and only if every poll
      of the run is order-free. */
  lemma {:induction false} RestartsUnseenIff(c: Config, s: Live, polls: seq<PollInput>)
    requires Ready(s)
    ensures RestartsUnseen(c, s, polls) <==> OrderFreeRun(c, s, polls)
    ensures OrderFreeRun(c, s, polls) ==> Ready(RunPolls(c, s, polls))
  {
    hide Ready, RestartUnseen, OrderFree, PassOf, After, Alike, RestartsUnseen, OrderFreeRun, RunPolls;
    if polls == [] {
      NoPolls(c, s);
    } else {
      var init := polls[..|polls| - 1];
      RestartsUnseenIff(c, s, init);
      UnseenGrows(c, s, polls);
      OrderFreeGrows(c, s, polls);
      if OrderFreeRun(c, s, init) { RestartUnseenIff(c, RunPolls(c, s, init), polls[|polls| - 1]); }
      AlikeItself(s);
      if OrderFreeRun(c, s, polls) { RunsAlike(c, s, s, polls); }
    }
  }

  lemma NoPolls(c: Config, s: Live)
    ensures RestartsUnseen(c, s, []) && OrderFreeRun(c, s, []) && RunPolls(c, s, []) == s
  {
  }
}

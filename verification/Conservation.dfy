/** Conservation over a backtest run: its ledger rows audit to exactly the open trades, and equity is what it was plus
    the realised P&L. */
module Conservation {
  import opened Prelude
  import opened Bars
  import opened Records
  import opened Backtest
  import Features
  import Rules

  // ---------------------------------------------------------------- auditing a ledger on its own

  /** What an open row promises about its trade. */
  datatype Terms = Terms(signalId: int, direction: Direction, price: real, sizeUnits: real)

  function TermsOf(e: LedgerEntry): Terms {
    Terms(e.signalId, e.direction, e.price, e.sizeUnits)
  }

  predicate HasTrade(rows: seq<LedgerEntry>, id: int) {
    exists i :: 0 <= i < |rows| && rows[i].tradeId == id
  }

  /** A close row settles an open one: same signal, direction and size, and the P&L that follows from
      the two prices and the closing commission. */
  predicate Settles(o: Terms, e: LedgerEntry) {
    && e.signalId == o.signalId && e.direction == o.direction && e.sizeUnits == o.sizeUnits
    && e.realisedPnl == Some(DirectionPnl(o.direction, o.price, e.price, o.sizeUnits) - e.commission)
  }

  /** Replay the rows. The result is the trades still open, or None when a row opens a trade twice or
      closes one that is not open on its terms. */
  function Audit(rows: seq<LedgerEntry>): Option<map<int, Terms>> {
    if rows == [] then Some(map[])
    else
      var init, e := rows[..|rows| - 1], rows[|rows| - 1];
      match Audit(init)
      case None => None
      case Some(book) =>
        if e.event.Opened? then (if HasTrade(init, e.tradeId) then None else Some(book[e.tradeId := TermsOf(e)]))
        else if e.tradeId in book && Settles(book[e.tradeId], e) then Some(book - {e.tradeId})
        else None
  }

  function PnlSum(rows: seq<LedgerEntry>): real {
    if rows == [] then 0.0
    else
      var last := rows[|rows| - 1];
      PnlSum(rows[..|rows| - 1]) + if last.realisedPnl.Some? then last.realisedPnl.value else 0.0
  }

  function Count(rows: seq<LedgerEntry>, event: LedgerEvent): int {
    if rows == [] then 0 else Count(rows[..|rows| - 1], event) + if rows[|rows| - 1].event == event then 1 else 0
  }

  function Units(rows: seq<LedgerEntry>, event: LedgerEvent): real {
    if rows == [] then 0.0
    else Units(rows[..|rows| - 1], event) + if rows[|rows| - 1].event == event then rows[|rows| - 1].sizeUnits else 0.0
  }

  /** The ids an audited ledger can mention. */
  lemma {:induction false} AuditedIds(rows: seq<LedgerEntry>)
    requires Audit(rows).Some?
    ensures forall id :: id in Audit(rows).value ==> HasTrade(rows, id)
  {
    if rows != [] {
      var init, e := rows[..|rows| - 1], rows[|rows| - 1];
      AuditedIds(init);
      forall id | id in Audit(rows).value ensures HasTrade(rows, id) {
        if HasTrade(init, id) {
          var i :| 0 <= i < |init| && init[i].tradeId == id;
          assert rows[i].tradeId == id;
        } else {
          assert rows[|rows| - 1].tradeId == id;
        }
      }
    }
  }

  /** Two rows of one trade in an audited ledger are its open row and, later, a close row of equal
      size: hence exactly one open row and at most one close row per trade. */
  lemma {:induction false} AuditShape(rows: seq<LedgerEntry>, i: int, j: int)
    requires Audit(rows).Some? && 0 <= i < j < |rows| && rows[i].tradeId == rows[j].tradeId
    ensures rows[i].event.Opened? && rows[j].event.Closed? && Settles(TermsOf(rows[i]), rows[j])
    decreases |rows|
  {
    var init, e := rows[..|rows| - 1], rows[|rows| - 1];
    if j < |rows| - 1 {
      AuditShape(init, i, j);
    } else {
      assert HasTrade(init, e.tradeId) by { assert init[i].tradeId == e.tradeId; }
      OpenTermsAreTheRow(init, i);
    }
  }

  /** A row of a trade that is still open is its open row. */
  lemma {:induction false} OpenTermsAreTheRow(rows: seq<LedgerEntry>, i: int)
    requires Audit(rows).Some? && 0 <= i < |rows| && rows[i].tradeId in Audit(rows).value
    ensures rows[i].event.Opened? && Audit(rows).value[rows[i].tradeId] == TermsOf(rows[i])
    decreases |rows|
  {
    var init, e := rows[..|rows| - 1], rows[|rows| - 1];
    if i < |rows| - 1 {
      assert init[i] == rows[i];
      if e.tradeId == rows[i].tradeId {
        assert HasTrade(init, e.tradeId);
      } else {
        OpenTermsAreTheRow(init, i);
      }
    }
  }

  /** Every close row comes after the open row of its trade. */
  lemma {:induction false} AuditedCloseHasOpen(rows: seq<LedgerEntry>, j: int) returns (i: int)
    requires Audit(rows).Some? && 0 <= j < |rows| && rows[j].event.Closed?
    ensures 0 <= i < j && rows[i].event.Opened? && rows[i].tradeId == rows[j].tradeId
    decreases |rows|
  {
    var init, e := rows[..|rows| - 1], rows[|rows| - 1];
    if j < |rows| - 1 {
      i := AuditedCloseHasOpen(init, j);
    } else {
      AuditedIds(init);
      i :| 0 <= i < |init| && init[i].tradeId == e.tradeId;
      OpenTermsAreTheRow(init, i);
    }
  }

  // ---------------------------------------------------------------- the open list as a book

  predicate DistinctIds(live: seq<OpenTrade>) {
    forall i, j :: 0 <= i < j < |live| ==> live[i].tradeId != live[j].tradeId
  }

  function TradeTerms(t: OpenTrade): Terms {
    Terms(t.signalId, t.direction, t.entryPrice, t.sizeUnits)
  }

  function BookOf(live: seq<OpenTrade>): map<int, Terms> {
    if live == [] then map[] else BookOf(live[..|live| - 1])[live[|live| - 1].tradeId := TradeTerms(live[|live| - 1])]
  }

  function Held(live: seq<OpenTrade>): real {
    if live == [] then 0.0 else Held(live[..|live| - 1]) + live[|live| - 1].sizeUnits
  }

  lemma {:induction false} BookOfConcat(a: seq<OpenTrade>, b: seq<OpenTrade>)
    ensures BookOf(a + b) == BookOf(a) + BookOf(b)
    ensures Held(a + b) == Held(a) + Held(b)
  {
    if b == [] {
      assert a + b == a;
    } else {
      assert (a + b)[..|a + b| - 1] == a + b[..|b| - 1];
      BookOfConcat(a, b[..|b| - 1]);
    }
  }

  lemma {:induction false} BookOfIds(live: seq<OpenTrade>)
    ensures forall id :: id in BookOf(live) <==> exists i :: 0 <= i < |live| && live[i].tradeId == id
  {
    if live != [] {
      var init := live[..|live| - 1];
      BookOfIds(init);
      forall id ensures id in BookOf(live) <==> exists i :: 0 <= i < |live| && live[i].tradeId == id {
        if i :| 0 <= i < |live| && live[i].tradeId == id {
          if i < |init| { assert init[i].tradeId == id; }
        }
        if id in BookOf(live) {
          if id == live[|live| - 1].tradeId {
            assert live[|live| - 1].tradeId == id;
          } else {
            assert id in BookOf(init);
            var i :| 0 <= i < |init| && init[i].tradeId == id;
            assert live[i].tradeId == id;
          }
        }
      }
    }
  }

  lemma SingleBook(t: OpenTrade)
    ensures BookOf([t]) == map[t.tradeId := TradeTerms(t)] && Held([t]) == t.sizeUnits
  {
    assert [t][..0] == [];
  }

  lemma MiddleIds(a: seq<OpenTrade>, t: OpenTrade, b: seq<OpenTrade>)
    requires DistinctIds(a + [t] + b)
    ensures t.tradeId !in BookOf(a) && t.tradeId !in BookOf(b)
  {
    BookOfIds(a);
    BookOfIds(b);
    var all := a + [t] + b;
    assert all[|a|] == t;
    forall i | 0 <= i < |a| ensures a[i].tradeId != t.tradeId { assert all[i] == a[i]; }
    forall i | 0 <= i < |b| ensures b[i].tradeId != t.tradeId { assert all[|a| + 1 + i] == b[i]; }
  }

  /** The list a, t, b as a book. */
  lemma MiddleOut(a: seq<OpenTrade>, t: OpenTrade, b: seq<OpenTrade>)
    requires DistinctIds(a + [t] + b)
    ensures t.tradeId in BookOf(a + [t] + b) && BookOf(a + [t] + b)[t.tradeId] == TradeTerms(t)
    ensures BookOf(a + b) == BookOf(a + [t] + b) - {t.tradeId}
    ensures Held(a + [t] + b) == Held(a + b) + t.sizeUnits
    ensures DistinctIds(a + b)
  {
    hide BookOf, Held, DistinctIds;
    BookOfConcat(a + [t], b);
    BookOfConcat(a, [t]);
    BookOfConcat(a, b);
    SingleBook(t);
    MiddleIds(a, t, b);
    DistinctWithout(a, t, b);
  }

  lemma DistinctWithout(a: seq<OpenTrade>, t: OpenTrade, b: seq<OpenTrade>)
    requires DistinctIds(a + [t] + b)
    ensures DistinctIds(a + b)
  {
    var all, r := a + [t] + b, a + b;
    forall i, j | 0 <= i < j < |r| ensures r[i].tradeId != r[j].tradeId {
      var p := if i < |a| then i else i + 1;
      var q := if j < |a| then j else j + 1;
      assert all[p] == r[i] && all[q] == r[j];
    }
  }

  lemma MiddleUpdated(a: seq<OpenTrade>, t: OpenTrade, u: OpenTrade, b: seq<OpenTrade>)
    requires u.tradeId == t.tradeId && TradeTerms(u) == TradeTerms(t)
    ensures BookOf(a + [u] + b) == BookOf(a + [t] + b)
    ensures Held(a + [u] + b) == Held(a + [t] + b)
    ensures DistinctIds(a + [t] + b) ==> DistinctIds(a + [u] + b)
  {
    BookOfConcat(a + [t], b);
    BookOfConcat(a, [t]);
    BookOfConcat(a + [u], b);
    BookOfConcat(a, [u]);
    SingleBook(t);
    SingleBook(u);
    var p, q := a + [t] + b, a + [u] + b;
    assert forall i :: 0 <= i < |p| ==> p[i].tradeId == q[i].tradeId;
  }

  // ---------------------------------------------------------------- the invariant

  /** This run's rows: those after the first n0. */
  function Rows(s: State, n0: nat): seq<LedgerEntry>
    requires n0 <= |s.ledger|
  {
    s.ledger[n0..]
  }

  /** `live` is the open list, or during a management pass survivors followed by trades still to be
      looked at. */
  ghost predicate Balanced(s: State, n0: nat, e0: real, live: seq<OpenTrade>) {
    && n0 <= |s.ledger|
    && DistinctIds(live)
    && Audit(Rows(s, n0)) == Some(BookOf(live))
    && (forall i :: 0 <= i < |Rows(s, n0)| ==> Rows(s, n0)[i].tradeId < s.nextId)
    && s.equity == e0 + PnlSum(Rows(s, n0))
    && Count(Rows(s, n0), Opened) - Count(Rows(s, n0), Closed) == |live|
    && Units(Rows(s, n0), Opened) - Units(Rows(s, n0), Closed) == Held(live)
  }

  lemma AppendedRow(s: seq<LedgerEntry>, n0: nat, e: LedgerEntry)
    requires n0 <= |s|
    ensures (s + [e])[n0..] == s[n0..] + [e]
    ensures (s[n0..] + [e])[..|s[n0..]|] == s[n0..]
  {
  }

  lemma CloseAudits(rows: seq<LedgerEntry>, book: map<int, Terms>, row: LedgerEntry)
    requires Audit(rows) == Some(book) && row.event.Closed? && row.tradeId in book && Settles(book[row.tradeId], row)
    ensures Audit(rows + [row]) == Some(book - {row.tradeId})
    ensures PnlSum(rows + [row]) == PnlSum(rows) + row.realisedPnl.value
    ensures Count(rows + [row], Closed) == Count(rows, Closed) + 1 && Count(rows + [row], Opened) == Count(rows, Opened)
    ensures Units(rows + [row], Closed) == Units(rows, Closed) + row.sizeUnits
    ensures Units(rows + [row], Opened) == Units(rows, Opened)
  {
    assert (rows + [row])[..|rows|] == rows;
  }

  lemma CloseBalances(c: Config, s: State, n0: nat, e0: real, a: seq<OpenTrade>, t: OpenTrade, b: seq<OpenTrade>,
    bar: Bar)
    requires Balanced(s, n0, e0, a + [t] + b)
    ensures Balanced(CloseOne(c, s, t, bar), n0, e0, a + b)
  {
    var row := CloseRow(c, t, bar, s.nextId);
    AppendedRow(s.ledger, n0, row);
    MiddleOut(a, t, b);
    var rows := Rows(s, n0);
    AuditedIds(rows);
    assert row.tradeId < s.nextId;
    CloseAudits(rows, BookOf(a + [t] + b), row);
  }

  lemma SurvivorBalances(s: State, n0: nat, e0: real, a: seq<OpenTrade>, t: OpenTrade, b: seq<OpenTrade>, bar: Bar)
    requires Balanced(s, n0, e0, a + [t] + b)
    ensures Balanced(s.(open := s.open + [WithExcursion(t, bar)]), n0, e0, a + [WithExcursion(t, bar)] + b)
  {
    MiddleUpdated(a, t, WithExcursion(t, bar), b);
  }

  lemma {:induction false} ManageBalances(c: Config, s: State, n0: nat, e0: real, trades: seq<OpenTrade>, bar: Bar,
    i: int, k: nat)
    requires Balanced(s, n0, e0, trades) && k <= |trades|
    ensures Balanced(ManageTo(c, s, trades, bar, i, k), n0, e0, ManageTo(c, s, trades, bar, i, k).open + trades[k..])
  {
    hide CloseOne, WithExcursion, Balanced;
    if k == 0 {
      assert [] + trades[0..] == trades;
      ForgetOpen(s, n0, e0, trades);
    } else {
      ManageBalances(c, s, n0, e0, trades, bar, i, k - 1);
      var m, t, rest := ManageTo(c, s, trades, bar, i, k - 1), trades[k - 1], trades[k..];
      assert m.open + trades[k - 1..] == m.open + [t] + rest;
      if CheckExit(t, bar, i).None? {
        SurvivorBalances(m, n0, e0, m.open, t, rest, bar);
      } else {
        CloseBalances(c, m, n0, e0, m.open, t, rest, bar);
        CloseKeepsOpen(c, m, t, bar);
      }
    }
  }

  lemma ForgetOpen(s: State, n0: nat, e0: real, live: seq<OpenTrade>)
    requires Balanced(s, n0, e0, live)
    ensures Balanced(s.(open := []), n0, e0, live)
  {
  }

  lemma PublishBalances(s: State, n0: nat, e0: real, row: SignalRow)
    requires Balanced(s, n0, e0, s.open)
    ensures Balanced(Publish(s, row), n0, e0, Publish(s, row).open)
  {
  }

  lemma EnterBalances(c: Config, s: State, n0: nat, e0: real, v: Rules.Verdict, fv: Features.FeatureVector, b: Bar,
    i: int, signalId: int)
    requires Balanced(s, n0, e0, s.open) && MayEnter(c, s.equity, |s.open|, v)
    ensures Balanced(Enter(c, s, v, fv, b, i, signalId), n0, e0, Enter(c, s, v, fv, b, i, signalId).open)
  {
    hide GateDecision;
    var e := Enter(c, s, v, fv, b, i, signalId);
    var t, row := e.open[|s.open|], e.ledger[|s.ledger|];
    var rows := Rows(s, n0);
    AppendedRow(s.ledger, n0, row);
    BookOfConcat(s.open, [t]);
    SingleBook(t);
    assert !HasTrade(rows, t.tradeId);
    FreshDistinct(s.open, t, rows);
    assert Audit(rows + [row]) == Some(BookOf(s.open + [t]));
  }

  /** A trade unknown to the audited ledger is not in the open list. */
  lemma FreshDistinct(live: seq<OpenTrade>, t: OpenTrade, rows: seq<LedgerEntry>)
    requires DistinctIds(live) && Audit(rows) == Some(BookOf(live)) && !HasTrade(rows, t.tradeId)
    ensures DistinctIds(live + [t])
  {
    BookOfIds(live);
    AuditedIds(rows);
    forall i | 0 <= i < |live| ensures live[i].tradeId != t.tradeId {
      assert live[i].tradeId in BookOf(live);
    }
  }

  lemma StepBalances(c: Config, s: State, n0: nat, e0: real, b: Bar, r: Reading, i: nat)
    requires Balanced(s, n0, e0, s.open)
    ensures Balanced(BarStep(c, s, b, r, i), n0, e0, BarStep(c, s, b, r, i).open)
  {
    hide Balanced, Enter, ManageTo, MayEnter, SignalOf;
    if !s.halted {
      ManageBalances(c, s, n0, e0, s.open, b, i, |s.open|);
      var m := Manage(c, s, b, i);
      assert m.open + s.open[|s.open|..] == m.open;
      HaltBalances(m, n0, e0);
      if r.verdict.Taken? || r.verdict.TurnedDown? {
        var row := SignalOf(m.nextId, b.ts + c.seconds, r.verdict);
        PublishBalances(m, n0, e0, row);
        if MayEnter(c, Publish(m, row).equity, |Publish(m, row).open|, r.verdict) {
          EnterBalances(c, Publish(m, row), n0, e0, r.verdict, r.fv, b, i, m.nextId);
        }
      }
    }
  }

  lemma HaltBalances(s: State, n0: nat, e0: real)
    requires Balanced(s, n0, e0, s.open)
    ensures Balanced(s.(halted := true), n0, e0, s.open)
  {
  }

  /** Over every run, on any bars and readings, whatever earlier runs left in the ledger: this run's
      rows audit to exactly the open trades, equity is initial equity plus realised P&L, and rows,
      units and open trades balance. */
  lemma {:induction false} RunBalances(c: Config, bars: seq<Bar>, readings: seq<Reading>, s: State, k: nat)
    requires k <= |bars| == |readings| && s.open == []
    ensures var f := Replay(c, bars, readings, s, k); Balanced(f, |s.ledger|, s.equity, f.open)
  {
    hide BarStep;
    if k == 0 {
      assert s.ledger[|s.ledger|..] == [];
    } else {
      RunBalances(c, bars, readings, s, k - 1);
      StepBalances(c, Replay(c, bars, readings, s, k - 1), |s.ledger|, s.equity, bars[k - 1], readings[k - 1], k - 1);
    }
  }
}

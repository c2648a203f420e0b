/** Excursions are exact: MFE and MAE are the extremes, with zero, over exactly the bars after entry and before
    exit. */
module Excursions {
  import opened Prelude
  import opened Bars
  import opened Records
  import opened Backtest
  import Features
  import Rules

  function Favourable(d: Direction, entry: real, b: Bar): real {
    if d == Long then b.high - entry else entry - b.low
  }

  function Adverse(d: Direction, entry: real, b: Bar): real {
    if d == Long then b.low - entry else entry - b.high
  }

  /** The largest favourable excursion over bars lo..hi - 1, or zero. */
  function BestOver(d: Direction, entry: real, bars: seq<Bar>, lo: int, hi: int): real
    requires 0 <= lo && hi <= |bars|
    decreases hi - lo
  {
    if hi <= lo then 0.0 else Max(BestOver(d, entry, bars, lo, hi - 1), Favourable(d, entry, bars[hi - 1]))
  }

  /** The largest adverse excursion over bars lo..hi - 1, or zero. */
  function WorstOver(d: Direction, entry: real, bars: seq<Bar>, lo: int, hi: int): real
    requires 0 <= lo && hi <= |bars|
    decreases hi - lo
  {
    if hi <= lo then 0.0 else Min(WorstOver(d, entry, bars, lo, hi - 1), Adverse(d, entry, bars[hi - 1]))
  }

  /** They are the extremes they claim to be: bounds that are attained by zero or by a bar. */
  lemma {:induction false} ExtremesAreExtremes(d: Direction, entry: real, bars: seq<Bar>, lo: int, hi: int)
    requires 0 <= lo && hi <= |bars|
    ensures BestOver(d, entry, bars, lo, hi) >= 0.0 >= WorstOver(d, entry, bars, lo, hi)
    ensures forall j :: lo <= j < hi ==>
      WorstOver(d, entry, bars, lo, hi) <= Adverse(d, entry, bars[j])
        && Favourable(d, entry, bars[j]) <= BestOver(d, entry, bars, lo, hi)
    ensures BestOver(d, entry, bars, lo, hi) == 0.0
      || exists j :: lo <= j < hi && Favourable(d, entry, bars[j]) == BestOver(d, entry, bars, lo, hi)
    ensures WorstOver(d, entry, bars, lo, hi) == 0.0
      || exists j :: lo <= j < hi && Adverse(d, entry, bars[j]) == WorstOver(d, entry, bars, lo, hi)
    decreases hi - lo
  {
    if hi > lo {
      ExtremesAreExtremes(d, entry, bars, lo, hi - 1);
      assert Favourable(d, entry, bars[hi - 1]) <= BestOver(d, entry, bars, lo, hi);
      assert Adverse(d, entry, bars[hi - 1]) >= WorstOver(d, entry, bars, lo, hi);
    }
  }

  predicate TouchesStop(t: OpenTrade, b: Bar) {
    if t.direction == Long then b.low <= t.stopPrice else b.high >= t.stopPrice
  }

  predicate TouchesTarget(t: OpenTrade, b: Bar) {
    if t.direction == Long then b.high >= t.targetPrice else b.low <= t.targetPrice
  }

  /** Up to date through bar k - 1, and no bar since entry touched stop or target. */
  ghost predicate Exact(t: OpenTrade, bars: seq<Bar>, k: int) {
    && 0 <= t.openedBarIndex < k <= |bars|
    && t.mfe == BestOver(t.direction, t.entryPrice, bars, t.openedBarIndex + 1, k)
    && t.mae == WorstOver(t.direction, t.entryPrice, bars, t.openedBarIndex + 1, k)
    && (forall j :: t.openedBarIndex < j < k ==> !TouchesStop(t, bars[j]) && !TouchesTarget(t, bars[j]))
  }

  function TargetDistance(t: OpenTrade): real {
    if t.direction == Long then t.targetPrice - t.entryPrice else t.entryPrice - t.targetPrice
  }

  function StopDistance(t: OpenTrade): real {
    if t.direction == Long then t.entryPrice - t.stopPrice else t.stopPrice - t.entryPrice
  }

  /** The excursions of an open trade stay strictly inside target and stop exactly when these lie on
      their proper sides of the fill price. */
  lemma InsideIffProperSides(t: OpenTrade, bars: seq<Bar>, k: int)
    requires Exact(t, bars, k)
    ensures t.mfe < TargetDistance(t) <==> TargetDistance(t) > 0.0
    ensures t.mae > -StopDistance(t) <==> StopDistance(t) > 0.0
  {
    var lo := t.openedBarIndex + 1;
    ExtremesAreExtremes(t.direction, t.entryPrice, bars, lo, k);
    if t.mfe != 0.0 {
      var j :| lo <= j < k && Favourable(t.direction, t.entryPrice, bars[j]) == t.mfe;
      assert !TouchesTarget(t, bars[j]);
    }
    if t.mae != 0.0 {
      var j :| lo <= j < k && Adverse(t.direction, t.entryPrice, bars[j]) == t.mae;
      assert !TouchesStop(t, bars[j]);
    }
  }

  lemma SurvivorIsExact(t: OpenTrade, bars: seq<Bar>, i: int)
    requires 0 <= i < |bars| && Exact(t, bars, i) && CheckExit(t, bars[i], i).None?
    ensures Exact(WithExcursion(t, bars[i]), bars, i + 1)
  {
    var u := WithExcursion(t, bars[i]);
    assert !TouchesStop(t, bars[i]) && !TouchesTarget(t, bars[i]);
    forall j | u.openedBarIndex < j < i + 1 ensures !TouchesStop(u, bars[j]) && !TouchesTarget(u, bars[j]) {
      assert !TouchesStop(t, bars[j]) && !TouchesTarget(t, bars[j]);
    }
  }

  // ---------------------------------------------------------------- close rows

  /** Row o opened the trade at the close of bar a, at its fill price. */
  ghost predicate OpenedAt(c: Config, bars: seq<Bar>, row: LedgerEntry, id: int, d: Direction, price: real, a: int) {
    && row.tradeId == id && row.event.Opened? && row.direction == d && row.price == price
    && 0 <= a < |bars| && row.ts == bars[a].ts + c.seconds
  }

  /** A close row at the close of bar e carries the extremes over the bars strictly between its trade's
      entry bar a and e. */
  ghost predicate ClosedExactly(c: Config, bars: seq<Bar>, open: LedgerEntry, row: LedgerEntry, a: int, e: int) {
    && 0 <= a < e < |bars|
    && OpenedAt(c, bars, open, row.tradeId, row.direction, open.price, a)
    && row.ts == bars[e].ts + c.seconds
    && row.mfe == Some(BestOver(row.direction, open.price, bars, a + 1, e))
    && row.mae == Some(WorstOver(row.direction, open.price, bars, a + 1, e))
  }

  ghost predicate RowIsExact(c: Config, bars: seq<Bar>, ledger: seq<LedgerEntry>, n0: nat, j: int)
    requires 0 <= j < |ledger|
  {
    ledger[j].event.Closed? ==>
      exists o, a, e :: n0 <= o < j && ClosedExactly(c, bars, ledger[o], ledger[j], a, e)
  }

  ghost predicate HasOpenRow(c: Config, bars: seq<Bar>, ledger: seq<LedgerEntry>, n0: nat, t: OpenTrade) {
    exists o :: n0 <= o < |ledger| && OpenedAt(c, bars, ledger[o], t.tradeId, t.direction, t.entryPrice,
      t.openedBarIndex)
  }

  ghost predicate RowsExact(c: Config, bars: seq<Bar>, ledger: seq<LedgerEntry>, n0: nat) {
    n0 <= |ledger| && forall j :: n0 <= j < |ledger| ==> RowIsExact(c, bars, ledger, n0, j)
  }

  ghost predicate TradesExact(c: Config, bars: seq<Bar>, ledger: seq<LedgerEntry>, n0: nat, trades: seq<OpenTrade>,
    k: int) {
    forall i :: 0 <= i < |trades| ==> Exact(trades[i], bars, k) && HasOpenRow(c, bars, ledger, n0, trades[i])
  }

  lemma LaterRowsKeep(c: Config, bars: seq<Bar>, ledger: seq<LedgerEntry>, row: LedgerEntry, n0: nat)
    requires RowsExact(c, bars, ledger, n0)
    ensures forall j :: n0 <= j < |ledger| ==> RowIsExact(c, bars, ledger + [row], n0, j)
    ensures row.event.Opened? ==> RowsExact(c, bars, ledger + [row], n0)
  {
    forall j | n0 <= j < |ledger| ensures RowIsExact(c, bars, ledger + [row], n0, j) {
      assert RowIsExact(c, bars, ledger, n0, j);
      if ledger[j].event.Closed? {
        var o, a, e :| n0 <= o < j && ClosedExactly(c, bars, ledger[o], ledger[j], a, e);
        assert ClosedExactly(c, bars, (ledger + [row])[o], (ledger + [row])[j], a, e);
      }
    }
  }

  lemma LaterRowsKeepTrades(c: Config, bars: seq<Bar>, ledger: seq<LedgerEntry>, row: LedgerEntry, n0: nat,
    trades: seq<OpenTrade>, k: int)
    requires TradesExact(c, bars, ledger, n0, trades, k)
    ensures TradesExact(c, bars, ledger + [row], n0, trades, k)
  {
    forall i | 0 <= i < |trades| ensures HasOpenRow(c, bars, ledger + [row], n0, trades[i]) {
      var t := trades[i];
      assert HasOpenRow(c, bars, ledger, n0, t);
      var o :| n0 <= o < |ledger| && OpenedAt(c, bars, ledger[o], t.tradeId, t.direction, t.entryPrice,
        t.openedBarIndex);
      assert (ledger + [row])[o] == ledger[o];
    }
  }

  lemma CloseIsExact(c: Config, s: State, bars: seq<Bar>, n0: nat, t: OpenTrade, i: int)
    requires 0 <= i < |bars| && RowsExact(c, bars, s.ledger, n0)
    requires Exact(t, bars, i) && HasOpenRow(c, bars, s.ledger, n0, t)
    ensures RowsExact(c, bars, CloseOne(c, s, t, bars[i]).ledger, n0)
  {
    hide CloseFill, ClosePnl;
    var row := CloseRow(c, t, bars[i], s.nextId);
    LaterRowsKeep(c, bars, s.ledger, row, n0);
    var o :| n0 <= o < |s.ledger| && OpenedAt(c, bars, s.ledger[o], t.tradeId, t.direction, t.entryPrice,
      t.openedBarIndex);
    var ledger := s.ledger + [row];
    assert ClosedExactly(c, bars, ledger[o], ledger[|s.ledger|], t.openedBarIndex, i);
    assert RowIsExact(c, bars, ledger, n0, |s.ledger|);
  }

  // ---------------------------------------------------------------- over a run

  lemma {:induction false} ManageIsExact(c: Config, s: State, bars: seq<Bar>, n0: nat, trades: seq<OpenTrade>, i: int,
    k: nat)
    requires 0 <= i < |bars| && k <= |trades|
    requires RowsExact(c, bars, s.ledger, n0) && TradesExact(c, bars, s.ledger, n0, trades, i)
    ensures var m := ManageTo(c, s, trades, bars[i], i, k);
      && RowsExact(c, bars, m.ledger, n0)
      && TradesExact(c, bars, m.ledger, n0, m.open, i + 1)
      && TradesExact(c, bars, m.ledger, n0, trades, i)
  {
    hide RowsExact, CloseRow, WithExcursion, CheckExit, Exact, HasOpenRow;
    if k > 0 {
      ManageIsExact(c, s, bars, n0, trades, i, k - 1);
      var m, t := ManageTo(c, s, trades, bars[i], i, k - 1), trades[k - 1];
      if CheckExit(t, bars[i], i).None? {
        SurvivorIsExact(t, bars, i);
        SurvivorKeepsRow(c, bars, m.ledger, n0, t, bars[i]);
      } else {
        CloseIsExact(c, m, bars, n0, t, i);
        var row := CloseRow(c, t, bars[i], m.nextId);
        LaterRowsKeepTrades(c, bars, m.ledger, row, n0, m.open, i + 1);
        LaterRowsKeepTrades(c, bars, m.ledger, row, n0, trades, i);
      }
    }
  }

  lemma SurvivorKeepsRow(c: Config, bars: seq<Bar>, ledger: seq<LedgerEntry>, n0: nat, t: OpenTrade, b: Bar)
    requires HasOpenRow(c, bars, ledger, n0, t)
    ensures HasOpenRow(c, bars, ledger, n0, WithExcursion(t, b))
  {
  }

  lemma EnterIsExact(c: Config, s: State, bars: seq<Bar>, n0: nat, v: Rules.Verdict, fv: Features.FeatureVector, i: int,
    signalId: int)
    requires 0 <= i < |bars| && MayEnter(c, s.equity, |s.open|, v)
    requires RowsExact(c, bars, s.ledger, n0) && TradesExact(c, bars, s.ledger, n0, s.open, i + 1)
    ensures var e := Enter(c, s, v, fv, bars[i], i, signalId);
      RowsExact(c, bars, e.ledger, n0) && TradesExact(c, bars, e.ledger, n0, e.open, i + 1)
  {
    hide GateDecision, RowsExact, OpenOrder;
    var e := Enter(c, s, v, fv, bars[i], i, signalId);
    var row, t := e.ledger[|s.ledger|], e.open[|s.open|];
    assert e.ledger == s.ledger + [row] && e.open == s.open + [t];
    LaterRowsKeep(c, bars, s.ledger, row, n0);
    LaterRowsKeepTrades(c, bars, s.ledger, row, n0, s.open, i + 1);
    assert OpenedAt(c, bars, e.ledger[|s.ledger|], t.tradeId, t.direction, t.entryPrice, i);
    RowsCounted(c, bars, s.ledger, n0);
    assert HasOpenRow(c, bars, e.ledger, n0, t);
    assert Exact(t, bars, i + 1);
  }

  lemma RowsCounted(c: Config, bars: seq<Bar>, ledger: seq<LedgerEntry>, n0: nat)
    requires RowsExact(c, bars, ledger, n0)
    ensures n0 <= |ledger|
  {
  }

  lemma StepIsExact(c: Config, s: State, bars: seq<Bar>, n0: nat, r: Reading, i: nat)
    requires i < |bars| && !s.halted
    requires RowsExact(c, bars, s.ledger, n0) && TradesExact(c, bars, s.ledger, n0, s.open, i)
    ensures var f := BarStep(c, s, bars[i], r, i);
      RowsExact(c, bars, f.ledger, n0) && TradesExact(c, bars, f.ledger, n0, f.open, i + 1)
  {
    hide RowsExact, TradesExact, Enter, ManageTo, MayEnter, SignalOf;
    ManageIsExact(c, s, bars, n0, s.open, i, |s.open|);
    var m := Manage(c, s, bars[i], i);
    if r.verdict.Taken? || r.verdict.TurnedDown? {
      var p := Publish(m, SignalOf(m.nextId, bars[i].ts + c.seconds, r.verdict));
      if MayEnter(c, p.equity, |p.open|, r.verdict) {
        EnterIsExact(c, p, bars, n0, r.verdict, r.fv, i, m.nextId);
      }
    }
  }

  /** After every bar of every run: each open trade's MFE and MAE are the extremes over exactly the bars
      since its entry, and each close row carries the extremes over exactly the bars between entry and
      exit. */
  lemma {:induction false} RunIsExact(c: Config, bars: seq<Bar>, readings: seq<Reading>, s: State, k: nat)
    requires k <= |bars| == |readings| && s.open == []
    ensures var f := Replay(c, bars, readings, s, k);
      && RowsExact(c, bars, f.ledger, |s.ledger|)
      && (!f.halted ==> TradesExact(c, bars, f.ledger, |s.ledger|, f.open, k))
  {
    hide BarStep, RowIsExact;
    if k > 0 {
      RunIsExact(c, bars, readings, s, k - 1);
      var p := Replay(c, bars, readings, s, k - 1);
      if p.halted {
        HaltedStays(c, p, bars[k - 1], readings[k - 1], k - 1);
      } else {
        StepIsExact(c, p, bars, |s.ledger|, readings[k - 1], k - 1);
      }
    }
  }
}

/** What a run publishes and when it enters, exactly, read off the verdicts. */
module Decisions {
  import opened Prelude
  import opened Bars
  import opened Records
  import opened Backtest
  import opened Conservation
  import Entries
  import Exits
  import Features
  import RiskGate
  import Rules

  /** A verdict that is published: taken, or turned down. */
  predicate Speaks(v: Rules.Verdict) {
    v.Taken? || v.TurnedDown?
  }

  /** The row of a verdict: taken with its levels and an outcome still open, or rejected with its reason. */
  predicate Tells(row: SignalRow, v: Rules.Verdict, ts: int) {
    && Speaks(v) && row.ts == ts && row.direction == v.direction && row.taken == v.Taken?
    && row.mae == row.mfe == row.realisedR == None
    && (v.Taken? ==> row.entry == Some(v.entry) && row.stop == Some(v.stop) && row.target == Some(v.target))
    && (v.Taken? ==> row.reason == None && row.outcome == Some(Open))
    && (v.TurnedDown? ==> row.reason == Some(v.reason) && row.entry == row.stop == row.target == None)
    && (v.TurnedDown? ==> row.outcome == None)
  }

  lemma SignalTells(id: int, ts: int, v: Rules.Verdict)
    requires Speaks(v)
    ensures Tells(SignalOf(id, ts, v), v, ts)
  {
  }

  // ---------------------------------------------------------------- what is published

  ghost predicate Raises(readings: seq<Reading>, k: int) {
    exists e :: 0 <= e < k && e < |readings| && readings[e].verdict.Raised?
  }

  /** The bars, up to the first error, on which the verdict is one to publish. */
  ghost function Spoken(readings: seq<Reading>, k: nat): seq<nat>
    requires k <= |readings|
  {
    if k == 0 then []
    else if Speaks(readings[k - 1].verdict) && !Raises(readings, k - 1) then Spoken(readings, k - 1) + [k - 1]
    else Spoken(readings, k - 1)
  }

  lemma ManageIsQuiet(c: Config, s: State, b: Bar, i: int)
    ensures Manage(c, s, b, i).published == s.published && Manage(c, s, b, i).halted == s.halted
  {
    Exits.ManageDeals(c, s, s.open, b, i, |s.open|);
  }

  lemma StepSpeaks(c: Config, s: State, b: Bar, r: Reading, i: nat)
    requires !s.halted
    ensures var f, n := BarStep(c, s, b, r, i), |s.published|;
      && (f.halted <==> r.verdict.Raised?) && s.published <= f.published
      && |f.published| == n + (if Speaks(r.verdict) then 1 else 0)
      && (Speaks(r.verdict) ==> Tells(f.published[n], r.verdict, b.ts + c.seconds))
  {
    hide ManageTo, GateDecision, OpenOrder, SignalOf, Tells;
    ManageIsQuiet(c, s, b, i);
    if Speaks(r.verdict) { SignalTells(Manage(c, s, b, i).nextId, b.ts + c.seconds, r.verdict); }
  }

  /** The row tells the verdict of bar e. */
  predicate TellsAt(c: Config, bars: seq<Bar>, readings: seq<Reading>, row: SignalRow, e: nat)
    requires |bars| == |readings|
  {
    e < |bars| && Tells(row, readings[e].verdict, bars[e].ts + c.seconds)
  }

  /** The rows from n on tell the verdicts of these bars. */
  ghost predicate RowsTell(c: Config, bars: seq<Bar>, readings: seq<Reading>, published: seq<SignalRow>, n: nat,
    spoken: seq<nat>)
    requires |bars| == |readings|
  {
    && |published| == n + |spoken|
    && forall j {:trigger spoken[j]} :: 0 <= j < |spoken| ==>
      TellsAt(c, bars, readings, published[n + j], spoken[j])
  }

  ghost predicate PublishedAre(c: Config, bars: seq<Bar>, readings: seq<Reading>, s: State, f: State, k: nat)
    requires k <= |bars| == |readings|
  {
    s.published <= f.published && RowsTell(c, bars, readings, f.published, |s.published|, Spoken(readings, k))
  }

  lemma RaisesGrows(readings: seq<Reading>, k: nat)
    requires k < |readings|
    ensures Raises(readings, k + 1) <==> Raises(readings, k) || readings[k].verdict.Raised?
  {
    if readings[k].verdict.Raised? { assert Raises(readings, k + 1); }
  }

  lemma OneMoreTells(c: Config, bars: seq<Bar>, readings: seq<Reading>, published: seq<SignalRow>, n: nat,
    spoken: seq<nat>, row: SignalRow, e: nat)
    requires e < |bars| == |readings| && RowsTell(c, bars, readings, published, n, spoken)
    requires Tells(row, readings[e].verdict, bars[e].ts + c.seconds)
    ensures RowsTell(c, bars, readings, published + [row], n, spoken + [e])
  {
    hide Tells;
    var more, rows := spoken + [e], published + [row];
    forall j {:trigger more[j]} | 0 <= j < |more|
      ensures TellsAt(c, bars, readings, rows[n + j], more[j])
    {
      if j < |spoken| { assert more[j] == spoken[j] && rows[n + j] == published[n + j]; }
    }
  }

  lemma PublishesOneMore(c: Config, bars: seq<Bar>, readings: seq<Reading>, s: State, p: State, f: State, k: nat)
    requires k < |bars| == |readings| && PublishedAre(c, bars, readings, s, p, k)
    requires if Raises(readings, k) then f == p else f == BarStep(c, p, bars[k], readings[k], k) && !p.halted
    ensures PublishedAre(c, bars, readings, s, f, k + 1)
  {
    hide BarStep, Tells, Speaks, Raises, RowsTell;
    if !Raises(readings, k) {
      StepSpeaks(c, p, bars[k], readings[k], k);
      if Speaks(readings[k].verdict) {
        var row := f.published[|p.published|];
        assert f.published == p.published + [row];
        OneMoreTells(c, bars, readings, p.published, |s.published|, Spoken(readings, k), row, k);
      } else {
        assert f.published == p.published;
      }
    }
  }

  /** Over every run, on any bars and readings: the run ends at the first error of the rule layer; until then each bar
      with a verdict to publish publishes exactly one row, which tells it, in the order of the bars, and no other bar
      publishes any. */
  lemma {:induction false} RunPublishes(c: Config, bars: seq<Bar>, readings: seq<Reading>, s: State, k: nat)
    requires k <= |bars| == |readings| && !s.halted
    ensures var f := Replay(c, bars, readings, s, k);
      (f.halted <==> Raises(readings, k)) && PublishedAre(c, bars, readings, s, f, k)
  {
    hide BarStep, PublishedAre, Raises;
    if k == 0 {
      NothingPublished(c, bars, readings, s);
    } else {
      RunPublishes(c, bars, readings, s, k - 1);
      var p := Replay(c, bars, readings, s, k - 1);
      RaisesGrows(readings, k - 1);
      if p.halted {
        Exits.HaltedStops(c, p, bars[k - 1], readings[k - 1], k - 1);
      } else {
        StepSpeaks(c, p, bars[k - 1], readings[k - 1], k - 1);
      }
      PublishesOneMore(c, bars, readings, s, p, Replay(c, bars, readings, s, k), k - 1);
    }
  }

  lemma NothingPublished(c: Config, bars: seq<Bar>, readings: seq<Reading>, s: State)
    requires |bars| == |readings|
    ensures PublishedAre(c, bars, readings, s, s, 0) && !Raises(readings, 0)
  {
  }

  // ---------------------------------------------------------------- when a trade is opened

  /** An active strategy takes a signal, it has room for one trade more than the n open, and the new trade is within the
      gate's limits. */
  predicate Admits(c: Config, v: Rules.Verdict, n: int) {
    v.Taken? && c.tradeable && n < c.maxConcurrent && Entries.WithinLimits(c, n, v)
  }

  lemma MayEnterIffAdmits(c: Config, equity: real, n: nat, v: Rules.Verdict)
    ensures MayEnter(c, equity, n, v) <==> Admits(c, v, n)
  {
    hide GateDecision, Entries.WithinLimits;
    if v.Taken? { Entries.GateSeesOnlyTheNewTrade(c, equity, n, v); }
  }

  lemma CountOne(rows: seq<LedgerEntry>, row: LedgerEntry, event: LedgerEvent)
    ensures Count(rows + [row], event) == Count(rows, event) + if row.event == event then 1 else 0
    ensures PnlSum(rows + [row]) == PnlSum(rows) + if row.realisedPnl.Some? then row.realisedPnl.value else 0.0
  {
    assert (rows + [row])[..|rows|] == rows;
  }

  /** The rows of a management pass are close rows, one for each trade that leaves the list. */
  lemma {:induction false} ManageCounts(c: Config, s: State, trades: seq<OpenTrade>, b: Bar, i: int, k: nat)
    requires k <= |trades|
    ensures var m := ManageTo(c, s, trades, b, i, k);
      && s.ledger <= m.ledger
      && var rows := m.ledger[|s.ledger|..];
         && Count(rows, Closed) == k - |m.open| && Count(rows, Opened) == 0 && m.equity == s.equity + PnlSum(rows)
  {
    hide CheckExit, WithExcursion, ClosePnl, CloseFill, Count, PnlSum, RMultiple;
    if k == 0 {
      NoRows(s.ledger);
    } else {
      ManageCounts(c, s, trades, b, i, k - 1);
      var m, t := ManageTo(c, s, trades, b, i, k - 1), trades[k - 1];
      if CheckExit(t, b, i).Some? {
        var row := CloseRow(c, t, b, m.nextId);
        assert (m.ledger + [row])[|s.ledger|..] == m.ledger[|s.ledger|..] + [row];
        CountOne(m.ledger[|s.ledger|..], row, Closed);
        CountOne(m.ledger[|s.ledger|..], row, Opened);
      }
    }
  }

  lemma NoRows(ledger: seq<LedgerEntry>)
    ensures Count(ledger[|ledger|..], Closed) == 0 && Count(ledger[|ledger|..], Opened) == 0
    ensures PnlSum(ledger[|ledger|..]) == 0.0
  {
  }

  /** The rows that a bar adds. */
  function RowsOf(p: State, f: State): seq<LedgerEntry>
    requires |p.ledger| <= |f.ledger|
  {
    f.ledger[|p.ledger|..]
  }

  /** The open row of a trade for this verdict: its direction, and a size that risks the clamped percentage of the
      equity between the signal's entry and stop. */
  predicate Sized(c: Config, row: LedgerEntry, v: Rules.Verdict, equity: real)
    requires v.Taken?
  {
    && row.event.Opened? && row.direction == v.direction
    && row.sizeUnits * Abs(v.entry - v.stop) == equity * (Entries.ClampedRisk(c, v) / 100.0)
  }

  lemma EntrySized(c: Config, s: State, v: Rules.Verdict, fv: Features.FeatureVector, b: Bar, i: int, signalId: int)
    requires MayEnter(c, s.equity, |s.open|, v)
    ensures var f := Enter(c, s, v, fv, b, i, signalId);
      && f.ledger == s.ledger + [f.ledger[|s.ledger|]] && |f.open| == |s.open| + 1 && f.equity == s.equity
      && Sized(c, f.ledger[|s.ledger|], v, s.equity) && f.ledger[|s.ledger|].realisedPnl == None
  {
    hide RiskGate.TotalRisk, RiskGate.GroupRisk, RiskGate.FirstGroup;
    RiskGate.ApprovalRespectsLimits(c.limits, c.sizer, RiskGate.Proposal(c.symbol, v.direction, v.entry, v.stop),
      RiskGate.Portfolio(s.equity, ShownBook(c, |s.open|), 0.0, 0.0));
  }

  ghost predicate EntersOn(c: Config, p: State, f: State, r: Reading) {
    && |p.ledger| <= |f.ledger|
    && var rows := RowsOf(p, f);
       && f.equity == p.equity + PnlSum(rows)
       && Count(rows, Opened) == (if Admits(c, r.verdict, |p.open| - Count(rows, Closed)) then 1 else 0)
       && (Count(rows, Opened) == 1 ==> r.verdict.Taken? && Sized(c, f.ledger[|f.ledger| - 1], r.verdict, f.equity))
  }

  lemma StepEnters(c: Config, p: State, b: Bar, r: Reading, i: nat)
    requires !p.halted
    ensures EntersOn(c, p, BarStep(c, p, b, r, i), r)
  {
    hide ManageTo, Enter, MayEnter, Admits, SignalOf, Count, PnlSum, Sized;
    var m, f := Manage(c, p, b, i), BarStep(c, p, b, r, i);
    ManageCounts(c, p, p.open, b, i, |p.open|);
    MayEnterIffAdmits(c, m.equity, |m.open|, r.verdict);
    AdmitsTaken(c, r.verdict, |m.open|);
    if Speaks(r.verdict) {
      var q := Publish(m, SignalOf(m.nextId, b.ts + c.seconds, r.verdict));
      if MayEnter(c, q.equity, |q.open|, r.verdict) {
        EntrySized(c, q, r.verdict, r.fv, b, i, m.nextId);
        var row := f.ledger[|m.ledger|];
        OpenedRow(c, row, r.verdict, m.equity);
        assert RowsOf(p, f) == m.ledger[|p.ledger|..] + [row];
        CountOne(m.ledger[|p.ledger|..], row, Closed);
        CountOne(m.ledger[|p.ledger|..], row, Opened);
      }
    }
  }

  lemma OpenedRow(c: Config, row: LedgerEntry, v: Rules.Verdict, equity: real)
    requires v.Taken? && Sized(c, row, v, equity)
    ensures row.event.Opened?
  {
  }

  lemma AdmitsTaken(c: Config, v: Rules.Verdict, n: int)
    ensures Admits(c, v, n) ==> v.Taken?
  {
  }

  /** Over every run, on any bars and readings: a bar that the run gets to opens a trade if and only if its verdict is
      taken, the strategy is active, and with the trades that stay open after the bar's close rows there is room left
      and the new trade is within the limits; then exactly one, last of the bar's rows, and of the size that risks the
      clamped percentage of the equity as it stands after these rows. */
  lemma RunEnters(c: Config, bars: seq<Bar>, readings: seq<Reading>, s: State, e: nat)
    requires e < |bars| == |readings| && !Replay(c, bars, readings, s, e).halted
    ensures EntersOn(c, Replay(c, bars, readings, s, e), Replay(c, bars, readings, s, e + 1), readings[e])
  {
    hide BarStep, EntersOn;
    StepEnters(c, Replay(c, bars, readings, s, e), bars[e], readings[e], e);
  }
}

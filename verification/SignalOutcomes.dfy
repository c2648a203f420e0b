/** The signal store agrees with the ledger over every backtest run. */
module SignalOutcomes {
  import opened Prelude
  import opened Bars
  import opened Records
  import opened Backtest
  import Features
  import Rules
  import Stores

  predicate OpenSignal(signals: map<int, SignalRow>, id: int) {
    id in signals && signals[id].taken && signals[id].outcome == Some(Open)
  }

  predicate ClosedFor(rows: seq<LedgerEntry>, id: int) {
    exists i :: 0 <= i < |rows| && rows[i].event.Closed? && rows[i].signalId == id
  }

  /** Win, loss or timeout as the P&L is above, below or at zero. */
  predicate IsOutcome(outcome: Option<Outcome>, pnl: real) {
    && (pnl > 0.0 ==> outcome == Some(Win)) && (pnl < 0.0 ==> outcome == Some(Loss))
    && (pnl == 0.0 ==> outcome == Some(Timeout))
  }

  /** A close row's P&L is the outcome of its signal, and its extremes and R are the signal's. */
  predicate Resolved(signals: map<int, SignalRow>, row: LedgerEntry) {
    && row.signalId in signals && row.realisedPnl.Some?
    && var signal := signals[row.signalId];
       && signal.taken && IsOutcome(signal.outcome, row.realisedPnl.value)
       && signal.mae == row.mae && signal.mfe == row.mfe && signal.realisedR == row.realisedR
  }

  /** `first` is the first id of this run; `live` the open trades, or those still to be managed. */
  ghost predicate Agrees(s: State, n0: nat, first: int, live: seq<OpenTrade>) {
    && n0 <= |s.ledger|
    && (forall id :: id in s.signals ==> id < s.nextId)
    && (forall i :: 0 <= i < |live| ==> live[i].signalId >= first && OpenSignal(s.signals, live[i].signalId))
    && (forall i, j :: 0 <= i < j < |live| ==> live[i].signalId != live[j].signalId)
    && (forall i :: n0 <= i < |s.ledger| && s.ledger[i].event.Closed? ==> Resolved(s.signals, s.ledger[i]))
    && (forall id :: id in s.signals && id >= first && !s.signals[id].taken ==> s.signals[id].outcome == None)
    && (forall id :: id in s.signals && id >= first && s.signals[id].taken && !ClosedFor(s.ledger[n0..], id) ==>
          s.signals[id].outcome == Some(Open))
  }

  lemma CloseAgrees(c: Config, s: State, n0: nat, first: int, a: seq<OpenTrade>, t: OpenTrade, b: seq<OpenTrade>,
    bar: Bar)
    requires Agrees(s, n0, first, a + [t] + b)
    ensures Agrees(CloseOne(c, s, t, bar), n0, first, a + b)
  {
    hide ClosePnl, CloseFill;
    var s' := CloseOne(c, s, t, bar);
    var row := s'.ledger[|s.ledger|];
    var live := a + [t] + b;
    assert live[|a|] == t;
    assert s'.signals.Keys == s.signals.Keys;
    assert forall id :: id in s.signals && id != t.signalId ==> s'.signals[id] == s.signals[id];
    LiveWithout(s, s', a, t, b);
    ClosedRows(s, s', n0, row);
  }

  lemma LiveWithout(s: State, s': State, a: seq<OpenTrade>, t: OpenTrade, b: seq<OpenTrade>)
    requires var live := a + [t] + b; forall i, j :: 0 <= i < j < |live| ==> live[i].signalId != live[j].signalId
    ensures var r := a + b; forall i, j :: 0 <= i < j < |r| ==> r[i].signalId != r[j].signalId
    ensures forall i :: 0 <= i < |a + b| ==> (a + b)[i] in a + [t] + b && (a + b)[i].signalId != t.signalId
  {
    var live, r := a + [t] + b, a + b;
    forall i | 0 <= i < |r| ensures r[i] in live && r[i].signalId != t.signalId {
      assert live[if i < |a| then i else i + 1] == r[i] && live[|a|] == t;
    }
    forall i, j | 0 <= i < j < |r| ensures r[i].signalId != r[j].signalId {
      assert live[if i < |a| then i else i + 1] == r[i];
      assert live[if j < |a| then j else j + 1] == r[j];
    }
  }

  lemma ClosedRows(s: State, s': State, n0: nat, row: LedgerEntry)
    requires n0 <= |s.ledger| && s'.ledger == s.ledger + [row] && row.event.Closed?
    ensures forall id :: ClosedFor(s.ledger[n0..], id) || id == row.signalId ==> ClosedFor(s'.ledger[n0..], id)
    ensures forall id :: ClosedFor(s.ledger[n0..], id) ==>
      exists i :: n0 <= i < |s.ledger| && s.ledger[i].event.Closed? && s.ledger[i].signalId == id
  {
    var p, q := s.ledger[n0..], s'.ledger[n0..];
    forall id | ClosedFor(p, id) ensures ClosedFor(q, id) {
      var i :| 0 <= i < |p| && p[i].event.Closed? && p[i].signalId == id;
      assert q[i] == p[i];
    }
    assert q[|p|] == row;
    forall id | ClosedFor(p, id)
      ensures exists i :: n0 <= i < |s.ledger| && s.ledger[i].event.Closed? && s.ledger[i].signalId == id
    {
      var i :| 0 <= i < |p| && p[i].event.Closed? && p[i].signalId == id;
      assert s.ledger[n0 + i] == p[i];
    }
  }

  lemma SurvivorAgrees(s: State, n0: nat, first: int, a: seq<OpenTrade>, t: OpenTrade, b: seq<OpenTrade>, bar: Bar)
    requires Agrees(s, n0, first, a + [t] + b)
    ensures Agrees(s.(open := s.open + [WithExcursion(t, bar)]), n0, first, a + [WithExcursion(t, bar)] + b)
  {
    var p, q := a + [t] + b, a + [WithExcursion(t, bar)] + b;
    assert forall i :: 0 <= i < |p| ==> p[i].signalId == q[i].signalId;
  }

  lemma {:induction false} ManageAgrees(c: Config, s: State, n0: nat, first: int, trades: seq<OpenTrade>, bar: Bar,
    i: int, k: nat)
    requires Agrees(s, n0, first, trades) && k <= |trades|
    ensures Agrees(ManageTo(c, s, trades, bar, i, k), n0, first, ManageTo(c, s, trades, bar, i, k).open + trades[k..])
  {
    hide CloseOne, WithExcursion, Agrees;
    if k == 0 {
      assert [] + trades[0..] == trades;
      SameButOpen(s, n0, first, trades, []);
    } else {
      ManageAgrees(c, s, n0, first, trades, bar, i, k - 1);
      var m, t, rest := ManageTo(c, s, trades, bar, i, k - 1), trades[k - 1], trades[k..];
      assert m.open + trades[k - 1..] == m.open + [t] + rest;
      if CheckExit(t, bar, i).None? {
        SurvivorAgrees(m, n0, first, m.open, t, rest, bar);
      } else {
        CloseAgrees(c, m, n0, first, m.open, t, rest, bar);
        CloseKeepsOpen(c, m, t, bar);
      }
    }
  }

  lemma SameButOpen(s: State, n0: nat, first: int, live: seq<OpenTrade>, open: seq<OpenTrade>)
    requires Agrees(s, n0, first, live)
    ensures Agrees(s.(open := open), n0, first, live)
    ensures Agrees(s.(halted := true), n0, first, live)
  {
  }

  lemma PublishAgrees(s: State, n0: nat, first: int, ts: int, v: Rules.Verdict)
    requires Agrees(s, n0, first, s.open) && (v.Taken? || v.TurnedDown?)
    ensures var p := Publish(s, SignalOf(s.nextId, ts, v)); Agrees(p, n0, first, p.open)
  {
    var p := Publish(s, SignalOf(s.nextId, ts, v));
    assert s.nextId !in s.signals;
    assert forall id :: id in s.signals ==> p.signals[id] == s.signals[id];
  }

  lemma EnterAgrees(c: Config, s: State, n0: nat, first: int, v: Rules.Verdict, fv: Features.FeatureVector, b: Bar,
    i: int, signalId: int)
    requires Agrees(s, n0, first, s.open) && MayEnter(c, s.equity, |s.open|, v)
    requires signalId >= first && OpenSignal(s.signals, signalId)
    requires forall j :: 0 <= j < |s.open| ==> s.open[j].signalId < signalId
    ensures Agrees(Enter(c, s, v, fv, b, i, signalId), n0, first, Enter(c, s, v, fv, b, i, signalId).open)
  {
    hide GateDecision;
    var e := Enter(c, s, v, fv, b, i, signalId);
    var row := e.ledger[|s.ledger|];
    assert e.open == s.open + [e.open[|s.open|]];
    OpenedRows(s.ledger, n0, row);
  }

  lemma OpenedRows(ledger: seq<LedgerEntry>, n0: nat, row: LedgerEntry)
    requires n0 <= |ledger| && row.event.Opened?
    ensures forall id :: ClosedFor(ledger[n0..], id) ==> ClosedFor((ledger + [row])[n0..], id)
  {
    forall id | ClosedFor(ledger[n0..], id) ensures ClosedFor((ledger + [row])[n0..], id) {
      var i :| 0 <= i < |ledger[n0..]| && ledger[n0..][i].event.Closed? && ledger[n0..][i].signalId == id;
      assert (ledger + [row])[n0..][i] == ledger[n0..][i];
    }
  }

  lemma OldSignalsAreBelow(s: State, n0: nat, first: int, ts: int, v: Rules.Verdict)
    requires Agrees(s, n0, first, s.open) && first <= s.nextId && v.Taken?
    ensures var p := Publish(s, SignalOf(s.nextId, ts, v));
      OpenSignal(p.signals, s.nextId) && forall j :: 0 <= j < |s.open| ==> s.open[j].signalId < s.nextId
  {
  }

  lemma StepAgrees(c: Config, s: State, n0: nat, first: int, b: Bar, r: Reading, i: nat)
    requires Agrees(s, n0, first, s.open) && first <= s.nextId
    ensures Agrees(BarStep(c, s, b, r, i), n0, first, BarStep(c, s, b, r, i).open)
    ensures first <= BarStep(c, s, b, r, i).nextId
  {
    hide Agrees, Enter, ManageTo, MayEnter, SignalOf, OpenSignal;
    if !s.halted {
      ManageAgrees(c, s, n0, first, s.open, b, i, |s.open|);
      var m := Manage(c, s, b, i);
      ManageCounts(c, s, s.open, b, i, |s.open|);
      assert m.open + s.open[|s.open|..] == m.open;
      SameButOpen(m, n0, first, m.open, m.open);
      if r.verdict.Taken? || r.verdict.TurnedDown? {
        var ts := b.ts + c.seconds;
        var p := Publish(m, SignalOf(m.nextId, ts, r.verdict));
        PublishAgrees(m, n0, first, ts, r.verdict);
        if MayEnter(c, p.equity, |p.open|, r.verdict) {
          EnterTakes(c, p, r.verdict, r.fv, b, i, m.nextId);
          OldSignalsAreBelow(m, n0, first, ts, r.verdict);
          EnterAgrees(c, p, n0, first, r.verdict, r.fv, b, i, m.nextId);
        }
      }
    }
  }

  lemma EnterTakes(c: Config, s: State, v: Rules.Verdict, fv: Features.FeatureVector, b: Bar, i: int, signalId: int)
    requires MayEnter(c, s.equity, |s.open|, v)
    ensures v.Taken? && Enter(c, s, v, fv, b, i, signalId).nextId == s.nextId + 2
  {
  }

  lemma {:induction false} ManageCounts(c: Config, s: State, trades: seq<OpenTrade>, b: Bar, i: int, k: nat)
    requires k <= |trades|
    ensures ManageTo(c, s, trades, b, i, k).nextId >= s.nextId
  {
    if k > 0 { ManageCounts(c, s, trades, b, i, k - 1); }
  }

  lemma {:induction false} RunAgrees(c: Config, bars: seq<Bar>, readings: seq<Reading>, s: State, k: nat)
    requires k <= |bars| == |readings| && s.open == []
    requires forall id :: id in s.signals ==> id < s.nextId
    ensures var f := Replay(c, bars, readings, s, k);
      Agrees(f, |s.ledger|, s.nextId, f.open) && f.nextId >= s.nextId
  {
    hide BarStep;
    if k > 0 {
      RunAgrees(c, bars, readings, s, k - 1);
      StepAgrees(c, Replay(c, bars, readings, s, k - 1), |s.ledger|, s.nextId, bars[k - 1], readings[k - 1], k - 1);
    }
  }

  /** What an outcome says about the result of the trade. */
  predicate Fits(outcome: Outcome, pnl: real) {
    match outcome
    case Win => pnl > 0.0
    case Loss => pnl < 0.0
    case Timeout => pnl == 0.0
    case Open => false
  }

  /** After every bar of every run with fresh ids: a rejected signal of this run has no outcome, and a
      taken one is win, loss or timeout exactly when the ledger has a close row for it with positive,
      negative or zero P&L; otherwise it is open. */
  lemma SignalStoreAgreesWithLedger(c: Config, bars: seq<Bar>, readings: seq<Reading>, s: State, k: nat, id: int,
    outcome: Outcome)
    requires k <= |bars| == |readings| && s.open == []
    requires forall x :: x in s.signals ==> x < s.nextId
    requires id >= s.nextId && id in Replay(c, bars, readings, s, k).signals
    ensures var f := Replay(c, bars, readings, s, k);
      && |s.ledger| <= |f.ledger|
      && (!f.signals[id].taken ==> f.signals[id].outcome == None)
      && (f.signals[id].taken && outcome != Open ==>
            (f.signals[id].outcome == Some(outcome) <==>
             exists i :: |s.ledger| <= i < |f.ledger| && f.ledger[i].event.Closed? && f.ledger[i].signalId == id
               && f.ledger[i].realisedPnl.Some? && Fits(outcome, f.ledger[i].realisedPnl.value)))
      && (f.signals[id].taken ==>
            (f.signals[id].outcome == Some(Open) <==> !ClosedFor(f.ledger[|s.ledger|..], id)))
  {
    RunAgrees(c, bars, readings, s, k);
    AgreesExactly(Replay(c, bars, readings, s, k), |s.ledger|, s.nextId, id, outcome);
  }

  /** Asked for its open signals, the store answers with the taken signals of this run that have no close row yet. */
  lemma OpenSignalsAreUnclosed(c: Config, bars: seq<Bar>, readings: seq<Reading>, s: State, k: nat, id: int)
    requires k <= |bars| == |readings| && s.open == [] && id >= s.nextId
    requires forall x :: x in s.signals ==> x < s.nextId
    ensures var f := Replay(c, bars, readings, s, k);
      && |s.ledger| <= |f.ledger|
      && (id in Stores.OpenIds(f.signals) <==>
        id in f.signals && f.signals[id].taken && !ClosedFor(f.ledger[|s.ledger|..], id))
  {
    hide Replay, ClosedFor;
    RunAgrees(c, bars, readings, s, k);
    var f := Replay(c, bars, readings, s, k);
    if id in f.signals { SignalStoreAgreesWithLedger(c, bars, readings, s, k, id, Win); }
  }

  lemma AgreesExactly(f: State, n0: nat, first: int, id: int, outcome: Outcome)
    requires Agrees(f, n0, first, f.open) && id >= first && id in f.signals
    ensures !f.signals[id].taken ==> f.signals[id].outcome == None
    ensures f.signals[id].taken && outcome != Open ==>
      (f.signals[id].outcome == Some(outcome) <==>
       exists i :: n0 <= i < |f.ledger| && f.ledger[i].event.Closed? && f.ledger[i].signalId == id
         && f.ledger[i].realisedPnl.Some? && Fits(outcome, f.ledger[i].realisedPnl.value))
    ensures f.signals[id].taken ==>
      (f.signals[id].outcome == Some(Open) <==> !ClosedFor(f.ledger[n0..], id))
  {
    if ClosedFor(f.ledger[n0..], id) {
      var j :| 0 <= j < |f.ledger[n0..]| && f.ledger[n0..][j].event.Closed? && f.ledger[n0..][j].signalId == id;
      assert f.ledger[n0 + j] == f.ledger[n0..][j];
      assert Resolved(f.signals, f.ledger[n0 + j]);
    } else {
      forall i | n0 <= i < |f.ledger| && f.ledger[i].event.Closed? ensures f.ledger[i].signalId != id {
        assert f.ledger[n0..][i - n0] == f.ledger[i];
      }
    }
  }
}

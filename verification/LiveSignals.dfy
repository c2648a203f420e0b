/** The signal store against the ledger in the live loop: over every run but for crashes right after a close row. */
module LiveSignals {
  import opened Prelude
  import opened Bars
  import opened Execution
  import opened Records
  import opened Stores
  import opened LiveLoop
  import opened CrashSafety
  import opened TableAgreement
  import opened Tickets
  import opened Drift
  import opened Restart
  import CloseRows
  import SignalOutcomes
  import Backtest
  import Rules

  // ---------------------------------------------------------------- agreement

  /** The result in the last close row of a signal's trade, if there is one. */
  function LastResult(ledger: seq<LedgerEntry>, g: int): Option<real> {
    if ledger == [] then None
    else
      var last := ledger[|ledger| - 1];
      if last.event.Closed? && last.signalId == g then last.realisedPnl else LastResult(ledger[..|ledger| - 1], g)
  }

  lemma NextResult(ledger: seq<LedgerEntry>, row: LedgerEntry, g: int)
    ensures LastResult(ledger + [row], g) ==
      if row.event.Closed? && row.signalId == g then row.realisedPnl else LastResult(ledger, g)
  {
    assert (ledger + [row])[..|ledger|] == ledger;
  }

  lemma {:induction false} ResultIffClosed(ledger: seq<LedgerEntry>, g: int)
    requires forall i :: 0 <= i < |ledger| && ledger[i].event.Closed? ==> ledger[i].realisedPnl.Some?
    ensures LastResult(ledger, g).Some? <==> exists i ::
      0 <= i < |ledger| && ledger[i].event.Closed? && ledger[i].signalId == g
  {
    if ledger != [] {
      var init := ledger[..|ledger| - 1];
      ResultIffClosed(init, g);
      if i :| 0 <= i < |ledger| && ledger[i].event.Closed? && ledger[i].signalId == g {
        if i < |init| { assert init[i] == ledger[i]; }
      }
      if i :| 0 <= i < |init| && init[i].event.Closed? && init[i].signalId == g { assert ledger[i] == init[i]; }
    }
  }

  /** A rejected signal has no outcome; a taken one is open as long as its trade has no close row, and then win, loss
      or timeout as the last one says. */
  predicate Agrees(row: SignalRow, ledger: seq<LedgerEntry>, g: int) {
    if !row.taken then row.outcome == None
    else match LastResult(ledger, g)
         case None => row.outcome == Some(Open)
         case Some(pnl) => SignalOutcomes.IsOutcome(row.outcome, pnl)
  }

  ghost predicate AllAgree(d: Disk) {
    forall g {:trigger d.signals[g]} :: g in d.signals ==> Agrees(d.signals[g], d.ledger, g)
  }

  /** A position's signal has been drawn already, and if it is stored it was taken. */
  predicate Refers(signals: map<int, SignalRow>, p: LivePosition, n: int) {
    p.signalId < n && (p.signalId in signals ==> signals[p.signalId].taken)
  }

  ghost predicate AllRefer(signals: map<int, SignalRow>, open: seq<LivePosition>, n: int) {
    forall q :: q in open ==> Refers(signals, q, n)
  }

  ghost predicate RowsRefer(d: Disk, n: int) {
    && (forall id {:trigger d.positions[id]} :: id in d.positions ==> Refers(d.signals, d.positions[id], n))
    && (forall g :: g in d.signals ==> g < n)
    && (forall i :: 0 <= i < |d.ledger| ==> d.ledger[i].signalId < n)
  }

  // ---------------------------------------------------------------- one statement

  lemma SameAgreement(d: Disk, e: Effect)
    requires AllAgree(d) && !IsCloseRow(e) && !e.Published? && !e.Resolved?
    ensures AllAgree(Apply(d, e))
  {
    if e.Recorded? {
      forall g {:trigger d.signals[g]} | g in d.signals ensures Agrees(d.signals[g], d.ledger + [e.entry], g) {
        NextResult(d.ledger, e.entry, g);
      }
    }
  }

  /** A close row, and the outcome that follows it. */
  lemma ResolvedAgrees(d: Disk, row: LedgerEntry, e: Effect)
    requires AllAgree(d) && row.event.Closed? && row.realisedPnl.Some?
      && (row.signalId in d.signals ==> d.signals[row.signalId].taken)
    requires e.Resolved? && e.signalId == row.signalId && e.outcome == OutcomeOf(row.realisedPnl.value)
    ensures AllAgree(Apply(Apply(d, Recorded(row)), e))
  {
    var f := Apply(Apply(d, Recorded(row)), e);
    forall g {:trigger f.signals[g]} | g in f.signals ensures Agrees(f.signals[g], f.ledger, g) {
      NextResult(d.ledger, row, g);
      assert g in d.signals && Agrees(d.signals[g], d.ledger, g);
    }
  }

  lemma {:induction false} NoResultYet(ledger: seq<LedgerEntry>, g: int)
    requires forall i :: 0 <= i < |ledger| ==> ledger[i].signalId < g
    ensures LastResult(ledger, g) == None
  {
    if ledger != [] { NoResultYet(ledger[..|ledger| - 1], g); }
  }

  lemma PublishedAgrees(d: Disk, v: Rules.Verdict, ts: int, n: int)
    requires AllAgree(d) && RowsRefer(d, n) && (v.Taken? || v.TurnedDown?)
    ensures var e := Apply(d, Published(SignalOf(n, ts, v))); AllAgree(e) && RowsRefer(e, n + 1)
  {
    NoResultYet(d.ledger, n);
    var e := Apply(d, Published(SignalOf(n, ts, v)));
    forall g {:trigger e.signals[g]} | g in e.signals ensures Agrees(e.signals[g], e.ledger, g) {
      if g != n { assert Agrees(d.signals[g], d.ledger, g); }
    }
    forall id {:trigger e.positions[id]} | id in e.positions ensures Refers(e.signals, e.positions[id], n + 1) {
      assert Refers(d.signals, d.positions[id], n);
    }
  }

  // ---------------------------------------------------------------- every statement boundary

  /** At every statement boundary but right after a close row the signals agree with the ledger. */
  ghost predicate AgreeCuts(d0: Disk, es: seq<Effect>, n: int) {
    forall cut :: 0 <= cut <= |es| ==>
      RowsRefer(ApplyAll(d0, es[..cut]), n) && (AllAgree(ApplyAll(d0, es[..cut]))
        || (cut > 0 && IsCloseRow(es[cut - 1])))
  }

  lemma ExtendAgree(d0: Disk, es: seq<Effect>, e: Effect, n: int)
    requires AgreeCuts(d0, es, n) && RowsRefer(Apply(ApplyAll(d0, es), e), n)
    requires AllAgree(Apply(ApplyAll(d0, es), e)) || IsCloseRow(e)
    ensures AgreeCuts(d0, es + [e], n)
  {
    hide AllAgree, RowsRefer, ApplyAll, Apply;
    var all := es + [e];
    OneMore(d0, [], es, e);
    forall cut | 0 <= cut <= |all|
      ensures RowsRefer(ApplyAll(d0, all[..cut]), n)
        && (AllAgree(ApplyAll(d0, all[..cut])) || (cut > 0 && IsCloseRow(all[cut - 1])))
    {
      if cut <= |es| { assert all[..cut] == es[..cut]; } else { assert all[..cut] == all; }
    }
  }

  lemma HigherAgree(d0: Disk, es: seq<Effect>, n: int, m: int)
    requires AgreeCuts(d0, es, n) && n <= m
    ensures AgreeCuts(d0, es, m)
  {
    hide AllAgree, ApplyAll, RowsRefer;
    forall cut | 0 <= cut <= |es|
      ensures RowsRefer(ApplyAll(d0, es[..cut]), m)
        && (AllAgree(ApplyAll(d0, es[..cut])) || (cut > 0 && IsCloseRow(es[cut - 1])))
    {
      HigherRefer(ApplyAll(d0, es[..cut]), n, m);
    }
  }

  lemma HigherRefer(d: Disk, n: int, m: int)
    requires RowsRefer(d, n) && n <= m
    ensures RowsRefer(d, m)
  {
  }

  /** A poll under way, between two positions or after them. */
  ghost predicate Following(s: Live, p: Pass, n: int) {
    var d := ApplyAll(s.disk, p.effects);
    AgreeCuts(s.disk, p.effects, n) && AllAgree(d) && RowsRefer(d, n) && AllRefer(d.signals, p.book, n)
      && AllRefer(d.signals, p.kept, n)
  }

  lemma SaveRefers(d: Disk, u: LivePosition, n: int)
    requires RowsRefer(d, n) && Refers(d.signals, u, n)
    ensures RowsRefer(Apply(d, Saved(u)), n)
  {
  }

  lemma SameSignal(p: LivePosition, b: Bar)
    ensures WithExcursion(p, b).signalId == p.signalId
  {
  }

  lemma SurviveFollows(s: Live, p: Pass, k: nat, b: Bar, n: int)
    requires k < |p.book| && Following(s, p, n)
    ensures Following(s, Survive(p, k, b), n)
  {
    hide AgreeCuts, AllAgree, RowsRefer, ApplyAll, WithExcursion;
    var u, d := WithExcursion(p.book[k], b), ApplyAll(s.disk, p.effects);
    SameSignal(p.book[k], b);
    assert p.book[k] in p.book;
    SaveRefers(d, u, n);
    SameAgreement(d, Saved(u));
    OneMore(s.disk, [], p.effects, Saved(u));
    ExtendAgree(s.disk, p.effects, Saved(u), n);
    assert forall q :: q in p.book[k := u] ==> q in p.book || q == u;
    assert forall q :: q in p.kept + [u] ==> q in p.kept || q == u;
  }

  /** Outcomes change no signal's standing, and a close row brings no new signal. */
  lemma ClosingRefers(d: Disk, row: LedgerEntry, e: Effect, id: int, n: int)
    requires RowsRefer(d, n) && row.signalId < n && e.Resolved?
    ensures RowsRefer(Apply(d, Recorded(row)), n)
    ensures RowsRefer(Apply(Apply(d, Recorded(row)), e), n)
    ensures RowsRefer(Apply(Apply(Apply(d, Recorded(row)), e), Deleted(id)), n)
  {
    var f := Apply(Apply(d, Recorded(row)), e);
    forall i {:trigger f.positions[i]} | i in f.positions ensures Refers(f.signals, f.positions[i], n) {
      assert Refers(d.signals, d.positions[i], n);
    }
  }

  lemma StillRefer(signals: map<int, SignalRow>, e: Effect, open: seq<LivePosition>, n: int)
    requires AllRefer(signals, open, n) && e.Resolved?
    ensures AllRefer(Resolve(signals, e.signalId, e.outcome, e.mae, e.mfe, e.realisedR), open, n)
  {
    forall q | q in open ensures Refers(Resolve(signals, e.signalId, e.outcome, e.mae, e.mfe, e.realisedR), q, n) {
      assert Refers(signals, q, n);
    }
  }

  lemma CloseFollows(c: Config, s: Live, p: Pass, k: nat, b: Bar, now: int, n: int)
    requires k < |p.book| && Following(s, p, n)
    ensures Following(s, CloseOne(c, p, k, b, now), n)
  {
    hide AgreeCuts, AllAgree, RowsRefer, AllRefer, ApplyAll, ClosePnl, RMultiple, Submit, CloseOrder, Resolve;
    var pos, d := p.book[k], ApplyAll(s.disk, p.effects);
    var order := CloseOrder(c, pos, b, now, p.nextId);
    var answer := Submit(p.adapter, order).1;
    var e := Sent(order, pos.tradeId, answer);
    OneMore(s.disk, [], p.effects, e);
    ExtendAgree(s.disk, p.effects, e, n);
    if answer.Ok? {
      var es, f := p.effects + [e], CloseEffects(c, pos, now, answer.value);
      ItRefers(d.signals, p.book, k, n);
      OneMore(s.disk, [], es, f[0]);
      OneMore(s.disk, [], es + [f[0]], f[1]);
      OneMore(s.disk, [], es + [f[0]] + [f[1]], f[2]);
      ClosingRefers(d, f[0].entry, f[1], pos.tradeId, n);
      ResolvedAgrees(d, f[0].entry, f[1]);
      SameAgreement(ApplyAll(s.disk, es + [f[0]] + [f[1]]), f[2]);
      ExtendAgree(s.disk, es, f[0], n);
      ExtendAgree(s.disk, es + [f[0]], f[1], n);
      ExtendAgree(s.disk, es + [f[0]] + [f[1]], f[2], n);
      StillRefer(d.signals, f[1], p.book, n);
      StillRefer(d.signals, f[1], p.kept, n);
      assert es + [f[0]] + [f[1]] + [f[2]] == es + f;
    }
  }

  lemma ItRefers(signals: map<int, SignalRow>, open: seq<LivePosition>, k: nat, n: int)
    requires AllRefer(signals, open, n) && k < |open|
    ensures Refers(signals, open[k], n)
  {
  }

  lemma {:induction false} ManageFollows(c: Config, s: Live, b: Bar, now: int, n: int, k: nat)
    requires k <= |s.open| && AllAgree(s.disk) && RowsRefer(s.disk, n) && AllRefer(s.disk.signals, s.open, n)
    ensures Following(s, ManageTo(c, Begin(s), b, now, k), n)
  {
    hide CheckExit, Survive, CloseOne, Following, AllAgree, RowsRefer, AllRefer;
    if k == 0 {
      BeginFollows(s, n);
    } else {
      ManageFollows(c, s, b, now, n, k - 1);
      var p := ManageTo(c, Begin(s), b, now, k - 1);
      if !p.raised {
        if CheckExit(p.book[k - 1], b, now).None? {
          SurviveFollows(s, p, k - 1, b, n);
        } else {
          CloseFollows(c, s, p, k - 1, b, now, n);
        }
      }
    }
  }

  lemma BeginFollows(s: Live, n: int)
    requires AllAgree(s.disk) && RowsRefer(s.disk, n) && AllRefer(s.disk.signals, s.open, n)
    ensures Following(s, Begin(s), n)
  {
    hide AllAgree, RowsRefer;
    assert forall cut :: 0 <= cut <= 0 ==> Begin(s).effects[..cut] == [];
  }

  /** What a poll leaves: list, tables and every cut. */
  ghost predicate Followed(s: Live, p: Pass) {
    var d := ApplyAll(s.disk, p.effects);
    AgreeCuts(s.disk, p.effects, p.nextId) && AllAgree(d) && RowsRefer(d, p.nextId)
      && AllRefer(d.signals, p.book, p.nextId)
  }

  lemma HigherList(signals: map<int, SignalRow>, open: seq<LivePosition>, n: int, m: int)
    requires AllRefer(signals, open, n) && n <= m
    ensures AllRefer(signals, open, m)
  {
  }

  lemma Loosened(s: Live, p: Pass, q: Pass)
    requires Followed(s, p) && q.effects == p.effects && q.book == p.book && p.nextId <= q.nextId
    ensures Followed(s, q)
  {
    hide AgreeCuts, AllAgree, RowsRefer, AllRefer, ApplyAll;
    HigherAgree(s.disk, p.effects, p.nextId, q.nextId);
    HigherRefer(ApplyAll(s.disk, p.effects), p.nextId, q.nextId);
    HigherList(ApplyAll(s.disk, p.effects).signals, p.book, p.nextId, q.nextId);
  }

  lemma PublishFollows(c: Config, s: Live, p: Pass, v: Rules.Verdict, ts: int)
    requires Followed(s, p) && (v.Taken? || v.TurnedDown?)
    ensures Followed(s, Publish(p, SignalOf(p.nextId, ts, v)))
  {
    hide AgreeCuts, AllAgree, RowsRefer, ApplyAll;
    var n, row := p.nextId, SignalOf(p.nextId, ts, v);
    var d := ApplyAll(s.disk, p.effects);
    OneMore(s.disk, [], p.effects, Published(row));
    PublishedAgrees(d, v, ts, n);
    HigherAgree(s.disk, p.effects, n, n + 1);
    ExtendAgree(s.disk, p.effects, Published(row), n + 1);
    forall q | q in p.book ensures Refers(d.signals[row.signalId := row], q, n + 1) { assert Refers(d.signals, q, n); }
  }

  lemma EnterFollows(c: Config, s: Live, p: Pass, v: Rules.Verdict, r: Backtest.Reading, b: Bar, now: int,
    signalId: int)
    requires MayEnter(c, p.equity, |p.book|, v) && Followed(s, p) && signalId < p.nextId
    requires var signals := ApplyAll(s.disk, p.effects).signals; signalId in signals && signals[signalId].taken
    ensures Followed(s, Enter(c, p, v, r.fv, b, now, signalId))
  {
    hide AgreeCuts, AllAgree, RowsRefer, ApplyAll, GateDecision, OpenOrder, Submit;
    var size, n, d := GateDecision(c, p.equity, |p.book|, v).sizeUnits, p.nextId, ApplyAll(s.disk, p.effects);
    var order := OpenOrder(c, v, r.fv, b, now, size, n);
    var answer := Submit(p.adapter, order).1;
    var e := Sent(order, n + 1, answer);
    OneMore(s.disk, [], p.effects, e);
    HigherAgree(s.disk, p.effects, n, n + 2);
    HigherRefer(d, n, n + 2);
    ExtendAgree(s.disk, p.effects, e, n + 2);
    if answer.Err? {
      HigherAgree(s.disk, p.effects, n, n + 1);
      HigherRefer(d, n, n + 1);
      ExtendAgree(s.disk, p.effects, e, n + 1);
      HigherList(d.signals, p.book, n, n + 1);
    } else {
      var pos := NewPosition(c, v, answer.value, signalId, n + 1, now);
      var row, sent := OpenRow(c, pos, now, answer.value), p.effects + [e];
      OneMore(s.disk, [], sent, Saved(pos));
      OneMore(s.disk, [], sent + [Saved(pos)], Recorded(row));
      SaveRefers(d, pos, n + 2);
      OpenRefers(Apply(d, Saved(pos)), row, n + 2);
      SameAgreement(d, Saved(pos));
      SameAgreement(Apply(d, Saved(pos)), Recorded(row));
      ExtendAgree(s.disk, sent, Saved(pos), n + 2);
      ExtendAgree(s.disk, sent + [Saved(pos)], Recorded(row), n + 2);
      assert sent + [Saved(pos)] + [Recorded(row)] == p.effects + [e, Saved(pos), Recorded(row)];
      assert forall q :: q in p.book + [pos] ==> q in p.book || q == pos;
    }
  }

  lemma OpenRefers(d: Disk, row: LedgerEntry, n: int)
    requires RowsRefer(d, n) && row.signalId < n
    ensures RowsRefer(Apply(d, Recorded(row)), n)
  {
  }

  /** One poll, any adapter, any memory, completed, raised or cut anywhere. */
  lemma PollFollows(c: Config, s: Live, b: Bar, now: int, r: Backtest.Reading)
    requires AllAgree(s.disk) && RowsRefer(s.disk, s.nextId) && AllRefer(s.disk.signals, s.open, s.nextId)
    ensures Followed(s, PassOf(c, s, b, now, r))
  {
    hide ManageTo, AgreeCuts, AllAgree, RowsRefer, AllRefer, ApplyAll, MayEnter, Enter, SignalOf;
    ManageFollows(c, s, b, now, s.nextId, |s.open|);
    CounterOfManage(c, s, b, now);
    var m, v := Manage(c, s, b, now), r.verdict;
    Loosened(s, m.(nextId := s.nextId), m);
    if !m.raised {
      Loosened(s, m, m.(raised := true));
      if v.Taken? || v.TurnedDown? {
        var row := SignalOf(m.nextId, now, v);
        var q := Publish(m, row);
        PublishFollows(c, s, m, v, now);
        if MayEnter(c, q.equity, |q.book|, v) {
          JustPublished(c, s.disk, m.effects, m.nextId, now, v, q.equity, |q.book|);
          EnterFollows(c, s, q, v, r, b, now, m.nextId);
        }
      }
    }
  }

  lemma JustPublished(c: Config, d: Disk, es: seq<Effect>, id: int, ts: int, v: Rules.Verdict, equity: real, n: nat)
    requires (v.Taken? || v.TurnedDown?) && MayEnter(c, equity, n, v)
    ensures var signals := ApplyAll(d, es + [Published(SignalOf(id, ts, v))]).signals;
      id in signals && signals[id].taken
  {
    hide GateDecision;
    OneMore(d, [], es, Published(SignalOf(id, ts, v)));
  }

  // ---------------------------------------------------------------- runs

  /** A crash does not come right after a close row. */
  ghost predicate SparesOutcomes(c: Config, s: Live, e: Step) {
    e.Crashed? ==>
      var es := Cut(PassOf(c, s, e.bar, e.now, e.reading).effects, e.cut);
      es == [] || !IsCloseRow(es[|es| - 1])
  }

  ghost predicate AllSpare(c: Config, s: Live, steps: seq<Step>) {
    forall k {:trigger steps[k]} :: 0 <= k < |steps| ==> SparesOutcomes(c, RunSteps(c, s, steps[..k]), steps[k])
  }

  lemma SpareInit(c: Config, s: Live, steps: seq<Step>)
    requires steps != [] && AllSpare(c, s, steps)
    ensures AllSpare(c, s, steps[..|steps| - 1])
    ensures SparesOutcomes(c, RunSteps(c, s, steps[..|steps| - 1]), steps[|steps| - 1])
  {
    hide RunSteps, SparesOutcomes;
    var init := steps[..|steps| - 1];
    forall k {:trigger init[k]} | 0 <= k < |init| ensures SparesOutcomes(c, RunSteps(c, s, init[..k]), init[k]) {
      assert init[..k] == steps[..k] && init[k] == steps[k];
    }
  }

  lemma ReloadRefers(d: Disk, n: int, reloaded: seq<LivePosition>)
    requires RowsRefer(d, n) && Lists(reloaded, d.positions)
    ensures AllRefer(d.signals, reloaded, n)
  {
    forall q | q in reloaded ensures Refers(d.signals, q, n) { assert d.positions[q.tradeId] == q; }
  }

  lemma StepFollows(c: Config, s: Live, e: Step)
    requires AllAgree(s.disk) && RowsRefer(s.disk, s.nextId) && AllRefer(s.disk.signals, s.open, s.nextId)
    requires Reloads(c, s, e) && SparesOutcomes(c, s, e)
    ensures var t := StepTo(c, s, e);
      AllAgree(t.disk) && RowsRefer(t.disk, t.nextId) && AllRefer(t.disk.signals, t.open, t.nextId)
  {
    hide AllAgree, RowsRefer, AllRefer, PassOf, ApplyAll, AdapterAfter, Lists;
    match e {
      case Polled(b, now, r) =>
        PollFollows(c, s, b, now, r);
      case Restarted(reloaded, _) =>
        ReloadRefers(s.disk, s.nextId, reloaded);
      case Crashed(b, now, r, cut, reloaded, _) =>
        PollFollows(c, s, b, now, r);
        var es := PassOf(c, s, b, now, r).effects;
        var at := if cut <= |es| then cut else |es|;
        assert es[..at] == Cut(es, cut);
        assert at > 0 ==> Cut(es, cut)[at - 1] == es[at - 1];
        var t := StepTo(c, s, e);
        ReloadRefers(t.disk, t.nextId, reloaded);
    }
  }

  /** Over every run of polls, restarts and crashes, with any adapter, refusals, stale lists and double closes
      included: a rejected signal has no outcome and a taken one has the outcome of its last close row, or is open
      while it has none, as long as no crash comes right after a close row. */
  lemma {:induction false} SignalsFollowLedger(c: Config, s: Live, steps: seq<Step>)
    requires AllAgree(s.disk) && RowsRefer(s.disk, s.nextId) && AllRefer(s.disk.signals, s.open, s.nextId)
    requires AllReload(c, s, steps) && AllSpare(c, s, steps)
    ensures var f := RunSteps(c, s, steps);
      AllAgree(f.disk) && RowsRefer(f.disk, f.nextId) && AllRefer(f.disk.signals, f.open, f.nextId)
  {
    hide StepTo, AllAgree, RowsRefer, AllRefer, AllReload, Reloads, AllSpare, SparesOutcomes;
    if steps != [] {
      ReloadInit(c, s, steps);
      SpareInit(c, s, steps);
      SignalsFollowLedger(c, s, steps[..|steps| - 1]);
      StepFollows(c, RunSteps(c, s, steps[..|steps| - 1]), steps[|steps| - 1]);
    }
  }

  // ---------------------------------------------------------------- a crash right after a close row

  /** Close rows follow their order and belong to different signals. */
  ghost predicate RowsApart(es: seq<Effect>) {
    && (forall i {:trigger es[i]} :: 0 <= i < |es| && IsCloseRow(es[i]) ==>
      i > 0 && es[i - 1].Sent? && es[i].entry.realisedPnl.Some?)
    && (forall i, j {:trigger es[i], es[j]} :: 0 <= i < j < |es| && IsCloseRow(es[i]) && IsCloseRow(es[j]) ==>
          es[i].entry.signalId != es[j].entry.signalId)
  }

  /** Close rows belong to the signals of the first k positions. */
  ghost predicate RowsFrom(es: seq<Effect>, open: seq<LivePosition>, k: nat) {
    forall i {:trigger es[i]} :: 0 <= i < |es| && IsCloseRow(es[i]) ==>
      exists j :: 0 <= j < k && j < |open| && es[i].entry.signalId == open[j].signalId
        && es[i].entry.tradeId == open[j].tradeId
  }

  lemma CloseApart(c: Config, s: Live, p: Pass, k: nat, b: Bar, now: int)
    requires k < |s.open| && |p.book| == |s.open| && p.book[k] == s.open[k] && DistinctSignals(s.open)
    requires RowsApart(p.effects) && RowsFrom(p.effects, s.open, k)
    ensures var q := CloseOne(c, p, k, b, now);
      RowsApart(q.effects) && RowsFrom(q.effects, s.open, k + 1) && q.book == p.book
  {
    hide ClosePnl, RMultiple, Submit, CloseOrder;
    var q := CloseOne(c, p, k, b, now);
    assert forall i {:trigger q.effects[i]} :: 0 <= i < |p.effects| ==> q.effects[i] == p.effects[i];
    assert forall i {:trigger q.effects[i]} :: |p.effects| <= i < |q.effects| && IsCloseRow(q.effects[i]) ==>
      i == |p.effects| + 1;
  }

  lemma NoneApart(open: seq<LivePosition>)
    ensures RowsApart([]) && RowsFrom([], open, 0)
  {
  }

  lemma OneFurther(es: seq<Effect>, open: seq<LivePosition>, k: nat)
    requires RowsFrom(es, open, k)
    ensures RowsFrom(es, open, k + 1)
  {
  }

  lemma SaveApart(es: seq<Effect>, open: seq<LivePosition>, k: nat, e: Effect)
    requires RowsApart(es) && RowsFrom(es, open, k) && e.Saved?
    ensures RowsApart(es + [e]) && RowsFrom(es + [e], open, k + 1)
  {
    var all := es + [e];
    assert forall i {:trigger all[i]} :: 0 <= i < |all| && IsCloseRow(all[i]) ==> i < |es| && all[i] == es[i];
  }

  lemma {:induction false} ManageApart(c: Config, s: Live, b: Bar, now: int, k: nat)
    requires k <= |s.open| && DistinctSignals(s.open)
    ensures var p := ManageTo(c, Begin(s), b, now, k);
      && RowsApart(p.effects) && RowsFrom(p.effects, s.open, k)
      && forall j {:trigger p.book[j]} :: k <= j < |s.open| ==> p.book[j] == s.open[j]
  {
    hide CheckExit, WithExcursion, CloseOne, DistinctSignals, RowsApart, RowsFrom;
    if k == 0 {
      NoneApart(s.open);
    } else {
      ManageApart(c, s, b, now, k - 1);
      var p := ManageTo(c, Begin(s), b, now, k - 1);
      OneFurther(p.effects, s.open, k - 1);
      if !p.raised {
        CloseApart(c, s, p, k - 1, b, now);
        SaveApart(p.effects, s.open, k - 1, Saved(WithExcursion(p.book[k - 1], b)));
      }
    }
  }

  /** No signal is published among these statements. */
  ghost predicate Silent(es: seq<Effect>) {
    forall i :: 0 <= i < |es| ==> !es[i].Published?
  }

  lemma {:induction false} ManageIsSilent(c: Config, s: Live, b: Bar, now: int, k: nat)
    requires k <= |s.open|
    ensures Silent(ManageTo(c, Begin(s), b, now, k).effects)
  {
    hide CheckExit, WithExcursion, CloseOne;
    if k > 0 {
      ManageIsSilent(c, s, b, now, k - 1);
      var p := ManageTo(c, Begin(s), b, now, k - 1);
      if !p.raised { CloseIsSilent(c, p, k - 1, b, now); }
    }
  }

  lemma CloseIsSilent(c: Config, p: Pass, k: nat, b: Bar, now: int)
    requires k < |p.book| && Silent(p.effects)
    ensures Silent(CloseOne(c, p, k, b, now).effects)
  {
    hide ClosePnl, RMultiple, Submit, CloseOrder;
  }

  /** Signals are published after the last close row of a poll. */
  lemma PublishedLate(c: Config, s: Live, b: Bar, now: int, r: Backtest.Reading, cut: nat)
    requires cut < |PassOf(c, s, b, now, r).effects| && IsCloseRow(PassOf(c, s, b, now, r).effects[cut])
    ensures Silent(PassOf(c, s, b, now, r).effects[..cut])
  {
    hide ManageTo, React;
    var m, es := Manage(c, s, b, now), PassOf(c, s, b, now, r).effects;
    ManageIsSilent(c, s, b, now, |s.open|);
    CloseRows.ReactLonger(c, m, r, b, now);
    CloseRows.ReactCloses(c, m, r, b, now, cut);
    assert m.effects <= es;
    forall i | 0 <= i < cut ensures !es[..cut][i].Published? { assert es[i] == m.effects[i]; }
  }

  lemma ReactApart(c: Config, s: Live, b: Bar, now: int, r: Backtest.Reading)
    requires DistinctSignals(s.open)
    ensures RowsApart(PassOf(c, s, b, now, r).effects) && RowsFrom(PassOf(c, s, b, now, r).effects, s.open, |s.open|)
  {
    hide ManageTo, React, DistinctSignals;
    ManageApart(c, s, b, now, |s.open|);
    var m, es := Manage(c, s, b, now), PassOf(c, s, b, now, r).effects;
    CloseRows.ReactLonger(c, m, r, b, now);
    forall i {:trigger es[i]} | 0 <= i < |es| && IsCloseRow(es[i]) ensures i < |m.effects| && es[i] == m.effects[i] {
      CloseRows.ReactCloses(c, m, r, b, now, i);
    }
  }

  /** No close row of the signal among these statements: its last result is what it was. */
  lemma {:induction false} ResultKept(d: Disk, es: seq<Effect>, g: int)
    requires forall i {:trigger es[i]} :: 0 <= i < |es| && IsCloseRow(es[i]) ==> es[i].entry.signalId != g
    ensures LastResult(ApplyAll(d, es).ledger, g) == LastResult(d.ledger, g)
  {
    if es != [] {
      var init, last := es[..|es| - 1], es[|es| - 1];
      assert forall i {:trigger init[i]} :: 0 <= i < |init| ==> init[i] == es[i];
      ResultKept(d, init, g);
      if last.Recorded? { NextResult(ApplyAll(d, init).ledger, last.entry, g); }
    }
  }

  /** Every listed position has a stored, taken signal of its own without a close row. */
  ghost predicate Unresolved(open: seq<LivePosition>, d: Disk) {
    && DistinctSignals(open)
    && forall q :: q in open ==>
      q.signalId in d.signals && d.signals[q.signalId].taken && LastResult(d.ledger, q.signalId) == None
  }

  /** From such a loop, whose signals agree, cut a poll after any statement, with any adapter: the signals agree with
      the ledger if and only if that statement is not a close row; and after a close row its signal is still open. */
  lemma PollSignalCutsExact(c: Config, s: Live, b: Bar, now: int, r: Backtest.Reading, cut: nat)
    requires AllAgree(s.disk) && RowsRefer(s.disk, s.nextId) && AllRefer(s.disk.signals, s.open, s.nextId)
    requires Unresolved(s.open, s.disk)
    requires cut <= |PassOf(c, s, b, now, r).effects|
    ensures var es := PassOf(c, s, b, now, r).effects; var d := ApplyAll(s.disk, es[..cut]);
      && (AllAgree(d) <==> cut == 0 || !IsCloseRow(es[cut - 1]))
      && (cut > 0 && IsCloseRow(es[cut - 1]) ==>
            var g := es[cut - 1].entry.signalId;
              g in d.signals && d.signals[g].outcome == Some(Open) && LastResult(d.ledger, g).Some?)
  {
    hide PassOf, AllAgree, RowsRefer, AllRefer, ApplyAll, LastResult, Agrees, DistinctSignals;
    var es := PassOf(c, s, b, now, r).effects;
    PollFollows(c, s, b, now, r);
    ReactApart(c, s, b, now, r);
    if cut > 0 && IsCloseRow(es[cut - 1]) {
      var before, row := es[..cut - 1], es[cut - 1].entry;
      assert es[..cut] == before + [es[cut - 1]];
      OneMore(s.disk, [], before, es[cut - 1]);
      assert before == [] || before[|before| - 1] == es[cut - 2];
      var j :| 0 <= j < |s.open| && row.signalId == s.open[j].signalId && row.tradeId == s.open[j].tradeId;
      assert s.open[j] in s.open;
      assert forall i {:trigger before[i]} :: 0 <= i < |before| ==> before[i] == es[i];
      PublishedLate(c, s, b, now, r, cut - 1);
      ResultKept(s.disk, before, row.signalId);
      SignalKept(s.disk, before, row.signalId);
      OpenUntilClosed(ApplyAll(s.disk, before), row);
    }
  }

  lemma OpenUntilClosed(d: Disk, row: LedgerEntry)
    requires AllAgree(d) && row.event.Closed? && row.realisedPnl.Some?
    requires row.signalId in d.signals && d.signals[row.signalId].taken && LastResult(d.ledger, row.signalId) == None
    ensures var f := Apply(d, Recorded(row));
      !AllAgree(f) && f.signals[row.signalId].outcome == Some(Open) && LastResult(f.ledger, row.signalId).Some?
  {
    NextResult(d.ledger, row, row.signalId);
    var f := Apply(d, Recorded(row));
    assert Agrees(d.signals[row.signalId], d.ledger, row.signalId);
    assert !Agrees(f.signals[row.signalId], f.ledger, row.signalId);
  }

  /** A stored signal stays stored, taken or not as it was, unless it is published anew. */
  lemma {:induction false} SignalKept(d: Disk, es: seq<Effect>, g: int)
    requires g in d.signals
    requires forall i {:trigger es[i]} :: 0 <= i < |es| && es[i].Published? ==> es[i].row.signalId != g
    ensures g in ApplyAll(d, es).signals && ApplyAll(d, es).signals[g].taken == d.signals[g].taken
  {
    if es != [] {
      var init := es[..|es| - 1];
      assert forall i {:trigger init[i]} :: 0 <= i < |init| ==> init[i] == es[i];
      SignalKept(d, init, g);
    }
  }
}

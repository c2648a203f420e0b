/** Which crashes leave memory, store, ledger and broker in agreement. */
module HarmlessCrashes {
  import opened Bars
  import opened Records
  import opened Stores
  import opened LiveLoop
  import opened CrashSafety
  import opened Tickets
  import opened TableAgreement
  import opened CrashCuts
  import opened Recovery
  import opened Drift
  import opened CloseRows
  import Backtest

  /** Not a filled order, a close row, an outcome, or the first save of a position. */
  predicate HarmlessLast(d0: Disk, es: seq<Effect>) {
    es == [] || !(MidOrder(es[|es| - 1]) || Halfway(d0, es[|es| - 1]))
  }

  ghost predicate Harmless(c: Config, s: Live, e: Step) {
    && Reloads(c, s, e)
    && match e
       case Polled(b, now, _) => !WillGoStale(s, b, now)
       case Restarted(_, _) => true
       case Crashed(b, now, r, cut, _, _) => HarmlessLast(s.disk, Cut(PassOf(c, s, b, now, r).effects, cut))
  }

  /** Memory lists the store, store and ledger agree, and the open positions carry the broker's tickets. */
  ghost predicate Agreed(s: Live, o: map<int, int>) {
    Mirrored(s) && TablesCoincide(s.disk) && InStep(s.open, s.adapter, o)
  }

  lemma CutAt(es: seq<Effect>, cut: nat) returns (at: nat)
    ensures at <= |es| && es[..at] == Cut(es, cut) && es == es[..at] + es[at..]
    ensures at == |Cut(es, cut)|
  {
    at := if cut <= |es| then cut else |es|;
  }

  lemma CrashAgrees(c: Config, s: Live, o: map<int, int>, b: Bar, now: int, r: Backtest.Reading, cut: nat,
    reloaded: seq<LivePosition>, equity: real)
    requires Agreed(s, o) && Harmless(c, s, Crashed(b, now, r, cut, reloaded, equity))
    ensures var t, es := StepTo(c, s, Crashed(b, now, r, cut, reloaded, equity)),
      Cut(PassOf(c, s, b, now, r).effects, cut);
      Agreed(t, Owners(o, es)) && ProtocolKept(o, es)
  {
    hide PassOf, InStep, TablesCoincide, Lists, IdsBelow, ApplyAll, AdapterAfter, Owners, ProtocolKept, MidOrder,
      Halfway, LeavesStaleList;
    var p := PassOf(c, s, b, now, r);
    var at := CutAt(p.effects, cut);
    PollCutsExact(c, s, b, now, r);
    CrashLeavesStepIff(c, s, o, b, now, r, at, reloaded);
    ListedIds(s);
    CrashIds(c, s, b, now, r, cut);
    PollNamesOwn(c, s, o, b, now, r);
    ProtocolParts(o, p.effects[..at], p.effects[at..]);
    assert at > 0 ==> p.effects[..at][at - 1] == p.effects[at - 1];
  }

  /** In step, no poll sends a dead ticket, stale or not. */
  lemma PollNamesOwn(c: Config, s: Live, o: map<int, int>, b: Bar, now: int, r: Backtest.Reading)
    requires InStep(s.open, s.adapter, o)
    ensures ProtocolKept(o, PassOf(c, s, b, now, r).effects)
  {
    hide PassOf, Ticketed, HasGhost, WillSendDead, WillGoStale, ProtocolKept, Owners;
    PollKeepsTickets(c, s, o, b, now, r);
    if WillSendDead(s, b, now) { DeadNeedsGhost(s, o, b, now); }
  }

  /** From agreement, every run of polls that do not go stale, restarts, and crashes after any statement but those
      keeps agreement, and every close order of it names a ticket open at the broker and opened for that trade. */
  lemma {:induction false} HarmlessRunsAgree(c: Config, s: Live, o: map<int, int>, steps: seq<Step>)
    requires Agreed(s, o)
    requires forall k {:trigger steps[k]} :: 0 <= k < |steps| ==> Harmless(c, RunSteps(c, s, steps[..k]), steps[k])
    ensures Agreed(RunSteps(c, s, steps), Owners(o, LogOf(c, s, steps))) && ProtocolKept(o, LogOf(c, s, steps))
  {
    hide PassOf, WillGoStale, Owners, ProtocolKept, Agreed, Lists, HarmlessLast, ApplyAll;
    if steps == [] {
      NothingYetRun(c, s, o);
    } else {
      var init, e := steps[..|steps| - 1], steps[|steps| - 1];
      assert steps[..|init|] == init;
      forall k {:trigger init[k]} | 0 <= k < |init| ensures Harmless(c, RunSteps(c, s, init[..k]), init[k]) {
        assert init[..k] == steps[..k] && init[k] == steps[k];
      }
      HarmlessRunsAgree(c, s, o, init);
      var l, log := RunSteps(c, s, init), LogOf(c, s, init);
      match e {
        case Polled(b, now, r) =>
          var es := PassOf(c, l, b, now, r).effects;
          PollAgrees(c, l, Owners(o, log), b, now, r);
          OwnersConcat(o, log, es);
          ProtocolConcat(o, log, es);
        case Restarted(reloaded, equity) =>
          assert log + [] == log;
          RestartAgrees(l, Owners(o, log), reloaded, equity);
        case Crashed(b, now, r, cut, reloaded, equity) =>
          var es := Cut(PassOf(c, l, b, now, r).effects, cut);
          CrashAgrees(c, l, Owners(o, log), b, now, r, cut, reloaded, equity);
          OwnersConcat(o, log, es);
          ProtocolConcat(o, log, es);
      }
    }
  }

  lemma PollAgrees(c: Config, s: Live, o: map<int, int>, b: Bar, now: int, r: Backtest.Reading)
    requires Agreed(s, o) && !WillGoStale(s, b, now)
    ensures var p := PassOf(c, s, b, now, r); Agreed(After(s, p), Owners(o, p.effects)) && ProtocolKept(o, p.effects)
  {
    hide PassOf, InStep, TablesCoincide, Mirrored, WillGoStale, Owners, ProtocolKept;
    FreshPollAgrees(c, s, o, b, now, r);
  }

  lemma RestartAgrees(s: Live, o: map<int, int>, reloaded: seq<LivePosition>, equity: real)
    requires Agreed(s, o) && Lists(reloaded, s.disk.positions)
    ensures Agreed(s.(open := reloaded, equity := equity), o)
  {
    hide InStep, TablesCoincide, Lists, IdsBelow;
    RestartInStep(s, o, reloaded);
  }
}

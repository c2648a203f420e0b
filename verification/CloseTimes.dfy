/** When a trade is closed twice, read off lists, bars and crash points alone, with simulated fills. */
module CloseTimes {
  import opened Prelude
  import opened Bars
  import opened Execution
  import opened Records
  import opened Stores
  import opened LiveLoop
  import opened CrashSafety
  import opened TableAgreement
  import opened CrashCuts
  import opened Tickets
  import opened Drift
  import opened CloseRows
  import Backtest

  // ---------------------------------------------------------------- close rows among statements

  function RowsClosing(es: seq<Effect>, id: int): nat {
    if es == [] then 0
    else
      var last := es[|es| - 1];
      RowsClosing(es[..|es| - 1], id) + if IsCloseRow(last) && last.entry.tradeId == id then 1 else 0
  }

  lemma {:induction false} ClosingConcat(a: seq<Effect>, b: seq<Effect>, id: int)
    ensures RowsClosing(a + b, id) == RowsClosing(a, id) + RowsClosing(b, id)
  {
    if b == [] {
      assert a + b == a;
    } else {
      assert (a + b)[..|a + b| - 1] == a + b[..|b| - 1];
      ClosingConcat(a, b[..|b| - 1], id);
    }
  }

  lemma {:induction false} ClosingCounted(d: Disk, es: seq<Effect>, id: int)
    ensures CloseCount(ApplyAll(d, es).ledger, id) == CloseCount(d.ledger, id) + RowsClosing(es, id)
  {
    if es != [] {
      var init, last := es[..|es| - 1], es[|es| - 1];
      ClosingCounted(d, init, id);
      if last.Recorded? { CountGrows(ApplyAll(d, init).ledger, last.entry, id); }
    }
  }

  lemma {:induction false} NoneClosing(es: seq<Effect>, id: int)
    requires forall i :: 0 <= i < |es| ==> !IsCloseRow(es[i])
    ensures RowsClosing(es, id) == 0
  {
    if es != [] { NoneClosing(es[..|es| - 1], id); }
  }

  // ---------------------------------------------------------------- when a close row is written

  /** How many statements the first k positions take: four for an exit, one for a position that stays. */
  function Statements(open: seq<LivePosition>, b: Bar, now: int, k: nat): nat
    requires k <= |open|
  {
    if k == 0 then 0
    else Statements(open, b, now, k - 1) + if CheckExit(open[k - 1], b, now).Some? then 4 else 1
  }

  /** The j-th position is this trade's, comes up for exit, and its close row, the second of its statements, is
      within the first `cut`. */
  predicate ClosesBy(open: seq<LivePosition>, b: Bar, now: int, id: int, cut: nat, j: nat)
    requires j < |open|
  {
    open[j].tradeId == id && CheckExit(open[j], b, now).Some? && Statements(open, b, now, j) + 2 <= cut
  }

  function Closing(open: seq<LivePosition>, b: Bar, now: int, id: int, cut: nat, k: nat): nat
    requires k <= |open|
  {
    if k == 0 then 0
    else Closing(open, b, now, id, cut, k - 1) + if ClosesBy(open, b, now, id, cut, k - 1) then 1 else 0
  }

  /** The statements of one position. */
  lemma BlockClosing(c: Config, p: LivePosition, now: int, fill: Fill, e: Effect, id: int, cut: nat)
    requires e.Sent?
    ensures var block := [e] + CloseEffects(c, p, now, fill);
      |block| == 4 && RowsClosing(Cut(block, cut), id) == if p.tradeId == id && 2 <= cut then 1 else 0
  {
    hide ClosePnl, RMultiple, RowsClosing;
    var block := [e] + CloseEffects(c, p, now, fill);
    var at := if cut <= 4 then cut else 4;
    assert Cut(block, cut) == block[..at];
    if at <= 1 {
      NoneClosing(block[..at], id);
    } else {
      assert block[..at] == [block[0]] + [block[1]] + block[2..at];
      NoneClosing([block[0]], id);
      NoneClosing(block[2..at], id);
      OneClosing(block[1], id);
      ClosingConcat([block[0]], [block[1]], id);
      ClosingConcat([block[0]] + [block[1]], block[2..at], id);
    }
  }

  lemma OneClosing(e: Effect, id: int)
    ensures RowsClosing([e], id) == if IsCloseRow(e) && e.entry.tradeId == id then 1 else 0
  {
    assert [e][..0] == [];
  }

  lemma CutConcat(a: seq<Effect>, b: seq<Effect>, cut: nat, id: int)
    ensures RowsClosing(Cut(a + b, cut), id) ==
      if cut <= |a| then RowsClosing(Cut(a, cut), id) else RowsClosing(a, id) + RowsClosing(Cut(b, cut - |a|), id)
  {
    hide RowsClosing;
    if cut <= |a| {
      assert Cut(a + b, cut) == Cut(a, cut);
    } else {
      assert Cut(a + b, cut) == a + Cut(b, cut - |a|);
      ClosingConcat(a, Cut(b, cut - |a|), id);
    }
  }

  lemma {:induction false} ManageClosing(c: Config, s: Live, b: Bar, now: int, id: int, cut: nat, k: nat)
    requires s.adapter.Simulated? && k <= |s.open|
    ensures var es := ManageTo(c, Begin(s), b, now, k).effects;
      |es| == Statements(s.open, b, now, k) && RowsClosing(Cut(es, cut), id) == Closing(s.open, b, now, id, cut, k)
  {
    hide CheckExit, WithExcursion, CloseEffects, CloseOrder, ClosePnl, Submit, RowsClosing, Cut;
    if k == 0 {
      NoCutClosing(cut, id);
    } else {
      ManageClosing(c, s, b, now, id, cut, k - 1);
      SimulatedNeverRaises(c, s, b, now, k - 1);
      BookAfter(c, s, b, now, k - 1);
      var p := ManageTo(c, Begin(s), b, now, k - 1);
      assert p.book[k - 1] == s.open[k - 1];
      WholeClosing(c, s, b, now, id, cut, k - 1);
      if CheckExit(s.open[k - 1], b, now).None? {
        SavedClosing(p.effects, Saved(WithExcursion(s.open[k - 1], b)), cut, id);
      } else {
        var order := CloseOrder(c, s.open[k - 1], b, now, p.nextId);
        var answer := Submit(p.adapter, order).1;
        var e := Sent(order, s.open[k - 1].tradeId, answer);
        assert answer.Ok? by { SimulatedFills(c, p.adapter, s.open[k - 1], b, now, p.nextId); }
        var block := [e] + CloseEffects(c, s.open[k - 1], now, answer.value);
        assert p.effects + [e] + CloseEffects(c, s.open[k - 1], now, answer.value) == p.effects + block;
        CutConcat(p.effects, block, cut, id);
        BlockClosing(c, s.open[k - 1], now, answer.value, e, id, if cut <= |p.effects| then 0 else cut - |p.effects|);
      }
    }
  }

  lemma NoCutClosing(cut: nat, id: int)
    ensures RowsClosing(Cut([], cut), id) == 0
  {
  }

  lemma SavedClosing(es: seq<Effect>, e: Effect, cut: nat, id: int)
    requires e.Saved?
    ensures RowsClosing(Cut(es + [e], cut), id) == RowsClosing(Cut(es, cut), id)
  {
    CutConcat(es, [e], cut, id);
    if cut > |es| {
      assert Cut(es, cut) == es;
      NoneClosing(Cut([e], cut - |es|), id);
    }
  }

  /** All of a pass, when the cut comes after it. */
  lemma WholeClosing(c: Config, s: Live, b: Bar, now: int, id: int, cut: nat, k: nat)
    requires s.adapter.Simulated? && k <= |s.open|
    requires |ManageTo(c, Begin(s), b, now, k).effects| == Statements(s.open, b, now, k)
    requires RowsClosing(Cut(ManageTo(c, Begin(s), b, now, k).effects, cut), id) == Closing(s.open, b, now, id, cut, k)
    ensures var es := ManageTo(c, Begin(s), b, now, k).effects;
      cut > |es| ==> RowsClosing(es, id) == Closing(s.open, b, now, id, cut, k)
  {
    hide ManageTo, RowsClosing;
    var es := ManageTo(c, Begin(s), b, now, k).effects;
    if cut > |es| { assert Cut(es, cut) == es; }
  }

  /** The close rows of one poll up to a cut. */
  lemma PollClosing(c: Config, s: Live, b: Bar, now: int, r: Backtest.Reading, id: int, cut: nat)
    requires s.adapter.Simulated?
    ensures RowsClosing(Cut(PassOf(c, s, b, now, r).effects, cut), id) == Closing(s.open, b, now, id, cut, |s.open|)
  {
    hide ManageTo, React, RowsClosing, Cut, Statements, Closing;
    var m := Manage(c, s, b, now);
    ManageClosing(c, s, b, now, id, cut, |s.open|);
    WholeClosing(c, s, b, now, id, cut, |s.open|);
    ReactLonger(c, m, r, b, now);
    var es := PassOf(c, s, b, now, r).effects;
    var more := es[|m.effects|..];
    assert es == m.effects + more;
    CutConcat(m.effects, more, cut, id);
    if cut > |m.effects| {
      var reaction := Cut(more, cut - |m.effects|);
      forall i | 0 <= i < |reaction| ensures !IsCloseRow(reaction[i]) {
        CutAt(more, cut - |m.effects|, i);
        assert es[|m.effects| + i] == more[i];
        if IsCloseRow(more[i]) { ReactCloses(c, m, r, b, now, |m.effects| + i); }
      }
      NoneClosing(reaction, id);
    }
  }

  lemma CutAt(es: seq<Effect>, cut: nat, i: nat)
    requires i < |Cut(es, cut)|
    ensures i < |es| && Cut(es, cut)[i] == es[i]
  {
  }

  // ---------------------------------------------------------------- runs

  /** This step gets to the close row of the trade: its listed position comes up for exit, and no crash comes before
      that row is written. */
  ghost predicate Closes(s: Live, e: Step, id: int) {
    match e
    case Polled(b, now, _) => exists j ::
      0 <= j < |s.open| && s.open[j].tradeId == id && CheckExit(s.open[j], b, now).Some?
    case Restarted(_, _) => false
    case Crashed(b, now, _, cut, _, _) => exists j :: 0 <= j < |s.open| && ClosesBy(s.open, b, now, id, cut, j)
  }

  lemma {:induction false} OneClosingAtMost(open: seq<LivePosition>, b: Bar, now: int, id: int, cut: nat, k: nat)
    requires DistinctIds(open) && k <= |open|
    ensures Closing(open, b, now, id, cut, k) ==
      if exists j :: 0 <= j < k && ClosesBy(open, b, now, id, cut, j) then 1 else 0
  {
    hide CheckExit, Statements;
    if k > 0 { OneClosingAtMost(open, b, now, id, cut, k - 1); }
  }

  lemma {:induction false} StatementsGrow(open: seq<LivePosition>, b: Bar, now: int, j: nat, k: nat)
    requires j < k <= |open|
    ensures Statements(open, b, now, j) + (if CheckExit(open[j], b, now).Some? then 4 else 1) <=
      Statements(open, b, now, k)
  {
    hide CheckExit;
    if j < k - 1 { StatementsGrow(open, b, now, j, k - 1); }
  }

  /** One step writes one close row for the trade if it gets to it, none otherwise. */
  lemma StepCloses(c: Config, s: Live, e: Step, id: int)
    requires Mirrored(s) && s.adapter.Simulated?
    ensures CloseCount(StepTo(c, s, e).disk.ledger, id) == CloseCount(s.disk.ledger, id) +
      if Closes(s, e, id) then 1 else 0
  {
    hide PassOf, CloseCount, Lists, IdsBelow, RowsClosing, Closing, CheckExit, Statements;
    MirroredList(s);
    match e {
      case Restarted(_, _) =>
      case Polled(b, now, r) =>
        var es := PassOf(c, s, b, now, r).effects;
        var cut := |es| + Statements(s.open, b, now, |s.open|);
        PollClosing(c, s, b, now, r, id, cut);
        assert Cut(es, cut) == es;
        ClosingCounted(s.disk, es, id);
        OneClosingAtMost(s.open, b, now, id, cut, |s.open|);
        forall j | 0 <= j < |s.open|
          ensures ClosesBy(s.open, b, now, id, cut, j) <==>
            s.open[j].tradeId == id && CheckExit(s.open[j], b, now).Some?
        {
          StatementsGrow(s.open, b, now, j, |s.open|);
        }
      case Crashed(b, now, r, cut, _, _) =>
        PollClosing(c, s, b, now, r, id, cut);
        ClosingCounted(s.disk, Cut(PassOf(c, s, b, now, r).effects, cut), id);
        OneClosingAtMost(s.open, b, now, id, cut, |s.open|);
    }
  }

  /** How many steps of the run get to a close row of the trade. */
  ghost function Closings(c: Config, s: Live, steps: seq<Step>, id: int): nat {
    if steps == [] then 0
    else
      var init := steps[..|steps| - 1];
      Closings(c, s, init, id) + if Closes(RunSteps(c, s, init), steps[|steps| - 1], id) then 1 else 0
  }

  /** Over every run of polls, restarts and crashes with simulated fills: a trade gets a close row for each step on
      which its listed position comes up for exit, unless a crash comes before that row; and no other. */
  lemma {:induction false} CloseRowsCounted(c: Config, s: Live, steps: seq<Step>, id: int)
    requires Mirrored(s) && s.adapter.Simulated? && AllReload(c, s, steps)
    ensures var f := RunSteps(c, s, steps);
      && Mirrored(f) && f.adapter.Simulated?
      && CloseCount(f.disk.ledger, id) == CloseCount(s.disk.ledger, id) + Closings(c, s, steps, id)
  {
    hide StepTo, Mirrored, AllReload, Reloads, LeavesStaleList, Closes, CloseCount;
    if steps != [] {
      var init, e := steps[..|steps| - 1], steps[|steps| - 1];
      ReloadInit(c, s, steps);
      CloseRowsCounted(c, s, init, id);
      var l := RunSteps(c, s, init);
      StepCloses(c, l, e, id);
      if e.Polled? { SimulatedIsNeverStale(c, l, e.bar, e.now); }
      StepMirrors(c, l, e);
      SimulatedIsSmooth(c, s, steps);
    }
  }

  /** No two steps of the run get to a close row of the trade. */
  ghost predicate ClosesOnce(c: Config, s: Live, steps: seq<Step>, id: int) {
    forall i, j {:trigger steps[i], steps[j]} :: 0 <= i < j < |steps| ==>
      !(Closes(RunSteps(c, s, steps[..i]), steps[i], id) && Closes(RunSteps(c, s, steps[..j]), steps[j], id))
  }

  ghost predicate NoneCloses(c: Config, s: Live, steps: seq<Step>, id: int) {
    forall i {:trigger steps[i]} :: 0 <= i < |steps| ==> !Closes(RunSteps(c, s, steps[..i]), steps[i], id)
  }

  lemma {:induction false} ClosingsAtMostOne(c: Config, s: Live, steps: seq<Step>, id: int)
    ensures Closings(c, s, steps, id) == 0 <==> NoneCloses(c, s, steps, id)
    ensures Closings(c, s, steps, id) <= 1 <==> ClosesOnce(c, s, steps, id)
  {
    hide RunSteps, Closes;
    if steps != [] {
      var init, n := steps[..|steps| - 1], |steps| - 1;
      ClosingsAtMostOne(c, s, init, id);
      assert steps[..n] == init;
      assert forall i {:trigger steps[i]} :: 0 <= i < n ==> init[i] == steps[i] && init[..i] == steps[..i];
      assert NoneCloses(c, s, steps, id) <==>
        NoneCloses(c, s, init, id) && !Closes(RunSteps(c, s, init), steps[n], id);
      if ClosesOnce(c, s, steps, id) { OnceInit(c, s, steps, id); }
      if ClosesOnce(c, s, init, id) && (NoneCloses(c, s, init, id) || !Closes(RunSteps(c, s, init), steps[n], id)) {
        OnceGrows(c, s, steps, id);
      }
    }
  }

  lemma OnceInit(c: Config, s: Live, steps: seq<Step>, id: int)
    requires steps != [] && ClosesOnce(c, s, steps, id)
    ensures var init := steps[..|steps| - 1];
      ClosesOnce(c, s, init, id) && (NoneCloses(c, s, init, id)
        || !Closes(RunSteps(c, s, init), steps[|steps| - 1], id))
  {
    hide RunSteps, Closes;
    var init, n := steps[..|steps| - 1], |steps| - 1;
    assert steps[..n] == init;
    assert forall i {:trigger init[i]} :: 0 <= i < n ==> init[i] == steps[i] && init[..i] == steps[..i];
  }

  lemma OnceGrows(c: Config, s: Live, steps: seq<Step>, id: int)
    requires steps != []
    requires var init := steps[..|steps| - 1];
      ClosesOnce(c, s, init, id) && (NoneCloses(c, s, init, id)
        || !Closes(RunSteps(c, s, init), steps[|steps| - 1], id))
    ensures ClosesOnce(c, s, steps, id)
  {
    hide RunSteps, Closes;
    var init, n := steps[..|steps| - 1], |steps| - 1;
    assert steps[..n] == init;
    assert forall i {:trigger steps[i]} :: 0 <= i < n ==> init[i] == steps[i] && init[..i] == steps[..i];
  }

  /** A trade without a close row is closed at most once over the run, if and only if no two steps bring its listed
      position up for exit and get as far as the close row. */
  lemma ClosedOnceIffDueOnce(c: Config, s: Live, steps: seq<Step>, id: int)
    requires Mirrored(s) && s.adapter.Simulated? && AllReload(c, s, steps) && !HasClose(s.disk.ledger, id)
    ensures CloseCount(RunSteps(c, s, steps).disk.ledger, id) <= 1 <==> ClosesOnce(c, s, steps, id)
  {
    hide RunSteps, Mirrored, AllReload, CloseCount, Closings, ClosesOnce, NoneCloses;
    CloseRowsCounted(c, s, steps, id);
    ClosingsAtMostOne(c, s, steps, id);
    UnclosedCountsNothing(s.disk.ledger, id);
  }
}

/** No look-ahead over a whole run, although the source hands over the whole history. */
module Causality {
  import opened Bars
  import opened Features
  import opened Records
  import opened Backtest

  /** The reading at the close of bar i is the same on any two histories that agree up to bar i. */
  lemma ReadingIsCausal(c: Config, a: seq<Bar>, b: seq<Bar>, i: nat)
    requires ValidConfig(c) && Ascending(a) && Ascending(b)
    requires i < |a| && i < |b| && a[..i + 1] == b[..i + 1]
    ensures ReadingAt(c, a, i) == ReadingAt(c, b, i)
  {
    hide VectorAt;
    SortKeepsSorted(a);
    SortKeepsSorted(b);
    assert a[i] == a[..i + 1][i] && b[i] == b[..i + 1][i];
    var ts := a[i].ts;
    ClosedAtBarClose(a, i, ts, Bars.Closed(a, ts));
    ClosedAtBarClose(b, i, ts, Bars.Closed(b, ts));
    VectorSeesOnlyClosedBars(c.engine, ts + c.seconds, c.seconds, a, b);
  }

  lemma {:induction false} ReplayIsCausal(c: Config, a: seq<Bar>, ra: seq<Reading>, b: seq<Bar>, rb: seq<Reading>,
    s: State, k: nat)
    requires k <= |a| == |ra| && k <= |b| == |rb|
    requires a[..k] == b[..k] && ra[..k] == rb[..k]
    ensures Replay(c, a, ra, s, k) == Replay(c, b, rb, s, k)
  {
    hide BarStep;
    if k > 0 {
      assert a[..k - 1] == a[..k][..k - 1] && b[..k - 1] == b[..k][..k - 1];
      assert ra[..k - 1] == ra[..k][..k - 1] && rb[..k - 1] == rb[..k][..k - 1];
      ReplayIsCausal(c, a, ra, b, rb, s, k - 1);
      assert a[k - 1] == a[..k][k - 1] && b[k - 1] == b[..k][k - 1];
      assert ra[k - 1] == ra[..k][k - 1] && rb[k - 1] == rb[..k][k - 1];
    }
  }

  /** Two strictly ascending histories that agree on their first k bars, with any futures, drive the
      engine through the same states up to bar k. */
  lemma RunIsCausal(c: Config, a: seq<Bar>, b: seq<Bar>, s: State, k: nat)
    requires ValidConfig(c) && Ascending(a) && Ascending(b)
    requires k <= |a| && k <= |b| && a[..k] == b[..k]
    ensures RunTo(c, a, s, k) == RunTo(c, b, s, k)
  {
    hide ReadingAt, Replay;
    var ra, rb := Readings(c, a), Readings(c, b);
    forall i | 0 <= i < k ensures ra[..k][i] == rb[..k][i] {
      assert a[..i + 1] == a[..k][..i + 1] && b[..i + 1] == b[..k][..i + 1];
      ReadingIsCausal(c, a, b, i);
    }
    assert ra[..k] == rb[..k];
    ReplayIsCausal(c, a, ra, b, rb, s, k);
  }

  // ---------------------------------------------------------------- histories only grow

  lemma {:induction false} ManageOnlyAppends(c: Config, s: State, trades: seq<OpenTrade>, b: Bar, i: int, k: nat)
    requires k <= |trades|
    ensures s.ledger <= ManageTo(c, s, trades, b, i, k).ledger
    ensures s.published == ManageTo(c, s, trades, b, i, k).published
  {
    hide CloseRow;
    if k > 0 { ManageOnlyAppends(c, s, trades, b, i, k - 1); }
  }

  lemma StepOnlyAppends(c: Config, s: State, b: Bar, r: Reading, i: nat)
    ensures s.ledger <= BarStep(c, s, b, r, i).ledger
    ensures s.published <= BarStep(c, s, b, r, i).published
  {
    hide ManageTo, MayEnter, GateDecision, SignalOf, OpenRow;
    ManageOnlyAppends(c, s, s.open, b, i, |s.open|);
  }

  lemma {:induction false} ReplayOnlyAppends(c: Config, bars: seq<Bar>, readings: seq<Reading>, s: State, j: nat,
    k: nat)
    requires j <= k <= |bars| == |readings|
    ensures Replay(c, bars, readings, s, j).ledger <= Replay(c, bars, readings, s, k).ledger
    ensures Replay(c, bars, readings, s, j).published <= Replay(c, bars, readings, s, k).published
  {
    hide BarStep;
    if j < k {
      ReplayOnlyAppends(c, bars, readings, s, j, k - 1);
      StepOnlyAppends(c, Replay(c, bars, readings, s, k - 1), bars[k - 1], readings[k - 1], k - 1);
    }
  }

  /** Whole-run causality: for strictly ascending bars, the ledger and the published signals of a
      backtest on the first k bars are prefixes of those of the backtest on all bars. */
  lemma PrefixRunIsPrefix(c: Config, bars: seq<Bar>, s: State, k: nat)
    requires ValidConfig(c) && Ascending(bars) && k <= |bars|
    ensures RunTo(c, bars[..k], s, k).ledger <= RunTo(c, bars, s, |bars|).ledger
    ensures RunTo(c, bars[..k], s, k).published <= RunTo(c, bars, s, |bars|).published
  {
    hide Replay, Readings;
    RunIsCausal(c, bars[..k], bars, s, k);
    ReplayOnlyAppends(c, bars, Readings(c, bars), s, k, |bars|);
  }
}

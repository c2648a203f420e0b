/** Runs of polls and restarts, exactly: when the tables coincide, and which tickets are open. */
module Recovery {
  import opened Prelude
  import opened Bars
  import opened Execution
  import opened Records
  import opened Stores
  import opened LiveLoop
  import opened CrashSafety
  import opened Tickets
  import opened TableAgreement
  import opened PassTables
  import opened CrashCuts
  import Backtest
  import Rules

  // ---------------------------------------------------------------- what a run keeps

  /** A position with an open ticket is stored and open in the ledger; one without is not open there. */
  ghost predicate Tells(p: LivePosition, d: Disk, o: map<int, int>) {
    if IsGhost(p, o) then !OpenInLedger(d.ledger, p.tradeId)
      else p.tradeId in d.positions && OpenInLedger(d.ledger, p.tradeId)
  }

  ghost predicate TicketsTell(open: seq<LivePosition>, d: Disk, o: map<int, int>) {
    forall q :: q in open ==> Tells(q, d, o)
  }

  ghost predicate ListedBelow(open: seq<LivePosition>, n: int) {
    forall q :: q in open ==> q.tradeId < n
  }

  /** The list carries the account's tickets, open or not, and the tables follow the tickets. */
  ghost predicate KeptBy(open: seq<LivePosition>, x: Adapter, d: Disk, n: int, o: map<int, int>) {
    && Ticketed(open, x, o) && DistinctIds(open) && ListedBelow(open, n)
    && RowsListed(d.positions, open) && TicketsTell(open, d, o) && IdsBelow(d, n)
  }

  /** The invariant of a run. */
  ghost predicate Kept(s: Live, o: map<int, int>) {
    KeptBy(s.open, s.adapter, s.disk, s.nextId, o) && Safe(s.disk)
  }

  /** No ghost is stored. */
  ghost predicate NoGhostStored(open: seq<LivePosition>, rows: map<int, LivePosition>, o: map<int, int>) {
    forall q :: q in open && IsGhost(q, o) ==> q.tradeId !in rows
  }

  lemma CoincideIffNoGhostStored(open: seq<LivePosition>, x: Adapter, d: Disk, n: int, o: map<int, int>)
    requires KeptBy(open, x, d, n, o) && Safe(d)
    ensures TablesCoincide(d) <==> NoGhostStored(open, d.positions, o)
  {
    hide OpenInLedger, Ticketed, IsGhost, IdsBelow, DistinctIds, ListedBelow;
    if NoGhostStored(open, d.positions, o) {
      forall id ensures id in d.positions <==> OpenInLedger(d.ledger, id) {
        if id in d.positions { assert d.positions[id] in open; }
      }
    }
  }

  // ---------------------------------------------------------------- one management pass

  /** A listed position that is no longer stored will be saved again: it does not come up for exit, and
      nothing is refused before it. */
  ghost predicate WillResave(s: Live, b: Bar, now: int) {
    exists j :: 0 <= j < |s.open| && Reaches(s.open, s.adapter, b, now, j)
      && CheckExit(s.open[j], b, now).None? && s.open[j].tradeId !in s.disk.positions
  }

  /** Where the walk ended, for lists that carry the account's tickets. */
  lemma HandledReach(c: Config, s: Live, o: map<int, int>, b: Bar, now: int, j: nat)
    requires Ticketed(s.open, s.adapter, o) && j < |s.open| && CheckExit(s.open[j], b, now).None?
    ensures j < Handled(c, s, b, now, |s.open|) <==> Reaches(s.open, s.adapter, b, now, j)
  {
    hide Ticketed, ProtocolKept, Owners, CheckExit, HasGhost, NothingClosed, OpenAfter, ManageTo, RefusedAt;
    ManageEnds(c, s, o, b, now);
    var m := Handled(c, s, b, now, |s.open|);
    NoExitNotRefused(s, b, now, j);
  }

  lemma NoExitNotRefused(s: Live, b: Bar, now: int, j: nat)
    requires j < |s.open| && CheckExit(s.open[j], b, now).None?
    ensures !RefusedAt(s.open, s.adapter, b, now, j)
  {
  }

  /** The tickets after a management pass: just those of the exits it got through are gone. */
  lemma ManageOpenAfter(c: Config, s: Live, o: map<int, int>, b: Bar, now: int)
    requires Ticketed(s.open, s.adapter, o)
    ensures var m := Handled(c, s, b, now, |s.open|);
      OpenAfter(s, o, Owners(o, Manage(c, s, b, now).effects), b, now, m)
  {
    hide Ticketed, ProtocolKept, Owners, CheckExit, HasGhost, NothingClosed, OpenAfter, ManageTo, RefusedAt, Reaches;
    ManageWalks(c, s, o, b, now, |s.open|);
  }

  /** What a management pass does to the j-th listed position: its ticket, its row, its standing in the ledger. */
  lemma PositionAfter(s: Live, o: map<int, int>, w: map<int, int>, d: Disk, b: Bar, now: int, m: nat, j: nat)
    requires DistinctIds(s.open) && m <= |s.open| && j < |s.open|
    requires TablesAfter(s.disk, d, s.open, b, now, m) && OpenAfter(s, o, w, b, now, m)
    ensures var id := s.open[j].tradeId;
      if j < m && CheckExit(s.open[j], b, now).Some? then
        IsGhost(s.open[j], w) && id !in d.positions && !OpenInLedger(d.ledger, id)
      else
        && (IsGhost(s.open[j], w) <==> IsGhost(s.open[j], o))
        && (id in d.positions <==> id in s.disk.positions || j < m)
        && (OpenInLedger(d.ledger, id) <==> OpenInLedger(s.disk.ledger, id))
  {
    hide HasClose, HasOpen, CheckExit, DistinctIds, IsGhost;
    var id := s.open[j].tradeId;
    IdsAmong(s.open, b, now, m, id);
    if id in ExitIds(s.open, b, now, m) {
      var i :| 0 <= i < m && s.open[i].tradeId == id && CheckExit(s.open[i], b, now).Some?;
      SameIndex(s.open, i, j);
    }
    if id in SavedIds(s.open, b, now, m) {
      var i :| 0 <= i < m && s.open[i].tradeId == id && CheckExit(s.open[i], b, now).None?;
      SameIndex(s.open, i, j);
    }
    if j < m {
      assert s.open[j].tradeId == id && (CheckExit(s.open[j], b, now).None? || CheckExit(s.open[j], b, now).Some?);
    }
  }

  lemma SameIndex(open: seq<LivePosition>, i: nat, j: nat)
    requires DistinctIds(open) && i < |open| && j < |open| && open[i].tradeId == open[j].tradeId
    ensures i == j
  {
  }

  /** The list after the pass: its entries are the listed positions, updated or not; every one of them when
      the pass was stopped, those without an exit when it completed. */
  lemma ListAfter(c: Config, s: Live, b: Bar, now: int, q: LivePosition) returns (j: nat)
    requires DistinctIds(s.open) && q in Manage(c, s, b, now).book
    ensures j < |s.open| && q.tradeId == s.open[j].tradeId && q.ticket == s.open[j].ticket
    ensures !Manage(c, s, b, now).raised ==> CheckExit(s.open[j], b, now).None?
  {
    hide ManageTo, CheckExit, WithExcursion, TablesAfter, DistinctIds, RowsListed;
    var p := ManageTo(c, Begin(s), b, now, |s.open|);
    if p.raised {
      ManagePasses(c, s, b, now, |s.open|);
      j :| 0 <= j < |p.book| && p.book[j] == q;
    } else {
      ManageKeeps(c, s, b, now, |s.open|);
      j :| 0 <= j < |s.open| && CheckExit(s.open[j], b, now).None? && q == WithExcursion(s.open[j], b);
    }
    SameTrade(s.open[j], b);
  }

  /** And back: a listed position is on the list after the pass, unless that completed and it came up for exit. */
  lemma StillListed(c: Config, s: Live, b: Bar, now: int, j: nat) returns (q: LivePosition)
    requires DistinctIds(s.open) && j < |s.open|
    requires Manage(c, s, b, now).raised || CheckExit(s.open[j], b, now).None?
    ensures q in Manage(c, s, b, now).book && q.tradeId == s.open[j].tradeId && q.ticket == s.open[j].ticket
  {
    hide ManageTo, CheckExit, WithExcursion, TablesAfter, DistinctIds, RowsListed;
    var p := ManageTo(c, Begin(s), b, now, |s.open|);
    SameTrade(s.open[j], b);
    if p.raised {
      ManagePasses(c, s, b, now, |s.open|);
      q := p.book[j];
      assert q in p.book;
    } else {
      ManageKeeps(c, s, b, now, |s.open|);
      q := WithExcursion(s.open[j], b);
      assert q in p.kept;
    }
  }

  lemma SameGhost(p: LivePosition, q: LivePosition, o: map<int, int>)
    requires p.ticket == q.ticket
    ensures IsGhost(p, o) <==> IsGhost(q, o)
  {
  }

  lemma ManageTells(c: Config, s: Live, o: map<int, int>, b: Bar, now: int)
    requires Kept(s, o)
    ensures var p := Manage(c, s, b, now); TicketsTell(p.book, ApplyAll(s.disk, p.effects), Owners(o, p.effects))
  {
    hide Ticketed, IsGhost, OpenInLedger, IdsBelow, DistinctIds, ListedBelow, RowsListed, TablesAfter, OpenAfter,
      ManageTo, Manage, CheckExit, ApplyAll, Owners, Safe;
    var p, m := Manage(c, s, b, now), Handled(c, s, b, now, |s.open|);
    var at, w := ApplyAll(s.disk, p.effects), Owners(o, p.effects);
    ManageTables(c, s, b, now);
    ManageOpenAfter(c, s, o, b, now);
    forall q | q in p.book ensures Tells(q, at, w) {
      var j := ListAfter(c, s, b, now, q);
      PositionAfter(s, o, w, at, b, now, m, j);
      SameGhost(q, s.open[j], w);
      SameGhost(q, s.open[j], o);
      assert s.open[j] in s.open;
    }
  }

  lemma ManageTables(c: Config, s: Live, b: Bar, now: int)
    requires DistinctIds(s.open)
    ensures var p, m := Manage(c, s, b, now), Handled(c, s, b, now, |s.open|);
      && TablesAfter(s.disk, ApplyAll(s.disk, p.effects), s.open, b, now, m)
      && DistinctIds(p.book) && (!p.raised ==> m == |s.open|)
      && (p.raised && RowsListed(s.disk.positions, s.open) ==>
        RowsListed(ApplyAll(s.disk, p.effects).positions, p.book))
  {
    hide ManageTo, TablesAfter, RowsListed, ApplyAll, CheckExit, WithExcursion;
    ManagePasses(c, s, b, now, |s.open|);
    var p := ManageTo(c, Begin(s), b, now, |s.open|);
    if !p.raised { ManageKeeps(c, s, b, now, |s.open|); }
  }

  lemma ManageLists(c: Config, s: Live, o: map<int, int>, b: Bar, now: int)
    requires Kept(s, o)
    ensures var p := Manage(c, s, b, now);
      RowsListed(ApplyAll(s.disk, p.effects).positions, p.book) && ListedBelow(p.book, s.nextId)
  {
    hide Ticketed, IsGhost, OpenInLedger, IdsBelow, TicketsTell, OpenAfter, ManageTo, CheckExit, ApplyAll, Safe,
      HasClose, HasOpen, WithExcursion;
    var p := Manage(c, s, b, now);
    ManageTables(c, s, b, now);
    forall q | q in p.book ensures q.tradeId < s.nextId {
      var j := ListAfter(c, s, b, now, q);
      assert s.open[j] in s.open;
    }
    if !p.raised { KeptRows(c, s, b, now); }
  }

  /** After a completed pass every stored row is one of the survivors. */
  lemma KeptRows(c: Config, s: Live, b: Bar, now: int)
    requires DistinctIds(s.open) && RowsListed(s.disk.positions, s.open) && !Manage(c, s, b, now).raised
    ensures RowsListed(ApplyAll(s.disk, Manage(c, s, b, now).effects).positions, Manage(c, s, b, now).book)
  {
    hide ManageTo, CheckExit, ApplyAll, HasClose, HasOpen, WithExcursion, DistinctIds;
    var p := ManageTo(c, Begin(s), b, now, |s.open|);
    ManagePasses(c, s, b, now, |s.open|);
    ManageKeeps(c, s, b, now, |s.open|);
    var rows := ApplyAll(s.disk, p.effects).positions;
    forall id {:trigger rows[id]} | id in rows ensures rows[id].tradeId == id && rows[id] in p.kept {
      assert rows[id] in p.book;
      var j :| 0 <= j < |p.book| && p.book[j] == rows[id];
      SameTrade(s.open[j], b);
      IdsAmong(s.open, b, now, |s.open|, id);
    }
  }

  /** Ghosts get stored when, and only when, a pass saves one again. */
  lemma ManageStoresGhosts(c: Config, s: Live, o: map<int, int>, b: Bar, now: int)
    requires Kept(s, o)
    ensures var p := Manage(c, s, b, now);
      NoGhostStored(p.book, ApplyAll(s.disk, p.effects).positions, Owners(o, p.effects)) <==>
        NoGhostStored(s.open, s.disk.positions, o) && !WillResave(s, b, now)
  {
    hide Ticketed, IsGhost, OpenInLedger, IdsBelow, DistinctIds, ListedBelow, RowsListed, TablesAfter, OpenAfter,
      ManageTo, Manage, CheckExit, ApplyAll, Owners, Safe, Reaches, NoGhostStored, Handled;
    var p := Manage(c, s, b, now);
    var at, w := ApplyAll(s.disk, p.effects), Owners(o, p.effects);
    ManageTables(c, s, b, now);
    ManageOpenAfter(c, s, o, b, now);
    if NoGhostStored(s.open, s.disk.positions, o) && !WillResave(s, b, now) {
      forall q | q in p.book && IsGhost(q, w) ensures q.tradeId !in at.positions {
        var j := ListAfter(c, s, b, now, q);
        SameGhost(q, s.open[j], w);
        GhostStaysOut(c, s, o, b, now, j);
      }
      NoneStored(p.book, at.positions, w);
    }
    if NoGhostStored(p.book, at.positions, w) {
      forall q | q in s.open && IsGhost(q, o) ensures q.tradeId !in s.disk.positions {
        var j :| 0 <= j < |s.open| && s.open[j] == q;
        GhostComesBack(c, s, o, b, now, j);
      }
      NoneStored(s.open, s.disk.positions, o);
      if WillResave(s, b, now) {
        var j :| 0 <= j < |s.open| && Reaches(s.open, s.adapter, b, now, j) && CheckExit(s.open[j], b, now).None?
          && s.open[j].tradeId !in s.disk.positions;
        HandledReach(c, s, o, b, now, j);
        TicketGone(s, o, j);
        GhostComesBack(c, s, o, b, now, j);
        PositionAfter(s, o, w, at, b, now, Handled(c, s, b, now, |s.open|), j);
        assert false;
      }
    }
  }

  lemma NoneStored(open: seq<LivePosition>, rows: map<int, LivePosition>, o: map<int, int>)
    requires forall q :: q in open && IsGhost(q, o) ==> q.tradeId !in rows
    ensures NoGhostStored(open, rows, o)
  {
  }

  /** A listed position that is not stored has no open ticket. */
  lemma TicketGone(s: Live, o: map<int, int>, j: nat)
    requires Kept(s, o) && j < |s.open| && s.open[j].tradeId !in s.disk.positions
    ensures IsGhost(s.open[j], o)
  {
    hide Ticketed, IsGhost, OpenInLedger;
    assert s.open[j] in s.open;
  }

  /** Without a stored ghost and without a resave, a ghost after the pass is not stored. */
  lemma GhostStaysOut(c: Config, s: Live, o: map<int, int>, b: Bar, now: int, j: nat)
    requires Kept(s, o) && j < |s.open| && NoGhostStored(s.open, s.disk.positions, o) && !WillResave(s, b, now)
    requires IsGhost(s.open[j], Owners(o, Manage(c, s, b, now).effects))
    ensures s.open[j].tradeId !in ApplyAll(s.disk, Manage(c, s, b, now).effects).positions
  {
    hide Ticketed, IsGhost, OpenInLedger, IdsBelow, DistinctIds, ListedBelow, RowsListed, TablesAfter, OpenAfter,
      ManageTo, Manage, CheckExit, ApplyAll, Owners, Safe, Reaches, Handled;
    var p, m := Manage(c, s, b, now), Handled(c, s, b, now, |s.open|);
    ManageTables(c, s, b, now);
    ManageOpenAfter(c, s, o, b, now);
    PositionAfter(s, o, Owners(o, p.effects), ApplyAll(s.disk, p.effects), b, now, m, j);
    assert s.open[j] in s.open;
    if CheckExit(s.open[j], b, now).None? { HandledReach(c, s, o, b, now, j); }
  }

  /** A ghost before the pass is on the list afterwards, a ghost still, stored if it was. */
  lemma GhostComesBack(c: Config, s: Live, o: map<int, int>, b: Bar, now: int, j: nat)
    requires Kept(s, o) && j < |s.open| && IsGhost(s.open[j], o)
    requires var p := Manage(c, s, b, now); NoGhostStored(p.book, ApplyAll(s.disk, p.effects).positions,
      Owners(o, p.effects))
    ensures s.open[j].tradeId !in s.disk.positions
    ensures s.open[j].tradeId !in ApplyAll(s.disk, Manage(c, s, b, now).effects).positions
    ensures !(j < Handled(c, s, b, now, |s.open|) && CheckExit(s.open[j], b, now).Some?)
  {
    hide Ticketed, OpenInLedger, IdsBelow, DistinctIds, ListedBelow, RowsListed, TablesAfter, OpenAfter, ManageTo,
      Manage, CheckExit, ApplyAll, Owners, Safe, Reaches, Handled, IsGhost;
    var p, m := Manage(c, s, b, now), Handled(c, s, b, now, |s.open|);
    ManageTables(c, s, b, now);
    ManageOpenAfter(c, s, o, b, now);
    if CheckExit(s.open[j], b, now).Some? { GhostNotHandled(c, s, o, b, now, j); }
    PositionAfter(s, o, Owners(o, p.effects), ApplyAll(s.disk, p.effects), b, now, m, j);
    var q := StillListed(c, s, b, now, j);
    SameGhost(q, s.open[j], Owners(o, p.effects));
  }

  /** A ghost's exit is refused, so no pass gets past it. */
  lemma GhostNotHandled(c: Config, s: Live, o: map<int, int>, b: Bar, now: int, j: nat)
    requires Ticketed(s.open, s.adapter, o) && j < |s.open| && IsGhost(s.open[j], o)
    requires CheckExit(s.open[j], b, now).Some?
    ensures Manage(c, s, b, now).raised && Handled(c, s, b, now, |s.open|) <= j
  {
    hide Ticketed, ProtocolKept, Owners, CheckExit, HasGhost, NothingClosed, OpenAfter, ManageTo, RefusedAt, Exits;
    ManageEnds(c, s, o, b, now);
    DeadIsRefused(s, o, b, now, j);
  }

  // ---------------------------------------------------------------- a whole poll

  /** The invariant in the middle of a poll that began at `s`. */
  ghost predicate KeptDuring(s: Live, o: map<int, int>, p: Pass) {
    KeptBy(p.book, p.adapter, ApplyAll(s.disk, p.effects), p.nextId, Owners(o, p.effects))
  }

  ghost predicate GhostsOut(s: Live, o: map<int, int>, p: Pass) {
    NoGhostStored(p.book, ApplyAll(s.disk, p.effects).positions, Owners(o, p.effects))
  }

  lemma LooserIds(open: seq<LivePosition>, n: int, m: int)
    requires ListedBelow(open, n) && n <= m
    ensures ListedBelow(open, m)
  {
  }

  lemma ManageKeepsAll(c: Config, s: Live, o: map<int, int>, b: Bar, now: int)
    requires Kept(s, o)
    ensures KeptDuring(s, o, Manage(c, s, b, now))
    ensures GhostsOut(s, o, Manage(c, s, b, now)) <==>
      NoGhostStored(s.open, s.disk.positions, o) && !WillResave(s, b, now)
  {
    hide Ticketed, IsGhost, OpenInLedger, DistinctIds, ListedBelow, RowsListed, TicketsTell, ManageTo, Manage, Handled,
      TablesAfter, ApplyAll, Owners, Safe, NoGhostStored, HasGhost, ProtocolKept, IdsBelow;
    var p := Manage(c, s, b, now);
    ManageEnds(c, s, o, b, now);
    ManageTables(c, s, b, now);
    ManageTells(c, s, o, b, now);
    ManageLists(c, s, o, b, now);
    CounterOfManage(c, s, b, now);
    LooserIds(p.book, s.nextId, p.nextId);
    ListIds(s);
    ManageIds(c, s, b, now);
    IdsStayBelow(s.disk, p.effects, p.nextId);
    ManageStoresGhosts(c, s, o, b, now);
  }

  lemma ListIds(s: Live)
    requires ListedBelow(s.open, s.nextId)
    ensures forall j :: 0 <= j < |s.open| ==> s.open[j].tradeId < s.nextId
  {
  }

  lemma ManageIds(c: Config, s: Live, b: Bar, now: int)
    requires IdsBelow(s.disk, s.nextId) && forall j :: 0 <= j < |s.open| ==> s.open[j].tradeId < s.nextId
    ensures var p := Manage(c, s, b, now); SmallIds(p.effects, p.nextId) && IdsBelow(s.disk, p.nextId)
  {
    hide ManageTo, SmallIds, IdsBelow;
    ManageSmallIds(c, s, b, now, |s.open|);
    MoreIds(s.disk, s.nextId, Manage(c, s, b, now).nextId);
  }

  /** The tables and tickets with one new position. */
  lemma OneMorePosition(open: seq<LivePosition>, d: Disk, n: int, o: map<int, int>, p: LivePosition, row: LedgerEntry,
    t: int, e: Disk, w: map<int, int>)
    requires DistinctIds(open) && ListedBelow(open, n) && RowsListed(d.positions, open) && TicketsTell(open, d, o)
    requires IdsBelow(d, n)
    requires p.tradeId == n + 1 == row.tradeId && row.event.Opened? && p.ticket == Some(t)
    requires forall q :: q in open ==> q.ticket != Some(t)
    requires e.positions == d.positions[p.tradeId := p] && e.ledger == d.ledger + [row] && w == o[t := p.tradeId]
    ensures DistinctIds(open + [p]) && ListedBelow(open + [p], n + 2) && RowsListed(e.positions, open + [p])
    ensures TicketsTell(open + [p], e, w) && IdsBelow(e, n + 2)
    ensures NoGhostStored(open + [p], e.positions, w) <==> NoGhostStored(open, d.positions, o)
  {
    LedgerGrows(d.ledger, row);
    var list := open + [p];
    forall i | 0 <= i < |open| ensures open[i].tradeId != p.tradeId { assert open[i] in open; }
    assert forall q :: q in list <==> q in open || q == p;
    assert !HasClose(d.ledger, p.tradeId);
    forall q | q in open
      ensures (IsGhost(q, w) <==> IsGhost(q, o)) && Tells(q, e, w)
        && (q.tradeId in e.positions <==> q.tradeId in d.positions)
    {
      assert q.tradeId < n;
      assert Tells(q, d, o);
    }
    assert !IsGhost(p, w);
    forall id {:trigger e.positions[id]} | id in e.positions
      ensures e.positions[id].tradeId == id && e.positions[id] in list
    {
      if id != p.tradeId { assert d.positions[id] in open; }
    }
    if NoGhostStored(list, e.positions, w) {
      forall q | q in open && IsGhost(q, o) ensures q.tradeId !in d.positions { assert q in list; }
    }
  }

  lemma EnterKeeps(c: Config, s: Live, o: map<int, int>, p: Pass, v: Rules.Verdict, r: Backtest.Reading, b: Bar,
    now: int, signalId: int)
    requires MayEnter(c, p.equity, |p.book|, v) && KeptDuring(s, o, p)
    ensures var q := Enter(c, p, v, r.fv, b, now, signalId);
      KeptDuring(s, o, q) && (GhostsOut(s, o, q) <==> GhostsOut(s, o, p))
  {
    hide GateDecision, OpenOrder, ApplyAll, Ticketed, DistinctIds, ListedBelow, RowsListed, TicketsTell, IdsBelow,
      Submit, Owners, HasGhost, ProtocolKept, NoGhostStored, AccountOf;
    var q := Enter(c, p, v, r.fv, b, now, signalId);
    var size, w, d := GateDecision(c, p.equity, |p.book|, v).sizeUnits, Owners(o, p.effects),
      ApplyAll(s.disk, p.effects);
    var order := OpenOrder(c, v, r.fv, b, now, size, p.nextId);
    var answer := Submit(p.adapter, order).1;
    var e := Sent(order, p.nextId + 1, answer);
    EnterCarries(c, o, p, v, r, b, now, signalId);
    NeverCloses(c, v, r, b, now, size, p.nextId);
    HasAccount(p.book, p.adapter, w);
    SendOpen(p.adapter, w, order, p.nextId + 1);
    OneMore(s.disk, [], p.effects, e);
    OneMoreHarmless(o, p.effects, e);
    if answer.Err? {
      LooserIds(p.book, p.nextId, p.nextId + 1);
      MoreIds(d, p.nextId, p.nextId + 1);
    } else {
      var pos := NewPosition(c, v, answer.value, signalId, p.nextId + 1, now);
      var row, sent := OpenRow(c, pos, now, answer.value), p.effects + [e];
      OneMore(s.disk, [], sent, Saved(pos));
      OneMore(s.disk, [], sent + [Saved(pos)], Recorded(row));
      OneMoreHarmless(o, sent, Saved(pos));
      OneMoreHarmless(o, sent + [Saved(pos)], Recorded(row));
      assert sent + [Saved(pos)] + [Recorded(row)] == q.effects;
      FreshTicket(p.book, p.adapter, w);
      OneMorePosition(p.book, d, p.nextId, w, pos, row, pos.ticket.value, ApplyAll(s.disk, q.effects),
        Owners(o, q.effects));
    }
  }

  lemma FreshTicket(open: seq<LivePosition>, x: Adapter, o: map<int, int>)
    requires Ticketed(open, x, o)
    ensures x.Broker? && forall q :: q in open ==> q.ticket != Some(x.account.received)
  {
    forall q | q in open ensures q.ticket != Some(x.account.received) {
      var i :| 0 <= i < |open| && open[i] == q;
      assert CarriesTicket(open[i], x.account.received, o);
    }
  }

  lemma PublishKeeps(s: Live, o: map<int, int>, p: Pass, row: SignalRow)
    requires KeptDuring(s, o, p)
    ensures KeptDuring(s, o, Publish(p, row)) && (GhostsOut(s, o, Publish(p, row)) <==> GhostsOut(s, o, p))
  {
    hide ApplyAll, Ticketed, Owners, DistinctIds, ListedBelow, RowsListed, IdsBelow, OpenInLedger, NoGhostStored,
      ProtocolKept;
    var d := ApplyAll(s.disk, p.effects);
    OneMore(s.disk, [], p.effects, Published(row));
    OneMoreHarmless(o, p.effects, Published(row));
    LooserIds(p.book, p.nextId, p.nextId + 1);
    MoreIds(d, p.nextId, p.nextId + 1);
    SameTablesTell(p.book, d, Apply(d, Published(row)), Owners(o, p.effects), p.nextId + 1);
  }

  lemma SameTablesTell(open: seq<LivePosition>, d: Disk, e: Disk, o: map<int, int>, n: int)
    requires d.positions == e.positions && d.ledger == e.ledger && TicketsTell(open, d, o) && IdsBelow(d, n)
    ensures TicketsTell(open, e, o) && IdsBelow(e, n)
  {
    forall q | q in open ensures Tells(q, e, o) { assert Tells(q, d, o); }
  }

  lemma RaisedKeeps(s: Live, o: map<int, int>, p: Pass)
    requires KeptDuring(s, o, p)
    ensures KeptDuring(s, o, p.(raised := true)) && (GhostsOut(s, o, p.(raised := true)) <==> GhostsOut(s, o, p))
  {
  }

  /** One poll from any state of a run, stale lists included. The invariant holds after it; the tables coincide
      after it exactly when they did and no listed position that had left the store is saved again; a listed
      ticket is dead after it exactly when one was or the list goes stale. */
  lemma PollKeeps(c: Config, s: Live, o: map<int, int>, b: Bar, now: int, r: Backtest.Reading)
    requires Kept(s, o)
    ensures var p := PassOf(c, s, b, now, r);
      && Kept(After(s, p), Owners(o, p.effects))
      && (TablesCoincide(After(s, p).disk) <==> TablesCoincide(s.disk) && !WillResave(s, b, now))
      && (HasGhost(p.book, Owners(o, p.effects)) <==> HasGhost(s.open, o) || WillGoStale(s, b, now))
      && (ProtocolKept(o, p.effects) <==> !WillSendDead(s, b, now))
  {
    hide Manage, React, KeptBy, TablesCoincide, NoGhostStored, WillResave, WillGoStale, WillSendDead, ProtocolKept,
      HasGhost, Safe, ApplyAll, Owners, SafeThroughout;
    var p := PassOf(c, s, b, now, r);
    ManageKeepsAll(c, s, o, b, now);
    ReactKeeps(c, s, o, Manage(c, s, b, now), r, b, now);
    PollTicketed(c, s, o, b, now, r);
    PassIsSafe(c, s, b, now, r);
    AtEnd(s.disk, p.effects);
    CoincideIffNoGhostStored(s.open, s.adapter, s.disk, s.nextId, o);
    CoincideIffNoGhostStored(p.book, p.adapter, ApplyAll(s.disk, p.effects), p.nextId, Owners(o, p.effects));
  }

  lemma PollTicketed(c: Config, s: Live, o: map<int, int>, b: Bar, now: int, r: Backtest.Reading)
    requires Kept(s, o)
    ensures var p := PassOf(c, s, b, now, r);
      && (HasGhost(p.book, Owners(o, p.effects)) <==> HasGhost(s.open, o) || WillGoStale(s, b, now))
      && (ProtocolKept(o, p.effects) <==> !WillSendDead(s, b, now))
  {
    hide PassOf, Ticketed, HasGhost, WillGoStale, WillSendDead, ProtocolKept, DistinctIds, RowsListed, TicketsTell,
      IdsBelow, ListedBelow;
    PollKeepsTickets(c, s, o, b, now, r);
  }

  lemma ReactKeeps(c: Config, s: Live, o: map<int, int>, m: Pass, r: Backtest.Reading, b: Bar, now: int)
    requires KeptDuring(s, o, m)
    ensures var p := React(c, m, r, b, now); KeptDuring(s, o, p) && (GhostsOut(s, o, p) <==> GhostsOut(s, o, m))
  {
    hide KeptDuring, GhostsOut, MayEnter, Enter, SignalOf;
    var v := r.verdict;
    RaisedKeeps(s, o, m);
    if !m.raised && (v.Taken? || v.TurnedDown?) {
      var row := SignalOf(m.nextId, now, v);
      PublishKeeps(s, o, m, row);
      var q := Publish(m, row);
      if MayEnter(c, q.equity, |q.book|, v) { EnterKeeps(c, s, o, q, v, r, b, now, m.nextId); }
    }
  }

  // ---------------------------------------------------------------- a restart between polls

  /** Ticketed carries over to a list of the store's rows: those with open tickets are all stored. */
  lemma ReloadTicketed(s: Live, o: map<int, int>, reloaded: seq<LivePosition>)
    requires Kept(s, o) && Lists(reloaded, s.disk.positions)
    ensures Ticketed(reloaded, s.adapter, o)
  {
    hide OpenInLedger, IdsBelow, HasGhost, Safe;
    var x := s.adapter;
    forall i | 0 <= i < |reloaded|
      ensures CarriesTicket(reloaded[i], x.account.received, o)
    {
      var j := WasListed(s, o, reloaded, i);
    }
    forall i, k | 0 <= i < k < |reloaded| ensures reloaded[i].ticket != reloaded[k].ticket {
      var p := WasListed(s, o, reloaded, i);
      var q := WasListed(s, o, reloaded, k);
      assert p < q || q < p;
    }
    forall t | t in o ensures exists i :: 0 <= i < |reloaded| && reloaded[i].ticket == Some(t) {
      var j := HolderOf(s, o, t);
      assert s.open[j] in s.open;
      assert Tells(s.open[j], s.disk, o);
      var row := s.disk.positions[s.open[j].tradeId];
      assert row in s.open && row in reloaded;
      var k :| 0 <= k < |s.open| && s.open[k] == row;
      SameIndex(s.open, j, k);
    }
  }

  lemma WasListed(s: Live, o: map<int, int>, reloaded: seq<LivePosition>, i: nat) returns (j: nat)
    requires Kept(s, o) && Lists(reloaded, s.disk.positions) && i < |reloaded|
    ensures j < |s.open| && s.open[j] == reloaded[i] && s.adapter.Broker?
    ensures CarriesTicket(reloaded[i], s.adapter.account.received, o)
  {
    assert reloaded[i] in reloaded;
    assert s.disk.positions[reloaded[i].tradeId] in s.open;
    j :| 0 <= j < |s.open| && s.open[j] == reloaded[i];
    assert CarriesTicket(s.open[j], s.adapter.account.received, o);
  }

  /** A restart lists just what is stored: the invariant holds, the tables are as they were, and a listed ticket
      is dead exactly when a ghost was stored, that is when the tables do not coincide. */
  lemma RestartKeeps(c: Config, s: Live, o: map<int, int>, reloaded: seq<LivePosition>, equity: real)
    requires Kept(s, o) && Lists(reloaded, s.disk.positions)
    ensures var t := s.(open := reloaded, equity := equity);
      Kept(t, o) && (HasGhost(t.open, o) <==> !TablesCoincide(s.disk))
  {
    hide OpenInLedger, Ticketed, IsGhost, Safe;
    ReloadTicketed(s, o, reloaded);
    forall q | q in reloaded
      ensures q in s.open && q.tradeId in s.disk.positions
    {
      assert s.disk.positions[q.tradeId] in s.open;
    }
    forall q | q in reloaded ensures Tells(q, s.disk, o) { assert q in s.open; }
    forall id {:trigger s.disk.positions[id]} | id in s.disk.positions ensures s.disk.positions[id] in reloaded {
      assert s.disk.positions[id].tradeId == id;
    }
    CoincideIffNoGhostStored(reloaded, s.adapter, s.disk, s.nextId, o);
    if HasGhost(reloaded, o) {
      var j :| 0 <= j < |reloaded| && IsGhost(reloaded[j], o);
      assert reloaded[j] in reloaded;
    }
    if q :| q in reloaded && IsGhost(q, o) {
      var j :| 0 <= j < |reloaded| && reloaded[j] == q;
      assert IsGhost(reloaded[j], o);
    }
  }

  // ---------------------------------------------------------------- runs

  /** All statements of a run, in order. */
  function LogOf(c: Config, s: Live, steps: seq<Step>): seq<Effect> {
    if steps == [] then []
    else
      var init, e := steps[..|steps| - 1], steps[|steps| - 1];
      var l := RunSteps(c, s, init);
      LogOf(c, s, init) + match e
        case Polled(b, now, r) => PassOf(c, l, b, now, r).effects
        case Restarted(_, _) => []
        case Crashed(b, now, r, cut, _, _) => Cut(PassOf(c, l, b, now, r).effects, cut)
  }

  ghost predicate Resaves(l: Live, e: Step) {
    e.Polled? && WillResave(l, e.bar, e.now)
  }

  ghost predicate GoesStale(l: Live, e: Step) {
    e.Polled? && WillGoStale(l, e.bar, e.now)
  }

  ghost predicate SendsDead(l: Live, e: Step) {
    e.Polled? && WillSendDead(l, e.bar, e.now)
  }

  /** Some poll of the run saves a listed position again that had left the store. */
  ghost predicate SomeResave(c: Config, s: Live, steps: seq<Step>) {
    exists k {:trigger steps[k]} :: 0 <= k < |steps| && Resaves(RunSteps(c, s, steps[..k]), steps[k])
  }

  /** Some poll since the last restart goes stale. */
  ghost predicate StaleSinceRestart(c: Config, s: Live, steps: seq<Step>) {
    exists k {:trigger steps[k]} :: 0 <= k < |steps| && GoesStale(RunSteps(c, s, steps[..k]), steps[k])
      && forall j :: k < j < |steps| ==> !steps[j].Restarted?
  }

  /** Some poll sends a close on a dead ticket. */
  ghost predicate SomeDead(c: Config, s: Live, steps: seq<Step>) {
    exists k {:trigger steps[k]} :: 0 <= k < |steps| && SendsDead(RunSteps(c, s, steps[..k]), steps[k])
  }

  lemma ResaveGrows(c: Config, s: Live, steps: seq<Step>)
    requires steps != []
    ensures var init := steps[..|steps| - 1];
      SomeResave(c, s, steps) <==> SomeResave(c, s, init) || Resaves(RunSteps(c, s, init), steps[|steps| - 1])
  {
    hide RunSteps, WillResave;
    var init := steps[..|steps| - 1];
    if k :| 0 <= k < |steps| && Resaves(RunSteps(c, s, steps[..k]), steps[k]) {
      if k < |init| { assert init[..k] == steps[..k] && init[k] == steps[k]; }
    }
    if k :| 0 <= k < |init| && Resaves(RunSteps(c, s, init[..k]), init[k]) {
      assert init[..k] == steps[..k] && init[k] == steps[k];
    }
  }

  lemma DeadGrows(c: Config, s: Live, steps: seq<Step>)
    requires steps != []
    ensures var init := steps[..|steps| - 1];
      SomeDead(c, s, steps) <==> SomeDead(c, s, init) || SendsDead(RunSteps(c, s, init), steps[|steps| - 1])
  {
    hide RunSteps, WillSendDead;
    var init := steps[..|steps| - 1];
    if k :| 0 <= k < |steps| && SendsDead(RunSteps(c, s, steps[..k]), steps[k]) {
      if k < |init| { assert init[..k] == steps[..k] && init[k] == steps[k]; }
    }
    if k :| 0 <= k < |init| && SendsDead(RunSteps(c, s, init[..k]), init[k]) {
      assert init[..k] == steps[..k] && init[k] == steps[k];
    }
  }

  lemma StaleGrows(c: Config, s: Live, steps: seq<Step>)
    requires steps != []
    ensures var init, e := steps[..|steps| - 1], steps[|steps| - 1];
      StaleSinceRestart(c, s, steps) <==>
        (!e.Restarted? && StaleSinceRestart(c, s, init)) || GoesStale(RunSteps(c, s, init), e)
  {
    hide RunSteps, WillGoStale;
    var init, e := steps[..|steps| - 1], steps[|steps| - 1];
    if k :| 0 <= k < |steps| && GoesStale(RunSteps(c, s, steps[..k]), steps[k]) && forall j :: k < j < |steps| ==>
      !steps[j].Restarted? {
      if k < |init| {
        assert init[..k] == steps[..k] && init[k] == steps[k];
        assert forall j :: k < j < |init| ==> init[j] == steps[j];
      }
    }
    if !e.Restarted? && StaleSinceRestart(c, s, init) {
      var k :| 0 <= k < |init| && GoesStale(RunSteps(c, s, init[..k]), init[k]) && forall j :: k < j < |init| ==>
        !init[j].Restarted?;
      assert init[..k] == steps[..k] && init[k] == steps[k];
      assert forall j :: k < j < |init| ==> init[j] == steps[j];
    }
    if GoesStale(RunSteps(c, s, init), e) { assert steps[..|init|] == init; }
  }

  /** No crash, and every restart reloads what the store holds. */
  ghost predicate Uncrashed(c: Config, s: Live, steps: seq<Step>) {
    forall k {:trigger steps[k]} :: 0 <= k < |steps| ==>
      match steps[k]
      case Polled(_, _, _) => true
      case Restarted(reloaded, _) => Lists(reloaded, RunSteps(c, s, steps[..k]).disk.positions)
      case Crashed(_, _, _, _, _, _) => false
  }

  lemma UncrashedInit(c: Config, s: Live, steps: seq<Step>)
    requires steps != [] && Uncrashed(c, s, steps)
    ensures Uncrashed(c, s, steps[..|steps| - 1])
    ensures var e := steps[|steps| - 1];
      !e.Crashed? && (e.Restarted? ==> Lists(e.reloaded, RunSteps(c, s, steps[..|steps| - 1]).disk.positions))
  {
    hide RunSteps, Lists;
    var init := steps[..|steps| - 1];
    forall k {:trigger init[k]} | 0 <= k < |init| ensures init[..k] == steps[..k] && init[k] == steps[k] {}
  }

  lemma {:induction false} ProtocolParts(o: map<int, int>, a: seq<Effect>, b: seq<Effect>)
    ensures ProtocolKept(o, a + b) <==> ProtocolKept(o, a) && ProtocolKept(Owners(o, a), b)
  {
    hide ProtocolKept, NamesItsOwn, Owners;
    if b == [] {
      assert a + b == a;
      NothingBroken(Owners(o, a));
    } else {
      var init, last := b[..|b| - 1], b[|b| - 1];
      ProtocolParts(o, a, init);
      OwnersConcat(o, a, init);
      assert a + init + [last] == a + b && init + [last] == b;
      ProtocolLast(o, a + init, last);
      ProtocolLast(Owners(o, a), init, last);
    }
  }

  lemma NothingBroken(o: map<int, int>)
    ensures ProtocolKept(o, [])
  {
  }

  lemma ProtocolLast(o: map<int, int>, es: seq<Effect>, e: Effect)
    ensures ProtocolKept(o, es + [e]) <==> ProtocolKept(o, es) && NamesItsOwn(Owners(o, es), e)
  {
    hide NamesItsOwn, Owners;
    OneMoreEffect(o, es, e);
    if ProtocolKept(o, es + [e]) {
      LastOfKept(o, es + [e]);
      assert (es + [e])[..|es|] == es;
    }
  }

  lemma ResaveNeedsGhost(s: Live, o: map<int, int>, b: Bar, now: int)
    requires Kept(s, o) && WillResave(s, b, now)
    ensures HasGhost(s.open, o)
  {
    hide Kept, Reaches, CheckExit;
    var j :| 0 <= j < |s.open| && Reaches(s.open, s.adapter, b, now, j) && CheckExit(s.open[j], b, now).None?
      && s.open[j].tradeId !in s.disk.positions;
    TicketGone(s, o, j);
  }

  /** The broker-ticket protocol over every run of polls and restarts, refusals and stale lists included, from a
      loop in step with its broker whose tables coincide. The list always carries the account's tickets; the
      tables coincide at the end exactly when no poll saved a position again that had left the store; the
      tickets of the open positions are those open at the broker exactly when besides no poll since the last
      restart went stale; and every close order of the run named a ticket open at the broker and opened for that
      same trade exactly when none went out on a dead ticket. Each condition is on list, store, bar and broker's
      answers before a poll. */
  lemma {:induction false} RunKeepsTickets(c: Config, s: Live, o: map<int, int>, steps: seq<Step>)
    requires Kept(s, o) && InStep(s.open, s.adapter, o) && TablesCoincide(s.disk) && Uncrashed(c, s, steps)
    ensures var f, w := RunSteps(c, s, steps), Owners(o, LogOf(c, s, steps));
      && Kept(f, w)
      && (TablesCoincide(f.disk) <==> !SomeResave(c, s, steps))
      && (InStep(f.open, f.adapter, w) <==> !SomeResave(c, s, steps) && !StaleSinceRestart(c, s, steps))
      && (ProtocolKept(o, LogOf(c, s, steps)) <==> !SomeDead(c, s, steps))
  {
    hide PassOf, Kept, TablesCoincide, Ticketed, HasGhost, WillResave, WillGoStale, WillSendDead, ProtocolKept, Lists,
      Uncrashed, SomeResave, SomeDead, StaleSinceRestart, Owners;
    if steps == [] {
      NothingYetRun(c, s, o);
    } else {
      var init, e := steps[..|steps| - 1], steps[|steps| - 1];
      UncrashedInit(c, s, steps);
      RunKeepsTickets(c, s, o, init);
      ResaveGrows(c, s, steps);
      DeadGrows(c, s, steps);
      StaleGrows(c, s, steps);
      var l, log := RunSteps(c, s, init), LogOf(c, s, init);
      var w := Owners(o, log);
      KeptIsTicketed(l, w);
      match e {
        case Polled(b, now, r) =>
          var es := PassOf(c, l, b, now, r).effects;
          PollKeeps(c, l, w, b, now, r);
          OwnersConcat(o, log, es);
          ProtocolParts(o, log, es);
          if WillResave(l, b, now) { ResaveNeedsGhost(l, w, b, now); }
        case Restarted(reloaded, equity) =>
          assert log + [] == log;
          RestartKeeps(c, l, w, reloaded, equity);
      }
      var f, v := RunSteps(c, s, steps), Owners(o, LogOf(c, s, steps));
      KeptIsTicketed(f, v);
      assert HasGhost(f.open, v) <==> SomeResave(c, s, steps) || StaleSinceRestart(c, s, steps);
    }
  }

  lemma NothingYetRun(c: Config, s: Live, o: map<int, int>)
    ensures !SomeResave(c, s, []) && !SomeDead(c, s, []) && !StaleSinceRestart(c, s, []) && ProtocolKept(o, [])
    ensures Owners(o, []) == o
  {
  }

  lemma KeptIsTicketed(s: Live, o: map<int, int>)
    requires Kept(s, o)
    ensures Ticketed(s.open, s.adapter, o)
  {
  }

  // ---------------------------------------------------------------- from a loop that agrees with its tables

  /** Memory lists the store, the tables coincide, and the broker is in step: the state of a fresh start, of any
      clean restart, and of every run below until something is refused. */
  lemma AgreementIsKept(s: Live, o: map<int, int>)
    requires Mirrored(s) && TablesCoincide(s.disk) && InStep(s.open, s.adapter, o)
    ensures Kept(s, o)
  {
    hide OpenInLedger, IdsBelow, Ticketed;
    MirroredList(s);
    forall q | q in s.open ensures !IsGhost(q, o) {
      var j :| 0 <= j < |s.open| && s.open[j] == q;
      assert !IsGhost(s.open[j], o);
    }
  }

  /** With simulated fills every poll that ends leaves memory listing the store and the tables coinciding. */
  lemma SimulatedPollAgrees(c: Config, s: Live, b: Bar, now: int, r: Backtest.Reading)
    requires Mirrored(s) && TablesCoincide(s.disk) && s.adapter.Simulated?
    ensures var t := After(s, PassOf(c, s, b, now, r)); Mirrored(t) && TablesCoincide(t.disk) && t.adapter == s.adapter
    ensures !WillResave(s, b, now)
  {
    hide PassOf, OpenInLedger, Lists, IdsBelow, ApplyAll, LeavesStaleList, SafeThroughout, Manage, Reaches;
    var p := PassOf(c, s, b, now, r);
    SimulatedIsNeverStale(c, s, b, now);
    PollSettles(c, s, b, now, r);
    PassIsSafe(c, s, b, now, r);
    AtEnd(s.disk, p.effects);
    forall id
      ensures id in ApplyAll(s.disk, p.effects).positions <==> OpenInLedger(ApplyAll(s.disk, p.effects).ledger, id)
    {
      assert !Stray(s.disk, id);
      assert !Stray(ApplyAll(s.disk, p.effects), id);
    }
    SimulatedStays(c, s, b, now, r);
    MirroredList(s);
  }

  lemma SimulatedStays(c: Config, s: Live, b: Bar, now: int, r: Backtest.Reading)
    requires s.adapter.Simulated?
    ensures PassOf(c, s, b, now, r).adapter == s.adapter
  {
    hide ManageTo, MayEnter, GateDecision, SignalOf, OpenOrder, SimulatedFill;
    SimulatedNeverRaises(c, s, b, now, |s.open|);
  }

  lemma {:induction false} SimulatedRunAgrees(c: Config, s: Live, steps: seq<Step>)
    requires Mirrored(s) && TablesCoincide(s.disk) && s.adapter.Simulated? && Uncrashed(c, s, steps)
    ensures var f := RunSteps(c, s, steps); Mirrored(f) && TablesCoincide(f.disk) && f.adapter == s.adapter
    ensures !SomeResave(c, s, steps)
  {
    hide PassOf, TablesCoincide, WillResave, Uncrashed, SomeResave, Lists, IdsBelow;
    if steps == [] {
      NothingYetRun(c, s, map[]);
    } else {
      var init, e := steps[..|steps| - 1], steps[|steps| - 1];
      UncrashedInit(c, s, steps);
      SimulatedRunAgrees(c, s, init);
      ResaveGrows(c, s, steps);
      var l := RunSteps(c, s, init);
      if e.Polled? { SimulatedPollAgrees(c, l, e.bar, e.now, e.reading); }
    }
  }

  /** Over every run of polls and restarts, stale lists included: the position store holds exactly the trades the
      ledger shows open at the end if and only if no poll of the run saved a position again that had left the
      store. With simulated fills none ever does; with a broker it takes a stale list first. */
  lemma UncrashedRunsCoincide(c: Config, s: Live, o: map<int, int>, steps: seq<Step>)
    requires Mirrored(s) && TablesCoincide(s.disk) && Uncrashed(c, s, steps)
    requires s.adapter.Simulated? || InStep(s.open, s.adapter, o)
    ensures TablesCoincide(RunSteps(c, s, steps).disk) <==> !SomeResave(c, s, steps)
    ensures s.adapter.Simulated? ==> !SomeResave(c, s, steps)
  {
    hide RunSteps, TablesCoincide, SomeResave, Uncrashed, InStep, Kept, Mirrored;
    if s.adapter.Simulated? {
      SimulatedRunAgrees(c, s, steps);
    } else {
      AgreementIsKept(s, o);
      RunKeepsTickets(c, s, o, steps);
    }
  }

  lemma RestartInStep(s: Live, o: map<int, int>, reloaded: seq<LivePosition>)
    requires Mirrored(s) && InStep(s.open, s.adapter, o) && Lists(reloaded, s.disk.positions)
    ensures InStep(reloaded, s.adapter, o)
  {
    hide Lists, Ticketed, StoreInStep, IdsBelow;
    HasAccount(s.open, s.adapter, o);
    ReloadInStep(s.open, s.disk.positions, s.adapter, o);
    ReloadInStep(reloaded, s.disk.positions, s.adapter, o);
  }

  lemma FreshPollAgrees(c: Config, s: Live, o: map<int, int>, b: Bar, now: int, r: Backtest.Reading)
    requires Mirrored(s) && TablesCoincide(s.disk) && InStep(s.open, s.adapter, o) && !WillGoStale(s, b, now)
    ensures var p := PassOf(c, s, b, now, r);
      Mirrored(After(s, p)) && TablesCoincide(After(s, p).disk) && InStep(p.book, p.adapter, Owners(o, p.effects))
        && ProtocolKept(o, p.effects)
  {
    hide PassOf, TablesCoincide, WillResave, WillGoStale, WillSendDead, Lists, IdsBelow, Owners, ProtocolKept,
      Ticketed, HasGhost, Kept, LeavesStaleList, ApplyAll, StraysSurvive;
    AgreementIsKept(s, o);
    KeptIsTicketed(s, o);
    PollKeeps(c, s, o, b, now, r);
    StaleForeseen(c, s, o, b, now);
    PollSettles(c, s, b, now, r);
    if WillResave(s, b, now) { ResaveNeedsGhost(s, o, b, now); }
    if WillSendDead(s, b, now) { DeadNeedsGhost(s, o, b, now); }
    KeptIsTicketed(After(s, PassOf(c, s, b, now, r)), Owners(o, PassOf(c, s, b, now, r).effects));
  }

  lemma StaleForeseen(c: Config, s: Live, o: map<int, int>, b: Bar, now: int)
    requires Ticketed(s.open, s.adapter, o)
    ensures LeavesStaleList(c, s, b, now) <==> WillGoStale(s, b, now)
  {
    hide Manage, ManageTo, Ticketed, HasGhost, ProtocolKept, WillSendDead, Owners;
    ManageEnds(c, s, o, b, now);
  }

  lemma DeadNeedsGhost(s: Live, o: map<int, int>, b: Bar, now: int)
    requires Ticketed(s.open, s.adapter, o) && WillSendDead(s, b, now)
    ensures HasGhost(s.open, o)
  {
    hide Ticketed, StopsAt;
    var k :| 0 <= k < |s.open| && StopsAt(s.open, s.adapter, b, now, k) && s.adapter.Broker? && s.open[k].ticket.Some?
      && s.open[k].ticket.value !in s.adapter.account.open;
    DeadStop(s, o, k);
    assert IsGhost(s.open[k], o);
  }

  // ---------------------------------------------------------------- drift without a crash, concretely

  /** A bar on which neither position of the example comes up for exit. */
  function CalmBar(now: int): Bar {
    Bar(now, 1.0, 1.0, 1.0, 1.0, 0.0, 1.0, 1.0)
  }

  /** From a clean start, without any crash: the bar that stops out both positions leaves the first listed but
      no longer stored; on the next, calm bar it is saved again. Both polls run to their end as the scheduler
      sees it, and the store now holds a trade the ledger has closed. */
  lemma UncrashedDriftExample(c: Config, now: int, r: Backtest.Reading)
    requires r.verdict.Quiet?
    ensures var s, run := TwoLongs(c, now), [Polled(StopBar(now), now, r), Polled(CalmBar(now), now, r)];
      && Mirrored(s) && TablesCoincide(s.disk) && InStep(s.open, s.adapter, map[0 := 10, 1 := 11])
        && Uncrashed(c, s, run)
      && !TablesCoincide(RunSteps(c, s, run).disk)
  {
    hide PassOf, InStep, TablesCoincide, LeavesStaleList, SomeResave;
    var s, first, second := TwoLongs(c, now), Polled(StopBar(now), now, r), Polled(CalmBar(now), now, r);
    var run := [first, second];
    StaleListExample(c, now, r);
    ExampleStart(c, now);
    assert run[..1] == [first] && run[..1][..0] == [];
    assert RunSteps(c, s, [first]) == StepTo(c, s, first);
    var t := RunSteps(c, s, run[..1]);
    assert Reaches(t.open, t.adapter, CalmBar(now), now, 0);
    assert WillResave(t, CalmBar(now), now);
    assert Resaves(t, run[1]);
    ASaveAgain(c, s, run, 1);
    UncrashedRunsCoincide(c, s, map[0 := 10, 1 := 11], run);
  }

  lemma ASaveAgain(c: Config, s: Live, steps: seq<Step>, k: nat)
    requires k < |steps| && Resaves(RunSteps(c, s, steps[..k]), steps[k])
    ensures SomeResave(c, s, steps)
  {
  }

  lemma ExampleStart(c: Config, now: int)
    ensures Mirrored(TwoLongs(c, now)) && TablesCoincide(TwoLongs(c, now).disk)
  {
    var s := TwoLongs(c, now);
    var p, q := s.open[0], s.open[1];
    assert forall x :: x in s.open <==> x == p || x == q;
    assert s.disk.ledger[0].tradeId == 10 && s.disk.ledger[1].tradeId == 11;
    assert HasOpen(s.disk.ledger, 10) && HasOpen(s.disk.ledger, 11);
  }
}

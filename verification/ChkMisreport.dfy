/**
 Two runs from empty tables after which the slot reported by an update does not hold the item:
 once because another item's lobby entry was promoted, once because the kick chain came back to
 the slot. Both are with two buckets in each table. The heap then lists the item with a count
 that is not its own.
 */
module ChkMisreport {
  import opened Common
  import opened ChkTable
  import opened ChkReport
  import opened ChkHeap

  // ---------- tables of two buckets ----------

  datatype Row = Row(left: Entry, right: Entry, lobby: Entry)

  const ZERO := Entry(0, 0)
  const VACANT := Row(ZERO, ZERO, ZERO)

  function Rows(a0: Row, a1: Row, b0: Row, b1: Row): Cells {
    map[Heavy(false, 0, false) := a0.left, Heavy(false, 0, true) := a0.right, Lobby(false, 0) := a0.lobby,
        Heavy(false, 1, false) := a1.left, Heavy(false, 1, true) := a1.right, Lobby(false, 1) := a1.lobby,
        Heavy(true, 0, false) := b0.left, Heavy(true, 0, true) := b0.right, Lobby(true, 0) := b0.lobby,
        Heavy(true, 1, false) := b1.left, Heavy(true, 1, true) := b1.right, Lobby(true, 1) := b1.lobby]
  }

  lemma TwoBuckets(i: bv64)
    ensures InTable(i, 1) <==> i == 0 || i == 1
  {
  }

  lemma RowsComplete(a0: Row, a1: Row, b0: Row, b1: Row)
    ensures Complete(Rows(a0, a1, b0, b1), 1)
  {
    hide InTable;
    var cells := Rows(a0, a1, b0, b1);
    forall s: Slot ensures InTable(s.idx, 1) <==> s in cells {
      TwoBuckets(s.idx);
    }
  }

  /** Even fingerprints keep their bucket number in the other table, odd ones change it. */
  lemma OtherBuckets()
    ensures AltIdx(2, 0, 1) == AltIdx(4, 0, 1) == AltIdx(6, 0, 1) == AltIdx(8, 0, 1) == AltIdx(10, 0, 1) == AltIdx(20, 0, 1) == 0
    ensures AltIdx(1, 0, 1) == AltIdx(3, 0, 1) == AltIdx(13, 0, 1) == AltIdx(15, 0, 1) == AltIdx(17, 0, 1) == 1
  {
  }

  // ---------- steps ----------

  /** An item that is nowhere and finds an empty heavy slot. */
  lemma FillsSlot(cells: Cells, c: Class, weight: nat, ch: Choice, mask: bv64, e: nat)
    requires Complete(cells, mask) && InTable(c.home, mask) && Known(cells, HeavySlots(c, mask)) && e < 4
    requires forall k :: 0 <= k < 4 ==> cells[HeavySlots(c, mask)[k]].fp != c.fp
    requires forall k :: 0 <= k < e ==> Live(cells[HeavySlots(c, mask)[k]])
    requires !Live(cells[HeavySlots(c, mask)[e]])
    ensures var s := HeavySlots(c, mask)[e]; Update(cells, c, weight, ch, mask) == Checked(cells[s := Entry(c.fp, weight)], At(s))
  {
    hide HeavySlots, FirstMatch, FirstEmpty, Complete, InTable;
    FourSlots(c, mask);
    StageOrHeavy(cells, c, weight, ch, mask);
  }

  lemma FullMeansNowhere(cells: Cells, c: Class, weight: nat, mask: bv64)
    requires Complete(cells, mask) && InTable(c.home, mask) && Known(cells, HeavySlots(c, mask))
    requires forall k :: 0 <= k < 4 ==> cells[HeavySlots(c, mask)[k]].fp != c.fp && Live(cells[HeavySlots(c, mask)[k]])
    ensures CheckHeavyEntries(cells, c, weight, mask) == Checked(cells, Nowhere)
  {
    hide HeavySlots, FirstMatch, FirstEmpty, Complete, InTable;
    FourSlots(c, mask);
  }

  /** An item that is nowhere, with its heavy slots taken, in tables of two buckets. */
  ghost predicate Outside(cells: Cells, c: Class, mask: bv64) {
    && Complete(cells, mask) && InTable(c.home, mask) && Known(cells, HeavySlots(c, mask))
    && (forall k :: 0 <= k < 4 ==> cells[HeavySlots(c, mask)[k]].fp != c.fp && Live(cells[HeavySlots(c, mask)[k]]))
    && (forall t: bool :: LobbyOf(c, t, mask) in cells && cells[LobbyOf(c, t, mask)].fp != c.fp)
  }

  lemma OutsideMisses(cells: Cells, c: Class, weight: nat, ch: Choice, mask: bv64)
    requires Outside(cells, c, mask)
    ensures Untracked(cells, c, weight, ch, mask)
    ensures Known(cells, HeavySlots(c, mask)) && CheckHeavyEntries(cells, c, weight, mask).at.Nowhere?
    ensures CheckLobby(cells, c, weight, false, ch, mask).at.Nowhere? && CheckLobby(cells, c, weight, true, ch, mask).at.Nowhere?
  {
    hide HeavySlots, Complete, InTable, TryPromote;
    FullMeansNowhere(cells, c, weight, mask);
    assert cells[LobbyOf(c, false, mask)].fp != c.fp && cells[LobbyOf(c, true, mask)].fp != c.fp;
  }

  /** A light item takes the first empty lobby. */
  lemma TakesLobby(cells: Cells, c: Class, weight: nat, second: bool, ch: Choice, mask: bv64)
    requires Outside(cells, c, mask) && weight < LOBBY_PROMOTION_THRESHOLD
    requires !Live(cells[LobbyOf(c, second, mask)]) && (second ==> Live(cells[LobbyOf(c, false, mask)]))
    ensures Update(cells, c, weight, ch, mask) == Checked(cells[LobbyOf(c, second, mask) := Entry(c.fp, weight)], InLobby)
  {
    hide HeavySlots, Complete, InTable, TryPromote, CheckHeavyEntries, CheckLobby;
    OutsideMisses(cells, c, weight, ch, mask);
  }

  /** Both lobbies taken: the one of the fingerprint's side is decayed. */
  lemma Decays(cells: Cells, c: Class, weight: nat, ch: Choice, mask: bv64)
    requires Outside(cells, c, mask) && forall t: bool :: Live(cells[LobbyOf(c, t, mask)])
    ensures Update(cells, c, weight, ch, mask) == DecayLobby(cells, c, weight, ch, mask)
    ensures ch.decayed != 0 ==> DecaysAnother(cells, c, weight, ch, mask)
  {
    hide HeavySlots, Complete, InTable, TryPromote, CheckHeavyEntries, CheckLobby, DecayLobby;
    OutsideMisses(cells, c, weight, ch, mask);
    assert Live(cells[LobbyOf(c, false, mask)]) && Live(cells[LobbyOf(c, true, mask)]);
  }

  lemma RunMore(cells: Cells, total: nat, e: Event, next: Cells, es: seq<Event>, last: Cells, lastTotal: nat, mask: bv64)
    requires Complete(cells, mask) && InTable(e.c.home, mask) && e.weight > 0 && Possible(cells, e.c, e.ch, mask)
    requires Update(cells, e.c, e.weight, e.ch, mask).cells == next && Complete(next, mask)
    requires IsRun(next, total + e.weight, es, last, lastTotal, mask)
    ensures IsRun(cells, total, [e] + es, last, lastTotal, mask)
  {
    hide Update, Complete, InTable, Possible;
    assert ([e] + es)[1..] == es;
  }

  // ---------- another item's lobby entry ----------

  /** The choices of an update: what is heavy, whether a promotion is drawn, and what a decay
      leaves. */
  function Draw(isHeavy: nat -> bool, promote: bool, decayed: nat): Choice {
    Choice(isHeavy, promote, decayed, 0)
  }

  const BUSY := Row(Entry(1, 1000), Entry(3, 1000), ZERO)
  const BUSY2 := Row(Entry(2, 1000), Entry(4, 1000), ZERO)

  function Busy(lobby: Entry, lobby2: Entry): Cells {
    Rows(BUSY.(lobby := lobby), VACANT, BUSY2.(lobby := lobby2), VACANT)
  }

  /** Any four entries of bucket 0 fill it in order: two in the first table, two even ones in the
      second. */
  lemma FillsFour(w: bv16, nw: nat, x: bv16, nx: nat, y: bv16, ny: nat, z: bv16, nz: nat, h: nat -> bool,
                  es: seq<Event>, last: Cells, lastTotal: nat)
    requires nw > 0 && nx > 0 && ny > 0 && nz > 0
    requires w != 0 && x != 0 && y != 0 && z != 0 && w != x && x != y && y != z && w != y && w != z && x != z
    requires AltIdx(y, 0, 1) == 0 && AltIdx(z, 0, 1) == 0
    requires Complete(Rows(Row(Entry(w, nw), Entry(x, nx), ZERO), VACANT, Row(Entry(y, ny), Entry(z, nz), ZERO), VACANT), 1)
    requires IsRun(Rows(Row(Entry(w, nw), Entry(x, nx), ZERO), VACANT, Row(Entry(y, ny), Entry(z, nz), ZERO), VACANT),
                   nw + nx + ny + nz, es, last, lastTotal, 1)
    ensures Complete(Rows(VACANT, VACANT, VACANT, VACANT), 1)
    ensures IsRun(Rows(VACANT, VACANT, VACANT, VACANT), 0,
                  [Event(Class(w, 0), nw, Draw(h, false, 0)), Event(Class(x, 0), nx, Draw(h, false, 0)),
                   Event(Class(y, 0), ny, Draw(h, false, 0)), Event(Class(z, 0), nz, Draw(h, false, 0))] + es, last, lastTotal, 1)
  {
    hide IsRun, AltIdx, InTable, Rows, Update, Complete;
    var d := Draw(h, false, 0);
    var r0, r1, r2 := Row(Entry(w, nw), ZERO, ZERO), Row(Entry(w, nw), Entry(x, nx), ZERO), Row(Entry(y, ny), ZERO, ZERO);
    var r3 := Row(Entry(y, ny), Entry(z, nz), ZERO);
    var e0, e1, e2, e3 := Event(Class(w, 0), nw, d), Event(Class(x, 0), nx, d), Event(Class(y, 0), ny, d), Event(Class(z, 0), nz, d);
    RowsComplete(VACANT, VACANT, VACANT, VACANT);
    RowsComplete(r0, VACANT, VACANT, VACANT);
    RowsComplete(r1, VACANT, VACANT, VACANT);
    RowsComplete(r1, VACANT, r2, VACANT);
    TwoBuckets(0);
    FourthFill(r1, r2, z, nz, d);
    RunMore(Rows(r1, VACANT, r2, VACANT), nw + nx + ny, e3, Rows(r1, VACANT, r3, VACANT), es, last, lastTotal, 1);
    ThirdFill(r1, y, ny, d);
    RunMore(Rows(r1, VACANT, VACANT, VACANT), nw + nx, e2, Rows(r1, VACANT, r2, VACANT), [e3] + es, last, lastTotal, 1);
    SecondFill(r0, x, nx, d);
    RunMore(Rows(r0, VACANT, VACANT, VACANT), nw, e1, Rows(r1, VACANT, VACANT, VACANT), [e2] + ([e3] + es), last, lastTotal, 1);
    FirstFill(w, nw, d);
    RunMore(Rows(VACANT, VACANT, VACANT, VACANT), 0, e0, Rows(r0, VACANT, VACANT, VACANT), [e1] + ([e2] + ([e3] + es)), last, lastTotal, 1);
    assert [e0] + ([e1] + ([e2] + ([e3] + es))) == [e0, e1, e2, e3] + es;
  }

  lemma FirstFill(w: bv16, nw: nat, d: Choice)
    requires w != 0 && d.decayed == 0
    ensures Complete(Rows(VACANT, VACANT, VACANT, VACANT), 1) && InTable(0, 1)
    ensures Possible(Rows(VACANT, VACANT, VACANT, VACANT), Class(w, 0), d, 1)
    ensures Update(Rows(VACANT, VACANT, VACANT, VACANT), Class(w, 0), nw, d, 1).cells ==
            Rows(Row(Entry(w, nw), ZERO, ZERO), VACANT, VACANT, VACANT)
  {
    hide AltIdx, InTable, Update, Complete;
    var cells := Rows(VACANT, VACANT, VACANT, VACANT);
    RowsComplete(VACANT, VACANT, VACANT, VACANT);
    TwoBuckets(0);
    AnyOther(w);
    SlotsKnown(cells, Class(w, 0), 1);
    FillsSlot(cells, Class(w, 0), nw, d, 1, 0);
  }

  lemma AnyOther(fp: bv16)
    ensures AltIdx(fp, 0, 1) == 0 || AltIdx(fp, 0, 1) == 1
    ensures AltIdx(fp, 0, 1) == 0 ==> HeavySlots(Class(fp, 0), 1) == [Heavy(false, 0, false), Heavy(false, 0, true), Heavy(true, 0, false), Heavy(true, 0, true)]
    ensures AltIdx(fp, 0, 1) == 1 ==> HeavySlots(Class(fp, 0), 1) == [Heavy(false, 0, false), Heavy(false, 0, true), Heavy(true, 1, false), Heavy(true, 1, true)]
  {
    hide Scatter, Mix;
    TwoBuckets(0);
    AltIdxInvolutes(fp, 0, 1);
    TwoBuckets(AltIdx(fp, 0, 1));
  }

  lemma SecondFill(r0: Row, x: bv16, nx: nat, d: Choice)
    requires x != 0 && d.decayed == 0 && Live(r0.left) && r0.left.fp != x && r0.right == ZERO && r0.lobby == ZERO
    ensures Complete(Rows(r0, VACANT, VACANT, VACANT), 1) && InTable(0, 1)
    ensures Possible(Rows(r0, VACANT, VACANT, VACANT), Class(x, 0), d, 1)
    ensures Update(Rows(r0, VACANT, VACANT, VACANT), Class(x, 0), nx, d, 1).cells == Rows(r0.(right := Entry(x, nx)), VACANT, VACANT, VACANT)
  {
    hide AltIdx, InTable, Update, Complete;
    var cells := Rows(r0, VACANT, VACANT, VACANT);
    RowsComplete(r0, VACANT, VACANT, VACANT);
    TwoBuckets(0);
    AnyOther(x);
    SlotsKnown(cells, Class(x, 0), 1);
    FillsSlot(cells, Class(x, 0), nx, d, 1, 1);
  }

  lemma ThirdFill(r1: Row, y: bv16, ny: nat, d: Choice)
    requires y != 0 && d.decayed == 0 && AltIdx(y, 0, 1) == 0
    requires Live(r1.left) && Live(r1.right) && r1.left.fp != y && r1.right.fp != y && r1.lobby == ZERO
    ensures Complete(Rows(r1, VACANT, VACANT, VACANT), 1) && InTable(0, 1)
    ensures Possible(Rows(r1, VACANT, VACANT, VACANT), Class(y, 0), d, 1)
    ensures Update(Rows(r1, VACANT, VACANT, VACANT), Class(y, 0), ny, d, 1).cells == Rows(r1, VACANT, Row(Entry(y, ny), ZERO, ZERO), VACANT)
  {
    hide AltIdx, InTable, Update, Complete;
    var cells := Rows(r1, VACANT, VACANT, VACANT);
    RowsComplete(r1, VACANT, VACANT, VACANT);
    TwoBuckets(0);
    AnyOther(y);
    SlotsKnown(cells, Class(y, 0), 1);
    FillsSlot(cells, Class(y, 0), ny, d, 1, 2);
  }

  lemma FourthFill(r1: Row, r2: Row, z: bv16, nz: nat, d: Choice)
    requires z != 0 && d.decayed == 0 && AltIdx(z, 0, 1) == 0
    requires Live(r1.left) && Live(r1.right) && r1.left.fp != z && r1.right.fp != z && r1.lobby == ZERO
    requires Live(r2.left) && r2.left.fp != z && r2.right == ZERO && r2.lobby == ZERO
    ensures Complete(Rows(r1, VACANT, r2, VACANT), 1) && InTable(0, 1)
    ensures Possible(Rows(r1, VACANT, r2, VACANT), Class(z, 0), d, 1)
    ensures Update(Rows(r1, VACANT, r2, VACANT), Class(z, 0), nz, d, 1).cells == Rows(r1, VACANT, r2.(right := Entry(z, nz)), VACANT)
  {
    hide AltIdx, InTable, Update, Complete;
    var cells := Rows(r1, VACANT, r2, VACANT);
    RowsComplete(r1, VACANT, r2, VACANT);
    TwoBuckets(0);
    AnyOther(z);
    SlotsKnown(cells, Class(z, 0), 1);
    FillsSlot(cells, Class(z, 0), nz, d, 1, 3);
  }

  // ---------- the first run ----------

  /** An even item of bucket 0 that is nowhere in the busy tables. */
  lemma OutsideBusy(lobby: Entry, lobby2: Entry, fp: bv16)
    requires AltIdx(fp, 0, 1) == 0 && fp != 1 && fp != 2 && fp != 3 && fp != 4 && fp != lobby.fp && fp != lobby2.fp
    ensures Outside(Busy(lobby, lobby2), Class(fp, 0), 1)
    ensures LobbyOf(Class(fp, 0), false, 1) == Lobby(false, 0) && LobbyOf(Class(fp, 0), true, 1) == Lobby(true, 0)
  {
    hide AltIdx, InTable, Complete;
    RowsComplete(BUSY.(lobby := lobby), VACANT, BUSY2.(lobby := lobby2), VACANT);
    TwoBuckets(0);
    AnyOther(fp);
  }

  lemma EntersFirstLobby(d: Choice)
    requires d.decayed == 0
    ensures Complete(Busy(ZERO, ZERO), 1) && InTable(0, 1) && Possible(Busy(ZERO, ZERO), Class(20, 0), d, 1)
    ensures Update(Busy(ZERO, ZERO), Class(20, 0), 1, d, 1).cells == Busy(Entry(20, 1), ZERO)
  {
    hide AltIdx, InTable, Complete, Update, Outside;
    OtherBuckets();
    RowsComplete(BUSY, VACANT, BUSY2, VACANT);
    TwoBuckets(0);
    OutsideBusy(ZERO, ZERO, 20);
    TakesLobby(Busy(ZERO, ZERO), Class(20, 0), 1, false, d, 1);
  }

  lemma EntersSecondLobby(d: Choice)
    requires d.decayed == 0
    ensures Complete(Busy(Entry(20, 1), ZERO), 1) && InTable(0, 1) && Possible(Busy(Entry(20, 1), ZERO), Class(6, 0), d, 1)
    ensures Update(Busy(Entry(20, 1), ZERO), Class(6, 0), 1, d, 1).cells == Busy(Entry(20, 1), Entry(6, 1))
  {
    hide AltIdx, InTable, Complete, Update, Outside;
    OtherBuckets();
    RowsComplete(BUSY.(lobby := Entry(20, 1)), VACANT, BUSY2, VACANT);
    TwoBuckets(0);
    OutsideBusy(Entry(20, 1), ZERO, 6);
    TakesLobby(Busy(Entry(20, 1), ZERO), Class(6, 0), 1, true, d, 1);
  }

  lemma BusyDecays(lobby: Entry, fp: bv16, weight: nat, d: Choice)
    requires Live(lobby) && AltIdx(fp, 0, 1) == 0 && fp & 1 == 0
    requires fp != 1 && fp != 2 && fp != 3 && fp != 4 && fp != lobby.fp && fp != 6
    ensures Complete(Busy(lobby, Entry(6, 1)), 1) && InTable(0, 1)
    ensures Update(Busy(lobby, Entry(6, 1)), Class(fp, 0), weight, d, 1) == DecayLobby(Busy(lobby, Entry(6, 1)), Class(fp, 0), weight, d, 1)
    ensures d.decayed != 0 ==> DecaysAnother(Busy(lobby, Entry(6, 1)), Class(fp, 0), weight, d, 1)
    ensures Possible(Busy(lobby, Entry(6, 1)), Class(fp, 0), d, 1) <==> d.decayed <= lobby.count
    ensures LobbyOf(Class(fp, 0), false, 1) == Lobby(false, 0)
  {
    hide AltIdx, InTable, Complete, Update, Outside, DecayLobby;
    RowsComplete(BUSY.(lobby := lobby), VACANT, BUSY2.(lobby := Entry(6, 1)), VACANT);
    TwoBuckets(0);
    OutsideBusy(lobby, Entry(6, 1), fp);
    Decays(Busy(lobby, Entry(6, 1)), Class(fp, 0), weight, d, 1);
  }

  /** A heavy newcomer takes over a decayed lobby entry and is not promoted. */
  lemma TakesOverLobby(d: Choice)
    requires d.decayed == 0 && !d.promote && d.expDecay == 0
    ensures Complete(Busy(Entry(20, 1), Entry(6, 1)), 1) && InTable(0, 1)
    ensures Possible(Busy(Entry(20, 1), Entry(6, 1)), Class(8, 0), d, 1)
    ensures Update(Busy(Entry(20, 1), Entry(6, 1)), Class(8, 0), 200, d, 1).cells == Busy(Entry(8, 200), Entry(6, 1))
  {
    hide AltIdx, InTable, Complete, Update, Kickout;
    OtherBuckets();
    BusyDecays(Entry(20, 1), 8, 200, d);
    assert Busy(Entry(20, 1), Entry(6, 1))[Lobby(false, 0) := Entry(8, 200)] == Busy(Entry(8, 200), Entry(6, 1));
  }

  /** The promoted entry is the lobby's own, and the item thrown out finds an empty slot in the
      other table, or is lost. */
  lemma PromotesAnother(h: nat -> bool)
    ensures var cells := Busy(Entry(8, 200), Entry(6, 1));
            var d := Draw(h, true, 200);
            && Complete(cells, 1) && InTable(0, 1) && Possible(cells, Class(10, 0), d, 1)
            && DecaysAnother(cells, Class(10, 0), 1, d, 1)
            && var u := Update(cells, Class(10, 0), 1, d, 1);
            && u.at == At(Heavy(false, 0, false))
            && Heavy(false, 0, false) in u.cells && u.cells[Heavy(false, 0, false)] == Entry(8, 1000)
            && Complete(u.cells, 1)
  {
    hide AltIdx, InTable, Complete, Update, Kickout, DecaysAnother;
    OtherBuckets();
    var cells := Busy(Entry(8, 200), Entry(6, 1));
    var d := Draw(h, true, 200);
    BusyDecays(Entry(8, 200), 10, 1, d);
    assert cells[Lobby(false, 0) := Entry(8, 200)] == cells;
    ChainOfOne(h);
    var row := Row(Entry(8, 1000), Entry(3, 1000), ZERO);
    assert cells[Heavy(false, 0, false) := Entry(8, 1000)][Lobby(false, 0) := ZERO] ==
           Rows(row, VACANT, BUSY2.(lobby := Entry(6, 1)), VACANT);
    RowsComplete(row, VACANT, BUSY2.(lobby := Entry(6, 1)), if h(1000) then VACANT.(left := Entry(1, 1000)) else VACANT);
    assert DecayLobby(cells, Class(10, 0), 1, d, 1) == TryPromote(cells, 10, 200, false, 0, d, 1);
  }

  lemma ChainOfOne(h: nat -> bool)
    ensures var row := Row(Entry(8, 1000), Entry(3, 1000), ZERO);
            var before := Rows(row, VACANT, BUSY2.(lobby := Entry(6, 1)), VACANT);
            var k := Kickout(before, Entry(1, 1000), false, 0, MAX_KICKS, h, 1).cells;
            Complete(before, 1) && InTable(0, 1) &&
            k == Rows(row, VACANT, BUSY2.(lobby := Entry(6, 1)), if h(1000) then VACANT.(left := Entry(1, 1000)) else VACANT)
  {
    hide AltIdx, InTable, Complete;
    OtherBuckets();
    TwoBuckets(0);
    RowsComplete(Row(Entry(8, 1000), Entry(3, 1000), ZERO), VACANT, BUSY2.(lobby := Entry(6, 1)), VACANT);
  }

  function FirstRun(h: nat -> bool): seq<Event> {
    [Event(Class(1, 0), 1000, Draw(h, false, 0)), Event(Class(3, 0), 1000, Draw(h, false, 0)),
     Event(Class(2, 0), 1000, Draw(h, false, 0)), Event(Class(4, 0), 1000, Draw(h, false, 0))] +
    [Event(Class(20, 0), 1, Draw(h, false, 0)), Event(Class(6, 0), 1, Draw(h, false, 0)), Event(Class(8, 0), 200, Draw(h, false, 0))]
  }

  lemma FirstRunRuns(h: nat -> bool)
    ensures Complete(Rows(VACANT, VACANT, VACANT, VACANT), 1)
    ensures IsRun(Rows(VACANT, VACANT, VACANT, VACANT), 0, FirstRun(h), Busy(Entry(8, 200), Entry(6, 1)), 4202, 1)
  {
    hide IsRun, AltIdx, InTable, Update, Complete, Possible, Rows;
    OtherBuckets();
    var d := Draw(h, false, 0);
    var last := Busy(Entry(8, 200), Entry(6, 1));
    EntersFirstLobby(d);
    EntersSecondLobby(d);
    TakesOverLobby(d);
    RowsComplete(BUSY.(lobby := Entry(8, 200)), VACANT, BUSY2.(lobby := Entry(6, 1)), VACANT);
    var f0, f1, f2 := Event(Class(20, 0), 1, d), Event(Class(6, 0), 1, d), Event(Class(8, 0), 200, d);
    RunsNowhere(last, 4202);
    RunMore(Busy(Entry(20, 1), Entry(6, 1)), 4002, f2, last, [], last, 4202, 1);
    RunMore(Busy(Entry(20, 1), ZERO), 4001, f1, Busy(Entry(20, 1), Entry(6, 1)), [f2] + [], last, 4202, 1);
    RunMore(Busy(ZERO, ZERO), 4000, f0, Busy(Entry(20, 1), ZERO), [f1] + ([f2] + []), last, 4202, 1);
    assert [f0] + ([f1] + ([f2] + [])) == [f0, f1, f2];
    assert BUSY == Row(Entry(1, 1000), Entry(3, 1000), ZERO) && BUSY2 == Row(Entry(2, 1000), Entry(4, 1000), ZERO);
    assert BUSY.(lobby := ZERO) == BUSY && BUSY2.(lobby := ZERO) == BUSY2;
    FillsFour(1, 1000, 3, 1000, 2, 1000, 4, 1000, h, [f0, f1, f2], last, 4202);
  }

  lemma RunsNowhere(cells: Cells, total: nat)
    requires Complete(cells, 1)
    ensures IsRun(cells, total, [], cells, total, 1)
  {
  }

  lemma VacantIsEmpty()
    ensures IsEmpty(Rows(VACANT, VACANT, VACANT, VACANT), 1)
  {
    hide InTable;
    RowsComplete(VACANT, VACANT, VACANT, VACANT);
  }

  /** The first failing case, whatever counts as heavy: eight updates, the last one with weight 1
      for an item not seen before. Its reported slot holds another item's count of 1000, and a
      heap whose least count is not above that lists the item with it. */
  lemma AnotherIsReported(h: nat -> bool, item: Name, fp: nat, heap: seq<Bucket>)
    requires heap != [] && heap[0].count <= 1000
    ensures IsEmpty(Rows(VACANT, VACANT, VACANT, VACANT), 1)
    ensures IsRun(Rows(VACANT, VACANT, VACANT, VACANT), 0, FirstRun(h), Busy(Entry(8, 200), Entry(6, 1)), 4202, 1)
    ensures var cells, c, d := Busy(Entry(8, 200), Entry(6, 1)), Class(10, 0), Draw(h, true, 200);
            && Complete(cells, 1) && InTable(c.home, 1) && Possible(cells, c, d, 1)
            && var u := Update(cells, c, 1, d, 1);
            && u.at.At? && u.at.slot in u.cells
            && u.cells[u.at.slot] == Entry(8, 1000) && !Owns(u.cells, u.at.slot, c, 1)
            && Bucket(1000, Some(item), fp) in Offer(heap, item, fp, u.cells[u.at.slot].count).0
  {
    hide IsRun, AltIdx, InTable, Update, Complete, Possible, Rows, Offer, DecaysAnother, IsEmpty;
    VacantIsEmpty();
    FirstRunRuns(h);
    PromotesAnother(h);
    OfferLists(heap, item, fp, 1000);
  }

  // ---------- the second run ----------

  const A := Row(Entry(2, 5), Entry(4, 9), ZERO)
  const B := Row(Entry(6, 7), Entry(8, 8), ZERO)
  const C := Row(Entry(15, 1), Entry(17, 300), ZERO)

  /** A heavy hitter has at least 0.008 of the total, which is 350 at the end of the run. */
  predicate Hitter(n: nat) {
    125 * n >= 350
  }

  function SecondRun(): seq<Event> {
    [Event(Class(2, 0), 5, Draw(Hitter, false, 0)), Event(Class(4, 0), 9, Draw(Hitter, false, 0)),
     Event(Class(6, 0), 7, Draw(Hitter, false, 0)), Event(Class(8, 0), 8, Draw(Hitter, false, 0))] +
    [Event(Class(15, 0), 1, Draw(Hitter, false, 0)), Event(Class(17, 0), 300, Draw(Hitter, false, 0))]
  }

  lemma FillsFifth(d: Choice)
    requires d.decayed == 0
    ensures Complete(Rows(A, VACANT, B, VACANT), 1) && InTable(0, 1) && Possible(Rows(A, VACANT, B, VACANT), Class(15, 0), d, 1)
    ensures Update(Rows(A, VACANT, B, VACANT), Class(15, 0), 1, d, 1).cells == Rows(A, VACANT, B, C.(right := ZERO))
  {
    hide AltIdx, InTable, Update, Complete;
    OtherBuckets();
    RowsComplete(A, VACANT, B, VACANT);
    TwoBuckets(0);
    AnyOther(15);
    SlotsKnown(Rows(A, VACANT, B, VACANT), Class(15, 0), 1);
    FillsSlot(Rows(A, VACANT, B, VACANT), Class(15, 0), 1, d, 1, 2);
  }

  lemma FillsSixth(d: Choice)
    requires d.decayed == 0
    ensures var cells := Rows(A, VACANT, B, C.(right := ZERO));
            && Complete(cells, 1) && InTable(0, 1) && Possible(cells, Class(17, 0), d, 1)
            && Update(cells, Class(17, 0), 300, d, 1).cells == Rows(A, VACANT, B, C)
  {
    hide AltIdx, InTable, Update, Complete;
    var cells := Rows(A, VACANT, B, C.(right := ZERO));
    OtherBuckets();
    RowsComplete(A, VACANT, B, C.(right := ZERO));
    TwoBuckets(0);
    AnyOther(17);
    SlotsKnown(cells, Class(17, 0), 1);
    FillsSlot(cells, Class(17, 0), 300, d, 1, 3);
  }

  lemma SecondRunRuns()
    ensures Complete(Rows(VACANT, VACANT, VACANT, VACANT), 1)
    ensures IsRun(Rows(VACANT, VACANT, VACANT, VACANT), 0, SecondRun(), Rows(A, VACANT, B, C), 330, 1)
  {
    hide IsRun, AltIdx, InTable, Update, Complete, Possible, Rows;
    OtherBuckets();
    var d := Draw(Hitter, false, 0);
    var last := Rows(A, VACANT, B, C);
    FillsFifth(d);
    FillsSixth(d);
    RowsComplete(A, VACANT, B, C);
    var f0, f1 := Event(Class(15, 0), 1, d), Event(Class(17, 0), 300, d);
    RunsNowhere(last, 330);
    RunMore(Rows(A, VACANT, B, C.(right := ZERO)), 30, f1, last, [], last, 330, 1);
    RunMore(Rows(A, VACANT, B, VACANT), 29, f0, Rows(A, VACANT, B, C.(right := ZERO)), [f1] + [], last, 330, 1);
    assert [f0] + ([f1] + []) == [f0, f1];
    FillsFour(2, 5, 4, 9, 6, 7, 8, 8, Hitter, [f0, f1], last, 330);
  }

  /** Three kicks: out of the slot taken, back into it, and the item out of it. */
  lemma ChainOfThree()
    ensures var before := Rows(A.(left := Entry(13, 5)), VACANT, B, C);
            && Complete(before, 1) && InTable(0, 1)
            && Kickout(before, Entry(2, 5), false, 0, MAX_KICKS, Hitter, 1) ==
               Kicked(Rows(A.(left := Entry(6, 7)), VACANT, B.(left := Entry(2, 5)), C.(left := Entry(13, 5))), Some((Class(15, 0), 1)))
  {
    hide AltIdx, InTable, Complete, Kickout;
    OtherBuckets();
    BackAgain();
    TwoBuckets(0);
    TwoBuckets(1);
    var s0 := Rows(A.(left := Entry(13, 5)), VACANT, B, C);
    var s1 := Rows(A.(left := Entry(13, 5)), VACANT, B.(left := Entry(2, 5)), C);
    var s2 := Rows(A.(left := Entry(6, 7)), VACANT, B.(left := Entry(2, 5)), C);
    var s3 := Rows(A.(left := Entry(6, 7)), VACANT, B.(left := Entry(2, 5)), C.(left := Entry(13, 5)));
    RowsComplete(A.(left := Entry(13, 5)), VACANT, B, C);
    RowsComplete(A.(left := Entry(13, 5)), VACANT, B.(left := Entry(2, 5)), C);
    RowsComplete(A.(left := Entry(6, 7)), VACANT, B.(left := Entry(2, 5)), C);
    RowsComplete(A.(left := Entry(6, 7)), VACANT, B.(left := Entry(2, 5)), C.(left := Entry(13, 5)));
    OneKick(s0, Entry(2, 5), false, 0, 16, 0, Heavy(true, 0, false), s1);
    OneKick(s1, Entry(6, 7), true, 0, 15, 0, Heavy(false, 0, false), s2);
    OneKick(s2, Entry(13, 5), false, 0, 14, 1, Heavy(true, 1, false), s3);
    NoKick(s3, Entry(15, 1), true, 1, 13);
  }

  lemma BackAgain()
    ensures AltIdx(15, 1, 1) == 0
  {
  }

  lemma OneKick(cells: Cells, e: Entry, second: bool, idx: bv64, kicks: nat, i: bv64, s: Slot, next: Cells)
    requires Complete(cells, 1) && Complete(next, 1) && InTable(idx, 1) && InTable(i, 1) && kicks > 0 && Hitter(e.count)
    requires AltIdx(e.fp, idx, 1) == i && s == Heavy(!second, i, false)
    requires s in cells && Heavy(!second, i, true) in cells && 0 < cells[s].count <= cells[Heavy(!second, i, true)].count
    requires next == cells[s := e]
    ensures Kickout(cells, e, second, idx, kicks, Hitter, 1) == Kickout(next, cells[s], !second, i, kicks - 1, Hitter, 1)
  {
    hide AltIdx, InTable, Complete;
  }

  lemma NoKick(cells: Cells, e: Entry, second: bool, idx: bv64, kicks: nat)
    requires Complete(cells, 1) && InTable(idx, 1) && !Hitter(e.count)
    ensures Kickout(cells, e, second, idx, kicks, Hitter, 1) == Kicked(cells, Some((ClassAt(second, idx, e.fp, 1), e.count)))
  {
    hide AltIdx, InTable, Complete;
  }

  lemma ComesBack()
    ensures var cells, d := Rows(A, VACANT, B, C), Draw(Hitter, false, 0);
            && Complete(cells, 1) && InTable(0, 1) && Possible(cells, Class(13, 0), d, 1)
            && !DecaysAnother(cells, Class(13, 0), 20, d, 1)
            && Update(cells, Class(13, 0), 20, d, 1) ==
               Checked(Rows(A.(left := Entry(6, 7)), VACANT, B.(left := Entry(2, 5)), C.(left := Entry(13, 5))), At(Heavy(false, 0, false)))
  {
    hide AltIdx, InTable, Complete, Kickout, CheckHeavyEntries, CheckLobby, HeavySlots, Untracked;
    var cells, d, c := Rows(A, VACANT, B, C), Draw(Hitter, false, 0), Class(13, 0);
    OtherBuckets();
    TwoBuckets(0);
    RowsComplete(A, VACANT, B, C);
    OutsideSecond();
    OutsideMisses(cells, c, 20, d, 1);
    ChainOfThree();
    var named := cells[Lobby(false, 0) := Entry(13, 0)];
    CompleteUpdate(cells, Lobby(false, 0), Entry(13, 0), 1);
    assert named[Heavy(false, 0, false) := Entry(13, 5)][Lobby(false, 0) := ZERO] == Rows(A.(left := Entry(13, 5)), VACANT, B, C);
    assert EnterLobby(cells, c, 20, false, d, 1) == TryPromote(named, 13, 20, false, 0, d, 1);
  }

  lemma OutsideSecond()
    ensures Outside(Rows(A, VACANT, B, C), Class(13, 0), 1)
  {
    hide AltIdx, InTable, Complete;
    OtherBuckets();
    TwoBuckets(0);
    RowsComplete(A, VACANT, B, C);
    AnyOther(13);
  }

  /** The second failing case, with the threshold of the code: seven updates, the last one of
      weight 20 for an item not seen before. The chain puts another item's 7 back into the slot
      that is reported, while the item's own entry has the count 5 in the other table. */
  lemma ChainComesBack(item: Name, fp: nat, heap: seq<Bucket>)
    requires heap != [] && heap[0].count <= 7
    ensures IsEmpty(Rows(VACANT, VACANT, VACANT, VACANT), 1)
    ensures IsRun(Rows(VACANT, VACANT, VACANT, VACANT), 0, SecondRun(), Rows(A, VACANT, B, C), 330, 1)
    ensures var cells, c, d := Rows(A, VACANT, B, C), Class(13, 0), Draw(Hitter, false, 0);
            && Complete(cells, 1) && InTable(c.home, 1) && Possible(cells, c, d, 1)
            && !DecaysAnother(cells, c, 20, d, 1)
            && var u := Update(cells, c, 20, d, 1);
            && u.at.At? && u.at.slot in u.cells
            && u.cells[u.at.slot] == Entry(6, 7) && !Owns(u.cells, u.at.slot, c, 1)
            && Owns(u.cells, Heavy(true, 1, false), c, 1) && u.cells[Heavy(true, 1, false)].count == 5
            && Bucket(7, Some(item), fp) in Offer(heap, item, fp, u.cells[u.at.slot].count).0
  {
    hide IsRun, AltIdx, InTable, Update, Complete, Possible, Offer, DecaysAnother, IsEmpty;
    OtherBuckets();
    OtherOfItem();
    VacantIsEmpty();
    SecondRunRuns();
    ComesBack();
    OfferLists(heap, item, fp, 7);
  }

  lemma OtherOfItem()
    ensures AltIdx(13, 1, 1) == 0
  {
  }
}

/**
 What the slot reported by an update holds. The caller takes the count found there for the
 item's count. It is the item's own entry, unless the kick chain came back to the slot, or the
 lobby entry that was decayed and promoted belongs to another item.
 */
module ChkReport {
  import opened Common
  import opened ChkTable

  // ---------- what a kick chain writes ----------

  /** The last entry that a kick chain writes to slot `a`, if any. */
  function LastWritten(cells: Cells, e: Entry, second: bool, idx: bv64, kicks: nat, isHeavy: nat -> bool, mask: bv64, a: Slot): Option<Entry>
    requires Complete(cells, mask) && InTable(idx, mask)
    decreases kicks
  {
    if kicks == 0 || !isHeavy(e.count) then None
    else
      AltIdxInvolutes(e.fp, idx, mask);
      var t, i := !second, AltIdx(e.fp, idx, mask);
      HeavyInTable(cells, t, i, mask);
      var l, r := Heavy(t, i, false), Heavy(t, i, true);
      if !Live(cells[l]) then if a == l then Some(e) else None
      else if !Live(cells[r]) then if a == r then Some(e) else None
      else
        var s := if RightIsSmaller(cells, t, i) then r else l;
        CompleteUpdate(cells, s, e, mask);
        var later := LastWritten(cells[s := e], cells[s], t, i, kicks - 1, isHeavy, mask, a);
        if later.None? && a == s then Some(e) else later
  }

  /** A chain leaves in every slot what it wrote there last, and a chain of live entries writes
      live ones. */
  lemma {:induction false} ChainWrites(cells: Cells, e: Entry, second: bool, idx: bv64, kicks: nat, isHeavy: nat -> bool, mask: bv64, a: Slot)
    requires Complete(cells, mask) && InTable(idx, mask) && a in cells && Live(e)
    ensures var k := Kickout(cells, e, second, idx, kicks, isHeavy, mask).cells;
            var w := LastWritten(cells, e, second, idx, kicks, isHeavy, mask, a);
            && a in k && k[a] == (if w.Some? then w.value else cells[a])
            && (w.Some? ==> Live(w.value))
    decreases kicks
  {
    hide AltIdx, InTable, Complete;
    if kicks != 0 && isHeavy(e.count) {
      AltIdxInvolutes(e.fp, idx, mask);
      var t, i := !second, AltIdx(e.fp, idx, mask);
      HeavyInTable(cells, t, i, mask);
      var l, r := Heavy(t, i, false), Heavy(t, i, true);
      if Live(cells[l]) && Live(cells[r]) {
        var s := if RightIsSmaller(cells, t, i) then r else l;
        CompleteUpdate(cells, s, e, mask);
        ChainWrites(cells[s := e], cells[s], t, i, kicks - 1, isHeavy, mask, a);
      }
    }
  }

  /** A promotion out of bucket `idx` when both heavy slots are taken: the slot it takes, the
      table with the lobby entry moved there, and the entry thrown out. */
  function TakenSlot(cells: Cells, second: bool, idx: bv64, mask: bv64): (s: Slot)
    requires Complete(cells, mask) && InTable(idx, mask)
    ensures s in cells && s.Heavy? && s.second == second && s.idx == idx
  {
    HeavyInTable(cells, second, idx, mask);
    if RightIsSmaller(cells, second, idx) then Heavy(second, idx, true) else Heavy(second, idx, false)
  }

  function AfterTaking(cells: Cells, second: bool, idx: bv64, mask: bv64): (r: Cells)
    requires Complete(cells, mask) && InTable(idx, mask)
    ensures Complete(r, mask)
  {
    HeavyInTable(cells, second, idx, mask);
    var s, b := TakenSlot(cells, second, idx, mask), Lobby(second, idx);
    CompleteUpdate(cells, s, Entry(cells[b].fp, cells[s].count), mask);
    var named := cells[s := Entry(cells[b].fp, cells[s].count)];
    CompleteUpdate(named, b, Entry(0, 0), mask);
    named[b := Entry(0, 0)]
  }

  function PromoteKicks(cells: Cells, second: bool, idx: bv64, ch: Choice, mask: bv64): Kicked
    requires Complete(cells, mask) && InTable(idx, mask)
  {
    Kickout(AfterTaking(cells, second, idx, mask), cells[TakenSlot(cells, second, idx, mask)], second, idx, MAX_KICKS, ch.isHeavy, mask)
  }

  /** What the chain of a promotion wrote last to the slot that was taken. */
  function WrittenBack(cells: Cells, second: bool, idx: bv64, ch: Choice, mask: bv64): Option<Entry>
    requires Complete(cells, mask) && InTable(idx, mask)
  {
    var s := TakenSlot(cells, second, idx, mask);
    LastWritten(AfterTaking(cells, second, idx, mask), cells[s], second, idx, MAX_KICKS, ch.isHeavy, mask, s)
  }

  ghost predicate FullHeavy(cells: Cells, second: bool, idx: bv64) {
    forall right :: Heavy(second, idx, right) in cells && Live(cells[Heavy(second, idx, right)])
  }

  /** What a promotion out of full buckets reports: the slot taken, with the lobby entry's
      fingerprint and the count found there, or with what the chain wrote back. */
  ghost predicate Reported(before: Cells, u: Checked, second: bool, idx: bv64, ch: Choice, mask: bv64)
    requires Complete(before, mask) && InTable(idx, mask)
  {
    var s := TakenSlot(before, second, idx, mask);
    var w := WrittenBack(before, second, idx, ch, mask);
    && Lobby(second, idx) in before
    && u.at == At(s) && s in u.cells && Live(before[s]) && Live(u.cells[s])
    && u.cells == PromoteKicks(before, second, idx, ch, mask).cells
    && u.cells[s] == if w.Some? then w.value else Entry(before[Lobby(second, idx)].fp, before[s].count)
  }

  lemma PromoteReports(cells: Cells, fp: bv16, newCount: nat, second: bool, idx: bv64, ch: Choice, mask: bv64)
    requires Complete(cells, mask) && InTable(idx, mask) && FullHeavy(cells, second, idx)
    ensures var p := TryPromote(cells, fp, newCount, second, idx, ch, mask);
            p.at.At? ==> Reported(cells, p, second, idx, ch, mask)
  {
    hide AltIdx, InTable, Kickout, LastWritten;
    HeavyInTable(cells, second, idx, mask);
    var l, r := Heavy(second, idx, false), Heavy(second, idx, true);
    assert Live(cells[l]) && Live(cells[r]);
    var s := TakenSlot(cells, second, idx, mask);
    ChainWrites(AfterTaking(cells, second, idx, mask), cells[s], second, idx, MAX_KICKS, ch.isHeavy, mask, s);
  }

  /** The slot holds the class itself. */
  predicate Owns(cells: Cells, s: Slot, c: Class, mask: bv64) {
    s in cells && Live(cells[s]) && ClassOf(cells, s, mask) == c
  }

  /** In a bucket of the class, a live entry is the class's own exactly by its fingerprint. */
  lemma OwnsByFingerprint(cells: Cells, s: Slot, c: Class, mask: bv64)
    requires InTable(c.home, mask) && s in cells && s.idx == BucketOf(c, s.second, mask) && Live(cells[s])
    ensures Owns(cells, s, c, mask) <==> cells[s].fp == c.fp
  {
    ClassBuckets(c, s.second, mask);
  }

  // ---------- each part of an update ----------

  function LobbyOf(c: Class, second: bool, mask: bv64): Slot {
    Lobby(second, BucketOf(c, second, mask))
  }

  function DecayedEntry(cells: Cells, c: Class, weight: nat, ch: Choice, mask: bv64): Entry
    requires LobbyOf(c, c.fp & 1 == 1, mask) in cells
  {
    if ch.decayed == 0
    then Entry(c.fp, if ch.expDecay >= weight then 1 else if weight - ch.expDecay < 255 then weight - ch.expDecay else 255)
    else Entry(cells[LobbyOf(c, c.fp & 1 == 1, mask)].fp, ch.decayed)
  }

  function Untracked(cells: Cells, c: Class, weight: nat, ch: Choice, mask: bv64): bool
    requires Complete(cells, mask) && InTable(c.home, mask)
  {
    SlotsKnown(cells, c, mask);
    && CheckHeavyEntries(cells, c, weight, mask).at.Nowhere?
    && CheckLobby(cells, c, weight, false, ch, mask).at.Nowhere?
    && CheckLobby(cells, c, weight, true, ch, mask).at.Nowhere?
  }

  /** The item is not tracked, both its lobby slots are taken, and the one that is decayed
      stays with the item it belongs to. */
  predicate DecaysAnother(cells: Cells, c: Class, weight: nat, ch: Choice, mask: bv64)
    requires Complete(cells, mask) && InTable(c.home, mask)
  {
    && Untracked(cells, c, weight, ch, mask)
    && EnterLobby(cells, c, weight, false, ch, mask).at.Nowhere?
    && EnterLobby(cells, c, weight, true, ch, mask).at.Nowhere?
    && ch.decayed != 0
  }

  /** The table that a promotion of this update starts from, and the side it is on; None when
      the item is found among the heavy entries or fills an empty heavy slot. */
  datatype Stage = Stage(cells: Cells, second: bool)

  function UpdateStage(cells: Cells, c: Class, weight: nat, ch: Choice, mask: bv64): (r: Option<Stage>)
    requires Complete(cells, mask) && InTable(c.home, mask)
    ensures r.Some? ==> Complete(r.value.cells, mask) && InTable(BucketOf(c, r.value.second, mask), mask)
  {
    SlotsKnown(cells, c, mask);
    LobbySlot(cells, c, false, mask);
    LobbySlot(cells, c, true, mask);
    var b0, b1 := LobbyOf(c, false, mask), LobbyOf(c, true, mask);
    if !CheckHeavyEntries(cells, c, weight, mask).at.Nowhere? then None
    else if !CheckLobby(cells, c, weight, false, ch, mask).at.Nowhere? then Some(Stage(cells, false))
    else if !CheckLobby(cells, c, weight, true, ch, mask).at.Nowhere? then Some(Stage(cells, true))
    else if !EnterLobby(cells, c, weight, false, ch, mask).at.Nowhere? then
      CompleteUpdate(cells, b0, Entry(c.fp, 0), mask);
      Some(Stage(cells[b0 := Entry(c.fp, 0)], false))
    else if !EnterLobby(cells, c, weight, true, ch, mask).at.Nowhere? then
      CompleteUpdate(cells, b1, Entry(c.fp, 0), mask);
      Some(Stage(cells[b1 := Entry(c.fp, 0)], true))
    else
      var b := LobbyOf(c, c.fp & 1 == 1, mask);
      var e := DecayedEntry(cells, c, weight, ch, mask);
      CompleteUpdate(cells, b, e, mask);
      Some(Stage(cells[b := e], b.second))
  }

  /** What the kick chain of an update wrote last to the slot that is reported. */
  function UpdateWrittenBack(cells: Cells, c: Class, weight: nat, ch: Choice, mask: bv64): Option<Entry>
    requires Complete(cells, mask) && InTable(c.home, mask)
  {
    var g := UpdateStage(cells, c, weight, ch, mask);
    if g.None? then None
    else WrittenBack(g.value.cells, g.value.second, BucketOf(c, g.value.second, mask), ch, mask)
  }

  /** What the kick chain of an update lost. */
  function UpdateLost(cells: Cells, c: Class, weight: nat, ch: Choice, mask: bv64): Option<(Class, nat)>
    requires Complete(cells, mask) && InTable(c.home, mask)
  {
    var g := UpdateStage(cells, c, weight, ch, mask);
    if g.None? then None
    else PromoteKicks(g.value.cells, g.value.second, BucketOf(c, g.value.second, mask), ch, mask).lost
  }

  lemma HeavyReports(cells: Cells, c: Class, weight: nat, mask: bv64)
    requires Complete(cells, mask) && InTable(c.home, mask) && weight > 0
    ensures Known(cells, HeavySlots(c, mask))
    ensures var h := CheckHeavyEntries(cells, c, weight, mask);
            && (h.at.At? ==> Owns(h.cells, h.at.slot, c, mask))
            && (h.at.Nowhere? ==> BothFull(cells, c, mask))
  {
    hide HeavySlots, FirstMatch, FirstEmpty, AltIdx, InTable, Complete, BothFull;
    SlotsKnown(cells, c, mask);
    FourSlots(c, mask);
    var ss := HeavySlots(c, mask);
    var m, e := FirstMatch(cells, ss, c.fp), FirstEmpty(cells, ss);
    if m < 4 {
      SlotClass(cells, c, m, mask);
    } else if e < 4 {
      SlotClass(cells, c, e, mask);
    } else {
      NotHeavy(cells, c, mask);
    }
  }

  lemma FullBucket(cells: Cells, c: Class, second: bool, mask: bv64)
    requires InTable(c.home, mask) && BothFull(cells, c, mask)
    ensures InTable(BucketOf(c, second, mask), mask)
    ensures FullHeavy(cells, second, BucketOf(c, second, mask))
  {
    ClassBuckets(c, second, mask);
    FullHere(cells, second, BucketOf(c, second, mask), c.fp, mask);
  }

  /** Heavy entries as in the given tables, one lobby entry changed. */
  ghost predicate Staged(cells: Cells, g: Stage, c: Class, mask: bv64) {
    var b := LobbyOf(c, g.second, mask);
    b in cells && b in g.cells && g.cells == cells[b := g.cells[b]]
  }

  /** An update that reports a slot found the item among the heavy entries, or is a promotion
      from its stage. */
  ghost predicate FromStage(cells: Cells, c: Class, u: Checked, g: Stage, ch: Choice, mask: bv64) {
    && Staged(cells, g, c, mask) && Complete(g.cells, mask) && InTable(BucketOf(c, g.second, mask), mask)
    && exists n :: u == TryPromote(g.cells, c.fp, n, g.second, BucketOf(c, g.second, mask), ch, mask)
  }

  lemma StagedIs(cells: Cells, c: Class, e: Entry, n: nat, second: bool, ch: Choice, u: Checked, mask: bv64)
    requires Complete(cells, mask) && InTable(c.home, mask)
    ensures InTable(BucketOf(c, second, mask), mask) && LobbyOf(c, second, mask) in cells
    ensures Complete(cells[LobbyOf(c, second, mask) := e], mask)
    ensures var g := Stage(cells[LobbyOf(c, second, mask) := e], second);
            u == TryPromote(g.cells, c.fp, n, second, BucketOf(c, second, mask), ch, mask) ==> FromStage(cells, c, u, g, ch, mask)
  {
    hide AltIdx, InTable, TryPromote, BucketOf;
    LobbySlot(cells, c, second, mask);
    CompleteUpdate(cells, LobbyOf(c, second, mask), e, mask);
  }

  lemma LobbyStage(cells: Cells, c: Class, weight: nat, second: bool, ch: Choice, mask: bv64)
    requires Complete(cells, mask) && InTable(c.home, mask)
    ensures LobbyOf(c, second, mask) in cells
    ensures var u := CheckLobby(cells, c, weight, second, ch, mask);
            u.at.At? ==> FromStage(cells, c, u, Stage(cells, second), ch, mask) && cells[LobbyOf(c, second, mask)].fp == c.fp
    ensures var u := EnterLobby(cells, c, weight, second, ch, mask);
            u.at.At? ==> FromStage(cells, c, u, Stage(cells[LobbyOf(c, second, mask) := Entry(c.fp, 0)], second), ch, mask)
  {
    hide AltIdx, InTable, Complete, TryPromote, FromStage, BucketOf;
    var b := LobbyOf(c, second, mask);
    LobbySlot(cells, c, second, mask);
    var u, v := CheckLobby(cells, c, weight, second, ch, mask), EnterLobby(cells, c, weight, second, ch, mask);
    assert cells[b := cells[b]] == cells;
    StagedIs(cells, c, cells[b], cells[b].count + weight, second, ch, u, mask);
    StagedIs(cells, c, Entry(c.fp, 0), weight, second, ch, v, mask);
  }

  lemma DecayStage(cells: Cells, c: Class, weight: nat, ch: Choice, mask: bv64)
    requires Complete(cells, mask) && InTable(c.home, mask)
    ensures LobbyOf(c, c.fp & 1 == 1, mask) in cells
    ensures var u := DecayLobby(cells, c, weight, ch, mask);
            var b := LobbyOf(c, c.fp & 1 == 1, mask);
            u.at.At? ==> FromStage(cells, c, u, Stage(cells[b := DecayedEntry(cells, c, weight, ch, mask)], b.second), ch, mask)
  {
    hide AltIdx, InTable, Complete, TryPromote, FromStage, BucketOf;
    LobbySlot(cells, c, c.fp & 1 == 1, mask);
    var e := DecayedEntry(cells, c, weight, ch, mask);
    StagedIs(cells, c, e, e.count, c.fp & 1 == 1, ch, DecayLobby(cells, c, weight, ch, mask), mask);
  }

  /** Every update that reports a slot and did not end among the heavy entries at once. */
  lemma UpdateFromStage(cells: Cells, c: Class, weight: nat, ch: Choice, mask: bv64)
    requires Complete(cells, mask) && InTable(c.home, mask)
    requires UpdateStage(cells, c, weight, ch, mask).Some? && Update(cells, c, weight, ch, mask).at.At?
    ensures var g := UpdateStage(cells, c, weight, ch, mask).value;
            && FromStage(cells, c, Update(cells, c, weight, ch, mask), g, ch, mask)
            && (!DecaysAnother(cells, c, weight, ch, mask) ==> g.cells[LobbyOf(c, g.second, mask)].fp == c.fp)
  {
    hide AltIdx, InTable, Complete, FromStage, BucketOf, HeavySlots, CheckHeavyEntries, CheckLobby, EnterLobby, DecayLobby;
    SlotsKnown(cells, c, mask);
    LobbyStage(cells, c, weight, false, ch, mask);
    LobbyStage(cells, c, weight, true, ch, mask);
    DecayStage(cells, c, weight, ch, mask);
  }

  lemma StagedIsFull(cells: Cells, g: Stage, c: Class, mask: bv64)
    requires InTable(c.home, mask) && BothFull(cells, c, mask) && Staged(cells, g, c, mask)
    ensures FullHeavy(g.cells, g.second, BucketOf(c, g.second, mask))
  {
    FullBucket(cells, c, g.second, mask);
    var i := BucketOf(c, g.second, mask);
    forall right ensures Heavy(g.second, i, right) in g.cells && Live(g.cells[Heavy(g.second, i, right)]) {
      assert Heavy(g.second, i, right) in cells && Live(cells[Heavy(g.second, i, right)]);
    }
  }

  lemma StageReports(cells: Cells, c: Class, u: Checked, g: Stage, ch: Choice, mask: bv64)
    requires InTable(c.home, mask) && BothFull(cells, c, mask) && FromStage(cells, c, u, g, ch, mask) && u.at.At?
    ensures Reported(g.cells, u, g.second, BucketOf(c, g.second, mask), ch, mask)
    ensures u.at.slot.Heavy? && u.at.slot in cells && cells[u.at.slot] == g.cells[u.at.slot]
    ensures u.at.slot.second == g.second && u.at.slot.idx == BucketOf(c, g.second, mask)
  {
    hide AltIdx, InTable, Complete, TryPromote, WrittenBack, PromoteKicks, BothFull, BucketOf, Staged, Live, TakenSlot;
    StagedIsFull(cells, g, c, mask);
    var idx := BucketOf(c, g.second, mask);
    var n :| u == TryPromote(g.cells, c.fp, n, g.second, idx, ch, mask);
    PromoteReports(g.cells, c.fp, n, g.second, idx, ch, mask);
    StagedSlot(cells, g, c, u.at.slot, mask);
  }

  lemma StagedSlot(cells: Cells, g: Stage, c: Class, s: Slot, mask: bv64)
    requires Staged(cells, g, c, mask) && s.Heavy? && s in g.cells
    ensures s in cells && cells[s] == g.cells[s]
  {
  }

  /** The slot an update reports holds the item's own live entry, when no other item's lobby
      entry was promoted in its place and the kick chain wrote nothing back, or the item. */
  lemma ReportsOwnSlot(cells: Cells, c: Class, weight: nat, ch: Choice, mask: bv64)
    requires Complete(cells, mask) && InTable(c.home, mask) && weight > 0
    requires Update(cells, c, weight, ch, mask).at.At? && !DecaysAnother(cells, c, weight, ch, mask)
    ensures var u := Update(cells, c, weight, ch, mask);
            var w := UpdateWrittenBack(cells, c, weight, ch, mask);
            Owns(u.cells, u.at.slot, c, mask) <==> (w.Some? ==> w.value.fp == c.fp)
  {
    hide AltIdx, InTable, Complete, BothFull, BucketOf, HeavySlots, CheckHeavyEntries, Update, FromStage, WrittenBack, Owns;
    SlotsKnown(cells, c, mask);
    HeavyReports(cells, c, weight, mask);
    var u := Update(cells, c, weight, ch, mask);
    var g := UpdateStage(cells, c, weight, ch, mask);
    StageOrHeavy(cells, c, weight, ch, mask);
    if g.Some? {
      UpdateFromStage(cells, c, weight, ch, mask);
      StageReports(cells, c, u, g.value, ch, mask);
      OwnsByFingerprint(u.cells, u.at.slot, c, mask);
    }
  }

  lemma StageOrHeavy(cells: Cells, c: Class, weight: nat, ch: Choice, mask: bv64)
    requires Complete(cells, mask) && InTable(c.home, mask)
    ensures Known(cells, HeavySlots(c, mask))
    ensures var h := CheckHeavyEntries(cells, c, weight, mask);
            && (UpdateStage(cells, c, weight, ch, mask).None? <==> !h.at.Nowhere?)
            && (!h.at.Nowhere? ==> Update(cells, c, weight, ch, mask) == h)
  {
    hide AltIdx, InTable, HeavySlots, CheckHeavyEntries, CheckLobby, EnterLobby, DecayLobby;
    SlotsKnown(cells, c, mask);
  }

  // ---------- another item's entry ----------

  /** A chain brings no class into the tables but the one it starts with. */
  lemma {:induction false} KickoutAbsent(cells: Cells, e: Entry, second: bool, idx: bv64, kicks: nat, isHeavy: nat -> bool, mask: bv64, c: Class)
    requires Complete(cells, mask) && InTable(idx, mask) && Absent(cells, c, mask)
    requires ClassAt(second, idx, e.fp, mask) != c
    ensures Absent(Kickout(cells, e, second, idx, kicks, isHeavy, mask).cells, c, mask)
    decreases kicks
  {
    hide AltIdx, InTable, Complete, Absent;
    if kicks != 0 && isHeavy(e.count) {
      AltIdxInvolutes(e.fp, idx, mask);
      var t, i := !second, AltIdx(e.fp, idx, mask);
      assert ClassAt(t, i, e.fp, mask) == ClassAt(second, idx, e.fp, mask);
      HeavyInTable(cells, t, i, mask);
      var l, r := Heavy(t, i, false), Heavy(t, i, true);
      PlaceAbsent(cells, l, e, c, mask);
      PlaceAbsent(cells, r, e, c, mask);
      if Live(cells[l]) && Live(cells[r]) {
        var s := if RightIsSmaller(cells, t, i) then r else l;
        CompleteUpdate(cells, s, e, mask);
        AbsentAt(cells, s, c, mask);
        KickoutAbsent(cells[s := e], cells[s], t, i, kicks - 1, isHeavy, mask, c);
      }
    }
  }

  lemma PlaceAbsent(cells: Cells, s: Slot, e: Entry, c: Class, mask: bv64)
    requires s in cells && Absent(cells, c, mask)
    requires Live(e) ==> ClassAt(s.second, s.idx, e.fp, mask) != c
    ensures Absent(cells[s := e], c, mask)
  {
    hide AltIdx;
    var now := cells[s := e];
    forall a | a in now && Live(now[a]) ensures ClassOf(now, a, mask) != c {
      if a != s {
        assert a in cells && now[a] == cells[a];
        assert ClassOf(cells, a, mask) != c;
      }
    }
  }

  lemma AbsentAt(cells: Cells, s: Slot, c: Class, mask: bv64)
    requires s in cells && Live(cells[s]) && Absent(cells, c, mask)
    ensures ClassAt(s.second, s.idx, cells[s].fp, mask) != c
  {
    assert ClassOf(cells, s, mask) != c;
  }

  lemma PromoteAbsent(cells: Cells, fp: bv16, newCount: nat, second: bool, idx: bv64, ch: Choice, mask: bv64, c: Class)
    requires Complete(cells, mask) && InTable(idx, mask) && Absent(cells, c, mask)
    requires Heavy(second, idx, false) in cells && Live(cells[Heavy(second, idx, false)])
    requires Heavy(second, idx, true) in cells && Live(cells[Heavy(second, idx, true)])
    requires Lobby(second, idx) in cells && Live(cells[Lobby(second, idx)])
    ensures Absent(TryPromote(cells, fp, newCount, second, idx, ch, mask).cells, c, mask)
  {
    hide AltIdx, InTable, Complete, Absent, Kickout, ClassAt;
    var l, r, b := Heavy(second, idx, false), Heavy(second, idx, true), Lobby(second, idx);
    var s := if RightIsSmaller(cells, second, idx) then r else l;
    var e := Entry(cells[b].fp, cells[s].count);
    AbsentAt(cells, s, c, mask);
    AbsentAt(cells, b, c, mask);
    CompleteUpdate(cells, s, e, mask);
    PlaceAbsent(cells, s, e, c, mask);
    CompleteUpdate(cells[s := e], b, Entry(0, 0), mask);
    PlaceAbsent(cells[s := e], b, Entry(0, 0), c, mask);
    KickoutAbsent(cells[s := e][b := Entry(0, 0)], cells[s], second, idx, MAX_KICKS, ch.isHeavy, mask, c);
  }

  lemma NotTracked(cells: Cells, c: Class, weight: nat, ch: Choice, total: nat, mask: bv64)
    requires Inv(cells, total, mask) && InTable(c.home, mask) && weight > 0
    requires Untracked(cells, c, weight, ch, mask)
    ensures Absent(cells, c, mask) && BothFull(cells, c, mask)
  {
    hide HeavySlots, BothFull, Unique, Absent, LobbyBacked, Bounded, InTable, Complete, BucketOf, AltIdx, FirstMatch,
      CheckHeavyEntries, CheckLobby, NotInLobby;
    SlotsKnown(cells, c, mask);
    HeavyKeeps(cells, c, weight, total, mask);
    CheckLobbyKeeps(cells, c, weight, false, ch, total, mask);
    CheckLobbyKeeps(cells, c, weight, true, ch, total, mask);
    assert forall t: bool :: NotInLobby(cells, c, t, mask);
    NotFoundIsAbsent(cells, c, mask);
  }

  lemma DecayAbsent(cells: Cells, c: Class, weight: nat, ch: Choice, mask: bv64)
    requires Complete(cells, mask) && InTable(c.home, mask) && Absent(cells, c, mask) && BothFull(cells, c, mask)
    requires LobbyOf(c, c.fp & 1 == 1, mask) in cells && Live(cells[LobbyOf(c, c.fp & 1 == 1, mask)])
    requires ch.decayed != 0
    ensures Absent(DecayLobby(cells, c, weight, ch, mask).cells, c, mask)
  {
    hide AltIdx, InTable, Complete, Absent, BothFull, TryPromote, BucketOf, ClassAt;
    var second := c.fp & 1 == 1;
    var b := LobbyOf(c, second, mask);
    LobbySlot(cells, c, second, mask);
    FullBucket(cells, c, second, mask);
    AbsentAt(cells, b, c, mask);
    var e := Entry(cells[b].fp, ch.decayed);
    CompleteUpdate(cells, b, e, mask);
    PlaceAbsent(cells, b, e, c, mask);
    PromoteAbsent(cells[b := e], c.fp, e.count, second, b.idx, ch, mask, c);
  }

  /** When another item's lobby entry is decayed, the updated item is in neither table, so the
      count at a reported slot is not its own. */
  lemma ReportsAnother(cells: Cells, c: Class, weight: nat, ch: Choice, total: nat, mask: bv64)
    requires Inv(cells, total, mask) && InTable(c.home, mask) && weight > 0
    requires DecaysAnother(cells, c, weight, ch, mask)
    ensures Absent(Update(cells, c, weight, ch, mask).cells, c, mask)
  {
    hide AltIdx, InTable, Complete, BothFull, BucketOf, HeavySlots, CheckHeavyEntries, CheckLobby, DecayLobby, Absent, TryPromote;
    SlotsKnown(cells, c, mask);
    NotTracked(cells, c, weight, ch, total, mask);
    LobbySlot(cells, c, false, mask);
    LobbySlot(cells, c, true, mask);
    DecayAbsent(cells, c, weight, ch, mask);
  }

  /** Exactly when the reported slot holds the item: no other item's lobby entry was decayed, and
      what the kick chain wrote back to the slot last, if anything, is the item. */
  lemma ReportsOwnSlotIff(cells: Cells, c: Class, weight: nat, ch: Choice, total: nat, mask: bv64)
    requires Inv(cells, total, mask) && InTable(c.home, mask) && weight > 0
    requires Update(cells, c, weight, ch, mask).at.At?
    ensures var u := Update(cells, c, weight, ch, mask);
            var w := UpdateWrittenBack(cells, c, weight, ch, mask);
            Owns(u.cells, u.at.slot, c, mask) <==>
            !DecaysAnother(cells, c, weight, ch, mask) && (w.Some? ==> w.value.fp == c.fp)
  {
    hide AltIdx, InTable, Unique, LobbyBacked, Bounded, UpdateWrittenBack, Update, DecaysAnother;
    if DecaysAnother(cells, c, weight, ch, mask) {
      ReportsAnother(cells, c, weight, ch, total, mask);
    } else {
      ReportsOwnSlot(cells, c, weight, ch, mask);
    }
  }

  // ---------- where the item is ----------

  /** A promotion of class `c` into slot `s` of a table where it is nowhere: afterwards it has the
      count found in the slot, in one heavy slot, or the chain lost it. */
  lemma TakenIsKept(zero: Cells, s: Slot, c: Class, second: bool, idx: bv64, isHeavy: nat -> bool, total: nat, mask: bv64)
    requires Inv(zero, total, mask) && InTable(idx, mask) && s in zero && s.Heavy? && Live(zero[s])
    requires s.second == second && s.idx == idx && ClassAt(second, idx, c.fp, mask) == c && Absent(zero, c, mask)
    ensures Complete(zero[s := Entry(c.fp, zero[s].count)], mask)
    ensures var k := Kickout(zero[s := Entry(c.fp, zero[s].count)], zero[s], second, idx, MAX_KICKS, isHeavy, mask);
            if k.lost == Some((c, zero[s].count)) then Absent(k.cells, c, mask) else (c, zero[s].count) in Pairs(k.cells, mask)
  {
    hide Unique, Absent, LobbyBacked, Pairs, AltIdx, InTable, Complete, Kickout, ClassAt;
    var n := zero[s].count;
    Exchange(zero, s, Entry(c.fp, n), mask);
    AbsentAt(zero, s, c, mask);
    var now := zero[s := Entry(c.fp, n)];
    assert (c, n) in Pairs(now, mask);
    KickoutConserves(now, zero[s], second, idx, MAX_KICKS, isHeavy, mask);
  }

  /** The item is nowhere in the tables without its own lobby entry. */
  lemma NowhereElse(cells: Cells, c: Class, weight: nat, ch: Choice, total: nat, mask: bv64)
    requires Inv(cells, total, mask) && InTable(c.home, mask) && weight > 0
    requires UpdateStage(cells, c, weight, ch, mask).Some?
    ensures BothFull(cells, c, mask)
    ensures var b := LobbyOf(c, UpdateStage(cells, c, weight, ch, mask).value.second, mask);
            b in cells && Inv(cells[b := Entry(0, 0)], total, mask) && Absent(cells[b := Entry(0, 0)], c, mask)
  {
    hide AltIdx, InTable, Complete, BothFull, BucketOf, HeavySlots, CheckHeavyEntries, EnterLobby, DecayLobby, Absent, TryPromote,
      Unique, LobbyBacked, Bounded;
    SlotsKnown(cells, c, mask);
    HeavyKeeps(cells, c, weight, total, mask);
    var g := UpdateStage(cells, c, weight, ch, mask).value;
    var b := LobbyOf(c, g.second, mask);
    LobbySlot(cells, c, g.second, mask);
    ClearLobby(cells, b, total, mask);
    if Untracked(cells, c, weight, ch, mask) {
      NotTracked(cells, c, weight, ch, total, mask);
      ClearKeepsOthers(cells, b, c, mask);
    } else {
      FoundInLobby(cells, c, weight, ch, mask);
    }
  }

  lemma FoundInLobby(cells: Cells, c: Class, weight: nat, ch: Choice, mask: bv64)
    requires Complete(cells, mask) && InTable(c.home, mask) && UpdateStage(cells, c, weight, ch, mask).Some?
    requires !Untracked(cells, c, weight, ch, mask)
    ensures var b := LobbyOf(c, UpdateStage(cells, c, weight, ch, mask).value.second, mask);
            b in cells && Live(cells[b]) && cells[b].fp == c.fp
  {
    hide AltIdx, InTable, Complete, BucketOf, HeavySlots, CheckHeavyEntries, EnterLobby, DecayLobby, TryPromote;
    SlotsKnown(cells, c, mask);
    LobbySlot(cells, c, false, mask);
    LobbySlot(cells, c, true, mask);
  }

  /** The stage's table with the slot taken is the bare table with the item in the slot. */
  lemma TakingIs(cells: Cells, g: Stage, c: Class, mask: bv64)
    requires Complete(g.cells, mask) && InTable(BucketOf(c, g.second, mask), mask) && Staged(cells, g, c, mask)
    ensures var idx := BucketOf(c, g.second, mask);
            var b, s := LobbyOf(c, g.second, mask), TakenSlot(g.cells, g.second, idx, mask);
            && s in cells && cells[s] == g.cells[s]
            && AfterTaking(g.cells, g.second, idx, mask) == cells[b := Entry(0, 0)][s := Entry(g.cells[b].fp, cells[s].count)]
  {
    hide AltIdx, InTable, BucketOf;
  }

  /** For every promotion that is the item's own: it has the count found in the reported slot,
      and is in exactly one heavy slot, or it is the entry that the chain lost. */
  lemma PromotedIsKept(cells: Cells, c: Class, weight: nat, ch: Choice, total: nat, mask: bv64)
    requires Inv(cells, total, mask) && InTable(c.home, mask) && weight > 0
    requires Update(cells, c, weight, ch, mask).at.At? && UpdateStage(cells, c, weight, ch, mask).Some?
    requires !DecaysAnother(cells, c, weight, ch, mask)
    ensures var u := Update(cells, c, weight, ch, mask);
            && u.at.slot in cells
            && if UpdateLost(cells, c, weight, ch, mask) == Some((c, cells[u.at.slot].count)) then Absent(u.cells, c, mask)
               else (c, cells[u.at.slot].count) in Pairs(u.cells, mask)
  {
    hide AltIdx, InTable, BothFull, BucketOf, Absent, Unique, LobbyBacked, Bounded, Complete, Pairs, Update, FromStage,
      DecaysAnother, UpdateStage, WrittenBack, AfterTaking, TakenSlot, Live, Staged, Kickout;
    var u := Update(cells, c, weight, ch, mask);
    var g := UpdateStage(cells, c, weight, ch, mask).value;
    NowhereElse(cells, c, weight, ch, total, mask);
    UpdateFromStage(cells, c, weight, ch, mask);
    StageReports(cells, c, u, g, ch, mask);
    FromStaged(cells, c, u, g, ch, mask);
    TakingIs(cells, g, c, mask);
    ClassBuckets(c, g.second, mask);
    TakenIsKept(cells[LobbyOf(c, g.second, mask) := Entry(0, 0)], u.at.slot, c, g.second, BucketOf(c, g.second, mask), ch.isHeavy, total, mask);
  }

  lemma FromStaged(cells: Cells, c: Class, u: Checked, g: Stage, ch: Choice, mask: bv64)
    requires FromStage(cells, c, u, g, ch, mask)
    ensures Staged(cells, g, c, mask) && Complete(g.cells, mask) && InTable(BucketOf(c, g.second, mask), mask)
  {
  }
}

/**
 The two cuckoo tables of the top-K structure. Every bucket has two heavy entries and one
 lobby entry. A class is what an entry can tell about its item: the fingerprint and the pair
 of buckets. Random choices, the decay of a lobby counter and the heavy-hitter threshold are
 parameters, so the results hold for every outcome.
 */
module ChkTable {
  import opened Common

  const LOBBY_PROMOTION_THRESHOLD: nat := 16
  const MAX_KICKS: nat := 16

  // ---------- bucket indexes ----------

  function Scatter(fp: bv16): bv64 {
    0x5bd1e995 * (fp as bv64)
  }

  function Mix(i: bv64, k: bv64, m: bv64): bv64 {
    (i ^ k) & m
  }

  /** generateAltIdx; `mask` is numbuckets - 1. */
  function AltIdx(fp: bv16, idx: bv64, mask: bv64): bv64 {
    Mix(idx, Scatter(fp), mask)
  }

  lemma MixInvolutes(i: bv64, k: bv64, m: bv64)
    requires i & m == i
    ensures Mix(i, k, m) & m == Mix(i, k, m)
    ensures Mix(Mix(i, k, m), k, m) == i
  {
  }

  predicate InTable(idx: bv64, mask: bv64) {
    idx & mask == idx
  }

  /** The other bucket's other bucket is the bucket itself. */
  lemma AltIdxInvolutes(fp: bv16, idx: bv64, mask: bv64)
    requires InTable(idx, mask)
    ensures InTable(AltIdx(fp, idx, mask), mask)
    ensures AltIdx(fp, AltIdx(fp, idx, mask), mask) == idx
  {
    hide Scatter, Mix;
    MixInvolutes(idx, Scatter(fp), mask);
  }

  // ---------- tables ----------

  datatype Entry = Entry(fp: bv16, count: nat)

  /** A place in the second table or the first: one of two heavy entries, or the lobby. */
  datatype Slot = Heavy(second: bool, idx: bv64, right: bool) | Lobby(second: bool, idx: bv64)

  type Cells = map<Slot, Entry>

  predicate Live(e: Entry) {
    e.count > 0
  }

  ghost predicate Complete(cells: Cells, mask: bv64) {
    forall s: Slot {:trigger s in cells} :: InTable(s.idx, mask) <==> s in cells
  }

  datatype Class = Class(fp: bv16, home: bv64)

  /** The class of an entry, told from the table and bucket it is in. */
  function ClassAt(second: bool, idx: bv64, fp: bv16, mask: bv64): Class {
    Class(fp, if second then AltIdx(fp, idx, mask) else idx)
  }

  function ClassOf(cells: Cells, s: Slot, mask: bv64): Class
    requires s in cells
  {
    ClassAt(s.second, s.idx, cells[s].fp, mask)
  }

  /** The bucket of a class in one of the tables. */
  function BucketOf(c: Class, second: bool, mask: bv64): bv64 {
    if second then AltIdx(c.fp, c.home, mask) else c.home
  }

  lemma ClassBuckets(c: Class, second: bool, mask: bv64)
    requires InTable(c.home, mask)
    ensures InTable(BucketOf(c, second, mask), mask)
    ensures ClassAt(second, BucketOf(c, second, mask), c.fp, mask) == c
    ensures AltIdx(c.fp, BucketOf(c, second, mask), mask) == BucketOf(c, !second, mask)
  {
    AltIdxInvolutes(c.fp, c.home, mask);
  }

  lemma ClassHere(second: bool, idx: bv64, fp: bv16, mask: bv64)
    requires InTable(idx, mask)
    ensures var c := ClassAt(second, idx, fp, mask);
            c.fp == fp && InTable(c.home, mask) && BucketOf(c, second, mask) == idx
  {
    AltIdxInvolutes(fp, idx, mask);
  }

  // ---------- at most one live entry per class ----------

  ghost predicate Unique(cells: Cells, mask: bv64) {
    forall a, b ::
      (a in cells && b in cells && Live(cells[a]) && Live(cells[b]) && ClassOf(cells, a, mask) == ClassOf(cells, b, mask)) ==>
        a == b
  }

  ghost predicate Absent(cells: Cells, c: Class, mask: bv64) {
    forall s :: s in cells && Live(cells[s]) ==> ClassOf(cells, s, mask) != c
  }

  /** The (class, count) pairs of the live heavy entries. */
  ghost function Pairs(cells: Cells, mask: bv64): set<(Class, nat)> {
    set s | s in cells && s.Heavy? && Live(cells[s]) :: (ClassOf(cells, s, mask), cells[s].count)
  }

  /** Writing a live entry of an absent class over a slot: classes stay unique, the class that
      was there is gone, every other one stays where it is. */
  lemma PlaceKeepsUnique(cells: Cells, s: Slot, e: Entry, mask: bv64)
    requires s in cells && Live(e) && Unique(cells, mask)
    requires Absent(cells, ClassAt(s.second, s.idx, e.fp, mask), mask)
    ensures Unique(cells[s := e], mask)
    ensures Live(cells[s]) ==> Absent(cells[s := e], ClassOf(cells, s, mask), mask)
  {
    var now := cells[s := e];
    assert forall a :: a in now && a != s ==> a in cells && now[a] == cells[a] && ClassOf(now, a, mask) == ClassOf(cells, a, mask);
    assert ClassOf(now, s, mask) == ClassAt(s.second, s.idx, e.fp, mask);
  }

  lemma PlacePairs(cells: Cells, s: Slot, e: Entry, mask: bv64)
    requires s in cells && s.Heavy? && Live(e) && Unique(cells, mask)
    requires Absent(cells, ClassAt(s.second, s.idx, e.fp, mask), mask)
    ensures var p := (ClassAt(s.second, s.idx, e.fp, mask), e.count);
            var gone := if Live(cells[s]) then {(ClassOf(cells, s, mask), cells[s].count)} else {};
            Pairs(cells[s := e], mask) == Pairs(cells, mask) - gone + {p} && gone <= Pairs(cells, mask) && p !in Pairs(cells, mask)
  {
    hide AltIdx;
    var now := cells[s := e];
    var p := (ClassAt(s.second, s.idx, e.fp, mask), e.count);
    var gone := if Live(cells[s]) then {(ClassOf(cells, s, mask), cells[s].count)} else {};
    PlaceAdds(cells, s, e, mask);
    forall x | x in Pairs(cells, mask) - gone ensures x in Pairs(now, mask) {
      var a :| a in cells && a.Heavy? && Live(cells[a]) && x == (ClassOf(cells, a, mask), cells[a].count);
      assert a != s;
    }
  }

  lemma PlaceAdds(cells: Cells, s: Slot, e: Entry, mask: bv64)
    requires s in cells && s.Heavy? && Live(e) && Unique(cells, mask)
    ensures var p := (ClassAt(s.second, s.idx, e.fp, mask), e.count);
            var gone := if Live(cells[s]) then {(ClassOf(cells, s, mask), cells[s].count)} else {};
            p in Pairs(cells[s := e], mask) && Pairs(cells[s := e], mask) <= Pairs(cells, mask) - gone + {p}
  {
    hide AltIdx;
    var now := cells[s := e];
    var p := (ClassAt(s.second, s.idx, e.fp, mask), e.count);
    var gone := if Live(cells[s]) then {(ClassOf(cells, s, mask), cells[s].count)} else {};
    assert p in Pairs(now, mask) by {
      assert now[s] == e && s.Heavy?;
    }
    forall x | x in Pairs(now, mask) ensures x in Pairs(cells, mask) - gone + {p} {
      var a :| a in now && a.Heavy? && Live(now[a]) && x == (ClassOf(now, a, mask), now[a].count);
      assert a == s || x !in gone;
    }
  }

  lemma ClearKeepsUnique(cells: Cells, s: Slot, mask: bv64)
    requires s in cells && Unique(cells, mask)
    ensures Unique(cells[s := Entry(0, 0)], mask)
    ensures Live(cells[s]) ==> Absent(cells[s := Entry(0, 0)], ClassOf(cells, s, mask), mask)
  {
    var now := cells[s := Entry(0, 0)];
    assert forall a :: a in now && Live(now[a]) ==> a in cells && now[a] == cells[a] && ClassOf(now, a, mask) == ClassOf(cells, a, mask);
  }

  // ---------- kickout ----------

  /** What a kick chain leaves: the cells, and the entry it lost, if any. */
  datatype Kicked = Kicked(cells: Cells, lost: Option<(Class, nat)>)

  function RightIsSmaller(cells: Cells, second: bool, idx: bv64): bool
    requires Heavy(second, idx, false) in cells && Heavy(second, idx, true) in cells
  {
    cells[Heavy(second, idx, true)].count < cells[Heavy(second, idx, false)].count
  }

  /** The chain of kicks for an entry thrown out of bucket `idx` of one table: into an empty
      heavy slot of its other bucket, or in exchange for the smaller entry there. */
  function Kickout(cells: Cells, e: Entry, second: bool, idx: bv64, kicks: nat, isHeavy: nat -> bool, mask: bv64): Kicked
    requires Complete(cells, mask) && InTable(idx, mask)
    decreases kicks
  {
    if kicks == 0 || !isHeavy(e.count) then Kicked(cells, Some((ClassAt(second, idx, e.fp, mask), e.count)))
    else
      AltIdxInvolutes(e.fp, idx, mask);
      var t, i := !second, AltIdx(e.fp, idx, mask);
      var l, r := Heavy(t, i, false), Heavy(t, i, true);
      assert InTable(l.idx, mask) && InTable(r.idx, mask);
      if !Live(cells[l]) then Kicked(cells[l := e], None)
      else if !Live(cells[r]) then Kicked(cells[r := e], None)
      else
        var s := if RightIsSmaller(cells, t, i) then r else l;
        Kickout(cells[s := e], cells[s], t, i, kicks - 1, isHeavy, mask)
  }

  /** Heavy entries stay live and lobby entries stay what they are. */
  ghost predicate Grows(before: Cells, after: Cells) {
    && before.Keys == after.Keys
    && (forall s :: s in before && s.Heavy? && Live(before[s]) ==> Live(after[s]))
    && (forall s :: s in before && s.Lobby? ==> after[s] == before[s])
  }

  lemma GrowsTrans(a: Cells, b: Cells, c: Cells)
    requires Grows(a, b) && Grows(b, c)
    ensures Grows(a, c)
  {
  }

  lemma HeavyInTable(cells: Cells, second: bool, idx: bv64, mask: bv64)
    requires Complete(cells, mask) && InTable(idx, mask)
    ensures Heavy(second, idx, false) in cells && Heavy(second, idx, true) in cells && Lobby(second, idx) in cells
  {
    var l, r, b := Heavy(second, idx, false), Heavy(second, idx, true), Lobby(second, idx);
    assert InTable(l.idx, mask) && InTable(r.idx, mask) && InTable(b.idx, mask);
  }

  /** One exchange: `e` goes in, whatever was there comes out. */
  lemma Exchange(cells: Cells, s: Slot, e: Entry, mask: bv64)
    requires Complete(cells, mask) && s in cells && s.Heavy? && Live(e) && Unique(cells, mask)
    requires Absent(cells, ClassAt(s.second, s.idx, e.fp, mask), mask)
    ensures var now := cells[s := e];
            var gone := if Live(cells[s]) then {(ClassOf(cells, s, mask), cells[s].count)} else {};
            && Complete(now, mask) && Unique(now, mask) && Grows(cells, now)
            && Pairs(now, mask) + gone == Pairs(cells, mask) + {(ClassAt(s.second, s.idx, e.fp, mask), e.count)}
            && (Live(cells[s]) ==> Absent(now, ClassOf(cells, s, mask), mask))
  {
    PlaceKeepsUnique(cells, s, e, mask);
    PlacePairs(cells, s, e, mask);
  }

  /** A kick chain keeps every (class, count) it moves, and loses at most the entry it ends up
      holding; classes stay unique. */
  lemma {:induction false} KickoutConserves(cells: Cells, e: Entry, second: bool, idx: bv64, kicks: nat, isHeavy: nat -> bool, mask: bv64)
    requires Complete(cells, mask) && InTable(idx, mask) && Live(e) && Unique(cells, mask)
    requires Absent(cells, ClassAt(second, idx, e.fp, mask), mask)
    ensures var k := Kickout(cells, e, second, idx, kicks, isHeavy, mask);
            var lost := if k.lost.Some? then {k.lost.value} else {};
            && Complete(k.cells, mask) && Unique(k.cells, mask) && Grows(cells, k.cells)
            && Pairs(k.cells, mask) + lost == Pairs(cells, mask) + {(ClassAt(second, idx, e.fp, mask), e.count)}
            && (k.lost.Some? ==> Absent(k.cells, k.lost.value.0, mask))
    decreases kicks
  {
    hide Complete, Unique, Absent, Pairs, AltIdx, InTable, Grows, ClassAt, Live, RightIsSmaller;
    GrowsSelf(cells);
    if kicks != 0 && isHeavy(e.count) {
      OtherBucket(second, idx, e.fp, mask);
      var t, i := !second, AltIdx(e.fp, idx, mask);
      HeavyInTable(cells, t, i, mask);
      var l, r := Heavy(t, i, false), Heavy(t, i, true);
      var s := if !Live(cells[l]) then l else if !Live(cells[r]) then r
               else if RightIsSmaller(cells, t, i) then r else l;
      Exchange(cells, s, e, mask);
      if Live(cells[l]) && Live(cells[r]) {
        var k := Kickout(cells[s := e], cells[s], t, i, kicks - 1, isHeavy, mask);
        KickoutConserves(cells[s := e], cells[s], t, i, kicks - 1, isHeavy, mask);
        GrowsTrans(cells, cells[s := e], k.cells);
      }
    }
  }

  /** An entry keeps its class when it moves to its other bucket. */
  lemma OtherBucket(second: bool, idx: bv64, fp: bv16, mask: bv64)
    requires InTable(idx, mask)
    ensures InTable(AltIdx(fp, idx, mask), mask)
    ensures ClassAt(!second, AltIdx(fp, idx, mask), fp, mask) == ClassAt(second, idx, fp, mask)
  {
    AltIdxInvolutes(fp, idx, mask);
  }

  lemma GrowsSelf(cells: Cells)
    ensures Grows(cells, cells)
  {
  }

  // ---------- looking an item up ----------

  /** The four heavy slots of a class, in the order they are scanned. */
  function HeavySlots(c: Class, mask: bv64): seq<Slot> {
    var i, j := BucketOf(c, false, mask), BucketOf(c, true, mask);
    [Heavy(false, i, false), Heavy(false, i, true), Heavy(true, j, false), Heavy(true, j, true)]
  }

  predicate Known(cells: Cells, ss: seq<Slot>) {
    forall k :: 0 <= k < |ss| ==> ss[k] in cells
  }

  function FirstMatch(cells: Cells, ss: seq<Slot>, fp: bv16): (r: nat)
    requires Known(cells, ss)
    ensures r <= |ss|
    ensures r < |ss| ==> Live(cells[ss[r]]) && cells[ss[r]].fp == fp
    ensures forall k :: 0 <= k < r ==> !(Live(cells[ss[k]]) && cells[ss[k]].fp == fp)
  {
    if ss == [] then 0
    else if Live(cells[ss[0]]) && cells[ss[0]].fp == fp then 0
    else 1 + FirstMatch(cells, ss[1..], fp)
  }

  function FirstEmpty(cells: Cells, ss: seq<Slot>): (r: nat)
    requires Known(cells, ss)
    ensures r <= |ss|
    ensures r < |ss| ==> !Live(cells[ss[r]])
    ensures forall k :: 0 <= k < r ==> Live(cells[ss[k]])
  {
    if ss == [] then 0 else if !Live(cells[ss[0]]) then 0 else 1 + FirstEmpty(cells, ss[1..])
  }

  /** The slot an operation ended at. `Nowhere`: the item was not found and nothing changed. */
  datatype Where = Nowhere | InLobby | At(slot: Slot)

  datatype Checked = Checked(cells: Cells, at: Where)

  function CheckHeavyEntries(cells: Cells, c: Class, weight: nat, mask: bv64): Checked
    requires Known(cells, HeavySlots(c, mask))
  {
    var ss := HeavySlots(c, mask);
    var m := FirstMatch(cells, ss, c.fp);
    if m < |ss| then Checked(cells[ss[m] := Entry(c.fp, cells[ss[m]].count + weight)], At(ss[m]))
    else
      var e := FirstEmpty(cells, ss);
      if e < |ss| then Checked(cells[ss[e] := Entry(c.fp, weight)], At(ss[e])) else Checked(cells, Nowhere)
  }

  // ---------- promotion from the lobby ----------

  /** Outcomes of one update that the model leaves open. */
  datatype Choice = Choice(isHeavy: nat -> bool, promote: bool, decayed: nat, expDecay: nat)

  function TryPromote(cells: Cells, fp: bv16, newCount: nat, second: bool, idx: bv64, ch: Choice, mask: bv64): Checked
    requires Complete(cells, mask) && InTable(idx, mask)
  {
    HeavyInTable(cells, second, idx, mask);
    var l, r, b := Heavy(second, idx, false), Heavy(second, idx, true), Lobby(second, idx);
    if !Live(cells[l]) then Checked(cells[l := Entry(fp, newCount)], At(l))
    else if !Live(cells[r]) then Checked(cells[r := Entry(fp, newCount)], At(r))
    else
      var s := if RightIsSmaller(cells, second, idx) then r else l;
      if cells[s].count > newCount && !ch.promote then Checked(cells, Nowhere)
      else
        var promoted := cells[s := Entry(cells[b].fp, cells[s].count)][b := Entry(0, 0)];
        Checked(Kickout(promoted, cells[s], second, idx, MAX_KICKS, ch.isHeavy, mask).cells, At(s))
  }

  function CheckLobby(cells: Cells, c: Class, weight: nat, second: bool, ch: Choice, mask: bv64): Checked
    requires Complete(cells, mask) && InTable(c.home, mask)
  {
    ClassBuckets(c, second, mask);
    var idx := BucketOf(c, second, mask);
    HeavyInTable(cells, second, idx, mask);
    var b := Lobby(second, idx);
    if cells[b].fp != c.fp || cells[b].count == 0 then Checked(cells, Nowhere)
    else
      var n := cells[b].count + weight;
      if n < LOBBY_PROMOTION_THRESHOLD then Checked(cells[b := Entry(c.fp, n)], InLobby)
      else
        var p := TryPromote(cells, c.fp, n, second, idx, ch, mask);
        if p.at.At? then p else Checked(cells[b := Entry(c.fp, LOBBY_PROMOTION_THRESHOLD)], InLobby)
  }

  /** An item that is not tracked goes to an empty lobby slot. */
  function EnterLobby(cells: Cells, c: Class, weight: nat, second: bool, ch: Choice, mask: bv64): Checked
    requires Complete(cells, mask) && InTable(c.home, mask)
  {
    ClassBuckets(c, second, mask);
    var idx := BucketOf(c, second, mask);
    HeavyInTable(cells, second, idx, mask);
    var b := Lobby(second, idx);
    if cells[b].count != 0 then Checked(cells, Nowhere)
    else if weight < LOBBY_PROMOTION_THRESHOLD then Checked(cells[b := Entry(c.fp, weight)], InLobby)
    else
      var named := cells[b := Entry(c.fp, 0)];
      CompleteUpdate(cells, b, Entry(c.fp, 0), mask);
      var p := TryPromote(named, c.fp, weight, second, idx, ch, mask);
      if p.at.At? then p else Checked(cells[b := Entry(c.fp, LOBBY_PROMOTION_THRESHOLD)], InLobby)
  }

  /** Both lobby slots taken: one of them is decayed, and taken over when it reaches zero. */
  function DecayLobby(cells: Cells, c: Class, weight: nat, ch: Choice, mask: bv64): Checked
    requires Complete(cells, mask) && InTable(c.home, mask)
  {
    var second := c.fp & 1 == 1;
    ClassBuckets(c, second, mask);
    var idx := BucketOf(c, second, mask);
    HeavyInTable(cells, second, idx, mask);
    var b := Lobby(second, idx);
    var e := if ch.decayed == 0
             then Entry(c.fp, if ch.expDecay >= weight then 1 else if weight - ch.expDecay < 255 then weight - ch.expDecay else 255)
             else Entry(cells[b].fp, ch.decayed);
    var now := cells[b := e];
    CompleteUpdate(cells, b, e, mask);
    if e.count < LOBBY_PROMOTION_THRESHOLD then Checked(now, InLobby)
    else
      var p := TryPromote(now, c.fp, e.count, second, idx, ch, mask);
      if p.at.At? then p else Checked(now, InLobby)
  }

  lemma CompleteUpdate(cells: Cells, s: Slot, e: Entry, mask: bv64)
    requires Complete(cells, mask) && s in cells
    ensures Complete(cells[s := e], mask)
  {
  }

  /** The table part of chkTopKUpdate for a positive weight. */
  function Update(cells: Cells, c: Class, weight: nat, ch: Choice, mask: bv64): Checked
    requires Complete(cells, mask) && InTable(c.home, mask)
  {
    SlotsKnown(cells, c, mask);
    var h := CheckHeavyEntries(cells, c, weight, mask);
    if !h.at.Nowhere? then h
    else
      var l0 := CheckLobby(cells, c, weight, false, ch, mask);
      if !l0.at.Nowhere? then l0
      else
        var l1 := CheckLobby(cells, c, weight, true, ch, mask);
        if !l1.at.Nowhere? then l1
        else
          var e0 := EnterLobby(cells, c, weight, false, ch, mask);
          if !e0.at.Nowhere? then e0
          else
            var e1 := EnterLobby(cells, c, weight, true, ch, mask);
            if !e1.at.Nowhere? then e1 else DecayLobby(cells, c, weight, ch, mask)
  }

  lemma SlotsKnown(cells: Cells, c: Class, mask: bv64)
    requires Complete(cells, mask) && InTable(c.home, mask)
    ensures Known(cells, HeavySlots(c, mask))
  {
    ClassBuckets(c, false, mask);
    ClassBuckets(c, true, mask);
    HeavyInTable(cells, false, BucketOf(c, false, mask), mask);
    HeavyInTable(cells, true, BucketOf(c, true, mask), mask);
  }

  // ---------- the invariant ----------

  ghost predicate BothFull(cells: Cells, c: Class, mask: bv64) {
    forall k :: 0 <= k < 4 ==> HeavySlots(c, mask)[k] in cells && Live(cells[HeavySlots(c, mask)[k]])
  }

  /** A class waits in the lobby only while its heavy slots are all taken. */
  ghost predicate LobbyBacked(cells: Cells, mask: bv64) {
    forall s :: s in cells && s.Lobby? && Live(cells[s]) ==> BothFull(cells, ClassOf(cells, s, mask), mask)
  }

  /** No count exceeds the total, and lobby counts fit their byte. */
  ghost predicate Bounded(cells: Cells, total: nat) {
    forall s :: s in cells ==> cells[s].count <= total && (s.Lobby? ==> cells[s].count <= 255)
  }

  ghost predicate Inv(cells: Cells, total: nat, mask: bv64) {
    Complete(cells, mask) && Unique(cells, mask) && LobbyBacked(cells, mask) && Bounded(cells, total)
  }

  lemma FullGrows(a: Cells, b: Cells, c: Class, mask: bv64)
    requires BothFull(a, c, mask) && Grows(a, b)
    ensures BothFull(b, c, mask)
  {
    forall k | 0 <= k < 4
      ensures HeavySlots(c, mask)[k] in b && Live(b[HeavySlots(c, mask)[k]])
    {
      assert HeavySlots(c, mask)[k] in a && Live(a[HeavySlots(c, mask)[k]]);
    }
  }

  lemma BackedGrows(a: Cells, b: Cells, mask: bv64)
    requires LobbyBacked(a, mask) && Grows(a, b)
    ensures LobbyBacked(b, mask)
  {
    forall s | s in b && s.Lobby? && Live(b[s]) ensures BothFull(b, ClassOf(b, s, mask), mask) {
      assert a[s] == b[s];
      FullGrows(a, b, ClassOf(a, s, mask), mask);
    }
  }

  lemma {:induction false} KickoutBounded(cells: Cells, e: Entry, second: bool, idx: bv64, kicks: nat, isHeavy: nat -> bool, total: nat, mask: bv64)
    requires Complete(cells, mask) && InTable(idx, mask) && Bounded(cells, total) && e.count <= total
    ensures Bounded(Kickout(cells, e, second, idx, kicks, isHeavy, mask).cells, total)
    decreases kicks
  {
    hide AltIdx, InTable, Complete;
    if kicks != 0 && isHeavy(e.count) {
      AltIdxInvolutes(e.fp, idx, mask);
      var t, i := !second, AltIdx(e.fp, idx, mask);
      HeavyInTable(cells, t, i, mask);
      var l, r := Heavy(t, i, false), Heavy(t, i, true);
      var s := if RightIsSmaller(cells, t, i) then r else l;
      CompleteUpdate(cells, s, e, mask);
      KickoutBounded(cells[s := e], cells[s], t, i, kicks - 1, isHeavy, total, mask);
    }
  }

  // ---------- lobby edits ----------

  /** Emptying a lobby slot; its class, if it had one, is then nowhere. */
  lemma ClearLobby(cells: Cells, b: Slot, total: nat, mask: bv64)
    requires Inv(cells, total, mask) && b in cells && b.Lobby?
    ensures Inv(cells[b := Entry(0, 0)], total, mask)
    ensures Live(cells[b]) ==>
              var c := ClassOf(cells, b, mask);
              Absent(cells[b := Entry(0, 0)], c, mask) && BothFull(cells[b := Entry(0, 0)], c, mask)
  {
    var now := cells[b := Entry(0, 0)];
    ClearKeepsUnique(cells, b, mask);
    assert forall c :: BothFull(cells, c, mask) ==> BothFull(now, c, mask);
    forall s | s in now && s.Lobby? && Live(now[s]) ensures BothFull(now, ClassOf(now, s, mask), mask) {
      assert s in cells && cells[s] == now[s];
    }
  }

  /** Filling an empty lobby slot with a class that is nowhere and whose heavy slots are taken. */
  lemma FillLobby(cells: Cells, b: Slot, e: Entry, total: nat, mask: bv64)
    requires Inv(cells, total, mask) && b in cells && b.Lobby?
    requires Live(e) && e.count <= total && e.count <= 255
    requires Absent(cells, ClassAt(b.second, b.idx, e.fp, mask), mask)
    requires BothFull(cells, ClassAt(b.second, b.idx, e.fp, mask), mask)
    ensures Inv(cells[b := e], total, mask)
  {
    var now := cells[b := e];
    PlaceKeepsUnique(cells, b, e, mask);
    assert forall c :: BothFull(cells, c, mask) ==> BothFull(now, c, mask);
    forall s | s in now && s.Lobby? && Live(now[s]) ensures BothFull(now, ClassOf(now, s, mask), mask) {
      assert s in cells && (s == b || cells[s] == now[s]);
    }
  }

  /** Promotion, seen from the table with the lobby slot emptied: the lobby's class takes over
      a heavy slot with the count found there, and the entry thrown out starts a kick chain.
      Since both heavy slots are taken, the slot is never an empty one. */
  lemma PromoteKeeps(bare: Cells, f: bv16, n: nat, fp: bv16, newCount: nat, second: bool, idx: bv64, ch: Choice, total: nat, mask: bv64)
    requires Inv(bare, total, mask) && InTable(idx, mask)
    requires var d := ClassAt(second, idx, f, mask); Absent(bare, d, mask) && BothFull(bare, d, mask)
    ensures Complete(bare[Lobby(second, idx) := Entry(f, n)], mask)
    ensures var cells := bare[Lobby(second, idx) := Entry(f, n)];
            var p := TryPromote(cells, fp, newCount, second, idx, ch, mask);
            && (p.at.Nowhere? ==> p.cells == cells)
            && (!p.at.Nowhere? ==> p.at.At? && Inv(p.cells, total, mask))
  {
    hide Unique, Absent, LobbyBacked, Pairs, AltIdx, InTable, Kickout, Bounded;
    var b := Lobby(second, idx);
    HeavyInTable(bare, second, idx, mask);
    CompleteUpdate(bare, b, Entry(f, n), mask);
    var cells := bare[b := Entry(f, n)];
    FullHere(bare, second, idx, f, mask);
    var l, r := Heavy(second, idx, false), Heavy(second, idx, true);
    var s := if RightIsSmaller(cells, second, idx) then r else l;
    var e := Entry(f, bare[s].count);
    assert cells[s := Entry(cells[b].fp, cells[s].count)][b := Entry(0, 0)] == bare[s := e][b := Entry(0, 0)];
    LobbyErased(bare, second, idx, s, e, total, mask);
    PromotedKeeps(bare[b := Entry(0, 0)], f, s, second, idx, ch, total, mask);
  }

  lemma FullHere(cells: Cells, second: bool, idx: bv64, f: bv16, mask: bv64)
    requires InTable(idx, mask) && BothFull(cells, ClassAt(second, idx, f, mask), mask)
    ensures forall right :: Heavy(second, idx, right) in cells && Live(cells[Heavy(second, idx, right)])
  {
    var c := ClassAt(second, idx, f, mask);
    ClassHere(second, idx, f, mask);
    forall right ensures Heavy(second, idx, right) in cells && Live(cells[Heavy(second, idx, right)]) {
      var k := (if second then 2 else 0) + (if right then 1 else 0);
      assert HeavySlots(c, mask)[k] == Heavy(second, idx, right);
    }
  }

  lemma LobbyErased(bare: Cells, second: bool, idx: bv64, s: Slot, e: Entry, total: nat, mask: bv64)
    requires Inv(bare, total, mask) && Lobby(second, idx) in bare && s.Heavy?
    ensures var zero := bare[Lobby(second, idx) := Entry(0, 0)];
            && Inv(zero, total, mask)
            && bare[s := e][Lobby(second, idx) := Entry(0, 0)] == zero[s := e]
            && (forall c :: Absent(bare, c, mask) ==> Absent(zero, c, mask))
            && (forall c :: BothFull(bare, c, mask) ==> BothFull(zero, c, mask))
  {
    ClearLobby(bare, Lobby(second, idx), total, mask);
    var zero := bare[Lobby(second, idx) := Entry(0, 0)];
    assert forall a :: a in zero && Live(zero[a]) ==> a in bare && zero[a] == bare[a];
  }

  lemma PromotedKeeps(zero: Cells, f: bv16, s: Slot, second: bool, idx: bv64, ch: Choice, total: nat, mask: bv64)
    requires Inv(zero, total, mask) && InTable(idx, mask)
    requires s in zero && s.Heavy? && s.second == second && s.idx == idx && Live(zero[s])
    requires Absent(zero, ClassAt(second, idx, f, mask), mask)
    ensures Complete(zero[s := Entry(f, zero[s].count)], mask)
    ensures Inv(Kickout(zero[s := Entry(f, zero[s].count)], zero[s], second, idx, MAX_KICKS, ch.isHeavy, mask).cells, total, mask)
  {
    hide Unique, Absent, LobbyBacked, Pairs, AltIdx, InTable, Complete, Kickout;
    var e := Entry(f, zero[s].count);
    Exchange(zero, s, e, mask);
    var now := zero[s := e];
    assert Bounded(now, total);
    KickoutConserves(now, zero[s], second, idx, MAX_KICKS, ch.isHeavy, mask);
    KickoutBounded(now, zero[s], second, idx, MAX_KICKS, ch.isHeavy, total, mask);
    var k := Kickout(now, zero[s], second, idx, MAX_KICKS, ch.isHeavy, mask);
    GrowsTrans(zero, now, k.cells);
    BackedGrows(zero, k.cells, mask);
  }

  // ---------- each part of an update ----------

  lemma BoundGrows(cells: Cells, total: nat, weight: nat, mask: bv64)
    requires Inv(cells, total, mask)
    ensures Inv(cells, total + weight, mask)
  {
  }

  /** A live entry with the item's fingerprint in one of the item's buckets is the item's. */
  lemma SlotClass(cells: Cells, c: Class, k: nat, mask: bv64)
    requires k < 4 && Complete(cells, mask) && InTable(c.home, mask)
    ensures HeavySlots(c, mask)[k] in cells
    ensures var s := HeavySlots(c, mask)[k]; ClassAt(s.second, s.idx, c.fp, mask) == c
  {
    hide AltIdx, InTable, BucketOf;
    SlotsKnown(cells, c, mask);
    ClassBuckets(c, false, mask);
    ClassBuckets(c, true, mask);
  }

  /** If neither its heavy slots nor its lobby slots hold the fingerprint, a class is absent. */
  lemma NotFoundIsAbsent(cells: Cells, c: Class, mask: bv64)
    requires Complete(cells, mask) && InTable(c.home, mask)
    requires Known(cells, HeavySlots(c, mask)) && FirstMatch(cells, HeavySlots(c, mask), c.fp) == 4
    requires forall t: bool :: NotInLobby(cells, c, t, mask)
    ensures Absent(cells, c, mask)
  {
    hide AltIdx, InTable, BucketOf, FirstMatch;
    forall s | s in cells && Live(cells[s]) ensures ClassOf(cells, s, mask) != c {
      SlotOfClass(cells, s, mask);
      var d := ClassOf(cells, s, mask);
      if s.Heavy? {
        var k := (if s.second then 2 else 0) + (if s.right then 1 else 0);
        assert HeavySlots(d, mask)[k] == s;
      } else {
        assert s == Lobby(s.second, BucketOf(d, s.second, mask));
        assert NotInLobby(cells, c, s.second, mask);
      }
    }
  }

  predicate NotInLobby(cells: Cells, c: Class, t: bool, mask: bv64) {
    var b := Lobby(t, BucketOf(c, t, mask));
    b in cells && !(Live(cells[b]) && cells[b].fp == c.fp)
  }

  lemma SlotOfClass(cells: Cells, s: Slot, mask: bv64)
    requires Complete(cells, mask) && s in cells
    ensures var d := ClassOf(cells, s, mask); d.fp == cells[s].fp && s.idx == BucketOf(d, s.second, mask)
  {
    assert InTable(s.idx, mask);
    ClassHere(s.second, s.idx, cells[s].fp, mask);
  }

  lemma NotHeavy(cells: Cells, c: Class, mask: bv64)
    requires Known(cells, HeavySlots(c, mask))
    requires FirstMatch(cells, HeavySlots(c, mask), c.fp) == 4 && FirstEmpty(cells, HeavySlots(c, mask)) == 4
    ensures BothFull(cells, c, mask)
  {
  }

  lemma HeavyKeeps(cells: Cells, c: Class, weight: nat, total: nat, mask: bv64)
    requires Inv(cells, total, mask) && InTable(c.home, mask) && weight > 0
    ensures Known(cells, HeavySlots(c, mask))
    ensures var h := CheckHeavyEntries(cells, c, weight, mask);
            && Inv(h.cells, total + weight, mask)
            && (h.at.Nowhere? ==>
                  && h.cells == cells && BothFull(cells, c, mask)
                  && FirstMatch(cells, HeavySlots(c, mask), c.fp) == 4)
  {
    hide HeavySlots, BothFull, Unique, Absent, LobbyBacked, Bounded, InTable, FirstMatch, FirstEmpty;
    SlotsKnown(cells, c, mask);
    BoundGrows(cells, total, weight, mask);
    var ss := HeavySlots(c, mask);
    FourSlots(c, mask);
    var m := FirstMatch(cells, ss, c.fp);
    if m < |ss| {
      BumpKeeps(cells, ss[m], weight, total, mask);
    } else {
      var e := FirstEmpty(cells, ss);
      if e < |ss| {
        SlotClass(cells, c, e, mask);
        EmptySlotMeansAbsent(cells, c, total, mask);
        FillHeavy(cells, ss[e], Entry(c.fp, weight), total + weight, mask);
      } else {
        NotHeavy(cells, c, mask);
      }
    }
  }

  lemma FourSlots(c: Class, mask: bv64)
    ensures |HeavySlots(c, mask)| == 4
    ensures forall k :: 0 <= k < 4 ==> HeavySlots(c, mask)[k].Heavy?
  {
  }

  lemma BumpKeeps(cells: Cells, s: Slot, weight: nat, total: nat, mask: bv64)
    requires Inv(cells, total, mask) && s in cells && s.Heavy? && Live(cells[s])
    ensures Inv(cells[s := Entry(cells[s].fp, cells[s].count + weight)], total + weight, mask)
  {
    var now := cells[s := Entry(cells[s].fp, cells[s].count + weight)];
    assert forall a :: a in now ==> a in cells && (Live(now[a]) <==> Live(cells[a])) && now[a].fp == cells[a].fp;
    assert forall a :: a in now ==> ClassOf(now, a, mask) == ClassOf(cells, a, mask);
    assert Unique(now, mask);
    assert Grows(cells, now);
    BackedGrows(cells, now, mask);
  }

  lemma FillHeavy(cells: Cells, s: Slot, e: Entry, total: nat, mask: bv64)
    requires Inv(cells, total, mask) && s in cells && s.Heavy? && Live(e) && e.count <= total
    requires Absent(cells, ClassAt(s.second, s.idx, e.fp, mask), mask)
    ensures Inv(cells[s := e], total, mask)
  {
    Exchange(cells, s, e, mask);
    BackedGrows(cells, cells[s := e], mask);
  }

  /** An item with an empty heavy slot and no heavy entry is not in the lobby either: that is
      why it may skip the lobby. */
  lemma EmptySlotMeansAbsent(cells: Cells, c: Class, total: nat, mask: bv64)
    requires Inv(cells, total, mask) && InTable(c.home, mask) && Known(cells, HeavySlots(c, mask))
    requires FirstMatch(cells, HeavySlots(c, mask), c.fp) == 4 && FirstEmpty(cells, HeavySlots(c, mask)) < 4
    ensures Absent(cells, c, mask)
  {
    var ss := HeavySlots(c, mask);
    var e := FirstEmpty(cells, ss);
    assert !BothFull(cells, c, mask) by {
      assert !Live(cells[ss[e]]);
    }
    forall t: bool ensures NotInLobby(cells, c, t, mask) {
      ClassBuckets(c, t, mask);
      HeavyInTable(cells, t, BucketOf(c, t, mask), mask);
      var b := Lobby(t, BucketOf(c, t, mask));
      assert cells[b].fp == c.fp ==> ClassOf(cells, b, mask) == c;
    }
    NotFoundIsAbsent(cells, c, mask);
  }

  lemma ClearKeepsOthers(cells: Cells, b: Slot, c: Class, mask: bv64)
    requires b in cells && b.Lobby?
    ensures Absent(cells, c, mask) ==> Absent(cells[b := Entry(0, 0)], c, mask)
    ensures BothFull(cells, c, mask) ==> BothFull(cells[b := Entry(0, 0)], c, mask)
  {
    var now := cells[b := Entry(0, 0)];
    assert forall a :: a in now && Live(now[a]) ==> a in cells && now[a] == cells[a];
  }

  lemma LobbySlot(cells: Cells, c: Class, second: bool, mask: bv64)
    requires Complete(cells, mask) && InTable(c.home, mask)
    ensures InTable(BucketOf(c, second, mask), mask)
    ensures var b := Lobby(second, BucketOf(c, second, mask));
            b in cells && ClassAt(b.second, b.idx, c.fp, mask) == c &&
            (cells[b].fp == c.fp ==> ClassOf(cells, b, mask) == c)
  {
    ClassBuckets(c, second, mask);
    HeavyInTable(cells, second, BucketOf(c, second, mask), mask);
  }

  lemma CheckLobbyKeeps(cells: Cells, c: Class, weight: nat, second: bool, ch: Choice, total: nat, mask: bv64)
    requires Inv(cells, total, mask) && InTable(c.home, mask)
    ensures var r := CheckLobby(cells, c, weight, second, ch, mask);
            && (r.at.Nowhere? ==> r.cells == cells && NotInLobby(cells, c, second, mask))
            && (!r.at.Nowhere? ==> Inv(r.cells, total + weight, mask))
  {
    hide HeavySlots, BothFull, Unique, Absent, LobbyBacked, InTable, TryPromote, Complete, BucketOf, AltIdx;
    LobbySlot(cells, c, second, mask);
    var idx := BucketOf(c, second, mask);
    var b := Lobby(second, idx);
    if cells[b].fp == c.fp && cells[b].count != 0 {
      var n := cells[b].count + weight;
      BoundGrows(cells, total, weight, mask);
      ClearLobby(cells, b, total + weight, mask);
      var bare := cells[b := Entry(0, 0)];
      if n < LOBBY_PROMOTION_THRESHOLD {
        FillLobby(bare, b, Entry(c.fp, n), total + weight, mask);
        assert bare[b := Entry(c.fp, n)] == cells[b := Entry(c.fp, n)];
      } else {
        assert bare[b := Entry(c.fp, cells[b].count)] == cells;
        PromoteKeeps(bare, c.fp, cells[b].count, c.fp, n, second, idx, ch, total + weight, mask);
        FillLobby(bare, b, Entry(c.fp, LOBBY_PROMOTION_THRESHOLD), total + weight, mask);
        assert bare[b := Entry(c.fp, LOBBY_PROMOTION_THRESHOLD)] == cells[b := Entry(c.fp, LOBBY_PROMOTION_THRESHOLD)];
      }
    }
  }

  lemma EnterLobbyKeeps(cells: Cells, c: Class, weight: nat, second: bool, ch: Choice, total: nat, mask: bv64)
    requires Inv(cells, total, mask) && InTable(c.home, mask) && 0 < weight <= total
    requires Absent(cells, c, mask) && BothFull(cells, c, mask)
    ensures var r := EnterLobby(cells, c, weight, second, ch, mask);
            && (r.at.Nowhere? ==> r.cells == cells && Lobby(second, BucketOf(c, second, mask)) in cells &&
                                  Live(cells[Lobby(second, BucketOf(c, second, mask))]))
            && (!r.at.Nowhere? ==> Inv(r.cells, total, mask))
  {
    hide HeavySlots, BothFull, Unique, Absent, LobbyBacked, InTable, TryPromote, Complete, BucketOf, AltIdx;
    LobbySlot(cells, c, second, mask);
    var idx := BucketOf(c, second, mask);
    var b := Lobby(second, idx);
    if cells[b].count == 0 {
      ClearLobby(cells, b, total, mask);
      ClearKeepsOthers(cells, b, c, mask);
      var bare := cells[b := Entry(0, 0)];
      if weight < LOBBY_PROMOTION_THRESHOLD {
        FillLobby(bare, b, Entry(c.fp, weight), total, mask);
        assert bare[b := Entry(c.fp, weight)] == cells[b := Entry(c.fp, weight)];
      } else {
        assert bare[b := Entry(c.fp, 0)] == cells[b := Entry(c.fp, 0)];
        PromoteKeeps(bare, c.fp, 0, c.fp, weight, second, idx, ch, total, mask);
        FillLobby(bare, b, Entry(c.fp, LOBBY_PROMOTION_THRESHOLD), total, mask);
        assert bare[b := Entry(c.fp, LOBBY_PROMOTION_THRESHOLD)] == cells[b := Entry(c.fp, LOBBY_PROMOTION_THRESHOLD)];
      }
    }
  }

  lemma DecayLobbyKeeps(cells: Cells, c: Class, weight: nat, ch: Choice, total: nat, mask: bv64)
    requires Inv(cells, total, mask) && InTable(c.home, mask) && 0 < weight <= total
    requires Absent(cells, c, mask) && BothFull(cells, c, mask)
    requires var b := Lobby(c.fp & 1 == 1, BucketOf(c, c.fp & 1 == 1, mask));
             b in cells && Live(cells[b]) && ch.decayed <= cells[b].count
    ensures Inv(DecayLobby(cells, c, weight, ch, mask).cells, total, mask)
  {
    hide HeavySlots, BothFull, Unique, Absent, LobbyBacked, InTable, TryPromote, Complete, BucketOf, AltIdx;
    var second := c.fp & 1 == 1;
    LobbySlot(cells, c, second, mask);
    var idx := BucketOf(c, second, mask);
    var b := Lobby(second, idx);
    ClearLobby(cells, b, total, mask);
    ClearKeepsOthers(cells, b, c, mask);
    var bare := cells[b := Entry(0, 0)];
    var e := if ch.decayed == 0
             then Entry(c.fp, if ch.expDecay >= weight then 1 else if weight - ch.expDecay < 255 then weight - ch.expDecay else 255)
             else Entry(cells[b].fp, ch.decayed);
    FillLobby(bare, b, e, total, mask);
    assert bare[b := e] == cells[b := e];
    PromoteKeeps(bare, e.fp, e.count, c.fp, e.count, second, idx, ch, total, mask);
  }

  /** A choice is possible when decaying does not raise the lobby count that it decays. */
  ghost predicate Possible(cells: Cells, c: Class, ch: Choice, mask: bv64) {
    var b := Lobby(c.fp & 1 == 1, BucketOf(c, c.fp & 1 == 1, mask));
    b in cells ==> ch.decayed <= cells[b].count
  }

  /** One update: at most one live entry per class, no count above the new total. */
  lemma UpdateKeeps(cells: Cells, c: Class, weight: nat, ch: Choice, total: nat, mask: bv64)
    requires Inv(cells, total, mask) && InTable(c.home, mask) && weight > 0 && Possible(cells, c, ch, mask)
    ensures Inv(Update(cells, c, weight, ch, mask).cells, total + weight, mask)
  {
    hide HeavySlots, BothFull, Unique, Absent, LobbyBacked, Bounded, InTable, Complete, BucketOf, AltIdx, FirstMatch,
      CheckHeavyEntries, CheckLobby, EnterLobby, DecayLobby, NotInLobby;
    SlotsKnown(cells, c, mask);
    HeavyKeeps(cells, c, weight, total, mask);
    CheckLobbyKeeps(cells, c, weight, false, ch, total, mask);
    CheckLobbyKeeps(cells, c, weight, true, ch, total, mask);
    if CheckHeavyEntries(cells, c, weight, mask).at.Nowhere? &&
       CheckLobby(cells, c, weight, false, ch, mask).at.Nowhere? &&
       CheckLobby(cells, c, weight, true, ch, mask).at.Nowhere?
    {
      assert forall t: bool :: NotInLobby(cells, c, t, mask);
      NotFoundIsAbsent(cells, c, mask);
      BoundGrows(cells, total, weight, mask);
      EnterLobbyKeeps(cells, c, weight, false, ch, total + weight, mask);
      EnterLobbyKeeps(cells, c, weight, true, ch, total + weight, mask);
      if EnterLobby(cells, c, weight, false, ch, mask).at.Nowhere? && EnterLobby(cells, c, weight, true, ch, mask).at.Nowhere? {
        DecayLobbyKeeps(cells, c, weight, ch, total + weight, mask);
      }
    }
  }

  lemma {:induction false} KickoutKeys(cells: Cells, e: Entry, second: bool, idx: bv64, kicks: nat, isHeavy: nat -> bool, mask: bv64)
    requires Complete(cells, mask) && InTable(idx, mask)
    ensures Kickout(cells, e, second, idx, kicks, isHeavy, mask).cells.Keys == cells.Keys
    decreases kicks
  {
    hide AltIdx, InTable, Complete;
    if kicks != 0 && isHeavy(e.count) {
      AltIdxInvolutes(e.fp, idx, mask);
      var t, i := !second, AltIdx(e.fp, idx, mask);
      HeavyInTable(cells, t, i, mask);
      var s := if RightIsSmaller(cells, t, i) then Heavy(t, i, true) else Heavy(t, i, false);
      CompleteUpdate(cells, s, e, mask);
      KickoutKeys(cells[s := e], cells[s], t, i, kicks - 1, isHeavy, mask);
    }
  }

  lemma PromoteKeys(cells: Cells, fp: bv16, newCount: nat, second: bool, idx: bv64, ch: Choice, mask: bv64)
    requires Complete(cells, mask) && InTable(idx, mask)
    ensures var p := TryPromote(cells, fp, newCount, second, idx, ch, mask);
            p.cells.Keys == cells.Keys && !p.at.InLobby? && (p.at.At? ==> p.at.slot in cells)
  {
    hide AltIdx, InTable, Kickout;
    HeavyInTable(cells, second, idx, mask);
    var l, r, b := Heavy(second, idx, false), Heavy(second, idx, true), Lobby(second, idx);
    var s := if RightIsSmaller(cells, second, idx) then r else l;
    CompleteUpdate(cells, s, Entry(cells[b].fp, cells[s].count), mask);
    var named := cells[s := Entry(cells[b].fp, cells[s].count)];
    CompleteUpdate(named, b, Entry(0, 0), mask);
    KickoutKeys(named[b := Entry(0, 0)], cells[s], second, idx, MAX_KICKS, ch.isHeavy, mask);
  }

  /** The slot an update ends at is in the tables, and no slot comes or goes. */
  lemma UpdateKeys(cells: Cells, c: Class, weight: nat, ch: Choice, mask: bv64)
    requires Complete(cells, mask) && InTable(c.home, mask)
    ensures var u := Update(cells, c, weight, ch, mask);
            u.cells.Keys == cells.Keys && (u.at.At? ==> u.at.slot in cells)
  {
    hide AltIdx, InTable, TryPromote, BucketOf, HeavySlots, Complete, FirstMatch, FirstEmpty;
    SlotsKnown(cells, c, mask);
    LobbyKeys(cells, c, weight, false, ch, mask);
    LobbyKeys(cells, c, weight, true, ch, mask);
    DecayKeys(cells, c, weight, ch, mask);
    hide CheckLobby, EnterLobby, DecayLobby;
  }

  lemma LobbyKeys(cells: Cells, c: Class, weight: nat, second: bool, ch: Choice, mask: bv64)
    requires Complete(cells, mask) && InTable(c.home, mask)
    ensures var u := CheckLobby(cells, c, weight, second, ch, mask);
            u.cells.Keys == cells.Keys && (u.at.At? ==> u.at.slot in cells)
    ensures var u := EnterLobby(cells, c, weight, second, ch, mask);
            u.cells.Keys == cells.Keys && (u.at.At? ==> u.at.slot in cells)
  {
    hide AltIdx, InTable, TryPromote, BucketOf, Complete;
    LobbySlot(cells, c, second, mask);
    var idx := BucketOf(c, second, mask);
    var b := Lobby(second, idx);
    PromoteKeys(cells, c.fp, cells[b].count + weight, second, idx, ch, mask);
    CompleteUpdate(cells, b, Entry(c.fp, 0), mask);
    PromoteKeys(cells[b := Entry(c.fp, 0)], c.fp, weight, second, idx, ch, mask);
  }

  lemma DecayKeys(cells: Cells, c: Class, weight: nat, ch: Choice, mask: bv64)
    requires Complete(cells, mask) && InTable(c.home, mask)
    ensures var u := DecayLobby(cells, c, weight, ch, mask);
            u.cells.Keys == cells.Keys && (u.at.At? ==> u.at.slot in cells)
  {
    hide AltIdx, InTable, TryPromote, BucketOf, Complete;
    var second := c.fp & 1 == 1;
    LobbySlot(cells, c, second, mask);
    var idx := BucketOf(c, second, mask);
    var b := Lobby(second, idx);
    var e := if ch.decayed == 0
             then Entry(c.fp, if ch.expDecay >= weight then 1 else if weight - ch.expDecay < 255 then weight - ch.expDecay else 255)
             else Entry(cells[b].fp, ch.decayed);
    CompleteUpdate(cells, b, e, mask);
    PromoteKeys(cells[b := e], c.fp, e.count, second, idx, ch, mask);
  }

  // ---------- all runs ----------

  datatype Event = Event(c: Class, weight: nat, ch: Choice)

  /** A run of updates; an update of weight zero does nothing. */
  ghost predicate IsRun(cells: Cells, total: nat, es: seq<Event>, last: Cells, lastTotal: nat, mask: bv64)
    requires Complete(cells, mask)
    decreases |es|
  {
    if es == [] then last == cells && lastTotal == total
    else
      var e := es[0];
      && InTable(e.c.home, mask)
      && if e.weight == 0 then IsRun(cells, total, es[1..], last, lastTotal, mask)
         else
           && Possible(cells, e.c, e.ch, mask)
           && var next := Update(cells, e.c, e.weight, e.ch, mask).cells;
           Complete(next, mask) && IsRun(next, total + e.weight, es[1..], last, lastTotal, mask)
  }

  ghost predicate IsEmpty(cells: Cells, mask: bv64) {
    Complete(cells, mask) && forall s :: s in cells ==> !Live(cells[s])
  }

  lemma {:induction false} RunKeeps(cells: Cells, total: nat, es: seq<Event>, last: Cells, lastTotal: nat, mask: bv64)
    requires Inv(cells, total, mask) && IsRun(cells, total, es, last, lastTotal, mask)
    ensures Inv(last, lastTotal, mask)
    decreases |es|
  {
    hide Unique, LobbyBacked, Bounded, Update, Possible;
    if es != [] {
      var e := es[0];
      if e.weight == 0 {
        RunKeeps(cells, total, es[1..], last, lastTotal, mask);
      } else {
        UpdateKeeps(cells, e.c, e.weight, e.ch, total, mask);
        var next := Update(cells, e.c, e.weight, e.ch, mask).cells;
        RunKeeps(next, total + e.weight, es[1..], last, lastTotal, mask);
      }
    }
  }

  /** Over every run of updates from empty tables, whatever the random choices: each class has
      at most one live entry in both tables together, no count exceeds the total, and a class
      in the lobby has all its heavy slots taken. */
  lemma RunIsUnique(cells: Cells, es: seq<Event>, last: Cells, total: nat, mask: bv64)
    requires IsEmpty(cells, mask) && IsRun(cells, 0, es, last, total, mask)
    ensures Unique(last, mask) && LobbyBacked(last, mask)
    ensures forall s :: s in last ==> last[s].count <= total
  {
    assert Inv(cells, 0, mask);
    RunKeeps(cells, 0, es, last, total, mask);
  }
}

/**
 The top-K structure in the source's form: loops over tables and entries that update the
 cells, and a heap array. Each method is proved against its function in `ChkTable` and
 `ChkHeap`; `Update` keeps the invariants of both.
 */
module ChkTopK {
  import opened Common
  import opened ChkTable
  import opened ChkHeap

  class TopK {
    var cells: Cells
    var total: nat
    const mask: bv64
    const heap: array<Bucket>
    ghost const hash: Name -> nat

    ghost predicate Valid()
      reads this, heap
    {
      Inv(cells, total, mask) && heap.Length > 0 && Listed(heap[..], hash)
    }

    constructor (cells: Cells, mask: bv64, k: nat, ghost hash: Name -> nat)
      requires IsEmpty(cells, mask) && k > 0
      ensures Valid() && fresh(heap) && total == 0 && heap.Length == k
      ensures IsHeap(heap[..])
    {
      this.cells, this.mask, this.total := cells, mask, 0;
      this.hash := hash;
      heap := new Bucket[k](_ => Bucket(0, None, 0));
      new;
      assert forall i :: 0 <= i < k ==> heap[..][i] == Bucket(0, None, 0);
    }

    /** Scans the heavy entries of both tables; bumps the item's, or takes the first empty one. */
    method CheckHeavyEntries(c: Class, weight: nat) returns (at: Where)
      requires Complete(cells, mask) && InTable(c.home, mask)
      modifies this`cells
      ensures Known(old(cells), HeavySlots(c, mask))
      ensures Checked(cells, at) == ChkTable.CheckHeavyEntries(old(cells), c, weight, mask)
    {
      hide NoMatch, AllLive, Live, FirstMatch, FirstEmpty, Complete, InTable, HeavySlots, AltIdx, Known;
      SlotsKnown(cells, c, mask);
      FourOfThem(c, mask);
      ghost var ss := HeavySlots(c, mask);
      var empty: Where := Nowhere;
      ghost var emptyAt: nat := 4;
      NothingSeen(cells, ss, c.fp);
      var i := 0;
      while i < 2
        invariant 0 <= i <= 2 && cells == old(cells) && NoMatch(cells, ss, c.fp, 2 * i)
        invariant empty.Nowhere? ==> AllLive(cells, ss, 2 * i)
        invariant !empty.Nowhere? ==> emptyAt < 4 && empty == At(ss[emptyAt]) && !Live(cells[ss[emptyAt]]) && AllLive(cells, ss, emptyAt)
      {
        var second := i == 1;
        var idx := BucketOf(c, second, mask);
        var j := 0;
        while j < 2
          invariant 0 <= j <= 2 && cells == old(cells) && NoMatch(cells, ss, c.fp, 2 * i + j)
          invariant empty.Nowhere? ==> AllLive(cells, ss, 2 * i + j)
          invariant !empty.Nowhere? ==> emptyAt < 4 && empty == At(ss[emptyAt]) && !Live(cells[ss[emptyAt]]) && AllLive(cells, ss, emptyAt)
        {
          var s := Heavy(second, idx, j == 1);
          SlotAt(c, mask, i, j);
          SlotIsKnown(cells, ss, 2 * i + j);
          SeenOneMore(cells, ss, c.fp, 2 * i + j);
          if cells[s].count > 0 {
            if cells[s].fp == c.fp {
              cells := cells[s := Entry(c.fp, cells[s].count + weight)];
              MatchIs(old(cells), ss, c.fp, 2 * i + j);
              return At(s);
            }
          } else if empty == Nowhere {
            empty := At(s);
            emptyAt := 2 * i + j;
          }
          j := j + 1;
        }
        i := i + 1;
      }
      MatchIs(cells, ss, c.fp, 4);
      if empty == Nowhere {
        EmptyIs(cells, ss, 4);
        return Nowhere;
      }
      EmptyIs(cells, ss, emptyAt);
      cells := cells[empty.slot := Entry(c.fp, weight)];
      at := empty;
    }

    /** The chain of kicks, at most MAX_KICKS long. */
    method Kickout(start: Entry, second: bool, idx: bv64, isHeavy: nat -> bool)
      requires Complete(cells, mask) && InTable(idx, mask)
      modifies this`cells
      ensures cells == ChkTable.Kickout(old(cells), start, second, idx, MAX_KICKS, isHeavy, mask).cells
    {
      var e, t, x := start, second, idx;
      var i: nat := 0;
      while i < MAX_KICKS
        invariant 0 <= i <= MAX_KICKS && Complete(cells, mask) && InTable(x, mask)
        invariant ChkTable.Kickout(old(cells), start, second, idx, MAX_KICKS, isHeavy, mask).cells ==
                  ChkTable.Kickout(cells, e, t, x, MAX_KICKS - i, isHeavy, mask).cells
      {
        if !isHeavy(e.count) {
          return;
        }
        AltIdxInvolutes(e.fp, x, mask);
        t, x := !t, AltIdx(e.fp, x, mask);
        HeavyInTable(cells, t, x, mask);
        var l, r := Heavy(t, x, false), Heavy(t, x, true);
        if cells[l].count == 0 {
          cells := cells[l := e];
          return;
        }
        if cells[r].count == 0 {
          cells := cells[r := e];
          return;
        }
        var s := if cells[r].count < cells[l].count then r else l;
        var prior := cells[s];
        CompleteUpdate(cells, s, e, mask);
        cells := cells[s := e];
        e := prior;
        i := i + 1;
      }
    }

    method TryPromoteAndKickout(fp: bv16, newCount: nat, second: bool, idx: bv64, ch: Choice) returns (at: Where)
      requires Complete(cells, mask) && InTable(idx, mask)
      modifies this`cells
      ensures Checked(cells, at) == TryPromote(old(cells), fp, newCount, second, idx, ch, mask)
    {
      HeavyInTable(cells, second, idx, mask);
      var l, r, b := Heavy(second, idx, false), Heavy(second, idx, true), Lobby(second, idx);
      if cells[l].count == 0 {
        cells := cells[l := Entry(fp, newCount)];
        return At(l);
      }
      if cells[r].count == 0 {
        cells := cells[r := Entry(fp, newCount)];
        return At(r);
      }
      var s := if cells[r].count < cells[l].count then r else l;
      if cells[s].count > newCount && !ch.promote {
        return Nowhere;
      }
      var out := cells[s];
      CompleteUpdate(cells, s, Entry(cells[b].fp, out.count), mask);
      cells := cells[s := Entry(cells[b].fp, out.count)];
      CompleteUpdate(cells, b, Entry(0, 0), mask);
      cells := cells[b := Entry(0, 0)];
      Kickout(out, second, idx, ch.isHeavy);
      at := At(s);
    }

    method CheckLobbyEntry(c: Class, weight: nat, second: bool, ch: Choice) returns (at: Where)
      requires Complete(cells, mask) && InTable(c.home, mask)
      modifies this`cells
      ensures Checked(cells, at) == CheckLobby(old(cells), c, weight, second, ch, mask)
    {
      hide TryPromote, AltIdx, BucketOf, Complete, InTable;
      LobbySlot(cells, c, second, mask);
      var idx := BucketOf(c, second, mask);
      var b := Lobby(second, idx);
      if cells[b].fp != c.fp || cells[b].count == 0 {
        return Nowhere;
      }
      var n := cells[b].count + weight;
      if n < LOBBY_PROMOTION_THRESHOLD {
        cells := cells[b := Entry(c.fp, n)];
        return InLobby;
      }
      at := TryPromoteAndKickout(c.fp, n, second, idx, ch);
      if at == Nowhere {
        PromoteRefuses(old(cells), c.fp, n, second, idx, ch, mask);
        cells := cells[b := Entry(c.fp, LOBBY_PROMOTION_THRESHOLD)];
        at := InLobby;
      } else {
        PromoteLands(old(cells), c.fp, n, second, idx, ch, mask);
      }
    }

    method EnterLobbyEntry(c: Class, weight: nat, second: bool, ch: Choice) returns (at: Where)
      requires Complete(cells, mask) && InTable(c.home, mask)
      modifies this`cells
      ensures Checked(cells, at) == EnterLobby(old(cells), c, weight, second, ch, mask)
    {
      hide TryPromote, AltIdx, BucketOf, Complete, InTable;
      LobbySlot(cells, c, second, mask);
      var idx := BucketOf(c, second, mask);
      var b := Lobby(second, idx);
      if cells[b].count != 0 {
        return Nowhere;
      }
      if weight < LOBBY_PROMOTION_THRESHOLD {
        cells := cells[b := Entry(c.fp, weight)];
        return InLobby;
      }
      CompleteUpdate(cells, b, Entry(c.fp, 0), mask);
      cells := cells[b := Entry(c.fp, 0)];
      ghost var named := cells;
      at := TryPromoteAndKickout(c.fp, weight, second, idx, ch);
      if at == Nowhere {
        PromoteRefuses(named, c.fp, weight, second, idx, ch, mask);
        cells := cells[b := Entry(c.fp, LOBBY_PROMOTION_THRESHOLD)];
        assert cells == old(cells)[b := Entry(c.fp, LOBBY_PROMOTION_THRESHOLD)];
        at := InLobby;
      } else {
        PromoteLands(named, c.fp, weight, second, idx, ch, mask);
      }
    }

    method DecayLobbyEntry(c: Class, weight: nat, ch: Choice) returns (at: Where)
      requires Complete(cells, mask) && InTable(c.home, mask)
      modifies this`cells
      ensures Checked(cells, at) == DecayLobby(old(cells), c, weight, ch, mask)
    {
      hide TryPromote, AltIdx, BucketOf, Complete, InTable;
      var second := c.fp & 1 == 1;
      LobbySlot(cells, c, second, mask);
      var idx := BucketOf(c, second, mask);
      var b := Lobby(second, idx);
      var e;
      if ch.decayed == 0 {
        e := Entry(c.fp, if ch.expDecay >= weight then 1 else if weight - ch.expDecay < 255 then weight - ch.expDecay else 255);
      } else {
        e := Entry(cells[b].fp, ch.decayed);
      }
      CompleteUpdate(cells, b, e, mask);
      cells := cells[b := e];
      at := InLobby;
      if e.count >= LOBBY_PROMOTION_THRESHOLD {
        ghost var named := cells;
        at := TryPromoteAndKickout(c.fp, e.count, second, idx, ch);
        if at == Nowhere {
          PromoteRefuses(named, c.fp, e.count, second, idx, ch, mask);
          at := InLobby;
        } else {
          PromoteLands(named, c.fp, e.count, second, idx, ch, mask);
        }
      }
    }

    /** The table part of an update. */
    method UpdateTables(c: Class, weight: nat, ch: Choice) returns (at: Where)
      requires Complete(cells, mask) && InTable(c.home, mask)
      modifies this`cells
      ensures Checked(cells, at) == ChkTable.Update(old(cells), c, weight, ch, mask)
    {
      hide Complete, InTable, ChkTable.CheckHeavyEntries, CheckLobby, EnterLobby, DecayLobby, HeavySlots;
      SlotsKnown(cells, c, mask);
      at := CheckHeavyEntries(c, weight);
      if at != Nowhere {
        return;
      }
      NowhereKeeps(old(cells), c, weight, ch, mask);
      at := CheckLobbyEntry(c, weight, false, ch);
      if at != Nowhere {
        return;
      }
      at := CheckLobbyEntry(c, weight, true, ch);
      if at != Nowhere {
        return;
      }
      at := EnterLobbyEntry(c, weight, false, ch);
      if at != Nowhere {
        return;
      }
      at := EnterLobbyEntry(c, weight, true, ch);
      if at != Nowhere {
        return;
      }
      at := DecayLobbyEntry(c, weight, ch);
    }

    /** Finds the item in the heap, from the last bucket to the first. */
    method CheckExistInHeap(item: Name, fp: nat) returns (r: nat)
      ensures r == FindItem(heap[..], item, fp)
    {
      var i := heap.Length;
      assert heap[..i] == heap[..];
      while i > 0
        invariant 0 <= i <= heap.Length
        invariant FindItem(heap[..], item, fp) ==
                  var q := FindItem(heap[..i], item, fp); if q == i then heap.Length else q
      {
        i := i - 1;
        assert heap[..i + 1][..i] == heap[..i];
        assert heap[..i + 1][i] == heap[i];
        if heap[i].fp == fp && heap[i].item == Some(item) {
          return i;
        }
      }
      r := heap.Length;
    }

    /** One weighted update; returns the name that left the heap, if any. */
    method Update(item: Name, fp: nat, c: Class, weight: nat, ch: Choice) returns (expelled: Option<Name>)
      requires Valid() && InTable(c.home, mask) && fp == hash(item) && Possible(cells, c, ch, mask)
      modifies this`cells, this`total, heap
      ensures Valid()
      ensures total == old(total) + weight
      ensures Complete(old(cells), mask)
      ensures var u := ChkTable.Update(old(cells), c, weight, ch, mask);
              && cells == (if weight == 0 then old(cells) else u.cells)
              && (u.at.At? ==> u.at.slot in u.cells)
              && (heap[..], expelled) ==
                 if weight > 0 && u.at.At? then Offer(old(heap[..]), item, fp, u.cells[u.at.slot].count)
                 else (old(heap[..]), None)
    {
      hide Inv, Listed, ChkTable.Update, Possible, Offer, Complete;
      InvComplete(cells, total, mask);
      UpdateKeys(cells, c, weight, ch, mask);
      if weight == 0 {
        return None;
      }
      total := total + weight;
      UpdateKeeps(cells, c, weight, ch, old(total), mask);
      var at := UpdateTables(c, weight, ch);
      if !at.At? {
        return None;
      }
      OfferKeepsListed(heap[..], item, cells[at.slot].count, hash);
      expelled := OfferToHeap(item, fp, cells[at.slot].count);
    }

    method OfferToHeap(item: Name, fp: nat, n: nat) returns (expelled: Option<Name>)
      requires heap.Length > 0
      modifies heap
      ensures (heap[..], expelled) == Offer(old(heap[..]), item, fp, n)
    {
      if n < heap[0].count {
        return None;
      }
      var i := CheckExistInHeap(item, fp);
      if i < heap.Length {
        heap[i] := heap[i].(count := n);
        assert heap[..] == old(heap[..])[i := old(heap[..])[i].(count := n)];
        HeapifyDown(heap, i);
        return None;
      }
      expelled := heap[0].item;
      heap[0] := Bucket(n, Some(item), fp);
      assert heap[..] == old(heap[..])[0 := Bucket(n, Some(item), fp)];
      HeapifyDown(heap, 0);
    }
  }

  lemma FourOfThem(c: Class, mask: bv64)
    ensures |HeavySlots(c, mask)| == 4
  {
  }

  lemma SlotAt(c: Class, mask: bv64, i: nat, j: nat)
    requires i < 2 && j < 2
    ensures |HeavySlots(c, mask)| == 4
    ensures HeavySlots(c, mask)[2 * i + j] == Heavy(i == 1, BucketOf(c, i == 1, mask), j == 1)
  {
    hide BucketOf;
  }

  lemma SlotIsKnown(cells: Cells, ss: seq<Slot>, k: nat)
    requires Known(cells, ss) && k < |ss|
    ensures ss[k] in cells
  {
  }

  /** None of the first `n` slots holds the fingerprint; all of them are in use. */
  predicate NoMatch(cells: Cells, ss: seq<Slot>, fp: bv16, n: nat)
    requires Known(cells, ss) && n <= |ss|
  {
    forall k :: 0 <= k < n ==> !(Live(cells[ss[k]]) && cells[ss[k]].fp == fp)
  }

  predicate AllLive(cells: Cells, ss: seq<Slot>, n: nat)
    requires Known(cells, ss) && n <= |ss|
  {
    forall k :: 0 <= k < n ==> Live(cells[ss[k]])
  }

  lemma NothingSeen(cells: Cells, ss: seq<Slot>, fp: bv16)
    requires Known(cells, ss)
    ensures NoMatch(cells, ss, fp, 0) && AllLive(cells, ss, 0)
  {
  }

  lemma SeenOneMore(cells: Cells, ss: seq<Slot>, fp: bv16, n: nat)
    requires Known(cells, ss) && n < |ss| && NoMatch(cells, ss, fp, n)
    ensures Live(cells[ss[n]]) <==> cells[ss[n]].count > 0
    ensures !(Live(cells[ss[n]]) && cells[ss[n]].fp == fp) ==> NoMatch(cells, ss, fp, n + 1)
    ensures AllLive(cells, ss, n) && Live(cells[ss[n]]) ==> AllLive(cells, ss, n + 1)
  {
  }

  lemma {:induction false} MatchIs(cells: Cells, ss: seq<Slot>, fp: bv16, m: nat)
    requires Known(cells, ss) && m <= |ss| && NoMatch(cells, ss, fp, m)
    requires m < |ss| ==> Live(cells[ss[m]]) && cells[ss[m]].fp == fp
    ensures FirstMatch(cells, ss, fp) == m
  {
    var r := FirstMatch(cells, ss, fp);
    assert r <= m && m <= r;
  }

  lemma {:induction false} EmptyIs(cells: Cells, ss: seq<Slot>, m: nat)
    requires Known(cells, ss) && m <= |ss| && AllLive(cells, ss, m)
    requires m < |ss| ==> !Live(cells[ss[m]])
    ensures FirstEmpty(cells, ss) == m
  {
    var r := FirstEmpty(cells, ss);
    assert r <= m && m <= r;
  }

  lemma PromoteRefuses(cells: Cells, fp: bv16, newCount: nat, second: bool, idx: bv64, ch: Choice, mask: bv64)
    requires Complete(cells, mask) && InTable(idx, mask)
    ensures var p := TryPromote(cells, fp, newCount, second, idx, ch, mask); p.at.Nowhere? ==> p.cells == cells
  {
  }

  lemma PromoteLands(cells: Cells, fp: bv16, newCount: nat, second: bool, idx: bv64, ch: Choice, mask: bv64)
    requires Complete(cells, mask) && InTable(idx, mask)
    ensures var p := TryPromote(cells, fp, newCount, second, idx, ch, mask); !p.at.Nowhere? ==> p.at.At?
  {
  }

  lemma InvComplete(cells: Cells, total: nat, mask: bv64)
    requires Inv(cells, total, mask)
    ensures Complete(cells, mask)
  {
  }

  /** What was not found left the cells alone. */
  lemma NowhereKeeps(cells: Cells, c: Class, weight: nat, ch: Choice, mask: bv64)
    requires Complete(cells, mask) && InTable(c.home, mask) && Known(cells, HeavySlots(c, mask))
    ensures ChkTable.CheckHeavyEntries(cells, c, weight, mask).at.Nowhere? ==>
              ChkTable.CheckHeavyEntries(cells, c, weight, mask).cells == cells
    ensures forall t: bool :: CheckLobby(cells, c, weight, t, ch, mask).at.Nowhere? ==>
              CheckLobby(cells, c, weight, t, ch, mask).cells == cells
    ensures forall t: bool :: EnterLobby(cells, c, weight, t, ch, mask).at.Nowhere? ==>
              EnterLobby(cells, c, weight, t, ch, mask).cells == cells
  {
    hide HeavySlots;
  }
}

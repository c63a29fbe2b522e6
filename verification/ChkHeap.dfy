/**
 The min-heap that keeps the names of the top-K items. `HeapifyDown` works in place on the
 array; `Heapified` is what it computes, and the lemmas say when that is a heap again.
 */
module ChkHeap {
  import opened Common
  import opened ChkTable

  type Name = seq<char>

  /** A heap bucket; an unused one has no item. */
  datatype Bucket = Bucket(count: nat, item: Option<Name>, fp: nat)

  function Parent(i: nat): nat
    requires i > 0
  {
    (i - 1) / 2
  }

  predicate IsHeap(s: seq<Bucket>) {
    forall i :: 0 < i < |s| ==> s[Parent(i)].count <= s[i].count
  }

  function Swap(s: seq<Bucket>, i: nat, j: nat): (r: seq<Bucket>)
    requires i < |s| && j < |s|
    ensures |r| == |s|
  {
    s[i := s[j]][j := s[i]]
  }

  function SmallerChild(s: seq<Bucket>, i: nat): (c: nat)
    requires 2 * i + 1 < |s|
    ensures i < c < |s| && Parent(c) == i
    ensures forall d :: 0 < d < |s| && Parent(d) == i ==> s[c].count <= s[d].count
  {
    if 2 * i + 2 < |s| && s[2 * i + 1].count > s[2 * i + 2].count then 2 * i + 2 else 2 * i + 1
  }

  function Sifted(s: seq<Bucket>, i: nat): (r: seq<Bucket>)
    requires i < |s|
    ensures |r| == |s|
    decreases |s| - i
  {
    if 2 * i + 1 >= |s| then s
    else
      var c := SmallerChild(s, i);
      if s[c].count < s[i].count then Sifted(Swap(s, i, c), c) else s
  }

  /** chkHeapifyDown: the first exchange also happens on equal counts. */
  function Heapified(s: seq<Bucket>, start: nat): (r: seq<Bucket>)
    ensures |r| == |s|
  {
    if start >= |s| || 2 * start + 1 >= |s| then s
    else
      var c := SmallerChild(s, start);
      if s[c].count > s[start].count then s else Sifted(Swap(s, start, c), c)
  }

  // ---------- in place ----------

  /** The hole technique of the source: children move up, the entry is written once. */
  method HeapifyDown(a: array<Bucket>, start: nat)
    modifies a
    ensures a[..] == Heapified(old(a[..]), start)
  {
    hide Sifted, Heapified, SmallerChild, Swap, Parent, IsHeap;
    var len := a.Length;
    HeapifiedIs(a[..], start);
    if len < 2 || (len - 2) / 2 < start {
      return;
    }
    var child := 2 * start + 1;
    if child + 1 < len && a[child].count > a[child + 1].count {
      child := child + 1;
    }
    SmallerChildIs(a[..], start);
    if a[child].count > a[start].count {
      return;
    }
    var top := a[start];
    var hole := start;
    var more := true;
    ghost var s := a[..];
    ghost var goal := Heapified(s, start);
    assert s == s[hole := top];
    while more
      invariant hole < len && s == a[..][hole := top] && |s| == len
      invariant more ==> hole < child < len && Sifted(Swap(s, hole, child), child) == goal
      invariant !more ==> s == goal
      decreases len - hole, more
    {
      SwapMovesHole(a[..], s, hole, child, top);
      s := Swap(s, hole, child);
      a[hole] := a[child];
      hole := child;
      assert s == a[..][hole := top];
      SiftedIs(s, hole);
      if (len - 2) / 2 < child {
        more := false;
      } else {
        child := 2 * hole + 1;
        if child + 1 < len && a[child].count > a[child + 1].count {
          child := child + 1;
        }
        SmallerChildIs(s, hole);
        assert a[child] == s[child];
        more := a[child].count < top.count;
      }
    }
    a[hole] := top;
    assert a[..] == s;
  }

  lemma SmallerChildIs(s: seq<Bucket>, i: nat)
    requires 2 * i + 1 < |s|
    ensures SmallerChild(s, i) == if 2 * i + 2 < |s| && s[2 * i + 1].count > s[2 * i + 2].count then 2 * i + 2 else 2 * i + 1
  {
  }

  lemma HeapifiedIs(s: seq<Bucket>, start: nat)
    ensures start >= |s| || 2 * start + 1 >= |s| ==> Heapified(s, start) == s
    ensures 2 * start + 1 < |s| ==>
              var c := SmallerChild(s, start);
              Heapified(s, start) == if s[c].count > s[start].count then s else Sifted(Swap(s, start, c), c)
  {
  }

  lemma SiftedIs(s: seq<Bucket>, i: nat)
    requires i < |s|
    ensures 2 * i + 1 >= |s| ==> Sifted(s, i) == s
    ensures 2 * i + 1 < |s| ==>
              var c := SmallerChild(s, i);
              Sifted(s, i) == if s[c].count < s[i].count then Sifted(Swap(s, i, c), c) else s
  {
  }

  /** Moving a child up into the hole swaps it with the entry that is being sifted. */
  lemma SwapMovesHole(t: seq<Bucket>, s: seq<Bucket>, hole: nat, child: nat, top: Bucket)
    requires hole < child < |t| && s == t[hole := top]
    ensures Swap(s, hole, child) == t[hole := t[child]][child := top]
  {
  }

  // ---------- a permutation ----------

  lemma SwapPermutes(s: seq<Bucket>, i: nat, j: nat)
    requires i < |s| && j < |s|
    ensures multiset(Swap(s, i, j)) == multiset(s)
  {
  }

  lemma {:induction false} SiftedPermutes(s: seq<Bucket>, i: nat)
    requires i < |s|
    ensures multiset(Sifted(s, i)) == multiset(s)
    decreases |s| - i
  {
    if 2 * i + 1 < |s| {
      var c := SmallerChild(s, i);
      if s[c].count < s[i].count {
        SwapPermutes(s, i, c);
        SiftedPermutes(Swap(s, i, c), c);
      }
    }
  }

  lemma HeapifiedPermutes(s: seq<Bucket>, start: nat)
    ensures multiset(Heapified(s, start)) == multiset(s)
  {
    if start < |s| && 2 * start + 1 < |s| {
      var c := SmallerChild(s, start);
      if s[c].count <= s[start].count {
        SwapPermutes(s, start, c);
        SiftedPermutes(Swap(s, start, c), c);
      }
    }
  }

  // ---------- a heap ----------

  /** A heap but for one position: its own count may be anything, the positions around it are
      in order, above it and below it. */
  predicate HeapBut(s: seq<Bucket>, i: nat)
    requires i < |s|
  {
    && (forall k :: 0 < k < |s| && k != i && Parent(k) != i ==> s[Parent(k)].count <= s[k].count)
    && (forall k :: 0 < k < |s| && Parent(k) == i && 0 < i ==> s[Parent(i)].count <= s[k].count)
  }

  predicate AboveParent(s: seq<Bucket>, i: nat)
    requires i < |s|
  {
    i == 0 || s[Parent(i)].count <= s[i].count
  }

  lemma SwapKeepsHeapBut(s: seq<Bucket>, i: nat)
    requires 2 * i + 1 < |s| && HeapBut(s, i) && AboveParent(s, i)
    requires s[SmallerChild(s, i)].count <= s[i].count
    ensures var c := SmallerChild(s, i); HeapBut(Swap(s, i, c), c) && AboveParent(Swap(s, i, c), c)
  {
    var c := SmallerChild(s, i);
    var t := Swap(s, i, c);
    assert t[i] == s[c] && t[c] == s[i];
    forall k | 0 < k < |t| && k != c && Parent(k) != c ensures t[Parent(k)].count <= t[k].count {
      if k == i {
        assert s[Parent(i)].count <= s[c].count;
      }
    }
    forall k | 0 < k < |t| && Parent(k) == c ensures t[Parent(c)].count <= t[k].count {
      assert s[Parent(k)].count <= s[k].count;
    }
  }

  lemma {:induction false} SiftedIsHeap(s: seq<Bucket>, i: nat)
    requires i < |s| && HeapBut(s, i) && AboveParent(s, i)
    ensures IsHeap(Sifted(s, i))
    decreases |s| - i
  {
    if 2 * i + 1 < |s| {
      var c := SmallerChild(s, i);
      if s[c].count < s[i].count {
        SwapKeepsHeapBut(s, i);
        SiftedIsHeap(Swap(s, i, c), c);
      } else {
        forall k | 0 < k < |s| ensures s[Parent(k)].count <= s[k].count {
          if k == i || Parent(k) == i {
            assert s[c].count <= s[k].count || k == i;
          }
        }
      }
    } else {
      forall k | 0 < k < |s| ensures s[Parent(k)].count <= s[k].count {
        assert Parent(k) != i;
      }
    }
  }

  /** After one count of a heap changed, sifting down gives a heap if and only if the new count
      is not below the parent's. Raising a count, or replacing the root, always qualifies. */
  lemma HeapifiedIsHeapIff(s: seq<Bucket>, i: nat)
    requires i < |s| && HeapBut(s, i)
    ensures IsHeap(Heapified(s, i)) <==> AboveParent(s, i)
  {
    if AboveParent(s, i) {
      if 2 * i + 1 < |s| && s[SmallerChild(s, i)].count <= s[i].count {
        SwapKeepsHeapBut(s, i);
        SiftedIsHeap(Swap(s, i, SmallerChild(s, i)), SmallerChild(s, i));
      } else {
        SiftedIsHeap(s, i);
      }
    } else {
      var p := Parent(i);
      assert s[p].count > s[i].count;
      if 2 * i + 1 < |s| {
        var c := SmallerChild(s, i);
        assert Parent(c) == i && s[p].count <= s[c].count;
      }
      assert Heapified(s, i) == s;
      assert s[Parent(i)].count > s[i].count;
    }
  }

  lemma ChangeOneCount(s: seq<Bucket>, i: nat, b: Bucket)
    requires IsHeap(s) && i < |s|
    ensures HeapBut(s[i := b], i)
    ensures b.count >= s[i].count || i == 0 ==> AboveParent(s[i := b], i)
  {
    var t := s[i := b];
    forall k | 0 < k < |t| && Parent(k) == i && 0 < i ensures t[Parent(i)].count <= t[k].count {
      assert s[Parent(i)].count <= s[i].count <= s[k].count;
    }
  }

  // ---------- the heap step of an update ----------

  /** The last bucket that holds the item, or |s|. */
  function FindItem(s: seq<Bucket>, item: Name, fp: nat): (r: nat)
    ensures r <= |s|
    ensures r < |s| ==> s[r].item == Some(item) && s[r].fp == fp
    ensures r == |s| ==> forall k :: 0 <= k < |s| ==> !(s[k].item == Some(item) && s[k].fp == fp)
  {
    if s == [] then 0
    else
      var n := |s| - 1;
      if s[n].fp == fp && s[n].item == Some(item) then n
      else
        var r := FindItem(s[..n], item, fp);
        if r == n then n + 1 else r
  }

  /** What an update with entry count `n` does to the heap, and the name it expels. */
  function Offer(s: seq<Bucket>, item: Name, fp: nat, n: nat): (r: (seq<Bucket>, Option<Name>))
    requires s != []
    ensures |r.0| == |s|
  {
    if n < s[0].count then (s, None)
    else
      var i := FindItem(s, item, fp);
      if i < |s| then (Heapified(s[i := s[i].(count := n)], i), None)
      else (Heapified(s[0 := Bucket(n, Some(item), fp)], 0), s[0].item)
  }

  /** Every bucket's fingerprint is the hash of its item. */
  predicate Hashed(s: seq<Bucket>, hash: Name -> nat) {
    forall i :: 0 <= i < |s| && s[i].item.Some? ==> s[i].fp == hash(s[i].item.value)
  }

  /** No item is in two buckets. */
  predicate NoDuplicates(s: seq<Bucket>) {
    forall i, j :: 0 <= i < j < |s| && s[i].item.Some? ==> s[i].item != s[j].item
  }

  predicate Listed(s: seq<Bucket>, hash: Name -> nat) {
    Hashed(s, hash) && NoDuplicates(s)
  }

  lemma SwapKeepsListed(s: seq<Bucket>, i: nat, j: nat, hash: Name -> nat)
    requires i < |s| && j < |s| && Listed(s, hash)
    ensures Listed(Swap(s, i, j), hash)
  {
    var t := Swap(s, i, j);
    forall a, b | 0 <= a < b < |t| && t[a].item.Some? ensures t[a].item != t[b].item {
      var a' := if a == i then j else if a == j then i else a;
      var b' := if b == i then j else if b == j then i else b;
      assert t[a] == s[a'] && t[b] == s[b'] && a' != b';
    }
  }

  lemma {:induction false} SiftedKeepsListed(s: seq<Bucket>, i: nat, hash: Name -> nat)
    requires i < |s| && Listed(s, hash)
    ensures Listed(Sifted(s, i), hash)
    decreases |s| - i
  {
    if 2 * i + 1 < |s| && s[SmallerChild(s, i)].count < s[i].count {
      var c := SmallerChild(s, i);
      SwapKeepsListed(s, i, c, hash);
      SiftedKeepsListed(Swap(s, i, c), c, hash);
    }
  }

  lemma HeapifiedKeepsListed(s: seq<Bucket>, start: nat, hash: Name -> nat)
    requires Listed(s, hash)
    ensures Listed(Heapified(s, start), hash)
  {
    if start < |s| && 2 * start + 1 < |s| {
      var c := SmallerChild(s, start);
      SwapKeepsListed(s, start, c, hash);
      SiftedKeepsListed(Swap(s, start, c), c, hash);
    }
  }

  /** An update never puts an item into the heap twice. */
  lemma OfferKeepsListed(s: seq<Bucket>, item: Name, n: nat, hash: Name -> nat)
    requires s != [] && Listed(s, hash)
    ensures var t := Offer(s, item, hash(item), n).0; |t| == |s| && Listed(t, hash)
  {
    if n >= s[0].count {
      var fp := hash(item);
      var i := FindItem(s, item, fp);
      if i < |s| {
        HeapifiedKeepsListed(s[i := s[i].(count := n)], i, hash);
      } else {
        HeapifiedKeepsListed(s[0 := Bucket(n, Some(item), fp)], 0, hash);
      }
    }
  }

  /** When the heap stays a heap: always, unless the item is listed with a count above what it
      has now, and its parent's count is above it too. */
  lemma OfferKeepsHeapIff(s: seq<Bucket>, item: Name, fp: nat, n: nat)
    requires s != [] && IsHeap(s)
    ensures IsHeap(Offer(s, item, fp, n).0) <==>
            var i := FindItem(s, item, fp);
            n < s[0].count || i == |s| || i == 0 || s[Parent(i)].count <= n
  {
    if n >= s[0].count {
      var i := FindItem(s, item, fp);
      if i < |s| {
        var b := s[i].(count := n);
        ChangeOneCount(s, i, b);
        HeapifiedIsHeapIff(s[i := b], i);
      } else {
        var b := Bucket(n, Some(item), fp);
        ChangeOneCount(s, 0, b);
        HeapifiedIsHeapIff(s[0 := b], 0);
      }
    }
  }

  /** An offer that is not below the least count lists the item with the count offered. */
  lemma OfferLists(s: seq<Bucket>, item: Name, fp: nat, n: nat)
    requires s != [] && n >= s[0].count
    ensures Bucket(n, Some(item), fp) in Offer(s, item, fp, n).0
  {
    var b := Bucket(n, Some(item), fp);
    var i := FindItem(s, item, fp);
    var j := if i < |s| then i else 0;
    var t := s[j := b];
    assert t[j] == b;
    HeapifiedPermutes(t, j);
    assert b in multiset(t);
  }

  /** A run of offers from an empty heap of k buckets. */
  function Offers(s: seq<Bucket>, os: seq<(Name, nat)>, hash: Name -> nat): seq<Bucket>
    requires s != []
    decreases |os|
  {
    if os == [] then s else Offers(Offer(s, os[0].0, hash(os[0].0), os[0].1).0, os[1..], hash)
  }

  /** Across all updates the heap never holds the same item twice. */
  lemma {:induction false} OffersKeepListed(s: seq<Bucket>, os: seq<(Name, nat)>, hash: Name -> nat)
    requires s != [] && Listed(s, hash)
    ensures Listed(Offers(s, os, hash), hash)
    decreases |os|
  {
    if os != [] {
      OfferKeepsListed(s, os[0].0, os[0].1, hash);
      var t := Offer(s, os[0].0, hash(os[0].0), os[0].1).0;
      OffersKeepListed(t, os[1..], hash);
    }
  }

  const UNUSED := Bucket(0, None, 0)

  /** How order is lost: two items reach the count 2, and then the first is offered with the
      count 1 that is left of it. Its parent, the second item, keeps the count 2. */
  lemma OffersThatLoseOrder(a: Name, b: Name, hash: Name -> nat)
    requires a != b
    ensures var s := [UNUSED, UNUSED, UNUSED, UNUSED];
            var t := Offers(s, [(a, 2), (b, 2), (a, 1)], hash);
            && IsHeap(s) && IsHeap(Offers(s, [(a, 2), (b, 2)], hash))
            && t == [UNUSED, Bucket(2, Some(b), hash(b)), UNUSED, Bucket(1, Some(a), hash(a))]
            && !IsHeap(t)
  {
    var s := [UNUSED, UNUSED, UNUSED, UNUSED];
    var x, y, z := Bucket(2, Some(a), hash(a)), Bucket(2, Some(b), hash(b)), Bucket(1, Some(a), hash(a));
    var s1, s2, s3 := [UNUSED, UNUSED, UNUSED, x], [UNUSED, y, UNUSED, x], [UNUSED, y, UNUSED, z];
    FirstOffer(a, hash(a));
    SecondOffer(a, hash(a), b, hash(b));
    assert Offer(s2, a, hash(a), 1).0 == s3 by {
      assert FindItem(s2, a, hash(a)) == 3;
      assert s2[3 := z] == s3;
    }
    var os: seq<(Name, nat)> := [(a, 2), (b, 2), (a, 1)];
    OfferOne(s, os, hash);
    OfferOne(s1, os[1..], hash);
    OfferOne(s2, os[2..], hash);
    OfferOne(s, os[..2], hash);
    OfferOne(s1, os[..2][1..], hash);
    assert os[..2] == [(a, 2), (b, 2)];
    assert os[1..][1..] == os[2..] && os[2..][1..] == [] && os[..2][1..][1..] == [];
    assert Parent(1) == 0 && Parent(2) == 0 && Parent(3) == 1;
    assert s3[Parent(3)].count > s3[3].count;
  }

  lemma OfferOne(s: seq<Bucket>, os: seq<(Name, nat)>, hash: Name -> nat)
    requires s != [] && os != []
    ensures Offers(s, os, hash) == Offers(Offer(s, os[0].0, hash(os[0].0), os[0].1).0, os[1..], hash)
  {
  }

  lemma FirstOffer(a: Name, fp: nat)
    ensures Offer([UNUSED, UNUSED, UNUSED, UNUSED], a, fp, 2).0 == [UNUSED, UNUSED, UNUSED, Bucket(2, Some(a), fp)]
  {
    var x := Bucket(2, Some(a), fp);
    assert Swap([x, UNUSED, UNUSED, UNUSED], 0, 1) == [UNUSED, x, UNUSED, UNUSED];
    assert Swap([UNUSED, x, UNUSED, UNUSED], 1, 3) == [UNUSED, UNUSED, UNUSED, x];
    assert Sifted([UNUSED, UNUSED, UNUSED, x], 3) == [UNUSED, UNUSED, UNUSED, x];
    assert SmallerChild([UNUSED, x, UNUSED, UNUSED], 1) == 3;
    assert Sifted([UNUSED, x, UNUSED, UNUSED], 1) == [UNUSED, UNUSED, UNUSED, x];
    assert [UNUSED, UNUSED, UNUSED, UNUSED][0 := x] == [x, UNUSED, UNUSED, UNUSED];
  }

  lemma SecondOffer(a: Name, fa: nat, b: Name, fb: nat)
    requires a != b
    ensures Offer([UNUSED, UNUSED, UNUSED, Bucket(2, Some(a), fa)], b, fb, 2).0 ==
            [UNUSED, Bucket(2, Some(b), fb), UNUSED, Bucket(2, Some(a), fa)]
  {
    var x, y := Bucket(2, Some(a), fa), Bucket(2, Some(b), fb);
    var s := [UNUSED, UNUSED, UNUSED, x];
    assert s[0 := y] == [y, UNUSED, UNUSED, x];
    assert Swap([y, UNUSED, UNUSED, x], 0, 1) == [UNUSED, y, UNUSED, x];
  }
}

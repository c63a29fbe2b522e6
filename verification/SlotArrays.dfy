/** Arrays of slot ranges, sorted, merged, checked and extended in place. */
module SlotArrays {
  import opened Slots

  datatype Verdict = Fine | BadCount | OutOfRange(r: Range) | Reversed(r: Range) | Duplicate(slot: int)

  // ---------- a sort that meets what qsort promises ----------

  function Insert(r: Range, s: seq<Range>): seq<Range> {
    if s == [] || r.start <= s[0].start then [r] + s else [s[0]] + Insert(r, s[1..])
  }

  function Sort(s: seq<Range>): seq<Range> {
    if s == [] then [] else Insert(s[0], Sort(s[1..]))
  }

  lemma {:induction false} InsertKeeps(r: Range, s: seq<Range>)
    ensures multiset(Insert(r, s)) == multiset{r} + multiset(s)
  {
    if s != [] && r.start > s[0].start {
      InsertKeeps(r, s[1..]);
      assert s == [s[0]] + s[1..];
    }
  }

  lemma ConsSorts(r: Range, s: seq<Range>)
    requires SortedByStart(s) && (s != [] ==> r.start <= s[0].start)
    ensures SortedByStart([r] + s)
  {
    forall i, j | 0 <= i <= j < |[r] + s| ensures ([r] + s)[i].start <= ([r] + s)[j].start {
      if j > 0 {
        assert s[0].start <= s[j - 1].start;
      }
    }
  }

  lemma {:induction false} InsertSorts(r: Range, s: seq<Range>)
    requires SortedByStart(s)
    ensures SortedByStart(Insert(r, s)) && Insert(r, s) != []
    ensures Insert(r, s)[0].start == if s != [] && s[0].start < r.start then s[0].start else r.start
  {
    hide SortedByStart;
    if s == [] || r.start <= s[0].start {
      ConsSorts(r, s);
    } else {
      TailSorted(s);
      InsertSorts(r, s[1..]);
      ConsSorts(s[0], Insert(r, s[1..]));
    }
  }

  lemma TailSorted(s: seq<Range>)
    requires SortedByStart(s) && s != []
    ensures SortedByStart(s[1..]) && (|s| > 1 ==> s[0].start <= s[1].start)
  {
  }

  lemma SameSize(p: seq<Range>, s: seq<Range>)
    requires multiset(p) == multiset(s)
    ensures |p| == |s|
  {
    assert |p| == |multiset(p)| == |multiset(s)| == |s|;
  }

  lemma {:induction false} SortSorts(s: seq<Range>)
    ensures SortOf(Sort(s), s) && |Sort(s)| == |s|
  {
    hide SortedByStart, Insert;
    if s == [] {
      SortedNothing();
    } else {
      SortSorts(s[1..]);
      InsertSorts(s[0], Sort(s[1..]));
      InsertKeeps(s[0], Sort(s[1..]));
      assert s == [s[0]] + s[1..];
      SameSize(Sort(s), s);
    }
  }

  lemma SortedNothing()
    ensures SortedByStart([])
  {
  }

  class SlotRangeArray {
    var num: nat
    var ranges: array<Range>

    ghost predicate Valid()
      reads this
    {
      num <= ranges.Length
    }

    ghost function Contents(): seq<Range>
      requires Valid()
      reads this, ranges
    {
      ranges[..num]
    }

    constructor (n: nat)
      ensures Valid() && num == n == ranges.Length && fresh(ranges)
      ensures forall i :: 0 <= i < n ==> ranges[i] == Range(0, 0)
    {
      num := n;
      ranges := new Range[n](i => Range(0, 0));
    }

    /** Stands for qsort: sorted by start, ties in any order. */
    method Qsort()
      requires Valid()
      modifies ranges
      ensures SortOf(Contents(), old(Contents()))
    {
      hide SortOf, Sort;
      ghost var s := Contents();
      var p := Sort(ranges[..num]);
      SortSorts(s);
      var i := 0;
      while i < num
        invariant 0 <= i <= num == |p|
        invariant ranges[..i] == p[..i]
      {
        ranges[i] := p[i];
        i := i + 1;
      }
      assert Contents() == p;
    }

    method SortAndMerge()
      requires Valid()
      modifies this`num, ranges
      ensures Valid() && ranges == old(ranges)
      ensures exists p :: SortOf(p, old(Contents())) && Contents() == Merged(p)
    {
      if num <= 1 {
        assert SortOf(Contents(), old(Contents()));
        return;
      }
      Qsort();
      ghost var p := Contents();
      MergeSorted(p);
    }

    /** The merging loop: `idx` is the last range kept, and never passes the one being read. */
    method MergeSorted(ghost p: seq<Range>)
      requires Valid() && num > 1 && p == Contents()
      modifies this`num, ranges
      ensures Valid() && ranges == old(ranges)
      ensures Contents() == Merged(p)
    {
      var idx, i := 0, 1;
      assert ranges[..1] == p[..1];
      while i < num
        invariant 0 <= idx < i <= num == |p|
        invariant ranges[i..num] == p[i..]
        invariant Merge(ranges[..idx + 1], p[i..]) == Merged(p)
      {
        ghost var done := ranges[..idx + 1];
        assert ranges[i] == ranges[i..num][0] == p[i];
        assert p[i..][1..] == p[i + 1..];
        assert ranges[i + 1..num] == ranges[i..num][1..];
        if ranges[idx].end + 1 == ranges[i].start {
          ranges[idx] := Range(ranges[idx].start, ranges[i].end);
          assert ranges[..idx + 1] == done[idx := Range(done[idx].start, p[i].end)];
        } else {
          idx := idx + 1;
          ranges[idx] := ranges[i];
          assert ranges[..idx + 1] == done + [p[i]];
        }
        i := i + 1;
      }
      num := idx + 1;
    }

    /** The checks made on the merged ranges. */
    method Check() returns (v: Verdict)
      requires Valid()
      ensures v.Fine? <==> InBounds(Contents()) && AllProper(Contents()) && Disjoint(Contents())
      ensures !v.BadCount?
      ensures v.OutOfRange? ==> v.r in Contents() && (v.r.start >= CLUSTER_SLOTS || v.r.end >= CLUSTER_SLOTS)
      ensures v.Reversed? ==> v.r in Contents() && v.r.start > v.r.end
      ensures v.Duplicate? ==> Cover(Contents(), v.slot) >= 2
    {
      ghost var m := Contents();
      var used := new bool[CLUSTER_SLOTS](_ => false);
      var i := 0;
      while i < num
        invariant 0 <= i <= num == |m| && m == Contents() && fresh(used)
        invariant InBounds(m[..i]) && AllProper(m[..i]) && Disjoint(m[..i])
        invariant forall x :: 0 <= x < CLUSTER_SLOTS ==> (used[x] <==> Member(m[..i], x))
      {
        var r := ranges[i];
        assert r == m[i];
        if r.start >= CLUSTER_SLOTS || r.end >= CLUSTER_SLOTS {
          return OutOfRange(r);
        }
        if r.start > r.end {
          return Reversed(r);
        }
        var j: int := r.start;
        while j <= r.end
          invariant r.start <= j <= r.end + 1
          invariant forall x :: 0 <= x < CLUSTER_SLOTS ==> (used[x] <==> Member(m[..i], x) || r.start <= x < j)
          invariant forall x :: r.start <= x < j ==> !Member(m[..i], x)
          invariant m == Contents()
        {
          if used[j] {
            UsedTwice(m, i, j);
            return Duplicate(j);
          }
          used[j] := true;
          j := j + 1;
        }
        OneMore(m, i);
        forall x | 0 <= x < CLUSTER_SLOTS ensures used[x] <==> Member(m[..i + 1], x) {
          MemberSnoc(m, i, x);
        }
        i := i + 1;
      }
      assert m[..i] == m;
      v := Fine;
    }

    method NormalizeAndValidate() returns (v: Verdict)
      requires Valid()
      modifies this`num, ranges
      ensures Valid() && ranges == old(ranges)
      ensures v.BadCount? <==> !(0 < old(num) < CLUSTER_SLOTS)
      ensures v.BadCount? ==> Contents() == old(Contents())
      ensures v.Fine? ==> Canonical(Contents()) && InBounds(Contents()) && Contents() != []
      ensures old(AllProper(Contents())) ==>
                && (v.Fine? <==> 0 < old(num) < CLUSTER_SLOTS && old(InBounds(Contents()) && Disjoint(Contents())))
                && (v.Fine? ==> SameSlots(Contents(), old(Contents())))
      ensures !v.BadCount? ==>
                exists p :: SortOf(p, old(Contents())) && Contents() == Merged(p) && (v.Fine? <==> Passes(p))
      ensures v.OutOfRange? ==> v.r in Contents() && (v.r.start >= CLUSTER_SLOTS || v.r.end >= CLUSTER_SLOTS)
      ensures v.Reversed? ==> v.r in Contents() && v.r.start > v.r.end
      ensures v.Duplicate? ==> Cover(Contents(), v.slot) >= 2
    {
      hide Cover, Disjoint, InBounds, AllProper, SortOf, Canonical, SameSlots, Merged, Passes;
      ghost var s := Contents();
      if num <= 0 || num >= CLUSTER_SLOTS {
        return BadCount;
      }
      SortAndMerge();
      ghost var p :| SortOf(p, s) && Contents() == Merged(p);
      v := Check();
      SortedAccepted(s, p);
      if v.Fine? {
        MergedShape(s, p);
        SortedDisjointIsCanonical(Contents());
      }
      if AllProper(s) {
        ValidIff(s, p);
        if v.Fine? {
          MergedIsCanonical(s, p);
        }
      }
    }

    method Contains(slot: nat) returns (b: bool)
      requires Valid()
      ensures b <==> Member(Contents(), slot)
    {
      ghost var s := Contents();
      var i := 0;
      while i < num
        invariant 0 <= i <= num == |s| && s == Contents()
        invariant !Member(s[..i], slot)
      {
        assert ranges[i] == s[i];
        if ranges[i].start <= slot && ranges[i].end >= slot {
          assert Holds(s[i], slot);
          return true;
        }
        MemberSnoc(s, i, slot);
        i := i + 1;
      }
      assert s[..i] == s;
      return false;
    }

    /** slotRangeArrayAppend on an array that is there. Appending keeps the canonical form
        and adds the one slot. */
    method Append(slot: Short)
      requires Valid() && 0 < num <= CLUSTER_SLOTS && slot > ranges[num - 1].end
      modifies this, ranges
      ensures Valid() && num > 0 && (ranges == old(ranges) || fresh(ranges))
      ensures Contents() == Appended(old(Contents()), slot)
    {
      ghost var s := Contents();
      if slot == ranges[num - 1].end + 1 {
        ranges[num - 1] := Range(ranges[num - 1].start, slot);
        return;
      }
      if num >= ranges.Length {
        var bigger := new Range[ranges.Length * 2](i => Range(0, 0));
        var i := 0;
        while i < num
          invariant 0 <= i <= num == |s| && num <= ranges.Length && num <= bigger.Length
          invariant bigger[..i] == s[..i] && ranges[..num] == s && fresh(bigger)
          invariant ranges == old(ranges) && num == old(num)
        {
          assert ranges[i] == s[i];
          bigger[i] := ranges[i];
          i := i + 1;
        }
        ranges := bigger;
      }
      assert Contents() == s;
      ranges[num] := Range(slot, slot);
      num := num + 1;
    }
  }

  /** slotRangeArrayAppend: without an array, one with room for four ranges is made. */
  method AppendSlot(slots: SlotRangeArray?, slot: Short) returns (r: SlotRangeArray)
    requires slots != null ==> slots.Valid() && 0 < slots.num <= CLUSTER_SLOTS && slot > slots.ranges[slots.num - 1].end
    modifies if slots != null then {slots, slots.ranges} else {}
    ensures r.Valid() && r.num > 0
    ensures if slots == null then fresh(r) && fresh(r.ranges) && r.Contents() == [Range(slot, slot)]
            else r == slots && (r.ranges == old(slots.ranges) || fresh(r.ranges)) &&
                 r.Contents() == Appended(old(slots.Contents()), slot)
  {
    if slots == null {
      r := new SlotRangeArray(4);
      r.ranges[0] := Range(slot, slot);
      r.num := 1;
    } else {
      r := slots;
      r.Append(slot);
    }
  }

  method IsEqual(a: SlotRangeArray, b: SlotRangeArray) returns (same: bool)
    requires a.Valid() && b.Valid() && (a == b || a.ranges != b.ranges)
    modifies a`num, b`num, a.ranges, b.ranges
    ensures a.Valid() && b.Valid() && a.ranges == old(a.ranges) && b.ranges == old(b.ranges)
    ensures old(AllProper(a.Contents()) && Disjoint(a.Contents()) && AllProper(b.Contents()) && Disjoint(b.Contents())) ==>
              (same <==> SameSlots(old(a.Contents()), old(b.Contents())))
    ensures if a == b then same
            else exists p, q :: SortOf(p, old(a.Contents())) && SortOf(q, old(b.Contents())) && (same <==> Merged(p) == Merged(q))
  {
    hide Disjoint, AllProper, SortOf, SameSlots, Merged;
    ghost var s, t := a.Contents(), b.Contents();
    ghost var wellFormed := AllProper(s) && Disjoint(s) && AllProper(t) && Disjoint(t);
    a.SortAndMerge();
    ghost var p :| SortOf(p, s) && a.Contents() == Merged(p);
    ghost var m := a.Contents();
    ghost var t' := b.Contents();
    b.SortAndMerge();
    ghost var q :| SortOf(q, t') && b.Contents() == Merged(q);
    if wellFormed {
      if a == b {
        MergedIsCanonical(s, p);
        CanonicalIsDisjointProper(Merged(p));
        CanonicalIsFixed(Merged(p), q);
        SameAsItself(s);
      } else {
        EqualIffSameSlots(s, t, p, q);
      }
    }
    if a.num != b.num {
      return false;
    }
    var i := 0;
    while i < a.num
      invariant 0 <= i <= a.num == b.num && a.Valid() && b.Valid()
      invariant a.Contents()[..i] == b.Contents()[..i]
    {
      if a.ranges[i].start != b.ranges[i].start || a.ranges[i].end != b.ranges[i].end {
        assert a.Contents()[i] != b.Contents()[i];
        return false;
      }
      assert a.Contents()[i] == b.Contents()[i];
      i := i + 1;
    }
    assert a.Contents()[..i] == a.Contents() && b.Contents()[..i] == b.Contents();
    same := true;
  }

  lemma SameAsItself(s: seq<Range>)
    ensures SameSlots(s, s)
  {
  }

  lemma CanonicalIsDisjointProper(s: seq<Range>)
    requires Canonical(s)
    ensures AllProper(s) && Disjoint(s)
  {
    CanonicalIsDisjoint(s);
  }

  /** The start of the array is where Append begins: one range, one slot. */
  function Appended(s: seq<Range>, slot: Short): seq<Range>
    requires s != []
  {
    var last := |s| - 1;
    if slot == s[last].end + 1 then s[last := Range(s[last].start, slot)] else s + [Range(slot, slot)]
  }

  /** Appending a slot beyond the last one keeps the form and adds that slot and no other. */
  lemma AppendKeepsForm(s: seq<Range>, slot: Short)
    requires s != [] && Canonical(s) && slot > s[|s| - 1].end
    ensures Canonical(Appended(s, slot)) && Appended(s, slot) != []
    ensures forall x :: Member(Appended(s, slot), x) <==> Member(s, x) || x == slot
  {
    var last := |s| - 1;
    var t := Appended(s, slot);
    assert Proper(s[last]);
    forall i | 0 <= i < |t| ensures Proper(t[i]) {
      assert i < |s| ==> Proper(s[i]);
    }
    forall i | 0 <= i < |t| - 1 ensures t[i].end + 1 < t[i + 1].start {
      assert i < |s| - 1 ==> s[i].end + 1 < s[i + 1].start;
    }
    forall x ensures Member(t, x) <==> Member(s, x) || x == slot {
      if Member(s, x) {
        var i :| 0 <= i < |s| && Holds(s[i], x);
        assert Holds(t[i], x);
      }
      if x == slot {
        assert Holds(t[|t| - 1], x);
      }
      if Member(t, x) {
        var i :| 0 <= i < |t| && Holds(t[i], x);
        assert x == slot || (i < |s| && Holds(s[i], x));
      }
    }
  }

  lemma SortedAccepted(s: seq<Range>, p: seq<Range>)
    requires SortOf(p, s)
    ensures (InBounds(Merged(p)) && AllProper(Merged(p)) && Disjoint(Merged(p))) <==> Passes(p)
  {
    AcceptedIff(p);
  }

  lemma MergedShape(s: seq<Range>, p: seq<Range>)
    requires SortOf(p, s)
    ensures SortedByStart(Merged(p)) && NoneAdjacent(Merged(p))
    ensures s != [] ==> Merged(p) != []
  {
    assert |p| == |multiset(p)| == |multiset(s)| == |s|;
    if |p| > 1 {
      assert p == p[..1] + p[1..];
      MergeSorts(p[..1], p[1..]);
      MergeKeepsFirst(p[..1], p[1..]);
    }
  }

  lemma MemberSnoc(m: seq<Range>, i: nat, x: int)
    requires i < |m|
    ensures Member(m[..i + 1], x) <==> Member(m[..i], x) || Holds(m[i], x)
  {
    if Member(m[..i], x) {
      var k :| 0 <= k < |m[..i]| && Holds(m[..i][k], x);
      assert Holds(m[..i + 1][k], x);
    }
    if Holds(m[i], x) {
      assert Holds(m[..i + 1][i], x);
    }
    if Member(m[..i + 1], x) {
      var k :| 0 <= k < |m[..i + 1]| && Holds(m[..i + 1][k], x);
      assert k < i ==> Holds(m[..i][k], x);
    }
  }

  lemma UsedTwice(m: seq<Range>, i: nat, x: int)
    requires i < |m| && Member(m[..i], x) && Holds(m[i], x)
    ensures Cover(m, x) >= 2 && !Disjoint(m)
  {
    var k :| 0 <= k < |m[..i]| && Holds(m[..i][k], x);
    CoverOfTwo(m, k, i, x);
    assert !Apart(m[k], m[i]);
  }

  lemma OneMore(m: seq<Range>, i: nat)
    requires i < |m| && InBounds(m[..i]) && AllProper(m[..i]) && Disjoint(m[..i])
    requires Proper(m[i]) && m[i].start < CLUSTER_SLOTS && m[i].end < CLUSTER_SLOTS
    requires forall x :: m[i].start <= x <= m[i].end ==> !Member(m[..i], x)
    ensures InBounds(m[..i + 1]) && AllProper(m[..i + 1]) && Disjoint(m[..i + 1])
  {
    var t := m[..i + 1];
    assert t[..i] == m[..i];
    forall a, b | 0 <= a < b < |t| ensures Apart(t[a], t[b]) {
      if b < i {
        assert Apart(m[..i][a], m[..i][b]);
      } else {
        var r := m[..i][a];
        assert Proper(r);
        var x := if r.start >= m[i].start then r.start else m[i].start;
        if !Apart(r, m[i]) {
          assert Holds(r, x);
          assert Member(m[..i], x);
        }
      }
    }
    forall a | 0 <= a < |t| ensures Proper(t[a]) && t[a].start < CLUSTER_SLOTS && t[a].end < CLUSTER_SLOTS {
      if a < i {
        assert Proper(m[..i][a]);
      }
    }
  }
}

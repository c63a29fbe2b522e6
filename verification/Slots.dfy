/**
 Sets of cluster slots written as arrays of ranges. Sorting and merging adjacent ranges gives
 a canonical form: the only sorted, non-adjacent, non-overlapping way to write the set.
 */
module Slots {

  const CLUSTER_SLOTS := 16384

  /** unsigned short */
  type Short = x: int | 0 <= x < 65536

  datatype Range = Range(start: Short, end: Short)

  predicate Proper(r: Range) {
    r.start <= r.end
  }

  predicate AllProper(s: seq<Range>) {
    forall i :: 0 <= i < |s| ==> Proper(s[i])
  }

  predicate Holds(r: Range, x: int) {
    r.start <= x <= r.end
  }

  predicate Member(s: seq<Range>, x: int) {
    exists i :: 0 <= i < |s| && Holds(s[i], x)
  }

  predicate InBounds(s: seq<Range>) {
    forall i :: 0 <= i < |s| ==> s[i].start < CLUSTER_SLOTS && s[i].end < CLUSTER_SLOTS
  }

  predicate Apart(a: Range, b: Range) {
    a.end < b.start || b.end < a.start
  }

  predicate Disjoint(s: seq<Range>) {
    forall i, j :: 0 <= i < j < |s| ==> Apart(s[i], s[j])
  }

  predicate SortedByStart(s: seq<Range>) {
    forall i, j :: 0 <= i <= j < |s| ==> s[i].start <= s[j].start
  }

  /** What qsort promises; the order of ranges with equal starts is left open. */
  predicate SortOf(p: seq<Range>, s: seq<Range>) {
    SortedByStart(p) && multiset(p) == multiset(s)
  }

  /** Sorted, not overlapping and not adjacent. */
  predicate Canonical(s: seq<Range>) {
    AllProper(s) && forall i :: 0 <= i < |s| - 1 ==> s[i].end + 1 < s[i + 1].start
  }

  // ---------- how often a slot is covered ----------

  function Cover(s: seq<Range>, x: int): nat {
    if s == [] then 0 else (if Holds(s[0], x) then 1 else 0) + Cover(s[1..], x)
  }

  lemma {:induction false} CoverConcat(a: seq<Range>, b: seq<Range>, x: int)
    ensures Cover(a + b, x) == Cover(a, x) + Cover(b, x)
  {
    if a == [] {
      assert a + b == b;
    } else {
      assert (a + b)[1..] == a[1..] + b;
      CoverConcat(a[1..], b, x);
    }
  }

  lemma CoverRemove(s: seq<Range>, i: nat, x: int)
    requires i < |s|
    ensures Cover(s, x) == (if Holds(s[i], x) then 1 else 0) + Cover(s[..i] + s[i + 1..], x)
  {
    assert s == s[..i] + ([s[i]] + s[i + 1..]);
    CoverConcat(s[..i], [s[i]] + s[i + 1..], x);
    CoverConcat([s[i]], s[i + 1..], x);
    CoverConcat(s[..i], s[i + 1..], x);
  }

  lemma RemoveOne(s: seq<Range>, i: nat)
    requires i < |s|
    ensures multiset(s[..i] + s[i + 1..]) == multiset(s) - multiset{s[i]}
  {
    assert s == s[..i] + [s[i]] + s[i + 1..];
  }

  /** The count does not depend on the order. */
  lemma {:induction false} CoverPermutes(s: seq<Range>, t: seq<Range>, x: int)
    requires multiset(s) == multiset(t)
    ensures Cover(s, x) == Cover(t, x)
    decreases |s|
  {
    assert |s| == |multiset(s)| == |multiset(t)| == |t|;
    if s != [] {
      assert s[0] in multiset(t);
      var i :| 0 <= i < |t| && t[i] == s[0];
      var s', t' := s[..0] + s[1..], t[..i] + t[i + 1..];
      RemoveOne(s, 0);
      RemoveOne(t, i);
      CoverPermutes(s', t', x);
      CoverRemove(s, 0, x);
      CoverRemove(t, i, x);
    }
  }

  lemma {:induction false} CoverCounts(s: seq<Range>, x: int)
    ensures Cover(s, x) > 0 <==> Member(s, x)
  {
    if s != [] {
      CoverCounts(s[1..], x);
      if Member(s, x) {
        var i :| 0 <= i < |s| && Holds(s[i], x);
        if i > 0 {
          assert Holds(s[1..][i - 1], x);
        }
      }
      if Member(s[1..], x) {
        var i :| 0 <= i < |s[1..]| && Holds(s[1..][i], x);
        assert Holds(s[i + 1], x);
      }
    }
  }

  lemma CoverOfTwo(s: seq<Range>, i: nat, j: nat, x: int)
    requires i < j < |s| && Holds(s[i], x) && Holds(s[j], x)
    ensures Cover(s, x) >= 2
  {
    CoverRemove(s, j, x);
    var t := s[..j] + s[j + 1..];
    assert t[i] == s[i];
    CoverRemove(t, i, x);
  }

  lemma {:induction false} CoveredTwice(s: seq<Range>, x: int)
    requires Cover(s, x) >= 2
    ensures exists i, j :: 0 <= i < j < |s| && Holds(s[i], x) && Holds(s[j], x)
  {
    var t := s[1..];
    if Holds(s[0], x) {
      CoverCounts(t, x);
      var j :| 0 <= j < |t| && Holds(t[j], x);
      assert Holds(s[0], x) && Holds(s[j + 1], x);
    } else {
      CoveredTwice(t, x);
      var i, j :| 0 <= i < j < |t| && Holds(t[i], x) && Holds(t[j], x);
      assert Holds(s[i + 1], x) && Holds(s[j + 1], x);
    }
  }

  predicate AtMostOnce(s: seq<Range>, x: int) {
    Cover(s, x) <= 1
  }

  predicate Uncovered(s: seq<Range>, x: int) {
    Cover(s, x) == 0
  }

  lemma DisjointCovers(s: seq<Range>, x: int)
    requires Disjoint(s)
    ensures AtMostOnce(s, x)
  {
    if Cover(s, x) >= 2 {
      CoveredTwice(s, x);
    }
  }

  lemma OnceIsDisjoint(s: seq<Range>)
    requires AllProper(s) && forall x :: AtMostOnce(s, x)
    ensures Disjoint(s)
  {
    forall i, j | 0 <= i < j < |s| ensures Apart(s[i], s[j]) {
      assert Proper(s[i]) && Proper(s[j]);
      var x := if s[i].start >= s[j].start then s[i].start else s[j].start;
      assert AtMostOnce(s, x);
      if !Apart(s[i], s[j]) {
        CoverOfTwo(s, i, j, x);
      }
    }
  }

  /** Ranges are pairwise disjoint when no slot is covered twice. */
  lemma DisjointIsCover(s: seq<Range>)
    requires AllProper(s)
    ensures Disjoint(s) <==> forall x :: AtMostOnce(s, x)
  {
    if Disjoint(s) {
      forall x ensures AtMostOnce(s, x) {
        DisjointCovers(s, x);
      }
    }
    if forall x :: AtMostOnce(s, x) {
      OnceIsDisjoint(s);
    }
  }

  lemma BoundsAreCover(s: seq<Range>)
    requires AllProper(s)
    ensures InBounds(s) <==> forall x :: x >= CLUSTER_SLOTS ==> Uncovered(s, x)
  {
    if InBounds(s) {
      forall x | x >= CLUSTER_SLOTS ensures Uncovered(s, x) {
        CoverCounts(s, x);
      }
    }
    if forall x :: x >= CLUSTER_SLOTS ==> Uncovered(s, x) {
      forall i | 0 <= i < |s| ensures s[i].start < CLUSTER_SLOTS && s[i].end < CLUSTER_SLOTS {
        assert Proper(s[i]);
        CoverCounts(s, s[i].end);
        assert Holds(s[i], s[i].end);
        assert s[i].end >= CLUSTER_SLOTS ==> Uncovered(s, s[i].end);
      }
    }
  }

  // ---------- merging ----------

  /** The loop of slotRangeArraySortAndMerge: `done` is what lies at or before `idx`. */
  function Merge(done: seq<Range>, rest: seq<Range>): seq<Range>
    requires done != []
    decreases |rest|
  {
    if rest == [] then done
    else
      var last := |done| - 1;
      if done[last].end + 1 == rest[0].start
      then Merge(done[last := Range(done[last].start, rest[0].end)], rest[1..])
      else Merge(done + [rest[0]], rest[1..])
  }

  function Merged(p: seq<Range>): seq<Range> {
    if |p| <= 1 then p else Merge(p[..1], p[1..])
  }

  lemma CoverReplaceLast(done: seq<Range>, r: Range, x: int)
    requires done != [] && Proper(done[|done| - 1]) && Proper(r) && done[|done| - 1].end + 1 == r.start
    ensures Cover(done[|done| - 1 := Range(done[|done| - 1].start, r.end)], x) == Cover(done + [r], x)
  {
    var n := |done| - 1;
    var joined := Range(done[n].start, r.end);
    assert done == done[..n] + [done[n]];
    assert done[n := joined] == done[..n] + [joined];
    CoverConcat(done[..n], [done[n]], x);
    CoverConcat(done[..n], [joined], x);
    CoverConcat(done, [r], x);
  }

  /** Merging keeps every slot covered as often as it was. */
  lemma {:induction false} MergeCovers(done: seq<Range>, rest: seq<Range>, x: int)
    requires done != [] && AllProper(done) && AllProper(rest)
    ensures AllProper(Merge(done, rest)) && Cover(Merge(done, rest), x) == Cover(done + rest, x)
    decreases |rest|
  {
    if rest == [] {
      assert done + rest == done;
    } else {
      var last := |done| - 1;
      assert Proper(done[last]) && Proper(rest[0]);
      CoverConcat(done, rest, x);
      CoverConcat([rest[0]], rest[1..], x);
      assert rest == [rest[0]] + rest[1..];
      CoverConcat(done, [rest[0]], x);
      if done[last].end + 1 == rest[0].start {
        var joined := done[last := Range(done[last].start, rest[0].end)];
        MergeCovers(joined, rest[1..], x);
        CoverReplaceLast(done, rest[0], x);
        CoverConcat(joined, rest[1..], x);
      } else {
        MergeCovers(done + [rest[0]], rest[1..], x);
        CoverConcat(done + [rest[0]], rest[1..], x);
      }
    }
  }

  predicate NoneAdjacent(s: seq<Range>) {
    forall i :: 0 <= i < |s| - 1 ==> s[i].end + 1 != s[i + 1].start
  }

  lemma {:induction false} MergeSorts(done: seq<Range>, rest: seq<Range>)
    requires done != [] && SortedByStart(done + rest) && NoneAdjacent(done)
    ensures SortedByStart(Merge(done, rest)) && NoneAdjacent(Merge(done, rest))
    ensures |Merge(done, rest)| <= |done| + |rest|
    decreases |rest|
  {
    if rest == [] {
      assert done + rest == done;
    } else {
      var last := |done| - 1;
      var all := done + rest;
      if done[last].end + 1 == rest[0].start {
        var joined := done[last := Range(done[last].start, rest[0].end)];
        var all' := joined + rest[1..];
        forall i, j | 0 <= i <= j < |all'| ensures all'[i].start <= all'[j].start {
          var i' := if i <= last then i else i + 1;
          var j' := if j <= last then j else j + 1;
          assert all'[i].start == all[i'].start && all'[j].start == all[j'].start;
        }
        MergeSorts(joined, rest[1..]);
      } else {
        assert (done + [rest[0]]) + rest[1..] == all;
        MergeSorts(done + [rest[0]], rest[1..]);
      }
    }
  }

  lemma MergedCovers(s: seq<Range>, p: seq<Range>)
    requires AllProper(s) && SortOf(p, s)
    ensures AllProper(p) && AllProper(Merged(p)) && SortedByStart(Merged(p)) && NoneAdjacent(Merged(p))
    ensures forall x :: AtMostOnce(Merged(p), x) <==> AtMostOnce(s, x)
    ensures forall x :: Uncovered(Merged(p), x) <==> Uncovered(s, x)
    ensures |Merged(p)| <= |s| && (s == [] <==> Merged(p) == [])
  {
    assert |p| == |multiset(p)| == |multiset(s)| == |s|;
    forall i | 0 <= i < |p| ensures Proper(p[i]) {
      assert p[i] in multiset(s);
    }
    forall x
      ensures AtMostOnce(Merged(p), x) <==> AtMostOnce(s, x)
      ensures Uncovered(Merged(p), x) <==> Uncovered(s, x)
    {
      CoverPermutes(p, s, x);
      if |p| > 1 {
        assert p == p[..1] + p[1..];
        MergeCovers(p[..1], p[1..], x);
      }
    }
    if |p| > 1 {
      assert p == p[..1] + p[1..];
      MergeCovers(p[..1], p[1..], 0);
      MergeSorts(p[..1], p[1..]);
      MergeKeepsFirst(p[..1], p[1..]);
    }
  }

  lemma {:induction false} MergeKeepsFirst(done: seq<Range>, rest: seq<Range>)
    requires done != []
    ensures Merge(done, rest) != []
    decreases |rest|
  {
    if rest != [] {
      var last := |done| - 1;
      if done[last].end + 1 == rest[0].start {
        MergeKeepsFirst(done[last := Range(done[last].start, rest[0].end)], rest[1..]);
      } else {
        MergeKeepsFirst(done + [rest[0]], rest[1..]);
      }
    }
  }

  lemma SortedDisjointIsCanonical(m: seq<Range>)
    requires AllProper(m) && SortedByStart(m) && NoneAdjacent(m) && Disjoint(m)
    ensures Canonical(m)
  {
    forall i | 0 <= i < |m| - 1 ensures m[i].end + 1 < m[i + 1].start {
      assert Apart(m[i], m[i + 1]);
      assert Proper(m[i]) && Proper(m[i + 1]);
    }
  }

  lemma CanonicalIsDisjoint(m: seq<Range>)
    requires Canonical(m)
    ensures Disjoint(m) && SortedByStart(m) && NoneAdjacent(m)
  {
    forall i, j | 0 <= i < j < |m| ensures m[i].end + 1 < m[j].start {
      CanonicalGap(m, i, j);
    }
    forall i, j | 0 <= i <= j < |m| ensures m[i].start <= m[j].start {
      assert Proper(m[i]);
    }
  }

  lemma {:induction false} CanonicalGap(m: seq<Range>, i: nat, j: nat)
    requires Canonical(m) && i < j < |m|
    ensures m[i].end + 1 < m[j].start
    decreases j
  {
    assert m[j - 1].end + 1 < m[j - 1 + 1].start;
    if i < j - 1 {
      CanonicalGap(m, i, j - 1);
      assert Proper(m[j - 1]);
    }
  }

  // ---------- the canonical form is unique ----------

  ghost predicate SameSlots(s: seq<Range>, t: seq<Range>) {
    forall x :: Member(s, x) <==> Member(t, x)
  }

  lemma FirstStart(s: seq<Range>)
    requires Canonical(s) && s != []
    ensures Member(s, s[0].start) && forall x :: Member(s, x) ==> x >= s[0].start
  {
    assert Proper(s[0]);
    assert Holds(s[0], s[0].start);
    CanonicalIsDisjoint(s);
  }

  lemma FirstEnd(s: seq<Range>)
    requires Canonical(s) && s != []
    ensures !Member(s, s[0].end + 1) && forall x :: s[0].start <= x <= s[0].end ==> Member(s, x)
  {
    CanonicalIsDisjoint(s);
    forall i | 0 <= i < |s| ensures !Holds(s[i], s[0].end + 1) {
      if i > 0 {
        CanonicalGap(s, 0, i);
      }
    }
    forall x | s[0].start <= x <= s[0].end ensures Member(s, x) {
      assert Holds(s[0], x);
    }
  }

  lemma MemberOfRest(s: seq<Range>, x: int)
    requires Canonical(s) && s != []
    ensures Member(s[1..], x) <==> Member(s, x) && x > s[0].end
  {
    if Member(s[1..], x) {
      var i :| 0 <= i < |s[1..]| && Holds(s[1..][i], x);
      assert Holds(s[i + 1], x);
      CanonicalGap(s, 0, i + 1);
    }
    if Member(s, x) && x > s[0].end {
      var i :| 0 <= i < |s| && Holds(s[i], x);
      assert Holds(s[1..][i - 1], x);
    }
  }

  lemma SameFirst(s: seq<Range>, t: seq<Range>)
    requires Canonical(s) && Canonical(t) && SameSlots(s, t) && s != []
    ensures t != [] && s[0] == t[0]
  {
    FirstStart(s);
    assert Member(t, s[0].start);
    FirstStart(t);
    FirstEnd(s);
    FirstEnd(t);
    assert Proper(s[0]) && Proper(t[0]);
    assert Member(s, t[0].start);
    assert !Member(t, s[0].end + 1) && !Member(s, t[0].end + 1);
  }

  /** Two canonical arrays that denote the same slots are the same array. */
  lemma {:induction false} CanonicalIsUnique(s: seq<Range>, t: seq<Range>)
    requires Canonical(s) && Canonical(t) && SameSlots(s, t)
    ensures s == t
    decreases |s|
  {
    hide Member;
    if s == [] {
      if t != [] {
        SameFirst(t, s);
      }
    } else {
      SameFirst(s, t);
      forall x ensures Member(s[1..], x) <==> Member(t[1..], x) {
        MemberOfRest(s, x);
        MemberOfRest(t, x);
      }
      assert Canonical(s[1..]) && Canonical(t[1..]);
      CanonicalIsUnique(s[1..], t[1..]);
      assert s == [s[0]] + s[1..] && t == [t[0]] + t[1..];
    }
  }

  /** What sorting and merging gives for disjoint ranges: the canonical form of the same set. */
  lemma MergedIsCanonical(s: seq<Range>, p: seq<Range>)
    requires AllProper(s) && Disjoint(s) && SortOf(p, s)
    ensures Canonical(Merged(p)) && SameSlots(Merged(p), s)
  {
    MergedCovers(s, p);
    var m := Merged(p);
    DisjointIsCover(s);
    DisjointIsCover(m);
    SortedDisjointIsCanonical(m);
    forall x ensures Member(m, x) <==> Member(s, x) {
      CoverCounts(m, x);
      CoverCounts(s, x);
      assert Uncovered(m, x) <==> Uncovered(s, x);
    }
  }

  /** The checks on the merged array accept exactly the well-formed inputs. */
  lemma ValidIff(s: seq<Range>, p: seq<Range>)
    requires AllProper(s) && SortOf(p, s)
    ensures (InBounds(Merged(p)) && AllProper(Merged(p)) && Disjoint(Merged(p))) <==> (InBounds(s) && Disjoint(s))
  {
    MergedCovers(s, p);
    DisjointIsCover(s);
    DisjointIsCover(Merged(p));
    BoundsAreCover(s);
    BoundsAreCover(Merged(p));
  }

  /** Comparing merged arrays decides whether two slot sets are equal, whatever order qsort
      chooses. */
  lemma EqualIffSameSlots(s: seq<Range>, t: seq<Range>, p: seq<Range>, q: seq<Range>)
    requires AllProper(s) && Disjoint(s) && SortOf(p, s)
    requires AllProper(t) && Disjoint(t) && SortOf(q, t)
    ensures Merged(p) == Merged(q) <==> SameSlots(s, t)
  {
    MergedIsCanonical(s, p);
    MergedIsCanonical(t, q);
    if SameSlots(s, t) {
      forall x ensures Member(Merged(p), x) <==> Member(Merged(q), x) {
        assert Member(Merged(p), x) <==> Member(s, x);
        assert Member(Merged(q), x) <==> Member(t, x);
        assert Member(s, x) <==> Member(t, x);
      }
      CanonicalIsUnique(Merged(p), Merged(q));
    }
    if Merged(p) == Merged(q) {
      forall x ensures Member(s, x) <==> Member(t, x) {
        assert Member(Merged(p), x) <==> Member(s, x);
        assert Member(Merged(q), x) <==> Member(t, x);
      }
    }
  }

  /** A canonical array is left alone by sorting and merging. */
  lemma CanonicalIsFixed(s: seq<Range>, p: seq<Range>)
    requires Canonical(s) && SortOf(p, s)
    ensures Merged(p) == s
  {
    CanonicalIsDisjoint(s);
    MergedIsCanonical(s, p);
    CanonicalIsUnique(Merged(p), s);
  }

  /** At most every second slot can start a range. */
  lemma CanonicalIsShort(s: seq<Range>)
    requires Canonical(s) && InBounds(s)
    ensures |s| <= CLUSTER_SLOTS / 2
  {
    if s != [] {
      StartsGrow(s, |s| - 1);
      assert s[|s| - 1].start < CLUSTER_SLOTS;
    }
  }

  lemma {:induction false} StartsGrow(s: seq<Range>, i: nat)
    requires Canonical(s) && i < |s|
    ensures s[i].start >= 2 * i
  {
    if i > 0 {
      StartsGrow(s, i - 1);
      assert s[i - 1].end + 1 < s[i - 1 + 1].start;
      assert Proper(s[i - 1]);
    }
  }

  // ---------- ranges that end before they start ----------

  /** Range `i` is merged with the next one. */
  predicate Touches(p: seq<Range>, i: int) {
    0 <= i < |p| - 1 && p[i].end + 1 == p[i + 1].start
  }

  /** Where the chain of touching ranges that reaches `i` begins. */
  function First(p: seq<Range>, i: nat): (r: nat)
    requires i < |p|
    ensures r <= i
  {
    if Touches(p, i - 1) then First(p, i - 1) else i
  }

  /** The merged form of the first `n` ranges: one range per chain, from the start of its first
      to the end of its last. */
  function Chains(p: seq<Range>, n: nat): (c: seq<Range>)
    requires 1 <= n <= |p|
    ensures c != []
  {
    if n == 1 then [p[0]]
    else
      var c := Chains(p, n - 1);
      if Touches(p, n - 2) then c[|c| - 1 := Range(c[|c| - 1].start, p[n - 1].end)] else c + [p[n - 1]]
  }

  lemma {:induction false} LastChain(p: seq<Range>, n: nat)
    requires 1 <= n <= |p|
    ensures var c := Chains(p, n); c[|c| - 1] == Range(p[First(p, n - 1)].start, p[n - 1].end)
  {
    if n > 1 {
      LastChain(p, n - 1);
    }
  }

  lemma {:induction false} MergeIsChains(p: seq<Range>, n: nat)
    requires 1 <= n <= |p|
    ensures Merge(Chains(p, n), p[n..]) == Chains(p, |p|)
    decreases |p| - n
  {
    if n < |p| {
      LastChain(p, n);
      assert p[n..][0] == p[n] && p[n..][1..] == p[n + 1..];
      MergeIsChains(p, n + 1);
    }
  }

  lemma MergedIsChains(p: seq<Range>)
    requires p != []
    ensures Merged(p) == Chains(p, |p|)
  {
    if |p| > 1 {
      assert p[..1] == [p[0]] == Chains(p, 1);
      MergeIsChains(p, 1);
    }
  }

  /** The chain that ends at range `i` starts no later than it ends, within bounds. */
  predicate ChainOk(p: seq<Range>, i: nat)
    requires i < |p|
  {
    p[First(p, i)].start <= p[i].end < CLUSTER_SLOTS
  }

  /** What the checks come to, told of the sorted ranges themselves: a chain that another follows
      is in order and ends before the next range starts. */
  predicate LinkOk(p: seq<Range>, i: nat)
    requires i < |p| - 1
  {
    Touches(p, i) || (ChainOk(p, i) && p[i].end < p[i + 1].start)
  }

  predicate Passes(p: seq<Range>) {
    p != [] ==> ChainOk(p, |p| - 1) && forall i :: 0 <= i < |p| - 1 ==> LinkOk(p, i)
  }

  predicate RangeOk(c: seq<Range>, j: nat)
    requires j < |c| - 1
  {
    c[j].start <= c[j].end < CLUSTER_SLOTS && c[j].end < c[j + 1].start
  }

  lemma {:induction false} ChainsOk(p: seq<Range>, n: nat)
    requires 1 <= n <= |p|
    ensures var c := Chains(p, n);
            (forall j :: 0 <= j < |c| - 1 ==> RangeOk(c, j)) <==> (forall i :: 0 <= i < n - 1 ==> LinkOk(p, i))
  {
    if n > 1 {
      var b, c := Chains(p, n - 1), Chains(p, n);
      ChainsOk(p, n - 1);
      LastChain(p, n - 1);
      forall j | 0 <= j < |b| - 1 ensures RangeOk(b, j) <==> RangeOk(c, j) {
      }
      if Touches(p, n - 2) {
        assert LinkOk(p, n - 2);
      } else {
        assert RangeOk(c, |b| - 1) <==> LinkOk(p, n - 2);
      }
    }
  }

  lemma {:induction false} EndsApart(c: seq<Range>, i: nat, j: nat)
    requires i < j < |c| && (forall k :: 0 <= k < |c| - 1 ==> RangeOk(c, k))
    ensures c[i].end < c[j].start
    decreases j
  {
    assert RangeOk(c, j - 1);
    if i < j - 1 {
      EndsApart(c, i, j - 1);
    }
  }

  /** For ranges sorted by start the three checks look at neighbours only. */
  lemma NeighboursDecide(c: seq<Range>)
    requires SortedByStart(c) && c != []
    ensures (InBounds(c) && AllProper(c) && Disjoint(c)) <==>
            (forall j :: 0 <= j < |c| - 1 ==> RangeOk(c, j)) && c[|c| - 1].start <= c[|c| - 1].end < CLUSTER_SLOTS
  {
    var last := |c| - 1;
    if InBounds(c) && AllProper(c) && Disjoint(c) {
      assert Proper(c[last]);
      forall j | 0 <= j < |c| - 1 ensures RangeOk(c, j) {
        assert Proper(c[j]) && Apart(c[j], c[j + 1]) && c[j].start <= c[j + 1].start && Proper(c[j + 1]);
      }
    }
    if (forall j :: 0 <= j < |c| - 1 ==> RangeOk(c, j)) && c[last].start <= c[last].end < CLUSTER_SLOTS {
      forall j | 0 <= j < |c| ensures Proper(c[j]) && c[j].end < CLUSTER_SLOTS {
        assert j < last ==> RangeOk(c, j);
      }
      forall i, j | 0 <= i < j < |c| ensures Apart(c[i], c[j]) {
        EndsApart(c, i, j);
      }
    }
  }

  lemma NothingIsAccepted()
    ensures InBounds([]) && AllProper([]) && Disjoint([]) && Merged([]) == []
  {
  }

  lemma MergedSorted(p: seq<Range>)
    requires SortedByStart(p)
    ensures SortedByStart(Merged(p))
  {
    hide Merge;
    if |p| > 1 {
      assert p == p[..1] + p[1..];
      MergeSorts(p[..1], p[1..]);
    }
  }

  /** Exactly when the checks accept, for any ranges in any sorted order, reversed ones too. */
  lemma AcceptedIff(p: seq<Range>)
    requires SortedByStart(p)
    ensures (InBounds(Merged(p)) && AllProper(Merged(p)) && Disjoint(Merged(p))) <==> Passes(p)
  {
    hide Merge, Chains, InBounds, AllProper, Disjoint, RangeOk, LinkOk, First, SortedByStart;
    if p == [] {
      NothingIsAccepted();
    } else {
      MergedIsChains(p);
      ChainsOk(p, |p|);
      LastChain(p, |p|);
      MergedSorted(p);
      NeighboursDecide(Chains(p, |p|));
    }
  }

  /** How a reversed range can be accepted: it is absorbed by a range that ends right before it
      starts, or it ends right before its own start and a range with the same start follows. */
  lemma AcceptedReversed(p: seq<Range>, k: nat)
    requires SortedByStart(p) && Passes(p) && k < |p| && !Proper(p[k])
    ensures Touches(p, k - 1) || (Touches(p, k) && p[k].end + 1 == p[k].start == p[k + 1].start)
  {
    if k == |p| - 1 {
      assert ChainOk(p, k);
    } else {
      assert LinkOk(p, k);
      assert p[k].start <= p[k + 1].start;
    }
  }

  /** Two ranges of the array, not the same one, so that the second starts right after the first
      ends. */
  predicate Adjacent(s: seq<Range>, i: nat, j: nat)
    requires i < |s| && j < |s|
  {
    i != j && s[i].end + 1 == s[j].start
  }

  /** Whatever order the sort chooses, an array with a reversed range is refused if no other range
      ends right before it starts and none starts right after it ends. */
  lemma LoneReversedIsRefused(s: seq<Range>, p: seq<Range>, k: nat)
    requires SortOf(p, s) && k < |s| && !Proper(s[k])
    requires forall i :: 0 <= i < |s| && i != k ==> !Adjacent(s, i, k) && !Adjacent(s, k, i)
    ensures !(InBounds(Merged(p)) && AllProper(Merged(p)) && Disjoint(Merged(p)))
  {
    AcceptedIff(p);
    if Passes(p) {
      AcceptedHasNeighbour(s, p, k);
    }
  }

  lemma AcceptedHasNeighbour(s: seq<Range>, p: seq<Range>, k: nat)
    requires SortOf(p, s) && Passes(p) && k < |s| && !Proper(s[k])
    ensures exists i :: 0 <= i < |s| && i != k && (Adjacent(s, i, k) || Adjacent(s, k, i))
  {
    var r := s[k];
    assert r in multiset(s);
    assert r in multiset(p);
    var j :| 0 <= j < |p| && p[j] == r;
    AcceptedReversed(p, j);
    var x := if Touches(p, j - 1) then j - 1 else j + 1;
    OtherPlace(s, p, k, j, x);
    var i :| 0 <= i < |s| && i != k && s[i] == p[x];
    assert Adjacent(s, i, k) || Adjacent(s, k, i);
  }

  /** A second range of the sorted array is a second range of the given one. */
  lemma OtherPlace(s: seq<Range>, p: seq<Range>, k: nat, j: nat, x: nat)
    requires multiset(p) == multiset(s) && k < |s| && j < |p| && x < |p| && x != j && p[j] == s[k]
    ensures exists i :: 0 <= i < |s| && i != k && s[i] == p[x]
  {
    RemoveOne(s, k);
    RemoveOne(p, j);
    var s', p' := s[..k] + s[k + 1..], p[..j] + p[j + 1..];
    assert p'[if x < j then x else x - 1] == p[x];
    assert p[x] in multiset(p');
    assert p[x] in multiset(s');
    var y :| 0 <= y < |s'| && s'[y] == p[x];
    assert s[if y < k then y else y + 1] == p[x];
  }

  /** The promise that exactly the well-formed arrays are accepted holds of an array in a given
      order if and only if it has no reversed range, or is refused by what its sorted ranges show. */
  lemma PromiseHoldsIff(s: seq<Range>, p: seq<Range>)
    requires SortOf(p, s)
    ensures var m := Merged(p);
            ((InBounds(m) && AllProper(m) && Disjoint(m)) <==> (InBounds(s) && AllProper(s) && Disjoint(s))) <==>
            (AllProper(s) || !Passes(p))
  {
    AcceptedIff(p);
    if AllProper(s) {
      ValidIff(s, p);
    }
  }

  /** A reversed range can hide behind the one that it is merged into: 0-9 10-4 is accepted as
      0-4. */
  lemma ReversedRangeHides()
    ensures var s := [Range(0, 9), Range(10, 4)];
            SortOf(s, s) && !AllProper(s) && Merged(s) == [Range(0, 4)] && Passes(s)
  {
    var s := [Range(0, 9), Range(10, 4)];
    assert !Proper(s[1]);
    assert Chains(s, 1) == [Range(0, 9)] && Touches(s, 0);
    MergedIsChains(s);
    assert First(s, 0) == 0 && First(s, 1) == 0;
    assert LinkOk(s, 0);
  }

  /** With equal starts it is the sort that decides: 10-9 before 10-12 is accepted as 10-12, the
      other way round it is refused. */
  lemma TiesDecide()
    ensures var a, b := [Range(10, 9), Range(10, 12)], [Range(10, 12), Range(10, 9)];
            SortOf(a, a) && SortOf(b, a) && Passes(a) && Merged(a) == [Range(10, 12)] && !Passes(b)
  {
    var a, b := [Range(10, 9), Range(10, 12)], [Range(10, 12), Range(10, 9)];
    assert multiset(b) == multiset{Range(10, 12), Range(10, 9)} == multiset(a);
    TiesOneWay();
    TiesOtherWay();
  }

  lemma TiesOneWay()
    ensures var a := [Range(10, 9), Range(10, 12)]; Passes(a) && Merged(a) == [Range(10, 12)]
  {
    var a := [Range(10, 9), Range(10, 12)];
    assert Touches(a, 0);
    assert Chains(a, 1) == [Range(10, 9)];
    MergedIsChains(a);
    assert First(a, 0) == 0 && First(a, 1) == 0;
    assert LinkOk(a, 0);
  }

  lemma TiesOtherWay()
    ensures !Passes([Range(10, 12), Range(10, 9)])
  {
    var b := [Range(10, 12), Range(10, 9)];
    assert !Touches(b, 0);
    assert First(b, 1) == 1;
    assert !ChainOk(b, 1);
  }

  // ---------- what merged ranges denote ----------

  /** How many ranges have begun at `x`, less those that have ended: what a range adds may be
      negative when it is reversed. */
  function Net(s: seq<Range>, x: int): int {
    if s == [] then 0
    else (if s[0].start <= x then 1 else 0) - (if s[0].end < x then 1 else 0) + Net(s[1..], x)
  }

  lemma {:induction false} NetConcat(a: seq<Range>, b: seq<Range>, x: int)
    ensures Net(a + b, x) == Net(a, x) + Net(b, x)
  {
    if a == [] {
      assert a + b == b;
    } else {
      assert (a + b)[1..] == a[1..] + b;
      NetConcat(a[1..], b, x);
    }
  }

  lemma NetSplit(s: seq<Range>, i: nat, x: int)
    requires i < |s|
    ensures Net(s, x) == Net([s[i]], x) + Net(s[..i] + s[i + 1..], x)
  {
    assert s == s[..i] + ([s[i]] + s[i + 1..]);
    NetConcat(s[..i], [s[i]] + s[i + 1..], x);
    NetConcat([s[i]], s[i + 1..], x);
    NetConcat(s[..i], s[i + 1..], x);
  }

  lemma {:induction false} NetPermutes(s: seq<Range>, t: seq<Range>, x: int)
    requires multiset(s) == multiset(t)
    ensures Net(s, x) == Net(t, x)
    decreases |s|
  {
    hide Net;
    assert |s| == |multiset(s)| == |multiset(t)| == |t|;
    if s == [] {
      assert t == [];
    } else {
      assert s[0] in multiset(t);
      var i :| 0 <= i < |t| && t[i] == s[0];
      RemoveOne(s, 0);
      RemoveOne(t, i);
      NetPermutes(s[..0] + s[1..], t[..i] + t[i + 1..], x);
      NetSplit(s, 0, x);
      NetSplit(t, i, x);
    }
  }

  /** Merging keeps the balance of every slot, for any ranges in any order. */
  lemma {:induction false} MergeKeepsNet(done: seq<Range>, rest: seq<Range>, x: int)
    requires done != []
    ensures Net(Merge(done, rest), x) == Net(done + rest, x)
    decreases |rest|
  {
    if rest == [] {
      assert done + rest == done;
    } else {
      var last := |done| - 1;
      var front := done[..last];
      assert done == front + [done[last]] && rest == [rest[0]] + rest[1..];
      NetConcat(done, rest, x);
      NetConcat([rest[0]], rest[1..], x);
      NetConcat(front, [done[last]], x);
      if done[last].end + 1 == rest[0].start {
        var r := Range(done[last].start, rest[0].end);
        var joined := done[last := r];
        assert joined == front + [r];
        MergeKeepsNet(joined, rest[1..], x);
        NetConcat(joined, rest[1..], x);
        NetConcat(front, [r], x);
      } else {
        MergeKeepsNet(done + [rest[0]], rest[1..], x);
        NetConcat(done + [rest[0]], rest[1..], x);
        NetConcat(done, [rest[0]], x);
      }
    }
  }

  lemma MergedKeepsNet(s: seq<Range>, p: seq<Range>, x: int)
    requires SortOf(p, s)
    ensures Net(Merged(p), x) == Net(s, x)
  {
    NetPermutes(p, s, x);
    if |p| > 1 {
      MergeKeepsNet(p[..1], p[1..], x);
      assert p[..1] + p[1..] == p;
    }
  }

  lemma {:induction false} ProperNet(s: seq<Range>, x: int)
    requires AllProper(s)
    ensures Net(s, x) == Cover(s, x)
  {
    if s != [] {
      assert Proper(s[0]);
      assert AllProper(s[1..]) by {
        forall i | 0 <= i < |s[1..]| ensures Proper(s[1..][i]) {
          assert Proper(s[i + 1]);
        }
      }
      ProperNet(s[1..], x);
    }
  }

  /** The slots of an accepted array, reversed ranges included: those where one more of the ranges
      given has begun than ended. */
  lemma AcceptedDenotes(s: seq<Range>, p: seq<Range>, x: int)
    requires SortOf(p, s) && Passes(p)
    ensures Net(s, x) == if Member(Merged(p), x) then 1 else 0
  {
    hide Merged, Net, Cover, Passes;
    AcceptedIff(p);
    MergedKeepsNet(s, p, x);
    ProperNet(Merged(p), x);
    CoverCounts(Merged(p), x);
    DisjointCovers(Merged(p), x);
  }

  /** Arrays that compare as equal cover every slot equally often, whatever the ranges. */
  lemma EqualCoversEqually(s: seq<Range>, t: seq<Range>, p: seq<Range>, q: seq<Range>, x: int)
    requires SortOf(p, s) && SortOf(q, t) && Merged(p) == Merged(q)
    ensures Net(s, x) == Net(t, x)
    ensures AllProper(s) && AllProper(t) ==> (Member(s, x) <==> Member(t, x))
  {
    hide Merged, Net, Cover, SortOf, AllProper;
    MergedKeepsNet(s, p, x);
    MergedKeepsNet(t, q, x);
    if AllProper(s) && AllProper(t) {
      ProperNet(s, x);
      ProperNet(t, x);
      CoverCounts(s, x);
      CoverCounts(t, x);
    }
  }

  /** Only that way round: ranges that overlap are not merged, so 0-5 3-8 differs from 0-8. */
  lemma OverlapDiffers(x: int)
    ensures var s, t := [Range(0, 5), Range(3, 8)], [Range(0, 8)];
            && SortOf(s, s) && SortOf(t, t) && AllProper(s) && AllProper(t)
            && (Member(s, x) <==> Member(t, x)) && Merged(s) != Merged(t)
  {
    var s, t := [Range(0, 5), Range(3, 8)], [Range(0, 8)];
    assert s[..1] == [Range(0, 5)] && s[1..] == [Range(3, 8)] && s[1..][1..] == [];
    assert Merge([Range(0, 5)], [Range(3, 8)]) == Merge([Range(0, 5), Range(3, 8)], []);
    assert |Merged(s)| == 2 && |Merged(t)| == 1;
    assert Holds(s[0], x) || Holds(s[1], x) <==> Holds(t[0], x);
  }

  lemma OverlapCovers(s: seq<Range>, i: nat, j: nat)
    requires AllProper(s) && i < j < |s| && !Apart(s[i], s[j])
    ensures var x := if s[i].start < s[j].start then s[j].start else s[i].start; Cover(s, x) >= 2
  {
    var x := if s[i].start < s[j].start then s[j].start else s[i].start;
    assert Proper(s[i]) && Proper(s[j]);
    var rest := s[..j] + s[j + 1..];
    CoverRemove(s, j, x);
    assert rest[i] == s[i] && Holds(rest[i], x);
    CoverCounts(rest, x);
  }

  /** Compared with disjoint ranges, any others are equal if and only if they have the same slots
      and are disjoint too. */
  lemma EqualToDisjointIff(s: seq<Range>, t: seq<Range>, p: seq<Range>, q: seq<Range>)
    requires AllProper(s) && Disjoint(s) && SortOf(p, s) && AllProper(t) && SortOf(q, t)
    ensures Merged(p) == Merged(q) <==> SameSlots(s, t) && Disjoint(t)
  {
    hide Merged, Cover, SortOf;
    if Disjoint(t) {
      EqualIffSameSlots(s, t, p, q);
    } else if Merged(p) == Merged(q) {
      var i, j :| 0 <= i < j < |t| && !Apart(t[i], t[j]);
      var x := if t[i].start < t[j].start then t[j].start else t[i].start;
      OverlapCovers(t, i, j);
      EqualCoversEqually(s, t, p, q, x);
      ProperNet(s, x);
      ProperNet(t, x);
      DisjointCovers(s, x);
      assert false;
    }
  }
}

/**
 The vector popcount: 128 bytes a turn are added into 32 sixteen-bit lanes, which are summed
 once at the end. The result is exact when no lane wraps.
 */
module PopCountNeon {
  import opened BitOp
  import opened PopCount

  const LANES := 32
  const BLOCK := 128
  const TWO16 := 0x1_0000

  /** What one block adds to lane `q`: four bytes, two from each half of the block. */
  function Gain(s: seq<bv8>, at: nat, q: nat): (n: nat)
    requires at + BLOCK <= |s| && q < LANES
    ensures n <= 32
  {
    PopByte(s[at + 2 * q]) + PopByte(s[at + 2 * q + 1]) + PopByte(s[at + 64 + 2 * q]) + PopByte(s[at + 64 + 2 * q + 1])
  }

  /** The exact total of a lane after `n` blocks from `at`. */
  function LaneTotal(s: seq<bv8>, at: nat, n: nat, q: nat): nat
    requires at + BLOCK * n <= |s| && q < LANES
  {
    if n == 0 then 0 else LaneTotal(s, at, n - 1, q) + Gain(s, at + BLOCK * (n - 1), q)
  }

  lemma {:induction false} LaneBound(s: seq<bv8>, at: nat, n: nat, q: nat)
    requires at + BLOCK * n <= |s| && q < LANES
    ensures LaneTotal(s, at, n, q) <= 32 * n
  {
    if n > 0 {
      LaneBound(s, at, n - 1, q);
    }
  }

  /** The exact totals, and the wrapped ones, of the first `k` lanes. */
  function SumTotals(s: seq<bv8>, at: nat, n: nat, k: nat): nat
    requires at + BLOCK * n <= |s| && k <= LANES
  {
    if k == 0 then 0 else SumTotals(s, at, n, k - 1) + LaneTotal(s, at, n, k - 1)
  }

  function SumWrapped(s: seq<bv8>, at: nat, n: nat, k: nat): nat
    requires at + BLOCK * n <= |s| && k <= LANES
  {
    if k == 0 then 0 else SumWrapped(s, at, n, k - 1) + LaneTotal(s, at, n, k - 1) % TWO16
  }

  /** The count of the bytes that the first `k` lanes take from the block at `b`. */
  function Taken(s: seq<bv8>, b: nat, k: nat): nat
    requires b + BLOCK <= |s| && k <= LANES
  {
    Count(s[b..b + 2 * k]) + Count(s[b + 64..b + 64 + 2 * k])
  }

  lemma TakenNext(s: seq<bv8>, b: nat, k: nat)
    requires b + BLOCK <= |s| && k < LANES
    ensures Taken(s, b, 0) == 0
    ensures Taken(s, b, k + 1) == Taken(s, b, k) + Gain(s, b, k)
  {
    hide Count, PopByte;
    CountNothing(s, b);
    CountNothing(s, b + 64);
    TwoMore(s, b, b + 2 * k);
    TwoMore(s, b + 64, b + 64 + 2 * k);
  }

  lemma {:induction false} GainsCount(s: seq<bv8>, at: nat, n: nat, k: nat)
    requires at + BLOCK * (n + 1) <= |s| && k <= LANES
    ensures SumTotals(s, at, n + 1, k) == SumTotals(s, at, n, k) + Taken(s, at + BLOCK * n, k)
    decreases k
  {
    hide Taken, Gain;
    var b := at + BLOCK * n;
    if k == 0 {
      TakenNext(s, b, 0);
    } else {
      GainsCount(s, at, n, k - 1);
      TakenNext(s, b, k - 1);
      assert LaneTotal(s, at, n + 1, k - 1) == LaneTotal(s, at, n, k - 1) + Gain(s, b, k - 1);
    }
  }

  lemma CountNothing(s: seq<bv8>, i: nat)
    requires i <= |s|
    ensures Count(s[i..i]) == 0
  {
  }

  lemma TwoMore(s: seq<bv8>, i: nat, j: nat)
    requires i <= j && j + 2 <= |s|
    ensures Count(s[i..j + 2]) == Count(s[i..j]) + PopByte(s[j]) + PopByte(s[j + 1])
  {
    hide Count, PopByte;
    var t := s[i..j + 2];
    CountSnoc(t, j - i);
    CountSnoc(t, j - i + 1);
    assert t[..j - i] == s[i..j] && t[..j - i + 1 + 1] == t;
  }

  /** The exact lane totals add up to the count of the blocks. */
  lemma {:induction false} TotalsCount(s: seq<bv8>, at: nat, n: nat)
    requires at + BLOCK * n <= |s|
    ensures SumTotals(s, at, n, LANES) == Count(s[at..at + BLOCK * n])
    decreases n
  {
    hide Count, SumTotals;
    if n == 0 {
      NoTotals(s, at, LANES);
      CountNothing(s, at);
    } else {
      var b := at + BLOCK * (n - 1);
      TotalsCount(s, at, n - 1);
      GainsCount(s, at, n - 1, LANES);
      assert s[at..at + BLOCK * n] == s[at..b] + (s[b..b + 64] + s[b + 64..b + 128]);
      CountConcat(s[at..b], s[b..b + 64] + s[b + 64..b + 128]);
      CountConcat(s[b..b + 64], s[b + 64..b + 128]);
    }
  }

  lemma {:induction false} NoTotals(s: seq<bv8>, at: nat, k: nat)
    requires at <= |s| && k <= LANES
    ensures SumTotals(s, at, 0, k) == 0
  {
    if k > 0 {
      NoTotals(s, at, k - 1);
    }
  }

  predicate Fits16(s: seq<bv8>, at: nat, n: nat, q: nat)
    requires at + BLOCK * n <= |s| && q < LANES
  {
    LaneTotal(s, at, n, q) < TWO16
  }

  lemma WrapsIff(s: seq<bv8>, at: nat, n: nat, q: nat)
    requires at + BLOCK * n <= |s| && q < LANES
    ensures LaneTotal(s, at, n, q) % TWO16 <= LaneTotal(s, at, n, q)
    ensures Fits16(s, at, n, q) <==> LaneTotal(s, at, n, q) % TWO16 == LaneTotal(s, at, n, q)
  {
    hide LaneTotal;
  }

  /** The wrapped totals are short by 65536 for every wrap, so they agree with the exact ones
      exactly when no lane wraps. */
  lemma {:induction false} WrappedIff(s: seq<bv8>, at: nat, n: nat, k: nat)
    requires at + BLOCK * n <= |s| && k <= LANES
    ensures SumWrapped(s, at, n, k) <= SumTotals(s, at, n, k)
    ensures SumWrapped(s, at, n, k) == SumTotals(s, at, n, k) <==> forall q :: 0 <= q < k ==> Fits16(s, at, n, q)
    decreases k
  {
    hide LaneTotal, Fits16;
    if k > 0 {
      WrappedIff(s, at, n, k - 1);
      WrapsIff(s, at, n, k - 1);
    }
  }

  /** How many bytes are counted one by one until the address is a multiple of sixteen. */
  function Lead(s: seq<bv8>, address: nat): (n: nat)
    ensures n <= |s|
  {
    var r := (16 - address % 16) % 16;
    if r <= |s| then r else |s|
  }

  function Blocks(s: seq<bv8>, address: nat): nat {
    (|s| - Lead(s, address)) / BLOCK
  }

  /** Whether all lanes stay below 65536. */
  predicate NoWrap(s: seq<bv8>, address: nat) {
    forall q :: 0 <= q < LANES ==> Fits16(s, Lead(s, address), Blocks(s, address), q)
  }

  /** Up to 2047 blocks no lane can wrap. */
  lemma ShortNeverWraps(s: seq<bv8>, address: nat)
    requires Blocks(s, address) <= 2047
    ensures NoWrap(s, address)
  {
    forall q | 0 <= q < LANES ensures Fits16(s, Lead(s, address), Blocks(s, address), q) {
      LaneBound(s, Lead(s, address), Blocks(s, address), q);
    }
  }

  lemma {:induction false} FullLane(s: seq<bv8>, at: nat, n: nat, q: nat)
    requires at + BLOCK * n <= |s| && q < LANES && forall i :: 0 <= i < |s| ==> s[i] == 0xff
    ensures LaneTotal(s, at, n, q) == 32 * n
  {
    if n > 0 {
      FullLane(s, at, n - 1, q);
    }
  }

  /** With more blocks a string of ones wraps: the bound of 2047 blocks is exact. */
  lemma LongOnesWrap(s: seq<bv8>, address: nat)
    requires Blocks(s, address) > 2047 && forall i :: 0 <= i < |s| ==> s[i] == 0xff
    ensures !NoWrap(s, address)
  {
    FullLane(s, Lead(s, address), Blocks(s, address), 0);
    assert !Fits16(s, Lead(s, address), Blocks(s, address), 0);
  }

  // ---------- the routine ----------

  /** One turn of the main loop: each accumulator takes the pairs of two vectors. */
  method AddBlock(s: seq<bv8>, at: nat, acc: array<nat>)
    requires at + BLOCK <= |s| && acc.Length == LANES
    modifies acc
    ensures forall q :: 0 <= q < LANES ==> acc[q] == (old(acc[q]) + Gain(s, at, q)) % TWO16
  {
    hide PopByte;
    var q := 0;
    while q < LANES
      invariant 0 <= q <= LANES
      invariant forall r :: 0 <= r < q ==> acc[r] == (old(acc[r]) + Gain(s, at, r)) % TWO16
      invariant forall r :: q <= r < LANES ==> acc[r] == old(acc[r])
    {
      var low := PopByte(s[at + 2 * q]) + PopByte(s[at + 2 * q + 1]);
      var high := PopByte(s[at + 64 + 2 * q]) + PopByte(s[at + 64 + 2 * q + 1]);
      AddTwice(acc[q], low, high);
      acc[q] := (acc[q] + low) % TWO16;
      acc[q] := (acc[q] + high) % TWO16;
      q := q + 1;
    }
  }

  lemma AddTwice(a: nat, x: nat, y: nat)
    ensures ((a + x) % TWO16 + y) % TWO16 == (a + x + y) % TWO16
  {
  }

  method Reduce(ghost s: seq<bv8>, ghost at: nat, ghost n: nat, acc: array<nat>) returns (bits: nat)
    requires at + BLOCK * n <= |s| && acc.Length == LANES
    requires forall q :: 0 <= q < LANES ==> acc[q] == LaneTotal(s, at, n, q) % TWO16
    ensures bits == SumWrapped(s, at, n, LANES)
  {
    bits := 0;
    var q := 0;
    while q < LANES
      invariant 0 <= q <= LANES && bits == SumWrapped(s, at, n, q)
    {
      bits := bits + acc[q];
      q := q + 1;
    }
  }

  /** redisPopCountAarch64: right exactly when no lane wraps, and short otherwise. */
  method RedisPopCountAarch64(s: seq<bv8>, address: nat) returns (bits: nat)
    ensures bits <= Count(s)
    ensures bits == Count(s) <==> NoWrap(s, address)
  {
    hide Count, PopByte, SumTotals, SumWrapped, LaneTotal, Gain, NoWrap;
    bits := 0;
    var p := 0;
    CountNone(s);
    while (address + p) % 16 != 0 && p < |s|
      invariant 0 <= p <= Lead(s, address) && bits == Count(s[..p])
      decreases |s| - p
    {
      CountSnoc(s, p);
      bits := bits + PopByte(s[p]);
      p := p + 1;
    }
    var at := p;
    assert at == Lead(s, address);
    var acc := new nat[LANES](_ => 0);
    ghost var n := 0;
    LanesStart(s, at);
    while |s| - p >= BLOCK
      invariant p == at + BLOCK * n && p <= |s| && fresh(acc) && acc.Length == LANES
      invariant forall q :: 0 <= q < LANES ==> acc[q] == LaneTotal(s, at, n, q) % TWO16
      decreases |s| - p
    {
      LanesNext(s, at, n, acc[..]);
      AddBlock(s, p, acc);
      p := p + BLOCK;
      n := n + 1;
    }
    assert n == Blocks(s, address);
    var sum := Reduce(s, at, n, acc);
    bits := bits + sum;
    ghost var short := Count(s[..p]) - bits;
    TotalsCount(s, at, n);
    WrappedIff(s, at, n, LANES);
    CountSplit(s, at, p);
    NoWrapIs(s, address);
    assert short >= 0 && (short == 0 <==> NoWrap(s, address));
    bits := CountRest(s, p, bits, short);
  }

  lemma NoWrapIs(s: seq<bv8>, address: nat)
    ensures NoWrap(s, address) <==> forall q :: 0 <= q < LANES ==> Fits16(s, Lead(s, address), Blocks(s, address), q)
  {
  }

  lemma LanesStart(s: seq<bv8>, at: nat)
    requires at <= |s|
    ensures forall q :: 0 <= q < LANES ==> LaneTotal(s, at, 0, q) == 0
  {
  }

  lemma LanesNext(s: seq<bv8>, at: nat, n: nat, acc: seq<nat>)
    requires at + BLOCK * (n + 1) <= |s| && |acc| == LANES
    requires forall q :: 0 <= q < LANES ==> acc[q] == LaneTotal(s, at, n, q) % TWO16
    ensures forall q :: 0 <= q < LANES ==>
              (acc[q] + Gain(s, at + BLOCK * n, q)) % TWO16 == LaneTotal(s, at, n + 1, q) % TWO16
  {
    hide Gain;
    forall q | 0 <= q < LANES
      ensures (acc[q] + Gain(s, at + BLOCK * n, q)) % TWO16 == LaneTotal(s, at, n + 1, q) % TWO16
    {
      AddTwice(LaneTotal(s, at, n, q), 0, Gain(s, at + BLOCK * n, q));
    }
  }

  /** The loops over 64 and 16 bytes, whose sums are widened at once, and the last bytes. */
  method CountRest(s: seq<bv8>, start: nat, count: nat, ghost short: nat) returns (bits: nat)
    requires start <= |s| && count + short == Count(s[..start])
    ensures bits + short == Count(s)
  {
    hide Count, PopByte;
    bits := count;
    var p := start;
    while |s| - p >= 64
      invariant p <= |s| && bits + short == Count(s[..p])
    {
      CountSplit(s, p, p + 64);
      var c := SumBytes(s[p..p + 64]);
      bits := bits + c;
      p := p + 64;
    }
    while |s| - p >= 16
      invariant p <= |s| && bits + short == Count(s[..p])
    {
      CountSplit(s, p, p + 16);
      var c := SumBytes(s[p..p + 16]);
      bits := bits + c;
      p := p + 16;
    }
    while p < |s|
      invariant p <= |s| && bits + short == Count(s[..p])
    {
      CountSnoc(s, p);
      bits := bits + PopByte(s[p]);
      p := p + 1;
    }
    assert s[..p] == s;
  }

  /** The sum of a vector's byte counts. */
  method SumBytes(v: seq<bv8>) returns (c: nat)
    ensures c == Count(v)
  {
    hide Count, PopByte;
    c := 0;
    CountNone(v);
    var i := 0;
    while i < |v|
      invariant 0 <= i <= |v| && c == Count(v[..i])
    {
      CountSnoc(v, i);
      c := c + PopByte(v[i]);
      i := i + 1;
    }
    assert v[..i] == v;
  }
}

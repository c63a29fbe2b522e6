/**
 Counting set bits: the portable routine that handles 28 bytes at a time inside 32-bit words,
 and the vector routine whose sixteen-bit lanes can wrap on long inputs.
 */
module PopCount {
  import opened BitOp
  import opened BitField

  function One01(x: bool): nat {
    if x then 1 else 0
  }

  /** How many bits of a byte are set; the table bitsinbyte. */
  function PopByte(v: bv8): (n: nat)
    ensures n <= 8
  {
    One01(Bit(v, 0)) + One01(Bit(v, 1)) + One01(Bit(v, 2)) + One01(Bit(v, 3)) +
    One01(Bit(v, 4)) + One01(Bit(v, 5)) + One01(Bit(v, 6)) + One01(Bit(v, 7))
  }

  /** How many bits of a string are set. */
  function Count(s: seq<bv8>): nat {
    if s == [] then 0 else PopByte(s[0]) + Count(s[1..])
  }

  lemma {:induction false} CountConcat(a: seq<bv8>, b: seq<bv8>)
    ensures Count(a + b) == Count(a) + Count(b)
  {
    hide PopByte;
    if a == [] {
      assert a + b == b;
    } else {
      assert (a + b)[1..] == a[1..] + b;
      CountConcat(a[1..], b);
    }
  }

  lemma CountSnoc(s: seq<bv8>, i: nat)
    requires i < |s|
    ensures Count(s[..i + 1]) == Count(s[..i]) + PopByte(s[i])
  {
    hide PopByte;
    assert s[..i + 1] == s[..i] + [s[i]];
    CountConcat(s[..i], [s[i]]);
    assert [s[i]][1..] == [];
  }

  lemma CountSplit(s: seq<bv8>, i: nat, j: nat)
    requires i <= j <= |s|
    ensures Count(s[..j]) == Count(s[..i]) + Count(s[i..j])
  {
    assert s[..j] == s[..i] + s[i..j];
    CountConcat(s[..i], s[i..j]);
  }

  // ---------- one 32-bit word ----------

  // Conversions and byte selection, named so that proofs can treat them abstractly.

  function Wide(v: bv8): bv32 { v as bv32 }

  function Val(x: bv32): nat { x as nat }

  function Byte32(w: bv32, k: nat): bv32
    requires k < 4
  {
    match k
    case 0 => w & 0xff
    case 1 => (w >> 8) & 0xff
    case 2 => (w >> 16) & 0xff
    case _ => (w >> 24) & 0xff
  }

  /** The three steps on a word, up to the mask 0x0F0F0F0F. */
  function Swar(a: bv32): bv32 {
    var a1 := a - ((a >> 1) & 0x55555555);
    var a2 := (a1 & 0x33333333) + ((a1 >> 2) & 0x33333333);
    (a2 + (a2 >> 4)) & 0x0F0F0F0F
  }

  /** The same steps on a single byte. */
  function Swar8(a: bv32): bv32 {
    var a1 := a - ((a >> 1) & 0x55);
    var a2 := (a1 & 0x33) + ((a1 >> 2) & 0x33);
    (a2 + (a2 >> 4)) & 0x0F
  }

  function Pack(a: bv32, b: bv32, c: bv32, d: bv32): bv32 {
    a + (b << 8) + (c << 16) + (d << 24)
  }

  /** No step carries from one byte into the next. */
  lemma NoCarries(a: bv32)
    ensures Swar(a) == Pack(Swar8(a & 0xff), Swar8((a >> 8) & 0xff), Swar8((a >> 16) & 0xff), Swar8((a >> 24) & 0xff))
  {
  }

  lemma SwarSplits(a: bv32)
    ensures Swar(a) == Pack(Swar8(Byte32(a, 0)), Swar8(Byte32(a, 1)), Swar8(Byte32(a, 2)), Swar8(Byte32(a, 3)))
  {
    hide Swar, Swar8, Pack;
    NoCarries(a);
  }

  function PopBits(a: bv32): bv32 {
    (a & 1) + ((a >> 1) & 1) + ((a >> 2) & 1) + ((a >> 3) & 1) + ((a >> 4) & 1) + ((a >> 5) & 1) + ((a >> 6) & 1) + ((a >> 7) & 1)
  }

  predicate AtMost8(x: bv32) { x <= 8 }

  lemma Swar8Pops(v: bv8)
    ensures Swar8(Wide(v)) == PopBits(Wide(v)) && AtMost8(PopBits(Wide(v)))
  {
  }

  lemma PopBitsIsPop(v: bv8)
    ensures Val(PopBits(Wide(v))) == PopByte(v)
  {
  }

  lemma PackIsSum(a: bv32, b: bv32, c: bv32, d: bv32)
    requires AtMost8(a) && AtMost8(b) && AtMost8(c) && AtMost8(d)
    ensures Val(Pack(a, b, c, d)) == Val(a) + 0x100 * Val(b) + 0x1_0000 * Val(c) + 0x100_0000 * Val(d)
  {
  }

  /** Four bytes of memory as a word. */
  function Word32(a: bv8, b: bv8, c: bv8, d: bv8): bv32 {
    Wide(a) | (Wide(b) << 8) | (Wide(c) << 16) | (Wide(d) << 24)
  }

  lemma Word32Bytes(a: bv8, b: bv8, c: bv8, d: bv8)
    ensures var w := Word32(a, b, c, d);
            Byte32(w, 0) == Wide(a) && Byte32(w, 1) == Wide(b) && Byte32(w, 2) == Wide(c) && Byte32(w, 3) == Wide(d)
  {
  }

  lemma OneByteCounts(v: bv8)
    ensures AtMost8(Swar8(Wide(v))) && Val(Swar8(Wide(v))) == PopByte(v)
  {
    hide Swar8, PopBits, PopByte, Wide, Val, AtMost8;
    Swar8Pops(v);
    PopBitsIsPop(v);
  }

  /** Each byte of the masked word holds the count of the byte it came from. */
  lemma SwarCounts(a: bv8, b: bv8, c: bv8, d: bv8)
    ensures Val(Swar(Word32(a, b, c, d))) ==
            PopByte(a) + 0x100 * PopByte(b) + 0x1_0000 * PopByte(c) + 0x100_0000 * PopByte(d)
  {
    hide Swar, Swar8, PopByte, Pack, Word32, Wide, Val, Byte32, AtMost8;
    Word32Bytes(a, b, c, d);
    SwarSplits(Word32(a, b, c, d));
    OneByteCounts(a);
    OneByteCounts(b);
    OneByteCounts(c);
    OneByteCounts(d);
    PackIsSum(Swar8(Wide(a)), Swar8(Wide(b)), Swar8(Wide(c)), Swar8(Wide(d)));
  }

  // ---------- a block of seven words ----------

  const TWO32 := 0x1_0000_0000

  /** The word at byte `i`, after the three steps, as a number. */
  function Quad(s: seq<bv8>, i: nat): nat
    requires i + 4 <= |s|
  {
    Val(Swar(Word32(s[i], s[i + 1], s[i + 2], s[i + 3])))
  }

  /** One turn of the loop over 28 bytes. The sums are taken in uint32_t, and the product's top
      byte is the block's count. */
  function BlockCount(s: seq<bv8>): nat
    requires |s| == 28
  {
    var sum := (Quad(s, 0) + Quad(s, 4) + Quad(s, 8) + Quad(s, 12) + Quad(s, 16) + Quad(s, 20) + Quad(s, 24)) % TWO32;
    (sum * 0x0101_0101) % TWO32 / 0x100_0000
  }

  lemma TopByteOfProduct(a: nat, b: nat, c: nat, d: nat)
    requires a <= 56 && b <= 56 && c <= 56 && d <= 56
    ensures var sum := a + 0x100 * b + 0x1_0000 * c + 0x100_0000 * d;
            sum < TWO32 && (sum * 0x0101_0101) % TWO32 / 0x100_0000 == a + b + c + d
  {
    var sum := a + 0x100 * b + 0x1_0000 * c + 0x100_0000 * d;
    var k := (b + c + d) + 0x100 * (c + d) + 0x1_0000 * d;
    var low := a + 0x100 * (a + b) + 0x1_0000 * (a + b + c);
    var top := a + b + c + d;
    ModUnique(sum * 0x0101_0101, TWO32, k, low + 0x100_0000 * top);
    ShiftDown(low, top);
  }

  lemma ShiftDown(low: nat, top: nat)
    requires low < 0x100_0000
    ensures (low + 0x100_0000 * top) / 0x100_0000 == top
  {
  }

  function Upto(s: seq<bv8>, i: nat): nat
    requires i <= |s|
  {
    Count(s[..i])
  }

  lemma UptoNext(s: seq<bv8>, i: nat)
    requires i < |s|
    ensures Upto(s, i + 1) == Upto(s, i) + PopByte(s[i])
  {
    CountSnoc(s, i);
  }

  lemma FourBytes(s: seq<bv8>, i: nat)
    requires i + 4 <= |s|
    ensures Upto(s, i + 4) == Upto(s, i) + PopByte(s[i]) + PopByte(s[i + 1]) + PopByte(s[i + 2]) + PopByte(s[i + 3])
    ensures Quad(s, i) == PopByte(s[i]) + 0x100 * PopByte(s[i + 1]) + 0x1_0000 * PopByte(s[i + 2]) + 0x100_0000 * PopByte(s[i + 3])
  {
    hide Upto, PopByte, Swar, Word32, Val;
    UptoNext(s, i);
    UptoNext(s, i + 1);
    UptoNext(s, i + 2);
    UptoNext(s, i + 3);
    SwarCounts(s[i], s[i + 1], s[i + 2], s[i + 3]);
  }

  /** Byte lane `k` of the sum of the first four words, and of the last three. */
  function FrontLane(s: seq<bv8>, k: nat): (n: nat)
    requires |s| == 28 && k < 4
    ensures n <= 32
  {
    PopByte(s[k]) + PopByte(s[k + 4]) + PopByte(s[k + 8]) + PopByte(s[k + 12])
  }

  function BackLane(s: seq<bv8>, k: nat): (n: nat)
    requires |s| == 28 && k < 4
    ensures n <= 24
  {
    PopByte(s[k + 16]) + PopByte(s[k + 20]) + PopByte(s[k + 24])
  }

  /** Byte lane `k` of the sum of the seven words. */
  function LaneSum(s: seq<bv8>, k: nat): (n: nat)
    requires |s| == 28 && k < 4
    ensures n <= 56
  {
    FrontLane(s, k) + BackLane(s, k)
  }

  lemma FrontLanes(s: seq<bv8>)
    requires |s| == 28
    ensures Upto(s, 16) - Upto(s, 0) == FrontLane(s, 0) + FrontLane(s, 1) + FrontLane(s, 2) + FrontLane(s, 3)
    ensures Quad(s, 0) + Quad(s, 4) + Quad(s, 8) + Quad(s, 12) ==
            FrontLane(s, 0) + 0x100 * FrontLane(s, 1) + 0x1_0000 * FrontLane(s, 2) + 0x100_0000 * FrontLane(s, 3)
  {
    hide Upto, PopByte, Quad;
    FourBytes(s, 0);
    FourBytes(s, 4);
    FourBytes(s, 8);
    FourBytes(s, 12);
  }

  lemma BackLanes(s: seq<bv8>)
    requires |s| == 28
    ensures Upto(s, 28) - Upto(s, 16) == BackLane(s, 0) + BackLane(s, 1) + BackLane(s, 2) + BackLane(s, 3)
    ensures Quad(s, 16) + Quad(s, 20) + Quad(s, 24) ==
            BackLane(s, 0) + 0x100 * BackLane(s, 1) + 0x1_0000 * BackLane(s, 2) + 0x100_0000 * BackLane(s, 3)
  {
    hide Upto, PopByte, Quad;
    FourBytes(s, 16);
    FourBytes(s, 20);
    FourBytes(s, 24);
  }

  lemma CountNone(s: seq<bv8>)
    ensures Count(s[..0]) == 0
  {
  }

  lemma LanesOfBlock(s: seq<bv8>)
    requires |s| == 28
    ensures Count(s) == LaneSum(s, 0) + LaneSum(s, 1) + LaneSum(s, 2) + LaneSum(s, 3)
    ensures Quad(s, 0) + Quad(s, 4) + Quad(s, 8) + Quad(s, 12) + Quad(s, 16) + Quad(s, 20) + Quad(s, 24) ==
            LaneSum(s, 0) + 0x100 * LaneSum(s, 1) + 0x1_0000 * LaneSum(s, 2) + 0x100_0000 * LaneSum(s, 3)
  {
    hide Upto, FrontLane, BackLane, Quad;
    FrontLanes(s);
    BackLanes(s);
    UptoEnds(s);
  }

  lemma UptoEnds(s: seq<bv8>)
    ensures Upto(s, 0) == 0 && Upto(s, |s|) == Count(s)
  {
    CountNone(s);
    assert s[..|s|] == s;
  }

  /** The block's sum is at most 224, so it fits the top byte and nothing is lost. */
  lemma BlockCountIsCount(s: seq<bv8>)
    requires |s| == 28
    ensures BlockCount(s) == Count(s) <= 224
  {
    hide Count, LaneSum, Quad;
    LanesOfBlock(s);
    var a, b, c, d := LaneSum(s, 0), LaneSum(s, 1), LaneSum(s, 2), LaneSum(s, 3);
    TopByteOfProduct(a, b, c, d);
    var sum := a + 0x100 * b + 0x1_0000 * c + 0x100_0000 * d;
    assert sum % TWO32 == sum;
  }

  /** redisPopcount without the POPCNT instruction, for a string at any address. */
  method RedisPopcount(s: seq<bv8>, address: nat) returns (bits: nat)
    ensures bits == Count(s)
  {
    hide Count, PopByte, BlockCount;
    bits := 0;
    var p := 0;
    CountNone(s);
    while (address + p) % 4 != 0 && p < |s|
      invariant 0 <= p <= |s| && bits == Count(s[..p])
      decreases |s| - p
    {
      CountSnoc(s, p);
      bits := bits + PopByte(s[p]);
      p := p + 1;
    }
    while |s| - p >= 28
      invariant 0 <= p <= |s| && bits == Count(s[..p])
    {
      BlockCountIsCount(s[p..p + 28]);
      CountSplit(s, p, p + 28);
      bits := bits + BlockCount(s[p..p + 28]);
      p := p + 28;
    }
    while p < |s|
      invariant 0 <= p <= |s| && bits == Count(s[..p])
    {
      CountSnoc(s, p);
      bits := bits + PopByte(s[p]);
      p := p + 1;
    }
    assert s[..p] == s;
  }
}

/** Reading and writing fields bit by bit, and the operations of the BITFIELD command. */
module BitFieldStore {
  import opened BitOp
  import opened BitPos
  import opened BitField

  // ---------- bits of numbers and of strings ----------

  /** Bit `k` of a number, the least significant first. */
  predicate NatBit(v: nat, k: nat) {
    if k == 0 then v % 2 == 1 else NatBit(v / 2, k - 1)
  }

  /** A bit of the string extended with zeros. */
  predicate PBit(s: seq<bv8>, i: nat) {
    i < 8 * |s| && BitAt(s, i)
  }

  /** The number written in the bits from `offset`, the most significant first. */
  function FieldValue(s: seq<bv8>, offset: nat, bits: nat): nat {
    if bits == 0 then 0
    else 2 * FieldValue(s, offset, bits - 1) + (if PBit(s, offset + bits - 1) then 1 else 0)
  }

  lemma {:induction false} FieldBound(s: seq<bv8>, offset: nat, bits: nat)
    ensures FieldValue(s, offset, bits) < Pow2(bits)
  {
    if bits > 0 {
      FieldBound(s, offset, bits - 1);
    }
  }

  lemma {:induction false} FieldSame(s: seq<bv8>, t: seq<bv8>, a: nat, b: nat, bits: nat)
    requires forall k :: a <= k < a + bits ==> PBit(s, k) == PBit(t, k - a + b)
    ensures FieldValue(s, a, bits) == FieldValue(t, b, bits)
  {
    if bits > 0 {
      FieldSame(s, t, a, b, bits - 1);
      assert PBit(s, a + bits - 1) == PBit(t, b + bits - 1);
    }
  }

  lemma HalfMod(v: nat, p: nat)
    requires p >= 1
    ensures 2 * ((v / 2) % p) + v % 2 == v % (2 * p)
  {
    var q, r := v / 2, v % 2;
    var k, m := q / p, q % p;
    assert q == k * p + m;
    assert v == 2 * q + r;
    assert v == k * (2 * p) + (2 * m + r);
    ModUnique(v, 2 * p, k, 2 * m + r);
  }

  lemma NatBitHalf(v: nat, k: nat)
    ensures NatBit(v, 0) <==> v % 2 == 1
    ensures k > 0 ==> NatBit(v, k) == NatBit(v / 2, k - 1)
  {
  }

  /** If the bits of the field are those of `v`, the field holds `v` modulo 2^bits. */
  lemma {:induction false} FieldOfNumber(s: seq<bv8>, offset: nat, bits: nat, v: nat)
    requires forall k :: offset <= k < offset + bits ==> PBit(s, k) == NatBit(v, offset + bits - 1 - k)
    ensures FieldValue(s, offset, bits) == v % Pow2(bits)
    decreases bits
  {
    hide PBit, NatBit;
    if bits > 0 {
      var last := offset + bits - 1;
      forall k | offset <= k < last ensures PBit(s, k) == NatBit(v / 2, last - 1 - k) {
        NatBitHalf(v, last - k);
      }
      FieldOfNumber(s, offset, bits - 1, v / 2);
      assert PBit(s, last) == NatBit(v, 0);
      NatBitHalf(v, 0);
      HalfMod(v, Pow2(bits - 1));
    }
  }

  // ---------- one bit in place ----------

  /** byteval &= ~(1 << bit); byteval |= bitval << bit */
  function PutBit(v: bv8, b: nat, x: bool): bv8
    requires b < 8
  {
    Or(And(v, Not(Mask(b))), if x then Mask(b) else 0)
  }

  lemma MasksMeet(b: nat, c: nat)
    requires b < 8 && c < 8
    ensures Bit(Mask(b), c) <==> b == c
  {
  }

  lemma PutBitBits(v: bv8, b: nat, x: bool, c: nat)
    requires b < 8 && c < 8
    ensures Bit(PutBit(v, b, x), c) <==> if c == b then x else Bit(v, c)
  {
    hide Bit, And, Or, Not, Mask;
    var m := if x then Mask(b) else 0;
    BitOr(And(v, Not(Mask(b))), m, c);
    BitAnd(v, Not(Mask(b)), c);
    BitNot(Mask(b), c);
    MasksMeet(b, c);
    BitConst(c);
  }

  function PutAt(s: seq<bv8>, i: nat, x: bool): (t: seq<bv8>)
    requires i < 8 * |s|
    ensures |t| == |s|
  {
    s[i / 8 := PutBit(s[i / 8], i % 8, x)]
  }

  lemma PutAtBits(s: seq<bv8>, i: nat, x: bool, k: nat)
    requires i < 8 * |s|
    ensures PBit(PutAt(s, i, x), k) == if k == i then x else PBit(s, k)
  {
    hide Bit, PutBit;
    if k < 8 * |s| && k / 8 == i / 8 {
      PutBitBits(s[i / 8], i % 8, x, k % 8);
      assert k % 8 == i % 8 ==> k == i;
    }
  }

  // ---------- a whole field ----------

  /** setUnsignedBitfield, on the first `j` bits of the field. */
  function SetField(s: seq<bv8>, offset: nat, bits: nat, v: nat, j: nat): (t: seq<bv8>)
    requires j <= bits && offset + bits <= 8 * |s|
    ensures |t| == |s|
  {
    if j == 0 then s
    else PutAt(SetField(s, offset, bits, v, j - 1), offset + j - 1, NatBit(v, bits - j))
  }

  /** The field holds the bits of the number, and no bit outside it changes. */
  lemma {:induction false} SetFieldBits(s: seq<bv8>, offset: nat, bits: nat, v: nat, j: nat, k: nat)
    requires j <= bits && offset + bits <= 8 * |s|
    ensures PBit(SetField(s, offset, bits, v, j), k) ==
            if offset <= k < offset + j then NatBit(v, bits - 1 - (k - offset)) else PBit(s, k)
    decreases j
  {
    hide PBit, NatBit, PutAt;
    if j > 0 {
      SetFieldBits(s, offset, bits, v, j - 1, k);
      PutAtBits(SetField(s, offset, bits, v, j - 1), offset + j - 1, NatBit(v, bits - j), k);
    }
  }

  /** Reading back a field gives what was written, modulo 2^bits. */
  lemma SetThenGet(s: seq<bv8>, offset: nat, bits: nat, v: nat)
    requires offset + bits <= 8 * |s|
    ensures FieldValue(SetField(s, offset, bits, v, bits), offset, bits) == v % Pow2(bits)
    ensures forall k :: 0 <= k && !(offset <= k < offset + bits) ==> PBit(SetField(s, offset, bits, v, bits), k) == PBit(s, k)
  {
    hide PBit, NatBit, SetField, Pow2;
    var t := SetField(s, offset, bits, v, bits);
    forall k | 0 <= k && !(offset <= k < offset + bits) ensures PBit(t, k) == PBit(s, k) {
      SetFieldBits(s, offset, bits, v, bits, k);
    }
    forall k | offset <= k < offset + bits ensures PBit(t, k) == NatBit(v, offset + bits - 1 - k) {
      SetFieldBits(s, offset, bits, v, bits, k);
    }
    FieldOfNumber(t, offset, bits, v);
  }

  method SetUnsignedBitfield(p: array<bv8>, offset: nat, bits: nat, value: nat)
    requires offset + bits <= 8 * p.Length
    modifies p
    ensures p[..] == SetField(old(p[..]), offset, bits, value, bits)
  {
    hide NatBit, PutBit;
    var j := 0;
    var at := offset;
    ghost var s := p[..];
    while j < bits
      invariant 0 <= j <= bits && at == offset + j
      invariant p[..] == SetField(s, offset, bits, value, j)
    {
      var bitval := NatBit(value, bits - 1 - j);
      p[at / 8] := PutBit(p[at / 8], at % 8, bitval);
      at := at + 1;
      j := j + 1;
    }
  }

  method GetUnsignedBitfield(p: seq<bv8>, offset: nat, bits: nat) returns (value: nat)
    requires offset + bits <= 8 * |p|
    ensures value == FieldValue(p, offset, bits)
  {
    hide Bit;
    value := 0;
    var j := 0;
    var at := offset;
    while j < bits
      invariant 0 <= j <= bits && at == offset + j
      invariant value == FieldValue(p, offset, j)
    {
      var bitval := if Bit(p[at / 8], at % 8) then 1 else 0;
      assert bitval == 1 <==> PBit(p, offset + (j + 1) - 1);
      value := 2 * value + bitval;
      at := at + 1;
      j := j + 1;
    }
  }

  // ---------- signed fields ----------

  /** getSignedBitfield on the unsigned value: reinterpret, then copy the sign bit upwards. */
  function SignExtended(u: nat, bits: nat): int
    requires 1 <= bits
  {
    var value := I64(u);
    if bits < 64 && NatBit(u, bits - 1) then I64(U64(value) + (TWO64 - Pow2(bits))) else value
  }

  lemma {:induction false} TopBit(u: nat, bits: nat)
    requires bits >= 1 && u < Pow2(bits)
    ensures NatBit(u, bits - 1) <==> u >= Pow2(bits - 1)
  {
    if bits > 1 {
      TopBit(u / 2, bits - 1);
    }
  }

  lemma SignExtendedIsWrapped(u: nat, bits: nat)
    requires 1 <= bits <= 64 && u < Pow2(bits)
    ensures SignExtended(u, bits) == Wrapped(FieldType(true, bits), u)
  {
    hide NatBit;
    TopBit(u, bits);
    TypeBounds(FieldType(true, bits));
    Pow2Is64();
    ModUnique(u, Pow2(bits), 0, u);
    if bits < 64 {
      I64Fits(u);
      U64Fits(u);
      if u >= Pow2(bits - 1) {
        var x := u + (TWO64 - Pow2(bits));
        ModUnique(x, TWO64, 0, x);
      }
    }
  }

  /** The value of a field as its type reads it. */
  function Read(t: FieldType, s: seq<bv8>, offset: nat): int
    requires t.bits >= 1
  {
    Wrapped(t, FieldValue(s, offset, t.bits))
  }

  lemma ReadIs(t: FieldType, s: seq<bv8>, offset: nat)
    requires IsType(t)
    ensures var u := FieldValue(s, offset, t.bits);
            Read(t, s, offset) == (if t.sign then SignExtended(u, t.bits) else u) && Fits(t, Read(t, s, offset))
  {
    var u := FieldValue(s, offset, t.bits);
    FieldBound(s, offset, t.bits);
    if t.sign {
      SignExtendedIsWrapped(u, t.bits);
    } else {
      WrappedFits(t, u);
    }
  }

  /** Writing a number of the type, as two's complement, and reading it back. */
  lemma WriteThenRead(t: FieldType, s: seq<bv8>, offset: nat, x: int)
    requires IsType(t) && offset + t.bits <= 8 * |s| && Fits(t, x)
    ensures Read(t, SetField(s, offset, t.bits, U64(x), t.bits), offset) == x
  {
    hide SetField, FieldValue, Pow2, U64;
    SetThenGet(s, offset, t.bits, U64(x));
    WrapOfWord(t, x);
    WrappedFits(t, x);
  }

  lemma WrapOfWord(t: FieldType, x: int)
    requires IsType(t)
    ensures Wrapped(t, U64(x) % Pow2(t.bits)) == Wrapped(t, x)
  {
    ModThroughWord(x, t.bits);
    var r := x % Pow2(t.bits);
    ModUnique(r, Pow2(t.bits), 0, r);
  }
}

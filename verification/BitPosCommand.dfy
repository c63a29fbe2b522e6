/** BITPOS with its range arguments: normalised ends, edge masks, and up to three searches. */
module BitPosCommand {
  import opened BitOp
  import opened BitPos

  datatype Value = Missing | Str(bytes: seq<bv8>) | OtherType

  datatype Span = Whole | From(start: int) | Between(start: int, end: int, isbit: bool)

  datatype Reply = WrongType | Position(pos: int)

  // ---------- masks ----------

  /** first_byte_neg_mask: ones before bit `n` of the byte. */
  function FirstMask(n: nat): bv8
    requires n < 8
  {
    ((!(((1 as bv16) << (8 - n)) - 1)) & 0xff) as bv8
  }

  /** last_byte_neg_mask: ones after bit `n` of the byte. */
  function LastMask(n: nat): bv8
    requires n < 8
  {
    ((((1 as bv16) << (7 - n)) - 1) & 0xff) as bv8
  }

  lemma FirstMaskValues()
    ensures FirstMask(0) == 0x00 && FirstMask(1) == 0x80 && FirstMask(2) == 0xc0 && FirstMask(3) == 0xe0
    ensures FirstMask(4) == 0xf0 && FirstMask(5) == 0xf8 && FirstMask(6) == 0xfc && FirstMask(7) == 0xfe
  {
  }

  lemma LastMaskValues()
    ensures LastMask(0) == 0x7f && LastMask(1) == 0x3f && LastMask(2) == 0x1f && LastMask(3) == 0x0f
    ensures LastMask(4) == 0x07 && LastMask(5) == 0x03 && LastMask(6) == 0x01 && LastMask(7) == 0x00
  {
  }

  lemma FirstMaskBits(n: nat, b: nat)
    requires n < 8 && b < 8
    ensures Bit(FirstMask(n), b) <==> b < n
  {
    hide FirstMask;
    FirstMaskValues();
  }

  lemma LastMaskBits(n: nat, b: nat)
    requires n < 8 && b < 8
    ensures Bit(LastMask(n), b) <==> b > n
  {
    hide LastMask;
    LastMaskValues();
  }

  /** The byte with the masked bits turned into ones that are not looked for. */
  function Hide(x: bv8, mask: bv8, bit: bool): bv8 {
    if bit then And(x, Not(mask)) else Or(x, mask)
  }

  lemma HideBits(x: bv8, mask: bv8, bit: bool, b: nat)
    requires b < 8
    ensures Bit(Hide(x, mask, bit), b) == bit <==> Bit(x, b) == bit && !Bit(mask, b)
  {
    hide Bit, And, Or, Not;
    BitAnd(x, Not(mask), b);
    BitNot(mask, b);
    BitOr(x, mask, b);
  }

  // ---------- one search of several ----------

  /** `t` is the part of the string from byte `at`, in which the bits outside the range can no
      longer be found. */
  predicate Chunk(s: seq<bv8>, t: seq<bv8>, bit: bool, at: nat, lo: nat, hi: nat) {
    && at + |t| <= |s|
    && forall i :: 0 <= i < 8 * |t| ==> (BitAt(t, i) == bit <==> lo <= 8 * at + i < hi && BitAt(s, 8 * at + i) == bit)
  }

  function Min(a: int, b: int): int {
    if a <= b then a else b
  }

  /** A search of a chunk, after nothing was found before it. */
  lemma ChunkFound(s: seq<bv8>, t: seq<bv8>, bit: bool, at: nat, lo: nat, hi: nat, pos: int)
    requires hi <= 8 * |s| && Chunk(s, t, bit, at, lo, hi) && Found(t, bit, pos)
    requires 8 * at <= 8 * |s| && NoneIn(s, bit, lo, Min(hi, 8 * at))
    ensures pos != -1 && pos != 8 * |t| ==> FirstIn(s, bit, lo, hi, 8 * at + pos) && 0 <= pos < 8 * |t|
    ensures pos == -1 || pos == 8 * |t| ==> NoneIn(s, bit, lo, Min(hi, 8 * (at + |t|)))
    ensures pos == -1 ==> bit
    ensures pos == 8 * |t| ==> !bit
  {
    hide BitAt;
    if 0 <= pos < 8 * |t| {
      assert BitAt(t, pos) == bit;
      forall i | lo <= i < 8 * at + pos ensures BitAt(s, i) != bit {
        if i >= 8 * at {
          assert BitAt(t, i - 8 * at) != bit;
          assert 8 * at + (i - 8 * at) == i;
        }
      }
    } else {
      forall i | lo <= i < Min(hi, 8 * (at + |t|)) ensures BitAt(s, i) != bit {
        if i >= 8 * at {
          assert BitAt(t, i - 8 * at) != bit;
          assert 8 * at + (i - 8 * at) == i;
        }
      }
    }
  }

  lemma SliceChunk(s: seq<bv8>, bit: bool, at: nat, n: nat, lo: nat, hi: nat)
    requires at + n <= |s| && lo <= 8 * at && 8 * (at + n) <= hi
    ensures Chunk(s, s[at..at + n], bit, at, lo, hi)
  {
    hide Bit;
    var t := s[at..at + n];
    forall i | 0 <= i < 8 * |t| ensures BitAt(t, i) == BitAt(s, 8 * at + i) {
      assert (8 * at + i) / 8 == at + i / 8 && (8 * at + i) % 8 == i % 8;
      assert t[i / 8] == s[at + i / 8];
    }
  }

  lemma ByteChunk(s: seq<bv8>, x: bv8, bit: bool, at: nat, lo: nat, hi: nat)
    requires at < |s|
    requires forall b :: 0 <= b < 8 ==> (Bit(x, b) == bit <==> lo <= 8 * at + b < hi && Bit(s[at], b) == bit)
    ensures Chunk(s, [x], bit, at, lo, hi)
  {
    hide Bit;
    forall i | 0 <= i < 8
      ensures BitAt([x], i) == bit <==> lo <= 8 * at + i < hi && BitAt(s, 8 * at + i) == bit
    {
      assert i / 8 == 0 && i % 8 == i;
      assert (8 * at + i) / 8 == at && (8 * at + i) % 8 == i;
      assert Bit(x, i) == bit <==> lo <= 8 * at + i < hi && Bit(s[at], i) == bit;
    }
  }

  /** A mask is empty when it hides no bit. */
  lemma EmptyMask(mask: bv8)
    ensures mask == 0 <==> forall b :: 0 <= b < 8 ==> !Bit(mask, b)
  {
    hide Bit;
    forall b | 0 <= b < 8 ensures !Bit(0, b) {
      BitConst(b);
    }
    if forall b :: 0 <= b < 8 ==> !Bit(mask, b) {
      ByteByBits(mask, 0);
    }
  }

  /** What the masks stand for: the range of bits from `lo` up to `hi` in the bytes from `start`
      to `end`. */
  ghost predicate Edges(s: seq<bv8>, start: nat, end: nat, first: bv8, last: bv8, lo: nat, hi: nat) {
    && start <= end < |s|
    && 8 * start <= lo < 8 * start + 8 && 8 * end < hi <= 8 * end + 8 && lo < hi
    && (forall b :: 0 <= b < 8 ==> (Bit(first, b) <==> 8 * start + b < lo))
    && (forall b :: 0 <= b < 8 ==> (Bit(last, b) <==> 8 * end + b >= hi))
  }

  lemma NoEdge(s: seq<bv8>, start: nat, end: nat, first: bv8, last: bv8, lo: nat, hi: nat)
    requires Edges(s, start, end, first, last, lo, hi)
    ensures first == 0 <==> lo == 8 * start
    ensures last == 0 <==> hi == 8 * end + 8
  {
    hide Bit;
    EmptyMask(first);
    EmptyMask(last);
    if first == 0 {
      assert !Bit(first, 0);
    }
    if last == 0 {
      assert !Bit(last, 7);
    }
  }

  lemma EdgeChunk(s: seq<bv8>, start: nat, end: nat, first: bv8, last: bv8, lo: nat, hi: nat, bit: bool)
    requires Edges(s, start, end, first, last, lo, hi)
    ensures start < end ==> Chunk(s, [Hide(s[start], first, bit)], bit, start, lo, hi)
    ensures start < end ==> Chunk(s, [Hide(s[end], last, bit)], bit, end, lo, hi)
    ensures start == end && last == 0 ==> Chunk(s, [Hide(s[start], first, bit)], bit, start, lo, hi)
    ensures start == end && first == 0 ==> Chunk(s, [Hide(s[end], last, bit)], bit, end, lo, hi)
    ensures start == end ==> Chunk(s, [Hide(Hide(s[start], first, bit), last, bit)], bit, start, lo, hi)
  {
    hide Bit, Hide;
    NoEdge(s, start, end, first, last, lo, hi);
    var x, y := Hide(s[start], first, bit), Hide(s[end], last, bit);
    var z := Hide(x, last, bit);
    forall b | 0 <= b < 8
      ensures Bit(x, b) == bit <==> 8 * start + b >= lo && Bit(s[start], b) == bit
      ensures Bit(y, b) == bit <==> 8 * end + b < hi && Bit(s[end], b) == bit
      ensures start == end ==> (Bit(z, b) == bit <==> 8 * start + b >= lo && 8 * end + b < hi && Bit(s[start], b) == bit)
    {
      HideBits(s[start], first, bit, b);
      HideBits(s[end], last, bit, b);
      HideBits(x, last, bit, b);
    }
    if start < end {
      ByteChunk(s, x, bit, start, lo, hi);
      ByteChunk(s, y, bit, end, lo, hi);
    } else {
      ByteChunk(s, z, bit, start, lo, hi);
      if last == 0 {
        ByteChunk(s, x, bit, start, lo, hi);
      }
      if first == 0 {
        ByteChunk(s, y, bit, end, lo, hi);
      }
    }
  }

  /** The answer for the bits from `lo` up to `hi`. */
  ghost predicate Answers(s: seq<bv8>, bit: bool, lo: nat, hi: nat, endGiven: bool, pos: int)
    requires hi <= 8 * |s|
  {
    || FirstIn(s, bit, lo, hi, pos)
    || (NoneIn(s, bit, lo, hi) && pos == if endGiven || bit then -1 else hi)
  }

  /** The three searches: the masked first byte, the bytes in between, the masked last byte.
      `address` says how the string lies in memory. */
  method Search(s: seq<bv8>, start0: nat, end: nat, bit: bool, first: bv8, last: bv8, endGiven: bool, address: nat,
                ghost lo: nat, ghost hi: nat) returns (pos: int)
    requires Edges(s, start0, end, first, last, lo, hi)
    requires !endGiven ==> first == 0 && last == 0
    ensures Answers(s, bit, lo, hi, endGiven, pos)
  {
    hide Bit, Hide, Chunk, Found, BitAt, Edges;
    EdgesBounds(s, start0, end, first, last, lo, hi);
    NoEdge(s, start0, end, first, last, lo, hi);
    EdgeChunk(s, start0, end, first, last, lo, hi, bit);
    var start := start0;
    var bytes := end - start + 1;
    if first != 0 {
      var tmp := Hide(s[start], first, bit);
      if last != 0 && bytes == 1 {
        tmp := Hide(tmp, last, bit);
      }
      pos := RedisBitpos([tmp], bit, 0);
      ChunkFound(s, [tmp], bit, start, lo, hi, pos);
      if bytes == 1 || (pos != -1 && pos != 8) {
        pos := Finish(s, bit, start, bytes, 1, endGiven, pos, lo, hi);
        return;
      }
      start := start + 1;
      bytes := bytes - 1;
    }
    var curbytes := bytes - (if last != 0 then 1 else 0);
    if curbytes > 0 {
      SliceChunk(s, bit, start, curbytes, lo, hi);
      pos := RedisBitpos(s[start..start + curbytes], bit, address + start);
      ChunkFound(s, s[start..start + curbytes], bit, start, lo, hi, pos);
      if bytes == curbytes || (pos != -1 && pos != 8 * curbytes) {
        pos := Finish(s, bit, start, bytes, curbytes, endGiven, pos, lo, hi);
        return;
      }
      start := start + curbytes;
      bytes := bytes - curbytes;
    }
    var tmp := Hide(s[end], last, bit);
    pos := RedisBitpos([tmp], bit, 0);
    ChunkFound(s, [tmp], bit, end, lo, hi, pos);
    pos := Finish(s, bit, start, bytes, 1, endGiven, pos, lo, hi);
  }

  lemma EdgesBounds(s: seq<bv8>, start: nat, end: nat, first: bv8, last: bv8, lo: nat, hi: nat)
    requires Edges(s, start, end, first, last, lo, hi)
    ensures start <= end < |s| && 8 * start <= lo < 8 * start + 8 && 8 * end < hi <= 8 * end + 8 && lo < hi
  {
  }

  /** The label `result`: a position just past the searched bytes means not found, when the end
      was given; otherwise the bytes skipped are added. `n` bytes were searched last. */
  method Finish(s: seq<bv8>, bit: bool, start: nat, bytes: nat, n: nat, endGiven: bool, found: int,
                ghost lo: nat, ghost hi: nat) returns (pos: int)
    requires n <= bytes && hi <= 8 * |s| && 8 * (start + bytes) < hi + 8 && hi <= 8 * (start + bytes)
    requires found != -1 && found != 8 * n ==> FirstIn(s, bit, lo, hi, 8 * start + found) && 0 <= found < 8 * n
    requires found == -1 || found == 8 * n ==> n == bytes && NoneIn(s, bit, lo, hi) && bit == (found == -1)
    requires !endGiven ==> hi == 8 * (start + bytes)
    ensures Answers(s, bit, lo, hi, endGiven, pos)
  {
    pos := found;
    if endGiven && !bit && pos == 8 * bytes {
      return -1;
    }
    if pos != -1 {
      pos := pos + 8 * start;
    }
  }

  // ---------- the range arguments ----------

  /** A negative start counts from the end of the string, and never goes before its beginning. */
  function NormalStart(start: int, total: nat): nat {
    if start >= 0 then start else if total + start >= 0 then total + start else 0
  }

  /** The same for an end, which is also cut to the string; -1 for the empty string. */
  function NormalEnd(end: int, total: nat): int {
    Min(NormalStart(end, total), total - 1)
  }

  predicate IsBit(r: Span) {
    r.Between? && r.isbit
  }

  /** The length of the string in the unit of the range. */
  function Total(r: Span, len: nat): nat {
    if IsBit(r) then 8 * len else len
  }

  function FirstUnit(r: Span, len: nat): nat {
    if r.Whole? then 0 else NormalStart(r.start, Total(r, len))
  }

  function LastUnit(r: Span, len: nat): int {
    if r.Between? then NormalEnd(r.end, Total(r, len)) else len - 1
  }

  /** The range as bits: from `Lo` up to but not including `Hi`. */
  function Lo(r: Span, len: nat): nat {
    if IsBit(r) then FirstUnit(r, len) else 8 * FirstUnit(r, len)
  }

  function Hi(r: Span, len: nat): int {
    if IsBit(r) then LastUnit(r, len) + 1 else 8 * (LastUnit(r, len) + 1)
  }

  lemma HiInString(r: Span, len: nat)
    ensures 0 <= Hi(r, len) <= 8 * len
  {
  }

  /** bitposCommand: the least position in the normalised range whose bit has the value. */
  method Bitpos(o: Value, bit: bool, r: Span, address: nat) returns (reply: Reply)
    ensures reply.WrongType? <==> o.OtherType?
    ensures o.Missing? ==> reply == Position(if bit then -1 else 0)
    ensures o.Str? ==> 0 <= Hi(r, |o.bytes|) <= 8 * |o.bytes|
    ensures o.Str? && Lo(r, |o.bytes|) >= Hi(r, |o.bytes|) ==> reply == Position(-1)
    ensures o.Str? && Lo(r, |o.bytes|) < Hi(r, |o.bytes|) ==>
              reply.Position? && Answers(o.bytes, bit, Lo(r, |o.bytes|), Hi(r, |o.bytes|), r.Between?, reply.pos)
  {
    hide Bit, Answers, FirstMask, LastMask, Edges;
    if o.OtherType? {
      return WrongType;
    }
    if o.Missing? {
      return Position(if bit then -1 else 0);
    }
    var len := |o.bytes|;
    HiInString(r, len);
    var totlen := len;
    var start, end := 0, len - 1;
    var isbit := false;
    match r {
      case Whole =>
      case From(s) => start := s;
      case Between(s, e, b) => start, end, isbit := s, e, b;
    }
    if isbit {
      totlen := 8 * totlen;
    }
    if !r.Whole? {
      if start < 0 {
        start := totlen + start;
      }
      if end < 0 {
        end := totlen + end;
      }
      if start < 0 {
        start := 0;
      }
      if end < 0 {
        end := 0;
      }
      if end >= totlen {
        end := totlen - 1;
      }
    }
    assert start == FirstUnit(r, len) && end == LastUnit(r, len);
    if start > end {
      return Position(-1);
    }
    var first, last := 0 as bv8, 0 as bv8;
    if isbit {
      first := FirstMask(start % 8);
      last := LastMask(end % 8);
      start := start / 8;
      end := end / 8;
    }
    MaskEdges(o.bytes, r, start, end, first, last);
    var pos := Search(o.bytes, start, end, bit, first, last, r.Between?, address, Lo(r, len), Hi(r, len));
    return Position(pos);
  }

  lemma MaskEdges(s: seq<bv8>, r: Span, start: nat, end: nat, first: bv8, last: bv8)
    requires FirstUnit(r, |s|) <= LastUnit(r, |s|)
    requires IsBit(r) ==> start == FirstUnit(r, |s|) / 8 && end == LastUnit(r, |s|) / 8 &&
                          first == FirstMask(FirstUnit(r, |s|) % 8) && last == LastMask(LastUnit(r, |s|) % 8)
    requires !IsBit(r) ==> start == FirstUnit(r, |s|) && end == LastUnit(r, |s|) && first == last == 0
    ensures Edges(s, start, end, first, last, Lo(r, |s|), Hi(r, |s|))
  {
    hide Bit, FirstMask, LastMask;
    forall b | 0 <= b < 8
      ensures Bit(first, b) <==> 8 * start + b < Lo(r, |s|)
      ensures Bit(last, b) <==> 8 * end + b >= Hi(r, |s|)
    {
      if IsBit(r) {
        FirstMaskBits(FirstUnit(r, |s|) % 8, b);
        LastMaskBits(LastUnit(r, |s|) % 8, b);
      } else {
        BitConst(b);
      }
    }
  }
}

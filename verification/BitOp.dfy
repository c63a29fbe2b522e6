/**
 BITOP: what each of the eight operators means bit by bit, the byte loop that computes it
 with early exits, and the arithmetic of the fast path that works on whole words.
 */
module BitOp {

  datatype Op = AND | OR | XOR | NOT | DIFF | DIFF1 | ANDOR | ONE

  // ---------- the meaning, one bit position at a time ----------

  function Ones(bits: seq<bool>): nat {
    if bits == [] then 0 else (if bits[0] then 1 else 0) + Ones(bits[1..])
  }

  /** The result bit for the bits of the sources at one position. */
  predicate OpBit(op: Op, bits: seq<bool>)
    requires bits != []
  {
    match op
    case AND => Ones(bits) == |bits|
    case OR => Ones(bits) > 0
    case XOR => Ones(bits) % 2 == 1
    case NOT => !bits[0]
    case DIFF => bits[0] && Ones(bits[1..]) == 0
    case DIFF1 => !bits[0] && Ones(bits[1..]) > 0
    case ANDOR => bits[0] && Ones(bits[1..]) > 0
    case ONE => Ones(bits) == 1
  }

  lemma {:induction false} OnesSnoc(bits: seq<bool>, x: bool)
    ensures Ones(bits + [x]) == Ones(bits) + (if x then 1 else 0)
    ensures Ones(bits) <= |bits|
  {
    if bits == [] {
      assert (bits + [x])[1..] == [];
    } else {
      assert (bits + [x])[1..] == bits[1..] + [x];
      OnesSnoc(bits[1..], x);
    }
  }

  // ---------- bits of a byte ----------

  function Mask(b: nat): bv8
    requires b < 8
  {
    match b
    case 0 => 0x80
    case 1 => 0x40
    case 2 => 0x20
    case 3 => 0x10
    case 4 => 0x08
    case 5 => 0x04
    case 6 => 0x02
    case _ => 0x01
  }

  /** Bit `b` of a byte, the most significant first. */
  predicate Bit(v: bv8, b: nat)
    requires b < 8
  {
    v & Mask(b) != 0
  }

  // The C operators on unsigned char, named so that proofs can treat them abstractly.

  function And(x: bv8, y: bv8): bv8 { x & y }

  function Or(x: bv8, y: bv8): bv8 { x | y }

  function Xor(x: bv8, y: bv8): bv8 { x ^ y }

  function Not(x: bv8): bv8 { !x }

  predicate Single(m: bv8) {
    m != 0 && m & (m - 1) == 0
  }

  lemma MaskIsSingle(b: nat)
    requires b < 8
    ensures Single(Mask(b))
  {
  }

  lemma AndAt(x: bv8, y: bv8, m: bv8)
    requires Single(m)
    ensures (x & y) & m != 0 <==> x & m != 0 && y & m != 0
  {
  }

  lemma OrAt(x: bv8, y: bv8, m: bv8)
    ensures (x | y) & m != 0 <==> x & m != 0 || y & m != 0
  {
  }

  lemma XorAt(x: bv8, y: bv8, m: bv8)
    requires Single(m)
    ensures (x ^ y) & m != 0 <==> !(x & m != 0 <==> y & m != 0)
  {
  }

  lemma NotAt(x: bv8, m: bv8)
    requires Single(m)
    ensures !x & m != 0 <==> x & m == 0
  {
  }

  lemma BitAnd(x: bv8, y: bv8, b: nat)
    requires b < 8
    ensures Bit(And(x, y), b) <==> Bit(x, b) && Bit(y, b)
  {
    hide Mask, Single;
    MaskIsSingle(b);
    AndAt(x, y, Mask(b));
  }

  lemma BitOr(x: bv8, y: bv8, b: nat)
    requires b < 8
    ensures Bit(Or(x, y), b) <==> Bit(x, b) || Bit(y, b)
  {
    hide Mask, Single;
    OrAt(x, y, Mask(b));
  }

  lemma BitXor(x: bv8, y: bv8, b: nat)
    requires b < 8
    ensures Bit(Xor(x, y), b) <==> Bit(x, b) != Bit(y, b)
  {
    hide Mask, Single;
    MaskIsSingle(b);
    XorAt(x, y, Mask(b));
  }

  lemma BitNot(x: bv8, b: nat)
    requires b < 8
    ensures Bit(Not(x), b) <==> !Bit(x, b)
  {
    hide Mask, Single;
    MaskIsSingle(b);
    NotAt(x, Mask(b));
  }

  lemma BitConst(b: nat)
    requires b < 8
    ensures !Bit(0, b) && Bit(0xff, b)
  {
  }

  /** A byte is its bits. */
  lemma ByteByBits(x: bv8, y: bv8)
    requires forall b :: 0 <= b < 8 ==> (Bit(x, b) <==> Bit(y, b))
    ensures x == y
  {
    assert Bit(x, 0) <==> Bit(y, 0);
    assert Bit(x, 1) <==> Bit(y, 1);
    assert Bit(x, 2) <==> Bit(y, 2);
    assert Bit(x, 3) <==> Bit(y, 3);
    assert Bit(x, 4) <==> Bit(y, 4);
    assert Bit(x, 5) <==> Bit(y, 5);
    assert Bit(x, 6) <==> Bit(y, 6);
    assert Bit(x, 7) <==> Bit(y, 7);
  }

  // ---------- the byte loop ----------

  /** The variables of the loop over the sources. */
  datatype Acc = Acc(output: bv8, disjunction: bv8, common: bv8)

  function Start(op: Op, first: bv8): Acc {
    Acc(if op == NOT then Not(first) else first, 0, 0)
  }

  function Step(op: Op, a: Acc, byte: bv8): Acc {
    match op
    case AND => a.(output := And(a.output, byte))
    case OR => a.(output := Or(a.output, byte))
    case XOR => a.(output := Xor(a.output, byte))
    case NOT => a
    case DIFF => a.(disjunction := Or(a.disjunction, byte))
    case DIFF1 => a.(disjunction := Or(a.disjunction, byte))
    case ANDOR => a.(disjunction := Or(a.disjunction, byte))
    case ONE =>
      var common := Or(a.common, And(a.output, byte));
      a.(common := common, output := And(Xor(a.output, byte), Not(common)))
  }

  /** Whether the loop over the sources stops early. */
  predicate Skip(op: Op, a: Acc) {
    match op
    case AND => a.output == 0
    case OR => a.output == 0xff
    case XOR => false
    case NOT => false
    case DIFF => a.disjunction == 0xff
    case DIFF1 => a.disjunction == 0xff
    case ANDOR => a.disjunction == 0xff
    case ONE => a.common == 0xff
  }

  function Finish(op: Op, a: Acc): bv8 {
    match op
    case DIFF => And(a.output, Not(a.disjunction))
    case DIFF1 => And(Not(a.output), a.disjunction)
    case ANDOR => And(a.output, a.disjunction)
    case _ => a.output
  }

  function Fold(op: Op, a: Acc, bytes: seq<bv8>): Acc
    decreases |bytes|
  {
    if bytes == [] then a else Fold(op, Step(op, a, bytes[0]), bytes[1..])
  }

  /** One result byte, without early exits. */
  function ByteOp(op: Op, column: seq<bv8>): bv8
    requires column != []
  {
    Finish(op, Fold(op, Start(op, column[0]), column[1..]))
  }

  function BitsAt(column: seq<bv8>, b: nat): (r: seq<bool>)
    requires b < 8
    ensures |r| == |column| && forall i :: 0 <= i < |r| ==> r[i] == Bit(column[i], b)
  {
    seq(|column|, i requires 0 <= i < |column| => Bit(column[i], b))
  }

  /** What the loop's variables mean after the sources whose bits are `seen`. */
  predicate Tracks(op: Op, a: Acc, seen: seq<bool>, b: nat)
    requires b < 8 && seen != []
  {
    match op
    case AND => Bit(a.output, b) <==> Ones(seen) == |seen|
    case OR => Bit(a.output, b) <==> Ones(seen) > 0
    case XOR => Bit(a.output, b) <==> Ones(seen) % 2 == 1
    case NOT => Bit(a.output, b) <==> !seen[0]
    case ONE => (Bit(a.output, b) <==> Ones(seen) == 1) && (Bit(a.common, b) <==> Ones(seen) >= 2)
    case _ => (Bit(a.output, b) <==> seen[0]) && (Bit(a.disjunction, b) <==> Ones(seen[1..]) > 0)
  }

  lemma StartTracks(op: Op, first: bv8, b: nat)
    requires b < 8
    ensures Tracks(op, Start(op, first), [Bit(first, b)], b)
  {
    BitNot(first, b);
    BitConst(b);
    assert [Bit(first, b)][1..] == [];
    assert Ones([Bit(first, b)][1..]) == 0;
  }

  /** One step of the loop at one bit position. */
  lemma StepAt(op: Op, a: Acc, byte: bv8, b: nat)
    requires b < 8
    ensures var t := Step(op, a, byte);
            var x := Bit(byte, b);
            match op
            case AND => Bit(t.output, b) <==> Bit(a.output, b) && x
            case OR => Bit(t.output, b) <==> Bit(a.output, b) || x
            case XOR => Bit(t.output, b) <==> Bit(a.output, b) != x
            case NOT => Bit(t.output, b) <==> Bit(a.output, b)
            case ONE =>
              && (Bit(t.common, b) <==> Bit(a.common, b) || (Bit(a.output, b) && x))
              && (Bit(t.output, b) <==> Bit(a.output, b) != x && !Bit(t.common, b))
            case _ =>
              && (Bit(t.output, b) <==> Bit(a.output, b))
              && (Bit(t.disjunction, b) <==> Bit(a.disjunction, b) || x)
  {
    hide Bit, And, Or, Xor, Not;
    match op
    case AND => BitAnd(a.output, byte, b);
    case OR => BitOr(a.output, byte, b);
    case XOR => BitXor(a.output, byte, b);
    case NOT =>
    case ONE =>
      var common := Or(a.common, And(a.output, byte));
      BitAnd(a.output, byte, b);
      BitOr(a.common, And(a.output, byte), b);
      BitXor(a.output, byte, b);
      BitAnd(Xor(a.output, byte), Not(common), b);
      BitNot(common, b);
    case _ => BitOr(a.disjunction, byte, b);
  }

  lemma StepTracks(op: Op, a: Acc, seen: seq<bool>, byte: bv8, b: nat)
    requires b < 8 && seen != [] && Tracks(op, a, seen, b)
    ensures Tracks(op, Step(op, a, byte), seen + [Bit(byte, b)], b)
  {
    hide Bit, Step;
    StepAt(op, a, byte, b);
    OnesSnoc(seen, Bit(byte, b));
    OnesSnoc(seen[1..], Bit(byte, b));
    assert (seen + [Bit(byte, b)])[1..] == seen[1..] + [Bit(byte, b)];
  }

  lemma {:induction false} FoldTracks(op: Op, a: Acc, seen: seq<bool>, bytes: seq<bv8>, b: nat)
    requires b < 8 && seen != [] && Tracks(op, a, seen, b)
    ensures Tracks(op, Fold(op, a, bytes), seen + BitsAt(bytes, b), b)
    decreases |bytes|
  {
    hide Tracks, Step, Bit;
    if bytes == [] {
      assert seen + BitsAt(bytes, b) == seen;
    } else {
      StepTracks(op, a, seen, bytes[0], b);
      FoldTracks(op, Step(op, a, bytes[0]), seen + [Bit(bytes[0], b)], bytes[1..], b);
      assert seen + [Bit(bytes[0], b)] + BitsAt(bytes[1..], b) == seen + BitsAt(bytes, b);
    }
  }

  lemma FinishAt(op: Op, a: Acc, b: nat)
    requires b < 8
    ensures Bit(Finish(op, a), b) <==>
            match op
            case DIFF => Bit(a.output, b) && !Bit(a.disjunction, b)
            case DIFF1 => !Bit(a.output, b) && Bit(a.disjunction, b)
            case ANDOR => Bit(a.output, b) && Bit(a.disjunction, b)
            case _ => Bit(a.output, b)
  {
    hide Bit, And, Or, Xor, Not;
    match op
    case DIFF =>
      BitAnd(a.output, Not(a.disjunction), b);
      BitNot(a.disjunction, b);
    case DIFF1 =>
      BitAnd(Not(a.output), a.disjunction, b);
      BitNot(a.output, b);
    case ANDOR => BitAnd(a.output, a.disjunction, b);
    case _ =>
  }

  lemma FinishTracks(op: Op, a: Acc, seen: seq<bool>, b: nat)
    requires b < 8 && seen != [] && Tracks(op, a, seen, b)
    ensures Bit(Finish(op, a), b) <==> OpBit(op, seen)
  {
    hide Bit, Finish;
    FinishAt(op, a, b);
  }

  /** Each bit of the byte loop's result has the operator's meaning. */
  lemma ByteOpMeans(op: Op, column: seq<bv8>, b: nat)
    requires b < 8 && column != []
    ensures Bit(ByteOp(op, column), b) <==> OpBit(op, BitsAt(column, b))
  {
    hide Tracks, Bit, Finish, OpBit;
    StartTracks(op, column[0], b);
    FoldTracks(op, Start(op, column[0]), [Bit(column[0], b)], column[1..], b);
    var seen := [Bit(column[0], b)] + BitsAt(column[1..], b);
    assert seen == BitsAt(column, b);
    FinishTracks(op, Fold(op, Start(op, column[0]), column[1..]), seen, b);
  }

  // ---------- early exits ----------

  /** Once the loop may stop, the remaining sources cannot change the result. */
  lemma {:induction false} SkipIsSafe(op: Op, a: Acc, bytes: seq<bv8>)
    requires Skip(op, a) && (op == ONE ==> a.output == 0)
    ensures Finish(op, Fold(op, a, bytes)) == Finish(op, a)
    decreases |bytes|
  {
    if bytes != [] {
      var a' := Step(op, a, bytes[0]);
      SkipStep(op, a, bytes[0]);
      SkipIsSafe(op, a', bytes[1..]);
    }
  }

  lemma SkipStep(op: Op, a: Acc, byte: bv8)
    requires Skip(op, a) && (op == ONE ==> a.output == 0)
    ensures Step(op, a, byte) == a
  {
  }

  lemma StepEmptiesCommon(a: Acc, byte: bv8)
    ensures Step(ONE, a, byte).common == 0xff ==> Step(ONE, a, byte).output == 0
  {
  }

  // ---------- words ----------

  /** Byte `k` of a word. */
  function Lane(w: bv64, k: nat): bv8
    requires k < 8
  {
    match k
    case 0 => (w & 0xff) as bv8
    case 1 => ((w >> 8) & 0xff) as bv8
    case 2 => ((w >> 16) & 0xff) as bv8
    case 3 => ((w >> 24) & 0xff) as bv8
    case 4 => ((w >> 32) & 0xff) as bv8
    case 5 => ((w >> 40) & 0xff) as bv8
    case 6 => ((w >> 48) & 0xff) as bv8
    case _ => ((w >> 56) & 0xff) as bv8
  }

  /** Eight bytes of memory as one word. */
  function Word(s: seq<bv8>): bv64
    requires |s| == 8
  {
    (s[0] as bv64) | ((s[1] as bv64) << 8) | ((s[2] as bv64) << 16) | ((s[3] as bv64) << 24) |
    ((s[4] as bv64) << 32) | ((s[5] as bv64) << 40) | ((s[6] as bv64) << 48) | ((s[7] as bv64) << 56)
  }

  function WAnd(x: bv64, y: bv64): bv64 { x & y }

  function WOr(x: bv64, y: bv64): bv64 { x | y }

  function WXor(x: bv64, y: bv64): bv64 { x ^ y }

  function WNot(x: bv64): bv64 { !x }

  lemma LaneOr(x: bv64, y: bv64, k: nat)
    requires k < 8
    ensures Lane(WOr(x, y), k) == Or(Lane(x, k), Lane(y, k))
  {
    match k
    case 0 =>
    case 1 =>
    case 2 =>
    case 3 =>
    case 4 =>
    case 5 =>
    case 6 =>
    case _ =>
  }

  lemma LaneXor(x: bv64, y: bv64, k: nat)
    requires k < 8
    ensures Lane(WXor(x, y), k) == Xor(Lane(x, k), Lane(y, k))
  {
    match k
    case 0 =>
    case 1 =>
    case 2 =>
    case 3 =>
    case 4 =>
    case 5 =>
    case 6 =>
    case _ =>
  }

  lemma LaneConst(k: nat)
    requires k < 8
    ensures Lane(0xffff_ffff_ffff_ffff, k) == 0xff && Lane(0, k) == 0
  {
  }

  lemma NotIsXor(x: bv64, y: bv8)
    ensures WNot(x) == WXor(x, 0xffff_ffff_ffff_ffff) && Not(y) == Xor(y, 0xff)
  {
  }

  lemma LaneNot(x: bv64, k: nat)
    requires k < 8
    ensures Lane(WNot(x), k) == Not(Lane(x, k))
  {
    hide Lane, WNot, WXor, Not, Xor;
    NotIsXor(x, Lane(x, k));
    LaneXor(x, 0xffff_ffff_ffff_ffff, k);
    LaneConst(k);
  }

  lemma DeMorgan(x: bv64, y: bv64, a: bv8, b: bv8)
    ensures WAnd(x, y) == WNot(WOr(WNot(x), WNot(y))) && And(a, b) == Not(Or(Not(a), Not(b)))
  {
  }

  lemma LaneAnd(x: bv64, y: bv64, k: nat)
    requires k < 8
    ensures Lane(WAnd(x, y), k) == And(Lane(x, k), Lane(y, k))
  {
    hide Lane, WAnd, WOr, WNot, And, Or, Not;
    DeMorgan(x, y, Lane(x, k), Lane(y, k));
    LaneNot(x, k);
    LaneNot(y, k);
    LaneOr(WNot(x), WNot(y), k);
    LaneNot(WOr(WNot(x), WNot(y)), k);
  }

  lemma LaneOfWord(s: seq<bv8>, k: nat)
    requires |s| == 8 && k < 8
    ensures Lane(Word(s), k) == s[k]
  {
  }
}

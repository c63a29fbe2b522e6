/**
 The word-at-a-time path of BITOP gives, byte for byte, what the byte loop gives. It differs
 from the byte loop for ONE, where bits seen twice are cleared only at the end, and for the
 operators that combine the first source with the disjunction of the others in a second pass.
 */
module BitOpFast {
  import opened BitOp

  predicate Combines(op: Op) {
    op == DIFF || op == DIFF1 || op == ANDOR
  }

  // ---------- one byte of a word ----------

  datatype FastAcc = FastAcc(res: bv8, common: bv8)

  function FastStart(op: Op, first: bv8): FastAcc {
    FastAcc(if Combines(op) then 0 else first, 0)
  }

  function FastStep(op: Op, a: FastAcc, byte: bv8): FastAcc {
    match op
    case AND => a.(res := And(a.res, byte))
    case XOR => a.(res := Xor(a.res, byte))
    case NOT => a
    case ONE => FastAcc(Xor(a.res, byte), Or(a.common, And(a.res, byte)))
    case _ => a.(res := Or(a.res, byte))
  }

  function FastFold(op: Op, a: FastAcc, bytes: seq<bv8>): FastAcc
    decreases |bytes|
  {
    if bytes == [] then a else FastFold(op, FastStep(op, a, bytes[0]), bytes[1..])
  }

  /** What the first pass leaves in the result. */
  function FirstPass(op: Op, a: FastAcc): bv8 {
    match op
    case NOT => Not(a.res)
    case ONE => And(a.res, Not(a.common))
    case _ => a.res
  }

  function SecondPass(op: Op, first: bv8, r: bv8): bv8 {
    match op
    case DIFF => And(first, Not(r))
    case DIFF1 => And(Not(first), r)
    case ANDOR => And(first, r)
    case _ => r
  }

  function FastByte(op: Op, column: seq<bv8>): bv8
    requires column != []
  {
    SecondPass(op, column[0], FirstPass(op, FastFold(op, FastStart(op, column[0]), column[1..])))
  }

  /** What the first pass knows after the sources whose bits are `seen`. */
  predicate FastTracks(op: Op, a: FastAcc, seen: seq<bool>, b: nat)
    requires b < 8 && seen != []
  {
    match op
    case AND => Bit(a.res, b) <==> Ones(seen) == |seen|
    case OR => Bit(a.res, b) <==> Ones(seen) > 0
    case XOR => Bit(a.res, b) <==> Ones(seen) % 2 == 1
    case NOT => Bit(a.res, b) <==> seen[0]
    case ONE => (Bit(a.res, b) <==> Ones(seen) % 2 == 1) && (Bit(a.common, b) <==> Ones(seen) >= 2)
    case _ => Bit(a.res, b) <==> Ones(seen[1..]) > 0
  }

  lemma FastStartTracks(op: Op, first: bv8, b: nat)
    requires b < 8
    ensures FastTracks(op, FastStart(op, first), [Bit(first, b)], b)
  {
    BitConst(b);
    assert [Bit(first, b)][1..] == [];
    assert Ones([Bit(first, b)][1..]) == 0;
  }

  lemma FastStepAt(op: Op, a: FastAcc, byte: bv8, b: nat)
    requires b < 8
    ensures var t := FastStep(op, a, byte);
            var x := Bit(byte, b);
            match op
            case AND => Bit(t.res, b) <==> Bit(a.res, b) && x
            case XOR => Bit(t.res, b) <==> Bit(a.res, b) != x
            case NOT => Bit(t.res, b) <==> Bit(a.res, b)
            case ONE =>
              && (Bit(t.res, b) <==> Bit(a.res, b) != x)
              && (Bit(t.common, b) <==> Bit(a.common, b) || (Bit(a.res, b) && x))
            case _ => Bit(t.res, b) <==> Bit(a.res, b) || x
  {
    hide Bit, And, Or, Xor, Not;
    BitAnd(a.res, byte, b);
    BitOr(a.res, byte, b);
    BitXor(a.res, byte, b);
    BitOr(a.common, And(a.res, byte), b);
  }

  lemma FastStepTracks(op: Op, a: FastAcc, seen: seq<bool>, byte: bv8, b: nat)
    requires b < 8 && seen != [] && FastTracks(op, a, seen, b)
    ensures FastTracks(op, FastStep(op, a, byte), seen + [Bit(byte, b)], b)
  {
    hide Bit, FastStep;
    FastStepAt(op, a, byte, b);
    OnesSnoc(seen, Bit(byte, b));
    OnesSnoc(seen[1..], Bit(byte, b));
    assert (seen + [Bit(byte, b)])[1..] == seen[1..] + [Bit(byte, b)];
  }

  lemma {:induction false} FastFoldTracks(op: Op, a: FastAcc, seen: seq<bool>, bytes: seq<bv8>, b: nat)
    requires b < 8 && seen != [] && FastTracks(op, a, seen, b)
    ensures FastTracks(op, FastFold(op, a, bytes), seen + BitsAt(bytes, b), b)
    decreases |bytes|
  {
    hide FastTracks, FastStep, Bit;
    if bytes == [] {
      assert seen + BitsAt(bytes, b) == seen;
    } else {
      FastStepTracks(op, a, seen, bytes[0], b);
      FastFoldTracks(op, FastStep(op, a, bytes[0]), seen + [Bit(bytes[0], b)], bytes[1..], b);
      assert seen + [Bit(bytes[0], b)] + BitsAt(bytes[1..], b) == seen + BitsAt(bytes, b);
    }
  }

  lemma FastFinishAt(op: Op, first: bv8, a: FastAcc, b: nat)
    requires b < 8
    ensures Bit(SecondPass(op, first, FirstPass(op, a)), b) <==>
            match op
            case NOT => !Bit(a.res, b)
            case ONE => Bit(a.res, b) && !Bit(a.common, b)
            case DIFF => Bit(first, b) && !Bit(a.res, b)
            case DIFF1 => !Bit(first, b) && Bit(a.res, b)
            case ANDOR => Bit(first, b) && Bit(a.res, b)
            case _ => Bit(a.res, b)
  {
    hide Bit, And, Or, Xor, Not;
    BitNot(a.res, b);
    BitNot(a.common, b);
    BitNot(first, b);
    BitAnd(a.res, Not(a.common), b);
    BitAnd(first, Not(a.res), b);
    BitAnd(Not(first), a.res, b);
    BitAnd(first, a.res, b);
  }

  lemma FastByteMeans(op: Op, column: seq<bv8>, b: nat)
    requires b < 8 && column != []
    ensures Bit(FastByte(op, column), b) <==> OpBit(op, BitsAt(column, b))
  {
    hide Bit, FirstPass, SecondPass;
    FastStartTracks(op, column[0], b);
    FastFoldTracks(op, FastStart(op, column[0]), [Bit(column[0], b)], column[1..], b);
    var seen := [Bit(column[0], b)] + BitsAt(column[1..], b);
    assert seen == BitsAt(column, b);
    FastFinishAt(op, column[0], FastFold(op, FastStart(op, column[0]), column[1..]), b);
  }

  /** The fast path and the byte loop agree on every column of bytes. */
  lemma FastIsSlow(op: Op, column: seq<bv8>)
    requires column != []
    ensures FastByte(op, column) == ByteOp(op, column)
  {
    hide Bit, FastByte, ByteOp, OpBit;
    forall b | 0 <= b < 8 ensures Bit(FastByte(op, column), b) <==> Bit(ByteOp(op, column), b) {
      FastByteMeans(op, column, b);
      ByteOpMeans(op, column, b);
    }
    ByteByBits(FastByte(op, column), ByteOp(op, column));
  }

  // ---------- whole words ----------

  datatype WordAcc = WordAcc(res: bv64, common: bv64)

  function WordStart(op: Op, first: bv64): WordAcc {
    WordAcc(if Combines(op) then 0 else first, 0)
  }

  function WordStep(op: Op, a: WordAcc, w: bv64): WordAcc {
    match op
    case AND => a.(res := WAnd(a.res, w))
    case XOR => a.(res := WXor(a.res, w))
    case NOT => a
    case ONE => WordAcc(WXor(a.res, w), WOr(a.common, WAnd(a.res, w)))
    case _ => a.(res := WOr(a.res, w))
  }

  function WordFold(op: Op, a: WordAcc, words: seq<bv64>): WordAcc
    decreases |words|
  {
    if words == [] then a else WordFold(op, WordStep(op, a, words[0]), words[1..])
  }

  function WordFirstPass(op: Op, a: WordAcc): bv64 {
    match op
    case NOT => WNot(a.res)
    case ONE => WAnd(a.res, WNot(a.common))
    case _ => a.res
  }

  function WordSecondPass(op: Op, first: bv64, r: bv64): bv64 {
    match op
    case DIFF => WAnd(first, WNot(r))
    case DIFF1 => WAnd(WNot(first), r)
    case ANDOR => WAnd(first, r)
    case _ => r
  }

  function Lanes(words: seq<bv64>, k: nat): (r: seq<bv8>)
    requires k < 8
    ensures |r| == |words| && forall i :: 0 <= i < |r| ==> r[i] == Lane(words[i], k)
  {
    seq(|words|, i requires 0 <= i < |words| => Lane(words[i], k))
  }

  function LaneAcc(a: WordAcc, k: nat): FastAcc
    requires k < 8
  {
    FastAcc(Lane(a.res, k), Lane(a.common, k))
  }

  lemma WordStepLane(op: Op, a: WordAcc, w: bv64, k: nat)
    requires k < 8
    ensures LaneAcc(WordStep(op, a, w), k) == FastStep(op, LaneAcc(a, k), Lane(w, k))
  {
    hide Lane, And, Or, Xor, Not, WAnd, WOr, WXor, WNot;
    LaneAnd(a.res, w, k);
    LaneOr(a.res, w, k);
    LaneXor(a.res, w, k);
    LaneOr(a.common, WAnd(a.res, w), k);
  }

  lemma {:induction false} WordFoldLane(op: Op, a: WordAcc, words: seq<bv64>, k: nat)
    requires k < 8
    ensures LaneAcc(WordFold(op, a, words), k) == FastFold(op, LaneAcc(a, k), Lanes(words, k))
    decreases |words|
  {
    hide Lane, WordStep, FastStep, LaneAcc;
    if words != [] {
      WordStepLane(op, a, words[0], k);
      WordFoldLane(op, WordStep(op, a, words[0]), words[1..], k);
      assert Lanes(words, k)[1..] == Lanes(words[1..], k);
    }
  }

  lemma FirstPassLane(op: Op, a: WordAcc, k: nat)
    requires k < 8
    ensures Lane(WordFirstPass(op, a), k) == FirstPass(op, LaneAcc(a, k))
  {
    hide Lane, And, Or, Xor, Not, WAnd, WOr, WXor, WNot;
    LaneNot(a.res, k);
    LaneNot(a.common, k);
    LaneAnd(a.res, WNot(a.common), k);
  }

  lemma SecondPassLane(op: Op, first: bv64, r: bv64, k: nat)
    requires k < 8
    ensures Lane(WordSecondPass(op, first, r), k) == SecondPass(op, Lane(first, k), Lane(r, k))
  {
    hide Lane, And, Or, Xor, Not, WAnd, WOr, WXor, WNot;
    match op
    case DIFF =>
      LaneNot(r, k);
      LaneAnd(first, WNot(r), k);
    case DIFF1 =>
      LaneNot(first, k);
      LaneAnd(WNot(first), r, k);
    case ANDOR => LaneAnd(first, r, k);
    case _ =>
  }

  function WordFirst(op: Op, words: seq<bv64>): bv64
    requires words != []
  {
    WordFirstPass(op, WordFold(op, WordStart(op, words[0]), words[1..]))
  }

  /** Both passes over a column of words, seen one byte at a time. */
  lemma WordIsBytes(op: Op, words: seq<bv64>, k: nat)
    requires k < 8 && words != []
    ensures Lane(WordSecondPass(op, words[0], WordFirst(op, words)), k) == ByteOp(op, Lanes(words, k))
  {
    hide Lane, WordFold, FastFold, WordFirstPass, WordSecondPass, FirstPass, SecondPass, ByteOp;
    var a := WordFold(op, WordStart(op, words[0]), words[1..]);
    WordFoldLane(op, WordStart(op, words[0]), words[1..], k);
    assert LaneAcc(WordStart(op, words[0]), k) == FastStart(op, Lane(words[0], k)) by {
      LaneConst(k);
    }
    FirstPassLane(op, a, k);
    SecondPassLane(op, words[0], WordFirst(op, words), k);
    assert Lanes(words, k)[1..] == Lanes(words[1..], k);
    FastIsSlow(op, Lanes(words, k));
  }
}

/** The computation inside BITOP: argument checks, the word path, then the byte loop. */
module BitOpCommand {
  import opened BitOp
  import opened BitOpFast

  /** A source key: missing, a string, or something else. */
  datatype Source = Missing | Str(bytes: seq<bv8>) | OtherType

  datatype Reply = SyntaxError | WrongType | Result(bytes: seq<bv8>)

  /** A missing key is an empty string. */
  function Bytes(s: Source): seq<bv8> {
    if s.Str? then s.bytes else []
  }

  function ByteAt(s: seq<bv8>, j: nat): bv8 {
    if j < |s| then s[j] else 0
  }

  /** The bytes of all sources at one position, padded with zeros. */
  function Column(srcs: seq<seq<bv8>>, j: nat): (r: seq<bv8>)
    ensures |r| == |srcs| && forall i :: 0 <= i < |r| ==> r[i] == ByteAt(srcs[i], j)
  {
    seq(|srcs|, i requires 0 <= i < |srcs| => ByteAt(srcs[i], j))
  }

  function MaxLen(srcs: seq<seq<bv8>>): nat {
    if srcs == [] then 0
    else var m := MaxLen(srcs[1..]); if |srcs[0]| > m then |srcs[0]| else m
  }

  /** Bit `b` of byte `j` of a source, zero past its end. */
  predicate SourceBit(s: Source, j: nat, b: nat)
    requires b < 8
  {
    j < |Bytes(s)| && Bit(Bytes(s)[j], b)
  }

  function SourceBits(keys: seq<Source>, j: nat, b: nat): (r: seq<bool>)
    requires b < 8
    ensures |r| == |keys| && forall i :: 0 <= i < |r| ==> r[i] == SourceBit(keys[i], j, b)
  {
    seq(|keys|, i requires 0 <= i < |keys| => SourceBit(keys[i], j, b))
  }

  function AllBytes(keys: seq<Source>): (r: seq<seq<bv8>>)
    ensures |r| == |keys| && forall i :: 0 <= i < |r| ==> r[i] == Bytes(keys[i])
  {
    seq(|keys|, i requires 0 <= i < |keys| => Bytes(keys[i]))
  }

  lemma {:induction false} FoldSnoc(op: Op, a: Acc, bytes: seq<bv8>, x: bv8)
    ensures Fold(op, a, bytes + [x]) == Step(op, Fold(op, a, bytes), x)
    decreases |bytes|
  {
    hide Step;
    if bytes == [] {
      assert (bytes + [x])[1..] == [];
    } else {
      assert (bytes + [x])[1..] == bytes[1..] + [x];
      FoldSnoc(op, Step(op, a, bytes[0]), bytes[1..], x);
    }
  }

  lemma {:induction false} FoldConcat(op: Op, a: Acc, x: seq<bv8>, y: seq<bv8>)
    ensures Fold(op, a, x + y) == Fold(op, Fold(op, a, x), y)
    decreases |x|
  {
    hide Step;
    if x == [] {
      assert x + y == y;
    } else {
      assert (x + y)[1..] == x[1..] + y;
      FoldConcat(op, Step(op, a, x[0]), x[1..], y);
    }
  }

  lemma {:induction false} WordFoldSnoc(op: Op, a: WordAcc, words: seq<bv64>, w: bv64)
    ensures WordFold(op, a, words + [w]) == WordStep(op, WordFold(op, a, words), w)
    decreases |words|
  {
    hide WordStep;
    if words == [] {
      assert (words + [w])[1..] == [];
    } else {
      assert (words + [w])[1..] == words[1..] + [w];
      WordFoldSnoc(op, WordStep(op, a, words[0]), words[1..], w);
    }
  }

  // ---------- the byte loop ----------

  /** The loop over the sources for one byte, which stops as soon as nothing can change. */
  method ByteColumn(op: Op, srcs: seq<seq<bv8>>, j: nat) returns (r: bv8)
    requires srcs != []
    ensures r == ByteOp(op, Column(srcs, j))
  {
    hide Step, Skip, Finish, Start;
    ghost var column := Column(srcs, j);
    var a := Start(op, if |srcs[0]| <= j then 0 else srcs[0][j]);
    ghost var start := a;
    var i := 1;
    while i < |srcs|
      invariant 1 <= i <= |srcs|
      invariant a == Fold(op, start, column[1..i])
    {
      var byte := if |srcs[i]| <= j then 0 else srcs[i][j];
      FoldSnoc(op, start, column[1..i], byte);
      assert column[1..i + 1] == column[1..i] + [byte];
      ghost var before := a;
      a := Step(op, a, byte);
      i := i + 1;
      if Skip(op, a) {
        FoldConcat(op, start, column[1..i], column[i..]);
        assert column[1..] == column[1..i] + column[i..];
        SafeToSkip(op, before, byte, column[i..]);
        break;
      }
    }
    assert i == |srcs| ==> column[1..i] == column[1..];
    r := Finish(op, a);
  }

  lemma SafeToSkip(op: Op, before: Acc, byte: bv8, rest: seq<bv8>)
    requires Skip(op, Step(op, before, byte))
    ensures Finish(op, Fold(op, Step(op, before, byte), rest)) == Finish(op, Step(op, before, byte))
  {
    hide Step, Finish;
    assert op == ONE ==> Step(op, before, byte).output == 0 by {
      if op == ONE {
        StepEmptiesCommon(before, byte);
      }
    }
    SkipIsSafe(op, Step(op, before, byte), rest);
  }

  // ---------- words in memory ----------

  function WordAt(s: seq<bv8>, pos: nat): bv64
    requires pos + 8 <= |s|
  {
    Word(s[pos..pos + 8])
  }

  function WordsAt(srcs: seq<seq<bv8>>, pos: nat): (r: seq<bv64>)
    requires forall i :: 0 <= i < |srcs| ==> pos + 8 <= |srcs[i]|
    ensures |r| == |srcs| && forall i :: 0 <= i < |r| ==> r[i] == WordAt(srcs[i], pos)
  {
    seq(|srcs|, i requires 0 <= i < |srcs| => WordAt(srcs[i], pos))
  }

  method StoreWord(res: array<bv8>, pos: nat, w: bv64)
    requires pos + 8 <= res.Length
    modifies res
    ensures forall k :: 0 <= k < 8 ==> res[pos + k] == Lane(w, k)
    ensures forall x :: 0 <= x < res.Length && !(pos <= x < pos + 8) ==> res[x] == old(res[x])
  {
    hide Lane;
    var k := 0;
    while k < 8
      invariant 0 <= k <= 8
      invariant forall i :: 0 <= i < k ==> res[pos + i] == Lane(w, i)
      invariant forall x :: 0 <= x < res.Length && !(pos <= x < pos + 8) ==> res[x] == old(res[x])
    {
      res[pos + k] := Lane(w, k);
      k := k + 1;
    }
  }

  lemma LoadStored(s: seq<bv8>, pos: nat, w: bv64)
    requires pos + 8 <= |s| && forall k :: 0 <= k < 8 ==> s[pos + k] == Lane(w, k)
    ensures forall k :: 0 <= k < 8 ==> Lane(WordAt(s, pos), k) == Lane(w, k)
  {
    hide Lane, Word;
    forall k | 0 <= k < 8 ensures Lane(WordAt(s, pos), k) == Lane(w, k) {
      LaneOfWord(s[pos..pos + 8], k);
      assert s[pos..pos + 8][k] == s[pos + k];
    }
  }

  lemma WordByLanes(x: bv64, y: bv64)
    requires forall k :: 0 <= k < 8 ==> Lane(x, k) == Lane(y, k)
    ensures x == y
  {
    assert Lane(x, 0) == Lane(y, 0);
    assert Lane(x, 1) == Lane(y, 1);
    assert Lane(x, 2) == Lane(y, 2);
    assert Lane(x, 3) == Lane(y, 3);
    assert Lane(x, 4) == Lane(y, 4);
    assert Lane(x, 5) == Lane(y, 5);
    assert Lane(x, 6) == Lane(y, 6);
    assert Lane(x, 7) == Lane(y, 7);
  }

  // ---------- the word path ----------

  predicate AllLong(srcs: seq<seq<bv8>>, n: nat) {
    forall i :: 0 <= i < |srcs| ==> n <= |srcs[i]|
  }

  /** What word `q` of the result holds before, between and after the two passes. */
  predicate Prepared(s: seq<bv8>, op: Op, srcs: seq<seq<bv8>>, q: nat)
    requires srcs != [] && AllLong(srcs, 8 * q + 8) && 8 * q + 8 <= |s|
  {
    forall x :: 8 * q <= x < 8 * q + 8 ==> s[x] == if Combines(op) then 0 else srcs[0][x]
  }

  predicate Between(s: seq<bv8>, op: Op, srcs: seq<seq<bv8>>, q: nat)
    requires srcs != [] && AllLong(srcs, 8 * q + 8) && 8 * q + 8 <= |s|
  {
    forall k :: 0 <= k < 8 ==> s[8 * q + k] == Lane(WordFirst(op, WordsAt(srcs, 8 * q)), k)
  }

  predicate Done(s: seq<bv8>, op: Op, srcs: seq<seq<bv8>>, q: nat)
    requires srcs != [] && 8 * q + 8 <= |s|
  {
    forall x :: 8 * q <= x < 8 * q + 8 ==> s[x] == ByteOp(op, Column(srcs, x))
  }

  lemma PreparedWord(s: seq<bv8>, op: Op, srcs: seq<seq<bv8>>, q: nat)
    requires srcs != [] && AllLong(srcs, 8 * q + 8) && 8 * q + 8 <= |s| && Prepared(s, op, srcs, q)
    ensures WordAt(s, 8 * q) == WordStart(op, WordAt(srcs[0], 8 * q)).res
  {
    hide Lane, Word;
    var w := WordStart(op, WordAt(srcs[0], 8 * q)).res;
    forall k | 0 <= k < 8 ensures Lane(WordAt(s, 8 * q), k) == Lane(w, k) {
      LaneOfWord(s[8 * q..8 * q + 8], k);
      LaneOfWord(srcs[0][8 * q..8 * q + 8], k);
      LaneConst(k);
      assert s[8 * q..8 * q + 8][k] == s[8 * q + k];
      assert srcs[0][8 * q..8 * q + 8][k] == srcs[0][8 * q + k];
    }
    WordByLanes(WordAt(s, 8 * q), w);
  }

  lemma BetweenWord(s: seq<bv8>, op: Op, srcs: seq<seq<bv8>>, q: nat)
    requires srcs != [] && AllLong(srcs, 8 * q + 8) && 8 * q + 8 <= |s| && Between(s, op, srcs, q)
    ensures WordAt(s, 8 * q) == WordFirst(op, WordsAt(srcs, 8 * q))
  {
    hide Lane, Word, WordFirst;
    var w := WordFirst(op, WordsAt(srcs, 8 * q));
    LoadStored(s, 8 * q, w);
    WordByLanes(WordAt(s, 8 * q), w);
  }

  lemma DoneWord(s: seq<bv8>, op: Op, srcs: seq<seq<bv8>>, q: nat, w: bv64)
    requires srcs != [] && AllLong(srcs, 8 * q + 8) && 8 * q + 8 <= |s|
    requires w == WordSecondPass(op, WordAt(srcs[0], 8 * q), WordFirst(op, WordsAt(srcs, 8 * q)))
    requires forall k :: 0 <= k < 8 ==> s[8 * q + k] == Lane(w, k)
    ensures Done(s, op, srcs, q)
  {
    hide Lane, Word, WordFirst, WordSecondPass, ByteOp;
    var words := WordsAt(srcs, 8 * q);
    forall x | 8 * q <= x < 8 * q + 8 ensures s[x] == ByteOp(op, Column(srcs, x)) {
      var k := x - 8 * q;
      assert s[8 * q + k] == Lane(w, k);
      WordIsBytes(op, words, k);
      forall i | 0 <= i < |srcs| ensures Lanes(words, k)[i] == Column(srcs, x)[i] {
        LaneOfWord(srcs[i][8 * q..8 * q + 8], k);
        assert srcs[i][8 * q..8 * q + 8][k] == srcs[i][x];
      }
      assert Lanes(words, k) == Column(srcs, x);
    }
  }

  /** For the operators without a second pass the word is final after the first. */
  lemma OnePassIsEnough(s: seq<bv8>, op: Op, srcs: seq<seq<bv8>>, q: nat)
    requires srcs != [] && AllLong(srcs, 8 * q + 8) && 8 * q + 8 <= |s|
    requires Between(s, op, srcs, q) && !Combines(op)
    ensures Done(s, op, srcs, q)
  {
    hide Lane, Word, WordFirst, ByteOp;
    DoneWord(s, op, srcs, q, WordFirst(op, WordsAt(srcs, 8 * q)));
  }

  /** One word of the first pass: the loop over the sources. */
  method FirstPassOnWord(op: Op, srcs: seq<seq<bv8>>, res: array<bv8>, q: nat)
    requires srcs != [] && AllLong(srcs, 8 * q + 8) && 8 * q + 8 <= res.Length
    requires Prepared(res[..], op, srcs, q)
    modifies res
    ensures Between(res[..], op, srcs, q)
    ensures forall x :: 0 <= x < res.Length && !(8 * q <= x < 8 * q + 8) ==> res[x] == old(res[x])
  {
    hide Lane, Word, WordStep, WordFirstPass, WordStart, Prepared;
    ghost var words := WordsAt(srcs, 8 * q);
    ghost var start := WordStart(op, words[0]);
    PreparedWord(res[..], op, srcs, q);
    StartHasNoCommon(op, words[0]);
    var a := WordAcc(WordAt(res[..], 8 * q), 0);
    var i := 1;
    while i < |srcs|
      invariant 1 <= i <= |srcs|
      invariant a == WordFold(op, start, words[1..i])
      invariant res[..] == old(res[..])
    {
      WordFoldSnoc(op, start, words[1..i], words[i]);
      assert words[1..i + 1] == words[1..i] + [words[i]];
      a := WordStep(op, a, WordAt(srcs[i], 8 * q));
      i := i + 1;
    }
    assert words[1..i] == words[1..];
    StoreWord(res, 8 * q, WordFirstPass(op, a));
  }

  lemma StartHasNoCommon(op: Op, w: bv64)
    ensures WordStart(op, w) == WordAcc(WordStart(op, w).res, 0)
  {
  }

  method SecondPassOnWord(op: Op, srcs: seq<seq<bv8>>, res: array<bv8>, q: nat)
    requires srcs != [] && AllLong(srcs, 8 * q + 8) && 8 * q + 8 <= res.Length
    requires Between(res[..], op, srcs, q)
    modifies res
    ensures Done(res[..], op, srcs, q)
    ensures forall x :: 0 <= x < res.Length && !(8 * q <= x < 8 * q + 8) ==> res[x] == old(res[x])
  {
    hide Lane, Word, WordSecondPass, WordFirst, ByteOp, Done, Between;
    BetweenWord(res[..], op, srcs, q);
    var w := WordSecondPass(op, WordAt(srcs[0], 8 * q), WordAt(res[..], 8 * q));
    StoreWord(res, 8 * q, w);
    DoneWord(res[..], op, srcs, q, w);
  }

  /** Words from `lo` to `hi` are in the state that `Prepared`, `Between` or `Done` describes. */
  predicate AllPrepared(s: seq<bv8>, op: Op, srcs: seq<seq<bv8>>, lo: nat, hi: nat)
    requires srcs != [] && AllLong(srcs, 8 * hi) && 8 * hi <= |s|
  {
    forall q :: lo <= q < hi ==> Prepared(s, op, srcs, q)
  }

  predicate AllBetween(s: seq<bv8>, op: Op, srcs: seq<seq<bv8>>, lo: nat, hi: nat)
    requires srcs != [] && AllLong(srcs, 8 * hi) && 8 * hi <= |s|
  {
    forall q :: lo <= q < hi ==> Between(s, op, srcs, q)
  }

  predicate AllDone(s: seq<bv8>, op: Op, srcs: seq<seq<bv8>>, hi: nat)
    requires srcs != [] && 8 * hi <= |s|
  {
    forall q :: 0 <= q < hi ==> Done(s, op, srcs, q)
  }

  /** Changing one word leaves the state of the others alone. */
  lemma OthersStay(s: seq<bv8>, t: seq<bv8>, op: Op, srcs: seq<seq<bv8>>, q: nat, r: nat)
    requires srcs != [] && AllLong(srcs, 8 * r + 8) && |s| == |t| && 8 * r + 8 <= |s| && q != r
    requires forall x :: 0 <= x < |s| && !(8 * q <= x < 8 * q + 8) ==> t[x] == s[x]
    ensures Prepared(s, op, srcs, r) ==> Prepared(t, op, srcs, r)
    ensures Between(s, op, srcs, r) ==> Between(t, op, srcs, r)
    ensures Done(s, op, srcs, r) ==> Done(t, op, srcs, r)
  {
    hide Lane, WordFirst, ByteOp;
    assert forall x :: 8 * r <= x < 8 * r + 8 ==> t[x] == s[x];
  }

  method FirstPasses(op: Op, srcs: seq<seq<bv8>>, res: array<bv8>, blocks: nat)
    requires srcs != [] && AllLong(srcs, 32 * blocks) && 32 * blocks <= res.Length
    requires AllPrepared(res[..], op, srcs, 0, 4 * blocks)
    modifies res
    ensures AllBetween(res[..], op, srcs, 0, 4 * blocks)
  {
    hide Prepared, Between;
    var q, block := 0, 0;
    while block < blocks
      invariant 0 <= block <= blocks && q == 4 * block
      invariant AllBetween(res[..], op, srcs, 0, q)
      invariant AllPrepared(res[..], op, srcs, q, 4 * blocks)
    {
      var w := 0;
      while w < 4
        invariant 0 <= w <= 4 && q == 4 * block + w
        invariant AllBetween(res[..], op, srcs, 0, q)
        invariant AllPrepared(res[..], op, srcs, q, 4 * blocks)
      {
        assert Prepared(res[..], op, srcs, q);
        ghost var s := res[..];
        FirstPassOnWord(op, srcs, res, q);
        forall r | 0 <= r < 4 * blocks && r != q
          ensures Prepared(s, op, srcs, r) ==> Prepared(res[..], op, srcs, r)
          ensures Between(s, op, srcs, r) ==> Between(res[..], op, srcs, r)
        {
          OthersStay(s, res[..], op, srcs, q, r);
        }
        q := q + 1;
        w := w + 1;
      }
      block := block + 1;
    }
  }

  method SecondPasses(op: Op, srcs: seq<seq<bv8>>, res: array<bv8>, blocks: nat)
    requires srcs != [] && AllLong(srcs, 32 * blocks) && 32 * blocks <= res.Length
    requires AllBetween(res[..], op, srcs, 0, 4 * blocks)
    modifies res
    ensures AllDone(res[..], op, srcs, 4 * blocks)
  {
    hide Between, Done;
    var q := 0;
    while q < 4 * blocks
      invariant 0 <= q <= 4 * blocks
      invariant AllDone(res[..], op, srcs, q)
      invariant AllBetween(res[..], op, srcs, q, 4 * blocks)
    {
      assert Between(res[..], op, srcs, q);
      ghost var s := res[..];
      SecondPassOnWord(op, srcs, res, q);
      forall r | 0 <= r < 4 * blocks && r != q
        ensures Between(s, op, srcs, r) ==> Between(res[..], op, srcs, r)
        ensures Done(s, op, srcs, r) ==> Done(res[..], op, srcs, r)
      {
        OthersStay(s, res[..], op, srcs, q, r);
      }
      q := q + 1;
    }
  }

  /** The path taken while all sources have data: `j` is how many bytes it finished. */
  method FastPath(op: Op, srcs: seq<seq<bv8>>, res: array<bv8>, minlen: nat) returns (j: nat)
    requires srcs != [] && AllLong(srcs, minlen) && minlen <= res.Length
    requires forall x :: 0 <= x < res.Length ==> res[x] == 0
    modifies res
    ensures j <= minlen && forall x :: 0 <= x < j ==> res[x] == ByteOp(op, Column(srcs, x))
  {
    hide ByteOp, Between, Done;
    j := 0;
    if minlen < 32 {
      return;
    }
    var blocks := minlen / 32;
    if !Combines(op) {
      var x := 0;
      while x < minlen
        invariant 0 <= x <= minlen
        invariant forall i :: 0 <= i < x ==> res[i] == srcs[0][i]
      {
        res[x] := srcs[0][x];
        x := x + 1;
      }
    }
    assert AllPrepared(res[..], op, srcs, 0, 4 * blocks);
    FirstPasses(op, srcs, res, blocks);
    if Combines(op) {
      SecondPasses(op, srcs, res, blocks);
    } else {
      forall q | 0 <= q < 4 * blocks ensures Done(res[..], op, srcs, q) {
        OnePassIsEnough(res[..], op, srcs, q);
      }
    }
    j := 32 * blocks;
    DoneBytes(res[..], op, srcs, 4 * blocks);
  }

  lemma DoneBytes(s: seq<bv8>, op: Op, srcs: seq<seq<bv8>>, hi: nat)
    requires srcs != [] && 8 * hi <= |s| && AllDone(s, op, srcs, hi)
    ensures forall x :: 0 <= x < 8 * hi ==> s[x] == ByteOp(op, Column(srcs, x))
  {
    hide ByteOp;
    forall x | 0 <= x < 8 * hi ensures s[x] == ByteOp(op, Column(srcs, x)) {
      assert Done(s, op, srcs, x / 8);
    }
  }

  // ---------- the command ----------

  predicate GoodArity(op: Op, n: nat) {
    (op == NOT ==> n == 1) && (Combines(op) ==> n >= 2)
  }

  lemma {:induction false} MaxLenBounds(srcs: seq<seq<bv8>>, i: nat)
    requires i < |srcs|
    ensures |srcs[i]| <= MaxLen(srcs)
  {
    if i > 0 {
      MaxLenBounds(srcs[1..], i - 1);
    }
  }

  lemma {:induction false} MaxLenSnoc(srcs: seq<seq<bv8>>, s: seq<bv8>)
    ensures MaxLen(srcs + [s]) == if |s| > MaxLen(srcs) then |s| else MaxLen(srcs)
  {
    if srcs == [] {
      assert (srcs + [s])[1..] == [];
    } else {
      assert (srcs + [s])[1..] == srcs[1..] + [s];
      MaxLenSnoc(srcs[1..], s);
    }
  }

  /** The lookup loop: the bytes of the sources, the longest and the shortest length. A missing
      key is empty, and makes the shortest length zero for good. */
  method Lookup(keys: seq<Source>) returns (bad: bool, srcs: seq<seq<bv8>>, maxlen: nat, minlen: nat)
    ensures bad <==> exists i :: 0 <= i < |keys| && keys[i].OtherType?
    ensures !bad ==> srcs == AllBytes(keys) && maxlen == MaxLen(srcs) && (keys != [] ==> AllLong(srcs, minlen))
  {
    srcs, maxlen, minlen, bad := [], 0, 0, false;
    var j := 0;
    while j < |keys|
      invariant 0 <= j <= |keys| == |AllBytes(keys)| && srcs == AllBytes(keys)[..j]
      invariant maxlen == MaxLen(srcs) && AllLong(srcs, minlen) && (j == 0 ==> minlen == 0)
      invariant forall i :: 0 <= i < j ==> !keys[i].OtherType?
    {
      if keys[j].OtherType? {
        bad := true;
        return;
      }
      var bytes := Bytes(keys[j]);
      MaxLenSnoc(srcs, bytes);
      if keys[j].Missing? {
        minlen := 0;
      } else {
        if |bytes| > maxlen {
          maxlen := |bytes|;
        }
        if j == 0 || |bytes| < minlen {
          minlen := |bytes|;
        }
      }
      srcs := srcs + [bytes];
      j := j + 1;
    }
  }

  /** The result has the length of the longest source, and every bit of it has the operator's
      meaning on the sources padded with zeros. */
  method Bitop(op: Op, keys: seq<Source>) returns (r: Reply)
    requires keys != []
    ensures r.SyntaxError? <==> !GoodArity(op, |keys|)
    ensures r.WrongType? <==> GoodArity(op, |keys|) && exists i :: 0 <= i < |keys| && keys[i].OtherType?
    ensures r.Result? ==>
              && |r.bytes| == MaxLen(AllBytes(keys))
              && forall j, b :: 0 <= j < |r.bytes| && 0 <= b < 8 ==>
                   (Bit(r.bytes[j], b) <==> OpBit(op, SourceBits(keys, j, b)))
  {
    hide ByteOp, Bit, OpBit;
    if !GoodArity(op, |keys|) {
      return SyntaxError;
    }
    var bad, srcs, maxlen, minlen := Lookup(keys);
    if bad {
      return WrongType;
    }
    var res := new bv8[maxlen](_ => 0);
    MaxLenBounds(srcs, 0);
    if maxlen > 0 {
      var j := FastPath(op, srcs, res, minlen);
      while j < maxlen
        invariant 0 <= j <= maxlen
        invariant forall x :: 0 <= x < j ==> res[x] == ByteOp(op, Column(srcs, x))
      {
        res[j] := ByteColumn(op, srcs, j);
        j := j + 1;
      }
    }
    r := Result(res[..]);
    forall j, b | 0 <= j < |r.bytes| && 0 <= b < 8
      ensures Bit(r.bytes[j], b) <==> OpBit(op, SourceBits(keys, j, b))
    {
      ByteOpMeans(op, Column(srcs, j), b);
      ColumnBits(keys, j, b);
    }
  }

  lemma ColumnBits(keys: seq<Source>, j: nat, b: nat)
    requires b < 8
    ensures BitsAt(Column(AllBytes(keys), j), b) == SourceBits(keys, j, b)
  {
    BitConst(b);
  }
}

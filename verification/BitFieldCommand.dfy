/** The operations of BITFIELD on a string, and the loop that executes them. */
module BitFieldCommand {
  import opened Common
  import opened BitOp
  import opened BitPos
  import opened BitField
  import opened BitFieldStore

  datatype FieldOp =
    | Get(t: FieldType, offset: nat)
    | Set(t: FieldType, offset: nat, value: int, ow: Overflow)
    | IncrBy(t: FieldType, offset: nat, incr: int, ow: Overflow)

  predicate ValidOp(op: FieldOp) {
    IsType(op.t) && (op.Set? ==> IsI64(op.value)) && (op.IncrBy? ==> IsI64(op.incr))
  }

  /** The new value for a field that held `was`; nothing when the operation fails. */
  function NewValue(op: FieldOp, was: int): Option<int>
    requires ValidOp(op) && !op.Get? && (!op.t.sign ==> was >= 0)
  {
    var bits := op.t.bits;
    var x := if op.Set? then op.value else was + op.incr;
    var c :=
      if op.t.sign then (if op.Set? then CheckSigned(op.value, 0, bits, op.ow) else CheckSigned(was, op.incr, bits, op.ow))
      else (if op.Set? then CheckUnsigned(U64(op.value), 0, bits, op.ow) else CheckUnsigned(was, op.incr, bits, op.ow));
    if c.ret != 0 then c.limit else Some(if op.t.sign then x else U64(x))
  }

  /** The string after one operation, and the reply. */
  function Apply(s: seq<bv8>, op: FieldOp): (r: (seq<bv8>, Option<int>))
    requires ValidOp(op) && (op.Get? || op.offset + op.t.bits <= 8 * |s|)
    ensures |r.0| == |s|
  {
    ReadIs(op.t, s, op.offset);
    var was := Read(op.t, s, op.offset);
    if op.Get? then (s, Some(was))
    else
      match NewValue(op, was)
      case None => (s, None)
      case Some(x) => (SetField(s, op.offset, op.t.bits, U64(x), op.t.bits), Some(if op.Set? then was else x))
  }

  ghost predicate OnlyField(s: seq<bv8>, t: seq<bv8>, op: FieldOp) {
    forall k :: 0 <= k && !(op.offset <= k < op.offset + op.t.bits) ==> PBit(t, k) == PBit(s, k)
  }

  /** INCRBY: under each overflow rule the field then holds what the rule says of the exact sum,
      that is also the reply, and no other bit changes. */
  lemma IncrByMeans(s: seq<bv8>, op: FieldOp)
    requires ValidOp(op) && op.IncrBy? && op.offset + op.t.bits <= 8 * |s|
    ensures var x := Read(op.t, s, op.offset) + op.incr;
            var (s', r) := Apply(s, op);
            var want := if Fits(op.t, x) then x else if op.ow == SAT then Clamped(op.t, x) else Wrapped(op.t, x);
            && (Fits(op.t, x) || op.ow != FAIL ==> Read(op.t, s', op.offset) == want && r == Some(want))
            && (!Fits(op.t, x) && op.ow == FAIL ==> s' == s && r == None)
            && OnlyField(s, s', op)
  {
    hide Pow2, Read, SetField, CheckSigned, CheckUnsigned, U64, I64, Wrapped, PBit;
    ReadIs(op.t, s, op.offset);
    var was := Read(op.t, s, op.offset);
    var x := was + op.incr;
    if op.t.sign {
      SignedIncrementIsRight(was, op.incr, op.t.bits, op.ow);
    } else {
      UnsignedIncrementIsRight(was, op.incr, op.t.bits, op.ow);
    }
    TypeBounds(op.t);
    if Fits(op.t, x) {
      if !op.t.sign {
        U64Fits(x);
      }
    }
    var v := NewValue(op, was);
    if v.Some? {
      WriteThenRead(op.t, s, op.offset, v.value);
      SetThenGet(s, op.offset, op.t.bits, U64(v.value));
    }
  }

  /** SET: the reply is the old value, and the field then holds the new one, reduced or clamped.
      Clamping goes to the wrong end in the cases that `UnsignedSetIs` and
      `SignedSetClampsIff` describe. */
  lemma SetMeans(s: seq<bv8>, op: FieldOp)
    requires ValidOp(op) && op.Set? && op.offset + op.t.bits <= 8 * |s|
    ensures var x := op.value;
            var (s', r) := Apply(s, op);
            && (Fits(op.t, x) ==> Read(op.t, s', op.offset) == x)
            && (!Fits(op.t, x) && op.ow == WRAP ==> Read(op.t, s', op.offset) == Wrapped(op.t, x))
            && (!Fits(op.t, x) && op.ow == SAT ==>
                  Read(op.t, s', op.offset) ==
                  if op.t.sign && x >= MaxOf(op.t) - INT64_MAX then Clamped(op.t, x) else MaxOf(op.t))
            && (!Fits(op.t, x) && op.ow == FAIL ==> s' == s)
            && r == (if !Fits(op.t, x) && op.ow == FAIL then None else Some(Read(op.t, s, op.offset)))
            && OnlyField(s, s', op)
  {
    hide Pow2, Read, SetField, CheckSigned, CheckUnsigned, U64, I64, Wrapped, PBit;
    ReadIs(op.t, s, op.offset);
    var was := Read(op.t, s, op.offset);
    if op.t.sign {
      SignedSetWraps(op.value, op.t.bits, op.ow);
      if !Fits(op.t, op.value) {
        SignedSetClampsIff(op.value, op.t.bits);
      }
    } else {
      UnsignedSetIs(op.value, op.t.bits, op.ow);
    }
    TypeBounds(op.t);
    MaxFits(op.t);
    var v := NewValue(op, was);
    if v.Some? {
      assert Fits(op.t, v.value);
      WriteThenRead(op.t, s, op.offset, v.value);
      SetThenGet(s, op.offset, op.t.bits, U64(v.value));
    }
  }

  lemma MaxFits(t: FieldType)
    requires t.bits >= 1
    ensures Fits(t, MaxOf(t)) && forall x :: Fits(t, Clamped(t, x))
  {
  }

  // ---------- GET through the buffer ----------

  /** The nine bytes copied from the byte that holds the offset, zero-padded. */
  predicate Buffered(s: seq<bv8>, byte: nat, buf: seq<bv8>) {
    |buf| == 9 && forall i :: 0 <= i < 9 ==> buf[i] == if byte + i < |s| then s[byte + i] else 0
  }

  /** Reading the buffer equals reading the zero-extended string. */
  lemma BufferedRead(s: seq<bv8>, offset: nat, bits: nat, buf: seq<bv8>)
    requires Buffered(s, offset / 8, buf) && bits <= 64
    ensures FieldValue(buf, offset % 8, bits) == FieldValue(s, offset, bits)
  {
    hide Bit;
    var byte := offset / 8;
    forall k | offset % 8 <= k < offset % 8 + bits ensures PBit(buf, k) == PBit(s, k - offset % 8 + offset) {
      var i := k - offset % 8 + offset;
      assert i / 8 == byte + k / 8 && i % 8 == k % 8;
      BitConst(k % 8);
    }
    FieldSame(buf, s, offset % 8, offset, bits);
  }

  method GetThroughBuffer(src: seq<bv8>, t: FieldType, offset: nat) returns (val: int)
    requires IsType(t)
    ensures val == Read(t, src, offset)
  {
    hide Bit, FieldValue, Pow2, SignExtended, Wrapped;
    var buf := new bv8[9](_ => 0);
    var byte := offset / 8;
    var i := 0;
    while i < 9
      invariant 0 <= i <= 9
      invariant forall j :: 0 <= j < i ==> byte + j < |src| && buf[j] == src[byte + j]
      invariant forall j :: i <= j < 9 ==> buf[j] == 0
    {
      if i + byte >= |src| {
        break;
      }
      buf[i] := src[i + byte];
      i := i + 1;
    }
    assert Buffered(src, byte, buf[..]);
    BufferedRead(src, offset, t.bits, buf[..]);
    ReadIs(t, src, offset);
    var u := GetUnsignedBitfield(buf[..], offset - 8 * byte, t.bits);
    val := if t.sign then SignExtended(u, t.bits) else u;
  }

  // ---------- the command ----------

  function WriteEnd(op: FieldOp): nat {
    if op.Get? then 0 else op.offset + op.t.bits
  }

  /** One past the highest bit that some operation writes. */
  function Highest(ops: seq<FieldOp>): nat {
    if ops == [] then 0
    else var h := Highest(ops[1..]); if WriteEnd(ops[0]) > h then WriteEnd(ops[0]) else h
  }

  /** The string with room for the farthest bit written. */
  function Grown(s: seq<bv8>, end: nat): seq<bv8> {
    var n := (end + 7) / 8;
    if |s| >= n then s else s + seq(n - |s|, _ => 0 as bv8)
  }

  /** Growing adds only zeros, so it changes no bit of the zero-extended string. */
  lemma GrownBits(s: seq<bv8>, end: nat, k: nat)
    ensures PBit(Grown(s, end), k) == PBit(s, k) && end <= 8 * |Grown(s, end)|
  {
    hide Bit;
    BitConst(k % 8);
  }

  predicate Room(s: seq<bv8>, ops: seq<FieldOp>) {
    forall i :: 0 <= i < |ops| ==> ValidOp(ops[i]) && WriteEnd(ops[i]) <= 8 * |s|
  }

  /** All operations in order. */
  function RunOps(s: seq<bv8>, ops: seq<FieldOp>): (seq<bv8>, seq<Option<int>>)
    requires Room(s, ops)
    decreases |ops|
  {
    if ops == [] then (s, [])
    else
      var (s1, r) := Apply(s, ops[0]);
      var (s2, rs) := RunOps(s1, ops[1..]);
      (s2, [r] + rs)
  }

  lemma {:induction false} HighestBounds(ops: seq<FieldOp>, i: nat)
    requires i < |ops|
    ensures WriteEnd(ops[i]) <= Highest(ops)
  {
    if i > 0 {
      HighestBounds(ops[1..], i - 1);
    }
  }

  lemma GrownHasRoom(s: seq<bv8>, ops: seq<FieldOp>)
    requires forall i :: 0 <= i < |ops| ==> ValidOp(ops[i])
    ensures Room(Grown(s, Highest(ops)), ops)
  {
    GrownBits(s, Highest(ops), 0);
    forall i | 0 <= i < |ops| ensures WriteEnd(ops[i]) <= 8 * |Grown(s, Highest(ops))| {
      HighestBounds(ops, i);
    }
  }

  method FindHighest(ops: seq<FieldOp>) returns (highest: nat)
    ensures highest == Highest(ops)
  {
    highest := 0;
    var j := |ops|;
    while j > 0
      invariant 0 <= j <= |ops|
      invariant highest == Highest(ops[j..])
    {
      j := j - 1;
      assert ops[j..][1..] == ops[j + 1..];
      if WriteEnd(ops[j]) > highest {
        highest := WriteEnd(ops[j]);
      }
    }
    assert ops[0..] == ops;
  }

  /** One operation on the string in place. */
  method Execute(p: array<bv8>, op: FieldOp) returns (reply: Option<int>)
    requires ValidOp(op) && WriteEnd(op) <= 8 * p.Length
    modifies p
    ensures (p[..], reply) == Apply(old(p[..]), op)
  {
    hide Bit, FieldValue, Pow2, SignExtended, Wrapped, SetField, U64, NewValue;
    ghost var s := p[..];
    ReadIs(op.t, s, op.offset);
    if op.Get? {
      var val := GetThroughBuffer(p[..], op.t, op.offset);
      return Some(val);
    }
    var u := GetUnsignedBitfield(p[..], op.offset, op.t.bits);
    var was := if op.t.sign then SignExtended(u, op.t.bits) else u;
    var v := NewValue(op, was);
    if v.None? {
      return None;
    }
    SetUnsignedBitfield(p, op.offset, op.t.bits, U64(v.value));
    reply := Some(if op.Set? then was else v.value);
  }

  /** bitfieldGeneric after its arguments are parsed: the string grows once, then the operations
      run in order. */
  method Bitfield(src: seq<bv8>, ops: seq<FieldOp>) returns (bytes: seq<bv8>, replies: seq<Option<int>>)
    requires forall i :: 0 <= i < |ops| ==> ValidOp(ops[i])
    ensures Room(Grown(src, Highest(ops)), ops)
    ensures (bytes, replies) == RunOps(Grown(src, Highest(ops)), ops)
  {
    hide Apply, Grown, WriteEnd, ValidOp;
    GrownHasRoom(src, ops);
    var highest := FindHighest(ops);
    var s := Grown(src, highest);
    var p := new bv8[|s|](i requires 0 <= i < |s| => s[i]);
    assert p[..] == s;
    replies := [];
    var j := 0;
    assert ops[0..] == ops && [] + RunOps(s, ops).1 == RunOps(s, ops).1;
    while j < |ops|
      invariant 0 <= j <= |ops| && p.Length == |s| && Room(p[..], ops[j..])
      invariant var r := RunOps(p[..], ops[j..]); (r.0, replies + r.1) == RunOps(s, ops)
    {
      ghost var q := p[..];
      ghost var rest := ops[j..];
      assert rest[0] == ops[j] && rest[1..] == ops[j + 1..];
      var reply := Execute(p, ops[j]);
      assert RunOps(q, rest) == (RunOps(p[..], rest[1..]).0, [reply] + RunOps(p[..], rest[1..]).1);
      assert replies + ([reply] + RunOps(p[..], rest[1..]).1) == (replies + [reply]) + RunOps(p[..], rest[1..]).1;
      replies := replies + [reply];
      j := j + 1;
    }
    assert ops[j..] == [];
    assert replies + [] == replies;
    bytes := p[..];
  }
}

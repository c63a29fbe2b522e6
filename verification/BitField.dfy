/**
 BITFIELD: integers of any width stored at any bit offset, and the overflow arithmetic on
 64-bit machine integers, written out on unbounded ones.
 */
module BitField {
  import opened Common
  import opened BitOp
  import opened BitPos

  // ---------- powers and remainders ----------

  function Pow2(n: nat): (r: nat)
    ensures r >= 1
  {
    if n == 0 then 1 else 2 * Pow2(n - 1)
  }

  const TWO64 := 0x1_0000_0000_0000_0000
  const INT64_MAX := 0x7FFF_FFFF_FFFF_FFFF
  const INT64_MIN := -0x8000_0000_0000_0000

  lemma {:induction false} Pow2Add(a: nat, b: nat)
    ensures Pow2(a + b) == Pow2(a) * Pow2(b)
  {
    if a > 0 {
      Pow2Add(a - 1, b);
      assert 2 * (Pow2(a - 1) * Pow2(b)) == (2 * Pow2(a - 1)) * Pow2(b);
    }
  }

  lemma Pow2Is64()
    ensures Pow2(64) == TWO64 && Pow2(63) == TWO64 / 2
  {
    assert Pow2(8) == 256;
    Pow2Add(8, 8);
    Pow2Add(16, 16);
    Pow2Add(32, 32);
    assert Pow2(64) == 2 * Pow2(63);
  }

  lemma {:induction false} Pow2Grows(a: nat, b: nat)
    requires a <= b
    ensures Pow2(a) <= Pow2(b)
    decreases b
  {
    if a < b {
      Pow2Grows(a, b - 1);
    }
  }

  lemma MulGrows(d: int, m: int)
    requires d >= 1 && m > 0
    ensures d * m >= m
  {
    assert d * m == (d - 1) * m + m;
    assert (d - 1) * m >= 0;
  }

  lemma SmallMultiple(d: int, m: int)
    requires m > 0 && -m < d * m < m
    ensures d == 0
  {
    if d >= 1 {
      MulGrows(d, m);
    } else if d <= -1 {
      assert d * m == -((-d) * m);
      MulGrows(-d, m);
    }
  }

  /** Remainders are the unique way to write a number. */
  lemma ModUnique(x: int, m: int, q: int, r: int)
    requires m > 0 && x == q * m + r && 0 <= r < m
    ensures x % m == r
  {
    var d := q - x / m;
    assert x == (x / m) * m + x % m;
    assert d * m == q * m - (x / m) * m;
    SmallMultiple(d, m);
  }

  lemma ModShift(x: int, m: int, k: int)
    requires m > 0
    ensures (x + k * m) % m == x % m
  {
    var q := x / m;
    assert x == q * m + x % m;
    assert (q + k) * m == q * m + k * m;
    ModUnique(x + k * m, m, q + k, x % m);
  }

  lemma ModOfMultiple(x: int, m: int, n: int)
    requires m > 0 && n > 0 && m * n > 0
    ensures (x % (m * n)) % m == x % m
  {
    var k := x / (m * n);
    assert x == k * (m * n) + x % (m * n);
    assert k * (m * n) == (k * n) * m;
    ModShift(x % (m * n), m, k * n);
  }

  /** Reducing modulo 2^64 first does not change the remainder modulo a smaller power. */
  lemma ModThroughWord(x: int, bits: nat)
    requires bits <= 64
    ensures (x % TWO64) % Pow2(bits) == x % Pow2(bits)
  {
    Pow2Is64();
    Pow2Add(bits, 64 - bits);
    ModOfMultiple(x, Pow2(bits), Pow2(64 - bits));
  }

  // ---------- C integers ----------

  /** Conversion to uint64_t. */
  function U64(x: int): nat {
    x % TWO64
  }

  /** Conversion to int64_t, two's complement. */
  function I64(x: int): int {
    var u := x % TWO64;
    if u >= TWO64 / 2 then u - TWO64 else u
  }

  predicate IsI64(x: int) {
    INT64_MIN <= x <= INT64_MAX
  }

  lemma I64Fits(x: int)
    requires IsI64(x)
    ensures I64(x) == x
  {
  }

  lemma U64Fits(x: int)
    requires 0 <= x < TWO64
    ensures U64(x) == x
  {
  }

  // ---------- the values of a type ----------

  /** A width and a sign: u1 to u63, i1 to i64. */
  datatype FieldType = FieldType(sign: bool, bits: nat)

  predicate IsType(t: FieldType) {
    1 <= t.bits <= (if t.sign then 64 else 63)
  }

  function MaxOf(t: FieldType): int
    requires t.bits >= 1
  {
    if t.sign then Pow2(t.bits - 1) - 1 else Pow2(t.bits) - 1
  }

  function MinOf(t: FieldType): int
    requires t.bits >= 1
  {
    if t.sign then 0 - Pow2(t.bits - 1) else 0
  }

  predicate Fits(t: FieldType, x: int)
    requires t.bits >= 1
  {
    MinOf(t) <= x <= MaxOf(t)
  }

  /** The value of the type that agrees with `x` modulo 2^bits. */
  function Wrapped(t: FieldType, x: int): (r: int)
    requires t.bits >= 1
    ensures Fits(t, r)
  {
    var u := x % Pow2(t.bits);
    if t.sign && u >= Pow2(t.bits - 1) then u - Pow2(t.bits) else u
  }

  function Clamped(t: FieldType, x: int): int
    requires t.bits >= 1
  {
    if x > MaxOf(t) then MaxOf(t) else if x < MinOf(t) then MinOf(t) else x
  }

  lemma WrappedFits(t: FieldType, x: int)
    requires t.bits >= 1 && Fits(t, x)
    ensures Wrapped(t, x) == x
  {
    if x >= 0 {
      ModUnique(x, Pow2(t.bits), 0, x);
    } else {
      ModUnique(x, Pow2(t.bits), -1, x + Pow2(t.bits));
    }
  }

  lemma TypeBounds(t: FieldType)
    requires IsType(t)
    ensures IsI64(MaxOf(t)) && IsI64(MinOf(t)) && Pow2(t.bits) == 2 * Pow2(t.bits - 1) && Pow2(t.bits) <= TWO64
    ensures t.bits <= 63 ==> Pow2(t.bits) <= TWO64 / 2
  {
    Pow2Is64();
    Pow2Grows(t.bits - 1, 63);
    Pow2Grows(t.bits, 64);
    if t.bits <= 63 {
      Pow2Grows(t.bits, 63);
    }
  }

  // ---------- overflow checks ----------

  datatype Overflow = WRAP | SAT | FAIL

  /** -1, 0 or 1, and what the out-parameter is set to, if it is. */
  datatype Check = Check(ret: int, limit: Option<int>)

  /** checkUnsignedBitfieldOverflow */
  function CheckUnsigned(value: nat, incr: int, bits: nat, ow: Overflow): Check {
    var max := Pow2(bits) - 1;
    var maxincr := I64(U64(max - value));
    var minincr := I64(U64(0 - value));
    var wrapped := Check(1, Some(U64(value + incr) % Pow2(bits)));
    if value > max || (incr > 0 && incr > maxincr) then
      match ow case WRAP => wrapped case SAT => Check(1, Some(max)) case FAIL => Check(1, None)
    else if incr < 0 && incr < minincr then
      match ow case WRAP => wrapped case SAT => Check(-1, Some(0)) case FAIL => Check(-1, None)
    else Check(0, None)
  }

  /** The code behind handle_wrap of the signed check: the sign bit is copied to all higher bits,
      or they are cleared. */
  function SignedWrap(value: int, incr: int, bits: nat): int
    requires bits >= 1
  {
    var c := U64(value + incr);
    if bits < 64 then
      var low := c % Pow2(bits);
      if low >= Pow2(bits - 1) then I64(low + (TWO64 - Pow2(bits))) else I64(low)
    else I64(c)
  }

  /** checkSignedBitfieldOverflow; maxincr and minincr may wrap. */
  function CheckSigned(value: int, incr: int, bits: nat, ow: Overflow): Check
    requires bits >= 1
  {
    var max := Pow2(bits - 1) - 1;
    var min := -max - 1;
    var maxincr := I64(max - value);
    var minincr := I64(min - value);
    var wrapped := Check(1, Some(SignedWrap(value, incr, bits)));
    if value > max || (bits != 64 && incr > maxincr) || (value >= 0 && incr > 0 && incr > maxincr) then
      match ow case WRAP => wrapped case SAT => Check(1, Some(max)) case FAIL => Check(1, None)
    else if value < min || (bits != 64 && incr < minincr) || (value < 0 && incr < 0 && incr < minincr) then
      match ow case WRAP => wrapped case SAT => Check(-1, Some(min)) case FAIL => Check(-1, None)
    else Check(0, None)
  }

  /** What the checks should answer for a result `x`. */
  predicate Right(t: FieldType, x: int, ow: Overflow, c: Check)
    requires IsType(t)
  {
    && (c.ret == 0 <==> Fits(t, x))
    && (c.ret == 0 ==> c.limit == None)
    && (c.ret != 0 ==> c.limit == match ow case WRAP => Some(Wrapped(t, x)) case SAT => Some(Clamped(t, x)) case FAIL => None)
  }

  lemma SignedWrapIsWrapped(value: int, incr: int, bits: nat)
    requires 1 <= bits <= 64
    ensures SignedWrap(value, incr, bits) == Wrapped(FieldType(true, bits), value + incr)
  {
    hide Pow2, I64, U64;
    var x := value + incr;
    var p := Pow2(bits);
    TypeBounds(FieldType(true, bits));
    WordOf(x, bits);
    Pow2Is64();
    var low := x % p;
    if bits < 64 {
      I64High(low + (TWO64 - p));
      I64High(low);
    } else {
      I64High(U64(x));
    }
  }

  lemma WordOf(x: int, bits: nat)
    requires bits <= 64
    ensures U64(x) % Pow2(bits) == x % Pow2(bits) && 0 <= U64(x) < TWO64
    ensures bits == 64 ==> U64(x) == x % Pow2(bits)
  {
    ModThroughWord(x, bits);
    Pow2Is64();
  }

  lemma I64High(u: int)
    requires 0 <= u < TWO64
    ensures I64(u) == if u >= TWO64 / 2 then u - TWO64 else u
  {
  }

  /** INCRBY on a signed field: the check answers rightly for every old value and increment. */
  lemma SignedIncrementIsRight(was: int, incr: int, bits: nat, ow: Overflow)
    requires 1 <= bits <= 64 && Fits(FieldType(true, bits), was) && IsI64(incr)
    ensures Right(FieldType(true, bits), was + incr, ow, CheckSigned(was, incr, bits, ow))
  {
    hide I64, U64, Pow2, SignedWrap, Wrapped;
    var t := FieldType(true, bits);
    TypeBounds(t);
    SignedWrapIsWrapped(was, incr, bits);
    var max, min := MaxOf(t), MinOf(t);
    assert bits == 64 ==> max == INT64_MAX by { Pow2Is64(); }
    if bits < 64 || was >= 0 {
      I64Fits(max - was);
    }
    if bits < 64 || was < 0 {
      I64Fits(min - was);
    }
  }

  lemma UnsignedIncrementIsRight(was: nat, incr: int, bits: nat, ow: Overflow)
    requires 1 <= bits <= 63 && Fits(FieldType(false, bits), was) && IsI64(incr)
    ensures Right(FieldType(false, bits), was + incr, ow, CheckUnsigned(was, incr, bits, ow))
  {
    var t := FieldType(false, bits);
    hide I64, Pow2;
    TypeBounds(t);
    ModThroughWord(was + incr, bits);
    U64Fits(MaxOf(t) - was);
    I64Fits(MaxOf(t) - was);
    I64OfNegative(was);
  }

  lemma I64OfNegative(n: nat)
    requires n <= INT64_MAX
    ensures I64(U64(0 - n)) == 0 - n
  {
    if n > 0 {
      ModUnique(0 - n, TWO64, -1, TWO64 - n);
      ModUnique(TWO64 - n, TWO64, 0, TWO64 - n);
    }
  }

  // ---------- SET ----------

  /** SET of an unsigned field: a negative argument counts as too large, so under SAT it becomes
      the maximum. */
  lemma UnsignedSetIs(x: int, bits: nat, ow: Overflow)
    requires 1 <= bits <= 63 && IsI64(x)
    ensures var t := FieldType(false, bits);
            var c := CheckUnsigned(U64(x), 0, bits, ow);
            && (c.ret == 0 <==> Fits(t, x))
            && (c.ret == 0 ==> U64(x) == x)
            && (c.ret != 0 ==> c.limit == match ow case WRAP => Some(Wrapped(t, x)) case SAT => Some(MaxOf(t)) case FAIL => None)
  {
    var t := FieldType(false, bits);
    TypeBounds(t);
    ModThroughWord(x, bits);
    ModUnique(U64(x), TWO64, 0, U64(x));
    if x >= 0 {
      ModUnique(x, TWO64, 0, x);
    } else {
      ModUnique(x, TWO64, -1, x + TWO64);
    }
  }

  /** SET of a signed field under SAT clamps, except that a value so low that max - value wraps
      is taken for an overflow and becomes the maximum. */
  lemma SignedSetClampsIff(x: int, bits: nat)
    requires 1 <= bits <= 64 && IsI64(x) && !Fits(FieldType(true, bits), x)
    ensures var t := FieldType(true, bits);
            var c := CheckSigned(x, 0, bits, SAT);
            && c.ret != 0 && c.limit.Some?
            && (c.limit.value == Clamped(t, x) <==> x >= MaxOf(t) - INT64_MAX)
            && (x < MaxOf(t) - INT64_MAX ==> c.limit.value == MaxOf(t))
  {
    var t := FieldType(true, bits);
    TypeBounds(t);
    Pow2Is64();
    var max, min := MaxOf(t), MinOf(t);
    if x > max {
      assert x >= max - INT64_MAX;
    } else {
      var d := max - x;
      if d <= INT64_MAX {
        I64Fits(d);
      } else {
        ModUnique(d, TWO64, 0, d);
      }
      assert I64(d) < 0 <==> d > INT64_MAX;
    }
  }

  lemma SignedSetWraps(x: int, bits: nat, ow: Overflow)
    requires 1 <= bits <= 64 && IsI64(x)
    ensures var t := FieldType(true, bits);
            var c := CheckSigned(x, 0, bits, ow);
            && (c.ret == 0 <==> Fits(t, x))
            && (c.ret != 0 && ow == WRAP ==> c.limit == Some(Wrapped(t, x)))
            && (c.ret != 0 && ow == FAIL ==> c.limit == None)
  {
    hide I64, U64, Pow2, SignedWrap, Wrapped;
    var t := FieldType(true, bits);
    TypeBounds(t);
    Pow2Is64();
    SignedWrapIsWrapped(x, 0, bits);
    if Fits(t, x) && bits < 64 {
      I64Fits(MaxOf(t) - x);
      I64Fits(MinOf(t) - x);
    }
  }

  /** Storing -2^62 - 1 in an i63 under SAT yields the largest i63. */
  lemma VeryLowValueSaturatesHigh()
    ensures var x := -0x4000_0000_0000_0001;
            CheckSigned(x, 0, 63, SAT).limit == Some(0x3FFF_FFFF_FFFF_FFFF)
  {
    Pow2Is64();
    assert Pow2(63) == 2 * Pow2(62);
    SignedSetClampsIff(-0x4000_0000_0000_0001, 63);
  }
}

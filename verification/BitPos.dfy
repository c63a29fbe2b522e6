/**
 BITPOS: the first bit of a given value in a string or in a range of it. Bits are numbered
 from the most significant bit of the first byte.
 */
module BitPos {
  import opened BitOp
  import Command = BitOpCommand

  predicate BitAt(s: seq<bv8>, i: nat)
    requires i < 8 * |s|
  {
    Bit(s[i / 8], i % 8)
  }

  /** No bit of the range has the value. */
  predicate NoneIn(s: seq<bv8>, bit: bool, lo: nat, hi: nat)
    requires hi <= 8 * |s|
  {
    forall i :: lo <= i < hi ==> BitAt(s, i) != bit
  }

  /** `pos` is the least position in the range whose bit has the value. */
  predicate FirstIn(s: seq<bv8>, bit: bool, lo: nat, hi: nat, pos: int)
    requires hi <= 8 * |s|
  {
    lo <= pos < hi && BitAt(s, pos) == bit && NoneIn(s, bit, lo, pos)
  }

  /** What redisBitpos promises: the first such bit, else -1 when looking for a one and the
      position just past the end when looking for a zero. */
  predicate Found(s: seq<bv8>, bit: bool, pos: int) {
    FirstIn(s, bit, 0, 8 * |s|, pos) || (NoneIn(s, bit, 0, 8 * |s|) && pos == if bit then -1 else 8 * |s|)
  }

  // ---------- a word, scanned from its most significant bit ----------

  const MSB: bv64 := 0x8000_0000_0000_0000

  // The shifts and the test on unsigned long, named so that proofs can treat them abstractly.

  function Half(x: bv64): bv64 { x >> 1 }

  function Down(x: bv64): bv64 { x >> 8 }

  function Up(x: bv64): bv64 { x << 8 }

  predicate Meets(x: bv64, y: bv64) { x & y != 0 }

  /** The scanning bit after `t` shifts. */
  function One(t: nat): bv64 {
    if t == 0 then MSB else Half(One(t - 1))
  }

  /** The scan finds bit `t` of the word set. */
  predicate Tests(w: bv64, t: nat) {
    Meets(One(t), w)
  }

  lemma ShiftEight(x: bv64)
    ensures Half(Half(Half(Half(Half(Half(Half(Half(x)))))))) == Down(x)
  {
  }

  lemma OneByteLater(t: nat)
    ensures One(t + 8) == Down(One(t))
  {
    hide Half, Down;
    ShiftEight(One(t));
    assert One(t + 1) == Half(One(t)) && One(t + 2) == Half(One(t + 1));
    assert One(t + 3) == Half(One(t + 2)) && One(t + 4) == Half(One(t + 3));
    assert One(t + 5) == Half(One(t + 4)) && One(t + 6) == Half(One(t + 5));
    assert One(t + 7) == Half(One(t + 6)) && One(t + 8) == Half(One(t + 7));
  }

  lemma ShiftOperands(w: bv64, x: bv64)
    ensures Meets(Down(x), w) <==> Meets(x, Up(w))
  {
  }

  lemma LaneUp(w: bv64, k: nat)
    requires 1 <= k < 8
    ensures Lane(Up(w), k) == Lane(w, k - 1)
  {
    match k
    case 1 =>
    case 2 =>
    case 3 =>
    case 4 =>
    case 5 =>
    case 6 =>
    case _ =>
  }

  /** A byte enters the word from below. */
  function Push(w: bv64, byte: bv8): bv64 {
    WOr(Up(w), byte as bv64)
  }

  lemma LaneLow(w: bv64, byte: bv8)
    ensures Lane(Push(w, byte), 0) == byte
  {
  }

  lemma LaneHigh(w: bv64, byte: bv8, k: nat)
    requires 1 <= k < 8
    ensures Lane(Push(w, byte), k) == Lane(Up(w), k)
  {
    match k
    case 1 =>
    case 2 =>
    case 3 =>
    case 4 =>
    case 5 =>
    case 6 =>
    case _ =>
  }

  lemma SmallOnes()
    ensures One(0) == 0x8000_0000_0000_0000 && One(1) == 0x4000_0000_0000_0000
    ensures One(2) == 0x2000_0000_0000_0000 && One(3) == 0x1000_0000_0000_0000
    ensures One(4) == 0x0800_0000_0000_0000 && One(5) == 0x0400_0000_0000_0000
    ensures One(6) == 0x0200_0000_0000_0000 && One(7) == 0x0100_0000_0000_0000
  {
    assert One(1) == Half(MSB);
    assert One(2) == Half(One(1));
    assert One(3) == Half(One(2));
    assert One(4) == Half(One(3));
    assert One(5) == Half(One(4));
    assert One(6) == Half(One(5));
  }

  lemma TopByteAt(w: bv64, m: bv64, n: bv8)
    requires m == (n as bv64) << 56
    ensures Meets(m, w) <==> Lane(w, 7) & n != 0
  {
  }

  lemma TopByte(w: bv64, b: nat)
    requires b < 8
    ensures Meets(One(b), w) <==> Bit(Lane(w, 7), b)
  {
    hide One, Meets, Lane;
    SmallOnes();
    TopByteAt(w, One(b), Mask(b));
  }

  /** The scanning bit tests, in turn, the bits of the bytes from the most significant one. */
  lemma {:induction false} ScanBit(w: bv64, t: nat)
    requires t < 64
    ensures Tests(w, t) <==> Bit(Lane(w, 7 - t / 8), t % 8)
    decreases t
  {
    hide One, Lane, Bit, Meets, Up, Down;
    if t < 8 {
      TopByte(w, t);
    } else {
      OneByteLater(t - 8);
      ShiftOperands(w, One(t - 8));
      ScanBit(Up(w), t - 8);
      LaneUp(w, 7 - (t - 8) / 8);
    }
  }

  const ULONG_MAX: bv64 := 0xffff_ffff_ffff_ffff

  lemma OneIsNotZero(t: nat)
    requires t < 64
    ensures One(t) != 0
  {
    hide One, Bit, Lane, Meets;
    ScanBit(ULONG_MAX, t);
    LaneConst(7 - t / 8);
    BitConst(t % 8);
    MeetsNothing(ULONG_MAX);
  }

  lemma MeetsNothing(w: bv64)
    ensures !Meets(0, w)
  {
  }

  lemma OneRunsOut()
    ensures One(64) == 0
  {
    hide One;
    SmallOnes();
    OneByteLater(0);
    OneByteLater(8);
    OneByteLater(16);
    OneByteLater(24);
    OneByteLater(32);
    OneByteLater(40);
    OneByteLater(48);
    OneByteLater(56);
  }

  function Padded(s: seq<bv8>, i: nat): bv8 {
    if i < |s| then s[i] else 0
  }

  lemma PushByte(w: bv64, byte: bv8, k: nat)
    requires k < 8
    ensures Lane(Push(w, byte), k) == if k == 0 then byte else Lane(w, k - 1)
  {
    hide Lane, Push, Up;
    if k == 0 {
      LaneLow(w, byte);
    } else {
      LaneHigh(w, byte, k);
      LaneUp(w, k);
    }
  }

  lemma PushNothing(w: bv64)
    ensures Up(w) == Push(w, 0)
  {
  }

  /** The byte that is being pushed, below those already in the word. */
  lemma PushAll(w: bv64, byte: bv8, s: seq<bv8>, at: nat, j: nat)
    requires j < 8 && byte == Padded(s, at + j)
    requires forall k :: 0 <= k < j ==> Lane(w, k) == Padded(s, at + j - 1 - k)
    ensures forall k :: 0 <= k < j + 1 ==> Lane(Push(w, byte), k) == Padded(s, at + j - k)
  {
    hide Lane, Push;
    var w' := Push(w, byte);
    forall k | 0 <= k < j + 1 ensures Lane(w', k) == Padded(s, at + j - k) {
      PushByte(w, byte, k);
    }
  }

  /** Up to eight bytes as a word, the first as the most significant, padded with zeros. */
  method LoadWord(s: seq<bv8>, at: nat) returns (word: bv64)
    requires at <= |s|
    ensures Loaded(s, at, word)
  {
    hide Lane, Up, WOr;
    word := 0;
    var count := |s| - at;
    var c := at;
    var j := 0;
    while j < 8
      invariant 0 <= j <= 8
      invariant c == (if at + j < |s| then at + j else |s|) && count == |s| - c
      invariant forall k :: 0 <= k < j ==> Lane(word, k) == Padded(s, at + j - 1 - k)
    {
      PushAll(word, Padded(s, at + j), s, at, j);
      PushNothing(word);
      ghost var pushed := Push(word, Padded(s, at + j));
      assert forall k :: 0 <= k < j + 1 ==> Lane(pushed, k) == Padded(s, at + (j + 1) - 1 - k);
      word := Up(word);
      if count > 0 {
        word := WOr(word, s[c] as bv64);
        c := c + 1;
        count := count - 1;
      }
      assert word == pushed;
      j := j + 1;
    }
  }

  /** The word is uniform exactly when its bytes are. */
  lemma UniformWord(s: seq<bv8>, at: nat, bit: bool)
    requires at + 8 <= |s|
    ensures Command.WordAt(s, at) == (if bit then 0 else ULONG_MAX) <==>
            forall j :: at <= j < at + 8 ==> s[j] == if bit then 0 else 0xff
  {
    hide Lane, Word;
    var w, u := Command.WordAt(s, at), if bit then 0 else ULONG_MAX;
    forall k | 0 <= k < 8
      ensures Lane(w, k) == s[at + k]
      ensures Lane(u, k) == if bit then 0 else 0xff
    {
      LaneOfWord(s[at..at + 8], k);
      LaneConst(k);
    }
    if forall j :: at <= j < at + 8 ==> s[j] == if bit then 0 else 0xff {
      Command.WordByLanes(w, u);
    }
    if w == u {
      forall j | at <= j < at + 8 ensures s[j] == if bit then 0 else 0xff {
        assert Lane(w, j - at) == s[at + (j - at)];
      }
    }
  }

  lemma UniformByteAt(s: seq<bv8>, i: nat, bit: bool)
    requires i < 8 * |s| && s[i / 8] == if bit then 0 else 0xff
    ensures BitAt(s, i) != bit
  {
    BitConst(i % 8);
  }

  /** A byte other than the uniform one holds a bit of the value looked for. */
  lemma MixedByte(x: bv8, bit: bool)
    requires x != if bit then 0 else 0xff
    ensures exists b :: 0 <= b < 8 && Bit(x, b) == bit
  {
    hide Bit;
    if forall b :: 0 <= b < 8 ==> Bit(x, b) != bit {
      forall b | 0 <= b < 8 ensures Bit(x, b) <==> Bit(if bit then 0 else 0xff, b) {
        BitConst(b);
      }
      ByteByBits(x, if bit then 0 else 0xff);
    }
  }

  /** Fewer than a word is left, or the next word is not uniform. */
  predicate Ahead(s: seq<bv8>, bit: bool, at: nat) {
    at + 8 <= |s| ==> exists j :: at <= j < at + 8 && s[j] != if bit then 0 else 0xff
  }

  /** What LoadWord returns. */
  predicate Loaded(s: seq<bv8>, at: nat, word: bv64) {
    forall k :: 0 <= k < 8 ==> Lane(word, k) == Padded(s, at + 7 - k)
  }

  /** The two skipping loops: everything before `at` is uniform, and either fewer than a word is
      left or the next word is not uniform. */
  method SkipUniform(s: seq<bv8>, bit: bool, address: nat) returns (at: nat)
    ensures at <= |s| && forall j :: 0 <= j < at ==> s[j] == if bit then 0 else 0xff
    ensures Ahead(s, bit, at)
  {
    hide Lane, Word;
    var found := false;
    at := 0;
    while (address + at) % 8 != 0 && at < |s|
      invariant at <= |s| && forall j :: 0 <= j < at ==> s[j] == if bit then 0 else 0xff
      decreases |s| - at
    {
      if s[at] != (if bit then 0 else 0xff) {
        found := true;
        break;
      }
      at := at + 1;
    }
    if !found {
      while at + 8 <= |s|
        invariant at <= |s| && forall j :: 0 <= j < at ==> s[j] == if bit then 0 else 0xff
      {
        UniformWord(s, at, bit);
        if Command.WordAt(s, at) != (if bit then 0 else ULONG_MAX) {
          break;
        }
        at := at + 8;
      }
    }
  }

  lemma WordBit(s: seq<bv8>, at: nat, word: bv64, t: nat)
    requires at <= |s| && t < 64 && Loaded(s, at, word)
    ensures Tests(word, t) <==> (8 * at + t < 8 * |s| && BitAt(s, 8 * at + t))
  {
    hide Lane, One, Bit, Tests;
    ScanBit(word, t);
    assert Lane(word, 7 - t / 8) == Padded(s, at + t / 8);
    BitConst(t % 8);
    assert (8 * at + t) / 8 == at + t / 8 && (8 * at + t) % 8 == t % 8;
  }

  /** redisBitpos, for a string at any address. The loop always returns: the panic behind it is
      never reached. */
  method RedisBitpos(s: seq<bv8>, bit: bool, address: nat) returns (pos: int)
    ensures Found(s, bit, pos)
  {
    hide Lane, Bit, One, Meets, Half, Loaded, Ahead, Found, NoneIn;
    var at := SkipUniform(s, bit, address);
    SkippedBits(s, bit, at);
    pos := 8 * at;
    var word := LoadWord(s, at);
    if bit && word == 0 {
      NoOneLeft(s, at);
      NotFound(s);
      return -1;
    }
    var one := MSB;
    ghost var t := 0;
    OneStarts();
    MatchAhead(s, bit, at, word);
    while one != 0
      invariant t <= 64 && one == One(t) && pos == 8 * at + t
      invariant forall u :: 0 <= u < t ==> Tests(word, u) != bit
      decreases 64 - t
    {
      if t == 64 {
        OneRunsOut();
      }
      if Meets(one, word) == bit {
        FoundHere(s, bit, at, word, t);
        return;
      }
      OneNext(t);
      one := Half(one);
      pos := pos + 1;
      t := t + 1;
    }
    if t < 64 {
      OneIsNotZero(t);
    }
    assert false;
  }

  lemma OneStarts()
    ensures One(0) == MSB
  {
  }

  lemma OneNext(t: nat)
    ensures One(t + 1) == Half(One(t))
  {
  }

  lemma SkippedBits(s: seq<bv8>, bit: bool, at: nat)
    requires at <= |s| && forall j :: 0 <= j < at ==> s[j] == if bit then 0 else 0xff
    ensures NoneIn(s, bit, 0, 8 * at)
  {
    forall i | 0 <= i < 8 * at ensures BitAt(s, i) != bit {
      UniformByteAt(s, i, bit);
    }
  }

  lemma NotFound(s: seq<bv8>)
    requires NoneIn(s, true, 0, 8 * |s|)
    ensures Found(s, true, -1)
  {
  }

  lemma NoOneLeft(s: seq<bv8>, at: nat)
    requires at <= |s| && NoneIn(s, true, 0, 8 * at) && Loaded(s, at, 0) && Ahead(s, true, at)
    ensures NoneIn(s, true, 0, 8 * |s|)
  {
    hide Lane, Bit;
    forall j | at <= j < at + 8 && j < |s| ensures s[j] == 0 {
      LaneConst(7 - (j - at));
      assert Lane(0, 7 - (j - at)) == Padded(s, j);
    }
    forall i | 8 * at <= i < 8 * |s| ensures BitAt(s, i) != true {
      UniformByteAt(s, i, true);
    }
  }

  /** The loaded word holds a bit of the value looked for. */
  lemma MatchAhead(s: seq<bv8>, bit: bool, at: nat, word: bv64)
    requires at <= |s| && Loaded(s, at, word) && Ahead(s, bit, at) && (bit ==> word != 0)
    ensures exists t :: 0 <= t < 64 && Tests(word, t) == bit
  {
    hide Lane, Bit, One, Tests;
    if !bit && at + 8 > |s| {
      var t := 8 * (|s| - at);
      WordBit(s, at, word, t);
      assert Tests(word, t) == bit;
    } else {
      var j := MixedAhead(s, bit, at, word);
      MixedByte(Lane(word, 7 - j), bit);
      var b :| 0 <= b < 8 && Bit(Lane(word, 7 - j), b) == bit;
      var t := 8 * j + b;
      assert t / 8 == j && t % 8 == b;
      ScanBit(word, t);
      assert Tests(word, t) == bit;
    }
  }

  lemma MixedAhead(s: seq<bv8>, bit: bool, at: nat, word: bv64) returns (j: nat)
    requires at <= |s| && Loaded(s, at, word) && Ahead(s, bit, at) && (bit ==> word != 0) && (bit || at + 8 <= |s|)
    ensures j < 8 && Lane(word, 7 - j) != if bit then 0 else 0xff
  {
    hide Lane, Bit;
    if bit {
      if forall k :: 0 <= k < 8 ==> Lane(word, k) == 0 {
        forall k | 0 <= k < 8 ensures Lane(word, k) == Lane(0, k) {
          LaneConst(k);
        }
        Command.WordByLanes(word, 0);
      }
      var k :| 0 <= k < 8 && Lane(word, k) != 0;
      j := 7 - k;
    } else {
      var i :| at <= i < at + 8 && s[i] != 0xff;
      j := i - at;
      assert Lane(word, 7 - j) == Padded(s, at + j);
    }
  }

  lemma FoundHere(s: seq<bv8>, bit: bool, at: nat, word: bv64, t: nat)
    requires at <= |s| && t < 64 && NoneIn(s, bit, 0, 8 * at) && Loaded(s, at, word)
    requires forall u :: 0 <= u < t ==> Tests(word, u) != bit
    requires Tests(word, t) == bit
    ensures Found(s, bit, 8 * at + t)
  {
    hide Lane, Bit, One, BitAt, Loaded, Tests;
    WordBit(s, at, word, t);
    var pos := 8 * at + t;
    forall i | 8 * at <= i < pos
      ensures i < 8 * |s| ==> BitAt(s, i) != bit
      ensures !bit ==> i < 8 * |s|
    {
      WordBit(s, at, word, i - 8 * at);
      assert Tests(word, i - 8 * at) != bit;
    }
    if pos > 8 * |s| {
      assert Tests(word, 8 * |s| - 8 * at) != bit;
      WordBit(s, at, word, 8 * |s| - 8 * at);
    }
    if pos < 8 * |s| {
      assert FirstIn(s, bit, 0, 8 * |s|, pos);
    }
  }
}

/**
 The command log: how commands are written, and how a file is loaded back when its tail may be
 torn. The loader is given as a function over bytes (`LoadFile`) and as the imperative loop
 (`LoadSingleAppendOnlyFile`), proved equal. The theorems speak of every byte-prefix of every
 log, transactions included.
 */
module AofLog {
  import opened Common

  newtype byte = x: int | 0 <= x < 256

  const STAR: byte := 42
  const DOLLAR: byte := 36
  const HASH: byte := 35
  const CR: byte := 13
  const LF: byte := 10
  const CRLF: seq<byte> := [CR, LF]

  /** AOF_ANNOTATION_LINE_MAX_LEN: fgets reads at most one byte less. */
  const LINE_MAX: nat := 1024

  /** A command is its arguments; they may hold any bytes. */
  type Command = seq<seq<byte>>

  // ---------- writing ----------

  function Digit(d: nat): byte
    requires d < 10
  {
    (48 + d) as byte
  }

  function Decimal(n: nat): (r: seq<byte>)
    ensures r != []
  {
    if n < 10 then [Digit(n)] else Decimal(n / 10) + [Digit(n % 10)]
  }

  function EncodeArg(a: seq<byte>): seq<byte> {
    ([DOLLAR] + Decimal(|a|) + CRLF) + a + CRLF
  }

  function EncodeArgs(args: seq<seq<byte>>): seq<byte> {
    if args == [] then [] else EncodeArg(args[0]) + EncodeArgs(args[1..])
  }

  /** catAppendOnlyGenericCommand. */
  function Encode(c: Command): seq<byte> {
    ([STAR] + Decimal(|c|) + CRLF) + EncodeArgs(c)
  }

  function EncodeAll(log: seq<Command>): seq<byte> {
    if log == [] then [] else Encode(log[0]) + EncodeAll(log[1..])
  }

  // ---------- reading numbers and lines ----------

  predicate IsDigit(b: byte) {
    48 <= b <= 57
  }

  predicate IsBlank(b: byte) {
    b == 32 || 9 <= b <= 13
  }

  function Digits(s: seq<byte>, acc: nat): nat
    decreases |s|
  {
    if s == [] || !IsDigit(s[0]) then acc else Digits(s[1..], 10 * acc + (s[0] as int - 48))
  }

  /** atoi and strtol: blanks, a sign, digits up to the first other byte. */
  function Atoi(s: seq<byte>): int
    decreases |s|
  {
    if s == [] then 0
    else if IsBlank(s[0]) then Atoi(s[1..])
    else if s[0] == 45 then var d: int := Digits(s[1..], 0); -d
    else if s[0] == 43 then Digits(s[1..], 0)
    else Digits(s, 0)
  }

  /** End of the line that fgets returns from position p: after a newline, at the end of the
      file, or when the buffer is full. */
  function LineEnd(f: seq<byte>, p: nat, room: nat): (r: nat)
    requires p <= |f|
    ensures p <= r <= |f|
    ensures p < |f| && room > 0 ==> p < r
    decreases room
  {
    if room == 0 || p == |f| then p
    else if f[p] == LF then p + 1
    else LineEnd(f, p + 1, room - 1)
  }

  function NextLine(f: seq<byte>, p: nat): (r: nat)
    requires p <= |f|
    ensures p <= r <= |f|
    ensures p < |f| ==> p < r
  {
    LineEnd(f, p, LINE_MAX - 1)
  }

  // ---------- reading one command ----------

  datatype Parse =
    | Parsed(cmd: Command, end: nat)
    | Annotation(end: nat)
    | AtEnd
    | ReadError  // the file ended inside a command
    | Unreadable  // a read error before the end of the file
    | FormatError

  /** One argument: a length line, the bytes, and two bytes that are thrown away. None when
      the file ends first. */
  datatype ArgParse = Arg(arg: seq<byte>, end: nat) | ArgEof | ArgFormat

  function ReadArg(f: seq<byte>, p: nat): (r: ArgParse)
    requires p <= |f|
    ensures r.Arg? ==> p < r.end <= |f|
  {
    if p == |f| then ArgEof
    else if f[p] != DOLLAR then ArgFormat
    else
      var q := NextLine(f, p);
      var len := Atoi(f[p + 1..q]);
      if len < 0 || q + len > |f| then ArgEof
      else if q + len + 2 > |f| then ArgEof
      else Arg(f[q..q + len], q + len + 2)
  }

  function ReadArgs(f: seq<byte>, p: nat, n: nat, acc: Command): (r: Parse)
    requires p <= |f|
    ensures r.Parsed? ==> p <= r.end <= |f|
    ensures !r.Annotation? && !r.AtEnd? && !r.Unreadable?
    decreases n
  {
    if n == 0 then Parsed(acc, p)
    else match ReadArg(f, p)
      case ArgEof => ReadError
      case ArgFormat => FormatError
      case Arg(a, end) => ReadArgs(f, end, n - 1, acc + [a])
  }

  /** feof after the line p..q was read: fgets looked past the last byte. */
  predicate HitEnd(f: seq<byte>, p: nat, q: nat)
    requires p < q <= |f|
  {
    q == |f| && f[q - 1] != LF && q - p < LINE_MAX - 1
  }

  function ReadCommand(f: seq<byte>, p: nat): (r: Parse)
    requires p <= |f|
    ensures r.Parsed? || r.Annotation? ==> p < r.end <= |f|
  {
    if p == |f| then AtEnd
    else
      var q := NextLine(f, p);
      if f[p] == HASH then Annotation(q)
      else if f[p] != STAR then FormatError
      else if q == p + 1 || f[p + 1] == 0 then if HitEnd(f, p, q) then ReadError else Unreadable
      else
        var argc := Atoi(f[p + 1..q]);
        if argc < 1 then FormatError else ReadArgs(f, q, argc, [])
  }

  // ---------- running commands ----------

  datatype Kind = Multi | Exec | Other | Unknown

  /** Executed commands, and the queue of an open transaction. */
  datatype Client = Client(executed: seq<Command>, queue: seq<Command>, inMulti: bool)

  const NewClient := Client([], [], false)

  function RunOne(c: Client, cmd: Command, kind: Kind): Client {
    if c.inMulti && kind != Exec then c.(queue := c.queue + [cmd])
    else match kind
      case Multi => c.(inMulti := true, queue := [])
      case Exec => if c.inMulti then Client(c.executed + c.queue, [], false) else c
      case _ => c.(executed := c.executed + [cmd])
  }

  function RunAll(c: Client, log: seq<Command>, kind: Command -> Kind): Client
    decreases |log|
  {
    if log == [] then c else RunAll(RunOne(c, log[0], kind(log[0])), log[1..], kind)
  }

  // ---------- loading a file ----------

  datatype Config = Config(loadTruncated: bool, corruptTailMax: nat, truncateWorks: bool)

  datatype Status = AOF_OK | AOF_EMPTY | AOF_TRUNCATED | AOF_BROKEN_RECOVERED | AOF_FAILED

  /** What loading returns, runs, and leaves in the file. */
  datatype Loaded = Loaded(status: Status, executed: seq<Command>, file: seq<byte>)

  function UnexpectedEof(f: seq<byte>, c: Client, valid: nat, cfg: Config): Loaded
    requires valid <= |f|
  {
    if cfg.loadTruncated && cfg.truncateWorks then Loaded(AOF_TRUNCATED, c.executed, f[..valid])
    else Loaded(AOF_FAILED, c.executed, f)
  }

  function BadFormat(f: seq<byte>, c: Client, valid: nat, cfg: Config): Loaded
    requires valid <= |f|
  {
    if cfg.corruptTailMax > 0 && |f| - valid < cfg.corruptTailMax && cfg.truncateWorks
    then Loaded(AOF_BROKEN_RECOVERED, c.executed, f[..valid])
    else Loaded(AOF_FAILED, c.executed, f)
  }

  function LoadFrom(f: seq<byte>, p: nat, c: Client, valid: nat, beforeMulti: nat, kind: Command -> Kind, cfg: Config): Loaded
    requires p <= |f| && valid <= |f| && beforeMulti <= |f|
    decreases |f| - p
  {
    match ReadCommand(f, p)
    case AtEnd => if c.inMulti then UnexpectedEof(f, c, beforeMulti, cfg) else Loaded(AOF_OK, c.executed, f)
    case ReadError => UnexpectedEof(f, c, valid, cfg)
    case Unreadable => Loaded(AOF_FAILED, c.executed, f)
    case FormatError => BadFormat(f, c, valid, cfg)
    case Annotation(end) => LoadFrom(f, end, c, valid, beforeMulti, kind, cfg)
    case Parsed(cmd, end) =>
      if kind(cmd) == Unknown then Loaded(AOF_FAILED, c.executed, f)
      else
        LoadFrom(f, end, RunOne(c, cmd, kind(cmd)),
                 if cfg.loadTruncated || cfg.corruptTailMax > 0 then end else valid,
                 if kind(cmd) == Multi then valid else beforeMulti,
                 kind, cfg)
  }

  function LoadFile(f: seq<byte>, kind: Command -> Kind, cfg: Config): Loaded {
    if f == [] then Loaded(AOF_EMPTY, [], f) else LoadFrom(f, 0, NewClient, 0, 0, kind, cfg)
  }

  /** "REDIS" */
  const REDIS: seq<byte> := [82, 69, 68, 73, 83]

  predicate HasPreamble(f: seq<byte>) {
    |f| >= 5 && f[..5] == REDIS
  }

  /** A file that may start with an RDB. `rdb` stands for loading that: what it restores and where
      it ends, or None. Offsets to truncate to still start from zero then. */
  function LoadAny(f: seq<byte>, rdb: seq<byte> -> Option<(seq<Command>, nat)>, kind: Command -> Kind, cfg: Config): Loaded {
    if !HasPreamble(f) then LoadFile(f, kind, cfg)
    else
      var r := rdb(f);
      if r.None? || r.value.1 > |f| then Loaded(AOF_FAILED, [], f)
      else LoadFrom(f, r.value.1, Client(r.value.0, [], false), 0, 0, kind, cfg)
  }

  // ---------- the loader's loops ----------

  method ReadArguments(f: seq<byte>, start: nat, argc: nat) returns (r: Parse)
    requires start <= |f|
    ensures r == ReadArgs(f, start, argc, [])
  {
    var p: nat := start;
    var argv: Command := [];
    var j: nat := 0;
    while j < argc
      invariant 0 <= j <= argc && p <= |f|
      invariant ReadArgs(f, start, argc, []) == ReadArgs(f, p, argc - j, argv)
    {
      if p == |f| {
        return ReadError;
      }
      if f[p] != DOLLAR {
        return FormatError;
      }
      var q := NextLine(f, p);
      var len := Atoi(f[p + 1..q]);
      if len < 0 || q + len > |f| {
        return ReadError;
      }
      var arg := f[q..q + len];
      if q + len + 2 > |f| {
        return ReadError;
      }
      argv := argv + [arg];
      p := q + len + 2;
      j := j + 1;
    }
    r := Parsed(argv, p);
  }

  method LoadSingleAppendOnlyFile(f: seq<byte>, rdb: seq<byte> -> Option<(seq<Command>, nat)>, kind: Command -> Kind, cfg: Config)
    returns (r: Loaded)
    ensures r == LoadAny(f, rdb, kind, cfg)
  {
    if f == [] {
      return Loaded(AOF_EMPTY, [], f);
    }
    var p: nat, valid: nat, beforeMulti: nat := 0, 0, 0;
    var c := NewClient;
    if |f| >= 5 && f[..5] == REDIS {
      var loaded := rdb(f);
      if loaded.None? || loaded.value.1 > |f| {
        return Loaded(AOF_FAILED, [], f);
      }
      c := Client(loaded.value.0, [], false);
      p := loaded.value.1;
    }
    while p < |f|
      invariant p <= |f| && valid <= |f| && beforeMulti <= |f|
      invariant LoadAny(f, rdb, kind, cfg) == LoadFrom(f, p, c, valid, beforeMulti, kind, cfg)
      decreases |f| - p
    {
      var q := NextLine(f, p);
      if f[p] == HASH {
        p := q;
        continue;
      }
      if f[p] != STAR {
        return BadFormat(f, c, valid, cfg);
      }
      if q == p + 1 || f[p + 1] == 0 {
        if !HitEnd(f, p, q) {
          return Loaded(AOF_FAILED, c.executed, f);
        }
        return UnexpectedEof(f, c, valid, cfg);
      }
      var argc := Atoi(f[p + 1..q]);
      if argc < 1 {
        return BadFormat(f, c, valid, cfg);
      }
      var args := ReadArguments(f, q, argc);
      if args == ReadError {
        return UnexpectedEof(f, c, valid, cfg);
      }
      if args == FormatError {
        return BadFormat(f, c, valid, cfg);
      }
      var k := kind(args.cmd);
      if k == Unknown {
        return Loaded(AOF_FAILED, c.executed, f);
      }
      if k == Multi {
        beforeMulti := valid;
      }
      c := RunOne(c, args.cmd, k);
      if cfg.loadTruncated || cfg.corruptTailMax > 0 {
        valid := args.end;
      }
      p := args.end;
    }
    if c.inMulti {
      return UnexpectedEof(f, c, beforeMulti, cfg);
    }
    r := Loaded(AOF_OK, c.executed, f);
  }

  // ---------- numbers ----------

  predicate AllDigits(s: seq<byte>) {
    forall i :: 0 <= i < |s| ==> IsDigit(s[i])
  }

  lemma {:induction false} DecimalShape(n: nat)
    ensures AllDigits(Decimal(n))
    ensures n > 0 ==> Decimal(n)[0] != 48
  {
    if n >= 10 {
      DecimalShape(n / 10);
    }
  }

  lemma {:induction false} DigitsSnoc(s: seq<byte>, d: byte, acc: nat)
    requires AllDigits(s) && IsDigit(d)
    ensures Digits(s + [d], acc) == 10 * Digits(s, acc) + (d as int - 48)
    decreases |s|
  {
    if s == [] {
      assert (s + [d])[1..] == [];
    } else {
      assert (s + [d])[1..] == s[1..] + [d];
      DigitsSnoc(s[1..], d, 10 * acc + (s[0] as int - 48));
    }
  }

  lemma {:induction false} DecimalValue(n: nat)
    ensures Digits(Decimal(n), 0) == n
  {
    DecimalShape(n);
    if n >= 10 {
      DecimalValue(n / 10);
      DecimalShape(n / 10);
      DigitsSnoc(Decimal(n / 10), Digit(n % 10), 0);
    } else {
      assert [Digit(n)][1..] == [];
    }
  }

  lemma {:induction false} DigitsStop(s: seq<byte>, rest: seq<byte>, acc: nat)
    requires AllDigits(s) && (rest == [] || !IsDigit(rest[0]))
    ensures Digits(s + rest, acc) == Digits(s, acc)
    decreases |s|
  {
    if s == [] {
      assert s + rest == rest;
    } else {
      assert (s + rest)[1..] == s[1..] + rest;
      DigitsStop(s[1..], rest, 10 * acc + (s[0] as int - 48));
    }
  }

  lemma {:induction false} DigitsGrow(s: seq<byte>, acc: nat)
    ensures Digits(s, acc) >= acc
    decreases |s|
  {
    if s != [] && IsDigit(s[0]) {
      DigitsGrow(s[1..], 10 * acc + (s[0] as int - 48));
    }
  }

  /** The count in a header line reads back. */
  lemma AtoiDecimal(n: nat, rest: seq<byte>)
    requires rest == [] || !IsDigit(rest[0])
    ensures Atoi(Decimal(n) + rest) == n
  {
    DecimalShape(n);
    DecimalValue(n);
    DigitsStop(Decimal(n), rest, 0);
    var s := Decimal(n) + rest;
    assert s[0] == Decimal(n)[0] && IsDigit(s[0]);
  }

  /** A count cut short is still positive, and not a format error. */
  lemma AtoiTornDecimal(n: nat, s: seq<byte>)
    requires n > 0 && s != [] && s[0] == Decimal(n)[0]
    ensures Atoi(s) >= 1
  {
    DecimalShape(n);
    DigitsGrow(s[1..], s[0] as int - 48);
  }

  /** Counts and lengths are 64-bit in the server, so their lines fit the reader's buffer. */
  predicate Fits(n: nat) {
    n < 0x8000_0000_0000_0000
  }

  function Pow10(k: nat): nat {
    if k == 0 then 1 else 10 * Pow10(k - 1)
  }

  lemma {:induction false} DecimalLength(n: nat, k: nat)
    requires k > 0 && n < Pow10(k)
    ensures |Decimal(n)| <= k
    decreases k
  {
    if n >= 10 {
      assert k > 1 by {
        assert Pow10(1) == 10 * Pow10(0);
      }
      assert n / 10 < Pow10(k - 1);
      DecimalLength(n / 10, k - 1);
    }
  }

  lemma FitsLength(n: nat)
    requires Fits(n)
    ensures |Decimal(n)| <= 19
  {
    assert Pow10(5) == 100000;
    assert Pow10(10) == 100000 * Pow10(5);
    assert Pow10(15) == 100000 * Pow10(10);
    assert Pow10(19) == 10000 * Pow10(15);
    DecimalLength(n, 19);
  }

  predicate Representable(c: Command) {
    0 < |c| && Fits(|c|) && forall i :: 0 <= i < |c| ==> Fits(|c[i]|)
  }

  // ---------- header lines ----------

  function Header(tag: byte, n: nat): seq<byte> {
    [tag] + Decimal(n) + CRLF
  }

  lemma {:induction false} LineStops(f: seq<byte>, p: nat, e: nat, room: nat)
    requires p <= e <= |f| && e - p < room
    requires forall k :: p <= k < e ==> f[k] != LF
    requires e < |f| ==> f[e] == LF
    ensures LineEnd(f, p, room) == if e < |f| then e + 1 else e
    decreases e - p
  {
    if p < e {
      LineStops(f, p + 1, e, room - 1);
    }
  }

  /** f holds the bytes of w from position p on, as far as f goes. */
  predicate Holds(f: seq<byte>, p: nat, w: seq<byte>) {
    p <= |f| && forall k :: 0 <= k < |w| && p + k < |f| ==> f[p + k] == w[k]
  }

  lemma HeaderLine(f: seq<byte>, p: nat, tag: byte, n: nat)
    requires Fits(n) && tag != LF && p < |f| && Holds(f, p, Header(tag, n))
    ensures NextLine(f, p) == if p + |Header(tag, n)| <= |f| then p + |Header(tag, n)| else |f|
  {
    var h := Header(tag, n);
    FitsLength(n);
    DecimalShape(n);
    assert forall k :: 0 < k <= |Decimal(n)| ==> h[k] == Decimal(n)[k - 1];
    var e := if p + |h| <= |f| then p + |h| - 1 else |f|;
    forall k | p <= k < e ensures f[k] != LF {
      assert f[p + (k - p)] == h[k - p];
    }
    if e < |f| {
      assert f[p + (|h| - 1)] == h[|h| - 1];
    }
    LineStops(f, p, e, LINE_MAX - 1);
  }

  lemma HeaderCount(f: seq<byte>, p: nat, tag: byte, n: nat)
    requires Holds(f, p, Header(tag, n)) && p + |Header(tag, n)| <= |f|
    ensures Atoi(f[p + 1..p + |Header(tag, n)|]) == n
  {
    var h := Header(tag, n);
    var s := f[p + 1..p + |h|];
    assert s == Decimal(n) + CRLF by {
      forall k | 0 <= k < |s| ensures s[k] == (Decimal(n) + CRLF)[k] {
        assert f[p + (k + 1)] == h[k + 1];
      }
    }
    AtoiDecimal(n, CRLF);
  }

  // ---------- one argument, one command ----------

  lemma ArgWhole(f: seq<byte>, p: nat, a: seq<byte>)
    requires Fits(|a|) && Holds(f, p, EncodeArg(a)) && p + |EncodeArg(a)| <= |f|
    ensures ReadArg(f, p) == Arg(a, p + |EncodeArg(a)|)
  {
    var e, h := EncodeArg(a), Header(DOLLAR, |a|);
    assert e == h + a + CRLF;
    assert forall k :: 0 <= k < |h| ==> e[k] == h[k];
    assert f[p + 0] == e[0];
    HeaderLine(f, p, DOLLAR, |a|);
    HeaderCount(f, p, DOLLAR, |a|);
    var q := p + |h|;
    forall k | 0 <= k < |a| ensures f[q + k] == a[k] {
      assert f[p + (|h| + k)] == e[|h| + k];
    }
    assert f[q..q + |a|] == a;
  }

  lemma ArgTorn(f: seq<byte>, p: nat, a: seq<byte>)
    requires Fits(|a|) && Holds(f, p, EncodeArg(a)) && |f| < p + |EncodeArg(a)|
    ensures ReadArg(f, p) == ArgEof
  {
    var e, h := EncodeArg(a), Header(DOLLAR, |a|);
    assert e == h + a + CRLF;
    assert forall k :: 0 <= k < |h| ==> e[k] == h[k];
    if p < |f| {
      assert f[p + 0] == e[0];
      HeaderLine(f, p, DOLLAR, |a|);
      if p + |h| <= |f| {
        HeaderCount(f, p, DOLLAR, |a|);
      }
    }
  }

  lemma HoldsParts(f: seq<byte>, p: nat, a: seq<byte>, b: seq<byte>)
    requires Holds(f, p, a + b)
    ensures Holds(f, p, a)
    ensures p + |a| <= |f| ==> Holds(f, p + |a|, b)
  {
    assert forall k :: 0 <= k < |a| ==> (a + b)[k] == a[k];
    forall k | 0 <= k < |b| && p + |a| + k < |f| ensures f[p + |a| + k] == b[k] {
      assert f[p + (|a| + k)] == (a + b)[|a| + k];
    }
  }

  lemma {:induction false} ArgsRead(f: seq<byte>, p: nat, args: seq<seq<byte>>, acc: Command)
    requires forall i :: 0 <= i < |args| ==> Fits(|args[i]|)
    requires Holds(f, p, EncodeArgs(args))
    ensures ReadArgs(f, p, |args|, acc) ==
            if p + |EncodeArgs(args)| <= |f| then Parsed(acc + args, p + |EncodeArgs(args)|) else ReadError
    decreases |args|
  {
    hide Holds, EncodeArg, ReadArg;
    if args == [] {
      assert acc + args == acc;
    } else {
      var e := EncodeArg(args[0]);
      HoldsParts(f, p, e, EncodeArgs(args[1..]));
      if |f| < p + |e| {
        ArgTorn(f, p, args[0]);
      } else {
        ArgWhole(f, p, args[0]);
        ArgsRead(f, p + |e|, args[1..], acc + [args[0]]);
        assert acc + [args[0]] + args[1..] == acc + args;
      }
    }
  }

  /** A command cut inside its header: the count line is short, but never a format error. */
  lemma HeaderTorn(f: seq<byte>, p: nat, n: nat)
    requires 0 < n && Fits(n) && p < |f| && Holds(f, p, Header(STAR, n)) && |f| < p + |Header(STAR, n)|
    ensures ReadCommand(f, p) == ReadError
  {
    var h := Header(STAR, n);
    HeaderLine(f, p, STAR, n);
    assert f[p + 0] == h[0];
    if p + 1 < |f| {
      DecimalShape(n);
      assert f[p + 1] == h[1] == Decimal(n)[0];
      assert f[p + 1..|f|] == f[p + 1..];
      AtoiTornDecimal(n, f[p + 1..]);
      hide Atoi, NextLine, Decimal, Holds;
      assert ReadArg(f, |f|) == ArgEof;
    }
  }

  lemma HeaderWhole(f: seq<byte>, p: nat, n: nat)
    requires 0 < n && Fits(n) && Holds(f, p, Header(STAR, n)) && p + |Header(STAR, n)| <= |f|
    ensures ReadCommand(f, p) == ReadArgs(f, p + |Header(STAR, n)|, n, [])
  {
    var h := Header(STAR, n);
    HeaderLine(f, p, STAR, n);
    HeaderCount(f, p, STAR, n);
    DecimalShape(n);
    assert f[p + 0] == h[0];
    assert f[p + 1] == h[1] == Decimal(n)[0];
  }

  /** A whole command reads back as itself; a command cut anywhere, even inside its header,
      is a read error and never a format error. */
  lemma CommandRead(f: seq<byte>, p: nat, c: Command)
    requires Representable(c) && p < |f| && Holds(f, p, Encode(c))
    ensures ReadCommand(f, p) == if p + |Encode(c)| <= |f| then Parsed(c, p + |Encode(c)|) else ReadError
  {
    var h := Header(STAR, |c|);
    assert Encode(c) == h + EncodeArgs(c);
    hide ReadCommand, ReadArgs, Header, EncodeArgs, Holds;
    HoldsParts(f, p, h, EncodeArgs(c));
    if p + |h| <= |f| {
      HeaderWhole(f, p, |c|);
      ArgsRead(f, p + |h|, c, []);
      assert [] + c == c;
    } else {
      HeaderTorn(f, p, |c|);
    }
  }

  // ---------- whole files ----------

  /** How many commands lie wholly inside the first n bytes. */
  function Complete(log: seq<Command>, n: nat): (k: nat)
    ensures k <= |log|
    decreases |log|
  {
    if log == [] || n < |Encode(log[0])| then 0 else 1 + Complete(log[1..], n - |Encode(log[0])|)
  }

  /** Offset in front of the last MULTI. */
  function MultiStart(p: nat, before: nat, log: seq<Command>, kind: Command -> Kind): nat
    decreases |log|
  {
    if log == [] then before
    else MultiStart(p + |Encode(log[0])|, if kind(log[0]) == Multi then p else before, log[1..], kind)
  }

  predicate Loadable(log: seq<Command>, kind: Command -> Kind) {
    forall i :: 0 <= i < |log| ==> Representable(log[i]) && kind(log[i]) != Unknown
  }

  lemma {:induction false} MultiStartBound(p: nat, before: nat, log: seq<Command>, kind: Command -> Kind)
    requires before <= p
    ensures MultiStart(p, before, log, kind) <= p + |EncodeAll(log)|
    decreases |log|
  {
    if log != [] {
      MultiStartBound(p + |Encode(log[0])|, if kind(log[0]) == Multi then p else before, log[1..], kind);
    }
  }

  lemma {:induction false} CompleteFits(log: seq<Command>, n: nat)
    ensures |EncodeAll(log[..Complete(log, n)])| <= n
    decreases |log|
  {
    if log != [] && n >= |Encode(log[0])| {
      CompleteFits(log[1..], n - |Encode(log[0])|);
      var k := Complete(log, n);
      assert log[..k][1..] == log[1..][..k - 1];
    }
  }

  lemma LoadStep(f: seq<byte>, p: nat, c: Client, before: nat, cmd: Command, kind: Command -> Kind, cfg: Config)
    requires Representable(cmd) && kind(cmd) != Unknown && cfg.loadTruncated
    requires p < |f| && before <= p && Holds(f, p, Encode(cmd))
    ensures LoadFrom(f, p, c, p, before, kind, cfg) ==
            var q := p + |Encode(cmd)|;
            if q <= |f| then
              LoadFrom(f, q, RunOne(c, cmd, kind(cmd)), q, if kind(cmd) == Multi then p else before, kind, cfg)
            else UnexpectedEof(f, c, p, cfg)
  {
    hide ReadCommand, Encode, Holds, Representable, UnexpectedEof, RunOne;
    CommandRead(f, p, cmd);
  }

  lemma LoadEnd(f: seq<byte>, c: Client, valid: nat, before: nat, kind: Command -> Kind, cfg: Config)
    requires valid <= |f| && before <= |f|
    ensures LoadFrom(f, |f|, c, valid, before, kind, cfg) ==
            if c.inMulti then UnexpectedEof(f, c, before, cfg) else Loaded(AOF_OK, c.executed, f)
  {
  }

  lemma CompleteStep(rest: seq<Command>, n: nat)
    requires rest != []
    ensures if n < |Encode(rest[0])| then Complete(rest, n) == 0 && rest[..Complete(rest, n)] == []
            else
              var k := Complete(rest, n);
              k > 0 && rest[..k] != [] && rest[..k][0] == rest[0] &&
              rest[..k][1..] == rest[1..][..Complete(rest[1..], n - |Encode(rest[0])|)]
  {
  }

  lemma EncodeNonEmpty(c: Command)
    ensures Encode(c) != []
  {
  }

  /** The loader on the bytes from p on, when they are a prefix of the log `rest`. */
  lemma {:induction false} LoadPrefix(f: seq<byte>, p: nat, c: Client, before: nat, rest: seq<Command>, kind: Command -> Kind, cfg: Config)
    requires p <= |f| && before <= p && cfg.loadTruncated
    requires Loadable(rest, kind)
    requires Holds(f, p, EncodeAll(rest)) && |f| <= p + |EncodeAll(rest)|
    ensures var k := Complete(rest, |f| - p);
            var c' := RunAll(c, rest[..k], kind);
            var end := p + |EncodeAll(rest[..k])|;
            var ms := MultiStart(p, before, rest[..k], kind);
            && end <= |f| && ms <= |f|
            && LoadFrom(f, p, c, p, before, kind, cfg) ==
               (if end < |f| then UnexpectedEof(f, c', end, cfg)
                else if c'.inMulti then UnexpectedEof(f, c', ms, cfg)
                else Loaded(AOF_OK, c'.executed, f))
    decreases |rest|
  {
    hide Holds, Encode, Representable, RunOne, UnexpectedEof, Complete, LoadFrom;
    var n := |f| - p;
    var k := Complete(rest, n);
    CompleteFits(rest, n);
    MultiStartBound(p, before, rest[..k], kind);
    LoadEnd(f, c, |f|, before, kind, cfg);
    if rest == [] {
      assert rest[..k] == [];
    } else {
      CompleteStep(rest, n);
      EncodeNonEmpty(rest[0]);
      if p < |f| {
        var e := Encode(rest[0]);
        HoldsParts(f, p, e, EncodeAll(rest[1..]));
        LoadStep(f, p, c, before, rest[0], kind, cfg);
        if p + |e| <= |f| {
          var kd := kind(rest[0]);
          LoadPrefix(f, p + |e|, RunOne(c, rest[0], kd), if kd == Multi then p else before, rest[1..], kind, cfg);
        }
      }
    }
  }

  // ---------- transactions ----------

  /** Transactions do not nest, and EXEC only closes an open one. */
  predicate Bracketed(c: Client, log: seq<Command>, kind: Command -> Kind)
    decreases |log|
  {
    log == [] ||
    ((if c.inMulti then kind(log[0]) != Multi else kind(log[0]) != Exec) &&
     Bracketed(RunOne(c, log[0], kind(log[0])), log[1..], kind))
  }

  /** How many leading commands are outside an unfinished trailing transaction. */
  function Settled(inMulti: bool, since: nat, i: nat, log: seq<Command>, kind: Command -> Kind): nat
    decreases |log|
  {
    if log == [] then if inMulti then since else i
    else match kind(log[0])
      case Multi => Settled(true, i, i + 1, log[1..], kind)
      case Exec => Settled(false, since, i + 1, log[1..], kind)
      case _ => Settled(inMulti, since, i + 1, log[1..], kind)
  }

  function SettledIn(log: seq<Command>, kind: Command -> Kind): nat {
    Settled(false, 0, 0, log, kind)
  }

  lemma {:induction false} RunAllConcat(c: Client, a: seq<Command>, b: seq<Command>, kind: Command -> Kind)
    ensures RunAll(c, a + b, kind) == RunAll(RunAll(c, a, kind), b, kind)
    decreases |a|
  {
    if a == [] {
      assert a + b == b;
    } else {
      assert (a + b)[1..] == a[1..] + b;
      RunAllConcat(RunOne(c, a[0], kind(a[0])), a[1..], b, kind);
    }
  }

  lemma {:induction false} EncodeAllConcat(a: seq<Command>, b: seq<Command>)
    ensures EncodeAll(a + b) == EncodeAll(a) + EncodeAll(b)
    decreases |a|
  {
    if a == [] {
      assert a + b == b;
    } else {
      assert (a + b)[1..] == a[1..] + b;
      EncodeAllConcat(a[1..], b);
    }
  }

  /** With `pre` already run: where the unfinished transaction starts, in commands and in
      bytes, and that nothing of it was executed. */
  lemma {:induction false} SettledSplits(pre: seq<Command>, log: seq<Command>, since: nat, before: nat, kind: Command -> Kind)
    requires var c := RunAll(NewClient, pre, kind);
             && Bracketed(c, log, kind)
             && (c.inMulti ==>
                   && since <= |pre| && before == |EncodeAll(pre[..since])|
                   && !RunAll(NewClient, pre[..since], kind).inMulti
                   && RunAll(NewClient, pre[..since], kind).executed == c.executed)
    ensures var all := pre + log;
            var c := RunAll(NewClient, pre, kind);
            var e := RunAll(NewClient, all, kind);
            var n := Settled(c.inMulti, since, |pre|, log, kind);
            && n <= |all|
            && !RunAll(NewClient, all[..n], kind).inMulti
            && RunAll(NewClient, all[..n], kind).executed == e.executed
            && (!e.inMulti ==> n == |all|)
            && (e.inMulti ==> MultiStart(|EncodeAll(pre)|, before, log, kind) == |EncodeAll(all[..n])|)
    decreases |log|
  {
    var c := RunAll(NewClient, pre, kind);
    if log == [] {
      assert pre + log == pre;
      assert pre[..|pre|] == pre;
    } else {
      var x := log[0];
      var pre' := pre + [x];
      RunAllConcat(NewClient, pre, [x], kind);
      assert RunAll(c, [x], kind) == RunOne(c, x, kind(x)) by {
        assert [x][1..] == [];
      }
      EncodeAllConcat(pre, [x]);
      assert EncodeAll([x]) == Encode(x) by {
        assert [x][1..] == [];
        assert Encode(x) + [] == Encode(x);
      }
      assert pre' + log[1..] == pre + log;
      if c.inMulti {
        assert pre'[..since] == pre[..since];
      }
      if kind(x) == Multi {
        assert pre'[..|pre|] == pre;
        SettledSplits(pre', log[1..], |pre|, |EncodeAll(pre)|, kind);
      } else {
        SettledSplits(pre', log[1..], since, before, kind);
      }
    }
  }

  lemma {:induction false} BracketedPrefix(c: Client, log: seq<Command>, k: nat, kind: Command -> Kind)
    requires Bracketed(c, log, kind) && k <= |log|
    ensures Bracketed(c, log[..k], kind)
    decreases |log|
  {
    if k > 0 {
      BracketedPrefix(RunOne(c, log[0], kind(log[0])), log[1..], k - 1, kind);
      assert log[..k][1..] == log[1..][..k - 1];
    }
  }

  lemma {:induction false} CompleteAll(log: seq<Command>)
    ensures Complete(log, |EncodeAll(log)|) == |log|
  {
    if log != [] {
      CompleteAll(log[1..]);
    }
  }

  /** The whole log: its settled part, and where the open transaction starts in the file. */
  lemma SettledWhole(log: seq<Command>, kind: Command -> Kind)
    requires Bracketed(NewClient, log, kind)
    ensures var m := SettledIn(log, kind);
            var c := RunAll(NewClient, log, kind);
            && m <= |log|
            && RunAll(NewClient, log[..m], kind).executed == c.executed
            && !RunAll(NewClient, log[..m], kind).inMulti
            && (!c.inMulti ==> m == |log|)
            && (c.inMulti ==> MultiStart(0, 0, log, kind) == |EncodeAll(log[..m])|)
            && |EncodeAll(log[..m])| <= |EncodeAll(log)|
            && EncodeAll(log)[..|EncodeAll(log[..m])|] == EncodeAll(log[..m])
  {
    hide Bracketed, Settled, MultiStart, Encode;
    RunNothing([], kind);
    SettledSplits([], log, 0, 0, kind);
    assert [] + log == log;
    var m := SettledIn(log, kind);
    assert log == log[..m] + log[m..];
    EncodeAllConcat(log[..m], log[m..]);
  }

  /** A complete transaction log loads without a word; one whose last transaction is open is
      cut back to where that transaction starts. */
  lemma LoadWhole(log: seq<Command>, kind: Command -> Kind, cfg: Config)
    requires Loadable(log, kind) && Bracketed(NewClient, log, kind) && cfg.loadTruncated && cfg.truncateWorks
    ensures var m := SettledIn(log, kind);
            var c := RunAll(NewClient, log, kind);
            && m <= |log|
            && RunAll(NewClient, log[..m], kind).executed == c.executed
            && !RunAll(NewClient, log[..m], kind).inMulti
            && (!c.inMulti ==> m == |log|)
            && LoadFile(EncodeAll(log), kind, cfg) ==
               (if log == [] then Loaded(AOF_EMPTY, [], [])
                else if c.inMulti then Loaded(AOF_TRUNCATED, c.executed, EncodeAll(log[..m]))
                else Loaded(AOF_OK, c.executed, EncodeAll(log)))
  {
    hide Loadable, Holds, LoadFrom, RunAll, Bracketed, SettledIn, MultiStart, Complete, Encode, EncodeAll;
    var f := EncodeAll(log);
    EncodeAllEmpty(log);
    SettledWhole(log, kind);
    CompleteAll(log);
    HoldsSelf(f, |f|);
    assert f[..|f|] == f;
    assert log[..|log|] == log;
    LoadPrefix(f, 0, NewClient, 0, log, kind, cfg);
  }

  lemma EncodeAllEmpty(log: seq<Command>)
    ensures EncodeAll(log) == [] <==> log == []
  {
    if log != [] {
      EncodeNonEmpty(log[0]);
    }
  }

  /** Every byte-prefix of every log. The commands run are those wholly inside the prefix,
      less an unfinished trailing transaction. */
  lemma LoadTorn(log: seq<Command>, n: nat, kind: Command -> Kind, cfg: Config)
    requires Loadable(log, kind) && Bracketed(NewClient, log, kind)
    requires n <= |EncodeAll(log)| && cfg.loadTruncated && cfg.truncateWorks
    ensures var done := log[..Complete(log, n)];
            var m := SettledIn(done, kind);
            var r := LoadFile(EncodeAll(log)[..n], kind, cfg);
            var whole := |EncodeAll(done)| == n;
            var open := RunAll(NewClient, done, kind).inMulti;
            && m <= |done|
            && r.executed == RunAll(NewClient, done[..m], kind).executed
            && !RunAll(NewClient, done[..m], kind).inMulti
            && r.status == (if n == 0 then AOF_EMPTY else if whole && !open then AOF_OK else AOF_TRUNCATED)
            && r.file == (if whole && open then EncodeAll(done[..m]) else EncodeAll(done))
  {
    hide Holds, LoadFrom, RunAll, Bracketed, SettledIn, MultiStart, Complete, EncodeAll;
    var k := Complete(log, n);
    var done := log[..k];
    var all := EncodeAll(log);
    var f := all[..n];
    CompleteFits(log, n);
    BracketedPrefix(NewClient, log, k, kind);
    LoadWhole(done, kind, cfg);
    assert log == done + log[k..];
    EncodeAllConcat(done, log[k..]);
    var whole := |EncodeAll(done)| == n;
    if whole {
      assert f == EncodeAll(done);
      EncodeAllEmpty(done);
      RunNothing(done, kind);
      RunNothing(done[..SettledIn(done, kind)], kind);
    } else {
      HoldsSelf(all, n);
      RunNothing(done[..0], kind);
      LoadPrefix(f, 0, NewClient, 0, log, kind, cfg);
      assert f[..|EncodeAll(done)|] == EncodeAll(done);
    }
  }

  /** Loading the truncated file again runs the same commands. It does so without a further
      truncation if and only if the tail was not torn inside a command of an open transaction:
      a read error keeps the offset of the last command read, and forgets the open MULTI. */
  lemma ReloadIsQuietIff(log: seq<Command>, n: nat, kind: Command -> Kind, cfg: Config)
    requires Loadable(log, kind) && Bracketed(NewClient, log, kind)
    requires n <= |EncodeAll(log)| && cfg.loadTruncated && cfg.truncateWorks
    ensures var done := log[..Complete(log, n)];
            var r := LoadFile(EncodeAll(log)[..n], kind, cfg);
            var again := LoadFile(r.file, kind, cfg);
            && again.executed == r.executed
            && ((again.status == AOF_OK || again.status == AOF_EMPTY) && again.file == r.file <==>
                !(|EncodeAll(done)| < n && RunAll(NewClient, done, kind).inMulti))
  {
    var k := Complete(log, n);
    var done := log[..k];
    CompleteFits(log, n);
    LoadTorn(log, n, kind, cfg);
    BracketedPrefix(NewClient, log, k, kind);
    LoadWhole(done, kind, cfg);
    var m := SettledIn(done, kind);
    BracketedPrefix(NewClient, done, m, kind);
    LoadWhole(done[..m], kind, cfg);
    RunNothing(done[..m], kind);
    RunNothing(done, kind);
  }

  /** What an unquiet reload costs. The file was cut inside a command of an open transaction, and
      the server went on and appended `more` to it. The next load queues all of that into the old
      MULTI. Without an EXEC none of it runs. At the first EXEC the torn transaction runs after
      all, with everything appended before that EXEC, and from there on the log is as appended. */
  lemma AppendedAfterTornMulti(log: seq<Command>, n: nat, more: seq<Command>, kind: Command -> Kind, cfg: Config)
    requires Loadable(log + more, kind) && Bracketed(NewClient, log, kind)
    requires n <= |EncodeAll(log)| && cfg.loadTruncated && cfg.truncateWorks
    requires var done := log[..Complete(log, n)]; |EncodeAll(done)| < n && RunAll(NewClient, done, kind).inMulti
    ensures var done := log[..Complete(log, n)];
            var r := LoadFile(EncodeAll(log)[..n], kind, cfg);
            var j := FirstExec(more, kind);
            LoadFile(r.file + EncodeAll(more), kind, cfg).executed ==
              if j == |more| then r.executed
              else r.executed + (RunAll(NewClient, done, kind).queue + more[..j]) + RunAll(NewClient, more[j + 1..], kind).executed
    ensures (forall i :: 0 <= i < |more| ==> kind(more[i]) == Other) ==>
              var done := log[..Complete(log, n)];
              var r := LoadFile(EncodeAll(log)[..n], kind, cfg);
              var m := SettledIn(done, kind);
              && m <= |done|
              && LoadFile(r.file + EncodeAll(more), kind, cfg) == Loaded(AOF_TRUNCATED, r.executed, EncodeAll(done[..m]))
  {
    hide LoadFile, Complete, Encode, EncodeAll, RunAll, Bracketed, SettledIn, Representable, FirstExec;
    var k := Complete(log, n);
    var done := log[..k];
    LoadableParts(log, more, k, kind);
    CompleteFits(log, n);
    LoadTorn(log, n, kind, cfg);
    BracketedPrefix(NewClient, log, k, kind);
    SettledWhole(done, kind);
    var c := RunAll(NewClient, done, kind);
    RunAllConcat(NewClient, done, more, kind);
    EncodeAllConcat(done, more);
    LoadExecutes(done + more, kind, cfg);
    RunToExec(c, more, kind);
    if FirstExec(more, kind) < |more| {
      var j := FirstExec(more, kind);
      RunShift(c.executed + (c.queue + more[..j]), NewClient, more[j + 1..], kind);
      assert c.executed + (c.queue + more[..j]) + [] == c.executed + (c.queue + more[..j]);
    }
    if forall i :: 0 <= i < |more| ==> kind(more[i]) == Other {
      RunQueued(c, more, kind);
      BracketedConcat(NewClient, done, more, kind);
      LoadWhole(done + more, kind, cfg);
      SettledQueued(done, more, kind);
      var m := SettledIn(done, kind);
      assert (done + more)[..m] == done[..m];
      RunNothing(done, kind);
      assert done + more != [];
    }
  }

  /** A whole log, well bracketed or not: what runs is what the commands make of it. */
  lemma LoadExecutes(log: seq<Command>, kind: Command -> Kind, cfg: Config)
    requires Loadable(log, kind) && cfg.loadTruncated && cfg.truncateWorks
    ensures LoadFile(EncodeAll(log), kind, cfg).executed == RunAll(NewClient, log, kind).executed
  {
    hide Loadable, Holds, LoadFrom, RunAll, MultiStart, Complete, Encode, EncodeAll;
    var f := EncodeAll(log);
    EncodeAllEmpty(log);
    RunNothing(log, kind);
    CompleteAll(log);
    HoldsSelf(f, |f|);
    assert f[..|f|] == f && log[..|log|] == log;
    LoadPrefix(f, 0, NewClient, 0, log, kind, cfg);
  }

  /** The first EXEC of a log, or its length. */
  function FirstExec(log: seq<Command>, kind: Command -> Kind): (j: nat)
    ensures j <= |log| && (j < |log| ==> kind(log[j]) == Exec)
  {
    if log == [] || kind(log[0]) == Exec then 0 else 1 + FirstExec(log[1..], kind)
  }

  lemma {:induction false} RunToExec(c: Client, more: seq<Command>, kind: Command -> Kind)
    requires c.inMulti
    ensures var j := FirstExec(more, kind);
            if j == |more| then RunAll(c, more, kind) == c.(queue := c.queue + more)
            else RunAll(c, more, kind) == RunAll(Client(c.executed + (c.queue + more[..j]), [], false), more[j + 1..], kind)
    decreases |more|
  {
    if more == [] {
      assert c.queue + more == c.queue;
    } else if kind(more[0]) == Exec {
      assert c.queue + more[..0] == c.queue;
    } else {
      var d := RunOne(c, more[0], kind(more[0]));
      RunToExec(d, more[1..], kind);
      var j := FirstExec(more, kind);
      assert d.queue + more[1..] == c.queue + more;
      assert d.queue + more[1..][..j - 1] == c.queue + more[..j];
      assert more[1..][j - 1 + (if j < |more| then 1 else 0)..] == more[j + (if j < |more| then 1 else 0)..];
    }
  }

  /** What was executed before does not matter to what comes. */
  lemma {:induction false} RunShift(e: seq<Command>, c: Client, log: seq<Command>, kind: Command -> Kind)
    ensures var r := RunAll(c, log, kind);
            RunAll(c.(executed := e + c.executed), log, kind) == r.(executed := e + r.executed)
    decreases |log|
  {
    if log != [] {
      var x, k := log[0], kind(log[0]);
      var d := RunOne(c, x, k);
      assert e + (c.executed + c.queue) == (e + c.executed) + c.queue;
      assert e + (c.executed + [x]) == (e + c.executed) + [x];
      assert RunOne(c.(executed := e + c.executed), x, k) == d.(executed := e + d.executed);
      RunShift(e, d, log[1..], kind);
    }
  }

  lemma LoadableParts(log: seq<Command>, more: seq<Command>, k: nat, kind: Command -> Kind)
    requires Loadable(log + more, kind) && k <= |log|
    ensures Loadable(log, kind) && Loadable(log[..k] + more, kind)
  {
    var all := log + more;
    forall i | 0 <= i < |log| ensures Representable(log[i]) && kind(log[i]) != Unknown {
      assert all[i] == log[i];
    }
    var some := log[..k] + more;
    forall i | 0 <= i < |some| ensures Representable(some[i]) && kind(some[i]) != Unknown {
      assert some[i] == if i < k then all[i] else all[i - k + |log|];
    }
  }

  /** Commands that come while a transaction is open are queued. */
  lemma {:induction false} RunQueued(c: Client, more: seq<Command>, kind: Command -> Kind)
    requires c.inMulti && forall i :: 0 <= i < |more| ==> kind(more[i]) == Other
    ensures RunAll(c, more, kind) == c.(queue := c.queue + more)
    ensures Bracketed(c, more, kind)
    decreases |more|
  {
    if more == [] {
      assert c.queue + more == c.queue;
    } else {
      RunQueued(RunOne(c, more[0], Other), more[1..], kind);
      assert c.queue + [more[0]] + more[1..] == c.queue + more;
    }
  }

  lemma {:induction false} BracketedConcat(c: Client, a: seq<Command>, b: seq<Command>, kind: Command -> Kind)
    requires Bracketed(c, a, kind) && Bracketed(RunAll(c, a, kind), b, kind)
    ensures Bracketed(c, a + b, kind)
    decreases |a|
  {
    if a == [] {
      assert a + b == b;
    } else {
      assert (a + b)[1..] == a[1..] + b;
      BracketedConcat(RunOne(c, a[0], kind(a[0])), a[1..], b, kind);
    }
  }

  lemma {:induction false} SettledSame(open: bool, since: nat, i: nat, log: seq<Command>, more: seq<Command>, kind: Command -> Kind)
    requires forall j :: 0 <= j < |more| ==> kind(more[j]) == Other
    requires OpenAfter(open, log, kind)
    ensures Settled(open, since, i, log + more, kind) == Settled(open, since, i, log, kind)
    decreases |log| + |more|
  {
    if log != [] {
      assert (log + more)[1..] == log[1..] + more;
      match kind(log[0])
      case Multi => SettledSame(true, i, i + 1, log[1..], more, kind);
      case Exec => SettledSame(false, since, i + 1, log[1..], more, kind);
      case _ => SettledSame(open, since, i + 1, log[1..], more, kind);
    } else {
      assert log + more == more;
      if more != [] {
        SettledSame(open, since, i + 1, [], more[1..], kind);
        assert [] + more[1..] == more[1..];
      }
    }
  }

  predicate OpenAfter(open: bool, log: seq<Command>, kind: Command -> Kind)
    decreases |log|
  {
    if log == [] then open
    else OpenAfter(if kind(log[0]) == Multi then true else if kind(log[0]) == Exec then false else open, log[1..], kind)
  }

  lemma {:induction false} OpenIsInMulti(c: Client, log: seq<Command>, kind: Command -> Kind)
    requires Bracketed(c, log, kind)
    ensures OpenAfter(c.inMulti, log, kind) == RunAll(c, log, kind).inMulti
    decreases |log|
  {
    if log != [] {
      OpenIsInMulti(RunOne(c, log[0], kind(log[0])), log[1..], kind);
    }
  }

  lemma SettledQueued(done: seq<Command>, more: seq<Command>, kind: Command -> Kind)
    requires Bracketed(NewClient, done, kind) && RunAll(NewClient, done, kind).inMulti
    requires forall j :: 0 <= j < |more| ==> kind(more[j]) == Other
    ensures SettledIn(done + more, kind) == SettledIn(done, kind)
  {
    OpenIsInMulti(NewClient, done, kind);
    SettledSame(false, 0, 0, done, more, kind);
  }

  lemma EncodeAllOne(c: Command)
    ensures EncodeAll([c]) == Encode(c)
  {
    assert [c][1..] == [];
    assert Encode(c) + [] == Encode(c);
  }

  lemma OpenPair(multi: Command, cmd: Command, kind: Command -> Kind)
    requires kind(multi) == Multi && kind(cmd) == Other
    ensures Bracketed(NewClient, [multi], kind) && Bracketed(NewClient, [multi, cmd], kind)
    ensures RunAll(NewClient, [multi], kind) == Client([], [], true)
  {
    assert [multi, cmd][1..] == [cmd] && [multi][1..] == [] && [cmd][1..] == [];
    var c := Client([], [], true);
    assert Bracketed(RunOne(c, cmd, Other), [], kind);
    assert Bracketed(c, [cmd], kind);
  }

  /** MULTI, and then a command torn after its first byte: the load keeps the MULTI in the
      file, the reload takes it out again, and what was appended in between is lost. */
  lemma TornTransaction(multi: Command, set1: Command, set2: Command, kind: Command -> Kind, cfg: Config)
    requires Loadable([multi, set1, set2], kind) && kind(multi) == Multi && kind(set1) == kind(set2) == Other
    requires cfg.loadTruncated && cfg.truncateWorks
    ensures var torn := Encode(multi) + [STAR];
            && LoadFile(torn, kind, cfg) == Loaded(AOF_TRUNCATED, [], Encode(multi))
            && LoadFile(Encode(multi), kind, cfg) == Loaded(AOF_TRUNCATED, [], [])
            && LoadFile(Encode(multi) + Encode(set2), kind, cfg) == Loaded(AOF_TRUNCATED, [], [])
  {
    hide LoadFile, LoadFrom, Decimal, EncodeArgs, Representable;
    var log, n := [multi, set1], |Encode(multi)| + 1;
    var done := [multi];
    EncodeAllOne(multi);
    EncodeAllOne(set1);
    EncodeAllOne(set2);
    OpenPair(multi, set1, kind);
    assert log[1..] == [set1] && done[1..] == [];
    assert EncodeAll(log) == Encode(multi) + Encode(set1);
    assert |Encode(set1)| > 1 && Encode(set1)[0] == STAR;
    assert EncodeAll(log)[..n] == Encode(multi) + [STAR];
    assert Complete(log, n) == 1;
    assert log[..1] == done;
    assert log + [set2] == [multi, set1, set2];
    LoadableParts(log, [set2], 1, kind);
    LoadTorn(log, n, kind, cfg);
    AppendedAfterTornMulti(log, n, [set2], kind, cfg);
    LoadWhole(done, kind, cfg);
    assert SettledIn(done, kind) == 0;
  }

  lemma HoldsSelf(w: seq<byte>, n: nat)
    requires n <= |w|
    ensures Holds(w[..n], 0, w)
  {
  }

  lemma RunNothing(log: seq<Command>, kind: Command -> Kind)
    ensures log == [] ==> RunAll(NewClient, log, kind) == NewClient
  {
  }

  lemma {:induction false} RunPlain(c: Client, log: seq<Command>, kind: Command -> Kind)
    requires !c.inMulti && forall i :: 0 <= i < |log| ==> kind(log[i]) == Other
    ensures RunAll(c, log, kind) == c.(executed := c.executed + log)
    ensures Bracketed(c, log, kind)
    decreases |log|
  {
    if log == [] {
      assert c.executed + log == c.executed;
    } else {
      RunPlain(RunOne(c, log[0], Other), log[1..], kind);
      assert c.executed + [log[0]] + log[1..] == c.executed + log;
    }
  }

  /** Without transactions: exactly the commands wholly inside the prefix run, the file is cut
      to their length, and a reload of it runs the same commands with no error. */
  lemma LoadTornPlain(log: seq<Command>, n: nat, kind: Command -> Kind, cfg: Config)
    requires Loadable(log, kind) && (forall i :: 0 <= i < |log| ==> kind(log[i]) == Other)
    requires n <= |EncodeAll(log)| && cfg.loadTruncated && cfg.truncateWorks
    ensures var done := log[..Complete(log, n)];
            var r := LoadFile(EncodeAll(log)[..n], kind, cfg);
            && r.executed == done && r.file == EncodeAll(done)
            && LoadFile(r.file, kind, cfg) == Loaded(if done == [] then AOF_EMPTY else AOF_OK, done, r.file)
  {
    var done := log[..Complete(log, n)];
    RunPlain(NewClient, log, kind);
    RunPlain(NewClient, done, kind);
    assert [] + done == done;
    LoadTorn(log, n, kind, cfg);
    LoadWhole(done, kind, cfg);
    assert done[..|done|] == done;
  }

  // ---------- a file that starts with an RDB ----------

  predicate HasMulti(log: seq<Command>, kind: Command -> Kind) {
    exists i :: 0 <= i < |log| && kind(log[i]) == Multi
  }

  lemma {:induction false} MultiStartShift(p: nat, before: nat, log: seq<Command>, kind: Command -> Kind)
    ensures MultiStart(p, before, log, kind) == if HasMulti(log, kind) then p + MultiStart(0, 0, log, kind) else before
    decreases |log|
  {
    if log != [] {
      var x, rest := log[0], log[1..];
      var n := |Encode(x)|;
      MultiStartShift(p + n, if kind(x) == Multi then p else before, rest, kind);
      MultiStartShift(n, 0, rest, kind);
      if HasMulti(rest, kind) {
        var i :| 0 <= i < |rest| && kind(rest[i]) == Multi;
        assert log[i + 1] == rest[i];
      } else if HasMulti(log, kind) {
        var i :| 0 <= i < |log| && kind(log[i]) == Multi;
        assert i > 0 ==> rest[i - 1] == log[i];
      }
    }
  }

  /** The offset that a load after a preamble of `p` bytes would cut an open transaction back to. */
  lemma MultiAfterPreamble(p: nat, done: seq<Command>, kind: Command -> Kind)
    requires Bracketed(NewClient, done, kind) && RunAll(NewClient, done, kind).inMulti
    ensures done != []
    ensures var m := SettledIn(done, kind);
            && m <= |done|
            && MultiStart(p + |Encode(done[0])|, 0, done[1..], kind) == if m == 0 then 0 else p + |EncodeAll(done[..m])|
  {
    hide Bracketed, SettledIn, Encode;
    RunNothing(done, kind);
    SettledWhole(done, kind);
    var m, rest, n := SettledIn(done, kind), done[1..], |Encode(done[0])|;
    MultiStartShift(p + n, 0, rest, kind);
    MultiStartShift(n, 0, rest, kind);
    EncodeAllEmpty(done[..m]);
    EncodeNonEmpty(done[0]);
  }

  lemma LoadFirst(f: seq<byte>, p: nat, c: Client, cmd: Command, kind: Command -> Kind, cfg: Config)
    requires Representable(cmd) && kind(cmd) != Unknown && cfg.loadTruncated
    requires p < |f| && Holds(f, p, Encode(cmd))
    ensures LoadFrom(f, p, c, 0, 0, kind, cfg) ==
            var q := p + |Encode(cmd)|;
            if q <= |f| then LoadFrom(f, q, RunOne(c, cmd, kind(cmd)), q, 0, kind, cfg) else UnexpectedEof(f, c, 0, cfg)
  {
    hide ReadCommand, Encode, Holds, Representable, UnexpectedEof, RunOne;
    CommandRead(f, p, cmd);
  }

  /** The outcome of a load that read the complete commands `done` behind a preamble. */
  predicate Behind(r: Loaded, f: seq<byte>, p: nat, c: Client, done: seq<Command>, kind: Command -> Kind, cfg: Config) {
    var c' := RunAll(c, done, kind);
    var end := p + |EncodeAll(done)|;
    var ms := if done == [] then 0 else MultiStart(p + |Encode(done[0])|, 0, done[1..], kind);
    && end <= |f| && ms <= |f|
    && r == if end < |f| then UnexpectedEof(f, c', if done == [] then 0 else end, cfg)
            else if c'.inMulti then UnexpectedEof(f, c', ms, cfg)
            else Loaded(AOF_OK, c'.executed, f)
  }

  lemma BehindNothing(f: seq<byte>, p: nat, c: Client, log: seq<Command>, kind: Command -> Kind, cfg: Config)
    requires p <= |f| <= p + |EncodeAll(log)| && Holds(f, p, EncodeAll(log)) && cfg.loadTruncated && Loadable(log, kind)
    requires log == [] || |f| - p < |Encode(log[0])|
    ensures Behind(LoadFrom(f, p, c, 0, 0, kind, cfg), f, p, c, [], kind, cfg)
  {
    hide Holds, Encode, Representable, UnexpectedEof, LoadFrom;
    LoadEnd(f, c, 0, 0, kind, cfg);
    if log != [] && p < |f| {
      HoldsParts(f, p, Encode(log[0]), EncodeAll(log[1..]));
      LoadFirst(f, p, c, log[0], kind, cfg);
    }
  }

  lemma BehindSome(f: seq<byte>, p: nat, c: Client, log: seq<Command>, kind: Command -> Kind, cfg: Config)
    requires p <= |f| <= p + |EncodeAll(log)| && Holds(f, p, EncodeAll(log)) && cfg.loadTruncated && Loadable(log, kind)
    requires log != [] && |f| - p >= |Encode(log[0])|
    ensures Behind(LoadFrom(f, p, c, 0, 0, kind, cfg), f, p, c, log[..Complete(log, |f| - p)], kind, cfg)
  {
    hide Holds, Encode, EncodeAll, RunAll, MultiStart, Loadable, Representable, RunOne, UnexpectedEof, Complete, LoadFrom;
    var n := |f| - p;
    CompleteStep(log, n);
    LoadableTail(log, kind);
    BehindUnfolds(log, c, kind);
    EncodeNonEmpty(log[0]);
    var e := Encode(log[0]);
    HoldsParts(f, p, e, EncodeAll(log[1..]));
    LoadFirst(f, p, c, log[0], kind, cfg);
    LoadPrefix(f, p + |e|, RunOne(c, log[0], kind(log[0])), 0, log[1..], kind, cfg);
    BehindUnfolds(log[..Complete(log, n)], c, kind);
  }

  lemma LoadableTail(log: seq<Command>, kind: Command -> Kind)
    requires Loadable(log, kind) && log != []
    ensures Loadable(log[1..], kind) && Representable(log[0]) && kind(log[0]) != Unknown
  {
  }

  lemma BehindUnfolds(done: seq<Command>, c: Client, kind: Command -> Kind)
    requires done != []
    ensures EncodeAll(done) == Encode(done[0]) + EncodeAll(done[1..])
    ensures RunAll(c, done, kind) == RunAll(RunOne(c, done[0], kind(done[0])), done[1..], kind)
  {
  }

  lemma LoadBehind(f: seq<byte>, p: nat, c: Client, log: seq<Command>, kind: Command -> Kind, cfg: Config)
    requires p <= |f| <= p + |EncodeAll(log)| && Holds(f, p, EncodeAll(log)) && cfg.loadTruncated && Loadable(log, kind)
    ensures Behind(LoadFrom(f, p, c, 0, 0, kind, cfg), f, p, c, log[..Complete(log, |f| - p)], kind, cfg)
  {
    hide Holds, Encode, EncodeAll, Representable, LoadFrom, Behind;
    if log == [] || |f| - p < |Encode(log[0])| {
      BehindNothing(f, p, c, log, kind, cfg);
      assert log[..Complete(log, |f| - p)] == [];
    } else {
      BehindSome(f, p, c, log, kind, cfg);
    }
  }

  /** A log with a preamble `pre`, cut after any number of bytes. What runs is as without one, on
      top of what the preamble restores. The preamble stays in the file if and only if something
      is kept behind it or nothing has to be cut: offsets start from zero, so with nothing to keep
      the whole file goes. */
  lemma PreambleStaysIff(pre: seq<byte>, log: seq<Command>, n: nat, cmds: seq<Command>,
                         rdb: seq<byte> -> Option<(seq<Command>, nat)>, kind: Command -> Kind, cfg: Config)
    requires HasPreamble(pre) && Loadable(log, kind) && Bracketed(NewClient, log, kind)
    requires n <= |EncodeAll(log)| && cfg.loadTruncated && cfg.truncateWorks
    requires rdb(pre + EncodeAll(log)[..n]) == Some((cmds, |pre|))
    ensures var done := log[..Complete(log, n)];
            var c := RunAll(NewClient, done, kind);
            var m := SettledIn(done, kind);
            var r := LoadAny(pre + EncodeAll(log)[..n], rdb, kind, cfg);
            var torn := |EncodeAll(done)| < n;
            && m <= |done|
            && r.executed == cmds + c.executed
            && r.file ==
               (if torn then if done == [] then [] else pre + EncodeAll(done)
                else if c.inMulti then if m == 0 then [] else pre + EncodeAll(done[..m])
                else pre + EncodeAll(done))
  {
    hide Holds, LoadFrom, RunAll, Bracketed, SettledIn, MultiStart, Complete, EncodeAll;
    var k := Complete(log, n);
    var done := log[..k];
    var all := EncodeAll(log);
    var f := pre + all[..n];
    var start := Client(cmds, [], false);
    assert f[..5] == pre[..5];
    CompleteFits(log, n);
    BracketedPrefix(NewClient, log, k, kind);
    HoldsBehind(pre, all, n);
    LoadBehind(f, |pre|, start, log, kind, cfg);
    RunShift(cmds, NewClient, done, kind);
    assert cmds + [] == cmds;
    SettledWhole(done, kind);
    assert log == done + log[k..];
    EncodeAllConcat(done, log[k..]);
    var c := RunAll(NewClient, done, kind);
    assert f[..|pre| + |EncodeAll(done)|] == pre + EncodeAll(done);
    RunNothing(done, kind);
    if |EncodeAll(done)| == n && c.inMulti {
      MultiAfterPreamble(|pre|, done, kind);
      var m := SettledIn(done, kind);
      assert done == done[..m] + done[m..];
      EncodeAllConcat(done[..m], done[m..]);
      assert f[..|pre| + |EncodeAll(done[..m])|] == pre + EncodeAll(done[..m]);
    }
  }

  lemma HoldsBehind(pre: seq<byte>, w: seq<byte>, n: nat)
    requires n <= |w|
    ensures Holds(pre + w[..n], |pre|, w)
  {
  }

  /** The failing case: an RDB and the first byte of the first command. The load keeps the data in
      memory and empties the file. */
  lemma PreambleIsCut(pre: seq<byte>, cmd: Command, cmds: seq<Command>,
                      rdb: seq<byte> -> Option<(seq<Command>, nat)>, kind: Command -> Kind, cfg: Config)
    requires HasPreamble(pre) && Loadable([cmd], kind) && kind(cmd) == Other && cfg.loadTruncated && cfg.truncateWorks
    requires rdb(pre + [STAR]) == Some((cmds, |pre|))
    ensures LoadAny(pre + [STAR], rdb, kind, cfg) == Loaded(AOF_TRUNCATED, cmds, [])
  {
    hide LoadFrom, Decimal, EncodeArgs, Representable, LoadAny;
    var log: seq<Command> := [cmd];
    EncodeAllOne(cmd);
    assert EncodeAll(log)[..1] == [STAR];
    assert Complete(log, 1) == 0 && log[..0] == [];
    RunPlain(NewClient, log, kind);
    RunNothing([], kind);
    PreambleStaysIff(pre, log, 1, cmds, rdb, kind, cfg);
    assert cmds + [] == cmds;
    PreambleStatus(pre, cmd, cmds, rdb, kind, cfg);
  }

  lemma PreambleStatus(pre: seq<byte>, cmd: Command, cmds: seq<Command>,
                       rdb: seq<byte> -> Option<(seq<Command>, nat)>, kind: Command -> Kind, cfg: Config)
    requires HasPreamble(pre) && Loadable([cmd], kind) && cfg.loadTruncated && cfg.truncateWorks
    requires rdb(pre + [STAR]) == Some((cmds, |pre|))
    ensures LoadAny(pre + [STAR], rdb, kind, cfg).status == AOF_TRUNCATED
  {
    hide LoadFrom, Decimal, EncodeArgs, Representable;
    var f := pre + [STAR];
    assert f[..5] == pre[..5];
    assert Encode(cmd)[..1] == [STAR];
    assert [cmd][0] == cmd;
    HoldsBehind(pre, Encode(cmd), 1);
    LoadFirst(f, |pre|, Client(cmds, [], false), cmd, kind, cfg);
  }
}

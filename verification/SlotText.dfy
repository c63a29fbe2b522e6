/** Slot ranges as text, "1000-2000 3000-4000", and back. */
module SlotText {
  import opened Common
  import opened Slots
  import opened SlotArrays

  const ULLONG_MAX := 0xFFFF_FFFF_FFFF_FFFF
  const LLONG_MAX := 0x7FFF_FFFF_FFFF_FFFF
  const LONG_STR_SIZE := 21

  // ---------- decimal numbers ----------

  function Digit(d: nat): char
    requires d < 10
  {
    (d + '0' as int) as char
  }

  /** %d of a number that is not negative. */
  function Decimal(n: nat): string {
    if n < 10 then [Digit(n)] else Decimal(n / 10) + [Digit(n % 10)]
  }

  predicate IsDigit(c: char) {
    '0' <= c <= '9'
  }

  /** The digit loop of string2ll, with its two overflow checks; all bytes must be digits. */
  function Digits(v: nat, s: string): Option<nat>
    decreases |s|
  {
    if s == "" then Some(v)
    else if !IsDigit(s[0]) then None
    else
      var d := s[0] as int - '0' as int;
      if v > ULLONG_MAX / 10 then None
      else if v * 10 > ULLONG_MAX - d then None
      else Digits(v * 10 + d, s[1..])
  }

  /** string2ll */
  function String2ll(s: string): Option<int> {
    if s == "" || |s| >= LONG_STR_SIZE then None
    else if s == "0" then Some(0)
    else
      var negative := s[0] == '-';
      var p := if negative then s[1..] else s;
      if p == "" || !('1' <= p[0] <= '9') then None
      else
        match Digits(p[0] as int - '0' as int, p[1..])
        case None => None
        case Some(v) =>
          var n := if negative then 0 - v else v as int;
          if -LLONG_MAX - 1 <= n <= LLONG_MAX then Some(n) else None
  }

  lemma {:induction false} DigitsSnoc(v: nat, s: string, n: nat, d: nat)
    requires Digits(v, s) == Some(n) && n * 10 + d <= ULLONG_MAX && d < 10
    ensures Digits(v, s + [Digit(d)]) == Some(n * 10 + d)
    decreases |s|
  {
    if s == "" {
      assert (s + [Digit(d)])[1..] == "";
    } else {
      assert (s + [Digit(d)])[1..] == s[1..] + [Digit(d)];
      DigitsSnoc(v * 10 + (s[0] as int - '0' as int), s[1..], n, d);
    }
  }

  lemma {:induction false} DecimalShape(n: nat)
    requires n <= LLONG_MAX + 1
    ensures |Decimal(n)| >= 1
    ensures forall i :: 0 <= i < |Decimal(n)| ==> IsDigit(Decimal(n)[i])
    ensures n >= 1 ==> '1' <= Decimal(n)[0] <= '9'
    ensures n >= 1 ==> Digits(Decimal(n)[0] as int - '0' as int, Decimal(n)[1..]) == Some(n)
  {
    if n >= 10 {
      DecimalShape(n / 10);
      var s := Decimal(n / 10);
      assert Decimal(n)[1..] == s[1..] + [Digit(n % 10)];
      DigitsSnoc(s[0] as int - '0' as int, s[1..], n / 10, n % 10);
    }
  }

  function Pow10(k: nat): nat {
    if k == 0 then 1 else 10 * Pow10(k - 1)
  }

  lemma {:induction false} DecimalLength(n: nat, k: nat)
    requires 1 <= k && n < Pow10(k)
    ensures |Decimal(n)| <= k
    decreases k
  {
    if n >= 10 {
      DecimalLength(n / 10, k - 1);
    }
  }

  lemma {:induction false} Pow10Add(a: nat, b: nat)
    ensures Pow10(a + b) == Pow10(a) * Pow10(b)
  {
    if a > 0 {
      Pow10Add(a - 1, b);
      assert 10 * (Pow10(a - 1) * Pow10(b)) == (10 * Pow10(a - 1)) * Pow10(b);
    }
  }

  lemma Pow10Of19()
    ensures Pow10(19) == 10_000_000_000_000_000_000
  {
    assert Pow10(3) == 1000;
    Pow10Add(3, 3);
    Pow10Add(6, 6);
    Pow10Add(6, 12);
    Pow10Add(1, 18);
    assert Pow10(1) == 10;
  }

  /** A long long as text. */
  function Signed(x: int): string {
    if x < 0 then "-" + Decimal(-x) else Decimal(x)
  }

  /** string2ll reads back every number that fits a long long. */
  lemma DecimalParses(x: int)
    requires -LLONG_MAX - 1 <= x <= LLONG_MAX
    ensures String2ll(Signed(x)) == Some(x)
  {
    hide Pow10, Digits;
    var n: nat := if x < 0 then -x else x;
    DecimalShape(n);
    Pow10Of19();
    DecimalLength(n, 19);
    if n == 0 {
      assert Decimal(0) == "0";
    }
    if x < 0 {
      assert Signed(x)[1..] == Decimal(n);
    } else {
      assert IsDigit(Decimal(n)[0]);
    }
  }

  // ---------- tokens ----------

  /** sdssplitlen with a single space: one token more than there are spaces. */
  function SplitFrom(token: string, s: string): seq<string>
    decreases |s|
  {
    if s == "" then [token]
    else if s[0] == ' ' then [token] + SplitFrom("", s[1..])
    else SplitFrom(token + [s[0]], s[1..])
  }

  /** Every token followed by a space. */
  function Spaced(tokens: seq<string>): string {
    if tokens == [] then "" else tokens[0] + " " + Spaced(tokens[1..])
  }

  predicate NoSpace(s: string) {
    forall i :: 0 <= i < |s| ==> s[i] != ' '
  }

  lemma {:induction false} SplitToken(token: string, s: string, rest: string)
    requires NoSpace(s)
    ensures SplitFrom(token, s + " " + rest) == [token + s] + SplitFrom("", rest)
    ensures SplitFrom(token, s) == [token + s]
    decreases |s|
  {
    if s == "" {
      assert (s + " " + rest)[1..] == rest;
      assert token + s == token;
    } else {
      assert (s + " " + rest)[1..] == s[1..] + " " + rest;
      assert token + [s[0]] + s[1..] == token + s;
      SplitToken(token + [s[0]], s[1..], rest);
    }
  }

  lemma {:induction false} SpacedLength(tokens: seq<string>)
    requires tokens != []
    ensures |Spaced(tokens)| >= 1
  {
  }

  lemma {:induction false} SplitSpaced(tokens: seq<string>)
    requires tokens != [] && forall i :: 0 <= i < |tokens| ==> NoSpace(tokens[i])
    ensures |Spaced(tokens)| >= 1
    ensures SplitFrom("", Spaced(tokens)[..|Spaced(tokens)| - 1]) == tokens
  {
    var t := tokens[0];
    assert NoSpace(t);
    var s := Spaced(tokens);
    if |tokens| == 1 {
      assert tokens[1..] == [];
      assert Spaced(tokens[1..]) == "";
      assert s == t + " ";
      assert s[..|s| - 1] == t;
      SplitToken("", t, "");
      assert "" + t == t;
    } else {
      var rest := Spaced(tokens[1..]);
      SpacedLength(tokens[1..]);
      assert s[..|s| - 1] == t + " " + rest[..|rest| - 1];
      SplitToken("", t, rest[..|rest| - 1]);
      SplitSpaced(tokens[1..]);
      assert "" + t == t;
      assert tokens == [t] + tokens[1..];
    }
  }

  /** strchr(s, '-'), which does not look past a terminator. */
  function Dash(s: string): Option<nat> {
    if s == "" || s[0] == '\0' then None
    else if s[0] == '-' then Some(0)
    else match Dash(s[1..]) case None => None case Some(i) => Some(i + 1)
  }

  lemma {:induction false} DashBounds(s: string)
    ensures Dash(s).Some? ==> Dash(s).value < |s| && s[Dash(s).value] == '-'
  {
    if s != "" {
      DashBounds(s[1..]);
    }
  }

  lemma {:induction false} DashAfterDigits(a: string, b: string)
    requires forall i :: 0 <= i < |a| ==> IsDigit(a[i])
    ensures Dash(a + "-" + b) == Some(|a|)
  {
    if a != "" {
      assert (a + "-" + b)[1..] == a[1..] + "-" + b;
      DashAfterDigits(a[1..], b);
    }
  }

  /** The conversion to unsigned short. */
  function ToShort(x: int): Short {
    x % 65536
  }

  /** One token of slotRangeArrayFromString. */
  function ParseRange(s: string): Option<Range> {
    match Dash(s)
    case None => None
    case Some(i) =>
      DashBounds(s);
      var start, end := String2ll(s[..i]), String2ll(s[i + 1..]);
      if start.None? || end.None? then None else Some(Range(ToShort(start.value), ToShort(end.value)))
  }

  function ParseRanges(tokens: seq<string>): Option<seq<Range>> {
    if tokens == [] then Some([])
    else
      var r, rest := ParseRange(tokens[0]), ParseRanges(tokens[1..]);
      if r.None? || rest.None? then None else Some([r.value] + rest.value)
  }

  /** The ranges a string denotes, before they are normalised. */
  function Parse(data: string): Option<seq<Range>> {
    if data == "" then None else ParseRanges(SplitFrom("", data))
  }

  function RangeText(r: Range): string {
    Decimal(r.start) + "-" + Decimal(r.end)
  }

  function Texts(s: seq<Range>): (t: seq<string>)
    ensures |t| == |s|
    ensures forall i :: 0 <= i < |s| ==> t[i] == RangeText(s[i])
  {
    seq(|s|, i requires 0 <= i < |s| => RangeText(s[i]))
  }

  /** slotRangeArrayToString */
  function ToString(s: seq<Range>): string {
    if s == [] then ""
    else
      var t := Spaced(Texts(s));
      SpacedLength(Texts(s));
      t[..|t| - 1]
  }

  /** Numbers are cut to sixteen bits before they are checked, the second one after its sign was
      read: a pair is taken as it stands exactly when both numbers fit. */
  lemma NumbersReadModulo(a: nat, b: int)
    requires a <= LLONG_MAX && -LLONG_MAX - 1 <= b <= LLONG_MAX
    ensures var r := ParseRange(Decimal(a) + "-" + Signed(b));
            && r == Some(Range(a % 65536, b % 65536))
            && (r.value.start == a && r.value.end == b <==> a < 65536 && 0 <= b < 65536)
  {
    hide Digits, String2ll, Decimal, Dash, Signed;
    assert Signed(a) == Decimal(a) by {
      SignedIs(a);
    }
    DecimalShape(a);
    DecimalParses(a);
    DecimalParses(b);
    DashAfterDigits(Decimal(a), Signed(b));
    var s := Decimal(a) + "-" + Signed(b);
    assert s[..|Decimal(a)|] == Decimal(a) && s[|Decimal(a)| + 1..] == Signed(b);
  }

  lemma SignedIs(a: nat)
    ensures Signed(a) == Decimal(a)
  {
  }

  /** "0--65533" reads as 0-3. A sign in front of the first number is refused. */
  lemma NegativeNumbers(rest: string)
    ensures ParseRange("0--65533") == Some(Range(0, 3))
    ensures ParseRange("-" + rest).None?
  {
    hide String2ll;
    NumbersReadModulo(0, -65533);
    SmallDecimals();
    assert "0" + "-" + Signed(-65533) == "0--65533";
    DashAfterDigits("", rest);
    assert "" + "-" + rest == "-" + rest;
    assert ("-" + rest)[..0] == "";
    NothingIsNoNumber();
  }

  lemma NothingIsNoNumber()
    ensures String2ll("").None?
  {
  }

  lemma SmallDecimals()
    ensures Decimal(0) == "0" && Decimal(65533) == "65533"
  {
    assert Decimal(6) == "6";
    assert Decimal(65) == "65";
    assert Decimal(655) == "655";
    assert Decimal(6553) == "6553";
  }

  lemma RangeParses(r: Range)
    ensures ParseRange(RangeText(r)) == Some(r) && NoSpace(RangeText(r)) && RangeText(r) != ""
  {
    var a, b := Decimal(r.start), Decimal(r.end);
    DecimalShape(r.start);
    DecimalShape(r.end);
    NumbersReadModulo(r.start, r.end);
    var s := RangeText(r);
    forall i | 0 <= i < |s| ensures s[i] != ' ' {
      assert s[i] == if i < |a| then a[i] else if i == |a| then '-' else b[i - |a| - 1];
    }
  }

  lemma {:induction false} RangesParse(s: seq<Range>)
    ensures ParseRanges(Texts(s)) == Some(s)
  {
    if s != [] {
      RangeParses(s[0]);
      RangesParse(s[1..]);
      assert Texts(s)[1..] == Texts(s[1..]);
      assert s == [s[0]] + s[1..];
    }
  }

  /** Reading back what was written gives the same ranges. */
  lemma ParseInvertsToString(s: seq<Range>)
    requires s != []
    ensures Parse(ToString(s)) == Some(s)
  {
    var t := Texts(s);
    forall i | 0 <= i < |t| ensures NoSpace(t[i]) && t[i] != "" {
      RangeParses(s[i]);
    }
    SplitSpaced(t);
    RangesParse(s);
    assert ToString(s) != "" by {
      assert t[0] != "";
      assert |Spaced(t)| >= |t[0]| + 1;
    }
  }

  /** A canonical array survives being written, read, sorted, merged and checked. */
  lemma CanonicalSurvivesText(s: seq<Range>, p: seq<Range>)
    requires s != [] && Canonical(s) && InBounds(s) && SortOf(p, s)
    ensures Parse(ToString(s)) == Some(s) && 0 < |s| < CLUSTER_SLOTS && Merged(p) == s && Disjoint(s)
  {
    ParseInvertsToString(s);
    CanonicalIsShort(s);
    CanonicalIsFixed(s, p);
    CanonicalIsDisjoint(s);
  }

  // ---------- the loops ----------

  lemma SpacedAt(text: string, t: seq<string>, i: nat)
    requires i < |t|
    ensures text + Spaced(t[i..]) == (text + (t[i] + " ")) + Spaced(t[i + 1..])
  {
    assert t[i..][1..] == t[i + 1..];
    assert text + (t[i] + " " + Spaced(t[i + 1..])) == (text + (t[i] + " ")) + Spaced(t[i + 1..]);
  }

  method Render(s: seq<Range>) returns (text: string)
    ensures text == ToString(s)
  {
    hide Spaced, RangeText;
    text := "";
    if |s| == 0 {
      return;
    }
    var i := 0;
    ghost var t := Texts(s);
    assert t[0..] == t;
    assert text + Spaced(t) == Spaced(t);
    while i < |s|
      invariant 0 <= i <= |s| == |t|
      invariant text + Spaced(t[i..]) == Spaced(t)
    {
      SpacedAt(text, t, i);
      text := text + (RangeText(s[i]) + " ");
      i := i + 1;
    }
    assert text == Spaced(t) by {
      SpacedEmpty();
      assert t[i..] == [];
    }
    SpacedLength(t);
    text := text[..|text| - 1];
  }

  lemma SpacedEmpty()
    ensures Spaced([]) == ""
  {
  }

  lemma {:induction false} ParseStops(tokens: seq<string>, i: nat)
    requires i < |tokens| && ParseRange(tokens[i]).None?
    ensures ParseRanges(tokens).None?
  {
    if i > 0 {
      ParseStops(tokens[1..], i - 1);
    }
  }

  lemma {:induction false} ParseSnoc(tokens: seq<string>, i: nat)
    requires i < |tokens| && ParseRanges(tokens[..i]).Some? && ParseRange(tokens[i]).Some?
    ensures ParseRanges(tokens[..i + 1]) == Some(ParseRanges(tokens[..i]).value + [ParseRange(tokens[i]).value])
  {
    if i == 0 {
      assert tokens[..0] == [] && tokens[..1][1..] == [];
      var none: seq<Range>, x := [], ParseRange(tokens[0]).value;
      assert ParseRanges(tokens[..1]) == Some([x] + none) && [x] + none == none + [x];
    } else {
      assert tokens[..i][1..] == tokens[1..][..i - 1] && tokens[..i + 1][1..] == tokens[1..][..i];
      ParseSnoc(tokens[1..], i - 1);
      var r, rest, x := ParseRange(tokens[0]).value, ParseRanges(tokens[1..][..i - 1]).value, ParseRange(tokens[i]).value;
      assert [r] + (rest + [x]) == ([r] + rest) + [x];
    }
  }

  /** slotRangeArrayFromString. Whatever is accepted is canonical; for ranges that are not
      reversed, exactly the in-bounds and disjoint ones are accepted, as the same slot set; and
      a canonical array comes back unchanged. */
  method FromString(data: string) returns (slots: SlotRangeArray?)
    ensures Parse(data).None? ==> slots == null
    ensures slots != null ==>
              && fresh(slots) && slots.Valid() && slots.Contents() != []
              && Canonical(slots.Contents()) && InBounds(slots.Contents())
    ensures Parse(data).Some? && AllProper(Parse(data).value) ==>
              var raw := Parse(data).value;
              && (slots != null <==> 0 < |raw| < CLUSTER_SLOTS && InBounds(raw) && Disjoint(raw))
              && (slots != null ==> SameSlots(slots.Contents(), raw))
    ensures Parse(data).Some? && Parse(data).value != [] && Canonical(Parse(data).value) && InBounds(Parse(data).value) ==>
              slots != null && slots.Contents() == Parse(data).value
  {
    slots := null;
    if data == "" {
      return;
    }
    var parts := SplitFrom("", data);
    var raw := [];
    var i := 0;
    while i < |parts|
      invariant 0 <= i <= |parts|
      invariant ParseRanges(parts[..i]) == Some(raw)
    {
      var r := ParseRange(parts[i]);
      if r.None? {
        ParseStops(parts, i);
        return;
      }
      ParseSnoc(parts, i);
      raw := raw + [r.value];
      i := i + 1;
    }
    assert parts[..i] == parts;
    slots := Normalised(raw);
  }

  /** The array is filled, normalised and checked. */
  method Normalised(raw: seq<Range>) returns (slots: SlotRangeArray?)
    ensures slots != null ==>
              && fresh(slots) && slots.Valid() && slots.Contents() != []
              && Canonical(slots.Contents()) && InBounds(slots.Contents())
    ensures AllProper(raw) ==>
              && (slots != null <==> 0 < |raw| < CLUSTER_SLOTS && InBounds(raw) && Disjoint(raw))
              && (slots != null ==> SameSlots(slots.Contents(), raw))
    ensures raw != [] && Canonical(raw) && InBounds(raw) ==> slots != null && slots.Contents() == raw
  {
    hide Disjoint, InBounds, AllProper, Canonical, SameSlots;
    var a := new SlotRangeArray(|raw|);
    var i := 0;
    while i < |raw|
      invariant 0 <= i <= |raw| == a.num && a.num == a.ranges.Length
      invariant a.ranges[..i] == raw[..i] && fresh(a) && fresh(a.ranges)
    {
      a.ranges[i] := raw[i];
      i := i + 1;
    }
    assert a.Contents() == raw;
    var v := a.NormalizeAndValidate();
    if v.Fine? {
      slots := a;
    } else {
      slots := null;
    }
    if raw != [] && Canonical(raw) && InBounds(raw) {
      CanonicalIsDisjointProper(raw);
      CanonicalIsShort(raw);
      CanonicalIsUnique(slots.Contents(), raw);
    }
  }
}

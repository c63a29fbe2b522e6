/**
 Text layer of the ACL model: case folding, the space-separated rule string that a
 selector keeps (`command_rules`), the in-place deletion of shadowed rules from that
 string, and the `sdssplitargs` tokenizer used to read the string back.
 */
module AclText {
  import opened Common

  // ---------- case folding (tolower, strcasecmp) ----------

  function LowerChar(c: char): char {
    if 'A' <= c <= 'Z' then (c as int + 32) as char else c
  }

  function Lower(s: string): (r: string)
    ensures |r| == |s|
    ensures forall i :: 0 <= i < |s| ==> r[i] == LowerChar(s[i])
  {
    seq(|s|, i requires 0 <= i < |s| => LowerChar(s[i]))
  }

  predicate SameText(a: string, b: string) {
    Lower(a) == Lower(b)
  }

  lemma LowerIdempotent(s: string)
    ensures Lower(Lower(s)) == Lower(s)
  {
  }

  lemma LowerConcat(a: string, b: string)
    ensures Lower(a + b) == Lower(a) + Lower(b)
  {
  }

  lemma LowerSlice(s: string, i: nat, j: nat)
    requires i <= j <= |s|
    ensures Lower(s)[i..j] == Lower(s[i..j])
  {
  }

  // ---------- characters that survive tokenizing ----------

  /** The characters at which the tokenizer ends an unquoted token. */
  predicate IsBreak(c: char) {
    c == ' ' || c == '\n' || c == '\r' || c == '\t' || c == '\0'
  }

  predicate IsQuote(c: char) {
    c == '"' || c == '\''
  }

  /** isspace() of the C locale. */
  predicate IsSpace(c: char) {
    c == ' ' || c == '\n' || c == '\r' || c == '\t' || c == 11 as char || c == 12 as char
  }

  predicate Clean(s: string) {
    forall i :: 0 <= i < |s| ==> !IsBreak(s[i]) && !IsQuote(s[i])
  }

  lemma LowerClean(s: string)
    ensures Clean(Lower(s)) <==> Clean(s)
  {
    if Clean(Lower(s)) {
      forall i | 0 <= i < |s| ensures !IsBreak(s[i]) && !IsQuote(s[i]) {
        assert !IsBreak(Lower(s)[i]) && !IsQuote(Lower(s)[i]);
      }
    }
  }

  // ---------- the rule string as a list of rules ----------

  /** A rule as it stands in the rule string: a sign and a body, no blanks inside. */
  predicate IsRule(r: string) {
    1 < |r| && (r[0] == '+' || r[0] == '-') && Clean(r)
  }

  function Join(ts: seq<string>): string {
    if |ts| == 0 then "" else if |ts| == 1 then ts[0] else ts[0] + " " + Join(ts[1..])
  }

  /** Every rule followed by its separator: the shape of the part before a later rule. */
  function Terminated(ts: seq<string>): string {
    if |ts| == 0 then "" else Terminated(ts[..|ts| - 1]) + ts[|ts| - 1] + " "
  }

  lemma {:induction false} JoinSplit(ts: seq<string>, us: seq<string>)
    requires us != []
    ensures Join(ts + us) == Terminated(ts) + Join(us)
    decreases |ts|
  {
    if ts == [] {
      assert ts + us == us;
    } else {
      var init, last := ts[..|ts| - 1], ts[|ts| - 1];
      assert ts + us == init + ([last] + us);
      JoinSplit(init, [last] + us);
      assert ([last] + us)[1..] == us;
    }
  }

  lemma JoinSnoc(ts: seq<string>, u: string)
    ensures Join(ts + [u]) == (if ts == [] then u else Join(ts) + " " + u)
    ensures Join(ts + [u]) == Terminated(ts) + u
  {
    JoinSplit(ts, [u]);
    if ts != [] {
      var init, last := ts[..|ts| - 1], ts[|ts| - 1];
      assert ts == init + [last];
      JoinSplit(init, [last]);
    }
  }

  /** Adding `body` deletes an older rule with the same body, and older subcommand or
      first-argument rules of `body`. The sign is not compared. */
  predicate Shadows(body: string, prior: string) {
    body <= prior && (|prior| == |body| || prior[|body|] == '|')
  }

  /** The rule without its sign. */
  function Body(rule: string): string {
    if rule == "" then "" else rule[1..]
  }

  predicate Survives(body: string, rule: string) {
    |rule| == 0 || !Shadows(body, rule[1..])
  }

  function Unshadowed(ts: seq<string>, body: string): (r: seq<string>) {
    if ts == [] then []
    else
      var rest := Unshadowed(ts[1..], body);
      if Survives(body, ts[0]) then [ts[0]] + rest else rest
  }

  lemma UnshadowedMembers(ts: seq<string>, body: string)
    ensures forall x :: x in Unshadowed(ts, body) <==> x in ts && Survives(body, x)
  {
    if ts != [] {
      UnshadowedMembers(ts[1..], body);
      assert ts == [ts[0]] + ts[1..];
    }
  }

  lemma {:induction false} UnshadowedNone(ts: seq<string>, body: string)
    requires forall x :: x in ts ==> Survives(body, x)
    ensures Unshadowed(ts, body) == ts
  {
    if ts != [] {
      UnshadowedNone(ts[1..], body);
    }
  }

  /** The C comparison of the scanned rule with the new one: equal on the common length,
      and then equal lengths or a '|' right after the new body. */
  lemma ComparisonIsShadows(s: string, from: nat, end: nat, body: string)
    requires from <= end <= |s|
    ensures var n := end - from;
            var m := if n < |body| then n else |body|;
            (s[from..from + m] == body[..m] && (n == |body| || (n > |body| && s[from + |body|] == '|')))
            <==> Shadows(body, s[from..end])
  {
    var prior := s[from..end];
    var n := end - from;
    if n >= |body| {
      assert s[from..from + |body|] == prior[..|body|];
      assert body[..|body|] == body;
    }
  }

  /** What one turn of the scanning loop sees when `rest` is still to be scanned. */
  lemma ScanStep(s: string, p: nat, kept: seq<string>, rest: seq<string>)
    requires rest != []
    requires forall x :: x in rest ==> IsRule(x)
    requires s == Terminated(kept) + Join(rest) && p == |Terminated(kept)|
    ensures 1 < |rest[0]| && p + |rest[0]| <= |s|
    ensures s[p..p + |rest[0]|] == rest[0]
    ensures FindChar(s, ' ', p + 1) == p + |rest[0]|
    ensures |rest| == 1 <==> p + |rest[0]| == |s|
    ensures |rest| > 1 ==> s[p + |rest[0]| + 1..] == Join(rest[1..])
    ensures s[..p] == Terminated(kept)
  {
    var tok := rest[0];
    assert tok in rest;
    assert |rest| > 1 ==> Join(rest) == tok + " " + Join(rest[1..]);
    assert forall k :: 0 <= k < |tok| ==> s[p + k] == tok[k];
    assert forall k :: 0 <= k < |tok| ==> !IsBreak(tok[k]);
    assert forall k :: p + 1 <= k < p + |tok| ==> s[k] == tok[k - p] != ' ';
    assert |rest| > 1 ==> s[p + |tok|] == ' ';
  }

  /** The loop invariant: `kept` is scanned, `rest` is ahead of position `p`. */
  ghost predicate Scanning(s: string, p: nat, kept: seq<string>, rest: seq<string>) {
    && (forall x :: x in rest ==> IsRule(x))
    && (if rest == [] then s == Join(kept) && p == |s|
        else s == Terminated(kept) + Join(rest) && p == |Terminated(kept)|)
  }

  lemma TerminatedSnoc(kept: seq<string>, u: string)
    ensures Terminated(kept + [u]) == Terminated(kept) + u + " "
  {
    JoinSnoc(kept, u);
    assert (kept + [u])[..|kept|] == kept;
  }

  lemma JoinParts(rest: seq<string>)
    requires rest != []
    ensures Join(rest) == if |rest| == 1 then rest[0] else rest[0] + " " + Join(rest[1..])
  {
  }

  lemma Regrouped(a: string, b: string, c: string)
    ensures a + (b + " " + c) == (a + b + " ") + c
  {
  }

  lemma ScanKept(s: string, p: nat, kept: seq<string>, rest: seq<string>)
    requires rest != [] && Scanning(s, p, kept, rest)
    ensures var q := p + |rest[0]|;
            Scanning(s, if q == |s| then q else q + 1, kept + [rest[0]], rest[1..])
  {
    hide Join, Terminated, FindChar, IsRule;
    ScanStep(s, p, kept, rest);
    JoinSnoc(kept, rest[0]);
    TerminatedSnoc(kept, rest[0]);
    JoinParts(rest);
    assert forall x :: x in rest[1..] ==> x in rest;
    if |rest| > 1 {
      Regrouped(Terminated(kept), rest[0], Join(rest[1..]));
    }
  }

  lemma ScanRemoved(s: string, p: nat, kept: seq<string>, rest: seq<string>)
    requires rest != [] && Scanning(s, p, kept, rest)
    ensures var q := p + |rest[0]|;
            q <= |s| &&
            if q < |s| then Scanning(s[..p] + s[q + 1..], p, kept, rest[1..])
            else var c := if p == 0 then p else p - 1; c <= |s| && Scanning(s[..c] + s[q..], c, kept, rest[1..])
  {
    ScanStep(s, p, kept, rest);
    assert forall x :: x in rest[1..] ==> x in rest;
    var q := p + |rest[0]|;
    if q == |s| {
      TerminatedLast(kept);
      var c := if p == 0 then p else p - 1;
      assert s[..c] + s[q..] == s[..p][..c];
    }
  }

  lemma ScanAhead(s: string, p: nat, kept: seq<string>, rest: seq<string>)
    requires Scanning(s, p, kept, rest) && p < |s|
    ensures rest != [] && 1 < |rest[0]| && p + 1 <= |s|
    ensures FindChar(s, ' ', p + 1) == p + |rest[0]| <= |s|
    ensures s[p + 1..p + |rest[0]|] == rest[0][1..]
  {
    ScanStep(s, p, kept, rest);
    assert s[p + 1..p + |rest[0]|] == s[p..p + |rest[0]|][1..];
  }

  /** One turn of the scanning loop: the rule under the cursor is deleted or stepped over. */
  lemma ScanTurn(s: string, p: nat, kept: seq<string>, rest: seq<string>, body: string)
    requires Scanning(s, p, kept, rest) && p < |s|
    ensures rest != [] && rest[0] != "" && p + 1 <= |s|
    ensures var end := FindChar(s, ' ', p + 1);
            var next := if end < |s| then end + 1 else end;
            var cut := if end == |s| && p != 0 then p - 1 else p;
            && (Survives(body, rest[0]) <==> !Shadows(body, s[p + 1..end]))
            && Scanning(s, next, kept + [rest[0]], rest[1..])
            && Scanning(s[..cut] + s[next..], cut, kept, rest[1..])
  {
    ScanAhead(s, p, kept, rest);
    assert Survives(body, rest[0]) <==> !Shadows(body, rest[0][1..]);
    hide *;
    ScanKept(s, p, kept, rest);
    ScanRemoved(s, p, kept, rest);
  }

  lemma ScanStart(ts: seq<string>)
    requires forall x :: x in ts ==> IsRule(x)
    ensures Scanning(Join(ts), 0, [], ts)
  {
  }

  lemma UnshadowedStep(kept: seq<string>, rest: seq<string>, body: string)
    requires rest != []
    ensures kept + Unshadowed(rest, body) ==
            (if Survives(body, rest[0]) then kept + [rest[0]] else kept) + Unshadowed(rest[1..], body)
  {
  }

  lemma ScanEnd(s: string, p: nat, kept: seq<string>, rest: seq<string>, body: string)
    requires Scanning(s, p, kept, rest) && |s| <= p
    ensures s == Join(kept + Unshadowed(rest, body))
  {
    assert kept + [] == kept;
    if rest != [] {
      ScanStep(s, p, kept, rest);
    }
  }

  /** The scan of a rule string from position `p`, whatever the string: what is cut at the next
      separator is deleted when `body` shadows it, with one separator. */
  function Edited(s: string, p: nat, body: string): string
    decreases |s| - p
  {
    if p >= |s| then s
    else
      var end := FindChar(s, ' ', p + 1);
      var next := if end < |s| then end + 1 else end;
      var cut := if end == |s| && p != 0 then p - 1 else p;
      if Shadows(body, s[p + 1..end]) then Edited(s[..cut] + s[next..], cut, body) else Edited(s, next, body)
  }

  lemma {:induction false} EditedScans(s: string, p: nat, kept: seq<string>, rest: seq<string>, body: string)
    requires Scanning(s, p, kept, rest)
    ensures Edited(s, p, body) == Join(kept + Unshadowed(rest, body))
    decreases |rest|
  {
    hide Scanning, Join, Unshadowed, Shadows;
    if p >= |s| {
      ScanEnd(s, p, kept, rest, body);
    } else {
      ScanTurn(s, p, kept, rest, body);
      UnshadowedStep(kept, rest, body);
      var end := FindChar(s, ' ', p + 1);
      var next := if end < |s| then end + 1 else end;
      var cut := if end == |s| && p != 0 then p - 1 else p;
      if Shadows(body, s[p + 1..end]) {
        EditedScans(s[..cut] + s[next..], cut, kept, rest[1..], body);
      } else {
        EditedScans(s, next, kept + [rest[0]], rest[1..], body);
      }
    }
  }

  /** On a list of rules the scan deletes exactly the shadowed ones. */
  lemma EditedIs(ts: seq<string>, body: string)
    requires forall x :: x in ts ==> IsRule(x)
    ensures Edited(Join(ts), 0, body) == Join(Unshadowed(ts, body))
  {
    ScanStart(ts);
    EditedScans(Join(ts), 0, [], ts, body);
    assert [] + Unshadowed(ts, body) == Unshadowed(ts, body);
  }

  /** Deletes from the rule string, in place, what `body` shadows. */
  method RemoveRules(rules: string, body: string) returns (s: string)
    ensures s == Edited(rules, 0, body)
    ensures forall ts :: rules == Join(ts) && (forall x :: x in ts ==> IsRule(x)) ==> s == Join(Unshadowed(ts, body))
  {
    hide *;
    s := rules;
    var p: nat := 0;
    while p < |s|
      invariant Edited(s, p, body) == Edited(rules, 0, body)
      decreases |s| - p
    {
      EditedUnfolds(s, p, body);
      var copyPosition := p;
      var existing := p + 1;
      var ruleEnd := FindChar(s, ' ', existing);
      if ruleEnd == |s| {
        // Last rule: also drop the separator before it, unless it is the first rule.
        if copyPosition != 0 {
          copyPosition := copyPosition - 1;
        }
      }
      var copyEnd := ruleEnd;
      if copyEnd < |s| && s[copyEnd] == ' ' {
        copyEnd := copyEnd + 1;
      }

      var existingLen := ruleEnd - existing;
      var common := if existingLen < |body| then existingLen else |body|;
      ComparisonIsShadows(s, existing, ruleEnd, body);
      if s[existing..existing + common] == body[..common] &&
         (existingLen == |body| || (existingLen > |body| && s[existing + |body|] == '|'))
      {
        s := s[..copyPosition] + s[copyEnd..];
        p := copyPosition;
        continue;
      }
      p := copyEnd;
    }
    EditedUnfolds(s, p, body);
    EditedRules(rules, body);
  }

  lemma EditedUnfolds(s: string, p: nat, body: string)
    ensures p >= |s| ==> Edited(s, p, body) == s
    ensures p < |s| ==>
              var end := FindChar(s, ' ', p + 1);
              var next := if end < |s| then end + 1 else end;
              var cut := if end == |s| && p != 0 then p - 1 else p;
              Edited(s, p, body) ==
                if Shadows(body, s[p + 1..end]) then Edited(s[..cut] + s[next..], cut, body) else Edited(s, next, body)
  {
  }

  lemma EditedRules(rules: string, body: string)
    ensures forall ts :: rules == Join(ts) && (forall x :: x in ts ==> IsRule(x)) ==>
              Edited(rules, 0, body) == Join(Unshadowed(ts, body))
  {
    forall ts | rules == Join(ts) && (forall x :: x in ts ==> IsRule(x))
      ensures Edited(rules, 0, body) == Join(Unshadowed(ts, body))
    {
      EditedIs(ts, body);
    }
  }

  lemma TerminatedLast(ts: seq<string>)
    ensures ts != [] ==> |Terminated(ts)| > 0 && Terminated(ts)[..|Terminated(ts)| - 1] == Join(ts)
    ensures ts == [] ==> |Terminated(ts)| == 0
  {
    if ts != [] {
      var init, last := ts[..|ts| - 1], ts[|ts| - 1];
      assert ts == init + [last];
      JoinSnoc(init, last);
    }
  }

  // ---------- sdssplitargs ----------

  datatype Quoting = Plain | Double | Single

  predicate IsHex(c: char) {
    '0' <= c <= '9' || 'a' <= c <= 'f' || 'A' <= c <= 'F'
  }

  function HexValue(c: char): (r: nat)
    requires IsHex(c)
    ensures r < 16
  {
    if '0' <= c <= '9' then c as int - '0' as int
    else if 'a' <= c <= 'f' then c as int - 'a' as int + 10
    else c as int - 'A' as int + 10
  }

  function Unescape(c: char): char {
    match c
    case 'n' => '\n'
    case 'r' => '\r'
    case 't' => '\t'
    case 'b' => 8 as char
    case 'a' => 7 as char
    case _ => c
  }

  /** One token read from position `i`; None for unbalanced quotes, or for a closing quote
      that is not followed by a blank. The position returned is the one to go on from. */
  function ReadToken(s: string, i: nat, q: Quoting, cur: string): (r: Option<(string, nat)>)
    requires i <= |s|
    ensures r.Some? ==> i <= r.value.1 <= |s|
    ensures r.Some? && i < |s| ==> i < r.value.1
    decreases |s| - i
  {
    match q
    case Plain =>
      if i == |s| then Some((cur, i))
      else if IsBreak(s[i]) then Some((cur, i + 1))
      else if s[i] == '"' then ReadToken(s, i + 1, Double, cur)
      else if s[i] == '\'' then ReadToken(s, i + 1, Single, cur)
      else ReadToken(s, i + 1, Plain, cur + [s[i]])
    case Double =>
      if i + 3 < |s| && s[i] == '\\' && s[i + 1] == 'x' && IsHex(s[i + 2]) && IsHex(s[i + 3]) then
        ReadToken(s, i + 4, Double, cur + [(16 * HexValue(s[i + 2]) + HexValue(s[i + 3])) as char])
      else if i + 1 < |s| && s[i] == '\\' then ReadToken(s, i + 2, Double, cur + [Unescape(s[i + 1])])
      else if i < |s| && s[i] == '"' then
        if i + 1 < |s| && !IsSpace(s[i + 1]) then None else Some((cur, i + 1))
      else if i == |s| then None
      else ReadToken(s, i + 1, Double, cur + [s[i]])
    case Single =>
      if i + 1 < |s| && s[i] == '\\' && s[i + 1] == '\'' then ReadToken(s, i + 2, Single, cur + ['\''])
      else if i < |s| && s[i] == '\'' then
        if i + 1 < |s| && !IsSpace(s[i + 1]) then None else Some((cur, i + 1))
      else if i == |s| then None
      else ReadToken(s, i + 1, Single, cur + [s[i]])
  }

  function SplitArgs(s: string, i: nat): (r: Option<seq<string>>)
    requires i <= |s|
    decreases |s| - i
  {
    if i == |s| then Some([])
    else if IsSpace(s[i]) then SplitArgs(s, i + 1)
    else
      var t := ReadToken(s, i, Plain, "");
      if t.None? then None
      else
        var rest := SplitArgs(s, t.value.1);
        if rest.None? then None else Some([t.value.0] + rest.value)
  }

  lemma {:induction false} ReadCleanToken(s: string, i: nat, end: nat, cur: string)
    requires i <= end <= |s|
    requires Clean(s[i..end])
    requires end == |s| || s[end] == ' '
    ensures ReadToken(s, i, Plain, cur) == Some((cur + s[i..end], if end == |s| then end else end + 1))
    decreases end - i
  {
    if i == end {
      assert cur + s[i..end] == cur;
    } else {
      assert s[i..end][0] == s[i];
      assert s[i + 1..end] == s[i..end][1..];
      ReadCleanToken(s, i + 1, end, cur + [s[i]]);
      assert cur + [s[i]] + s[i + 1..end] == cur + s[i..end];
    }
  }

  /** A clean rule that stands first is read as the first token. */
  lemma SplitFirst(prefix: string, tok: string, tail: string)
    requires IsRule(tok)
    ensures var s := prefix + tok + " " + tail;
            var rest := SplitArgs(s, |prefix| + |tok| + 1);
            SplitArgs(s, |prefix|) == if rest.None? then None else Some([tok] + rest.value)
  {
    var s := prefix + tok + " " + tail;
    var end := |prefix| + |tok|;
    assert s[|prefix|] == tok[0] && s[|prefix|..end] == tok && s[end] == ' ';
    ReadCleanToken(s, |prefix|, end, "");
    assert "" + tok == tok;
  }

  /** Reading the rule string back gives the rules, in order. */
  lemma {:induction false} SplitJoin(ts: seq<string>, prefix: string)
    requires forall x :: x in ts ==> IsRule(x)
    ensures SplitArgs(prefix + Join(ts), |prefix|) == Some(ts)
    decreases |ts|
  {
    hide SplitArgs, IsRule, Clean;
    var s := prefix + Join(ts);
    if ts == [] {
      assert s == prefix;
      SplitNothing(prefix);
    } else {
      var tok := ts[0];
      assert tok in ts;
      if |ts| == 1 {
        assert s == prefix + tok;
        SplitOnly(prefix, tok);
        assert [tok] == ts;
      } else {
        var next := prefix + tok + " ";
        assert s == next + Join(ts[1..]);
        SplitFirst(prefix, tok, Join(ts[1..]));
        SplitJoin(ts[1..], next);
        assert ts == [tok] + ts[1..];
      }
    }
  }

  lemma SplitNothing(s: string)
    ensures SplitArgs(s, |s|) == Some([])
  {
  }

  lemma SplitOnly(prefix: string, tok: string)
    requires IsRule(tok)
    ensures SplitArgs(prefix + tok, |prefix|) == Some([tok])
  {
    var s := prefix + tok;
    assert s[|prefix|] == tok[0] && s[|prefix|..|s|] == tok;
    ReadCleanToken(s, |prefix|, |s|, "");
    assert "" + tok == tok;
    SplitNothing(s);
    assert [tok] + [] == [tok];
  }

  /** A token is never longer than the text it was read from, and shorter when a separator or
      a quote was passed. */
  lemma {:induction false} TokenLength(s: string, i: nat, q: Quoting, cur: string)
    requires i <= |s| && ReadToken(s, i, q, cur).Some?
    ensures var (u, end) := ReadToken(s, i, q, cur).value;
            |u| - |cur| + (if q == Plain && Clean(s[i..end]) then 0 else 1) <= end - i
    decreases |s| - i
  {
    var end := ReadToken(s, i, q, cur).value.1;
    if q == Plain && i < |s| && !IsBreak(s[i]) && !IsQuote(s[i]) {
      TokenLength(s, i + 1, Plain, cur + [s[i]]);
      if !Clean(s[i..end]) {
        assert s[i..end] == [s[i]] + s[i + 1..end];
        assert !Clean(s[i + 1..end]);
      }
    } else if q == Plain && i < |s| && IsQuote(s[i]) {
      TokenLength(s, i + 1, if s[i] == '"' then Double else Single, cur);
    } else if q == Double {
      if i + 3 < |s| && s[i] == '\\' && s[i + 1] == 'x' && IsHex(s[i + 2]) && IsHex(s[i + 3]) {
        TokenLength(s, i + 4, Double, cur + [(16 * HexValue(s[i + 2]) + HexValue(s[i + 3])) as char]);
      } else if i + 1 < |s| && s[i] == '\\' {
        TokenLength(s, i + 2, Double, cur + [Unescape(s[i + 1])]);
      } else if s[i] != '"' {
        TokenLength(s, i + 1, Double, cur + [s[i]]);
      }
    } else if q == Single {
      if i + 1 < |s| && s[i] == '\\' && s[i + 1] == '\'' {
        TokenLength(s, i + 2, Single, cur + ['\'']);
      } else if s[i] != '\'' {
        TokenLength(s, i + 1, Single, cur + [s[i]]);
      }
    }
  }

  /** The last rule of a rule string reads back as itself exactly when it holds no separator or
      quote. */
  lemma LastIffClean(prefix: string, r: string)
    requires 1 < |r| && (r[0] == '+' || r[0] == '-')
    ensures SplitArgs(prefix + r, |prefix|) == Some([r]) <==> Clean(r)
  {
    var s, i := prefix + r, |prefix|;
    if Clean(r) {
      SplitJoin([r], prefix);
      assert Join([r]) == r;
    }
    if SplitArgs(s, i) == Some([r]) {
      assert s[i] == r[0];
      var t := ReadToken(s, i, Plain, "").value;
      assert [t.0] + SplitArgs(s, t.1).value == [r];
      assert ([t.0] + SplitArgs(s, t.1).value)[0] == t.0;
      TokenLength(s, i, Plain, "");
      assert t.1 == |s| && s[i..|s|] == r;
    }
  }

  /** Clean rules in front of a last one are read back whatever that one is. */
  lemma {:induction false} SplitBefore(ts: seq<string>, prefix: string, r: string)
    requires forall x :: x in ts ==> IsRule(x)
    ensures var s := prefix + (Terminated(ts) + r);
            SplitArgs(s, |prefix|) == Some(ts + [r]) <==> SplitArgs(s, |prefix + Terminated(ts)|) == Some([r])
    decreases |ts|
  {
    hide SplitArgs, Join, IsRule, Terminated;
    var s := prefix + (Terminated(ts) + r);
    TerminatedFirst(ts);
    if ts == [] {
      assert ts + [r] == [r] && prefix + Terminated(ts) == prefix;
    } else {
      var tok, rest := ts[0], ts[1..];
      assert tok in ts;
      var next := prefix + tok + " ";
      assert s == next + (Terminated(rest) + r);
      SplitFirst(prefix, tok, Terminated(rest) + r);
      SplitBefore(rest, next, r);
      assert |next + Terminated(rest)| == |prefix + Terminated(ts)|;
      assert ts + [r] == [tok] + (rest + [r]);
      SameTail(tok, SplitArgs(s, |next|), rest + [r]);
    }
  }

  lemma TerminatedFirst(ts: seq<string>)
    ensures Terminated(ts) == if ts == [] then "" else ts[0] + " " + Terminated(ts[1..])
  {
    if ts != [] {
      var u := "x";
      JoinSnoc(ts, u);
      JoinSnoc(ts[1..], u);
      assert (ts + [u])[1..] == ts[1..] + [u];
      var a, b := Terminated(ts), ts[0] + " " + Terminated(ts[1..]);
      assert a + u == b + u;
      assert a == (a + u)[..|a|] && b == (b + u)[..|b|];
    }
  }

  lemma SameTail(tok: string, found: Option<seq<string>>, rest: seq<string>)
    ensures found.Some? ==> ([tok] + found.value == [tok] + rest <==> found.value == rest)
  {
    if found.Some? && [tok] + found.value == [tok] + rest {
      assert ([tok] + found.value)[1..] == ([tok] + rest)[1..];
    }
  }
}

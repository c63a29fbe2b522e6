/**
 Which slot a key belongs to, and when a glob pattern can only match keys of one slot. The
 hash (crc16 cut to 14 bits) is a parameter, and so is the matcher's treatment of its special
 characters: the results hold for every one of them.
 */
module HashSlot {
  import opened Common

  /** The part of a key that is hashed: what the first brace pair encloses, if anything. */
  function HashedPart(key: string): string {
    var s := FindChar(key, '{', 0);
    if s == |key| then key
    else
      var e := FindChar(key, '}', s + 1);
      if e == |key| || e == s + 1 then key else key[s + 1..e]
  }

  method KeyHashSlot(key: string, hash: string -> nat) returns (slot: nat)
    ensures slot == hash(HashedPart(key))
  {
    var s := 0;
    while s < |key|
      invariant 0 <= s <= |key|
      invariant FindChar(key, '{', 0) == FindChar(key, '{', s)
    {
      if key[s] == '{' {
        break;
      }
      s := s + 1;
    }
    if s == |key| {
      return hash(key);
    }
    var e := s + 1;
    while e < |key|
      invariant s + 1 <= e <= |key|
      invariant FindChar(key, '}', s + 1) == FindChar(key, '}', e)
    {
      if key[e] == '}' {
        break;
      }
      e := e + 1;
    }
    if e == |key| || e == s + 1 {
      return hash(key);
    }
    return hash(key[s + 1..e]);
  }

  // ---------- glob patterns ----------

  predicate Special(c: char) {
    c == '*' || c == '?' || c == '[' || c == '\\'
  }

  predicate AllStars(p: string) {
    forall i :: 0 <= i < |p| ==> p[i] == '*'
  }

  /** stringmatchlen, case-sensitive. `special` stands for the branches for special characters:
      whether the rest of the pattern, starting with one, matches the rest of the string. */
  predicate Matches(p: string, s: string, special: (string, string) -> bool)
    decreases |p|
  {
    if p == "" || s == "" then p == "" && s == ""
    else if Special(p[0]) then special(p, s)
    else if p[0] != s[0] then false
    else if |s| == 1 then AllStars(p[1..])
    else Matches(p[1..], s[1..], special)
  }

  /** The scan of patternHashSlot from position `i`. `s` is the position of the first opening
      brace, -1 before one is seen, -2 once it turned out to enclose nothing. */
  function Scan(p: string, i: nat, s: int): Option<string>
    requires i <= |p| && -2 <= s < i
    decreases |p| - i
  {
    if i == |p| then Some(p)
    else if Special(p[i]) then None
    else if s == -1 && p[i] == '{' then Scan(p, i + 1, i)
    else if s >= 0 && p[i] == '}' && i == s + 1 then Scan(p, i + 1, -2)
    else if s >= 0 && p[i] == '}' then Some(p[s + 1..i])
    else Scan(p, i + 1, s)
  }

  method PatternHashSlot(p: string, hash: string -> nat) returns (slot: int)
    ensures slot == match Scan(p, 0, -1) case None => -1 case Some(part) => hash(part)
  {
    var s := -1;
    var i := 0;
    while i < |p|
      invariant 0 <= i <= |p| && -2 <= s < i
      invariant Scan(p, i, s) == Scan(p, 0, -1)
    {
      if p[i] == '*' || p[i] == '?' || p[i] == '[' {
        return -1;
      } else if p[i] == '\\' {
        return -1;
      } else if s == -1 && p[i] == '{' {
        s := i;
      } else if s >= 0 && p[i] == '}' && i == s + 1 {
        s := -2;
      } else if s >= 0 && p[i] == '}' {
        return hash(p[s + 1..i]);
      }
      i := i + 1;
    }
    return hash(p);
  }

  predicate Plain(p: string) {
    forall i :: 0 <= i < |p| ==> !Special(p[i])
  }

  /** A match agrees with the pattern up to the first special character. */
  lemma {:induction false} MatchAgrees(p: string, s: string, special: (string, string) -> bool, n: nat)
    requires Matches(p, s, special) && n <= |p| && Plain(p[..n])
    ensures n <= |s| && s[..n] == p[..n]
    ensures n == |p| ==> s == p
    decreases |p|
  {
    if n > 0 {
      assert p[0] == p[..n][0];
      assert n > 1 ==> p[1] == p[..n][1];
      if |s| > 1 {
        assert p[1..][..n - 1] == p[..n][1..];
        MatchAgrees(p[1..], s[1..], special, n - 1);
        assert s[..n] == [s[0]] + s[1..][..n - 1];
      }
    }
  }

  /** What the scan knows about the part it has read. */
  predicate Read(p: string, i: nat, s: int)
    requires i <= |p|
  {
    && -2 <= s < i && Plain(p[..i])
    && (s == -1 ==> FindChar(p[..i], '{', 0) == i)
    && (s == -2 ==> var b := FindChar(p[..i], '{', 0); b + 1 < i && p[b + 1] == '}')
    && (s >= 0 ==> FindChar(p[..i], '{', 0) == s && FindChar(p[..i], '}', s + 1) == i)
  }

  /** The first brace of a string is found in any extension of it. */
  lemma {:induction false} FindExtends(s: string, t: string, c: char, i: nat)
    requires i <= |s| <= |t| && t[..|s|] == s
    ensures FindChar(s, c, i) < |s| ==> FindChar(t, c, i) == FindChar(s, c, i)
    ensures FindChar(s, c, i) == |s| ==> FindChar(t, c, i) == FindChar(t, c, |s|)
    decreases |s| - i
  {
    if i < |s| {
      assert s[i] == t[..|s|][i];
      FindExtends(s, t, c, i + 1);
    }
  }

  lemma ReadOn(p: string, i: nat, s: int)
    requires i < |p| && Read(p, i, s) && !Special(p[i])
    ensures s == -1 && p[i] == '{' ==> Read(p, i + 1, i)
    ensures s >= 0 && p[i] == '}' && i == s + 1 ==> Read(p, i + 1, -2)
    ensures !(s == -1 && p[i] == '{') && !(s >= 0 && p[i] == '}') ==> Read(p, i + 1, s)
  {
    var a, b := p[..i], p[..i + 1];
    assert b[..|a|] == a;
    FindExtends(a, b, '{', 0);
    if s >= 0 {
      FindExtends(a, b, '}', s + 1);
    }
    forall j | 0 <= j < |b| ensures !Special(b[j]) {
      if j < i {
        assert b[j] == a[j];
      }
    }
  }

  /** Every key that the pattern can match is hashed on the part that the scan finds. */
  lemma {:induction false} ScanIsSound(p: string, i: nat, s: int, key: string, special: (string, string) -> bool)
    requires i <= |p| && Read(p, i, s) && Scan(p, i, s).Some? && Matches(p, key, special)
    ensures HashedPart(key) == Scan(p, i, s).value
    decreases |p| - i
  {
    if i == |p| {
      assert p[..i] == p;
      MatchAgrees(p, key, special, i);
    } else {
      ReadOn(p, i, s);
      if s == -1 && p[i] == '{' {
        ScanIsSound(p, i + 1, i, key, special);
      } else if s >= 0 && p[i] == '}' && i == s + 1 {
        ScanIsSound(p, i + 1, -2, key, special);
      } else if s >= 0 && p[i] == '}' {
        ClosedTag(p, i, s, key, special);
      } else {
        ScanIsSound(p, i + 1, s, key, special);
      }
    }
  }

  lemma ClosedTag(p: string, i: nat, s: nat, key: string, special: (string, string) -> bool)
    requires i < |p| && Read(p, i, s) && p[i] == '}' && i != s + 1 && Matches(p, key, special)
    ensures HashedPart(key) == p[s + 1..i]
  {
    var a, b := p[..i], p[..i + 1];
    assert b == a + ['}'];
    forall j | 0 <= j < |b| ensures !Special(b[j]) {
      if j < i {
        assert b[j] == a[j];
      }
    }
    MatchAgrees(p, key, special, i + 1);
    assert key[..i + 1] == p[..i + 1];
    assert key[i] == key[..i + 1][i] == '}';
    assert key[..i] == key[..i + 1][..i] == a;
    FindExtends(a, key, '{', 0);
    FindExtends(a, key, '}', s + 1);
    assert key[s + 1..i] == key[..i][s + 1..] == a[s + 1..] == p[s + 1..i];
  }

  /** If patternHashSlot names a slot, every key the pattern can match has that slot. */
  lemma PatternSlotIsSound(p: string, key: string, special: (string, string) -> bool)
    requires Scan(p, 0, -1).Some? && Matches(p, key, special)
    ensures HashedPart(key) == Scan(p, 0, -1).value
  {
    assert p[..0] == "";
    ScanIsSound(p, 0, -1, key, special);
  }

  /** The scan gives up exactly when a special character comes before a closed tag. */
  lemma {:induction false} ScanGivesUp(p: string, i: nat, s: int)
    requires i <= |p| && Read(p, i, s)
    ensures Scan(p, i, s).None? <==>
            exists j :: i <= j < |p| && Special(p[j]) && forall e :: i <= e < j ==> !ClosesTag(p, e)
    decreases |p| - i
  {
    if i < |p| && !Special(p[i]) {
      ReadOn(p, i, s);
      ClosesHere(p, i, s);
      if !ClosesTag(p, i) {
        var s' := if s == -1 && p[i] == '{' then i else if s >= 0 && p[i] == '}' then -2 else s;
        ScanGivesUp(p, i + 1, s');
        if Scan(p, i + 1, s').None? {
          var j :| i + 1 <= j < |p| && Special(p[j]) && forall e :: i + 1 <= e < j ==> !ClosesTag(p, e);
          assert forall e :: i <= e < j ==> !ClosesTag(p, e);
        }
      }
    } else if i < |p| {
      assert Special(p[i]);
    }
  }

  /** A closing brace of the first opening brace, with something in between. */
  predicate ClosesTag(p: string, e: nat)
    requires e < |p|
  {
    var s := FindChar(p, '{', 0);
    s + 1 < e && FindChar(p, '}', s + 1) == e
  }

  lemma ClosesHere(p: string, i: nat, s: int)
    requires i < |p| && Read(p, i, s) && !Special(p[i])
    ensures ClosesTag(p, i) <==> s >= 0 && p[i] == '}' && i != s + 1
  {
    var a := p[..i];
    FindExtends(a, p, '{', 0);
    if s >= 0 {
      FindExtends(a, p, '}', s + 1);
    }
  }
}

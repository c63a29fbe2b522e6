/**
 Deleting shadowed rules preserves meaning: for every run of operations on a fixed command
 table, replaying the rules that are left, from +@all or -@all as the reserved bit says,
 rebuilds the bitmap and the first-argument sets, and leaves the rules as they are.
 */
module AclReplay {
  import opened Common
  import opened AclText
  import opened Acl

  function EffectOf(t: Table, r: string): Effect
    requires IsStored(t, r)
  {
    Parse(t, r).effect
  }

  // ---------- what a newer rule overwrites ----------

  predicate OwnsArg(e: Effect, x: (nat, string)) {
    match e
    case Reset(_) => true
    case Bits(_, _, clears, _) => x.0 in clears
    case FirstArg(id, arg, _) => x == (id, Lower(arg))
  }

  function OwnedBits(e: Effect): set<nat> {
    match e
    case Reset(_) => AllBits()
    case Bits(_, ids, _, _) => InRange(ids)
    case FirstArg(_, _, _) => {}
  }

  /** Equal wherever `e` does not write. */
  ghost predicate AgreeOutside(e: Effect, p: Perm, q: Perm) {
    && (forall b :: b !in OwnedBits(e) ==> (b in p.bits <==> b in q.bits))
    && (forall x :: !OwnsArg(e, x) ==> (x in p.args <==> x in q.args))
  }

  /** First arguments are only kept for commands that are not subcommands. */
  predicate NoSubArgs(t: Table, p: Perm) {
    forall x :: x in p.args ==> x.0 !in SubIds(t)
  }

  lemma AgreeThenEqual(e: Effect, p: Perm, q: Perm)
    requires AgreeOutside(e, p, q)
    ensures Apply(e, p) == Apply(e, q)
  {
    var a, b := Apply(e, p), Apply(e, q);
    assert forall i :: i in a.bits <==> i in b.bits;
    assert a.bits == b.bits;
    forall x: (nat, string) ensures x in a.args <==> x in b.args {
      assert OwnsArg(e, x) || (x in p.args <==> x in q.args);
    }
    assert a.args == b.args;
  }

  lemma ApplyKeepsAgreement(e: Effect, d: Effect, p: Perm, q: Perm)
    requires AgreeOutside(e, p, q)
    ensures AgreeOutside(e, Apply(d, p), Apply(d, q))
  {
  }

  /** Everything `d` writes is written again by `e`; clearing the first arguments of a
      subcommand writes nothing. */
  predicate Covers(t: Table, e: Effect, d: Effect) {
    match d
    case Reset(_) => false
    case Bits(_, ids, clears, _) =>
      e.Bits? && InRange(ids) <= InRange(e.ids) && (forall c :: c in clears ==> c in e.clears || c in SubIds(t))
    case FirstArg(id, arg, _) =>
      (e.Bits? && id in e.clears) || (e.FirstArg? && e.id == id && Lower(e.arg) == Lower(arg))
  }

  lemma CoveredAgrees(t: Table, e: Effect, d: Effect, p: Perm, q: Perm)
    requires Covers(t, e, d) && NoSubArgs(t, p) && AgreeOutside(e, p, q)
    ensures AgreeOutside(e, Apply(d, p), q)
  {
  }

  // ---------- a rule's text fixes what it writes ----------

  /** The effect of a stored command rule, read off its body whatever its sign. */
  ghost predicate HasShape(t: Table, n: string, e: Effect) {
    var bar := FindChar(n, '|', 0);
    if bar == |n| then
      var c := LookupCommand(t, n);
      c.Top? && e.Bits? && e.ids == PermIds(c) && e.clears == {PermId(c)}
    else
      && FindChar(n, '|', bar + 1) == |n|
      && LookupCommand(t, n[..bar]).Top?
      && var cmd := LookupCommand(t, n[..bar]).cmd;
         if cmd.subs == map[] then e.FirstArg? && e.id == cmd.id && e.arg == n[bar + 1..]
         else
           var c := LookupCommand(t, n);
           c.Child? && e.Bits? && e.ids == {c.sub.id} && e.clears == {c.sub.id} &&
           c.sub.id in PermIds(Top(cmd)) && c.sub.id in SubIds(t)
  }

  lemma ChildShape(t: Table, n: string)
    requires WellFormed(t) && LookupCommand(t, n).Child?
    ensures var bar := FindChar(n, '|', 0);
            && bar < |n| && FindChar(n, '|', bar + 1) == |n|
            && LookupCommand(t, n[..bar]).Top?
            && LookupCommand(t, n[..bar]).cmd.subs != map[]
            && LookupCommand(t, n).sub.id in PermIds(LookupCommand(t, n[..bar]))
            && LookupCommand(t, n).sub.id in SubIds(t)
  {
    var bar := FindChar(n, '|', 0);
    var base := n[..bar];
    assert IsName(Lower(base));
    assert FindChar(base, '|', 0) == |base| by {
      assert forall k :: 0 <= k < |base| ==> base[k] == n[k];
    }
  }

  lemma OnlyBar(t: Table, n: string)
    requires LastBar(n) < |n| && LookupCommand(t, n[..LastBar(n)]).Top?
    ensures FindChar(n, '|', 0) == LastBar(n)
    ensures FindChar(n, '|', LastBar(n) + 1) == |n|
  {
    var bar := LastBar(n);
    var base := n[..bar];
    assert FindChar(base, '|', 0) == |base|;
    assert forall k :: 0 <= k < bar ==> n[k] == base[k];
  }

  lemma BarShape(t: Table, n: string)
    requires WellFormed(t) && LastBar(n) < |n| && ParseBar(t, n).Parsed?
    ensures HasShape(t, n, ParseBar(t, n).effect)
  {
    hide WellFormed, LookupCommand, LastBar, PermIds, PermId, SubIds, FindChar;
    var c := LookupCommand(t, n[..LastBar(n)]);
    OnlyBar(t, n);
    if c.cmd.subs != map[] {
      SubIsChild(t, n);
      ChildShape(t, n);
      ChildPerm(t, n);
    }
  }

  lemma SubIsChild(t: Table, n: string)
    requires LastBar(n) < |n| && !LookupCommand(t, n).Missing?
    ensures LookupCommand(t, n).Child?
  {
    assert n[LastBar(n)] == '|';
  }

  lemma ChildPerm(t: Table, n: string)
    requires LookupCommand(t, n).Child?
    ensures var c := LookupCommand(t, n); PermIds(c) == {c.sub.id} && PermId(c) == c.sub.id
  {
  }

  lemma StoredShape(t: Table, r: string)
    requires WellFormed(t) && IsStored(t, r) && r[1] != '@'
    ensures HasShape(t, r[1..], EffectOf(t, r))
  {
    var n := r[1..];
    ParseUnfolds(t, r);
    var plus := r[0] == '+';
    assert n[0] == r[1];
    if !plus || LastBar(n) == |n| {
      var c := LookupCommand(t, n);
      if c.Child? {
        ChildShape(t, n);
      } else {
        assert FindChar(n, '|', 0) == |n|;
      }
    } else {
      BarShape(t, n);
    }
  }

  lemma CategoryShape(t: Table, r: string)
    requires WellFormed(t) && IsStored(t, r) && r[1] == '@'
    ensures '|' !in r[1..]
    ensures Lower(r[2..]) in t.categories
    ensures var flag := t.categories[Lower(r[2..])];
            EffectOf(t, r) == Bits(r[0] == '+', CategoryIds(t, flag), CategoryClears(t, flag), Lower(r[1..]))
  {
    ParseUnfolds(t, r);
    var n := r[1..];
    assert n[0] == '@' && n[1..] == r[2..];
    var low := Lower(n[1..]);
    assert IsName(low);
    forall i | 0 <= i < |n| ensures n[i] != '|' {
      if i > 0 {
        assert low[i - 1] == LowerChar(n[i]);
        assert low[i - 1] in low;
      }
    }
  }

  lemma ShadowedIsCovered(t: Table, r: string, older: string)
    requires WellFormed(t) && IsStored(t, r) && IsStored(t, older)
    requires Shadows(r[1..], older[1..])
    ensures Covers(t, EffectOf(t, r), EffectOf(t, older))
  {
    var N, n := r[1..], older[1..];
    assert N[0] == n[0];
    assert N[0] == r[1] && n[0] == older[1];
    if r[1] == '@' {
      CategoryShape(t, r);
      CategoryShape(t, older);
      assert n == N;
      assert r[2..] == N[1..] == older[2..];
    } else {
      StoredShape(t, r);
      StoredShape(t, older);
      if n != N {
        assert n[..|N|] == N;
        ShorterCovers(t, N, n, EffectOf(t, r), EffectOf(t, older));
      }
    }
  }

  lemma ShorterCovers(t: Table, N: string, n: string, e: Effect, d: Effect)
    requires WellFormed(t) && HasShape(t, N, e) && HasShape(t, n, d)
    requires |N| < |n| && n[..|N|] == N && n[|N|] == '|'
    ensures Covers(t, e, d)
  {
    var bar := FindChar(n, '|', 0);
    assert FindChar(N, '|', 0) == |N| by {
      assert forall k :: 0 <= k < |N| ==> N[k] == n[k];
    }
  }

  // ---------- running rules over permissions ----------

  function RunRules(t: Table, p: Perm, rs: seq<string>): Perm
    requires forall r :: r in rs ==> IsStored(t, r)
    decreases |rs|
  {
    if rs == [] then p else RunRules(t, Apply(EffectOf(t, rs[0]), p), rs[1..])
  }

  lemma {:induction false} RunRulesSnoc(t: Table, p: Perm, rs: seq<string>, r: string)
    requires forall x :: x in rs + [r] ==> IsStored(t, x)
    ensures forall x :: x in rs ==> IsStored(t, x)
    ensures RunRules(t, p, rs + [r]) == Apply(EffectOf(t, r), RunRules(t, p, rs))
    decreases |rs|
  {
    assert forall x :: x in rs ==> x in rs + [r];
    assert r in rs + [r];
    if rs == [] {
      assert rs + [r] == [r];
    } else {
      assert (rs + [r])[1..] == rs[1..] + [r];
      assert (rs + [r])[0] == rs[0];
      RunRulesSnoc(t, Apply(EffectOf(t, rs[0]), p), rs[1..], r);
    }
  }

  lemma ApplyKeepsNoSubArgs(t: Table, r: string, p: Perm)
    requires WellFormed(t) && IsStored(t, r) && NoSubArgs(t, p)
    ensures NoSubArgs(t, Apply(EffectOf(t, r), p))
  {
    if EffectOf(t, r).FirstArg? {
      if r[1] == '@' {
        CategoryShape(t, r);
      } else {
        StoredShape(t, r);
        var bar := FindChar(r[1..], '|', 0);
        var cmd := LookupCommand(t, r[1..][..bar]).cmd;
        assert cmd.id in PlainIds(t);
      }
    }
  }

  /** The heart of the matter: dropping what a new rule shadows changes nothing outside of
      what the new rule writes. */
  lemma {:induction false} DroppingShadowedAgrees(t: Table, r: string, rs: seq<string>, p: Perm, q: Perm)
    requires WellFormed(t) && IsStored(t, r)
    requires forall x :: x in rs ==> IsStored(t, x)
    requires NoSubArgs(t, p) && AgreeOutside(EffectOf(t, r), p, q)
    ensures forall x :: x in Unshadowed(rs, r[1..]) ==> IsStored(t, x)
    ensures AgreeOutside(EffectOf(t, r), RunRules(t, p, rs), RunRules(t, q, Unshadowed(rs, r[1..])))
    decreases |rs|
  {
    UnshadowedMembers(rs, r[1..]);
    if rs != [] {
      var e, d := EffectOf(t, r), EffectOf(t, rs[0]);
      var p' := Apply(d, p);
      ApplyKeepsNoSubArgs(t, rs[0], p);
      if Survives(r[1..], rs[0]) {
        ApplyKeepsAgreement(e, d, p, q);
        DroppingShadowedAgrees(t, r, rs[1..], p', Apply(d, q));
        var kept := Unshadowed(rs[1..], r[1..]);
        assert ([rs[0]] + kept)[1..] == kept;
      } else {
        ShadowedIsCovered(t, r, rs[0]);
        CoveredAgrees(t, e, d, p, q);
        DroppingShadowedAgrees(t, r, rs[1..], p', q);
      }
    }
  }

  lemma AddingRuleKeepsMeaning(t: Table, r: string, rs: seq<string>, p: Perm)
    requires WellFormed(t) && IsStored(t, r) && NoSubArgs(t, p)
    requires forall x :: x in rs ==> IsStored(t, x)
    ensures forall x :: x in Unshadowed(rs, r[1..]) + [r] ==> IsStored(t, x)
    ensures RunRules(t, p, Unshadowed(rs, r[1..]) + [r]) == Apply(EffectOf(t, r), RunRules(t, p, rs))
  {
    UnshadowedMembers(rs, r[1..]);
    DroppingShadowedAgrees(t, r, rs, p, p);
    var kept := Unshadowed(rs, r[1..]);
    RunRulesSnoc(t, p, kept, r);
    AgreeThenEqual(EffectOf(t, r), RunRules(t, p, rs), RunRules(t, p, kept));
  }

  // ---------- the invariant of every run ----------

  /** Replay starts from +@all or -@all, as the reserved bit says. */
  function Base(s: State): Perm {
    Perm(if FUTURE_BIT in s.allowed then AllBits() else {}, {})
  }

  /** No rule is shadowed by a later one. */
  predicate Canonical(rs: seq<string>)
    decreases |rs|
  {
    rs == [] ||
    ((forall x :: x in rs[1..] ==> Survives(Body(x), rs[0])) && Canonical(rs[1..]))
  }

  ghost predicate Faithful(t: Table, s: State) {
    && (forall r :: r in s.rules ==> IsStored(t, r))
    && Canonical(s.rules)
    && PermOf(s) == RunRules(t, Base(s), s.rules)
    && (s.allCommands ==> s.allowed == AllBits())
  }

  lemma {:induction false} CanonicalUnshadowed(rs: seq<string>, body: string)
    requires Canonical(rs)
    ensures Canonical(Unshadowed(rs, body))
    decreases |rs|
  {
    UnshadowedMembers(rs, body);
    if rs != [] {
      CanonicalUnshadowed(rs[1..], body);
      UnshadowedMembers(rs[1..], body);
      var rest := Unshadowed(rs[1..], body);
      if Survives(body, rs[0]) {
        assert ([rs[0]] + rest)[1..] == rest;
      }
    }
  }

  lemma {:induction false} CanonicalSnoc(rs: seq<string>, r: string)
    requires (forall x :: x in rs ==> Survives(Body(r), x)) && Canonical(rs)
    ensures Canonical(rs + [r])
    decreases |rs|
  {
    if rs != [] {
      CanonicalSnoc(rs[1..], r);
      assert (rs + [r])[1..] == rs[1..] + [r];
    }
  }

  lemma {:induction false} CanonicalMiddle(rs: seq<string>, r: string, us: seq<string>)
    requires Canonical(rs + [r] + us)
    ensures forall x :: x in rs ==> Survives(Body(r), x)
    decreases |rs|
  {
    var all := rs + [r] + us;
    assert r in all;
    if rs != [] {
      assert all[1..] == rs[1..] + [r] + us;
      assert r in all[1..];
      CanonicalMiddle(rs[1..], r, us);
      assert rs == [rs[0]] + rs[1..];
    }
  }

  function TableIds(t: Table): set<nat> {
    (set k | k in t.commands :: t.commands[k].id) + SubIds(t)
  }

  lemma TableSparesFuture(t: Table)
    requires WellFormed(t)
    ensures FUTURE_BIT !in TableIds(t)
  {
    forall i | i in TableIds(t) ensures i != FUTURE_BIT {
      if i in SubIds(t) {
        var k, j :| k in t.commands && j in t.commands[k].subs && t.commands[k].subs[j].id == i;
        assert IsName(j);
      } else {
        var k :| k in t.commands && t.commands[k].id == i;
        assert IsName(k);
      }
    }
  }

  lemma EntrySparesFuture(t: Table, n: string)
    requires WellFormed(t) && !LookupCommand(t, n).Missing?
    ensures FUTURE_BIT !in PermIds(LookupCommand(t, n))
  {
    TableSparesFuture(t);
    var e := LookupCommand(t, n);
    if e.Top? {
      var k := Lower(n);
      forall i | i in PermIds(e) ensures i in TableIds(t) {
        if i != e.cmd.id {
          var j :| j in e.cmd.subs && e.cmd.subs[j].id == i;
          assert t.commands[k].subs[j].id == i;
        }
      }
    }
  }

  lemma CategorySparesFuture(t: Table, flag: nat)
    requires WellFormed(t)
    ensures FUTURE_BIT !in CategoryIds(t, flag)
  {
    TableSparesFuture(t);
    assert CategoryIds(t, flag) <= TableIds(t);
  }

  lemma ShapeSparesFuture(t: Table, n: string, e: Effect)
    requires WellFormed(t) && HasShape(t, n, e)
    ensures FUTURE_BIT !in OwnedBits(e) && !e.Reset?
  {
    if e.Bits? {
      EntrySparesFuture(t, n);
    }
  }

  lemma StoredSparesFuture(t: Table, r: string)
    requires WellFormed(t) && IsStored(t, r)
    ensures FUTURE_BIT !in OwnedBits(EffectOf(t, r))
    ensures !EffectOf(t, r).Reset?
  {
    hide HasShape, Parse, WellFormed, CategoryIds, CategoryClears;
    if r[1] == '@' {
      CategoryShape(t, r);
      CategorySparesFuture(t, t.categories[Lower(r[2..])]);
    } else {
      StoredShape(t, r);
      ShapeSparesFuture(t, r[1..], EffectOf(t, r));
    }
  }

  lemma {:induction false} RunRulesSparesFuture(t: Table, p: Perm, rs: seq<string>)
    requires WellFormed(t) && forall x :: x in rs ==> IsStored(t, x)
    ensures FUTURE_BIT in RunRules(t, p, rs).bits <==> FUTURE_BIT in p.bits
    decreases |rs|
  {
    if rs != [] {
      StoredSparesFuture(t, rs[0]);
      RunRulesSparesFuture(t, Apply(EffectOf(t, rs[0]), p), rs[1..]);
    }
  }

  lemma FreshIsFaithful(t: Table)
    ensures Faithful(t, Fresh)
  {
    assert PermOf(Fresh) == Perm({}, {});
  }

  lemma RuleStepKeepsFaithful(t: Table, s: State, op: string)
    requires WellFormed(t) && CleanOperand(t, op) && Faithful(t, s)
    requires Parse(t, op).Parsed? && !Parse(t, op).effect.Reset?
    ensures Faithful(t, Step(t, s, op))
  {
    hide WellFormed, Parse, IsStored, CleanOperand, RunRules;
    var e := Parse(t, op).effect;
    var r := RuleText(e);
    var s' := Step(t, s, op);
    StoredRule(t, op);
    StoredSparesFuture(t, r);
    assert r[1..] == e.body;
    assert OwnedBits(EffectOf(t, r)) == OwnedBits(e);
    assert Base(s') == Base(s);
    ExecApplies(s, e);
    ApplyLowerArg(e, PermOf(s));
    assert NoSubArgs(t, Base(s));
    AddingRuleKeepsMeaning(t, r, s.rules, Base(s));
    assert r != "" && Body(r) == e.body;
    CanonicalUnshadowed(s.rules, e.body);
    UnshadowedMembers(s.rules, e.body);
    CanonicalSnoc(Unshadowed(s.rules, e.body), r);
  }

  lemma StepKeepsFaithful(t: Table, s: State, op: string)
    requires WellFormed(t) && CleanOperand(t, op) && Faithful(t, s)
    ensures Faithful(t, Step(t, s, op))
  {
    var o := Parse(t, op);
    if o.Parsed? {
      if o.effect.Reset? {
        assert PermOf(Exec(s, o.effect)) == Perm(if o.effect.on then AllBits() else {}, {});
      } else {
        RuleStepKeepsFaithful(t, s, op);
      }
    }
  }

  lemma {:induction false} RunKeepsFaithful(t: Table, s: State, ops: seq<string>)
    requires WellFormed(t) && Faithful(t, s)
    requires forall op :: op in ops ==> CleanOperand(t, op)
    ensures Faithful(t, Run(t, s, ops))
    decreases |ops|
  {
    if ops != [] {
      StepKeepsFaithful(t, s, ops[0]);
      RunKeepsFaithful(t, Step(t, s, ops[0]), ops[1..]);
    }
  }

  // ---------- replay ----------

  /** Replays rule texts one by one; None when ACLSetSelector rejects one of them. */
  function Replay(t: Table, s: State, rs: seq<string>): Option<State>
    decreases |rs|
  {
    if rs == [] then Some(s)
    else if Parse(t, rs[0]).Failed? then None
    else Replay(t, Step(t, s, rs[0]), rs[1..])
  }

  lemma {:induction false} ReplayFollows(t: Table, s: State, rs: seq<string>)
    requires forall r :: r in rs ==> IsStored(t, r)
    requires Canonical(s.rules + rs)
    ensures Replay(t, s, rs).Some?
    ensures Replay(t, s, rs).value.rules == s.rules + rs
    ensures PermOf(Replay(t, s, rs).value) == RunRules(t, PermOf(s), rs)
    decreases |rs|
  {
    if rs == [] {
      assert s.rules + rs == s.rules;
    } else {
      assert s.rules + rs == s.rules + [rs[0]] + rs[1..];
      CanonicalMiddle(s.rules, rs[0], rs[1..]);
      ReplayOne(t, s, rs[0]);
      var s' := Step(t, s, rs[0]);
      assert s'.rules + rs[1..] == s.rules + rs;
      ReplayFollows(t, s', rs[1..]);
    }
  }

  lemma ReplayOne(t: Table, s: State, r: string)
    requires IsStored(t, r) && forall x :: x in s.rules ==> Survives(Body(r), x)
    ensures Step(t, s, r).rules == s.rules + [r]
    ensures PermOf(Step(t, s, r)) == Apply(EffectOf(t, r), PermOf(s))
  {
    hide Parse, IsRule;
    var e := EffectOf(t, r);
    assert e.body == Body(r);
    UnshadowedNone(s.rules, e.body);
    ExecApplies(s, e);
  }

  function StartOp(s: State): string {
    if FUTURE_BIT in s.allowed then "+@all" else "-@all"
  }

  lemma StartState(t: Table, s: State, from: State)
    ensures var b := Step(t, from, StartOp(s));
            b.rules == [] && b.firstArgs == map[] && PermOf(b) == Base(s) &&
            b.allCommands == (FUTURE_BIT in s.allowed)
  {
    assert Lower("+@all") == "+@all";
    assert Lower("-@all") == "-@all";
    assert Keyword("+@all") == Some(Parsed(Reset(true)));
    assert Keyword("-@all") == Some(Parsed(Reset(false)));
    assert ArgSet(map[]) == {};
  }

  /** What the panic checks, and more: replaying from any selector `from` after the starting
      operation gives back the bitmap, the first arguments up to case, and the same rules. */
  lemma ReplayRebuilds(t: Table, s: State, from: State)
    requires Faithful(t, s)
    ensures var r := Replay(t, Step(t, from, StartOp(s)), s.rules);
            && r.Some?
            && r.value.allowed == s.allowed
            && ArgSet(r.value.firstArgs) == ArgSet(s.firstArgs)
            && r.value.rules == s.rules
  {
    var b := Step(t, from, StartOp(s));
    StartState(t, s, from);
    assert b.rules + s.rules == s.rules;
    ReplayFollows(t, b, s.rules);
  }

  /** For every run of operations on a fixed table, from a fresh selector: the kept rule
      string splits into rules whose replay rebuilds the selector. */
  lemma RunReplays(t: Table, ops: seq<string>, from: State)
    requires WellFormed(t)
    requires forall op :: op in ops ==> CleanOperand(t, op)
    ensures var s := Run(t, Fresh, ops);
            && SplitArgs(Join(s.rules), 0) == Some(s.rules)
            && var r := Replay(t, Step(t, from, StartOp(s)), s.rules);
            && r.Some?
            && r.value.allowed == s.allowed
            && ArgSet(r.value.firstArgs) == ArgSet(s.firstArgs)
            && r.value.rules == s.rules
    ensures var s := Run(t, Fresh, ops); s.allCommands ==> s.allowed == AllBits()
  {
    var s := Run(t, Fresh, ops);
    FreshIsFaithful(t);
    RunKeepsFaithful(t, Fresh, ops);
    ReplayRebuilds(t, s, from);
    SplitJoin(s.rules, "");
    assert "" + Join(s.rules) == Join(s.rules);
  }

  predicate Readable(s: State) {
    SplitArgs(Join(s.rules), 0) == Some(s.rules)
  }

  lemma FaithfulIsReadable(t: Table, s: State)
    requires Faithful(t, s)
    ensures Readable(s)
  {
    SplitJoin(s.rules, "");
    assert "" + Join(s.rules) == Join(s.rules);
  }

  /** The condition on operands is exact, whatever rules came before: the rule string is
      readable again if and only if the first-argument operand holds no separator or quote. */
  lemma ReadableIffCleanOperand(t: Table, s: State, op: string)
    requires WellFormed(t) && Faithful(t, s)
    ensures Readable(Step(t, s, op)) <==> CleanOperand(t, op)
  {
    hide WellFormed, Parse, CleanOperand, Faithful, Readable, Canonical, RunRules;
    if CleanOperand(t, op) {
      StepKeepsFaithful(t, s, op);
      FaithfulIsReadable(t, Step(t, s, op));
    } else {
      UncleanIsParsed(t, op);
      UncleanRule(t, op);
      UnreadableStep(t, s, Parse(t, op).effect);
    }
  }

  lemma UncleanIsParsed(t: Table, op: string)
    requires !CleanOperand(t, op)
    ensures Parse(t, op).Parsed?
  {
  }

  lemma UnreadableStep(t: Table, s: State, e: Effect)
    requires Faithful(t, s) && !e.Reset?
    requires 1 < |RuleText(e)| && RuleText(e)[0] == '+' && !Clean(RuleText(e))
    ensures !Readable(Exec(s, e))
  {
    hide RunRules, Canonical, Clean, SplitArgs, Join, Parse, Terminated, RuleText;
    var kept, r := Unshadowed(s.rules, e.body), RuleText(e);
    assert Exec(s, e).rules == kept + [r];
    UnshadowedMembers(s.rules, e.body);
    SplitBefore(kept, "", r);
    JoinSnoc(kept, r);
    assert "" + (Terminated(kept) + r) == Terminated(kept) + r && "" + Terminated(kept) == Terminated(kept);
    LastIffClean(Terminated(kept), r);
  }

  const GET_ONLY := Table(map["get" := Command(0, "get", {}, map[])], map[])

  /** A first argument with a blank in it: accepted, and from then on the rule string of the
      selector cannot be read back. */
  lemma BlankOperandIsUnreadable(s: State)
    requires Faithful(GET_ONLY, s)
    ensures Parse(GET_ONLY, "+get|a b") == Parsed(FirstArg(0, "a b", "get|a b"))
    ensures !Readable(Step(GET_ONLY, s, "+get|a b"))
  {
    GetIsWellFormed();
    BlankParses();
    assert !Clean("a b") by {
      assert IsBreak("a b"[1]);
    }
    ReadableIffCleanOperand(GET_ONLY, s, "+get|a b");
  }

  lemma GetIsWellFormed()
    ensures WellFormed(GET_ONLY)
  {
    assert Lower("get") == "get";
    assert SubIds(GET_ONLY) == {};
  }

  lemma BlankParses()
    ensures Parse(GET_ONLY, "+get|a b") == Parsed(FirstArg(0, "a b", "get|a b"))
  {
    hide Lower, LastBar, ParseBar;
    var op, name := "+get|a b", "get|a b";
    assert op[1..] == name && op[0] == '+' && name[0] != '@';
    assert Lower(op)[1] == 'g' && Lower(op)[0] == '+';
    assert Keyword(Lower(op)).None?;
    assert name[3] == '|';
    BlankBar();
  }

  lemma BlankBar()
    ensures LastBar("get|a b") == 3 && ParseBar(GET_ONLY, "get|a b") == Parsed(FirstArg(0, "a b", "get|a b"))
  {
    hide LastBar, LookupCommand;
    var name := "get|a b";
    assert name[3] == '|';
    assert LastBar(name) == 3;
    assert name[..3] == "get" && name[4..] == "a b" && Lower(name) == name;
    BlankLookup();
  }

  lemma BlankLookup()
    ensures LookupCommand(GET_ONLY, "get") == Top(Command(0, "get", {}, map[]))
  {
    assert Lower("get") == "get";
    assert '|' !in "get";
  }

  /** What an unclean operand leads to next: a rule that shadows its first word leaves the rest in
      the string, and that word is no rule. */
  lemma LeftoverStays()
    ensures TextAfter(GET_ONLY, "", "+get|a b") == "+get|a b"
    ensures TextAfter(GET_ONLY, "+get|a b", "+get") == "b +get"
    ensures Parse(GET_ONLY, "b") == Failed(EINVAL)
  {
    hide Parse, Edited;
    BlankParses();
    assert RuleText(FirstArg(0, "a b", "get|a b")) == "+get|a b";
    EditedUnfolds("", 0, "get|a b");
    GetParses();
    LeftoverWord();
    NoRule();
  }

  lemma NoRule()
    ensures Parse(GET_ONLY, "b") == Failed(EINVAL)
  {
    assert Lower("b") == "b" && Keyword("b").None?;
  }

  lemma GetParses()
    ensures Parse(GET_ONLY, "+get").Parsed? && Parse(GET_ONLY, "+get").effect == Bits(true, PermIds(Top(Command(0, "get", {}, map[]))), {0}, "get")
    ensures RuleText(Parse(GET_ONLY, "+get").effect) == "+get"
  {
    hide LookupCommand;
    assert Lower("+get") == "+get" && Keyword("+get").None?;
    assert "+get"[1..] == "get" && "get"[0] != '@' && '|' !in "get";
    assert LastBar("get") == 3;
    BlankLookup();
    assert Lower("get") == "get";
  }

  lemma LeftoverWord()
    ensures Edited("+get|a b", 0, "get") == "b"
  {
    var s := "+get|a b";
    assert s[6] == ' ' && forall k :: 1 <= k < 6 ==> s[k] != ' ';
    assert FindChar(s, ' ', 1) == 6;
    assert s[1..6] == "get|a";
    assert "get" <= "get|a";
    assert Shadows("get", "get|a");
    assert s[..0] + s[7..] == "b";
    assert FindChar("b", ' ', 1) == 1 && "b"[1..1] == "";
    assert !Shadows("get", "");
    assert Edited("b", 1, "get") == "b";
    EditedUnfolds("b", 0, "get");
    EditedUnfolds(s, 0, "get");
  }

  const GET_SET := Table(map["get" := Command(0, "get", {}, map[]), "set" := Command(1, "set", {}, map[])], map[])

  /** An operand that holds a blank and another rule: the string reads back as two rules that are
      both accepted, and replaying them allows a command that the selector does not allow. */
  lemma ReplayAllowsMore()
    ensures var s := Step(GET_SET, Fresh, "+get|a +set");
            && s.allowed == {} && Join(s.rules) == "+get|a +set"
            && SplitArgs(Join(s.rules), 0) == Some(["+get|a", "+set"])
            && var r := Replay(GET_SET, Step(GET_SET, Fresh, StartOp(s)), ["+get|a", "+set"]);
            r.Some? && r.value.allowed == {1}
  {
    hide Parse, Replay, Exec, SplitArgs, Join;
    var s := Step(GET_SET, Fresh, "+get|a +set");
    OperandWithRule();
    SetParses();
    TwoRules();
    StartState(GET_SET, s, Fresh);
    var b := Step(GET_SET, Fresh, StartOp(s));
    ReplayTwo(b, "+get|a", "+set");
  }

  lemma OperandWithRule()
    ensures var s := Step(GET_SET, Fresh, "+get|a +set"); s.allowed == {} && s.rules == ["+get|a +set"]
    ensures Parse(GET_SET, "+get|a") == Parsed(FirstArg(0, "a", "get|a"))
  {
    hide Parse, Lower;
    FirstArgParses("get|a +set", "a +set");
    FirstArgParses("get|a", "a");
    assert "+" + "get|a +set" == "+get|a +set" && "+" + "get|a" == "+get|a";
    LowerOperands();
    var e := FirstArg(0, "a +set", "get|a +set");
    assert WithRule([], e) == [RuleText(e)];
  }

  lemma LowerOperands()
    ensures Lower("get|a +set") == "get|a +set" && Lower("get|a") == "get|a"
  {
  }

  lemma FirstArgParses(name: string, arg: string)
    requires name == "get|" + arg && arg != "" && '|' !in arg
    ensures Parse(GET_SET, "+" + name) == Parsed(FirstArg(0, arg, Lower(name)))
  {
    hide Lower, LastBar;
    var op := "+" + name;
    assert op[1..] == name && op[0] == '+' && name[0] == 'g';
    assert Lower(op)[1] == 'g' && Lower(op)[0] == '+';
    assert Keyword(Lower(op)).None?;
    assert name[3] == '|' && forall k :: 3 < k < |name| ==> name[k] == arg[k - 4];
    assert LastBar(name) == 3;
    assert name[..3] == "get" && name[4..] == arg;
    assert '|' !in "get" && Lower("get") == "get" by {
      GetIsLower();
    }
    assert LookupCommand(GET_SET, "get") == Top(Command(0, "get", {}, map[]));
  }

  lemma GetIsLower()
    ensures Lower("get") == "get" && Lower("set") == "set" && Lower("+set") == "+set"
  {
  }

  lemma SetParses()
    ensures Parse(GET_SET, "+set") == Parsed(Bits(true, {1}, {1}, "set"))
  {
    GetIsLower();
    assert Keyword("+set").None?;
    assert "+set"[1..] == "set" && '|' !in "set";
    assert LastBar("set") == 3;
    assert LookupCommand(GET_SET, "set") == Top(Command(1, "set", {}, map[]));
    assert PermIds(Top(Command(1, "set", {}, map[]))) == {1};
  }

  lemma TwoRules()
    ensures Join(["+get|a +set"]) == "+get|a +set"
    ensures SplitArgs("+get|a +set", 0) == Some(["+get|a", "+set"])
  {
    hide SplitArgs;
    var ts := ["+get|a", "+set"];
    assert ts[1..] == ["+set"];
    assert Join(ts) == "+get|a" + " " + "+set" == "+get|a +set";
    assert "" + Join(ts) == Join(ts);
    SplitJoin(ts, "");
  }

  lemma ReplayTwo(b: State, x: string, y: string)
    requires b.allowed == {} && Parse(GET_SET, x).Parsed? && Parse(GET_SET, x).effect.FirstArg?
    requires Parse(GET_SET, y) == Parsed(Bits(true, {1}, {1}, "set"))
    ensures var r := Replay(GET_SET, b, [x, y]); r.Some? && r.value.allowed == {1}
  {
    hide Parse;
    assert [x, y][1..] == [y] && [y][1..] == [];
    var c := Step(GET_SET, b, x);
    assert c.allowed == {};
    assert InRange({1}) == {1};
    assert Replay(GET_SET, Step(GET_SET, c, y), []) == Some(Step(GET_SET, c, y));
    assert Replay(GET_SET, c, [y]) == Some(Step(GET_SET, c, y));
  }

  lemma FirstArgForm(t: Table, op: string)
    requires Parse(t, op).Parsed? && Parse(t, op).effect.FirstArg?
    ensures op != "" && LastBar(op[1..]) < |op[1..]|
    ensures var e := Parse(t, op).effect; e.body == Lower(op[1..]) && e.arg == op[1..][LastBar(op[1..]) + 1..]
  {
    hide Parse, LookupCommand, PermIds, PermId, CategoryIds, CategoryClears, Lower, LastBar;
    ParseUnfolds(t, op);
  }

  lemma UncleanTail(name: string, i: nat)
    requires i <= |name| && !Clean(name[i..])
    ensures !Clean("+" + Lower(name)) && name != ""
  {
    var tail := name[i..];
    var k :| 0 <= k < |tail| && (IsBreak(tail[k]) || IsQuote(tail[k]));
    assert ("+" + Lower(name))[1 + i + k] == LowerChar(tail[k]);
  }

  lemma UncleanRule(t: Table, op: string)
    requires !CleanOperand(t, op)
    ensures var e := Parse(t, op).effect;
            !e.Reset? && 1 < |RuleText(e)| && RuleText(e)[0] == '+' && !Clean(RuleText(e))
  {
    hide Parse, Clean, Lower, LastBar;
    FirstArgForm(t, op);
    UncleanTail(op[1..], LastBar(op[1..]) + 1);
  }
}

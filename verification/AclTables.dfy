/**
 A command table that changes: a module brings commands and categories, or takes them away, and
 the bits of every selector are recomputed from its rule string. `LoadedCommands` says what
 loading does to a selector: nothing to the commands it knew, and the new ones follow the
 starting operation unless a category rule names them. `UnloadedCommands` says when recomputing
 succeeds after unloading.
 */
module AclTables {
  import opened Common
  import opened AclText
  import opened Acl
  import opened AclReplay

  /** Commands and categories are only added. */
  predicate Extends(t: Table, u: Table) {
    && (forall k :: k in t.commands ==> k in u.commands && u.commands[k] == t.commands[k])
    && (forall c :: c in t.categories ==> c in u.categories && u.categories[c] == t.categories[c])
  }

  function NewIds(t: Table, u: Table): set<nat> {
    TableIds(Table(u.commands - t.commands.Keys, map[]))
  }

  /** The same effect, but for the bits of new commands. */
  predicate SameButNew(e: Effect, f: Effect, news: set<nat>) {
    match e
    case Bits(allow, ids, clears, body) =>
      && f.Bits? && f.allow == allow && f.body == body
      && ids <= f.ids <= ids + news && clears <= f.clears <= clears + news
    case _ => f == e
  }

  lemma LookupExtends(t: Table, u: Table, name: string)
    requires Extends(t, u) && !LookupCommand(t, name).Missing?
    ensures LookupCommand(u, name) == LookupCommand(t, name)
  {
  }

  lemma CategoryExtends(t: Table, u: Table, flag: nat)
    requires Extends(t, u)
    ensures CategoryIds(t, flag) <= CategoryIds(u, flag) <= CategoryIds(t, flag) + NewIds(t, u)
    ensures CategoryClears(t, flag) <= CategoryClears(u, flag) <= CategoryClears(t, flag) + NewIds(t, u)
  {
    forall i | i in CategoryIds(u, flag) && i !in CategoryIds(t, flag) ensures i in NewIds(t, u) {
      if k :| k in u.commands && flag in u.commands[k].categories && i == u.commands[k].id {
        NewCommand(t, u, k);
      } else {
        var k, j :| k in u.commands && j in u.commands[k].subs &&
                    (flag in u.commands[k].categories || flag in u.commands[k].subs[j].categories) &&
                    i == u.commands[k].subs[j].id;
        NewCommand(t, u, k);
      }
    }
    forall i | i in CategoryClears(u, flag) && i !in CategoryClears(t, flag) ensures i in NewIds(t, u) {
      if k :| k in u.commands && flag in u.commands[k].categories && i == u.commands[k].id {
        NewCommand(t, u, k);
      } else {
        var k, j :| k in u.commands && j in u.commands[k].subs && flag in u.commands[k].subs[j].categories &&
                    i == u.commands[k].subs[j].id;
        NewCommand(t, u, k);
      }
    }
  }

  lemma NewCommand(t: Table, u: Table, k: string)
    requires k in u.commands
    ensures k !in t.commands ==>
              u.commands[k].id in NewIds(t, u) && forall j :: j in u.commands[k].subs ==> u.commands[k].subs[j].id in NewIds(t, u)
  {
    var n := u.commands - t.commands.Keys;
    if k !in t.commands {
      assert k in n && n[k] == u.commands[k];
      forall j | j in u.commands[k].subs ensures u.commands[k].subs[j].id in NewIds(t, u) {
        assert n[k].subs[j].id in SubIds(Table(n, map[]));
      }
    }
  }

  lemma ParseExtends(t: Table, u: Table, op: string)
    requires Extends(t, u) && Parse(t, op).Parsed?
    ensures Parse(u, op).Parsed? && SameButNew(Parse(t, op).effect, Parse(u, op).effect, NewIds(t, u))
  {
    hide CategoryIds, CategoryClears, NewIds, LookupCommand, LastBar, Lower;
    if !Parse(t, op).effect.Reset? {
      ParseUnfolds(t, op);
      var plus, name := op[0] == '+', op[1..];
      if name != "" && name[0] == '@' {
        CategoryExtends(t, u, t.categories[Lower(name[1..])]);
      } else if !plus || LastBar(name) == |name| {
        LookupExtends(t, u, name);
      } else {
        LookupExtends(t, u, name[..LastBar(name)]);
        if !LookupCommand(t, name).Missing? {
          LookupExtends(t, u, name);
        }
      }
    }
  }

  lemma StoredExtends(t: Table, u: Table, r: string)
    requires Extends(t, u) && IsStored(t, r)
    ensures IsStored(u, r) && SameButNew(EffectOf(t, r), EffectOf(u, r), NewIds(t, u))
  {
    hide Parse, IsRule;
    ParseExtends(t, u, r);
  }

  /** First-argument rules only name commands of the table. */
  lemma ArgIdKnown(t: Table, r: string)
    requires WellFormed(t) && IsStored(t, r) && EffectOf(t, r).FirstArg?
    ensures EffectOf(t, r).id in TableIds(t)
  {
    hide Parse, WellFormed, CategoryIds, CategoryClears;
    if r[1] == '@' {
      CategoryShape(t, r);
    } else {
      StoredShape(t, r);
    }
  }

  /** Equal permissions on all commands but the new ones. */
  ghost predicate AgreeOnOld(p: Perm, q: Perm, news: set<nat>) {
    && (forall i :: i !in news ==> (i in p.bits <==> i in q.bits))
    && p.args == q.args
    && (forall x :: x in p.args ==> x.0 !in news)
  }

  lemma ApplyOnOld(e: Effect, f: Effect, p: Perm, q: Perm, news: set<nat>)
    requires SameButNew(e, f, news) && AgreeOnOld(p, q, news) && !e.Reset?
    requires e.FirstArg? ==> e.id !in news
    ensures AgreeOnOld(Apply(e, p), Apply(f, q), news)
  {
  }

  lemma {:induction false} RunOnOld(t: Table, u: Table, p: Perm, q: Perm, rs: seq<string>)
    requires WellFormed(t) && Extends(t, u) && NewIds(t, u) !! TableIds(t)
    requires forall r :: r in rs ==> IsStored(t, r)
    requires AgreeOnOld(p, q, NewIds(t, u))
    ensures forall r :: r in rs ==> IsStored(u, r)
    ensures AgreeOnOld(RunRules(t, p, rs), RunRules(u, q, rs), NewIds(t, u))
    decreases |rs|
  {
    hide WellFormed, Extends, IsStored, EffectOf, NewIds, TableIds, SameButNew, AgreeOnOld, Apply;
    if rs != [] {
      var r := rs[0];
      StoredExtends(t, u, r);
      StoredSparesFuture(t, r);
      if EffectOf(t, r).FirstArg? {
        ArgIdKnown(t, r);
      }
      ApplyOnOld(EffectOf(t, r), EffectOf(u, r), p, q, NewIds(t, u));
      RunOnOld(t, u, Apply(EffectOf(t, r), p), Apply(EffectOf(u, r), q), rs[1..]);
      assert rs == [r] + rs[1..];
    }
  }

  lemma {:induction false} RunUntouched(u: Table, p: Perm, rs: seq<string>, i: nat)
    requires forall r :: r in rs ==> IsStored(u, r) && i !in OwnedBits(EffectOf(u, r))
    ensures i in RunRules(u, p, rs).bits <==> i in p.bits
    decreases |rs|
  {
    hide IsStored, EffectOf;
    if rs != [] {
      var e := EffectOf(u, rs[0]);
      assert rs[0] in rs;
      RunUntouched(u, Apply(e, p), rs[1..], i);
      StoredIsRule(u, rs[0]);
    }
  }

  lemma StoredIsRule(u: Table, r: string)
    requires IsStored(u, r)
    ensures !EffectOf(u, r).Reset?
  {
  }

  /** The rules of a selector that was right for the old table, after the table grew: each is
      still accepted; a selector rebuilt from them gives every old command, and every first
      argument, the permission it had; and a new command that no rule names is allowed exactly
      when future commands are. */
  lemma LoadedCommands(t: Table, u: Table, s: State)
    requires WellFormed(t) && Extends(t, u) && NewIds(t, u) !! TableIds(t)
    requires Faithful(t, s)
    ensures forall r :: r in s.rules ==> IsStored(u, r)
    ensures Canonical(s.rules)
    ensures var p := RunRules(u, Base(s), s.rules);
            && (forall i :: i !in NewIds(t, u) ==> (i in p.bits <==> i in s.allowed))
            && p.args == ArgSet(s.firstArgs)
            && (forall i :: i in InRange(NewIds(t, u)) && (forall r :: r in s.rules ==> i !in OwnedBits(EffectOf(u, r))) ==>
                  (i in p.bits <==> FUTURE_BIT in s.allowed))
  {
    hide WellFormed, Extends, IsStored, EffectOf, NewIds, TableIds, RunRules, OwnedBits;
    RunOnOld(t, u, Base(s), Base(s), s.rules);
    var p := RunRules(u, Base(s), s.rules);
    forall i | i in InRange(NewIds(t, u)) && (forall r :: r in s.rules ==> i !in OwnedBits(EffectOf(u, r)))
      ensures i in p.bits <==> FUTURE_BIT in s.allowed
    {
      RunUntouched(u, Base(s), s.rules, i);
    }
  }

  // ---------- unloading ----------

  /** The command part of a name, up to the first bar. */
  function BaseOf(name: string): string {
    Lower(name[..FindChar(name, '|', 0)])
  }

  /** The table has the command or the category that a rule names. */
  predicate Knows(u: Table, r: string)
    requires 1 < |r|
  {
    if r[1] == '@' then Lower(r[2..]) in u.categories else BaseOf(r[1..]) in u.commands
  }

  lemma LookupShrinks(t: Table, u: Table, name: string)
    requires Extends(u, t)
    ensures LookupCommand(u, name) == if BaseOf(name) in u.commands then LookupCommand(t, name) else Missing
  {
    var bar := FindChar(name, '|', 0);
    if bar == |name| {
      assert name[..bar] == name;
    }
  }

  lemma SameBase(name: string, bar: nat)
    requires bar < |name| && name[bar] == '|'
    ensures BaseOf(name[..bar]) == BaseOf(name)
  {
    var cut := name[..bar];
    var i, j := FindChar(name, '|', 0), FindChar(cut, '|', 0);
    assert i <= bar;
    if j < |cut| {
      assert name[j] == '|';
    }
    if i < bar {
      assert cut[i] == '|';
    }
    assert i == j && cut[..j] == name[..i];
  }

  lemma SignedShrinks(t: Table, u: Table, plus: bool, name: string)
    requires Extends(u, t) && name != "" && ParseSigned(t, plus, name).Parsed?
    ensures var known := if name[0] == '@' then Lower(name[1..]) in u.categories else BaseOf(name) in u.commands;
            var o := ParseSigned(u, plus, name);
            if known then o.Parsed? && SameButNew(o.effect, ParseSigned(t, plus, name).effect, NewIds(u, t)) else o.Failed?
  {
    hide CategoryIds, CategoryClears, NewIds, LookupCommand, BaseOf, Lower, LastBar;
    if name[0] == '@' {
      if Lower(name[1..]) in u.categories {
        CategoryExtends(u, t, u.categories[Lower(name[1..])]);
      }
    } else {
      LookupShrinks(t, u, name);
      if plus && LastBar(name) < |name| {
        var bar := LastBar(name);
        LookupShrinks(t, u, name[..bar]);
        SameBase(name, bar);
      }
    }
  }

  /** Without some of its commands and categories a table still knows a stored rule, or refuses
      it. */
  lemma ShrunkRule(t: Table, u: Table, r: string)
    requires Extends(u, t) && IsStored(t, r)
    ensures IsStored(u, r) <==> Knows(u, r)
    ensures IsStored(u, r) || Parse(u, r).Failed?
  {
    hide CategoryIds, CategoryClears, NewIds, LookupCommand, BaseOf, ParseSigned, Clean, Lower;
    ParseUnfolds(t, r);
    var plus, name := r[0] == '+', r[1..];
    assert name[0] == r[1] && name[1..] == r[2..];
    SignedShrinks(t, u, plus, name);
    assert Parse(u, r) == ParseSigned(u, plus, name) by {
      UnfoldsAlike(t, u, r);
    }
  }

  lemma UnfoldsAlike(t: Table, u: Table, r: string)
    requires Parse(t, r).Parsed? && !Parse(t, r).effect.Reset?
    ensures r != "" && Parse(u, r) == ParseSigned(u, r[0] == '+', r[1..])
  {
  }

  /** After unloading, recomputing a selector that was right for the old table succeeds if and only
      if the table still knows what its rules name. Then every remaining command and every first
      argument keeps its permission. */
  lemma UnloadedCommands(t: Table, u: Table, s: State)
    requires WellFormed(u) && Extends(u, t) && NewIds(u, t) !! TableIds(u) && Faithful(t, s)
    ensures Canonical(s.rules)
    ensures forall r :: r in s.rules ==> 1 < |r| && (IsStored(u, r) || Parse(u, r).Failed?)
    ensures forall r :: r in s.rules ==> (IsStored(u, r) <==> Knows(u, r))
    ensures (forall r :: r in s.rules ==> Knows(u, r)) ==>
              var p := RunRules(u, Base(s), s.rules);
              && (forall i :: i !in NewIds(u, t) ==> (i in p.bits <==> i in s.allowed))
              && p.args == ArgSet(s.firstArgs)
  {
    hide WellFormed, Extends, Parse, EffectOf, NewIds, TableIds, RunRules, Knows;
    forall r | r in s.rules
      ensures 1 < |r| && (IsStored(u, r) || Parse(u, r).Failed?) && (IsStored(u, r) <==> Knows(u, r))
    {
      ShrunkRule(t, u, r);
    }
    if forall r :: r in s.rules ==> Knows(u, r) {
      RunOnOld(u, t, Base(s), Base(s), s.rules);
    }
  }

  const WITH_MODULE := Table(map["get" := Command(0, "get", {}, map[]), "m.x" := Command(1, "m.x", {}, map[])], map[])

  /** The failing case: a command of a module is allowed by name, the module is unloaded, and the
      rule that names the command is refused when the bits are recomputed. */
  lemma UnloadedNameIsRefused()
    ensures Extends(GET_ONLY, WITH_MODULE)
    ensures Step(WITH_MODULE, Fresh, "+m.x").rules == ["+m.x"]
    ensures Parse(GET_ONLY, "+m.x") == Failed(ENOENT)
  {
    ModuleName();
    var name := "m.x";
    assert "+m.x"[1..] == name && '|' !in name && name[0] != '@';
    assert LookupCommand(WITH_MODULE, name) == Top(Command(1, "m.x", {}, map[]));
    assert LookupCommand(GET_ONLY, name) == Missing;
    var e := Bits(true, PermIds(Top(Command(1, "m.x", {}, map[]))), {1}, "m.x");
    assert Parse(WITH_MODULE, "+m.x") == Parsed(e);
    assert RuleText(e) == "+m.x";
    assert WithRule([], e) == [RuleText(e)];
  }

  lemma ModuleName()
    ensures Lower("m.x") == "m.x" && Lower("+m.x") == "+m.x" && Keyword("+m.x").None?
    ensures LastBar("m.x") == 3
  {
    assert '|' !in "m.x";
  }
}

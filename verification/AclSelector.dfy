/**
 The selector as the server keeps it: fields updated in place, the rule string edited by
 moving its tail. Each method is proved against `Acl.Step`; `Describe` and `Recompute` are the
 two places where the server would stop if a replay went wrong.
 */
module AclSelector {
  import opened Common
  import opened AclText
  import opened Acl
  import opened AclReplay

  // ---------- writing bits, as a function ----------

  function WriteBits(allowed: set<nat>, ids: set<nat>, value: bool): set<nat> {
    if value then allowed + InRange(ids) else allowed - InRange(ids)
  }

  function WriteFlag(allCommands: bool, ids: set<nat>, value: bool): bool {
    allCommands && (value || InRange(ids) == {})
  }

  lemma WriteTwice(allowed: set<nat>, flag: bool, a: set<nat>, b: set<nat>, value: bool)
    ensures WriteBits(WriteBits(allowed, a, value), b, value) == WriteBits(allowed, a + b, value)
    ensures WriteFlag(WriteFlag(flag, a, value), b, value) == WriteFlag(flag, a + b, value)
  {
    assert InRange(a + b) == InRange(a) + InRange(b);
  }

  lemma ClearTwice(m: map<nat, seq<string>>, a: set<nat>, b: set<nat>)
    ensures (m - a) - b == m - (a + b)
  {
  }

  function SubIdSet(subs: map<string, Subcommand>): set<nat> {
    set j | j in subs :: subs[j].id
  }

  function CategorySubs(subs: map<string, Subcommand>, flag: nat): set<nat> {
    set j | j in subs && flag in subs[j].categories :: subs[j].id
  }

  /** Bits written, and first arguments cleared, for one top-level command of a category. */
  function CommandIds(c: Command, flag: nat): set<nat> {
    (if flag in c.categories then {c.id} + SubIdSet(c.subs) else {}) + CategorySubs(c.subs, flag)
  }

  function CommandClears(c: Command, flag: nat): set<nat> {
    (if flag in c.categories then {c.id} else {}) + CategorySubs(c.subs, flag)
  }

  ghost predicate IsUnion(cmds: map<string, Command>, ks: set<string>, flag: nat, ids: set<nat>, clears: set<nat>)
    requires ks <= cmds.Keys
  {
    && (forall i :: i in ids <==> exists k :: k in ks && i in CommandIds(cmds[k], flag))
    && (forall i :: i in clears <==> exists k :: k in ks && i in CommandClears(cmds[k], flag))
  }

  lemma UnionIsCategory(t: Table, flag: nat, ids: set<nat>, clears: set<nat>)
    requires IsUnion(t.commands, t.commands.Keys, flag, ids, clears)
    ensures ids == CategoryIds(t, flag) && clears == CategoryClears(t, flag)
  {
    forall i ensures i in ids <==> i in CategoryIds(t, flag) {
      if i in ids {
        var k :| k in t.commands && i in CommandIds(t.commands[k], flag);
      }
      if i in CategoryIds(t, flag) {
        if k :| k in t.commands && flag in t.commands[k].categories && i == t.commands[k].id {
          assert i in CommandIds(t.commands[k], flag);
        } else {
          var k, j :| k in t.commands && j in t.commands[k].subs &&
                      (flag in t.commands[k].categories || flag in t.commands[k].subs[j].categories) &&
                      i == t.commands[k].subs[j].id;
          assert i in CommandIds(t.commands[k], flag);
        }
      }
    }
    forall i ensures i in clears <==> i in CategoryClears(t, flag) {
      if i in clears {
        var k :| k in t.commands && i in CommandClears(t.commands[k], flag);
      }
      if i in CategoryClears(t, flag) {
        if k :| k in t.commands && flag in t.commands[k].categories && i == t.commands[k].id {
          assert i in CommandClears(t.commands[k], flag);
        } else {
          var k, j :| k in t.commands && j in t.commands[k].subs &&
                      flag in t.commands[k].subs[j].categories && i == t.commands[k].subs[j].id;
          assert i in CommandClears(t.commands[k], flag);
        }
      }
    }
  }

  lemma UnionStep(cmds: map<string, Command>, ks: set<string>, k: string, flag: nat, ids: set<nat>, clears: set<nat>)
    requires ks <= cmds.Keys && k in cmds && IsUnion(cmds, ks, flag, ids, clears)
    ensures IsUnion(cmds, ks + {k}, flag, ids + CommandIds(cmds[k], flag), clears + CommandClears(cmds[k], flag))
  {
  }

  datatype Result = C_OK | C_ERR(errno: Errno)

  function ResultOf(o: Outcome): Result {
    if o.Failed? then C_ERR(o.errno) else C_OK
  }

  class Selector {
    var allowed: set<nat>
    var allCommands: bool
    var firstArgs: map<nat, seq<string>>
    var commandRules: string
    ghost var rules: seq<string>

    ghost predicate Valid()
      reads this
    {
      commandRules == Join(rules) && forall r :: r in rules ==> IsRule(r)
    }

    ghost function View(): State
      reads this
    {
      State(allowed, allCommands, firstArgs, rules)
    }

    constructor ()
      ensures Valid() && View() == Fresh && commandRules == ""
    {
      allowed, allCommands, firstArgs := {}, false, map[];
      commandRules, rules := "", [];
    }

    method SetCommandBit(id: nat, value: bool)
      modifies this`allowed, this`allCommands
      ensures allowed == WriteBits(old(allowed), {id}, value)
      ensures allCommands == WriteFlag(old(allCommands), {id}, value)
    {
      assert InRange({id}) == if id < COMMAND_BITS then {id} else {};
      if id >= COMMAND_BITS {
        return;
      }
      if value {
        allowed := allowed + {id};
      } else {
        allowed := allowed - {id};
        allCommands := false;
      }
    }

    method ResetFirstArgsForCommand(id: nat)
      modifies this`firstArgs
      ensures firstArgs == old(firstArgs) - {id}
    {
      if id in firstArgs {
        firstArgs := firstArgs - {id};
      }
    }

    /** Allows or denies one command; for a container command also its subcommands. */
    method ChangePerm(id: nat, subs: map<string, Subcommand>, allow: bool)
      modifies this`allowed, this`allCommands, this`firstArgs
      ensures allowed == WriteBits(old(allowed), {id} + SubIdSet(subs), allow)
      ensures allCommands == WriteFlag(old(allCommands), {id} + SubIdSet(subs), allow)
      ensures firstArgs == old(firstArgs) - {id}
    {
      SetCommandBit(id, allow);
      ResetFirstArgsForCommand(id);
      var todo := subs.Keys;
      ghost var ids := {id};
      while todo != {}
        invariant todo <= subs.Keys
        invariant ids == {id} + (set j | j in subs && j !in todo :: subs[j].id)
        invariant allowed == WriteBits(old(allowed), ids, allow)
        invariant allCommands == WriteFlag(old(allCommands), ids, allow)
        invariant firstArgs == old(firstArgs) - {id}
        decreases todo
      {
        var j :| j in todo;
        SetCommandBit(subs[j].id, allow);
        WriteTwice(old(allowed), old(allCommands), ids, {subs[j].id}, allow);
        ids := ids + {subs[j].id};
        todo := todo - {j};
      }
      assert ids == {id} + SubIdSet(subs);
    }

    method SetSubBitsForCategory(subs: map<string, Subcommand>, flag: nat, value: bool)
      modifies this`allowed, this`allCommands, this`firstArgs
      ensures allowed == WriteBits(old(allowed), CategorySubs(subs, flag), value)
      ensures allCommands == WriteFlag(old(allCommands), CategorySubs(subs, flag), value)
      ensures firstArgs == old(firstArgs) - CategorySubs(subs, flag)
    {
      var todo := subs.Keys;
      ghost var ids := {};
      while todo != {}
        invariant todo <= subs.Keys
        invariant ids == set j | j in subs && j !in todo && flag in subs[j].categories :: subs[j].id
        invariant allowed == WriteBits(old(allowed), ids, value)
        invariant allCommands == WriteFlag(old(allCommands), ids, value)
        invariant firstArgs == old(firstArgs) - ids
        decreases todo
      {
        var j :| j in todo;
        if flag in subs[j].categories {
          ChangePerm(subs[j].id, map[], value);
          assert {subs[j].id} + SubIdSet(map[]) == {subs[j].id};
          WriteTwice(old(allowed), old(allCommands), ids, {subs[j].id}, value);
          ClearTwice(old(firstArgs), ids, {subs[j].id});
          ids := ids + {subs[j].id};
        }
        todo := todo - {j};
      }
      assert ids == CategorySubs(subs, flag);
    }

    /** Writes the bits of every command and subcommand of a category. */
    method SetBitsForCategory(t: Table, flag: nat, value: bool)
      modifies this`allowed, this`allCommands, this`firstArgs
      ensures allowed == WriteBits(old(allowed), CategoryIds(t, flag), value)
      ensures allCommands == WriteFlag(old(allCommands), CategoryIds(t, flag), value)
      ensures firstArgs == old(firstArgs) - CategoryClears(t, flag)
    {
      var cmds := t.commands;
      var todo := cmds.Keys;
      ghost var ids, clears := {}, {};
      while todo != {}
        invariant todo <= cmds.Keys
        invariant IsUnion(cmds, cmds.Keys - todo, flag, ids, clears)
        invariant allowed == WriteBits(old(allowed), ids, value)
        invariant allCommands == WriteFlag(old(allCommands), ids, value)
        invariant firstArgs == old(firstArgs) - clears
        decreases todo
      {
        var k :| k in todo;
        var c := cmds[k];
        CategoryCommand(c, flag, value);
        UnionStep(cmds, cmds.Keys - todo, k, flag, ids, clears);
        assert cmds.Keys - todo + {k} == cmds.Keys - (todo - {k});
        WriteTwice(old(allowed), old(allCommands), ids, CommandIds(c, flag), value);
        ClearTwice(old(firstArgs), clears, CommandClears(c, flag));
        ids, clears := ids + CommandIds(c, flag), clears + CommandClears(c, flag);
        todo := todo - {k};
      }
      assert cmds.Keys - todo == cmds.Keys;
      UnionIsCategory(t, flag, ids, clears);
    }

    method CategoryCommand(c: Command, flag: nat, value: bool)
      modifies this`allowed, this`allCommands, this`firstArgs
      ensures allowed == WriteBits(old(allowed), CommandIds(c, flag), value)
      ensures allCommands == WriteFlag(old(allCommands), CommandIds(c, flag), value)
      ensures firstArgs == old(firstArgs) - CommandClears(c, flag)
    {
      ghost var ids, clears := {}, {};
      if flag in c.categories {
        ChangePerm(c.id, c.subs, value);
        ids, clears := {c.id} + SubIdSet(c.subs), {c.id};
      }
      assert allowed == WriteBits(old(allowed), ids, value);
      assert allCommands == WriteFlag(old(allCommands), ids, value);
      SetSubBitsForCategory(c.subs, flag, value);
      WriteTwice(old(allowed), old(allCommands), ids, CategorySubs(c.subs, flag), value);
      ClearTwice(old(firstArgs), clears, CategorySubs(c.subs, flag));
    }

    /** Adds a first argument unless it is there already, whatever its case. */
    method AddAllowedFirstArg(id: nat, sub: string)
      modifies this`firstArgs
      ensures firstArgs == old(firstArgs)[id := AddArg(ArgsOf(old(firstArgs), id), sub)]
    {
      var args := ArgsOf(firstArgs, id);
      var items := 0;
      while items < |args|
        invariant items <= |args|
        invariant forall k :: 0 <= k < items ==> !SameText(args[k], sub)
      {
        if SameText(args[items], sub) {
          assert args[items] in args;
          assert firstArgs == firstArgs[id := args];
          return;
        }
        items := items + 1;
      }
      firstArgs := firstArgs[id := args + [sub]];
    }

    /** Rewrites the rule string for a new rule: shadowed rules out, the new one last. A list of
        clean rules stays one if and only if the new rule is clean. */
    method UpdateCommandRules(rule: string, allow: bool)
      requires rule != ""
      modifies this`commandRules, this`rules
      ensures commandRules == TextWith(old(commandRules), Bits(allow, {}, {}, Lower(rule)))
      ensures old(Valid()) ==>
                && rules == Unshadowed(old(rules), Lower(rule)) + [(if allow then "+" else "-") + Lower(rule)]
                && commandRules == Join(rules) && (Valid() <==> Clean(Lower(rule)))
    {
      hide Clean, IsRule, Join, Unshadowed, Lower, Edited;
      var newRule := Lower(rule);
      assert |newRule| == |rule|;
      ghost var text := (if allow then "+" else "-") + newRule;
      ghost var before := rules;
      SignedClean(newRule, allow);
      UnshadowedMembers(rules, newRule);
      commandRules := RemoveRules(commandRules, newRule);
      ghost var kept := Unshadowed(rules, newRule);
      JoinSnoc(kept, text);
      JoinEmptyIf(kept);
      if |commandRules| > 0 {
        commandRules := commandRules + " ";
      }
      commandRules := commandRules + (if allow then "+" else "-") + newRule;
      if old(Valid()) {
        rules := kept + [text];
        RulesSnoc(kept, text);
      }
    }

    /** The command part of ACLSetSelector, on any selector. `pattern` is what the code for key and
        channel patterns returns. Only a first argument with a separator or a quote in it leaves a
        rule string that is not a list of rules. */
    method SetSelector(t: Table, op: string, pattern: Result) returns (res: Result)
      requires WellFormed(t)
      modifies this
      ensures var s := Step(t, old(View()), op);
              allowed == s.allowed && allCommands == s.allCommands && firstArgs == s.firstArgs
      ensures commandRules == TextAfter(t, old(commandRules), op)
      ensures old(Valid()) ==>
                View() == Step(t, old(View()), op) && commandRules == Join(rules) && (Valid() <==> CleanOperand(t, op))
      ensures !Parse(t, op).NotACommandRule? ==> res == ResultOf(Parse(t, op))
      ensures Parse(t, op).NotACommandRule? ==> res == if Keyword(Lower(op)).Some? then C_OK else pattern
    {
      var low := Lower(op);
      if low == "allcommands" || low == "+@all" {
        allowed, allCommands, commandRules, firstArgs := AllBits(), true, "", map[];
        rules := [];
        return C_OK;
      } else if low == "nocommands" || low == "-@all" {
        allowed, allCommands, commandRules, firstArgs := {}, false, "", map[];
        rules := [];
        return C_OK;
      } else if low == "allkeys" || low == "~*" || low == "resetkeys" ||
                low == "allchannels" || low == "&*" || low == "resetchannels" {
        return C_OK;
      } else if op == "" {
        return C_ERR(EINVAL);
      } else if op[0] == '~' || op[0] == '%' || op[0] == '&' {
        return pattern;
      } else if op[0] != '+' && op[0] != '-' {
        return C_ERR(EINVAL);
      }
      assert Keyword(low).None?;
      assert Parse(t, op) == ParseSigned(t, op[0] == '+', op[1..]);
      SignedNeverResets(t, op[0] == '+', op[1..]);
      res := SetSigned(t, op[0] == '+', op[1..]);
    }

    method SetSigned(t: Table, plus: bool, name: string) returns (res: Result)
      requires WellFormed(t)
      modifies this
      ensures var o := ParseSigned(t, plus, name);
              var s := if o.Parsed? then Exec(old(View()), o.effect) else old(View());
              && allowed == s.allowed && allCommands == s.allCommands && firstArgs == s.firstArgs
              && (o.Parsed? ==> !o.effect.Reset?)
              && commandRules == (if o.Parsed? then TextWith(old(commandRules), o.effect) else old(commandRules))
              && (old(Valid()) ==>
                    && rules == s.rules && commandRules == Join(rules)
                    && (Valid() <==> (o.Parsed? && o.effect.FirstArg? ==> Clean(o.effect.arg))))
              && res == ResultOf(o) && !o.NotACommandRule?
    {
      hide WellFormed, LastBar, Clean, IsRule, Join, Unshadowed, Edited, AddArg, PermIds, Lower, LookupCommand, CategoryIds, CategoryClears,
        InRange, SubIdSet;
      CleanRule(t, plus, name);
      if name != "" && name[0] == '@' {
        if Lower(name[1..]) !in t.categories {
          return C_ERR(ENOENT);
        }
        UpdateCommandRules(name, plus);
        SetBitsForCategory(t, t.categories[Lower(name[1..])], plus);
      } else if !plus || LastBar(name) == |name| {
        var cmd := LookupCommand(t, name);
        if cmd.Missing? {
          return C_ERR(ENOENT);
        }
        ChangeEntry(cmd, plus);
        LookupName(t, name);
        FullNameText(cmd, name);
        UpdateCommandRules(FullName(cmd), plus);
      } else {
        var bar := LastBar(name);
        var cmd := LookupCommand(t, name[..bar]);
        if cmd.Missing? {
          return C_ERR(ENOENT);
        }
        if cmd.Child? {
          return C_ERR(ECHILD);
        }
        if bar == |name| - 1 {
          return C_ERR(EINVAL);
        }
        if cmd.cmd.subs != map[] {
          cmd := LookupCommand(t, name);
          if cmd.Missing? {
            return C_ERR(ENOENT);
          }
          ChangeEntry(cmd, true);
        } else {
          AddAllowedFirstArg(cmd.cmd.id, name[bar + 1..]);
        }
        UpdateCommandRules(name, true);
      }
      res := C_OK;
    }

    method ChangeEntry(e: Entry, allow: bool)
      requires !e.Missing?
      modifies this`allowed, this`allCommands, this`firstArgs
      ensures allowed == WriteBits(old(allowed), PermIds(e), allow)
      ensures allCommands == WriteFlag(old(allCommands), PermIds(e), allow)
      ensures firstArgs == old(firstArgs) - {PermId(e)}
    {
      if e.Top? {
        ChangePerm(e.cmd.id, e.cmd.subs, allow);
      } else {
        ChangePerm(e.sub.id, map[], allow);
        assert {e.sub.id} + SubIdSet(map[]) == {e.sub.id};
      }
    }

    /** The sanity check inside ACLDescribeSelectorCommandRules: replays the rules on a fake
        selector. The server panics unless `same` is true. */
    method MatchesReplay(t: Table) returns (same: bool)
      requires Valid() && WellFormed(t) && Faithful(t, View())
      ensures same
    {
      hide WellFormed, Faithful, Parse, CleanOperand, Join, SplitArgs, IsStored, IsRule, Canonical, Replay;
      StoredRules(t, View());
      var fake := new Selector();
      StartIsClean(t);
      ReplayRebuilds(t, View(), Fresh);
      if FUTURE_BIT in allowed {
        var _ := fake.SetSelector(t, "+@all", C_OK);
      } else {
        var _ := fake.SetSelector(t, "-@all", C_OK);
      }
      SplitJoin(rules, "");
      assert "" + commandRules == commandRules;
      var argv := SplitArgs(commandRules, 0);
      assert argv.Some?;
      var ok := fake.ApplyAll(t, argv.value);
      same := ok && fake.allowed == allowed;
    }

    /** The rules in the form ACL SETUSER takes, starting with +@all or -@all. */
    method Describe(t: Table) returns (text: string)
      requires Valid() && WellFormed(t) && Faithful(t, View())
      ensures text == StartOp(View()) + (if commandRules == "" then "" else " " + commandRules)
    {
      hide WellFormed, Faithful, Join, IsRule;
      if FUTURE_BIT in allowed {
        text := "+@all" + " ";
      } else {
        text := "-@all" + " ";
      }
      if |commandRules| > 0 {
        text := text + commandRules + " ";
      }
      text := text[..|text| - 1];
      var same := MatchesReplay(t);
      assert same;
    }

    /** Replays rules that the table knows, or refuses; stops at the first that is refused. */
    method ApplyAll(t: Table, argv: seq<string>) returns (ok: bool)
      requires Valid() && WellFormed(t)
      requires forall r :: r in argv ==> IsStored(t, r) || Parse(t, r).Failed?
      modifies this
      ensures ok <==> forall r :: r in argv ==> IsStored(t, r)
      ensures ok ==> Valid() && Replay(t, old(View()), argv) == Some(View())
      ensures ok && old(Faithful(t, View())) ==> Faithful(t, View())
    {
      hide WellFormed, Faithful, Parse, CleanOperand, Join, IsStored, IsRule, Step, TextAfter;
      var i := 0;
      while i < |argv|
        invariant 0 <= i <= |argv|
        invariant Valid()
        invariant forall r :: r in argv[..i] ==> IsStored(t, r)
        invariant old(Faithful(t, View())) ==> Faithful(t, View())
        invariant Replay(t, old(View()), argv) == Replay(t, View(), argv[i..])
      {
        assert argv[i] in argv;
        assert argv[i..][0] == argv[i] && argv[i..][1..] == argv[i + 1..];
        ghost var before := View();
        StoredOrRefused(t, argv[i]);
        var res := SetSelector(t, argv[i], C_OK);
        if res != C_OK {
          return false;
        }
        StoredIsClean(t, argv[i]);
        if Faithful(t, before) {
          StepKeepsFaithful(t, before, argv[i]);
        }
        assert argv[..i + 1] == argv[..i] + [argv[i]];
        i := i + 1;
      }
      assert argv[..i] == argv;
      ok := true;
    }

    /** Recomputes the command bits from the rule string, after commands came or went. The server
        stops unless `ok`: that is, unless the table knows every rule. Then the rules are what they
        were, and the selector is what replaying them on the new table gives. On an unchanged table
        nothing changes. */
    method Recompute(t: Table) returns (ok: bool)
      requires Valid() && WellFormed(t)
      requires (forall r :: r in rules ==> IsStored(t, r) || Parse(t, r).Failed?) && Canonical(rules)
      modifies this
      ensures ok <==> forall r :: r in old(rules) ==> IsStored(t, r)
      ensures ok ==> Valid() && Faithful(t, View())
      ensures ok ==> commandRules == old(commandRules) && rules == old(rules)
      ensures ok ==> PermOf(View()) == RunRules(t, Base(old(View())), rules)
      ensures old(Faithful(t, View())) ==> ok && allowed == old(allowed) && ArgSet(firstArgs) == ArgSet(old(firstArgs))
    {
      hide WellFormed, Parse, CleanOperand, Join, SplitArgs, IsStored, IsRule, Canonical, Replay, RunRules, Step, TextAfter;
      StartIsClean(t);
      StartState(t, View(), View());
      SplitJoin(rules, "");
      assert "" + commandRules == commandRules;
      var argv := SplitArgs(commandRules, 0);
      assert argv == Some(rules);
      var res;
      if FUTURE_BIT in allowed {
        res := SetSelector(t, "+@all", C_OK);
      } else {
        res := SetSelector(t, "-@all", C_OK);
      }
      assert res == C_OK;
      ghost var start := View();
      assert start == Step(t, old(View()), StartOp(old(View())));
      assert [] + argv.value == argv.value;
      if forall r :: r in argv.value ==> IsStored(t, r) {
        ReplayFollows(t, start, argv.value);
      }
      StartIsFaithful(t, start, Base(old(View())));
      ok := ApplyAll(t, argv.value);
    }
  }

  lemma StartIsFaithful(t: Table, s: State, base: Perm)
    requires s.rules == [] && PermOf(s) == base && (s.allCommands ==> FUTURE_BIT in s.allowed)
    requires base == Perm(AllBits(), {}) || base == Perm({}, {})
    ensures Faithful(t, s) && Base(s) == base
  {
  }

  lemma JoinEmpty(ts: seq<string>)
    requires forall r :: r in ts ==> IsRule(r)
    ensures Join(ts) == "" <==> ts == []
  {
    if ts != [] {
      assert ts[0] in ts;
    }
  }

  lemma RulesSnoc(rules: seq<string>, text: string)
    requires forall r :: r in rules ==> IsRule(r)
    ensures (forall r :: r in rules + [text] ==> IsRule(r)) <==> IsRule(text)
  {
    assert text in rules + [text];
  }

  lemma SignedClean(body: string, allow: bool)
    requires body != ""
    ensures IsRule((if allow then "+" else "-") + body) <==> Clean(body)
  {
    var r := (if allow then "+" else "-") + body;
    if Clean(r) {
      forall i | 0 <= i < |body| ensures !IsBreak(body[i]) && !IsQuote(body[i]) {
        assert r[i + 1] == body[i];
      }
    }
  }

  /** The text of a rule is clean exactly when the first argument in it is. */
  lemma CleanRule(t: Table, plus: bool, name: string)
    requires WellFormed(t)
    ensures var o := ParseSigned(t, plus, name);
            o.Parsed? ==> name != "" && (Clean(Lower(name)) <==> (o.effect.FirstArg? ==> Clean(o.effect.arg)))
  {
    hide WellFormed, LastBar, Clean, Lower, LookupCommand, CategoryIds, CategoryClears;
    var o := ParseSigned(t, plus, name);
    if o.Parsed? {
      if o.effect.FirstArg? && !Clean(o.effect.arg) {
        UncleanTail(name, LastBar(name) + 1);
        LowerUnclean(name);
      } else {
        SignedRule(t, plus, name);
      }
    }
  }

  lemma LowerUnclean(name: string)
    requires !Clean("+" + Lower(name)) && name != ""
    ensures !Clean(Lower(name))
  {
    SignedClean(Lower(name), true);
  }

  lemma StoredRules(t: Table, s: State)
    requires Faithful(t, s)
    ensures forall r :: r in s.rules ==> IsStored(t, r)
  {
  }

  lemma FullNameText(e: Entry, name: string)
    requires !e.Missing? && Lower(FullName(e)) == Lower(name) && name != ""
    ensures FullName(e) != ""
  {
    assert |Lower(FullName(e))| == |Lower(name)|;
  }

  lemma StartIsClean(t: Table)
    ensures Parse(t, "+@all") == Parsed(Reset(true)) && CleanOperand(t, "+@all")
    ensures Parse(t, "-@all") == Parsed(Reset(false)) && CleanOperand(t, "-@all")
  {
    assert Lower("+@all") == "+@all";
    assert Lower("-@all") == "-@all";
    assert Keyword("+@all") == Some(Parsed(Reset(true)));
    assert Keyword("-@all") == Some(Parsed(Reset(false)));
  }

  lemma StoredOrRefused(t: Table, r: string)
    requires IsStored(t, r) || Parse(t, r).Failed?
    ensures IsStored(t, r) <==> Parse(t, r).Parsed?
    ensures Parse(t, r).Failed? || Parse(t, r).Parsed?
  {
  }

  lemma SignedNeverResets(t: Table, plus: bool, name: string)
    ensures var o := ParseSigned(t, plus, name); o.Parsed? ==> !o.effect.Reset?
  {
  }

  lemma JoinEmptyIf(ts: seq<string>)
    ensures (forall r :: r in ts ==> IsRule(r)) ==> (Join(ts) == "" <==> ts == [])
  {
    if forall r :: r in ts ==> IsRule(r) {
      JoinEmpty(ts);
    }
  }

  lemma StoredIsClean(t: Table, r: string)
    requires WellFormed(t) && IsStored(t, r)
    ensures CleanOperand(t, r)
  {
    if EffectOf(t, r).FirstArg? {
      if r[1] == '@' {
        CategoryShape(t, r);
      } else {
        StoredShape(t, r);
        ArgIsClean(t, r[1..], EffectOf(t, r));
      }
    }
  }

  lemma ArgIsClean(t: Table, n: string, e: Effect)
    requires HasShape(t, n, e) && e.FirstArg? && Clean(n)
    ensures Clean(e.arg)
  {
  }
}

/**
 ACL command rules of a selector. A selector keeps a permission bitmap, per-command lists of
 allowed first arguments, and a compact rule string. Adding a rule deletes every older rule it
 shadows. The server panics when replaying the string does not rebuild the bitmap.

 `Step` is one successful or failed `ACLSetSelector` call on the command fields. The main
 results are `RunReplays` (every run, on every table) and the methods of `Selector`, which do
 the same work in place and, while the table stays as it is, never reach the panic.
 */
module Acl {
  import opened Common
  import opened AclText

  const COMMAND_BITS: nat := 1024
  /** The reserved bit: set by +@all alone, it stands for commands loaded later. */
  const FUTURE_BIT: nat := 1023

  // ---------- command table ----------

  datatype Subcommand = Subcommand(id: nat, fullname: string, categories: set<nat>)
  datatype Command = Command(id: nat, fullname: string, categories: set<nat>, subs: map<string, Subcommand>)

  /** Commands by lower-case name, and category flags by lower-case category name. */
  datatype Table = Table(commands: map<string, Command>, categories: map<string, nat>)

  /** Non-empty lower-case names that hold no '|', blank or quote. */
  predicate IsName(n: string) {
    n != "" && n == Lower(n) && Clean(n) && '|' !in n
  }

  predicate WellFormed(t: Table) {
    && (forall k :: k in t.commands ==>
          IsName(k) && Lower(t.commands[k].fullname) == k && t.commands[k].id != FUTURE_BIT)
    && (forall k, j :: k in t.commands && j in t.commands[k].subs ==>
          IsName(j) && Lower(t.commands[k].subs[j].fullname) == k + "|" + j && t.commands[k].subs[j].id != FUTURE_BIT)
    && (forall i :: i in PlainIds(t) ==> i !in SubIds(t))
    && (forall c :: c in t.categories ==> IsName(c))
  }

  /** Ids of top-level commands without subcommands: the only ones with first-argument rules. */
  function PlainIds(t: Table): set<nat> {
    set k | k in t.commands && t.commands[k].subs == map[] :: t.commands[k].id
  }

  function SubIds(t: Table): set<nat> {
    set k, j | k in t.commands && j in t.commands[k].subs :: t.commands[k].subs[j].id
  }

  datatype Entry = Top(cmd: Command) | Child(sub: Subcommand) | Missing

  /** Lookup by `name` or `name|subname`, ignoring case. */
  function LookupCommand(t: Table, name: string): Entry {
    var bar := FindChar(name, '|', 0);
    if name == "" then Missing
    else if bar == |name| then
      if Lower(name) in t.commands then Top(t.commands[Lower(name)]) else Missing
    else if FindChar(name, '|', bar + 1) < |name| then Missing
    else
      var base, sub := Lower(name[..bar]), Lower(name[bar + 1..]);
      if base in t.commands && sub in t.commands[base].subs then Child(t.commands[base].subs[sub]) else Missing
  }

  // ---------- what an operation means ----------

  datatype Errno = ENOENT | ECHILD | EINVAL | EEXIST | EISDIR

  datatype Effect =
    | Reset(on: bool)
    | Bits(allow: bool, ids: set<nat>, clears: set<nat>, body: string)
    | FirstArg(id: nat, arg: string, body: string)

  datatype Outcome =
    | Parsed(effect: Effect)
    | Failed(errno: Errno)
    | NotACommandRule  // key and channel patterns: they leave the command fields alone

  /** Bits written when the permission of one command or subcommand changes. */
  function PermIds(e: Entry): set<nat>
    requires !e.Missing?
  {
    if e.Top? then {e.cmd.id} + (set j | j in e.cmd.subs :: e.cmd.subs[j].id) else {e.sub.id}
  }

  function PermId(e: Entry): nat
    requires !e.Missing?
  {
    if e.Top? then e.cmd.id else e.sub.id
  }

  function FullName(e: Entry): string
    requires !e.Missing?
  {
    if e.Top? then e.cmd.fullname else e.sub.fullname
  }

  function CategoryIds(t: Table, flag: nat): set<nat> {
    (set k | k in t.commands && flag in t.commands[k].categories :: t.commands[k].id) +
    (set k, j | k in t.commands && j in t.commands[k].subs &&
                (flag in t.commands[k].categories || flag in t.commands[k].subs[j].categories)
       :: t.commands[k].subs[j].id)
  }

  function CategoryClears(t: Table, flag: nat): set<nat> {
    (set k | k in t.commands && flag in t.commands[k].categories :: t.commands[k].id) +
    (set k, j | k in t.commands && j in t.commands[k].subs && flag in t.commands[k].subs[j].categories
       :: t.commands[k].subs[j].id)
  }

  /** Position of the last '|', or |s|. */
  function LastBar(s: string): (r: nat)
    ensures r <= |s|
    ensures r < |s| ==> s[r] == '|' && forall k :: r < k < |s| ==> s[k] != '|'
    ensures r == |s| ==> '|' !in s
  {
    if s == "" then 0
    else if s[|s| - 1] == '|' then |s| - 1
    else
      var r := LastBar(s[..|s| - 1]);
      assert s == s[..|s| - 1] + [s[|s| - 1]];
      if r == |s| - 1 then |s| else r
  }

  /** Operations matched as a whole, ignoring case. */
  function Keyword(low: string): Option<Outcome> {
    if low == "allkeys" || low == "~*" || low == "resetkeys" ||
       low == "allchannels" || low == "&*" || low == "resetchannels" then Some(NotACommandRule)
    else if low == "allcommands" || low == "+@all" then Some(Parsed(Reset(true)))
    else if low == "nocommands" || low == "-@all" then Some(Parsed(Reset(false)))
    else None
  }

  /** `@category` after the sign. */
  function ParseCategory(t: Table, plus: bool, name: string): Outcome
    requires name != ""
  {
    if Lower(name[1..]) !in t.categories then Failed(ENOENT)
    else
      var flag := t.categories[Lower(name[1..])];
      Parsed(Bits(plus, CategoryIds(t, flag), CategoryClears(t, flag), Lower(name)))
  }

  /** A command or subcommand that is looked up whole. */
  function ParsePerm(t: Table, plus: bool, name: string): Outcome {
    var e := LookupCommand(t, name);
    if e.Missing? then Failed(ENOENT) else Parsed(Bits(plus, PermIds(e), {PermId(e)}, Lower(FullName(e))))
  }

  /** `+command|x`, cut at the last bar: a subcommand, or a first argument. */
  function ParseBar(t: Table, name: string): Outcome
    requires LastBar(name) < |name|
  {
    var bar := LastBar(name);
    var e := LookupCommand(t, name[..bar]);
    if e.Missing? then Failed(ENOENT)
    else if e.Child? then Failed(ECHILD)
    else if bar == |name| - 1 then Failed(EINVAL)
    else if e.cmd.subs != map[] then
      var f := LookupCommand(t, name);
      if f.Missing? then Failed(ENOENT) else Parsed(Bits(true, PermIds(f), {PermId(f)}, Lower(name)))
    else Parsed(FirstArg(e.cmd.id, name[bar + 1..], Lower(name)))
  }

  function ParseSigned(t: Table, plus: bool, name: string): Outcome {
    if name != "" && name[0] == '@' then ParseCategory(t, plus, name)
    else if !plus || LastBar(name) == |name| then ParsePerm(t, plus, name)
    else ParseBar(t, name)
  }

  function Parse(t: Table, op: string): Outcome {
    var k := Keyword(Lower(op));
    if k.Some? then k.value
    else if op == "" then Failed(EINVAL)
    else if op[0] == '~' || op[0] == '%' || op[0] == '&' then NotACommandRule
    else if op[0] != '+' && op[0] != '-' then Failed(EINVAL)
    else ParseSigned(t, op[0] == '+', op[1..])
  }

  function RuleText(e: Effect): string
    requires !e.Reset?
  {
    (if e.FirstArg? || e.allow then "+" else "-") + e.body
  }

  // ---------- selector state ----------

  /** The command fields of a selector; `rules` is the rule string cut at its separators. */
  datatype State = State(
    allowed: set<nat>,
    allCommands: bool,
    firstArgs: map<nat, seq<string>>,
    rules: seq<string>)

  const Fresh := State({}, false, map[], [])

  function BitsBelow(n: nat): (r: set<nat>)
    ensures forall i :: i in r <==> 0 <= i < n
  {
    if n == 0 then {} else BitsBelow(n - 1) + {n - 1}
  }

  function AllBits(): set<nat> {
    BitsBelow(COMMAND_BITS)
  }

  function InRange(ids: set<nat>): set<nat> {
    set i | i in ids && i < COMMAND_BITS
  }

  function WithRule(rules: seq<string>, e: Effect): seq<string>
    requires !e.Reset?
  {
    Unshadowed(rules, e.body) + [RuleText(e)]
  }

  function ArgsOf(m: map<nat, seq<string>>, id: nat): seq<string> {
    if id in m then m[id] else []
  }

  function AddArg(args: seq<string>, arg: string): seq<string> {
    if exists a :: a in args && SameText(a, arg) then args else args + [arg]
  }

  function Exec(s: State, e: Effect): State {
    match e
    case Reset(on) => State(if on then AllBits() else {}, on, map[], [])
    case Bits(allow, ids, clears, _) =>
      State(if allow then s.allowed + InRange(ids) else s.allowed - InRange(ids),
            s.allCommands && (allow || InRange(ids) == {}),
            s.firstArgs - clears,
            WithRule(s.rules, e))
    case FirstArg(id, arg, _) =>
      s.(firstArgs := s.firstArgs[id := AddArg(ArgsOf(s.firstArgs, id), arg)], rules := WithRule(s.rules, e))
  }

  /** The rule string with a new rule: what it shadows is cut out, and it comes last. */
  function TextWith(text: string, e: Effect): string
    requires !e.Reset?
  {
    var kept := Edited(text, 0, e.body);
    (if kept == "" then "" else kept + " ") + RuleText(e)
  }

  function TextAfter(t: Table, text: string, op: string): string {
    var o := Parse(t, op);
    if !o.Parsed? then text else if o.effect.Reset? then "" else TextWith(text, o.effect)
  }

  function Step(t: Table, s: State, op: string): State {
    var o := Parse(t, op);
    if o.Parsed? then Exec(s, o.effect) else s
  }

  /** First-argument operands that the tokenizer leaves whole. */
  predicate CleanOperand(t: Table, op: string) {
    var o := Parse(t, op);
    o.Parsed? && o.effect.FirstArg? ==> Clean(o.effect.arg)
  }

  function Run(t: Table, s: State, ops: seq<string>): State
    decreases |ops|
  {
    if ops == [] then s else Run(t, Step(t, s, ops[0]), ops[1..])
  }

  // ---------- permissions, up to the case of first arguments ----------

  datatype Perm = Perm(bits: set<nat>, args: set<(nat, string)>)

  function ArgSet(m: map<nat, seq<string>>): set<(nat, string)> {
    set id, a | id in m && a in m[id] :: (id, Lower(a))
  }

  function PermOf(s: State): Perm {
    Perm(s.allowed, ArgSet(s.firstArgs))
  }

  function Apply(e: Effect, p: Perm): Perm {
    match e
    case Reset(on) => Perm(if on then AllBits() else {}, {})
    case Bits(allow, ids, clears, _) =>
      Perm(if allow then p.bits + InRange(ids) else p.bits - InRange(ids), set x | x in p.args && x.0 !in clears)
    case FirstArg(id, arg, _) => Perm(p.bits, p.args + {(id, Lower(arg))})
  }

  lemma InArgSet(m: map<nat, seq<string>>, id: nat, low: string)
    ensures (id, low) in ArgSet(m) <==> exists a :: a in ArgsOf(m, id) && Lower(a) == low
  {
    if a :| a in ArgsOf(m, id) && Lower(a) == low {
      assert id in m && a in m[id];
    }
  }

  lemma AddArgTexts(args: seq<string>, arg: string, low: string)
    ensures (exists a :: a in AddArg(args, arg) && Lower(a) == low) <==>
            (exists a :: a in args && Lower(a) == low) || low == Lower(arg)
  {
    if !(exists a :: a in args && SameText(a, arg)) {
      assert arg in args + [arg];
      assert forall a :: a in args + [arg] <==> a in args || a == arg;
    }
  }

  lemma ExecApplies(s: State, e: Effect)
    ensures PermOf(Exec(s, e)) == Apply(e, PermOf(s))
  {
    var prior, now := s.firstArgs, Exec(s, e).firstArgs;
    forall id: nat, low: string
      ensures (id, low) in ArgSet(now) <==> (id, low) in Apply(e, PermOf(s)).args
    {
      InArgSet(prior, id, low);
      InArgSet(now, id, low);
      if e.FirstArg? {
        AddArgTexts(ArgsOf(prior, e.id), e.arg, low);
      }
    }
    assert ArgSet(now) == Apply(e, PermOf(s)).args;
  }

  // ---------- a rule reads back as itself ----------

  lemma {:induction false} FindBarLower(s: string, i: nat)
    requires i <= |s|
    ensures FindChar(Lower(s), '|', i) == FindChar(s, '|', i)
    decreases |s| - i
  {
    if i < |s| && s[i] != '|' {
      FindBarLower(s, i + 1);
    }
  }

  lemma {:induction false} LastBarLower(s: string)
    ensures LastBar(Lower(s)) == LastBar(s)
  {
    if s != "" {
      LastBarLower(s[..|s| - 1]);
      LowerSlice(s, 0, |s| - 1);
      assert Lower(s)[..|s| - 1] == Lower(s)[0..|s| - 1];
      assert s[..|s| - 1] == s[0..|s| - 1];
    }
  }

  lemma LookupLower(t: Table, name: string)
    ensures LookupCommand(t, Lower(name)) == LookupCommand(t, name)
  {
    var bar := FindChar(name, '|', 0);
    FindBarLower(name, 0);
    LowerIdempotent(name);
    if bar < |name| {
      FindBarLower(name, bar + 1);
      assert Lower(name)[..bar] == Lower(name[..bar]);
      assert Lower(name)[bar + 1..] == Lower(name[bar + 1..]);
      LowerIdempotent(name[..bar]);
      LowerIdempotent(name[bar + 1..]);
    }
  }

  /** A lookup that succeeds finds the entry whose full name was asked for. */
  lemma LookupName(t: Table, name: string)
    requires WellFormed(t) && !LookupCommand(t, name).Missing?
    ensures Lower(FullName(LookupCommand(t, name))) == Lower(name)
    ensures Clean(Lower(name))
  {
    var bar := FindChar(name, '|', 0);
    if bar < |name| {
      var base, sub := Lower(name[..bar]), Lower(name[bar + 1..]);
      assert IsName(base) && IsName(sub);
      assert name == name[..bar] + "|" + name[bar + 1..];
      LowerConcat(name[..bar], "|");
      LowerConcat(name[..bar] + "|", name[bar + 1..]);
      assert Lower("|") == "|";
      assert Lower(name) == base + "|" + sub;
    } else {
      assert IsName(Lower(name));
    }
  }

  function LowerArg(e: Effect): Effect {
    if e.FirstArg? then e.(arg := Lower(e.arg)) else e
  }

  function LowerOutcome(o: Outcome): Outcome {
    if o.Parsed? then Parsed(LowerArg(o.effect)) else o
  }

  lemma ParseBarLower(t: Table, name: string)
    requires LastBar(name) < |name|
    ensures LastBar(Lower(name)) == LastBar(name)
    ensures ParseBar(t, Lower(name)) == LowerOutcome(ParseBar(t, name))
  {
    hide LookupCommand, LastBar, PermIds, PermId, Lower;
    var bar := LastBar(name);
    LastBarLower(name);
    LowerIdempotent(name);
    LookupLower(t, name);
    LookupLower(t, name[..bar]);
    LowerSlice(name, 0, bar);
    LowerSlice(name, bar + 1, |name|);
    SlicesAre(name, bar);
    SlicesAre(Lower(name), bar);
  }

  lemma SlicesAre(s: string, i: nat)
    requires i < |s|
    ensures s[0..i] == s[..i] && s[i + 1..|s|] == s[i + 1..]
  {
  }

  lemma ParseSignedLower(t: Table, plus: bool, name: string)
    ensures ParseSigned(t, plus, Lower(name)) == LowerOutcome(ParseSigned(t, plus, name))
  {
    LastBarLower(name);
    LookupLower(t, name);
    LowerIdempotent(name);
    if name != "" && name[0] == '@' {
      assert Lower(name)[1..] == Lower(name[1..]);
      LowerIdempotent(name[1..]);
    } else if plus && LastBar(name) < |name| {
      ParseBarLower(t, name);
    }
  }

  lemma ParseLower(t: Table, op: string)
    requires Parse(t, op).Parsed?
    ensures Parse(t, Lower(op)) == Parsed(LowerArg(Parse(t, op).effect))
  {
    LowerIdempotent(op);
    if op != "" {
      assert Lower(op)[1..] == Lower(op[1..]);
      ParseSignedLower(t, op[0] == '+', op[1..]);
    }
  }

  lemma BarRule(t: Table, name: string)
    requires WellFormed(t) && LastBar(name) < |name| && ParseBar(t, name).Parsed?
    requires var e := ParseBar(t, name).effect; e.FirstArg? ==> Clean(e.arg)
    ensures var e := ParseBar(t, name).effect; !e.Reset? && RuleText(e) == "+" + Lower(name)
    ensures Clean(Lower(name))
  {
    var bar := LastBar(name);
    var e := LookupCommand(t, name[..bar]);
    if e.cmd.subs != map[] {
      LookupName(t, name);
    } else {
      LookupName(t, name[..bar]);
      LowerClean(name[bar + 1..]);
      CleanParts(name, bar);
    }
  }

  lemma CleanParts(name: string, bar: nat)
    requires bar < |name| && name[bar] == '|'
    requires Clean(Lower(name[..bar])) && Clean(Lower(name[bar + 1..]))
    ensures Clean(Lower(name))
  {
    var low := Lower(name);
    forall i | 0 <= i < |low| ensures !IsBreak(low[i]) && !IsQuote(low[i]) {
      if i < bar {
        assert low[i] == Lower(name[..bar])[i];
      } else if i > bar {
        assert low[i] == Lower(name[bar + 1..])[i - bar - 1];
      }
    }
  }

  lemma CategoryRule(t: Table, plus: bool, name: string)
    requires WellFormed(t) && name != "" && name[0] == '@' && ParseCategory(t, plus, name).Parsed?
    ensures Clean(Lower(name))
  {
    var low := Lower(name);
    assert IsName(Lower(name[1..]));
    forall i | 0 <= i < |low| ensures !IsBreak(low[i]) && !IsQuote(low[i]) {
      if i > 0 {
        assert low[i] == Lower(name[1..])[i - 1];
      }
    }
  }

  lemma SignedRule(t: Table, plus: bool, name: string)
    requires WellFormed(t) && ParseSigned(t, plus, name).Parsed?
    requires var e := ParseSigned(t, plus, name).effect; e.FirstArg? ==> Clean(e.arg)
    ensures var e := ParseSigned(t, plus, name).effect;
            !e.Reset? && RuleText(e) == (if plus then "+" else "-") + Lower(name)
    ensures name != "" && Clean(Lower(name))
  {
    hide WellFormed, LastBar, Clean, Lower;
    if name != "" && name[0] == '@' {
      CategoryRule(t, plus, name);
    } else if !plus || LastBar(name) == |name| {
      LookupName(t, name);
    } else {
      BarRule(t, name);
    }
  }

  lemma ParseUnfolds(t: Table, op: string)
    requires Parse(t, op).Parsed? && !Parse(t, op).effect.Reset?
    ensures op != "" && (op[0] == '+' || op[0] == '-')
    ensures Parse(t, op) == ParseSigned(t, op[0] == '+', op[1..])
  {
  }

  lemma LowerSigned(op: string)
    requires op != "" && (op[0] == '+' || op[0] == '-')
    ensures Lower(op) == (if op[0] == '+' then "+" else "-") + Lower(op[1..])
    ensures op[1..] != "" && Clean(Lower(op[1..])) ==> IsRule(Lower(op))
  {
    var low := Lower(op);
    assert low[1..] == Lower(op[1..]);
    assert low == [low[0]] + low[1..];
    if Clean(low[1..]) {
      assert forall i :: 0 < i < |low| ==> low[i] == low[1..][i - 1];
    }
  }

  /** The stored rule is the lower-cased operation, and it survives tokenizing. */
  lemma ParsedRule(t: Table, op: string)
    requires WellFormed(t) && Parse(t, op).Parsed? && !Parse(t, op).effect.Reset? && CleanOperand(t, op)
    ensures RuleText(Parse(t, op).effect) == Lower(op)
    ensures IsRule(Lower(op))
  {
    hide WellFormed, Parse, ParseSigned, RuleText, IsRule, Clean, Lower;
    ParseUnfolds(t, op);
    SignedRule(t, op[0] == '+', op[1..]);
    LowerSigned(op);
  }

  /** A stored rule: clean, and read by ACLSetSelector as the effect that writes it. */
  predicate IsStored(t: Table, r: string) {
    && IsRule(r)
    && Parse(t, r).Parsed? && !Parse(t, r).effect.Reset?
    && RuleText(Parse(t, r).effect) == r
  }

  lemma StoredRule(t: Table, op: string)
    requires WellFormed(t) && Parse(t, op).Parsed? && !Parse(t, op).effect.Reset? && CleanOperand(t, op)
    ensures IsStored(t, RuleText(Parse(t, op).effect))
    ensures Parse(t, RuleText(Parse(t, op).effect)).effect == LowerArg(Parse(t, op).effect)
  {
    ParseLower(t, op);
    ParsedRule(t, op);
  }

  lemma ApplyLowerArg(e: Effect, p: Perm)
    ensures Apply(LowerArg(e), p) == Apply(e, p)
  {
    if e.FirstArg? {
      LowerIdempotent(e.arg);
    }
  }

  // ---------- command ids ----------

  /** The name-to-id registry behind every table. */
  class CommandRegistry {
    var ids: map<string, nat>
    var nextId: nat

    predicate Valid()
      reads this
    {
      && (forall n :: n in ids ==> ids[n] < nextId && ids[n] != FUTURE_BIT)
      && (forall m, n :: m in ids && n in ids && ids[m] == ids[n] ==> m == n)
      && nextId != FUTURE_BIT
    }

    constructor ()
      ensures Valid() && ids == map[]
    {
      ids, nextId := map[], 0;
    }

    /** An id per name, whatever its case: never reassigned, never shared, never the reserved one. */
    method GetCommandID(name: string) returns (id: nat)
      requires Valid()
      modifies this
      ensures Valid()
      ensures Lower(name) in ids && ids[Lower(name)] == id
      ensures ids.Keys == old(ids.Keys) + {Lower(name)}
      ensures forall n :: n in old(ids) ==> ids[n] == old(ids)[n]
    {
      var low := Lower(name);
      if low in ids {
        return ids[low];
      }
      ids := ids[low := nextId];
      id := nextId;
      nextId := nextId + 1;
      if nextId == FUTURE_BIT {
        nextId := nextId + 1;
      }
    }
  }
}

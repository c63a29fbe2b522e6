/**
 What is appended for an executed command: a SELECT when the command went to another database
 than the last one written, then the command. Loading a log, or any byte-prefix of it, runs
 each command in the database it was executed in.
 */
module AofFeed {
  import opened AofLog

  /** "SELECT" */
  const SELECT: seq<byte> := [83, 69, 76, 69, 67, 84]

  function SelectCommand(db: nat): Command {
    [SELECT, Decimal(db)]
  }

  predicate IsSelect(c: Command) {
    |c| == 2 && c[0] == SELECT
  }

  /** An executed command and its database; -1 asks for no SELECT in any case. */
  datatype Fed = Fed(db: int, cmd: Command)

  predicate NeedsSelect(selected: int, db: int) {
    db >= 0 && db != selected
  }

  /** The commands written for one, and the database selected then. */
  function FeedOne(selected: int, f: Fed): seq<Command> {
    (if NeedsSelect(selected, f.db) then [SelectCommand(f.db)] else []) + [f.cmd]
  }

  function SelectedAfter(selected: int, db: int): int {
    if NeedsSelect(selected, db) then db else selected
  }

  function Written(selected: int, feeds: seq<Fed>): seq<Command>
    decreases |feeds|
  {
    if feeds == [] then []
    else FeedOne(selected, feeds[0]) + Written(SelectedAfter(selected, feeds[0].db), feeds[1..])
  }

  /** The bytes printed for a SELECT: *2 $6 SELECT, then length and number. */
  function SelectBytes(number: seq<byte>): seq<byte> {
    ([STAR] + [50] + CRLF) + ((([DOLLAR] + [54] + CRLF) + SELECT + CRLF) + (([DOLLAR] + Decimal(|number|) + CRLF) + number + CRLF))
  }

  lemma SmallNumbers()
    ensures Decimal(2) == [50] && Decimal(6) == [54]
  {
  }

  /** The SELECT that is printed is the command in the format of all others. */
  lemma SelectText(db: nat)
    ensures Encode(SelectCommand(db)) == SelectBytes(Decimal(db))
  {
    hide Decimal;
    SmallNumbers();
    var c := SelectCommand(db);
    assert c[1..] == [Decimal(db)] && c[1..][1..] == [];
    var none: Command := [];
    assert EncodeArgs(none) == [];
    assert EncodeArgs(c[1..]) == EncodeArg(Decimal(db)) + EncodeArgs(none);
    assert EncodeArgs(c) == EncodeArg(SELECT) + EncodeArgs(c[1..]);
  }

  // ---------- the databases that commands run in ----------

  /** A client that starts with database `db` selected: the other commands, each with the
      database it runs in. */
  function InDbs(db: int, log: seq<Command>): (r: seq<(int, Command)>)
    decreases |log|
  {
    if log == [] then []
    else if IsSelect(log[0]) then InDbs(Atoi(log[0][1]), log[1..])
    else [(db, log[0])] + InDbs(db, log[1..])
  }

  /** What was executed: every command in its own database, or in the one used last. */
  function Executed(db: int, feeds: seq<Fed>): (r: seq<(int, Command)>)
    decreases |feeds|
  {
    if feeds == [] then []
    else
      var at := if feeds[0].db >= 0 then feeds[0].db else db;
      [(at, feeds[0].cmd)] + Executed(at, feeds[1..])
  }

  /** SELECT itself is never fed. */
  predicate Proper(feeds: seq<Fed>) {
    forall i :: 0 <= i < |feeds| ==> !IsSelect(feeds[i].cmd)
  }

  lemma SelectSelects(db: nat, rest: seq<Command>, cur: int)
    ensures InDbs(cur, [SelectCommand(db)] + rest) == InDbs(db, rest)
  {
    AtoiDecimal(db, []);
    assert Decimal(db) + [] == Decimal(db);
    assert ([SelectCommand(db)] + rest)[1..] == rest;
  }

  /** Replaying what was written runs every command where it was executed. At the start of a
      file nothing counts as selected, so the loader's own start does not matter once a command
      has named its database. */
  lemma {:induction false} WrittenReplays(selected: int, cur: int, feeds: seq<Fed>)
    requires Proper(feeds) && (selected == -1 || selected == cur)
    ensures InDbs(cur, Written(selected, feeds)) == Executed(cur, feeds)
    decreases |feeds|
  {
    hide Atoi, Decimal, SelectCommand;
    if feeds != [] {
      var f := feeds[0];
      var rest := Written(SelectedAfter(selected, f.db), feeds[1..]);
      var at := if f.db >= 0 then f.db else cur;
      WrittenReplays(SelectedAfter(selected, f.db), at, feeds[1..]);
      assert ([f.cmd] + rest)[1..] == rest;
      assert InDbs(at, [f.cmd] + rest) == [(at, f.cmd)] + InDbs(at, rest);
      if NeedsSelect(selected, f.db) {
        SelectSelects(f.db, [f.cmd] + rest, cur);
        assert Written(selected, feeds) == [SelectCommand(f.db)] + ([f.cmd] + rest);
      } else {
        assert Written(selected, feeds) == [f.cmd] + rest;
      }
    }
  }

  lemma {:induction false} InDbsPrefix(db: int, log: seq<Command>, k: nat)
    requires k <= |log|
    ensures InDbs(db, log[..k]) <= InDbs(db, log)
    decreases |log|
  {
    if k > 0 {
      assert log[..k][1..] == log[1..][..k - 1];
      InDbsPrefix(if IsSelect(log[0]) then Atoi(log[0][1]) else db, log[1..], k - 1);
    }
  }

  /** What can be fed: commands in the format, known to the loader, in databases that exist. */
  predicate Feedable(feeds: seq<Fed>, kind: Command -> Kind) {
    forall i :: 0 <= i < |feeds| ==>
      && !IsSelect(feeds[i].cmd) && Representable(feeds[i].cmd) && kind(feeds[i].cmd) != Unknown
      && feeds[i].db < 0x8000_0000
  }

  lemma {:induction false} WrittenLoads(selected: int, feeds: seq<Fed>, kind: Command -> Kind)
    requires Feedable(feeds, kind) && forall c :: IsSelect(c) ==> kind(c) == Other
    ensures forall c :: c in Written(selected, feeds) ==> Representable(c) && kind(c) != Unknown
    decreases |feeds|
  {
    hide Representable;
    if feeds != [] {
      if NeedsSelect(selected, feeds[0].db) {
        SelectFits(feeds[0].db);
        assert IsSelect(SelectCommand(feeds[0].db));
      }
      WrittenLoads(SelectedAfter(selected, feeds[0].db), feeds[1..], kind);
    }
  }

  lemma SelectFits(db: nat)
    requires db < 0x8000_0000
    ensures Representable(SelectCommand(db))
  {
    assert Pow10(3) == 1000;
    assert Pow10(6) == 1000 * Pow10(3);
    assert Pow10(10) == 10000 * Pow10(6);
    DecimalLength(db, 10);
  }

  // ---------- transactions ----------

  /** The commands other than MULTI and EXEC. */
  function Plain(log: seq<Command>, kind: Command -> Kind): seq<Command>
    decreases |log|
  {
    if log == [] then [] else (if kind(log[0]) == Other then [log[0]] else []) + Plain(log[1..], kind)
  }

  function PlainPairs(l: seq<(int, Command)>, kind: Command -> Kind): seq<(int, Command)>
    decreases |l|
  {
    if l == [] then [] else (if kind(l[0].1) == Other then [l[0]] else []) + PlainPairs(l[1..], kind)
  }

  /** Transactions run their commands in the order of the log. */
  lemma {:induction false} RunIsPlain(c: Client, log: seq<Command>, kind: Command -> Kind)
    requires Bracketed(c, log, kind) && (!c.inMulti ==> c.queue == [])
    requires forall x :: x in log ==> kind(x) != Unknown
    ensures var r := RunAll(c, log, kind);
            r.executed + r.queue == c.executed + c.queue + Plain(log, kind) && (!r.inMulti ==> r.queue == [])
    decreases |log|
  {
    hide RunOne;
    if log == [] {
      assert c.executed + c.queue + [] == c.executed + c.queue;
    } else {
      var x := log[0];
      var d := RunOne(c, x, kind(x));
      var one := if kind(x) == Other then [x] else [];
      OneIsPlain(c, x, kind(x));
      RunIsPlain(d, log[1..], kind);
      assert c.executed + c.queue + one + Plain(log[1..], kind) == c.executed + c.queue + (one + Plain(log[1..], kind));
    }
  }

  lemma OneIsPlain(c: Client, x: Command, k: Kind)
    requires (if c.inMulti then k != Multi else k != Exec) && (!c.inMulti ==> c.queue == []) && k != Unknown
    ensures var d := RunOne(c, x, k);
            && d.executed + d.queue == c.executed + c.queue + (if k == Other then [x] else [])
            && (!d.inMulti ==> d.queue == [])
  {
    var e, q := c.executed, c.queue;
    assert e + [x] + [] == e + [] + [x] && e + (q + [x]) == e + q + [x] && e + q + [] == e + q;
  }

  lemma {:induction false} InDbsPlain(db: int, log: seq<Command>, kind: Command -> Kind)
    requires forall c :: IsSelect(c) ==> kind(c) == Other
    ensures InDbs(db, Plain(log, kind)) == PlainPairs(InDbs(db, log), kind)
    decreases |log|
  {
    hide Atoi;
    if log != [] {
      var x, rest := log[0], Plain(log[1..], kind);
      assert ([x] + rest)[1..] == rest;
      if IsSelect(x) {
        InDbsPlain(Atoi(x[1]), log[1..], kind);
        assert Plain(log, kind) == [x] + rest;
      } else {
        InDbsPlain(db, log[1..], kind);
        var pairs := InDbs(db, log[1..]);
        assert ([(db, x)] + pairs)[1..] == pairs;
        if kind(x) == Other {
          assert Plain(log, kind) == [x] + rest;
        } else {
          assert Plain(log, kind) == rest;
        }
      }
    }
  }

  lemma {:induction false} PlainPairsPrefix(a: seq<(int, Command)>, b: seq<(int, Command)>, kind: Command -> Kind)
    requires a <= b
    ensures PlainPairs(a, kind) <= PlainPairs(b, kind)
    decreases |a|
  {
    if a != [] {
      PlainPairsPrefix(a[1..], b[1..], kind);
    }
  }

  /** Any byte-prefix of a file that was fed, transactions included, loaded with truncation: the
      commands that run are a prefix of the executed ones, each in its database. Of a whole file
      without an open transaction, all of them run. */
  lemma TornFeedReplays(feeds: seq<Fed>, n: nat, kind: Command -> Kind, cfg: Config)
    requires Feedable(feeds, kind) && forall c :: IsSelect(c) ==> kind(c) == Other
    requires Bracketed(NewClient, Written(-1, feeds), kind)
    requires n <= |EncodeAll(Written(-1, feeds))| && cfg.loadTruncated && cfg.truncateWorks
    ensures var r := LoadFile(EncodeAll(Written(-1, feeds))[..n], kind, cfg);
            InDbs(0, r.executed) <= PlainPairs(Executed(0, feeds), kind)
    ensures n == |EncodeAll(Written(-1, feeds))| && !RunAll(NewClient, Written(-1, feeds), kind).inMulti ==>
              InDbs(0, LoadFile(EncodeAll(Written(-1, feeds)), kind, cfg).executed) == PlainPairs(Executed(0, feeds), kind)
  {
    hide LoadFile, EncodeAll, Complete, Representable, Written, InDbs, Executed, SelectCommand, Bracketed, RunAll, SettledIn, PlainPairs, Plain;
    var log := Written(-1, feeds);
    WrittenLoads(-1, feeds, kind);
    WrittenReplays(-1, 0, feeds);
    LoadTorn(log, n, kind, cfg);
    var done := log[..Complete(log, n)];
    var m := SettledIn(done, kind);
    assert done[..m] == log[..m];
    ReplaysPrefix(log, m, kind);
    InDbsPrefix(0, log, m);
    PlainPairsPrefix(InDbs(0, log[..m]), InDbs(0, log), kind);
    if n == |EncodeAll(log)| && !RunAll(NewClient, log, kind).inMulti {
      LoadExecutes(log, kind, cfg);
      assert log[..|log|] == log;
      ReplaysPrefix(log, |log|, kind);
    }
  }

  /** A closed prefix of a log of transactions. */
  lemma ReplaysPrefix(log: seq<Command>, m: nat, kind: Command -> Kind)
    requires m <= |log| && Bracketed(NewClient, log, kind) && !RunAll(NewClient, log[..m], kind).inMulti
    requires (forall c :: c in log ==> kind(c) != Unknown) && forall c :: IsSelect(c) ==> kind(c) == Other
    ensures InDbs(0, RunAll(NewClient, log[..m], kind).executed) == PlainPairs(InDbs(0, log[..m]), kind)
  {
    hide RunAll, Bracketed, InDbs, PlainPairs, Plain;
    BracketedPrefix(NewClient, log, m, kind);
    RunIsPlain(NewClient, log[..m], kind);
    var e := RunAll(NewClient, log[..m], kind).executed;
    assert e + [] == e && [] + [] + Plain(log[..m], kind) == Plain(log[..m], kind);
    InDbsPlain(0, log[..m], kind);
  }

  /** A timestamp line, whole or torn at the end of the file, is read over. */
  lemma StampIsSkipped(f: seq<byte>, p: nat, stamp: seq<byte>, c: Client, valid: nat, before: nat, kind: Command -> Kind, cfg: Config)
    requires p < |f| && valid <= |f| && before <= |f| && Holds(f, p, stamp)
    requires 1 < |stamp| < LINE_MAX - 1 && stamp[0] == HASH && stamp[|stamp| - 1] == LF
    requires forall i :: 0 <= i < |stamp| - 1 ==> stamp[i] != LF
    ensures LoadFrom(f, p, c, valid, before, kind, cfg) ==
            LoadFrom(f, if p + |stamp| <= |f| then p + |stamp| else |f|, c, valid, before, kind, cfg)
  {
    var e := p + |stamp| - 1;
    forall i | p <= i < e && i < |f| ensures f[i] != LF {
      assert f[p + (i - p)] == stamp[i - p];
    }
    if e < |f| {
      assert f[p + (|stamp| - 1)] == stamp[|stamp| - 1];
    }
    assert f[p + 0] == stamp[0];
    LineStops(f, p, if e < |f| then e else |f|, LINE_MAX - 1);
  }
}

/**
 The append-only file as a set of files named by a manifest: one BASE (a snapshot), a list of
 INCR files (the commands executed since), and HISTORY files that wait for deletion.

 A dataset is identified with the sequence of commands that built it, so a BASE file holds the
 history it stands for and loading is concatenation. Every operation is given as the list of
 states it goes through, one per system call that changes the disk: a crash may hit any of
 them. `RunIsSafeIff` is the result over all runs, crashes and restarts included.
 */
module AofManifest {
  import opened Common

  datatype Kind = Base | Hist | Incr

  /** File names: the prefix is fixed, so a name is its sequence number, its suffix and, for a
      BASE, its format. */
  datatype Name = BaseName(n: nat, rdb: bool) | IncrName(n: nat)

  datatype Info = Info(name: Name, seqno: nat, kind: Kind)

  datatype Manifest = Manifest(
    base: Option<Info>,
    incr: seq<Info>,
    history: seq<Info>,
    baseSeq: nat,
    incrSeq: nat,
    dirty: bool)

  const Empty := Manifest(None, [], [], 0, 0, false)

  // ---------- the manifest file ----------

  /** The lines of the manifest file: BASE first, then HISTORY, then INCR. */
  function Lines(am: Manifest): seq<Info> {
    (if am.base.Some? then [am.base.value] else []) + am.history + am.incr
  }

  /** One line taken in by the loader; None for what it rejects. */
  function LoadLine(am: Manifest, maxSeq: nat, ai: Info): Option<Manifest> {
    if ai.seqno == 0 then None
    else match ai.kind
      case Base => if am.base.Some? then None else Some(am.(base := Some(ai), baseSeq := ai.seqno))
      case Hist => Some(am.(history := am.history + [ai]))
      case Incr => if ai.seqno <= maxSeq then None else Some(am.(incr := am.incr + [ai], incrSeq := ai.seqno))
  }

  function MaxSeq(am: Manifest): nat {
    if am.incr == [] then 0 else am.incr[|am.incr| - 1].seqno
  }

  function LoadFrom(am: Manifest, lines: seq<Info>): Option<Manifest>
    decreases |lines|
  {
    if lines == [] then Some(am)
    else
      var r := LoadLine(am, MaxSeq(am), lines[0]);
      if r.None? then None else LoadFrom(r.value, lines[1..])
  }

  /** An empty manifest file is an error. */
  function Load(lines: seq<Info>): Option<Manifest> {
    if lines == [] then None else LoadFrom(Empty, lines)
  }

  predicate Increasing(s: seq<Info>) {
    forall i, j :: 0 <= i < j < |s| ==> s[i].seqno < s[j].seqno
  }

  /** Kinds match the lists, sequence numbers are positive, INCR numbers strictly increase. */
  predicate Loadable(am: Manifest) {
    && (am.base.Some? ==> am.base.value.kind == Base && am.base.value.seqno > 0)
    && (forall i :: 0 <= i < |am.history| ==> am.history[i].kind == Hist && am.history[i].seqno > 0)
    && (forall i :: 0 <= i < |am.incr| ==> am.incr[i].kind == Incr && am.incr[i].seqno > 0)
    && Increasing(am.incr)
  }

  lemma {:induction false} LoadHistory(am: Manifest, hs: seq<Info>, rest: seq<Info>)
    requires forall i :: 0 <= i < |hs| ==> hs[i].kind == Hist && hs[i].seqno > 0
    ensures LoadFrom(am, hs + rest) == LoadFrom(am.(history := am.history + hs), rest)
    decreases |hs|
  {
    if hs == [] {
      assert hs + rest == rest && am.history + hs == am.history;
    } else {
      assert (hs + rest)[1..] == hs[1..] + rest;
      var am' := am.(history := am.history + [hs[0]]);
      LoadHistory(am', hs[1..], rest);
      assert am'.history + hs[1..] == am.history + hs;
    }
  }

  lemma {:induction false} LoadIncr(am: Manifest, xs: seq<Info>)
    requires forall i :: 0 <= i < |xs| ==> xs[i].kind == Incr && xs[i].seqno > MaxSeq(am)
    requires Increasing(xs)
    ensures LoadFrom(am, xs) == Some(am.(incr := am.incr + xs,
                                         incrSeq := if xs == [] then am.incrSeq else xs[|xs| - 1].seqno))
    decreases |xs|
  {
    if xs == [] {
      assert am.incr + xs == am.incr;
    } else {
      var am' := am.(incr := am.incr + [xs[0]], incrSeq := xs[0].seqno);
      LoadIncr(am', xs[1..]);
      assert am'.incr + xs[1..] == am.incr + xs;
    }
  }

  lemma LoadBase(am: Manifest)
    requires Loadable(am)
    ensures LoadFrom(Empty, Lines(am)) ==
            LoadFrom(if am.base.Some? then Empty.(base := am.base, baseSeq := am.base.value.seqno) else Empty, am.history + am.incr)
  {
    var tail := am.history + am.incr;
    if am.base.Some? {
      assert Lines(am) == [am.base.value] + tail;
      assert Lines(am)[1..] == tail;
    } else {
      assert Lines(am) == tail;
    }
  }

  /** Writing a manifest and loading it back gives the same lists, and the sequence counters
      of the last BASE and the last INCR. */
  lemma LoadInvertsLines(am: Manifest)
    requires Loadable(am) && Lines(am) != []
    ensures Load(Lines(am)) == Some(Manifest(am.base, am.incr, am.history,
                                             if am.base.Some? then am.base.value.seqno else 0, MaxSeq(am), false))
  {
    hide LoadFrom, Lines, Increasing;
    LoadBase(am);
    LoadTail(if am.base.Some? then Empty.(base := am.base, baseSeq := am.base.value.seqno) else Empty, am);
  }

  lemma LoadTail(start: Manifest, am: Manifest)
    requires Loadable(am) && start.history == start.incr == [] && start.incrSeq == 0
    ensures LoadFrom(start, am.history + am.incr) ==
            Some(start.(history := am.history, incr := am.incr, incrSeq := MaxSeq(am)))
  {
    hide LoadFrom, Increasing;
    LoadHistory(start, am.history, am.incr);
    assert [] + am.history == am.history && [] + am.incr == am.incr;
    LoadIncr(start.(history := am.history), am.incr);
  }

  // ---------- editing a manifest ----------

  function AsHistory(ai: Info): Info {
    ai.(kind := Hist)
  }

  function AllAsHistory(s: seq<Info>): (r: seq<Info>)
    ensures |r| == |s|
    ensures forall i :: 0 <= i < |s| ==> r[i] == AsHistory(s[i])
  {
    seq(|s|, i requires 0 <= i < |s| => AsHistory(s[i]))
  }

  function NewBase(am: Manifest, rdb: bool): Manifest {
    var n := am.baseSeq + 1;
    am.(history := (if am.base.Some? then [AsHistory(am.base.value)] else []) + am.history,
        base := Some(Info(BaseName(n, rdb), n, Base)),
        baseSeq := n,
        dirty := true)
  }

  function NewIncr(am: Manifest): Manifest {
    var n := am.incrSeq + 1;
    am.(incr := am.incr + [Info(IncrName(n), n, Incr)], incrSeq := n, dirty := true)
  }

  /** All INCR files but the one being written become history. */
  function MarkRewritten(am: Manifest): Manifest {
    if am.incr == [] then am
    else
      var k := |am.incr| - 1;
      am.(history := AllAsHistory(am.incr[..k]) + am.history, incr := am.incr[k..], dirty := true)
  }

  // ---------- server and disk ----------

  /** `lines` and `files` are on disk; the rest is lost in a crash. `executed` is every command
      run so far, `buf` the ones not yet written, `child` the snapshot taken by a rewrite. */
  datatype Server<C> = Server(
    mem: Manifest,
    lines: seq<Info>,
    files: map<Name, seq<C>>,
    cur: Name,
    buf: seq<C>,
    executed: seq<C>,
    child: Option<seq<C>>)

  predicate AllExist<C>(files: map<Name, seq<C>>, s: seq<Info>) {
    forall i :: 0 <= i < |s| ==> s[i].name in files
  }

  function Contents<C>(files: map<Name, seq<C>>, s: seq<Info>): seq<C>
    requires AllExist(files, s)
  {
    if s == [] then [] else files[s[0].name] + Contents(files, s[1..])
  }

  /** Loading after a crash: the manifest, then BASE, then the INCR files in order. A file
      that the manifest names and the disk does not have is a fatal error. */
  function Recover<C>(files: map<Name, seq<C>>, lines: seq<Info>): Option<seq<C>> {
    var am := Load(lines);
    if am.None? then None
    else
      var base := if am.value.base.Some? then [am.value.base.value] else [];
      if !AllExist(files, base + am.value.incr) then None
      else Some(Contents(files, base + am.value.incr))
  }

  /** What a crash leaves is the executed commands that are not still in the buffer. */
  predicate CrashSafe<C(==)>(s: Server<C>) {
    var r := Recover(s.files, s.lines);
    r.Some? && r.value + s.buf == s.executed
  }

  // ---------- operations as lists of crash points ----------

  /** How persistAofManifest ends. `Late` is an error after the rename took effect. */
  datatype Persist = Stored | Refused | Late

  datatype Op<C> =
    | Feed(cmd: C)
    | Flush(n: nat)
    | StartRewrite(openOk: bool, persist: Persist, forkOk: bool)
    | RewriteDone(childOk: bool, renameOk: bool, rdb: bool, persist: Persist, gc: bool, persist2: Persist)
    | DelHistory(persist2: Persist)

  function FlushBy<C>(s: Server<C>, n: nat): Server<C>
    requires n <= |s.buf| && s.cur in s.files
  {
    s.(files := s.files[s.cur := s.files[s.cur] + s.buf[..n]], buf := s.buf[n..])
  }

  /** openNewIncrAofForAppend: create the file, persist a changed copy of the manifest, switch. */
  function OpenNewIncr<C>(s: Server<C>, openOk: bool, persist: Persist): (r: seq<Server<C>>)
    ensures r != []
  {
    var am := NewIncr(s.mem);
    var name := IncrName(am.incrSeq);
    if !openOk then [s]
    else
      var s1 := s.(files := s.files[name := []]);
      var s2 := s1.(lines := Lines(am));
      match persist
      case Refused => [s1]
      case Late => [s1, s2]
      case Stored => [s1, s2, s2.(mem := am.(dirty := false), cur := name)]
  }

  predicate Opened<C>(openOk: bool, persist: Persist) {
    openOk && persist == Stored
  }

  /** rewriteAppendOnlyFileBackground. The forced flush is taken to empty the buffer. */
  function StartPoints<C>(s: Server<C>, openOk: bool, persist: Persist, forkOk: bool): (r: seq<Server<C>>)
    requires s.cur in s.files
    ensures r != []
  {
    if s.child.Some? then [s]
    else
      var s0 := FlushBy(s, |s.buf|);
      var created := OpenNewIncr(s0, openOk, persist);
      var last := created[|created| - 1];
      [s0] + created + (if Opened<C>(openOk, persist) && forkOk then [last.(child := Some(last.executed))] else [])
  }

  function UnlinkFirst<C>(s: Server<C>): Server<C>
    requires s.mem.history != []
  {
    s.(files := s.files - {s.mem.history[0].name}, mem := s.mem.(history := s.mem.history[1..]))
  }

  /** aofDelHistoryFiles: unlink one history file after the other, then persist. */
  function Unlinks<C>(s: Server<C>): (r: seq<Server<C>>)
    ensures r != []
    decreases |s.mem.history|
  {
    if s.mem.history == [] then [s]
    else [s] + Unlinks(UnlinkFirst(s))
  }

  function DelPoints<C>(s: Server<C>, persist2: Persist): (r: seq<Server<C>>)
    ensures r != []
  {
    if s.mem.history == [] then [s]
    else
      var us := Unlinks(s);
      var last := us[|us| - 1];
      var am := last.mem;
      us + (match persist2
            case Refused => [last.(mem := am.(dirty := true))]
            case Late => [last.(mem := am.(dirty := true), lines := Lines(am))]
            case Stored => [last.(mem := am.(dirty := false), lines := Lines(am))])
  }

  /** backgroundRewriteDoneHandler. */
  function DonePoints<C>(s: Server<C>, childOk: bool, renameOk: bool, rdb: bool, persist: Persist, gc: bool, persist2: Persist): (r: seq<Server<C>>)
    ensures r != []
  {
    if s.child.None? then [s]
    else if !childOk || !renameOk then [s.(child := None)]
    else
      var am := MarkRewritten(NewBase(s.mem, rdb));
      var name := BaseName(am.baseSeq, rdb);
      var s1 := s.(files := s.files[name := s.child.value], child := None);
      match persist
      case Refused => [s1, s1.(files := s1.files - {name})]
      case Late => [s1, s1.(lines := Lines(am)), s1.(lines := Lines(am), files := s1.files - {name})]
      case Stored =>
        var s2 := s1.(lines := Lines(am));
        var s3 := s2.(mem := am.(dirty := false));
        [s1, s2] + (if gc then DelPoints(s3, persist2) else [s3])
  }

  predicate Enabled<C>(s: Server<C>, op: Op<C>) {
    s.cur in s.files && (op.Flush? ==> op.n <= |s.buf|)
  }

  function Points<C>(s: Server<C>, op: Op<C>): (r: seq<Server<C>>)
    requires Enabled(s, op)
    ensures r != []
  {
    match op
    case Feed(c) => [s.(executed := s.executed + [c], buf := s.buf + [c])]
    case Flush(n) => [FlushBy(s, n)]
    case StartRewrite(openOk, persist, forkOk) => StartPoints(s, openOk, persist, forkOk)
    case RewriteDone(childOk, renameOk, rdb, persist, gc, persist2) =>
      DonePoints(s, childOk, renameOk, rdb, persist, gc, persist2)
    case DelHistory(persist2) => DelPoints(s, persist2)
  }

  function After<C>(s: Server<C>, op: Op<C>): Server<C>
    requires Enabled(s, op)
  {
    var ps := Points(s, op);
    ps[|ps| - 1]
  }

  /** The rewrite is done, the new manifest is on disk, and persisting it is reported as an
      error: the handler unlinks the BASE that the disk now needs. */
  predicate LosesBase<C>(s: Server<C>, op: Op<C>) {
    op.RewriteDone? && s.child.Some? && op.childOk && op.renameOk && op.persist == Late
  }

  // ---------- the invariant ----------

  /** Lists of a running server: one BASE, at least one INCR, names that carry their numbers. */
  predicate WellNamed(am: Manifest) {
    && am.base.Some?
    && am.base.value.name.BaseName? && am.base.value.name.n == am.base.value.seqno == am.baseSeq
    && am.incr != [] && MaxSeq(am) == am.incrSeq
    && (forall i :: 0 <= i < |am.incr| ==> am.incr[i].name == IncrName(am.incr[i].seqno))
  }

  /** History names are older than every file still needed. */
  predicate Retired(am: Manifest, h: seq<Info>)
    requires am.base.Some? && am.incr != []
  {
    forall i :: 0 <= i < |h| ==>
      match h[i].name
      case BaseName(n, _) => n < am.base.value.seqno
      case IncrName(n) => n < am.incr[0].seqno
  }

  function Needed(am: Manifest): seq<Info>
    requires am.base.Some?
  {
    [am.base.value] + am.incr
  }

  predicate GoodManifest(am: Manifest) {
    Loadable(am) && WellNamed(am) && Retired(am, am.history)
  }

  /** The manifest on disk and the one given name the same needed files. */
  predicate DiskIs(am: Manifest, lines: seq<Info>) {
    var d := Load(lines);
    d.Some? && d.value.base == am.base && d.value.incr == am.incr && GoodManifest(d.value)
  }

  /** An empty INCR file with the next number. */
  predicate Spare<C>(files: map<Name, seq<C>>, am: Manifest) {
    var name := IncrName(am.incrSeq + 1);
    name in files && files[name] == []
  }

  /** The disk names the files the server knows of. After a start of a rewrite that stored the
      manifest and then failed, it names one more INCR file, still empty. */
  predicate DiskAgrees<C>(s: Server<C>) {
    DiskIs(s.mem, s.lines) || (DiskIs(NewIncr(s.mem), s.lines) && Spare(s.files, s.mem))
  }

  /** The half of the invariant that does not depend on the manifest on disk. */
  predicate MemInv<C(==)>(s: Server<C>) {
    && GoodManifest(s.mem)
    && AllExist(s.files, Needed(s.mem))
    && s.cur == s.mem.incr[|s.mem.incr| - 1].name
    && Contents(s.files, Needed(s.mem)) + s.buf == s.executed
    && (s.child.Some? ==> s.child.value + s.files[s.cur] + s.buf == s.executed)
  }

  predicate Inv<C(==)>(s: Server<C>) {
    MemInv(s) && DiskAgrees(s)
  }

  /** The manifest on disk names a BASE that is gone. */
  predicate BaseGone<C>(s: Server<C>) {
    var d := Load(s.lines);
    && d.Some? && d.value.base.Some?
    && d.value.base.value.name.BaseName? && d.value.base.value.name.n == s.mem.baseSeq + 1
    && d.value.base.value.name !in s.files
  }

  /** After the loss of the BASE: the server goes on with its own files, which are all there. */
  predicate Lost<C(==)>(s: Server<C>) {
    MemInv(s) && BaseGone(s) && s.child.None?
  }

  /** A restart: what the disk recovers to is the dataset, and the last INCR file is opened
      for appending. Everything else is forgotten. */
  function Restart<C>(files: map<Name, seq<C>>, lines: seq<Info>): Server<C>
    requires Recover(files, lines).Some? && Load(lines).value.incr != []
  {
    var am := Load(lines).value;
    Server(am, lines, files, am.incr[|am.incr| - 1].name, [], Recover(files, lines).value, None)
  }

  /** Every crash point is also a state to restart from. */
  predicate Restartable<C(==)>(s: Server<C>) {
    CrashSafe(s) && Load(s.lines).value.incr != [] && Inv(Restart(s.files, s.lines))
  }

  lemma AgreedIsRestartable<C>(s: Server<C>, am: Manifest)
    requires GoodManifest(am) && DiskIs(am, s.lines) && CrashSafe(s)
    ensures Restartable(s)
  {
    var d := Load(s.lines).value;
    var t := Restart(s.files, s.lines);
    assert [d.base.value] + d.incr == Needed(d);
    assert Contents(t.files, Needed(d)) + [] == t.executed;
    LoadedTwice(s.lines);
  }

  lemma LoadedTwice(lines: seq<Info>)
    requires Load(lines).Some? && GoodManifest(Load(lines).value)
    ensures DiskIs(Load(lines).value, lines)
  {
  }

  // ---------- reading files ----------

  lemma {:induction false} ContentsSame<C>(f: map<Name, seq<C>>, g: map<Name, seq<C>>, s: seq<Info>)
    requires AllExist(f, s)
    requires forall i :: 0 <= i < |s| ==> s[i].name in g && g[s[i].name] == f[s[i].name]
    ensures AllExist(g, s) && Contents(g, s) == Contents(f, s)
  {
    if s != [] {
      ContentsSame(f, g, s[1..]);
    }
  }

  lemma {:induction false} ContentsConcat<C>(f: map<Name, seq<C>>, a: seq<Info>, b: seq<Info>)
    requires AllExist(f, a) && AllExist(f, b)
    ensures AllExist(f, a + b) && Contents(f, a + b) == Contents(f, a) + Contents(f, b)
  {
    if a == [] {
      assert a + b == b;
    } else {
      ContentsConcat(f, a[1..], b);
      assert (a + b)[1..] == a[1..] + b;
    }
  }

  lemma ContentsSnoc<C>(f: map<Name, seq<C>>, a: seq<Info>, x: Info)
    requires AllExist(f, a) && x.name in f
    ensures AllExist(f, a + [x]) && Contents(f, a + [x]) == Contents(f, a) + f[x.name]
  {
    assert Contents(f, [x]) == f[x.name] by {
      assert [x][1..] == [];
      assert f[x.name] + [] == f[x.name];
    }
    ContentsConcat(f, a, [x]);
  }

  /** Two manifests with the same needed files recover the same. */
  lemma SafeByLines<C>(s: Server<C>, am: Manifest)
    requires GoodManifest(am) && DiskIs(am, s.lines)
    requires AllExist(s.files, Needed(am)) && Contents(s.files, Needed(am)) + s.buf == s.executed
    ensures Restartable(s)
  {
    AgreedIsRestartable(s, am);
  }

  lemma GoodAgrees(am: Manifest)
    requires GoodManifest(am)
    ensures DiskIs(am, Lines(am))
  {
    LoadInvertsLines(am);
  }

  /** Changes that leave the names in memory, the lines and the spare file alone. */
  lemma DiskStillAgrees<C>(s: Server<C>, t: Server<C>)
    requires DiskAgrees(s) && s.lines == t.lines
    requires s.mem.base == t.mem.base && s.mem.incr == t.mem.incr && s.mem.incrSeq == t.mem.incrSeq
    requires Spare(s.files, s.mem) ==> Spare(t.files, t.mem)
    ensures DiskAgrees(t)
  {
    hide GoodManifest, Load;
  }

  lemma InvIsSafe<C>(s: Server<C>)
    requires Inv(s)
    ensures Restartable(s)
  {
    hide Contents, DiskIs, GoodManifest, Restartable;
    CurrentIsNeeded(s.mem);
    if DiskIs(s.mem, s.lines) {
      SafeByLines(s, s.mem);
    } else {
      var am := NewIncr(s.mem);
      NewIncrIsGood(s.mem);
      CurrentIsNeeded(am);
      ContentsSnoc(s.files, Needed(s.mem), Info(IncrName(am.incrSeq), am.incrSeq, Incr));
      assert Contents(s.files, Needed(s.mem)) + [] == Contents(s.files, Needed(s.mem));
      SafeByLines(s, am);
    }
  }

  lemma SpareIsNotHistory(am: Manifest)
    requires GoodManifest(am)
    ensures forall i :: 0 <= i < |am.history| ==> am.history[i].name != IncrName(am.incrSeq + 1)
  {
    assert am.incr[0].seqno <= am.incr[|am.incr| - 1].seqno;
  }

  // ---------- each operation ----------

  predicate AllSafe<C(==)>(ps: seq<Server<C>>) {
    forall i :: 0 <= i < |ps| ==> Restartable(ps[i])
  }

  lemma NeededSplit(am: Manifest)
    requires am.base.Some? && am.incr != []
    ensures Needed(am) == Needed(am)[..|am.incr|] + [am.incr[|am.incr| - 1]]
    ensures |Needed(am)| == |am.incr| + 1
    ensures forall i :: 0 <= i < |am.incr| - 1 ==> Needed(am)[i + 1] == am.incr[i]
  {
  }

  lemma FlushKeepsMem<C>(s: Server<C>, n: nat)
    requires MemInv(s) && n <= |s.buf|
    ensures s.cur in s.files && MemInv(FlushBy(s, n))
  {
    hide Contents, Needed;
    var needed := Needed(s.mem);
    NeededSplit(s.mem);
    CurrentIsLast(s.mem);
    assert needed[|s.mem.incr|].name == s.cur;
    var t := FlushBy(s, n);
    var front, last := needed[..|s.mem.incr|], s.mem.incr[|s.mem.incr| - 1];
    ContentsSnoc(s.files, front, last);
    ContentsSame(s.files, t.files, front);
    ContentsSnoc(t.files, front, last);
    MovedToFile(Contents(s.files, front), s.files[s.cur], s.buf, n);
    if s.child.Some? {
      MovedToFile(s.child.value, s.files[s.cur], s.buf, n);
    }
  }

  lemma FlushKeeps<C>(s: Server<C>, n: nat)
    requires Inv(s) && n <= |s.buf|
    ensures s.cur in s.files && Inv(FlushBy(s, n))
  {
    hide Contents, DiskIs;
    FlushKeepsMem(s, n);
    CurrentIsNeeded(s.mem);
    NewIncrIsGood(s.mem);
    DiskStillAgrees(s, FlushBy(s, n));
  }

  /** Bytes that move from the buffer to the end of a file stay where they were in the whole. */
  lemma MovedToFile<C>(a: seq<C>, file: seq<C>, buf: seq<C>, n: nat)
    requires n <= |buf|
    ensures a + (file + buf[..n]) + buf[n..] == a + file + buf
  {
    assert buf == buf[..n] + buf[n..];
  }

  /** The file being appended to is the last needed, and no other needed file has its name. */
  lemma CurrentIsLast(am: Manifest)
    requires GoodManifest(am)
    ensures |Needed(am)| == |am.incr| + 1
    ensures forall i :: 0 <= i < |am.incr| ==> Needed(am)[i].name != am.incr[|am.incr| - 1].name
  {
  }

  lemma FeedKeepsMem<C>(s: Server<C>, c: C)
    requires MemInv(s)
    ensures MemInv(s.(executed := s.executed + [c], buf := s.buf + [c]))
  {
    var n := Contents(s.files, Needed(s.mem));
    assert n + (s.buf + [c]) == (n + s.buf) + [c];
    if s.child.Some? {
      var m := s.child.value + s.files[s.cur];
      assert m + (s.buf + [c]) == (m + s.buf) + [c];
    }
  }

  lemma FeedKeeps<C>(s: Server<C>, c: C)
    requires Inv(s)
    ensures Inv(s.(executed := s.executed + [c], buf := s.buf + [c]))
  {
    hide DiskIs, MemInv;
    FeedKeepsMem(s, c);
  }

  lemma NewIncrIsGood(am: Manifest)
    requires GoodManifest(am)
    ensures GoodManifest(NewIncr(am)) && GoodManifest(NewIncr(am).(dirty := false))
    ensures Needed(NewIncr(am)) == Needed(am) + [Info(IncrName(am.incrSeq + 1), am.incrSeq + 1, Incr)]
    ensures forall i :: 0 <= i < |Needed(am)| ==> Needed(am)[i].name != IncrName(am.incrSeq + 1)
  {
    var b := NewIncr(am);
    assert am.incr[|am.incr| - 1].seqno == am.incrSeq;
    assert forall i :: 0 <= i < |am.incr| ==> am.incr[i].seqno <= am.incrSeq;
    assert b.incr[0] == am.incr[0];
  }

  lemma OpenKeeps<C>(s: Server<C>, openOk: bool, persist: Persist)
    requires Inv(s) && s.child.None? && s.buf == []
    ensures var ps := OpenNewIncr(s, openOk, persist);
            && AllSafe(ps)
            && var last := ps[|ps| - 1];
            && Inv(last) && last.child.None?
            && last.executed == s.executed && last.buf == []
            && (Opened<C>(openOk, persist) ==> last.files[last.cur] == [])
  {
    hide MemInv, DiskAgrees, Restartable, NewIncr, Lines;
    InvIsSafe(s);
    if openOk {
      CreateIncr(s);
      if persist != Refused {
        SwitchToIncr(s);
      }
    }
  }

  lemma CreateIncrMem<C>(s: Server<C>)
    requires MemInv(s) && s.child.None?
    ensures MemInv(s.(files := s.files[IncrName(NewIncr(s.mem).incrSeq) := []]))
  {
    hide Contents, GoodManifest;
    var s1 := s.(files := s.files[IncrName(NewIncr(s.mem).incrSeq) := []]);
    CurrentIsNeeded(s.mem);
    NewIncrIsGood(s.mem);
    ContentsSame(s.files, s1.files, Needed(s.mem));
  }

  /** The new INCR file exists on disk but nothing refers to it yet. */
  lemma CreateIncr<C>(s: Server<C>)
    requires Inv(s) && s.child.None?
    ensures var s1 := s.(files := s.files[IncrName(NewIncr(s.mem).incrSeq) := []]); Inv(s1) && Restartable(s1)
  {
    hide MemInv, DiskIs;
    var s1 := s.(files := s.files[IncrName(NewIncr(s.mem).incrSeq) := []]);
    CreateIncrMem(s);
    DiskStillAgrees(s, s1);
    InvIsSafe(s1);
  }

  lemma CurrentIsNeeded(am: Manifest)
    requires GoodManifest(am)
    ensures am.base.Some? && am.incr != [] && |Needed(am)| == |am.incr| + 1 && Needed(am)[|am.incr|] == am.incr[|am.incr| - 1]
  {
  }

  /** Then the manifest is stored, and the server switches to the new file, or keeps to the old
      one if it was told of an error. */
  lemma SwitchToIncr<C>(s: Server<C>)
    requires MemInv(s) && s.child.None? && s.buf == []
    ensures var am := NewIncr(s.mem);
            var name := IncrName(am.incrSeq);
            var s2 := s.(files := s.files[name := []], lines := Lines(am));
            var s3 := s2.(mem := am.(dirty := false), cur := name);
            Restartable(s2) && Inv(s2) && Inv(s3) && Restartable(s3)
  {
    hide Contents, DiskIs, GoodManifest, Restartable, Lines;
    var am := NewIncr(s.mem);
    var name := IncrName(am.incrSeq);
    assert GoodManifest(s.mem);
    CurrentIsNeeded(s.mem);
    NewIncrIsGood(s.mem);
    CurrentIsNeeded(am);
    var x := Info(name, am.incrSeq, Incr);
    var s2 := s.(files := s.files[name := []], lines := Lines(am));
    ContentsSame(s.files, s2.files, Needed(s.mem));
    ContentsSnoc(s2.files, Needed(s.mem), x);
    assert Contents(s.files, Needed(s.mem)) + [] == Contents(s.files, Needed(s.mem));
    GoodAgrees(am);
    assert Inv(s2);
    SafeByLines(s2, am);
    var s3 := s2.(mem := am.(dirty := false), cur := name);
    GoodAgrees(s3.mem);
    SameLines(am);
    CurrentIsNeeded(s3.mem);
    assert Inv(s3);
    InvIsSafe(s3);
  }

  lemma SameLines(am: Manifest)
    requires am.base.Some?
    ensures Lines(am.(dirty := false)) == Lines(am) && Needed(am.(dirty := false)) == Needed(am)
  {
  }

  lemma ForkKeeps<C>(s: Server<C>)
    requires Inv(s) && s.buf == [] && s.files[s.cur] == []
    ensures Inv(s.(child := Some(s.executed)))
  {
    var f := s.(child := Some(s.executed));
    assert f.child.value + [] + [] == f.executed;
  }

  lemma StartKeeps<C>(s: Server<C>, openOk: bool, persist: Persist, forkOk: bool)
    requires Inv(s) && s.cur in s.files
    ensures var ps := StartPoints(s, openOk, persist, forkOk); AllSafe(ps) && Inv(ps[|ps| - 1])
  {
    hide Inv, Restartable, OpenNewIncr;
    InvIsSafe(s);
    if s.child.None? {
      var s0 := FlushBy(s, |s.buf|);
      FlushKeeps(s, |s.buf|);
      InvIsSafe(s0);
      OpenKeeps(s0, openOk, persist);
      var created := OpenNewIncr(s0, openOk, persist);
      var last := created[|created| - 1];
      if Opened<C>(openOk, persist) && forkOk {
        ForkKeeps(last);
        InvIsSafe(last.(child := Some(last.executed)));
      }
    }
  }

  /** What unlinking keeps: a history file is older than every needed one. */
  lemma UnlinkKeepsMem<C>(s: Server<C>)
    requires MemInv(s) && s.mem.history != []
    ensures MemInv(UnlinkFirst(s))
  {
    var h := s.mem.history[0].name;
    var t := UnlinkFirst(s);
    var needed := Needed(s.mem);
    assert Needed(t.mem) == needed;
    forall i | 0 <= i < |needed| ensures needed[i].name != h {
      if i > 0 {
        assert needed[i] == s.mem.incr[i - 1];
        assert s.mem.incr[0].seqno <= s.mem.incr[i - 1].seqno;
      }
    }
    ContentsSame(s.files, t.files, needed);
    assert s.mem.incr[|s.mem.incr| - 1] == needed[|s.mem.incr|];
  }

  lemma UnlinkKeeps<C>(s: Server<C>)
    requires Inv(s) && s.mem.history != []
    ensures Inv(UnlinkFirst(s))
  {
    hide DiskIs, Contents;
    UnlinkKeepsMem(s);
    SpareIsNotHistory(s.mem);
    DiskStillAgrees(s, UnlinkFirst(s));
  }

  lemma {:induction false} UnlinksKeep<C>(s: Server<C>)
    requires Inv(s)
    ensures var us := Unlinks(s);
            && AllSafe(us)
            && var last := us[|us| - 1];
            && Inv(last) && last.mem.history == [] && last.lines == s.lines
    decreases |s.mem.history|
  {
    hide Inv, Restartable;
    InvIsSafe(s);
    if s.mem.history != [] {
      UnlinkKeeps(s);
      UnlinksKeep(UnlinkFirst(s));
    }
  }

  lemma PersistKeepsMem<C>(s: Server<C>, dirty: bool)
    requires MemInv(s)
    ensures MemInv(s.(mem := s.mem.(dirty := dirty)))
    ensures Inv(s.(mem := s.mem.(dirty := dirty), lines := Lines(s.mem)))
  {
    GoodAgrees(s.mem);
    assert Needed(s.mem.(dirty := dirty)) == Needed(s.mem);
  }

  lemma PersistKeeps<C>(s: Server<C>, dirty: bool)
    requires Inv(s)
    ensures Inv(s.(mem := s.mem.(dirty := dirty)))
    ensures Inv(s.(mem := s.mem.(dirty := dirty), lines := Lines(s.mem)))
  {
    hide DiskIs, MemInv;
    PersistKeepsMem(s, dirty);
    DiskStillAgrees(s, s.(mem := s.mem.(dirty := dirty)));
  }

  lemma DelKeeps<C>(s: Server<C>, persist2: Persist)
    requires Inv(s)
    ensures var ps := DelPoints(s, persist2); AllSafe(ps) && Inv(ps[|ps| - 1])
  {
    hide Inv, Restartable, Unlinks;
    InvIsSafe(s);
    if s.mem.history != [] {
      UnlinksKeep(s);
      var us := Unlinks(s);
      var last := us[|us| - 1];
      PersistKeeps(last, persist2 != Stored);
      var ps := DelPoints(s, persist2);
      InvIsSafe(ps[|ps| - 1]);
    }
  }

  lemma RewrittenIsGood(am: Manifest, rdb: bool)
    requires GoodManifest(am)
    ensures var b := MarkRewritten(NewBase(am, rdb));
            && GoodManifest(b) && GoodManifest(b.(dirty := false))
            && b.baseSeq == am.baseSeq + 1
            && b.base == Some(Info(BaseName(b.baseSeq, rdb), b.baseSeq, Base))
            && b.incr == [am.incr[|am.incr| - 1]]
    ensures forall i :: 0 <= i < |Needed(am)| ==> Needed(am)[i].name != BaseName(am.baseSeq + 1, rdb)
  {
    var b := MarkRewritten(NewBase(am, rdb));
    var k := |am.incr| - 1;
    assert am.incr[k..] == [am.incr[k]];
    var h := AllAsHistory(am.incr[..k]);
    assert b.history == h + ([AsHistory(am.base.value)] + am.history);
    forall i | 0 <= i < |b.history|
      ensures b.history[i].kind == Hist && b.history[i].seqno > 0
      ensures match b.history[i].name
              case BaseName(n, _) => n < b.base.value.seqno
              case IncrName(n) => n < b.incr[0].seqno
    {
      if i < k {
        assert b.history[i] == AsHistory(am.incr[i]);
      } else if i > k {
        assert b.history[i] == am.history[i - k - 1];
        assert am.incr[0].seqno <= am.incr[k].seqno;
      }
    }
  }

  lemma DropChildKeeps<C>(s: Server<C>)
    requires Inv(s)
    ensures Inv(s.(child := None))
  {
  }

  /** A new BASE file that no manifest names yet comes and goes unnoticed. */
  lemma OrphanBaseKeeps<C>(s: Server<C>, rdb: bool, content: seq<C>)
    requires Inv(s)
    ensures Inv(s.(files := s.files[BaseName(s.mem.baseSeq + 1, rdb) := content]))
    ensures Inv(s.(files := s.files[BaseName(s.mem.baseSeq + 1, rdb) := content] - {BaseName(s.mem.baseSeq + 1, rdb)}))
  {
    hide Contents, DiskIs, GoodManifest, MarkRewritten, NewBase;
    var name := BaseName(s.mem.baseSeq + 1, rdb);
    RewrittenIsGood(s.mem, rdb);
    CurrentIsNeeded(s.mem);
    ContentsSame(s.files, s.files[name := content], Needed(s.mem));
    ContentsSame(s.files, s.files[name := content] - {name}, Needed(s.mem));
    assert s.cur == Needed(s.mem)[|s.mem.incr|].name;
    DiskStillAgrees(s, s.(files := s.files[name := content]));
    DiskStillAgrees(s, s.(files := s.files[name := content] - {name}));
  }

  /** The new BASE is on disk, and the manifest that names it may be. */
  lemma RenamedIsSafe<C>(s: Server<C>, rdb: bool)
    requires Inv(s) && s.child.Some?
    ensures var am := MarkRewritten(NewBase(s.mem, rdb));
            var name := BaseName(am.baseSeq, rdb);
            var s1 := s.(files := s.files[name := s.child.value], child := None);
            && Restartable(s1) && Inv(s1.(files := s1.files - {name}))
            && Restartable(s1.(lines := Lines(am))) && Inv(s1.(lines := Lines(am), mem := am.(dirty := false)))
  {
    hide Inv, Restartable, Lines;
    var d := s.(child := None);
    DropChildKeeps(s);
    assert MarkRewritten(NewBase(s.mem, rdb)).baseSeq == s.mem.baseSeq + 1;
    OrphanBaseKeeps(d, rdb, s.child.value);
    InvIsSafe(d.(files := s.files[BaseName(s.mem.baseSeq + 1, rdb) := s.child.value]));
    SwitchedIsSafe(s, rdb);
  }

  lemma DoneKeeps<C>(s: Server<C>, childOk: bool, renameOk: bool, rdb: bool, persist: Persist, gc: bool, persist2: Persist)
    requires Inv(s) && !LosesBase(s, RewriteDone(childOk, renameOk, rdb, persist, gc, persist2))
    ensures var ps := DonePoints(s, childOk, renameOk, rdb, persist, gc, persist2); AllSafe(ps) && Inv(ps[|ps| - 1])
  {
    hide Inv, Restartable, DelPoints, Lines;
    InvIsSafe(s);
    if s.child.Some? {
      DropChildKeeps(s);
      InvIsSafe(s.(child := None));
      if childOk && renameOk {
        RenamedIsSafe(s, rdb);
        var am := MarkRewritten(NewBase(s.mem, rdb));
        var name := BaseName(am.baseSeq, rdb);
        var s1 := s.(files := s.files[name := s.child.value], child := None);
        if persist == Refused {
          InvIsSafe(s1.(files := s1.files - {name}));
        } else {
          var s3 := s1.(lines := Lines(am), mem := am.(dirty := false));
          InvIsSafe(s3);
          if gc {
            DelKeeps(s3, persist2);
          }
        }
      }
    }
  }

  /** The moment the new manifest is on disk: the new BASE takes over from the old files. */
  lemma SwitchedIsSafe<C>(s: Server<C>, rdb: bool)
    requires Inv(s) && s.child.Some?
    ensures var am := MarkRewritten(NewBase(s.mem, rdb));
            var s2 := s.(files := s.files[BaseName(am.baseSeq, rdb) := s.child.value], child := None, lines := Lines(am));
            Restartable(s2) && Inv(s2.(mem := am.(dirty := false)))
  {
    var am := MarkRewritten(NewBase(s.mem, rdb));
    RewrittenIsGood(s.mem, rdb);
    var name := BaseName(am.baseSeq, rdb);
    var s2 := s.(files := s.files[name := s.child.value], child := None, lines := Lines(am));
    GoodAgrees(am);
    assert s.cur == s.mem.incr[|s.mem.incr| - 1].name;
    assert Needed(am) == [am.base.value] + [am.incr[0]];
    assert s.cur.IncrName?;
    assert Contents(s2.files, [am.base.value]) == s.child.value by {
      assert [am.base.value][1..] == [];
      assert s.child.value + [] == s.child.value;
    }
    ContentsSnoc(s2.files, [am.base.value], am.incr[0]);
    SafeByLines(s2, am);
    var s3 := s2.(mem := am.(dirty := false));
    assert Needed(s3.mem) == Needed(am);
  }

  lemma WithoutItsBase<C>(s: Server<C>, rdb: bool)
    requires Inv(s)
    ensures var am := MarkRewritten(NewBase(s.mem, rdb));
            Recover(s.files - {BaseName(am.baseSeq, rdb)}, Lines(am)).None?
  {
    var am := MarkRewritten(NewBase(s.mem, rdb));
    RewrittenIsGood(s.mem, rdb);
    GoodAgrees(am);
    var name := BaseName(am.baseSeq, rdb);
    var needed := [am.base.value] + am.incr;
    assert needed[0].name == name;
    assert !AllExist(s.files - {name}, needed);
  }

  /** The one operation that can go wrong: safe up to its last point, and lost there. */
  lemma LosingPoints<C>(s: Server<C>, op: Op<C>)
    requires Inv(s) && Enabled(s, op) && LosesBase(s, op)
    ensures var ps := Points(s, op);
            && (forall i :: 0 <= i < |ps| - 1 ==> Restartable(ps[i]))
            && Recover(ps[|ps| - 1].files, ps[|ps| - 1].lines).None?
  {
    hide Inv, Restartable, Recover, Lines, MarkRewritten, NewBase;
    RenamedIsSafe(s, op.rdb);
    WithoutItsBase(s, op.rdb);
    var am := MarkRewritten(NewBase(s.mem, op.rdb));
    var name := BaseName(am.baseSeq, op.rdb);
    assert s.files[name := s.child.value] - {name} == s.files - {name};
  }

  // ---------- after a loss ----------

  lemma GoneIsNotRecovered<C>(s: Server<C>)
    requires BaseGone(s)
    ensures Recover(s.files, s.lines).None?
  {
    var am := Load(s.lines).value;
    var needed := [am.base.value] + am.incr;
    assert needed[0].name !in s.files;
    assert !AllExist(s.files, needed);
  }

  /** The first point of an operation at which a manifest that it stores is on disk; past the
      last one when it stores none. */
  function StoredAt<C>(s: Server<C>, op: Op<C>): (r: nat)
    requires Enabled(s, op)
    ensures r <= |Points(s, op)|
  {
    match op
    case StartRewrite(openOk, persist, _) =>
      if s.child.None? && openOk && persist != Refused then 2 else |Points(s, op)|
    case RewriteDone(childOk, renameOk, _, persist, _, _) =>
      if s.child.Some? && childOk && renameOk && persist != Refused then 1 else |Points(s, op)|
    case DelHistory(persist2) =>
      if s.mem.history != [] && persist2 != Refused then |Points(s, op)| - 1 else |Points(s, op)|
    case _ => |Points(s, op)|
  }

  /** What a point is after a loss: not loadable until the next manifest is on disk, and then as
      good as any. */
  predicate PointAfterLoss<C(==)>(p: Server<C>, stored: bool) {
    if stored then Inv(p) || Restartable(p) else Lost(p)
  }

  ghost predicate PointsAfterLoss<C>(s: Server<C>, op: Op<C>)
    requires Enabled(s, op)
  {
    && (forall i :: 0 <= i < |Points(s, op)| ==> PointAfterLoss(Points(s, op)[i], i >= StoredAt(s, op)))
    && (if StoredAt(s, op) < |Points(s, op)| then Inv(After(s, op)) else Lost(After(s, op)))
  }

  lemma LostFeed<C>(s: Server<C>, c: C)
    requires Lost(s) && Enabled(s, Feed(c))
    ensures PointsAfterLoss(s, Feed(c))
  {
    hide MemInv;
    FeedKeepsMem(s, c);
  }

  lemma LostFlush<C>(s: Server<C>, n: nat)
    requires Lost(s) && Enabled(s, Flush(n))
    ensures Lost(FlushBy(s, n)) && PointsAfterLoss(s, Flush(n))
  {
    hide Contents, Load;
    FlushKeepsMem(s, n);
    CurrentIsNeeded(s.mem);
  }

  lemma LostCreate<C>(s: Server<C>)
    requires Lost(s)
    ensures Lost(s.(files := s.files[IncrName(NewIncr(s.mem).incrSeq) := []]))
  {
    hide MemInv, Load;
    CreateIncrMem(s);
  }

  lemma LostStart<C>(s: Server<C>, openOk: bool, persist: Persist, forkOk: bool)
    requires Lost(s) && s.cur in s.files
    ensures PointsAfterLoss(s, StartRewrite(openOk, persist, forkOk))
  {
    hide MemInv, BaseGone, DiskAgrees, Restartable, NewIncr, Lines;
    var n := |s.buf|;
    LostFlush(s, n);
    var s0 := FlushBy(s, n);
    if openOk {
      LostCreate(s0);
      if persist != Refused {
        SwitchToIncr(s0);
        if persist == Stored && forkOk {
          var s3 := s0.(files := s0.files[IncrName(NewIncr(s0.mem).incrSeq) := []], lines := Lines(NewIncr(s0.mem)),
                        mem := NewIncr(s0.mem).(dirty := false), cur := IncrName(NewIncr(s0.mem).incrSeq));
          ForkKeeps(s3);
          InvIsSafe(s3.(child := Some(s3.executed)));
        }
      }
    }
  }

  lemma {:induction false} LostUnlinks<C>(s: Server<C>)
    requires Lost(s)
    ensures var us := Unlinks(s);
            && (forall i :: 0 <= i < |us| ==> Lost(us[i]))
            && us[|us| - 1].mem.history == []
    decreases |s.mem.history|
  {
    hide MemInv, Load;
    if s.mem.history != [] {
      UnlinkKeepsMem(s);
      LostUnlinks(UnlinkFirst(s));
    }
  }

  lemma LostDel<C>(s: Server<C>, persist2: Persist)
    requires Lost(s) && s.cur in s.files
    ensures PointsAfterLoss(s, DelHistory(persist2))
  {
    hide MemInv, Load, Unlinks, DiskAgrees, Restartable, Lines;
    if s.mem.history != [] {
      LostUnlinks(s);
      var us := Unlinks(s);
      PersistKeepsMem(us[|us| - 1], persist2 != Stored);
    }
  }

  /** Every operation of a server that has lost its BASE. */
  lemma LostStep<C>(s: Server<C>, op: Op<C>)
    requires Lost(s) && Enabled(s, op)
    ensures PointsAfterLoss(s, op) && !LosesBase(s, op)
  {
    hide MemInv, BaseGone, PointsAfterLoss, Points;
    match op
    case Feed(c) => LostFeed(s, c);
    case Flush(n) => LostFlush(s, n);
    case StartRewrite(openOk, persist, forkOk) => LostStart(s, openOk, persist, forkOk);
    case RewriteDone(_, _, _, _, _, _) => LostDone(s, op);
    case DelHistory(persist2) => LostDel(s, persist2);
  }

  lemma LostDone<C>(s: Server<C>, op: Op<C>)
    requires Lost(s) && Enabled(s, op) && op.RewriteDone?
    ensures PointsAfterLoss(s, op)
  {
    hide MemInv, BaseGone;
  }

  /** The handler that loses the BASE leaves such a server. */
  lemma LossIsLost<C>(s: Server<C>, op: Op<C>)
    requires Inv(s) && Enabled(s, op) && LosesBase(s, op)
    ensures Lost(After(s, op))
  {
    hide DiskAgrees, MemInv, BaseGone, MarkRewritten, NewBase, Lines;
    var am := MarkRewritten(NewBase(s.mem, op.rdb));
    MemIsGood(s);
    RewrittenIsGood(s.mem, op.rdb);
    DropChildKeeps(s);
    OrphanBaseKeeps(s.(child := None), op.rdb, s.child.value);
    var name := BaseName(am.baseSeq, op.rdb);
    var t := s.(files := s.files[name := s.child.value] - {name}, child := None);
    assert MemInv(t);
    MemIgnoresDisk(t, Lines(am));
    NamesNewBase(t.(lines := Lines(am)), am);
  }

  lemma MemIsGood<C>(s: Server<C>)
    requires MemInv(s)
    ensures GoodManifest(s.mem)
  {
  }

  lemma MemIgnoresDisk<C>(s: Server<C>, lines: seq<Info>)
    requires MemInv(s)
    ensures MemInv(s.(lines := lines))
  {
  }

  lemma NamesNewBase<C>(s: Server<C>, am: Manifest)
    requires GoodManifest(am) && s.lines == Lines(am) && am.base.value.name !in s.files
    requires am.baseSeq == s.mem.baseSeq + 1
    ensures BaseGone(s)
  {
    GoodAgrees(am);
  }

  // ---------- all runs ----------

  lemma StepIsSafe<C>(s: Server<C>, op: Op<C>)
    requires Inv(s) && Enabled(s, op) && !LosesBase(s, op)
    ensures AllSafe(Points(s, op))
    ensures Inv(After(s, op))
  {
    hide Inv, Restartable, StartPoints, DonePoints, DelPoints;
    match op
    case Feed(c) =>
      FeedKeeps(s, c);
      InvIsSafe(After(s, op));
    case Flush(n) =>
      FlushKeeps(s, n);
      InvIsSafe(After(s, op));
    case StartRewrite(openOk, persist, forkOk) =>
      StartKeeps(s, openOk, persist, forkOk);
    case RewriteDone(childOk, renameOk, rdb, persist, gc, persist2) =>
      DoneKeeps(s, childOk, renameOk, rdb, persist, gc, persist2);
    case DelHistory(persist2) =>
      DelKeeps(s, persist2);
  }

  /** An operation that completes, or one that a crash cuts short at one of its points, after
      which the server restarts from the disk. */
  datatype Event<C> = Do(op: Op<C>) | Crash(op: Op<C>, at: nat)

  predicate CanHappen<C>(s: Server<C>, e: Event<C>) {
    && Enabled(s, e.op)
    && (e.Crash? ==>
          && e.at < |Points(s, e.op)|
          && var p := Points(s, e.op)[e.at];
          Recover(p.files, p.lines).Some? && Load(p.lines).value.incr != [])
  }

  function Next<C>(s: Server<C>, e: Event<C>): Server<C>
    requires CanHappen(s, e)
  {
    match e
    case Do(op) => After(s, op)
    case Crash(op, at) => var p := Points(s, op)[at]; Restart(p.files, p.lines)
  }

  /** Whether a completed losing rewrite is newer than the last manifest that took effect, when
      `lost` says so of the time before. A restart means that the disk was loaded. */
  predicate LostAfter<C>(s: Server<C>, lost: bool, e: Event<C>)
    requires CanHappen(s, e)
  {
    e.Do? && (LosesBase(s, e.op) || (lost && StoredAt(s, e.op) == |Points(s, e.op)|))
  }

  /** A run from `s` to `t`, and whether a loss is pending before and after it. */
  ghost predicate IsRun<C>(s: Server<C>, lost: bool, es: seq<Event<C>>, t: Server<C>, lostNow: bool)
    decreases |es|
  {
    if es == [] then t == s && lostNow == lost
    else CanHappen(s, es[0]) && IsRun(Next(s, es[0]), LostAfter(s, lost, es[0]), es[1..], t, lostNow)
  }

  /** A directory without a manifest, where no command was ever written. */
  predicate CleanDir<C>(files: map<Name, seq<C>>) {
    IncrName(1) in files ==> files[IncrName(1)] == []
  }

  /** First start in a directory without a manifest: a BASE with the loaded data and an empty
      INCR. */
  function FirstStart<C>(files: map<Name, seq<C>>, data: seq<C>, rdb: bool): Server<C> {
    var am := NewIncr(NewBase(Empty, rdb)).(dirty := false);
    Server(am, Lines(am), files[BaseName(1, rdb) := data][IncrName(1) := []], IncrName(1), [], data, None)
  }

  /** The directory at the points of a first start; no lines means no manifest file. The INCR file
      is opened for appending, so what is in it stays. */
  function FirstPoints<C>(files: map<Name, seq<C>>, data: seq<C>, rdb: bool): seq<(map<Name, seq<C>>, seq<Info>)> {
    var based := files[BaseName(1, rdb) := data];
    var both := if IncrName(1) in based then based else based[IncrName(1) := []];
    [(files, []), (based, []), (both, []), (both, Lines(NewIncr(NewBase(Empty, rdb))))]
  }

  /** A crash inside a first start leaves a directory for another first start, or one that
      recovers the data; without a crash it ends in the state of `FirstStart`. */
  lemma FirstStartIsSafe<C>(files: map<Name, seq<C>>, data: seq<C>, rdb: bool)
    requires CleanDir(files)
    ensures forall i :: 0 <= i < 4 ==>
              var p := FirstPoints(files, data, rdb)[i];
              if i < 3 then p.1 == [] && CleanDir(p.0) else Recover(p.0, p.1) == Some(data)
    ensures var s := FirstStart(files, data, rdb); (s.files, s.lines) == FirstPoints(files, data, rdb)[3]
  {
    hide Recover, NewIncr, NewBase;
    var s := FirstStart(files, data, rdb);
    FirstStartInv(files, data, rdb);
    InvIsSafe(s);
    SameLinesAnyway(NewIncr(NewBase(Empty, rdb)));
    assert Recover(s.files, s.lines).value + [] == Recover(s.files, s.lines).value;
    if IncrName(1) in files {
      assert s.files == files[BaseName(1, rdb) := data];
    }
  }

  lemma SameLinesAnyway(am: Manifest)
    ensures Lines(am.(dirty := false)) == Lines(am)
  {
  }

  lemma FirstManifest(rdb: bool)
    ensures var am := NewIncr(NewBase(Empty, rdb)).(dirty := false);
            && GoodManifest(am)
            && Needed(am) == [Info(BaseName(1, rdb), 1, Base)] + [Info(IncrName(1), 1, Incr)]
            && am.incr == [Info(IncrName(1), 1, Incr)]
  {
  }

  lemma FirstStartInv<C>(files: map<Name, seq<C>>, data: seq<C>, rdb: bool)
    ensures var s := FirstStart(files, data, rdb);
            Inv(s) && s.executed == data && s.child.None? && s.buf == []
  {
    hide GoodManifest, NewIncr, NewBase, DiskIs, Needed, Lines;
    var s := FirstStart(files, data, rdb);
    FirstManifest(rdb);
    GoodAgrees(s.mem);
    var b, i := Info(BaseName(1, rdb), 1, Base), Info(IncrName(1), 1, Incr);
    assert Contents(s.files, [b]) == data by {
      assert [b][1..] == [];
      assert data + [] == data;
    }
    ContentsSnoc(s.files, [b], i);
    assert data + [] + [] == data;
    CurrentIsNeeded(s.mem);
  }

  predicate RunInv<C(==)>(s: Server<C>, lost: bool) {
    if lost then Lost(s) else Inv(s)
  }

  lemma NextKeepsInv<C>(s: Server<C>, lost: bool, e: Event<C>)
    requires RunInv(s, lost) && CanHappen(s, e)
    ensures RunInv(Next(s, e), LostAfter(s, lost, e))
  {
    hide Inv, Points, Recover, MemInv, BaseGone, StoredAt, LosesBase;
    if lost {
      LostStep(s, e.op);
      if e.Crash? {
        var p := Points(s, e.op)[e.at];
        assert PointAfterLoss(p, e.at >= StoredAt(s, e.op));
        if e.at < StoredAt(s, e.op) {
          GoneIsNotRecovered(p);
        } else if Inv(p) {
          InvIsSafe(p);
        }
      }
    } else if LosesBase(s, e.op) {
      LosingPoints(s, e.op);
      LossIsLost(s, e.op);
      if e.Crash? {
        assert Restartable(Points(s, e.op)[e.at]);
      }
    } else {
      StepIsSafe(s, e.op);
    }
  }

  lemma {:induction false} RunKeepsInv<C>(s: Server<C>, lost: bool, es: seq<Event<C>>, t: Server<C>, lostNow: bool)
    requires RunInv(s, lost) && IsRun(s, lost, es, t, lostNow)
    ensures RunInv(t, lostNow)
    decreases |es|
  {
    hide RunInv, Next, CanHappen, LostAfter;
    if es != [] {
      NextKeepsInv(s, lost, es[0]);
      RunKeepsInv(Next(s, es[0]), LostAfter(s, lost, es[0]), es[1..], t, lostNow);
    }
  }

  /** In every run with the AOF on, crashes, restarts and failing system calls included, and also
      after a loss: whatever operation comes next and wherever a crash hits it, loading the disk
      gives exactly the executed commands that are not still in the buffer, if and only if no
      completed losing rewrite is newer than the last manifest that took effect. INCR numbers
      increase, and no file that the server needs is gone. */
  lemma RunIsSafeIff<C>(files: map<Name, seq<C>>, data: seq<C>, rdb: bool, es: seq<Event<C>>, t: Server<C>, lost: bool, op: Op<C>, i: nat)
    requires IsRun(FirstStart(files, data, rdb), false, es, t, lost) && Enabled(t, op)
    requires i < |Points(t, op)|
    ensures var p := Points(t, op)[i];
            (Recover(p.files, p.lines).Some? && Recover(p.files, p.lines).value + p.buf == p.executed) <==>
            !(LosesBase(t, op) && i == |Points(t, op)| - 1) && !(lost && i < StoredAt(t, op))
    ensures Increasing(t.mem.incr)
    ensures t.mem.base.Some? && AllExist(t.files, Needed(t.mem))
  {
    hide Points, Recover, DiskIs, Contents, StoredAt, LosesBase, BaseGone, IsRun;
    FirstStartInv(files, data, rdb);
    RunKeepsInv(FirstStart(files, data, rdb), false, es, t, lost);
    PointIsSafeIff(t, lost, op, i);
  }

  lemma PointIsSafeIff<C>(t: Server<C>, lost: bool, op: Op<C>, i: nat)
    requires RunInv(t, lost) && Enabled(t, op) && i < |Points(t, op)|
    ensures CrashSafe(Points(t, op)[i]) <==>
            !(LosesBase(t, op) && i == |Points(t, op)| - 1) && !(lost && i < StoredAt(t, op))
  {
    hide Points, Recover, Inv, MemInv, BaseGone, StoredAt, LosesBase;
    var p := Points(t, op)[i];
    if lost {
      LostStep(t, op);
      assert PointAfterLoss(p, i >= StoredAt(t, op));
      if i < StoredAt(t, op) {
        GoneIsNotRecovered(p);
      } else if Inv(p) {
        InvIsSafe(p);
      }
    } else if LosesBase(t, op) {
      LosingPoints(t, op);
      if i < |Points(t, op)| - 1 {
        assert Restartable(p);
      }
    } else {
      StepIsSafe(t, op);
      assert Restartable(p);
    }
  }

  /** A loss is reached: first start, a rewrite, and its completion with a late error. The disk
      cannot be loaded, and feeding a command does not change that. */
  lemma RunThatLosesBase<C>(files: map<Name, seq<C>>, data: seq<C>, rdb: bool, gc: bool, c: C)
    ensures var s := FirstStart(files, data, rdb);
            var start: Op<C> := StartRewrite(true, Stored, true);
            var done: Op<C> := RewriteDone(true, true, rdb, Late, gc, Stored);
            && CanHappen(s, Do(start)) && Enabled(After(s, start), done)
            && var u := After(After(s, start), done);
            && IsRun(s, false, [Do(start), Do(done)], u, true)
            && u.executed == data && Recover(u.files, u.lines).None?
            && Enabled(u, Feed(c)) && Recover(After(u, Feed(c)).files, After(u, Feed(c)).lines).None?
  {
    hide Recover, FirstStart, Inv, Points, MemInv, BaseGone;
    var s := FirstStart(files, data, rdb);
    var start: Op<C> := StartRewrite(true, Stored, true);
    var done: Op<C> := RewriteDone(true, true, rdb, Late, gc, Stored);
    FirstStartInv(files, data, rdb);
    InvIsEnabled(s);
    RewriteStarted(s);
    StepIsSafe(s, start);
    var t := After(s, start);
    InvIsEnabled(t);
    LosingPoints(t, done);
    LostCommands(t, done);
    LossIsLost(t, done);
    var u := After(t, done);
    LostIsEnabled(u);
    RunOfTwo(s, start, done);
    LostStep(u, Feed(c));
    FedOnce(u, c);
    GoneIsNotRecovered(After(u, Feed(c)));
  }

  lemma FedOnce<C>(u: Server<C>, c: C)
    requires Lost(u) && Enabled(u, Feed(c))
    ensures BaseGone(After(u, Feed(c)))
  {
  }

  lemma RunOfTwo<C>(s: Server<C>, a: Op<C>, b: Op<C>)
    requires Enabled(s, a) && !LosesBase(s, a) && Enabled(After(s, a), b) && LosesBase(After(s, a), b)
    ensures IsRun(s, false, [Do(a), Do(b)], After(After(s, a), b), true)
  {
    hide Points, StoredAt, LosesBase;
    var es := [Do(a), Do(b)];
    assert es[1..] == [Do(b)] && es[1..][1..] == [];
    var t := After(s, a);
    assert IsRun(After(t, b), true, [], After(t, b), true);
    assert IsRun(t, false, es[1..], After(t, b), true);
  }

  lemma LostIsEnabled<C>(s: Server<C>)
    requires Lost(s)
    ensures s.cur in s.files
  {
    CurrentIsNeeded(s.mem);
  }

  lemma InvIsEnabled<C>(s: Server<C>)
    requires Inv(s)
    ensures s.cur in s.files
  {
    CurrentIsNeeded(s.mem);
  }

  lemma RewriteStarted<C>(s: Server<C>)
    requires s.cur in s.files && s.child.None?
    ensures var start: Op<C> := StartRewrite(true, Stored, true);
            After(s, start).child == Some(s.executed) && After(s, start).executed == s.executed
  {
  }

  lemma LostCommands<C>(s: Server<C>, op: Op<C>)
    requires s.cur in s.files && LosesBase(s, op)
    ensures After(s, op).executed == s.executed
  {
  }

  // ---------- where the side conditions are needed ----------

  /** A rewrite that ended well, from any state of a run: its last point is safe if and only if
      the manifest was not reported late. */
  lemma DoneSafeIffNotLate<C>(s: Server<C>, rdb: bool, persist: Persist, gc: bool, persist2: Persist)
    requires Inv(s) && s.child.Some?
    ensures var ps := DonePoints(s, true, true, rdb, persist, gc, persist2);
            CrashSafe(ps[|ps| - 1]) <==> persist != Late
  {
    hide Inv, DonePoints;
    if persist != Late {
      DoneKeeps(s, true, true, rdb, persist, gc, persist2);
    } else {
      InvIsEnabled(s);
      LosingPoints(s, RewriteDone(true, true, rdb, persist, gc, persist2));
    }
  }

  /** A fork with commands still in the buffer: once the rewrite is done, they are in the
      snapshot and would be written again. An empty buffer is exactly what it takes. */
  lemma ForkSafeIffFlushed<C>(s: Server<C>, rdb: bool)
    requires Inv(s) && s.files[s.cur] == []
    ensures var ps := DonePoints(s.(child := Some(s.executed)), true, true, rdb, Stored, false, Stored);
            CrashSafe(ps[|ps| - 1]) <==> s.buf == []
  {
    var f := s.(child := Some(s.executed));
    var am := MarkRewritten(NewBase(s.mem, rdb));
    RewrittenIsGood(s.mem, rdb);
    GoodAgrees(am);
    var name := BaseName(am.baseSeq, rdb);
    var files := s.files[name := s.executed];
    var b, i := am.base.value, am.incr[0];
    assert Needed(am) == [b] + [i];
    assert Contents(files, [b]) == s.executed by {
      assert [b][1..] == [];
      assert s.executed + [] == s.executed;
    }
    assert i.name == s.cur && s.cur.IncrName?;
    ContentsSnoc(files, [b], i);
    assert Recover(files, Lines(am)) == Some(s.executed);
    assert |s.executed + s.buf| == |s.executed| + |s.buf|;
    if s.buf == [] {
      assert s.executed + s.buf == s.executed;
    }
  }
}

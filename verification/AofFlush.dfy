/**
 Writing the append-only buffer to its file: retried writes, short writes, a truncation that
 may or may not undo them, and the fsync bookkeeping. `RunConserves` says that over every run
 of feeds and flushes no byte is lost, doubled or moved, as long as the descriptor appends;
 `PlainRunConservesIff` says exactly when that holds of one that does not.
 */
module AofFlush {
  import opened AofFeed
  import opened AofLog

  // ---------- a file behind a descriptor ----------

  /** `pos` is the descriptor's offset; it only matters without O_APPEND. */
  datatype File = File(bytes: seq<byte>, pos: nat, append: bool)

  function Zeros(n: nat): (r: seq<byte>)
    ensures |r| == n && forall i :: 0 <= i < n ==> r[i] == 0
  {
    seq(n, _ => 0 as byte)
  }

  /** write(2): at the end when appending, else at the offset, a gap being filled with zeros. A
      write of no bytes does nothing. */
  function WriteAt(f: File, data: seq<byte>): File {
    if data == [] then f
    else
      var start := if f.append then |f.bytes| else f.pos;
      var front := if start <= |f.bytes| then f.bytes[..start] else f.bytes + Zeros(start - |f.bytes|);
      var end := start + |data|;
      f.(bytes := front + data + (if end < |f.bytes| then f.bytes[end..] else []), pos := end)
  }

  /** ftruncate(2): the offset stays where it is. */
  function Truncate(f: File, size: nat): File {
    f.(bytes := if size <= |f.bytes| then f.bytes[..size] else f.bytes + Zeros(size - |f.bytes|))
  }

  // ---------- aofWrite ----------

  datatype WriteResult = Wrote(n: nat) | Interrupted | Error

  function Min(a: nat, b: nat): nat {
    if a < b then a else b
  }

  /** The writes that a script of system call results produces; when the script ends, the rest
      is written at once. The count is -1 when an error comes first. */
  function WriteAll(f: File, data: seq<byte>, script: seq<WriteResult>, total: nat): (File, int)
    decreases |script|
  {
    if data == [] then (f, total)
    else if script == [] then (WriteAt(f, data), total + |data|)
    else match script[0]
      case Interrupted => WriteAll(f, data, script[1..], total)
      case Error => (f, if total > 0 then total else -1)
      case Wrote(n) =>
        var k := Min(n, |data|);
        WriteAll(WriteAt(f, data[..k]), data[k..], script[1..], total + k)
  }

  method AofWrite(f: File, data: seq<byte>, script: seq<WriteResult>) returns (g: File, ret: int)
    ensures (g, ret) == WriteAll(f, data, script, 0)
  {
    g := f;
    var rest := data;
    var left := script;
    var total: nat := 0;
    while |rest| > 0
      invariant WriteAll(f, data, script, 0) == WriteAll(g, rest, left, total)
      decreases |left|, |rest|
    {
      if left == [] {
        var n := |rest|;
        g := WriteAt(g, rest);
        rest := [];
        return g, total + n;
      }
      var r := left[0];
      left := left[1..];
      if r == Interrupted {
        continue;
      }
      if r == Error {
        return g, if total > 0 then total else -1;
      }
      var k := Min(r.n, |rest|);
      g := WriteAt(g, rest[..k]);
      rest := rest[k..];
      total := total + k;
    }
    ret := total;
  }

  // ---------- flushAppendOnlyFile ----------

  datatype Policy = Always | EverySec | No

  /** What a flush finds in its surroundings. */
  datatype Env = Env(
    script: seq<WriteResult>,
    truncateOk: bool,
    fsyncOk: bool,
    fsyncInProgress: bool,
    now: int,
    policy: Policy,
    skipFsync: bool)

  datatype Log = Log(
    file: File,
    buf: seq<byte>,
    incrSize: nat,
    fsyncOffset: nat,
    lastFsync: int,
    postponedStart: int,
    writeOk: bool,
    exited: bool)

  function TryFsync(s: Log, e: Env, busy: bool): Log {
    if e.skipFsync then s
    else if e.policy == Always then
      if !e.fsyncOk then s.(exited := true) else s.(fsyncOffset := s.incrSize, lastFsync := e.now)
    else if e.policy == EverySec && e.now - s.lastFsync >= 1000 then
      s.(fsyncOffset := if busy then s.fsyncOffset else s.incrSize, lastFsync := e.now)
    else s
  }

  /** After the write: n bytes were written, or -1. */
  function AfterWrite(s: Log, n: int, e: Env, busy: bool): Log
    requires -1 <= n <= |s.buf|
  {
    if n == |s.buf| then TryFsync(s.(writeOk := true, incrSize := s.incrSize + |s.buf|, buf := []), e, busy)
    else
      var undone := n >= 0 && e.truncateOk;
      var s1 := if undone then s.(file := Truncate(s.file, s.incrSize)) else s;
      if e.policy == Always then s1.(exited := true)
      else if n > 0 && !undone then s1.(writeOk := false, incrSize := s.incrSize + n, buf := s.buf[n..])
      else s1.(writeOk := false)
  }

  /** Whether a flush of a non-empty buffer is put off because an fsync is running. */
  predicate Postpones(s: Log, force: bool, e: Env) {
    e.policy == EverySec && !force && e.fsyncInProgress &&
    (s.postponedStart == 0 || e.now - s.postponedStart < 2000)
  }

  function Flush(s: Log, force: bool, e: Env): Log {
    if s.buf == [] then
      if s.fsyncOffset == s.incrSize then s
      else if (e.policy == EverySec && e.now - s.lastFsync >= 1000 && !e.fsyncInProgress) || e.policy == Always then
        TryFsync(s, e, false)
      else s
    else if Postpones(s, force, e) then
      s.(postponedStart := if s.postponedStart == 0 then e.now else s.postponedStart)
    else
      var (f, n) := WriteAll(s.file, s.buf, e.script, 0);
      WriteAllCount(s.file, s.buf, e.script, 0);
      AfterWrite(s.(file := f, postponedStart := 0), n, e, e.policy == EverySec && e.fsyncInProgress)
  }

  lemma {:induction false} WriteAllCount(f: File, data: seq<byte>, script: seq<WriteResult>, total: nat)
    ensures var n := WriteAll(f, data, script, total).1;
            && -1 <= n <= total + |data| && (n == -1 ==> total == 0) && (n != -1 ==> n >= total)
            && (data != [] ==> n != 0)
    decreases |script|
  {
    if data != [] && script != [] {
      match script[0]
      case Interrupted => WriteAllCount(f, data, script[1..], total);
      case Error =>
      case Wrote(n) =>
        var k := Min(n, |data|);
        WriteAllCount(WriteAt(f, data[..k]), data[k..], script[1..], total + k);
    }
  }

  class AofFile {
    var log: Log
    var selectedDb: int

    /** Nothing counts as selected in a file that was just opened. */
    constructor (file: File)
      ensures selectedDb == -1
      ensures log == Log(file, [], |file.bytes|, |file.bytes|, 0, 0, true, false)
    {
      log := Log(file, [], |file.bytes|, |file.bytes|, 0, 0, true, false);
      selectedDb := -1;
    }

    /** `stamp` is the timestamp line, or nothing. */
    method FeedAppendOnlyFile(dictid: int, cmd: Command, stamp: seq<byte>)
      requires -1 <= dictid
      modifies this
      ensures log == old(log).(buf := old(log).buf + stamp + EncodeAll(FeedOne(old(selectedDb), Fed(dictid, cmd))))
      ensures selectedDb == SelectedAfter(old(selectedDb), dictid)
    {
      var buf := stamp;
      if dictid != -1 && dictid != selectedDb {
        var seldb := Decimal(dictid);
        SelectText(dictid);
        EncodeAllOne(SelectCommand(dictid));
        EncodeAllConcat([SelectCommand(dictid)], [cmd]);
        buf := buf + SelectBytes(seldb);
        selectedDb := dictid;
      } else {
        EncodeAllConcat([], [cmd]);
      }
      EncodeAllOne(cmd);
      buf := buf + Encode(cmd);
      log := log.(buf := log.buf + buf);
    }

    method FlushAppendOnlyFile(force: bool, e: Env)
      modifies this`log
      ensures log == Flush(old(log), force, e)
    {
      var busy := false;
      if |log.buf| == 0 {
        if log.fsyncOffset != log.incrSize {
          if e.policy == EverySec && e.now - log.lastFsync >= 1000 && !e.fsyncInProgress {
            DoFsync(e, false);
          } else if e.policy == Always {
            DoFsync(e, false);
          }
        }
        return;
      }
      if e.policy == EverySec {
        busy := e.fsyncInProgress;
      }
      if e.policy == EverySec && !force {
        if busy {
          if log.postponedStart == 0 {
            log := log.(postponedStart := e.now);
            return;
          } else if e.now - log.postponedStart < 2000 {
            return;
          }
        }
      }
      WriteAllCount(log.file, log.buf, e.script, 0);
      var f, n := AofWrite(log.file, log.buf, e.script);
      log := log.(file := f, postponedStart := 0);
      HandleWritten(n, e, busy);
    }

    /** What follows the write: undo or keep a short one, or clear the buffer and fsync. */
    method HandleWritten(written: int, e: Env, busy: bool)
      requires -1 <= written <= |log.buf|
      modifies this`log
      ensures log == AfterWrite(old(log), written, e, busy)
    {
      var n := written;
      if n != |log.buf| {
        if n != -1 && e.truncateOk {
          log := log.(file := Truncate(log.file, log.incrSize));
          n := -1;
        }
        if e.policy == Always {
          log := log.(exited := true);
          return;
        }
        log := log.(writeOk := false);
        if n > 0 {
          log := log.(incrSize := log.incrSize + n, buf := log.buf[n..]);
        }
        return;
      }
      log := log.(writeOk := true, incrSize := log.incrSize + n, buf := []);
      DoFsync(e, busy);
    }

    method DoFsync(e: Env, busy: bool)
      modifies this`log
      ensures log == TryFsync(old(log), e, busy)
    {
      if e.skipFsync {
        return;
      }
      if e.policy == Always {
        if !e.fsyncOk {
          log := log.(exited := true);
          return;
        }
        log := log.(fsyncOffset := log.incrSize, lastFsync := e.now);
      } else if e.policy == EverySec && e.now - log.lastFsync >= 1000 {
        if !busy {
          log := log.(fsyncOffset := log.incrSize);
        }
        log := log.(lastFsync := e.now);
      }
    }
  }

  // ---------- conservation ----------

  /** File bytes followed by the buffer are all bytes fed; the recorded size is the file's. */
  predicate Conserves(s: Log, fed: seq<byte>) {
    s.file.bytes + s.buf == fed && s.incrSize == |s.file.bytes| && s.fsyncOffset <= s.incrSize
  }

  /** Writes land at the end of the file. */
  predicate AtEnd(f: File) {
    f.append || f.pos == |f.bytes|
  }

  lemma WriteAtEnd(f: File, data: seq<byte>)
    requires AtEnd(f)
    ensures WriteAt(f, data).bytes == f.bytes + data && AtEnd(WriteAt(f, data))
    ensures WriteAt(f, data).append == f.append
  {
  }

  lemma {:induction false} WriteAllAtEnd(f: File, data: seq<byte>, script: seq<WriteResult>, total: nat)
    requires AtEnd(f)
    ensures var (g, n) := WriteAll(f, data, script, total);
            && AtEnd(g) && g.append == f.append
            && (n == -1 ==> g.bytes == f.bytes)
            && (n != -1 ==> total <= n <= total + |data| && g.bytes == f.bytes + data[..n - total])
    decreases |script|
  {
    hide AtEnd, WriteAt;
    WriteAllCount(f, data, script, total);
    if data == [] {
      assert f.bytes + data == f.bytes;
    } else if script == [] {
      WriteAtEnd(f, data);
    } else {
      match script[0]
      case Interrupted => WriteAllAtEnd(f, data, script[1..], total);
      case Error =>
        assert f.bytes + data[..0] == f.bytes;
      case Wrote(k0) =>
        var k := Min(k0, |data|);
        WriteAtEnd(f, data[..k]);
        var f' := WriteAt(f, data[..k]);
        WriteAllAtEnd(f', data[k..], script[1..], total + k);
        var (g, n) := WriteAll(f', data[k..], script[1..], total + k);
        WriteAllCount(f', data[k..], script[1..], total + k);
        if n == -1 {
          assert f.bytes + data[..0] == f.bytes;
        } else {
          assert data[..n - total] == data[..k] + data[k..][..n - total - k];
        }
    }
  }

  lemma FsyncConserves(s: Log, e: Env, busy: bool, fed: seq<byte>)
    requires Conserves(s, fed)
    ensures Conserves(TryFsync(s, e, busy), fed)
  {
  }

  /** Bytes reach the file in order and stay there. */
  ghost predicate Progress(s: Log, t: Log, fed: seq<byte>) {
    && t.file.append == s.file.append
    && s.file.bytes <= t.file.bytes <= fed
    && (!t.exited ==> Conserves(t, fed))
  }

  lemma WrittenConserves(s: Log, f: File, n: int, e: Env, busy: bool, fed: seq<byte>)
    requires Conserves(s, fed) && s.buf != [] && f.append == s.file.append && AtEnd(f)
    requires -1 <= n <= |s.buf|
    requires f.bytes == s.file.bytes + s.buf[..if n == -1 then 0 else n]
    ensures var t := AfterWrite(s.(file := f), n, e, busy);
            && Progress(s, t, fed)
            && (!s.file.append && !t.exited ==> (AtEnd(t.file) <==> !(0 < n < |s.buf| && e.truncateOk)))
  {
    var s1 := s.(file := f);
    if n == |s.buf| {
      assert s.buf[..n] == s.buf;
      FsyncConserves(s1.(writeOk := true, incrSize := s.incrSize + n, buf := []), e, busy, fed);
    } else {
      var k := if n == -1 then 0 else n;
      assert s.buf == s.buf[..k] + s.buf[k..];
      assert f.bytes[..s.incrSize] == s.file.bytes;
      assert fed == (s.file.bytes + s.buf[..k]) + s.buf[k..];
    }
  }

  /** One flush, from a state whose writes land at the end of the file. Without O_APPEND it
      also says when they stop doing so: after a short write that ftruncate undid. */
  lemma FlushConserves(s: Log, force: bool, e: Env, fed: seq<byte>)
    requires Conserves(s, fed) && AtEnd(s.file)
    ensures var t := Flush(s, force, e);
            && (!s.exited ==> Progress(s, t, fed))
            && (!s.file.append && !t.exited ==> (AtEnd(t.file) <==> !UndoesShortWrite(s, force, e)))
  {
    if s.buf == [] {
      FsyncConserves(s, e, false, fed);
    } else if !Postpones(s, force, e) {
      WriteAllCount(s.file, s.buf, e.script, 0);
      WriteAllAtEnd(s.file, s.buf, e.script, 0);
      var (f, n) := WriteAll(s.file, s.buf, e.script, 0);
      assert s.file.bytes + s.buf[..0] == s.file.bytes;
      WrittenConserves(s.(postponedStart := 0), f, n, e, e.policy == EverySec && e.fsyncInProgress, fed);
    }
  }

  /** A write that stopped after some of the buffer, and was then cut off the file again. */
  predicate UndoesShortWrite(s: Log, force: bool, e: Env) {
    s.buf != [] && !Postpones(s, force, e) && e.truncateOk &&
    0 < WriteAll(s.file, s.buf, e.script, 0).1 < |s.buf|
  }

  // ---------- all runs ----------

  datatype Event = Feed(data: seq<byte>) | FlushNow(force: bool, env: Env)

  function Step(s: Log, ev: Event): Log {
    match ev
    case Feed(d) => s.(buf := s.buf + d)
    case FlushNow(force, e) => Flush(s, force, e)
  }

  function Fed(evs: seq<Event>): seq<byte> {
    if evs == [] then [] else (if evs[0].Feed? then evs[0].data else []) + Fed(evs[1..])
  }

  /** The run stops where the server exits. */
  function Run(s: Log, evs: seq<Event>): Log
    decreases |evs|
  {
    if evs == [] || s.exited then s else Run(Step(s, evs[0]), evs[1..])
  }

  /** Opened on a file that holds `bytes` already. */
  function OpenAppend(bytes: seq<byte>): Log {
    Log(File(bytes, 0, true), [], |bytes|, |bytes|, 0, 0, true, false)
  }

  lemma {:induction false} RunKeeps(s: Log, evs: seq<Event>, fed: seq<byte>)
    requires Conserves(s, fed) && s.file.append && !s.exited
    ensures var t := Run(s, evs);
            && s.file.bytes <= t.file.bytes <= fed + Fed(evs)
            && (!t.exited ==> Conserves(t, fed + Fed(evs)))
    decreases |evs|
  {
    if evs == [] {
      assert fed + Fed(evs) == fed;
    } else {
      var t := Step(s, evs[0]);
      var fed' := fed + (if evs[0].Feed? then evs[0].data else []);
      assert fed' + Fed(evs[1..]) == fed + Fed(evs);
      if evs[0].Feed? {
        assert s.file.bytes + (s.buf + evs[0].data) == fed';
      } else {
        assert fed' == fed;
        FlushConserves(s, evs[0].force, evs[0].env, fed);
      }
      if !t.exited {
        RunKeeps(t, evs[1..], fed');
      }
    }
  }

  /** Over every run of feeds and flushes in append mode, for every pattern of short writes,
      interrupts, errors and truncation outcomes: file and buffer together hold every byte fed,
      the recorded size is the file's length, the fsync offset does not pass it. If the server
      had to exit, the file still holds a prefix of what was fed. */
  lemma RunConserves(bytes: seq<byte>, evs: seq<Event>)
    ensures var t := Run(OpenAppend(bytes), evs);
            && bytes <= t.file.bytes <= bytes + Fed(evs)
            && (!t.exited ==>
                  && t.file.bytes + t.buf == bytes + Fed(evs)
                  && t.incrSize == |t.file.bytes|
                  && t.fsyncOffset <= t.incrSize)
  {
    assert bytes + [] == bytes;
    RunKeeps(OpenAppend(bytes), evs, bytes);
  }

  // ---------- without O_APPEND ----------

  /** Writing past the end of the file: the gap becomes zeros as soon as a byte is written. */
  lemma {:induction false} WriteAllBehind(f: File, data: seq<byte>, script: seq<WriteResult>, total: nat)
    requires !f.append && |f.bytes| < f.pos
    ensures var (g, n) := WriteAll(f, data, script, total);
            var m := if n == -1 then 0 else n - total;
            && 0 <= m <= |data| && !g.append && g.pos == f.pos + m
            && g.bytes == if m == 0 then f.bytes else f.bytes + Zeros(f.pos - |f.bytes|) + data[..m]
    decreases |script|
  {
    WriteAllCount(f, data, script, total);
    if data != [] {
      if script == [] {
        assert data[..|data|] == data;
      } else {
        match script[0]
        case Interrupted => WriteAllBehind(f, data, script[1..], total);
        case Error =>
        case Wrote(k0) =>
          var k := Min(k0, |data|);
          if k == 0 {
            assert data[..0] == [] && data[0..] == data;
            WriteAllBehind(f, data, script[1..], total);
          } else {
            FirstWriteBehind(f, data, script, total, k);
          }
      }
    }
  }

  lemma FirstWriteBehind(f: File, data: seq<byte>, script: seq<WriteResult>, total: nat, k: nat)
    requires !f.append && |f.bytes| < f.pos && 0 < k <= |data|
    requires script != [] && script[0].Wrote? && k == Min(script[0].n, |data|)
    ensures var (g, n) := WriteAll(f, data, script, total);
            && n != -1 && 0 < n - total <= |data| && !g.append && g.pos == f.pos + (n - total)
            && g.bytes == f.bytes + Zeros(f.pos - |f.bytes|) + data[..n - total]
  {
    hide WriteAt;
    var f' := WriteAt(f, data[..k]);
    WroteBehind(f, data[..k]);
    WriteAllAtEnd(f', data[k..], script[1..], total + k);
    WriteAllCount(f', data[k..], script[1..], total + k);
    var (g, n) := WriteAll(f', data[k..], script[1..], total + k);
    assert data[..n - total] == data[..k] + data[k..][..n - total - k];
    var front := f.bytes + Zeros(f.pos - |f.bytes|);
    assert front + data[..k] + data[k..][..n - total - k] == front + (data[..k] + data[k..][..n - total - k]);
  }

  lemma WroteBehind(f: File, data: seq<byte>)
    requires !f.append && |f.bytes| < f.pos && data != []
    ensures var g := WriteAt(f, data);
            g.bytes == f.bytes + Zeros(f.pos - |f.bytes|) + data && g.pos == f.pos + |data| == |g.bytes| && !g.append && AtEnd(g)
  {
  }

  /** The flush writes some bytes and leaves them in the file. */
  predicate KeepsBytes(s: Log, force: bool, e: Env) {
    var n := WriteAll(s.file, s.buf, e.script, 0).1;
    s.buf != [] && !Postpones(s, force, e) && 0 < n && !(n < |s.buf| && e.truncateOk)
  }

  /** A flush once the offset has passed the end of the file, for every pattern of results, every
      policy and with or without force: it conserves the bytes if and only if it keeps none. */
  lemma FlushBehindConservesIff(s: Log, force: bool, e: Env, fed: seq<byte>)
    requires Conserves(s, fed) && !s.file.append && |s.file.bytes| < s.file.pos
    ensures var t := Flush(s, force, e);
            && !t.file.append
            && (!t.exited ==> (Conserves(t, fed) <==> !KeepsBytes(s, force, e)))
            && (!KeepsBytes(s, force, e) ==> t.file.bytes == s.file.bytes && |t.file.bytes| < t.file.pos)
            && (KeepsBytes(s, force, e) ==>
                  && |s.file.bytes| < t.file.pos == |t.file.bytes| && t.file.bytes[|s.file.bytes|] == 0
                  && (!t.exited ==> |s.file.bytes| < t.incrSize <= |t.file.bytes|))
  {
    if s.buf == [] {
      FsyncConserves(s, e, false, fed);
    } else if !Postpones(s, force, e) {
      var (f, n) := WriteAll(s.file, s.buf, e.script, 0);
      WriteAllCount(s.file, s.buf, e.script, 0);
      WriteAllBehind(s.file, s.buf, e.script, 0);
      var busy := e.policy == EverySec && e.fsyncInProgress;
      assert |fed| == |s.file.bytes| + |s.buf|;
      AfterBehind(s.(file := f, postponedStart := 0), s.file.bytes, n, e, busy);
    }
  }

  /** What the handling of the write leaves of the file and of the recorded sizes. */
  lemma AfterBehind(s: Log, bytes: seq<byte>, n: int, e: Env, busy: bool)
    requires -1 <= n <= |s.buf| && s.buf != [] && n != 0 && s.incrSize == |bytes| <= |s.file.bytes|
    requires bytes == s.file.bytes[..|bytes|] && (n == -1 ==> bytes == s.file.bytes)
    ensures var t := AfterWrite(s, n, e, busy);
            var kept := 0 < n && !(n < |s.buf| && e.truncateOk);
            && t.file == (if kept then s.file else s.file.(bytes := bytes))
            && (kept && !t.exited ==> t.incrSize == |bytes| + n && t.buf == s.buf[n..])
            && (!kept ==> t.incrSize == s.incrSize && t.buf == s.buf && t.fsyncOffset == s.fsyncOffset)
  {
    if n == |s.buf| {
      assert s.buf[n..] == [];
    }
  }

  /** The whole state is right after every event of the run, up to an exit. */
  ghost predicate ConservesThroughout(s: Log, evs: seq<Event>, fed: seq<byte>)
    decreases |evs|
  {
    && (!s.exited ==> Conserves(s, fed))
    && (evs != [] && !s.exited ==>
          ConservesThroughout(Step(s, evs[0]), evs[1..], fed + (if evs[0].Feed? then evs[0].data else [])))
  }

  /** After a short write was undone, some later flush keeps bytes, and the server goes on.
      `undone` says whether a short write was undone before. */
  predicate KeepsAfterUndoing(s: Log, evs: seq<Event>, undone: bool)
    decreases |evs|
  {
    if evs == [] || s.exited then false
    else if evs[0].Feed? then KeepsAfterUndoing(Step(s, evs[0]), evs[1..], undone)
    else
      var t := Step(s, evs[0]);
      (undone && KeepsBytes(s, evs[0].force, evs[0].env) && !t.exited) ||
      KeepsAfterUndoing(t, evs[1..], undone || UndoesShortWrite(s, evs[0].force, evs[0].env))
  }

  /** Opened by openNewIncrAofForAppend: truncated, without O_APPEND. */
  function OpenPlain(): Log {
    Log(File([], 0, false), [], 0, 0, 0, 0, true, false)
  }

  /** While nothing is lost, the offset is past the end exactly after an undone short write. */
  predicate Tracks(s: Log, undone: bool) {
    !s.file.append && (if undone then |s.file.bytes| < s.file.pos else s.file.pos == |s.file.bytes|)
  }

  lemma {:induction false} PlainRunFrom(s: Log, evs: seq<Event>, fed: seq<byte>, undone: bool)
    requires Conserves(s, fed) && Tracks(s, undone) && !s.exited
    ensures ConservesThroughout(s, evs, fed) <==> !KeepsAfterUndoing(s, evs, undone)
    decreases |evs|
  {
    hide Conserves, Flush, KeepsBytes, UndoesShortWrite;
    if evs != [] {
      var t := Step(s, evs[0]);
      if evs[0].Feed? {
        FeedConserves(s, evs[0].data, fed);
        PlainRunFrom(t, evs[1..], fed + evs[0].data, undone);
      } else {
        var undone' := undone || UndoesShortWrite(s, evs[0].force, evs[0].env);
        PlainFlush(s, evs[0].force, evs[0].env, fed, undone);
        assert fed + [] == fed;
        if !t.exited && Conserves(t, fed) {
          PlainRunFrom(t, evs[1..], fed, undone');
        }
      }
    }
  }

  lemma FeedConserves(s: Log, data: seq<byte>, fed: seq<byte>)
    requires Conserves(s, fed)
    ensures Conserves(s.(buf := s.buf + data), fed + data)
  {
    assert s.file.bytes + (s.buf + data) == fed + data;
  }

  /** One flush of a descriptor without O_APPEND, at the end of the file or past it. */
  lemma PlainFlush(s: Log, force: bool, e: Env, fed: seq<byte>, undone: bool)
    requires Conserves(s, fed) && Tracks(s, undone) && !s.exited
    ensures var t := Flush(s, force, e);
            && (!t.exited ==> (Conserves(t, fed) <==> !(undone && KeepsBytes(s, force, e))))
            && (!t.exited && Conserves(t, fed) ==> Tracks(t, undone || UndoesShortWrite(s, force, e)))
  {
    if undone {
      FlushBehindConservesIff(s, force, e, fed);
    } else {
      FlushConserves(s, force, e, fed);
      if s.buf != [] && !Postpones(s, force, e) {
        PastTheEnd(s, force, e, fed);
      }
    }
  }

  /** The undone write leaves the offset behind, past the end. */
  lemma PastTheEnd(s: Log, force: bool, e: Env, fed: seq<byte>)
    requires Conserves(s, fed) && !s.file.append && AtEnd(s.file) && s.buf != [] && !Postpones(s, force, e)
    ensures UndoesShortWrite(s, force, e) ==> |Flush(s, force, e).file.bytes| < Flush(s, force, e).file.pos
  {
    WriteAllCount(s.file, s.buf, e.script, 0);
    WriteAllAtEnd(s.file, s.buf, e.script, 0);
  }

  /** Over every run on a descriptor without O_APPEND, for every pattern of results and every
      policy: every state conserves the bytes fed if and only if no flush keeps bytes after a
      short write was undone. */
  lemma PlainRunConservesIff(evs: seq<Event>)
    ensures ConservesThroughout(OpenPlain(), evs, []) <==> !KeepsAfterUndoing(OpenPlain(), evs, false)
  {
    PlainRunFrom(OpenPlain(), evs, [], false);
  }

  /** A zero stands where a byte that was fed should be, below the recorded size. */
  predicate Holed(s: Log, p: nat) {
    !s.file.append && p < s.incrSize <= |s.file.bytes| <= s.file.pos && s.file.bytes[p] == 0
  }

  lemma {:induction false} WriteAllKeeps(f: File, data: seq<byte>, script: seq<WriteResult>, total: nat)
    requires !f.append && |f.bytes| <= f.pos
    ensures var (g, n) := WriteAll(f, data, script, total);
            && f.bytes <= g.bytes && !g.append && |g.bytes| <= g.pos
            && (n != -1 ==> |f.bytes| + n - total <= |g.bytes|)
  {
    if f.pos == |f.bytes| {
      WriteAllAtEnd(f, data, script, total);
    } else {
      WriteAllBehind(f, data, script, total);
    }
  }

  lemma HoleStays(s: Log, ev: Event, p: nat)
    requires Holed(s, p) && !s.exited
    ensures !Step(s, ev).exited ==> Holed(Step(s, ev), p)
  {
    if ev.FlushNow? && s.buf != [] && !Postpones(s, ev.force, ev.env) {
      WriteAllCount(s.file, s.buf, ev.env.script, 0);
      WriteAllKeeps(s.file, s.buf, ev.env.script, 0);
      var f := WriteAll(s.file, s.buf, ev.env.script, 0).0;
      assert f.bytes[p] == s.file.bytes[p];
    }
  }

  lemma {:induction false} HoleRemains(s: Log, evs: seq<Event>, p: nat)
    requires Holed(s, p) && !s.exited
    ensures var t := Run(s, evs); !t.exited ==> Holed(t, p)
    decreases |evs|
  {
    if evs != [] {
      HoleStays(s, evs[0], p);
      if !Step(s, evs[0]).exited {
        HoleRemains(Step(s, evs[0]), evs[1..], p);
      }
    }
  }

  predicate NoZeros(data: seq<byte>) {
    forall i :: 0 <= i < |data| ==> data[i] != 0
  }

  lemma {:induction false} PlainRunEnds(s: Log, evs: seq<Event>, fed: seq<byte>, undone: bool)
    requires Conserves(s, fed) && Tracks(s, undone) && !s.exited && NoZeros(fed + Fed(evs))
    ensures var t := Run(s, evs);
            !t.exited ==> (Conserves(t, fed + Fed(evs)) <==> !KeepsAfterUndoing(s, evs, undone))
    decreases |evs|
  {
    hide Flush, KeepsBytes, UndoesShortWrite;
    if evs == [] {
      assert fed + Fed(evs) == fed;
    } else {
      var t := Step(s, evs[0]);
      var fed' := fed + (if evs[0].Feed? then evs[0].data else []);
      assert fed' + Fed(evs[1..]) == fed + Fed(evs);
      if evs[0].Feed? {
        FeedConserves(s, evs[0].data, fed);
        PlainRunEnds(t, evs[1..], fed', undone);
      } else {
        PlainFlush(s, evs[0].force, evs[0].env, fed, undone);
        assert fed' == fed;
        if !t.exited {
          if undone && KeepsBytes(s, evs[0].force, evs[0].env) {
            LostForGood(s, evs, fed);
          } else {
            PlainRunEnds(t, evs[1..], fed, undone || UndoesShortWrite(s, evs[0].force, evs[0].env));
          }
        }
      }
    }
  }

  lemma LostForGood(s: Log, evs: seq<Event>, fed: seq<byte>)
    requires Conserves(s, fed) && Tracks(s, true) && !s.exited && NoZeros(fed + Fed(evs))
    requires evs != [] && evs[0].FlushNow? && KeepsBytes(s, evs[0].force, evs[0].env) && !Step(s, evs[0]).exited
    ensures var t := Run(s, evs); !t.exited ==> !Conserves(t, fed + Fed(evs))
  {
    hide Flush, KeepsBytes;
    var p := |s.file.bytes|;
    FlushBehindConservesIff(s, evs[0].force, evs[0].env, fed);
    HoleRemains(Step(s, evs[0]), evs[1..], p);
    var t := Run(Step(s, evs[0]), evs[1..]);
    assert Run(s, evs) == t;
    if !t.exited {
      assert (t.file.bytes + t.buf)[p] == 0;
    }
  }

  /** What is lost stays lost: when no zero byte is fed, the state at the end of a run that does
      not exit conserves the bytes if and only if no flush kept bytes after an undone one. */
  lemma PlainRunEndsRightIff(evs: seq<Event>)
    requires NoZeros(Fed(evs))
    ensures var t := Run(OpenPlain(), evs);
            !t.exited ==> (Conserves(t, Fed(evs)) <==> !KeepsAfterUndoing(OpenPlain(), evs, false))
  {
    assert [] + Fed(evs) == Fed(evs);
    PlainRunEnds(OpenPlain(), evs, [], false);
  }

  const SHORT := Env([Wrote(1), Error], true, true, false, 0, No, false)
  const FULL := SHORT.(script := [])
  const TWO: seq<byte> := [42, 43]

  lemma ShortWriteUndone(s: Log)
    requires s == OpenPlain().(buf := TWO)
    ensures Flush(s, true, SHORT) == s.(file := File([], 1, false), writeOk := false)
  {
    var f := File([42], 1, false);
    assert TWO[..1] == [42] && TWO[1..] == [43] && SHORT.script[1..] == [Error];
    assert WriteAt(s.file, [42]) == f by {
      assert [] + [42 as byte] + [] == [42];
    }
    assert WriteAll(f, [43], [Error], 1) == (f, 1);
    assert WriteAll(s.file, TWO, SHORT.script, 0) == WriteAll(f, [43], [Error], 1);
    assert [42 as byte][..0] == [];
  }

  lemma ThenWrittenPastTheEnd(s: Log)
    requires s == OpenPlain().(buf := TWO, file := File([], 1, false), writeOk := false)
    ensures Flush(s, true, FULL) == s.(file := File([0, 42, 43], 3, false), writeOk := true, incrSize := 2, buf := [])
  {
    assert WriteAt(s.file, TWO).bytes == [0, 42, 43];
    assert WriteAll(s.file, TWO, [], 0) == (WriteAt(s.file, TWO), 2);
  }

  /** One byte of two is written and cut off again; then both are written: the file starts with
      a zero, and the recorded size is short by one. */
  lemma PlainRunThatLoses()
    ensures var t := Run(OpenPlain(), [Feed(TWO), FlushNow(true, SHORT), FlushNow(true, FULL)]);
            t.file.bytes == [0, 42, 43] && t.buf == [] && t.incrSize == 2 && !t.exited && !Conserves(t, TWO)
  {
    hide Flush;
    var a, b, c := Feed(TWO), FlushNow(true, SHORT), FlushNow(true, FULL);
    var s1 := OpenPlain().(buf := TWO);
    assert [] + TWO == TWO;
    ShortWriteUndone(s1);
    var s2 := Step(s1, b);
    ThenWrittenPastTheEnd(s2);
    var s3 := Step(s2, c);
    assert [a, b, c][1..] == [b, c] && [b, c][1..] == [c] && [c][1..] == [];
    assert Run(s2, [c]) == Run(s3, []) == s3;
    assert Run(s1, [b, c]) == Run(s2, [c]);
    assert Run(OpenPlain(), [a, b, c]) == Run(s1, [b, c]);
  }
}

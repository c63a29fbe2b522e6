/**
 The manifest code of the server in its own form: fields updated in place, loops over the
 INCR and HISTORY lists, one recorded state per system call that changes the disk. Every
 method is proved against the lists of crash points of `AofManifest`.
 */
module AofServer {
  import opened Common
  import opened AofManifest

  /** The loader's loop over the manifest lines. */
  method LoadManifest(lines: seq<Info>) returns (r: Option<Manifest>)
    ensures r == Load(lines)
  {
    if lines == [] {
      return None;
    }
    var am := Empty;
    var maxSeq := 0;
    var i := 0;
    while i < |lines|
      invariant 0 <= i <= |lines|
      invariant maxSeq == MaxSeq(am)
      invariant LoadFrom(Empty, lines) == LoadFrom(am, lines[i..])
    {
      var ai := lines[i];
      assert lines[i..][0] == ai && lines[i..][1..] == lines[i + 1..];
      if ai.seqno == 0 {
        return None;
      }
      match ai.kind {
        case Base =>
          if am.base.Some? {
            return None;
          }
          am := am.(base := Some(ai), baseSeq := ai.seqno);
        case Hist =>
          am := am.(history := am.history + [ai]);
        case Incr =>
          if ai.seqno <= maxSeq {
            return None;
          }
          am := am.(incr := am.incr + [ai], incrSeq := ai.seqno);
          maxSeq := ai.seqno;
      }
      i := i + 1;
    }
    r := Some(am);
  }

  /** Walks the INCR list from its tail, skips the file being written, and moves the others to
      the head of the history list. */
  method MarkRewrittenIncrAofAsHistory(am: Manifest) returns (r: Manifest)
    ensures r == MarkRewritten(am)
  {
    r := am;
    if |am.incr| == 0 {
      return;
    }
    var k := |am.incr| - 1;
    ghost var last := k;
    assert AllAsHistory(am.incr[k..k]) + am.history == am.history;
    assert am.incr == am.incr[..k] + am.incr[k..];
    while 0 < k
      invariant 0 <= k <= last == |am.incr| - 1
      invariant r == am.(history := AllAsHistory(am.incr[k..last]) + am.history, incr := am.incr[..k] + am.incr[last..])
    {
      k := k - 1;
      var hai := am.incr[k].(kind := Hist);
      OneMoreHistory(am, k, last);
      r := r.(history := [hai] + r.history, incr := r.incr[..k] + r.incr[k + 1..]);
    }
    r := r.(dirty := true);
  }

  lemma OneMoreHistory(am: Manifest, k: nat, last: nat)
    requires k < last < |am.incr|
    ensures [am.incr[k].(kind := Hist)] + (AllAsHistory(am.incr[k + 1..last]) + am.history) ==
            AllAsHistory(am.incr[k..last]) + am.history
    ensures var incr := am.incr[..k + 1] + am.incr[last..];
            incr[..k] + incr[k + 1..] == am.incr[..k] + am.incr[last..]
  {
    assert am.incr[k..last] == [am.incr[k]] + am.incr[k + 1..last];
  }

  lemma MarkKeepsBase(am: Manifest)
    ensures MarkRewritten(am).baseSeq == am.baseSeq && MarkRewritten(am).base == am.base
  {
  }

  lemma UnlinksIs<C>(s: Server<C>)
    ensures Unlinks(s) == if s.mem.history == [] then [s] else [s] + Unlinks(UnlinkFirst(s))
  {
  }

  lemma DelPointsIs<C>(s: Server<C>, persist2: Persist)
    ensures s.mem.history == [] ==> DelPoints(s, persist2) == [s]
    ensures s.mem.history != [] ==>
              var us := Unlinks(s);
              var last := us[|us| - 1];
              var am := last.mem;
              DelPoints(s, persist2) == us + [last.(mem := am.(dirty := persist2 != Stored),
                                                    lines := if persist2 == Refused then last.lines else Lines(am))]
  {
  }


  lemma OnePointMore<S>(trace: seq<S>, done: seq<S>, v: S, rest: seq<S>)
    ensures trace + done + [v] == trace + (done + [v])
    ensures done + ([v] + rest) == (done + [v]) + rest
    ensures rest == [] ==> done + ([v] + rest) == done + [v]
  {
  }

  class Aof<C(==)> {
    var mem: Manifest
    var lines: seq<Info>
    var files: map<Name, seq<C>>
    var cur: Name
    var buf: seq<C>
    var executed: seq<C>
    var child: Option<seq<C>>
    ghost var trace: seq<Server<C>>

    ghost function View(): Server<C>
      reads this
    {
      Server(mem, lines, files, cur, buf, executed, child)
    }

    constructor (s: Server<C>)
      ensures View() == s && trace == []
    {
      mem, lines, files, cur := s.mem, s.lines, s.files, s.cur;
      buf, executed, child := s.buf, s.executed, s.child;
      trace := [];
    }

    /** Marks a crash point. */
    ghost method Point()
      modifies this`trace
      ensures trace == old(trace) + [View()]
    {
      trace := trace + [View()];
    }

    method Feed(c: C)
      modifies this
      ensures trace == old(trace) && View() == old(View()).(executed := old(executed) + [c], buf := old(buf) + [c])
    {
      executed := executed + [c];
      buf := buf + [c];
    }

    method ForcedFlush()
      requires cur in files
      modifies this
      ensures trace == old(trace) && View() == FlushBy(old(View()), |old(buf)|)
    {
      assert buf[..|buf|] == buf;
      files := files[cur := files[cur] + buf];
      buf := [];
    }

    method PersistManifest(am: Manifest, persist: Persist) returns (ok: bool)
      modifies this`lines
      ensures lines == (if persist == Refused then old(lines) else Lines(am))
      ensures ok == (persist == Stored)
    {
      if persist != Refused {
        lines := Lines(am);
      }
      ok := persist == Stored;
    }

    method OpenNewIncrAofForAppend(openOk: bool, persist: Persist) returns (ok: bool)
      modifies this
      ensures trace == old(trace) + OpenNewIncr(old(View()), openOk, persist)
      ensures View() == trace[|trace| - 1]
      ensures ok == Opened<C>(openOk, persist)
      ensures buf == old(buf) && executed == old(executed) && child == old(child)
    {
      var am := NewIncr(mem);
      var name := IncrName(am.incrSeq);
      if !openOk {
        Point();
        return false;
      }
      files := files[name := []];
      Point();
      var stored := PersistManifest(am, persist);
      if !stored {
        if persist == Late {
          Point();
        }
        return false;
      }
      Point();
      mem := am.(dirty := false);
      cur := name;
      Point();
      ok := true;
    }

    method RewriteAppendOnlyFileBackground(openOk: bool, persist: Persist, forkOk: bool) returns (ok: bool)
      requires cur in files
      modifies this
      ensures trace == old(trace) + StartPoints(old(View()), openOk, persist, forkOk)
      ensures View() == trace[|trace| - 1]
      ensures ok <==> old(child).None? && Opened<C>(openOk, persist) && forkOk
      ensures ok ==> child == Some(executed) && buf == []
    {
      hide OpenNewIncr;
      if child.Some? {
        Point();
        return false;
      }
      ForcedFlush();
      Point();
      var created := OpenNewIncrAofForAppend(openOk, persist);
      if !created || !forkOk {
        assert StartPoints(old(View()), openOk, persist, forkOk) ==
               [FlushBy(old(View()), |old(buf)|)] + OpenNewIncr(FlushBy(old(View()), |old(buf)|), openOk, persist);
        return false;
      }
      child := Some(executed);
      Point();
      ok := true;
    }

    /** The loop that unlinks one history file after the other. */
    method UnlinkHistory()
      modifies this
      ensures trace == old(trace) + Unlinks(old(View()))
      ensures View() == trace[|trace| - 1] && mem.history == []
    {
      hide Unlinks;
      ghost var done: seq<Server<C>> := [];
      assert old(trace) + done == trace && done + Unlinks(View()) == Unlinks(View());
      while mem.history != []
        invariant trace == old(trace) + done
        invariant Unlinks(old(View())) == done + Unlinks(View())
        decreases |mem.history|
      {
        ghost var v := View();
        UnlinksIs(v);
        Point();
        files := files - {mem.history[0].name};
        mem := mem.(history := mem.history[1..]);
        OnePointMore(old(trace), done, v, Unlinks(View()));
        done := done + [v];
      }
      UnlinksIs(View());
      OnePointMore(old(trace), done, View(), []);
      Point();
    }

    /** Unlinks every history file and persists the manifest without them. */
    method DelHistoryFiles(persist2: Persist)
      modifies this
      ensures trace == old(trace) + DelPoints(old(View()), persist2)
      ensures View() == trace[|trace| - 1]
    {
      hide Unlinks, DelPoints, Lines;
      DelPointsIs(View(), persist2);
      if mem.history == [] {
        Point();
        return;
      }
      UnlinkHistory();
      ghost var us := Unlinks(old(View()));
      assert us[|us| - 1] == View();
      var stored := PersistManifest(mem, persist2);
      mem := mem.(dirty := !stored);
      OnePointMore(old(trace), us, View(), []);
      Point();
    }

    method BackgroundRewriteDoneHandler(childOk: bool, renameOk: bool, rdb: bool, persist: Persist, gc: bool, persist2: Persist)
      modifies this
      ensures trace == old(trace) + DonePoints(old(View()), childOk, renameOk, rdb, persist, gc, persist2)
      ensures View() == trace[|trace| - 1]
    {
      hide MarkRewritten, NewBase, Lines, DelPoints;
      if child.None? {
        Point();
        return;
      }
      if !childOk || !renameOk {
        child := None;
        Point();
        return;
      }
      var am := NewBase(mem, rdb);
      var name := BaseName(am.baseSeq, rdb);
      files := files[name := child.value];
      child := None;
      Point();
      ghost var s1 := View();
      MarkKeepsBase(am);
      am := MarkRewrittenIncrAofAsHistory(am);
      var stored := PersistManifest(am, persist);
      if !stored {
        if persist == Late {
          Point();
        }
        files := files - {name};
        Point();
        return;
      }
      Point();
      ghost var s2 := View();
      assert trace == old(trace) + [s1, s2];
      mem := am.(dirty := false);
      ghost var s3 := View();
      assert old(trace) + [s1, s2] + DelPoints(s3, persist2) == old(trace) + ([s1, s2] + DelPoints(s3, persist2));
      if gc {
        DelHistoryFiles(persist2);
      } else {
        Point();
      }
    }
  }
}

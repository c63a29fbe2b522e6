/**
 The event-port multiplexer. A descriptor that is waited for is held in exactly one of two
 places: associated with the port in the kernel, or among the pending descriptors that the
 last poll returned. The recorded mask is always the event loop's own.
 */
module EvPort {

  datatype Flag = READABLE | WRITABLE | BARRIER

  /** AE_NONE is the empty set. */
  type Mask = set<Flag>

  const MAX_EVENT_BATCHSZ := 512

  predicate Pending(fds: seq<int>, n: nat, fd: int)
    requires n <= |fds|
  {
    exists i :: 0 <= i < n && fds[i] == fd
  }

  /** Entry `i` of the pending arrays is free, or holds a registered descriptor that the kernel
      does not have, with its mask. */
  predicate EntryOk(events: seq<Mask>, kernel: map<int, Mask>, fds: seq<int>, masks: seq<Mask>, i: nat)
    requires i < |fds| == |masks|
  {
    fds[i] != -1 ==> 0 <= fds[i] < |events| && fds[i] !in kernel && events[fds[i]] == masks[i] && masks[i] != {}
  }

  /** A descriptor that the kernel has is registered with the same mask. */
  predicate KernelOk(events: seq<Mask>, kernel: map<int, Mask>, fd: int) {
    fd in kernel ==> 0 <= fd < |events| && kernel[fd] == events[fd] && kernel[fd] != {}
  }

  /** A registered descriptor is in the kernel or pending. */
  predicate HeldSomewhere(events: seq<Mask>, kernel: map<int, Mask>, fds: seq<int>, n: nat, fd: int)
    requires n <= |fds|
  {
    0 <= fd < |events| && events[fd] != {} ==> fd in kernel || Pending(fds, n, fd)
  }

  ghost predicate Held(events: seq<Mask>, kernel: map<int, Mask>, fds: seq<int>, masks: seq<Mask>, n: nat) {
    && n <= |fds| == |masks|
    && (forall i, j :: 0 <= i < j < n && fds[i] != -1 ==> fds[i] != fds[j])
    && (forall i :: 0 <= i < n ==> EntryOk(events, kernel, fds, masks, i))
    && (forall fd :: KernelOk(events, kernel, fd))
    && (forall fd :: HeldSomewhere(events, kernel, fds, n, fd))
  }

  /** The two places exclude each other, and both record the registered mask. */
  lemma HeldOnce(events: seq<Mask>, kernel: map<int, Mask>, fds: seq<int>, masks: seq<Mask>, n: nat, fd: int)
    requires Held(events, kernel, fds, masks, n) && 0 <= fd < |events| && events[fd] != {}
    ensures fd in kernel <==> !Pending(fds, n, fd)
    ensures fd in kernel ==> kernel[fd] == events[fd]
    ensures forall i :: 0 <= i < n && fds[i] == fd ==> masks[i] == events[fd]
  {
    assert HeldSomewhere(events, kernel, fds, n, fd);
    assert KernelOk(events, kernel, fd);
    forall i | 0 <= i < n && fds[i] == fd ensures masks[i] == events[fd] && fd !in kernel {
      assert EntryOk(events, kernel, fds, masks, i);
    }
  }

  /** The highest registered descriptor, or -1. */
  ghost predicate Highest(events: seq<Mask>, maxfd: int) {
    && -1 <= maxfd < |events|
    && (maxfd >= 0 ==> events[maxfd] != {})
    && forall fd :: maxfd < fd < |events| ==> events[fd] == {}
  }

  // ---------- single changes ----------

  lemma SetPendingMask(events: seq<Mask>, kernel: map<int, Mask>, fds: seq<int>, masks: seq<Mask>, n: nat, i: nat, m: Mask)
    requires Held(events, kernel, fds, masks, n) && i < n && fds[i] != -1
    ensures 0 <= fds[i] < |events|
    ensures m != {} ==> Held(events[fds[i] := m], kernel, fds, masks[i := m], n)
    ensures m == {} ==> Held(events[fds[i] := m], kernel, fds[i := -1], masks[i := m], n)
  {
    assert EntryOk(events, kernel, fds, masks, i);
    var fd := fds[i];
    var events', masks' := events[fd := m], masks[i := m];
    var fds' := if m == {} then fds[i := -1] else fds;
    forall j | 0 <= j < n ensures EntryOk(events', kernel, fds', masks', j) {
      assert EntryOk(events, kernel, fds, masks, j);
      assert j != i && fds[j] != -1 ==> fds[j] != fd;
    }
    forall x ensures KernelOk(events', kernel, x) {
      assert KernelOk(events, kernel, x);
    }
    forall x ensures HeldSomewhere(events', kernel, fds', n, x) {
      assert HeldSomewhere(events, kernel, fds, n, x);
      if x != fd && Pending(fds, n, x) && x >= 0 {
        var j :| 0 <= j < n && fds[j] == x;
        assert fds'[j] == x;
      }
      if x == fd && m != {} {
        assert fds'[i] == x;
      }
    }
  }

  lemma SetKernelMask(events: seq<Mask>, kernel: map<int, Mask>, fds: seq<int>, masks: seq<Mask>, n: nat, fd: int, m: Mask)
    requires Held(events, kernel, fds, masks, n) && 0 <= fd < |events| && !Pending(fds, n, fd)
    ensures m != {} ==> Held(events[fd := m], kernel[fd := m], fds, masks, n)
    ensures m == {} ==> Held(events[fd := m], kernel - {fd}, fds, masks, n)
  {
    var events' := events[fd := m];
    var kernel' := if m == {} then kernel - {fd} else kernel[fd := m];
    forall j | 0 <= j < n ensures EntryOk(events', kernel', fds, masks, j) {
      assert EntryOk(events, kernel, fds, masks, j);
      assert fds[j] != fd;
    }
    forall x ensures KernelOk(events', kernel', x) {
      assert KernelOk(events, kernel, x);
    }
    forall x ensures HeldSomewhere(events', kernel', fds, n, x) {
      assert HeldSomewhere(events, kernel, fds, n, x);
    }
  }

  /** One step of the re-association loop of a poll. */
  lemma Reassociate(events: seq<Mask>, kernel: map<int, Mask>, fds: seq<int>, masks: seq<Mask>, n: nat, i: nat)
    requires Held(events, kernel, fds, masks, n) && i < n && fds[i] != -1
    ensures Held(events, kernel[fds[i] := masks[i]], fds[i := -1], masks[i := {}], n)
  {
    assert EntryOk(events, kernel, fds, masks, i);
    var fd := fds[i];
    var kernel', fds', masks' := kernel[fd := masks[i]], fds[i := -1], masks[i := {}];
    forall j | 0 <= j < n ensures EntryOk(events, kernel', fds', masks', j) {
      assert EntryOk(events, kernel, fds, masks, j);
      assert j != i && fds[j] != -1 ==> fds[j] != fd;
    }
    forall x ensures KernelOk(events, kernel', x) {
      assert KernelOk(events, kernel, x);
    }
    forall x ensures HeldSomewhere(events, kernel', fds', n, x) {
      assert HeldSomewhere(events, kernel, fds, n, x);
      if x != fd && x >= 0 && Pending(fds, n, x) {
        var j :| 0 <= j < n && fds[j] == x;
        assert fds'[j] == x;
      }
    }
  }

  lemma NothingPending(events: seq<Mask>, kernel: map<int, Mask>, fds: seq<int>, masks: seq<Mask>, n: nat)
    requires Held(events, kernel, fds, masks, n) && forall i :: 0 <= i < n ==> fds[i] == -1
    ensures Held(events, kernel, fds, masks, 0)
    ensures forall fd :: 0 <= fd < |events| ==> (fd in kernel <==> events[fd] != {})
  {
    forall x ensures HeldSomewhere(events, kernel, fds, 0, x) {
      assert HeldSomewhere(events, kernel, fds, n, x);
    }
    forall fd | 0 <= fd < |events| ensures fd in kernel <==> events[fd] != {} {
      assert KernelOk(events, kernel, fd);
      assert HeldSomewhere(events, kernel, fds, n, fd);
    }
  }

  /** A reported descriptor leaves the kernel and becomes the next pending entry. */
  lemma Report(events: seq<Mask>, kernel: map<int, Mask>, fds: seq<int>, masks: seq<Mask>, n: nat, fd: int)
    requires Held(events, kernel, fds, masks, n) && n < |fds| && fd in kernel
    ensures Held(events, kernel - {fd}, fds[n := fd], masks[n := kernel[fd]], n + 1)
  {
    assert KernelOk(events, kernel, fd);
    var kernel', fds', masks' := kernel - {fd}, fds[n := fd], masks[n := kernel[fd]];
    forall j | 0 <= j < n + 1
      ensures EntryOk(events, kernel', fds', masks', j)
      ensures j < n && fds'[j] != -1 ==> fds'[j] != fd
    {
      if j < n {
        assert EntryOk(events, kernel, fds, masks, j);
      }
    }
    forall x ensures KernelOk(events, kernel', x) {
      assert KernelOk(events, kernel, x);
    }
    var n' := n + 1;
    forall x ensures HeldSomewhere(events, kernel', fds', n', x) {
      assert HeldSomewhere(events, kernel, fds, n, x);
      if Pending(fds, n, x) {
        var j :| 0 <= j < n && fds[j] == x;
        assert fds'[j] == x;
      }
      assert fds'[n] == fd;
    }
  }

  /** Growing or shrinking the table past the highest descriptor. */
  lemma Resized(events: seq<Mask>, events': seq<Mask>, kernel: map<int, Mask>, fds: seq<int>, masks: seq<Mask>, n: nat)
    requires Held(events, kernel, fds, masks, n)
    requires forall fd :: 0 <= fd < |events| && events[fd] != {} ==> fd < |events'|
    requires forall fd :: 0 <= fd < |events'| ==> events'[fd] == if fd < |events| then events[fd] else {}
    ensures Held(events', kernel, fds, masks, n)
  {
    forall j | 0 <= j < n ensures EntryOk(events', kernel, fds, masks, j) {
      assert EntryOk(events, kernel, fds, masks, j);
    }
    forall x ensures KernelOk(events', kernel, x) {
      assert KernelOk(events, kernel, x);
    }
    forall x ensures HeldSomewhere(events', kernel, fds, n, x) {
      assert HeldSomewhere(events, kernel, fds, n, x);
    }
  }
}

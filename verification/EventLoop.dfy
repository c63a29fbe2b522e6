/** The event loop's descriptor table together with its event-port state. */
module EventLoop {
  import opened EvPort

  class EventLoop {
    var setsize: nat
    var events: seq<Mask>            // the masks of aeFileEvent, nevents of them
    var maxfd: int
    var npending: nat
    const pendingFds: array<int>
    const pendingMasks: array<Mask>
    var kernel: map<int, Mask>       // what the port has associated

    ghost predicate Valid()
      reads this, pendingFds, pendingMasks
    {
      && pendingFds.Length == pendingMasks.Length == MAX_EVENT_BATCHSZ && |events| <= setsize
      && npending <= MAX_EVENT_BATCHSZ
      && Held(events, kernel, pendingFds[..], pendingMasks[..], npending)
      && Highest(events, maxfd)
    }

    /** What the loop waits for on a descriptor. */
    function MaskOf(fd: nat): Mask
      reads this
    {
      if fd < |events| then events[fd] else {}
    }

    constructor (size: nat, nevents: nat)
      requires nevents <= size
      ensures Valid() && setsize == size && |events| == nevents && maxfd == -1
      ensures forall fd: nat :: MaskOf(fd) == {}
    {
      setsize := size;
      events := seq(nevents, _ => {});
      maxfd := -1;
      npending := 0;
      kernel := map[];
      pendingFds := new int[MAX_EVENT_BATCHSZ](_ => -1);
      pendingMasks := new Mask[MAX_EVENT_BATCHSZ](_ => {});
    }

    /** aeApiLookupPending */
    method LookupPending(fd: nat) returns (i: int)
      requires Valid()
      ensures i == -1 ==> !Pending(pendingFds[..], npending, fd)
      ensures i != -1 ==> 0 <= i < npending && pendingFds[i] == fd
    {
      i := 0;
      while i < npending
        invariant 0 <= i <= npending
        invariant forall j :: 0 <= j < i ==> pendingFds[j] != fd
      {
        if pendingFds[i] == fd {
          return;
        }
        i := i + 1;
      }
      i := -1;
    }

    /** aeApiAddEvent and the update of the table. `associated` is whether port_associate would
        succeed; a failure leaves the port as it was. */
    method AddEvent(fd: nat, mask: Mask, associated: bool) returns (ok: bool)
      requires Valid() && fd < |events| && mask != {}
      modifies this`events, this`kernel, pendingMasks
      ensures Held(events, kernel, pendingFds[..], pendingMasks[..], npending)
      ensures ok <==> associated || old(Pending(pendingFds[..], npending, fd))
      ensures events == if ok then old(events[fd := events[fd] + mask]) else old(events)
    {
      var fullmask := mask + events[fd];
      var pfd := LookupPending(fd);
      if pfd != -1 {
        assert EntryOk(events, kernel, pendingFds[..], pendingMasks[..], pfd);
        assert pendingMasks[pfd] + fullmask == events[fd] + mask;
        SetPendingMask(events, kernel, pendingFds[..], pendingMasks[..], npending, pfd, events[fd] + mask);
        ghost var masks := pendingMasks[..];
        pendingMasks[pfd] := pendingMasks[pfd] + fullmask;
        assert pendingMasks[..] == masks[pfd := events[fd] + mask];
        assert pendingFds[..][pfd] == fd;
        events := events[fd := events[fd] + mask];
        return true;
      }
      if !associated {
        return false;
      }
      assert fullmask == events[fd] + mask;
      SetKernelMask(events, kernel, pendingFds[..], pendingMasks[..], npending, fd, fullmask);
      kernel := kernel[fd := fullmask];
      events := events[fd := events[fd] + mask];
      return true;
    }

    method CreateFileEvent(fd: nat, mask: Mask, associated: bool) returns (ok: bool)
      requires Valid() && mask != {}
      modifies this, pendingMasks
      ensures Valid() && setsize == old(setsize)
      ensures ok <==> fd < setsize && (associated || old(Pending(pendingFds[..], npending, fd)))
      ensures forall x: nat :: MaskOf(x) == if ok && x == fd then old(MaskOf(x)) + mask else old(MaskOf(x))
    {
      if fd >= setsize {
        return false;
      }
      if fd >= |events| {
        var newnevents := if |events| * 2 > fd + 1 then |events| * 2 else fd + 1;
        newnevents := if newnevents > setsize then setsize else newnevents;
        var grown := events + seq(newnevents - |events|, _ => {});
        Resized(events, grown, kernel, pendingFds[..], pendingMasks[..], npending);
        events := grown;
      }
      ok := AddEvent(fd, mask, associated);
      if !ok {
        return;
      }
      if fd > maxfd {
        maxfd := fd;
      }
    }

    /** aeApiDelEvent and the update of the table. */
    method DelEvent(fd: nat, mask: Mask)
      requires Valid() && fd < |events| && events[fd] != {}
      modifies this`events, this`kernel, pendingFds, pendingMasks
      ensures Held(events, kernel, pendingFds[..], pendingMasks[..], npending)
      ensures events == old(events[fd := events[fd] - mask])
    {
      var pfd := LookupPending(fd);
      if pfd != -1 {
        assert EntryOk(events, kernel, pendingFds[..], pendingMasks[..], pfd);
        SetPendingMask(events, kernel, pendingFds[..], pendingMasks[..], npending, pfd, events[fd] - mask);
        assert pendingFds[..][pfd] == fd;
        ghost var masks, fds := pendingMasks[..], pendingFds[..];
        pendingMasks[pfd] := pendingMasks[pfd] - mask;
        assert pendingMasks[..] == masks[pfd := events[fd] - mask];
        if pendingMasks[pfd] == {} {
          pendingFds[pfd] := -1;
          assert pendingFds[..] == fds[pfd := -1];
        }
        events := events[fd := events[fd] - mask];
        return;
      }
      var fullmask := events[fd] - mask;
      SetKernelMask(events, kernel, pendingFds[..], pendingMasks[..], npending, fd, fullmask);
      if fullmask == {} {
        kernel := kernel - {fd};
      } else {
        kernel := kernel[fd := fullmask];
      }
      events := events[fd := events[fd] - mask];
    }

    /** Callers pass a descriptor inside the table, or one at or above the set size; removing the
        writable flag also removes the barrier. */
    method DeleteFileEvent(fd: nat, mask: Mask)
      requires Valid() && (fd < |events| || fd >= setsize)
      modifies this, pendingFds, pendingMasks
      ensures Valid() && setsize == old(setsize) && |events| == old(|events|)
      ensures forall x: nat :: MaskOf(x) ==
                if x == fd then old(MaskOf(x)) - mask - (if WRITABLE in mask then {BARRIER} else {}) else old(MaskOf(x))
    {
      if fd >= setsize {
        return;
      }
      if events[fd] == {} {
        return;
      }
      var gone := mask;
      if WRITABLE in mask {
        gone := mask + {BARRIER};
      }
      DelEvent(fd, gone);
      if fd == maxfd && events[fd] == {} {
        var j := maxfd - 1;
        while j >= 0
          invariant -1 <= j < maxfd
          invariant forall x :: j < x < |events| ==> events[x] == {}
        {
          if events[j] != {} {
            break;
          }
          j := j - 1;
        }
        maxfd := j;
      }
    }

    /** aeApiPoll. `reported` are the descriptors that the port returns: at most a batch of
        distinct associated ones, none when the wait times out or is interrupted. */
    method Poll(reported: seq<int>)
      requires Valid() && |reported| <= MAX_EVENT_BATCHSZ
      requires forall i :: 0 <= i < |reported| ==> 0 <= reported[i] < |events| && events[reported[i]] != {}
      requires forall i, j :: 0 <= i < j < |reported| ==> reported[i] != reported[j]
      modifies this`npending, this`kernel, pendingFds, pendingMasks
      ensures Valid() && npending == |reported| && pendingFds[..npending] == reported
      ensures forall fd :: 0 <= fd < |events| && events[fd] != {} ==> (fd in kernel <==> fd !in reported)
    {
      ReassociateAll();
      var i := 0;
      ghost var all := kernel;
      while i < |reported|
        invariant 0 <= i <= |reported| && npending == i
        invariant Held(events, kernel, pendingFds[..], pendingMasks[..], npending)
        invariant kernel == all - (set j | 0 <= j < i :: reported[j]) && pendingFds[..i] == reported[..i]
      {
        assert reported[i] in kernel;
        Report(events, kernel, pendingFds[..], pendingMasks[..], npending, reported[i]);
        ghost var fds, masks := pendingFds[..], pendingMasks[..];
        pendingFds[i] := reported[i];
        pendingMasks[i] := kernel[reported[i]];
        assert pendingFds[..] == fds[i := reported[i]] && pendingMasks[..] == masks[i := kernel[reported[i]]];
        kernel := kernel - {reported[i]};
        i := i + 1;
        npending := npending + 1;
      }
      assert pendingFds[..npending] == reported;
    }

    /** The loop at the start of a poll: what was pending goes back to the port. */
    method ReassociateAll()
      requires Valid()
      modifies this`npending, this`kernel, pendingFds, pendingMasks
      ensures Valid() && npending == 0
      ensures forall fd :: 0 <= fd < |events| ==> (fd in kernel <==> events[fd] != {})
    {
      var i := 0;
      while i < npending
        invariant 0 <= i <= npending && npending == old(npending)
        invariant Held(events, kernel, pendingFds[..], pendingMasks[..], npending)
        invariant forall j :: 0 <= j < i ==> pendingFds[j] == -1
      {
        if pendingFds[i] != -1 {
          Reassociate(events, kernel, pendingFds[..], pendingMasks[..], npending, i);
          ghost var fds, masks := pendingFds[..], pendingMasks[..];
          kernel := kernel[pendingFds[i] := pendingMasks[i]];
          pendingMasks[i] := {};
          pendingFds[i] := -1;
          assert pendingFds[..] == fds[i := -1] && pendingMasks[..] == masks[i := {}];
        }
        i := i + 1;
      }
      NothingPending(events, kernel, pendingFds[..], pendingMasks[..], npending);
      npending := 0;
    }

    /** aeResizeSetSize refuses to drop a registered descriptor. */
    method ResizeSetSize(size: nat) returns (ok: bool)
      requires Valid()
      modifies this`setsize, this`events
      ensures Valid()
      ensures ok <==> size == old(setsize) || forall fd: nat :: old(MaskOf(fd)) != {} ==> fd < size
      ensures setsize == if ok then size else old(setsize)
      ensures forall fd: nat :: MaskOf(fd) == old(MaskOf(fd))
    {
      if size == setsize {
        return true;
      }
      if maxfd >= size {
        assert MaskOf(maxfd) != {};
        return false;
      }
      setsize := size;
      if size < |events| {
        Resized(events, events[..size], kernel, pendingFds[..], pendingMasks[..], npending);
        events := events[..size];
      }
      return true;
    }
  }
}

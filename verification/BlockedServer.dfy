/** The server's and the clients' fields that blocking updates in place. */
module BlockedServer {
  import opened Common
  import opened Blocked
  import opened BlockedReady
  import opened BlockedPass
  import opened BlockedRun

  function Flagged(s: State, c: Id, flag: bool): State
    requires c in s.clients
  {
    SetClient(s, c, s.clients[c].(onNokey := flag))
  }

  lemma AddWaiterFlagged(s: State, c: Id, k: Key, flag: bool)
    requires c in s.clients
    ensures AddWaiter(Flagged(s, c, flag), c, k, flag) == Flagged(AddWaiter(s, c, k, flag), c, flag)
  {
    var t := AddWaiter(s, c, k, flag);
    var u, v := AddWaiter(Flagged(s, c, flag), c, k, flag), Flagged(t, c, flag);
    assert u.clients == v.clients;
  }

  /** Setting the deletion flag before or after entering the lists makes no difference. */
  lemma {:induction false} FlagAfterwards(s: State, c: Id, ks: seq<Key>, flag: bool)
    requires c in s.clients
    ensures var t := AddWaiters(s, c, ks, flag);
            c in t.clients && AddWaiters(Flagged(s, c, flag), c, ks, flag) == Flagged(t, c, flag)
    decreases |ks|
  {
    hide AddWaiter, Flagged;
    AddWaitersFrame(s, c, ks, flag);
    if ks != [] {
      AddWaiterFlagged(s, c, ks[0], flag);
      AddWaitersFrame(s, c, [ks[0]], flag);
      assert AddWaiters(s, c, [ks[0]], flag) == AddWaiter(s, c, ks[0], flag);
      FlagAfterwards(AddWaiter(s, c, ks[0], flag), c, ks[1..], flag);
    }
  }

  lemma {:induction false} AddWaitersSnoc(s: State, c: Id, ks: seq<Key>, k: Key, flag: bool)
    requires c in s.clients
    ensures var t := AddWaiters(s, c, ks, flag);
            c in t.clients && AddWaiters(s, c, ks + [k], flag) == AddWaiter(t, c, k, flag)
    decreases |ks|
  {
    if ks == [] {
      assert ([] + [k])[1..] == [];
    } else {
      assert (ks + [k])[1..] == ks[1..] + [k];
      AddWaitersSnoc(AddWaiter(s, c, ks[0], flag), c, ks[1..], k, flag);
    }
  }

  lemma NoWaiters(s: State, c: Id, flag: bool)
    requires c in s.clients
    ensures AddWaiters(s, c, [], flag) == s
  {
  }

  lemma DropNothing(s: State, c: Id)
    requires IndexOk(s) && c in s.clients
    ensures Drop(s, c, {}) == s
  {
    var t := Drop(s, c, {});
    forall k
      ensures k in t.blocking <==> k in s.blocking
      ensures k in t.nokey <==> k in s.nokey
    {
      assert KeyOk(s, k);
    }
    assert s.clients[c].keys - {} == s.clients[c].keys;
    assert t.clients == s.clients && t.blocking == s.blocking && t.nokey == s.nokey;
  }

  class Server {
    var clients: map<Id, Client>
    var blocking: map<Key, seq<Id>>
    var nokey: map<Key, nat>
    var byType: map<BType, int>
    var blockedCount: int
    var readyDict: set<Key>
    var ready: seq<Key>
    var unblocked: seq<Id>

    ghost function St(): State
      reads this
    {
      State(clients, blocking, nokey, byType, blockedCount, readyDict, ready, unblocked)
    }

    method BlockClient(c: Id, b: BType)
      requires c in clients && b in byType
      modifies this`clients, this`blockedCount, this`byType
      ensures St() == Blocked.BlockClient(old(St()), c, b)
    {
      clients := clients[c := clients[c].(btype := b)];
      if !clients[c].isModule {
        blockedCount := blockedCount + 1;
      }
      byType := byType[b := byType[b] + 1];
    }

    /** One turn of the loop of blockForKeys. */
    method AddKey(c: Id, k: Key, unblockOnNokey: bool)
      requires c in clients
      modifies this`clients, this`blocking, this`nokey
      ensures St() == AddWaiter(old(St()), c, k, unblockOnNokey)
    {
      if k in clients[c].keys {
        return;
      }
      clients := clients[c := clients[c].(keys := clients[c].keys + {k})];
      var l := [];
      if k in blocking {
        l := blocking[k];
      }
      blocking := blocking[k := l + [c]];
      if unblockOnNokey {
        if k !in nokey {
          nokey := nokey[k := 1];
        } else {
          nokey := nokey[k := nokey[k] + 1];
        }
      }
    }

    /** The loop of blockForKeys. */
    method AddKeys(c: Id, keys: seq<Key>, unblockOnNokey: bool)
      requires c in clients
      modifies this`clients, this`blocking, this`nokey
      ensures St() == AddWaiters(old(St()), c, keys, unblockOnNokey) && c in clients
    {
      hide AddWaiters, AddWaiter;
      var j := 0;
      ghost var s := St();
      assert keys[..0] == [];
      assert St() == AddWaiters(s, c, [], unblockOnNokey) by { NoWaiters(s, c, unblockOnNokey); }
      while j < |keys|
        invariant 0 <= j <= |keys|
        invariant c in s.clients && St() == AddWaiters(s, c, keys[..j], unblockOnNokey)
        invariant c in clients
      {
        AddWaitersSnoc(s, c, keys[..j], keys[j], unblockOnNokey);
        AddWaitersFrame(s, c, keys[..j + 1], unblockOnNokey);
        assert keys[..j + 1] == keys[..j] + [keys[j]];
        AddKey(c, keys[j], unblockOnNokey);
        j := j + 1;
      }
      assert keys[..j] == keys;
    }

    method BlockForKeys(c: Id, b: BType, keys: seq<Key>, unblockOnNokey: bool)
      requires c in clients && b in byType
      modifies this
      ensures St() == Blocked.BlockForKeys(old(St()), c, b, keys, unblockOnNokey)
    {
      hide AddWaiters, AddWaiter;
      ghost var s := St();
      AddKeys(c, keys, unblockOnNokey);
      FlagAfterwards(s, c, keys, unblockOnNokey);
      AddWaitersFrame(s, c, keys, unblockOnNokey);
      clients := clients[c := clients[c].(onNokey := unblockOnNokey)];
      assert St() == Enlisted(s, c, keys, unblockOnNokey);
      clients := clients[c := clients[c].(pending := clients[c].pending || b != MODULE)];
      BlockClient(c, b);
    }

    /** The database side of releaseBlockedEntry. */
    method ReleaseBlockedEntry(c: Id, k: Key)
      requires c in clients && k in blocking && NoDup(blocking[k])
      modifies this`blocking, this`nokey
      ensures St() == Unlink(old(St()), c, k)
    {
      var l := Without(blocking[k], c);
      blocking := blocking[k := l];
      if |l| == 0 {
        assert blocking - {k} == old(blocking) - {k};
        blocking := blocking - {k};
        nokey := nokey - {k};
      } else if clients[c].onNokey {
        if k in nokey {
          if nokey[k] <= 1 {
            nokey := nokey - {k};
          } else {
            nokey := nokey[k := nokey[k] - 1];
          }
        }
      }
    }

    /** The loop visits the client's keys in whatever order the dictionary gives them; the
        client's own dictionary is emptied in one go afterwards. */
    method UnblockClientWaitingData(c: Id)
      requires IndexOk(St()) && c in clients
      modifies this`clients, this`blocking, this`nokey
      ensures St() == Drop(old(St()), c, old(clients[c].keys))
    {
      ghost var s := St();
      ghost var done: set<Key> := {};
      var left := clients[c].keys;
      DropNothing(s, c);
      assert s.clients == s.clients[c := s.clients[c]];
      while left != {}
        invariant s == old(St()) && c in s.clients && clients == s.clients
        invariant done + left == s.clients[c].keys && done !! left
        invariant SetClient(St(), c, s.clients[c].(keys := s.clients[c].keys - done)) == Drop(s, c, done)
        decreases |left|
      {
        var k :| k in left;
        EntryIsThere(s, St(), c, done, k);
        ghost var u := St();
        ReleaseBlockedEntry(c, k);
        ReleaseStep(s, u, c, done, k);
        left := left - {k};
        done := done + {k};
      }
      assert done == s.clients[c].keys;
      assert s.clients[c].keys - done == {};
      clients := clients[c := clients[c].(keys := {})];
    }

    method QueueClientForReprocessing(c: Id)
      requires c in clients
      modifies this`clients, this`unblocked
      ensures St() == Queue(old(St()), c)
    {
      if !clients[c].queued {
        clients := clients[c := clients[c].(queued := true)];
        unblocked := unblocked + [c];
      }
    }

    method UnblockClient(c: Id, queueForReprocessing: bool)
      requires IndexOk(St()) && c in clients && clients[c].btype in byType
      modifies this
      ensures St() == Blocked.UnblockClient(old(St()), c, queueForReprocessing)
    {
      hide IndexOk, Drop;
      ghost var s := St();
      DropFrame(s, c, s.clients[c].keys);
      var b := clients[c].btype;
      if WaitsForData(b) || b == MODULE {
        UnblockClientWaitingData(c);
      }
      if !clients[c].isModule {
        blockedCount := blockedCount - 1;
      }
      byType := byType[b := byType[b] - 1];
      clients := clients[c := clients[c].(btype := NONE, onNokey := false)];
      if queueForReprocessing {
        QueueClientForReprocessing(c);
      }
    }

    method SignalKeyAsReady(k: Key, t: ObjType, deleted: bool)
      requires forall b: BType :: b in byType
      modifies this`readyDict, this`ready
      ensures St() == Signal(old(St()), k, t, deleted)
    {
      var b := BlockedTypeOf(t);
      if b == NONE {
        return;
      }
      if byType[b] == 0 && byType[MODULE] == 0 {
        return;
      }
      if deleted {
        if k !in nokey {
          return;
        }
      } else {
        if k !in blocking {
          return;
        }
      }
      if k in readyDict {
        return;
      }
      readyDict := readyDict + {k};
      ready := ready + [k];
    }

    /** The command runs again; `a` says what it does. */
    method Reexecute(c: Id, a: Attempt)
      requires Inv(St()) && c in clients && clients[c].btype == NONE && Sensible(a)
      modifies this
      ensures St() == Reexecuted(old(St()), c, a)
    {
      hide Inv, SignalAll;
      AllTypesAreThere(St());
      SignalAllKeeps(St(), a.during);
      SignalKeys(a.during);
      match a.outcome
      case IsFreed =>
        unblocked := Without(unblocked, c);
        clients := clients - {c};
      case BlocksAgain(b, ks, flag) =>
        TypeIsThere(St(), b);
        BlockForKeys(c, b, ks, flag);
      case Finishes =>
        if !clients[c].isModule {
          QueueClientForReprocessing(c);
        }
    }

    method UnblockClientOnKey(c: Id, k: Key, a: Attempt)
      requires Inv(St()) && Waits(St(), c, k) && Sensible(a)
      modifies this
      ensures St() == UnblockOnKey(old(St()), c, k, a)
    {
      hide Inv, Released, Reexecuted, Drop, Unlink, Blocked.UnblockClient;
      ghost var s := St();
      EntryOfWaiter(s, c, k);
      UnlinkIsDropOfWaiter(s, c, k);
      DropOneKeeps(s, c, k);
      ReleaseBlockedEntry(c, k);
      clients := clients[c := clients[c].(keys := clients[c].keys - {k})];
      assert St() == Drop(s, c, {k});
      ReleasedIs(s, c, k);
      UnblockClient(c, false);
      assert St() == Released(s, c, k);
      ReleasedKeeps(s, c, k);
      if clients[c].pending {
        UnpendingKeeps(St(), c);
        clients := clients[c := clients[c].(pending := false)];
        Reexecute(c, a);
      }
    }

    method SignalKeys(signals: seq<(Key, ObjType, bool)>)
      requires forall b: BType :: b in byType
      modifies this`readyDict, this`ready
      ensures St() == SignalAll(old(St()), signals)
    {
      hide Signal;
      var j := 0;
      ghost var s := St();
      while j < |signals|
        invariant 0 <= j <= |signals|
        invariant SignalAll(St(), signals[j..]) == SignalAll(s, signals)
      {
        assert signals[j..][1..] == signals[j + 1..];
        SignalKeyAsReady(signals[j].0, signals[j].1, signals[j].2);
        j := j + 1;
      }
    }

    /** The loop over the clients blocked on a key. The iterator fetches the next node before
        the current client is served, and at most the initial number of clients is tried.
        `attempts` stands for what the server finds at each turn. */
    method HandleClientsBlockedOnKey(k: Key, attempts: nat -> Attempt) returns (tried: seq<Id>)
      requires Inv(St()) && forall i :: Sensible(attempts(i))
      modifies this
      ensures (St(), tried) == Handle(old(St()), k, attempts)
      ensures tried == old(WaitersOf(St(), k)) && Inv(St())
    {
      hide Inv, Turn, Successor, Handle, Pass;
      tried := [];
      ghost var s := St();
      HandleIsFair(s, k, attempts);
      HandleIsPass(s, k, attempts);
      if k !in blocking {
        return;
      }
      FirstWaits(s, k);
      var next := Some(blocking[k][0]);
      var count: nat := |blocking[k]|;
      var turn: nat := 0;
      while next.Some? && count > 0
        invariant Inv(St()) && (next.Some? ==> Waits(St(), next.value, k))
        invariant var r := Pass(St(), k, next, count, turn, attempts);
                  Handle(s, k, attempts) == (r.0, tried + r.1)
        decreases count
      {
        var c := next.value;
        var a := attempts(turn);
        PassIs(St(), k, next, count, turn, attempts);
        ghost var u := St();
        WaiterIsListed(u, c, k);
        next := Successor(blocking[k], c);
        TryClient(c, k, a);
        assert St() == Turn(u, c, k, a);
        assert tried + ([c] + Pass(St(), k, next, count - 1, turn + 1, attempts).1) ==
               (tried + [c]) + Pass(St(), k, next, count - 1, turn + 1, attempts).1;
        tried := tried + [c];
        count := count - 1;
        turn := turn + 1;
      }
      PassIs(St(), k, next, count, turn, attempts);
      assert tried + [] == tried;
    }

    /** One turn of the loop. */
    method TryClient(c: Id, k: Key, a: Attempt)
      requires Inv(St()) && Waits(St(), c, k) && Sensible(a)
      modifies this
      ensures St() == Turn(old(St()), c, k, a)
    {
      hide Inv, UnblockOnKey, SignalAll;
      var receiver := clients[c];
      if Eligible(receiver, a.stored) {
        AllTypesAreThere(St());
        if receiver.btype != MODULE {
          UnblockOnKeyKeeps(St(), c, k, a, []);
          UnblockClientOnKey(c, k, a);
          AllTypesAreThere(St());
        }
        SignalKeys(a.signals);
      }
    }
  }

  lemma TypeIsThere(s: State, b: BType)
    requires Inv(s)
    ensures b in s.byType
  {
    TypeIsCounted(s, b);
  }

  lemma AllTypesAreThere(s: State)
    requires Inv(s)
    ensures forall b: BType :: b in s.byType
  {
    forall b: BType ensures b in s.byType {
      TypeIsCounted(s, b);
    }
  }

  lemma WaiterIsListed(s: State, c: Id, k: Key)
    requires Inv(s) && Waits(s, c, k)
    ensures k in s.blocking && s.blocking[k] == WaitersOf(s, k)
  {
    assert KeyOk(s, k);
    assert Listed(s, c, k);
  }

  lemma EntryOfWaiter(s: State, c: Id, k: Key)
    requires Inv(s) && Waits(s, c, k)
    ensures k in s.blocking && NoDup(s.blocking[k])
  {
    WaiterIsListed(s, c, k);
    assert KeyOk(s, k);
  }

  lemma UnlinkIsDropOfWaiter(s: State, c: Id, k: Key)
    requires Inv(s) && Waits(s, c, k)
    ensures k in s.blocking
    ensures SetClient(Unlink(s, c, k), c, s.clients[c].(keys := s.clients[c].keys - {k})) == Drop(s, c, {k})
    ensures Unlink(s, c, k).clients == s.clients
  {
    UnlinkIsDrop(s, c, k);
  }

  lemma ReleasedIs(s: State, c: Id, k: Key)
    requires Inv(s) && Waits(s, c, k)
    ensures var t := Drop(s, c, {k});
            && IndexOk(t) && c in t.clients && t.clients[c].btype in t.byType
            && Released(s, c, k) == Blocked.UnblockClient(t, c, false)
  {
    hide IndexOk, CountsOk;
    DropOneKeeps(s, c, k);
    UnblockKeeps(Drop(s, c, {k}), c, false);
  }

  lemma HandleIsPass(s: State, k: Key, attempts: nat -> Attempt)
    requires Inv(s) && forall i :: Sensible(attempts(i))
    ensures k !in s.blocking ==> Handle(s, k, attempts) == (s, [])
    ensures k in s.blocking ==>
              && s.blocking[k] != [] && Waits(s, s.blocking[k][0], k)
              && (var r := Pass(s, k, Some(s.blocking[k][0]), |s.blocking[k]|, 0, attempts);
                  Handle(s, k, attempts) == (r.0, [] + r.1))
  {
    hide Inv, Pass;
    if k in s.blocking {
      FirstWaits(s, k);
      var r := Pass(s, k, Some(s.blocking[k][0]), |s.blocking[k]|, 0, attempts);
      assert [] + r.1 == r.1;
    }
  }

  /** One unfolding of a pass. */
  lemma PassIs(s: State, k: Key, next: Option<Id>, count: nat, turn: nat, attempts: nat -> Attempt)
    requires Inv(s) && (next.Some? ==> Waits(s, next.value, k)) && forall i :: Sensible(attempts(i))
    ensures next.None? || count == 0 ==> Pass(s, k, next, count, turn, attempts) == (s, [])
    ensures next.Some? && count > 0 ==>
              var t := Turn(s, next.value, k, attempts(turn));
              var following := Successor(WaitersOf(s, k), next.value);
              && Inv(t) && (following.Some? ==> Waits(t, following.value, k))
              && (var r := Pass(t, k, following, count - 1, turn + 1, attempts);
                  Pass(s, k, next, count, turn, attempts) == (r.0, [next.value] + r.1))
  {
    hide Inv, Turn, Successor;
    if next.Some? && count > 0 {
      TurnKeeps(s, next.value, k, attempts(turn));
      IteratorStaysValid(s, next.value, k, attempts(turn));
    }
  }

  /** After some entries are released, the next one is still in the database. */
  lemma EntryIsThere(s: State, u: State, c: Id, done: set<Key>, k: Key)
    requires IndexOk(s) && c in s.clients && done <= s.clients[c].keys && k in s.clients[c].keys && k !in done
    requires u.clients == s.clients
    requires SetClient(u, c, s.clients[c].(keys := s.clients[c].keys - done)) == Drop(s, c, done)
    ensures k in u.blocking && NoDup(u.blocking[k])
  {
    var t := Drop(s, c, done);
    DropKeepsIndex(s, c, done);
    assert KeyOk(t, k);
    assert Waits(t, c, k);
    assert Listed(t, c, k);
    assert u.blocking == t.blocking;
  }

  lemma ReleaseStep(s: State, u: State, c: Id, done: set<Key>, k: Key)
    requires IndexOk(s) && c in s.clients && done <= s.clients[c].keys && k in s.clients[c].keys && k !in done
    requires u.clients == s.clients && k in u.blocking
    requires SetClient(u, c, s.clients[c].(keys := s.clients[c].keys - done)) == Drop(s, c, done)
    ensures SetClient(Unlink(u, c, k), c, s.clients[c].(keys := s.clients[c].keys - (done + {k}))) == Drop(s, c, done + {k})
  {
    hide Without, Count;
    var t := Drop(s, c, done);
    DropKeepsIndex(s, c, done);
    assert Waits(t, c, k);
    UnlinkIsDrop(t, c, k);
    DropTwice(s, c, done, k);
    assert u.blocking == t.blocking && u.nokey == t.nokey;
    assert t.clients[c].keys - {k} == s.clients[c].keys - (done + {k});
    assert Unlink(u, c, k).blocking == Unlink(t, c, k).blocking && Unlink(u, c, k).nokey == Unlink(t, c, k).nokey;
  }
}

/**
 Keys signalled as ready, and the queue in which they wait to be handled. The
 quick returns of signalling lose no wakeup that an eligible client is entitled to.
 */
module BlockedReady {
  import opened Blocked

  // ---------- signalling ----------

  /** The keys queued and not yet handled: those in the server's list, and those the running
      handler still holds. Each is there once, and the dictionary knows exactly these. */
  ghost predicate ReadyOk(s: State, hand: seq<Key>) {
    NoDup(s.ready + hand) && forall k :: k in s.readyDict <==> k in s.ready + hand
  }

  /** signalKeyAsReadyLogic */
  function Signal(s: State, k: Key, t: ObjType, deleted: bool): State {
    var b := BlockedTypeOf(t);
    if b == NONE then s
    else if b in s.byType && MODULE in s.byType && s.byType[b] == 0 && s.byType[MODULE] == 0 then s
    else if deleted && k !in s.nokey then s
    else if !deleted && k !in s.blocking then s
    else if k in s.readyDict then s
    else s.(readyDict := s.readyDict + {k}, ready := s.ready + [k])
  }

  lemma SignalKeeps(s: State, k: Key, t: ObjType, deleted: bool)
    requires Inv(s)
    ensures Inv(Signal(s, k, t, deleted))
  {
    var r := Signal(s, k, t, deleted);
    IndexIgnoresCounts(s, r);
    SameTypesCount(s, r);
  }

  lemma SignalKeepsReady(s: State, k: Key, t: ObjType, deleted: bool, hand: seq<Key>)
    requires ReadyOk(s, hand)
    ensures ReadyOk(Signal(s, k, t, deleted), hand)
  {
    var r := Signal(s, k, t, deleted);
    if r != s {
      assert k !in s.ready + hand;
      var q := r.ready + hand;
      forall i, j | 0 <= i < j < |q| ensures q[i] != q[j] {
        var i' := if i < |s.ready| then i else i - 1;
        var j' := if j < |s.ready| then j else j - 1;
        if i != |s.ready| {
          assert q[i] == (s.ready + hand)[i'];
        }
        if j != |s.ready| {
          assert q[j] == (s.ready + hand)[j'];
        }
      }
      forall x ensures x in r.readyDict <==> x in q {
        assert x in s.readyDict <==> x in s.ready + hand;
      }
    }
  }

  lemma NobodyOfType(s: State, b: BType)
    requires CountsOk(s) && b != NONE
    ensures b in s.byType && s.byType[b] >= 0
    ensures s.byType[b] == 0 <==> forall c :: c in s.clients ==> s.clients[c].btype != b
  {
    TypeIsCounted(s, b);
    if s.byType[b] != 0 {
      assert OfType(s, b) != {};
    } else {
      assert OfType(s, b) == {};
      forall c | c in s.clients ensures s.clients[c].btype != b {
        assert c !in OfType(s, b);
      }
    }
  }

  /** Some client waits for the key, or, for a deletion, wants to hear of it. */
  ghost predicate Wanted(s: State, k: Key, deleted: bool) {
    exists c :: Waits(s, c, k) && (deleted ==> s.clients[c].onNokey)
  }

  /** Some client is blocked for this kind of object, or by a module. */
  ghost predicate TypeAwaited(s: State, t: ObjType) {
    exists c :: c in s.clients && s.clients[c].btype != NONE &&
                (s.clients[c].btype == BlockedTypeOf(t) || s.clients[c].btype == MODULE)
  }

  lemma {:induction false} SomeListener(clients: map<Id, Client>, l: seq<Id>)
    ensures Count(clients, l) > 0 <==> exists c :: c in l && c in clients && clients[c].onNokey
  {
    if l != [] {
      SomeListener(clients, l[1..]);
      assert forall c :: c in l <==> c == l[0] || c in l[1..];
    }
  }

  lemma WantedIsIndexed(s: State, k: Key, deleted: bool)
    requires IndexOk(s)
    ensures Wanted(s, k, deleted) <==> if deleted then k in s.nokey else k in s.blocking
  {
    assert KeyOk(s, k);
    if deleted {
      SomeListener(s.clients, WaitersOf(s, k));
      if k in s.nokey {
        var c :| c in WaitersOf(s, k) && c in s.clients && s.clients[c].onNokey;
        assert Listed(s, c, k);
        assert Waits(s, c, k);
      }
      if Wanted(s, k, true) {
        var c :| Waits(s, c, k) && s.clients[c].onNokey;
        assert Listed(s, c, k);
      }
    } else {
      if k in s.blocking {
        var c := s.blocking[k][0];
        assert Listed(s, c, k);
        assert Waits(s, c, k);
      }
      if Wanted(s, k, false) {
        var c :| Waits(s, c, k);
        assert Listed(s, c, k);
      }
    }
  }

  lemma TypeAwaitedIsCounted(s: State, t: ObjType)
    requires CountsOk(s) && BlockedTypeOf(t) != NONE
    ensures BlockedTypeOf(t) in s.byType && MODULE in s.byType
    ensures TypeAwaited(s, t) <==> !(s.byType[BlockedTypeOf(t)] == 0 && s.byType[MODULE] == 0)
  {
    NobodyOfType(s, BlockedTypeOf(t));
    NobodyOfType(s, MODULE);
  }

  /** Exactly when a signal leaves the key queued, told in terms of the clients: it was queued
      already, or someone wants it and someone is blocked for this kind of object. */
  lemma SignalQueuesIff(s: State, k: Key, t: ObjType, deleted: bool, hand: seq<Key>)
    requires Inv(s) && ReadyOk(s, hand)
    ensures k in Signal(s, k, t, deleted).ready + hand <==>
            k in s.ready + hand ||
            (BlockedTypeOf(t) != NONE && TypeAwaited(s, t) && Wanted(s, k, deleted))
  {
    WantedIsIndexed(s, k, deleted);
    SignalKeepsReady(s, k, t, deleted, hand);
    var r := Signal(s, k, t, deleted);
    assert k in r.readyDict <==> k in r.ready + hand;
    assert k in s.readyDict <==> k in s.ready + hand;
    if BlockedTypeOf(t) != NONE {
      TypeAwaitedIsCounted(s, t);
    }
  }

  /** No lost wakeup: a client that waits for the key with a matching type, or by a module, and
      for a deletion has asked for it, always finds the key queued, exactly once. */
  lemma NoLostWakeup(s: State, k: Key, t: ObjType, deleted: bool, hand: seq<Key>, c: Id)
    requires Inv(s) && ReadyOk(s, hand) && BlockedTypeOf(t) != NONE
    requires Waits(s, c, k) && (s.clients[c].btype == BlockedTypeOf(t) || s.clients[c].btype == MODULE)
    requires deleted ==> s.clients[c].onNokey
    ensures var q := Signal(s, k, t, deleted).ready + hand;
            exists i :: 0 <= i < |q| && q[i] == k && forall j :: 0 <= j < |q| && q[j] == k ==> j == i
  {
    SignalQueuesIff(s, k, t, deleted, hand);
    SignalKeepsReady(s, k, t, deleted, hand);
    assert TypeAwaited(s, t);
    assert Wanted(s, k, deleted);
    var q := Signal(s, k, t, deleted).ready + hand;
    assert k in q;
    var i :| 0 <= i < |q| && q[i] == k;
    assert forall j :: 0 <= j < |q| && q[j] == k ==> j == i;
  }

  // ---------- taking keys in hand ----------

  /** The handler takes the whole list, so that new signals go to a fresh one. */
  function TakeAll(s: State): (State, seq<Key>) {
    (s.(ready := []), s.ready)
  }

  /** Before a key is handled it leaves the dictionary, so that it can be signalled again. */
  function TakeOne(s: State, hand: seq<Key>): State
    requires hand != []
  {
    s.(readyDict := s.readyDict - {hand[0]})
  }

  lemma TakeKeeps(s: State, hand: seq<Key>)
    requires Inv(s) && ReadyOk(s, hand)
    ensures hand == [] ==> Inv(TakeAll(s).0) && ReadyOk(TakeAll(s).0, TakeAll(s).1)
    ensures hand != [] ==> Inv(TakeOne(s, hand)) && ReadyOk(TakeOne(s, hand), hand[1..])
  {
    if hand == [] {
      var r := TakeAll(s).0;
      IndexIgnoresCounts(s, r);
      SameTypesCount(s, r);
      assert [] + s.ready == s.ready + [];
    } else {
      var r := TakeOne(s, hand);
      IndexIgnoresCounts(s, r);
      SameTypesCount(s, r);
      var q := s.ready + hand;
      var q' := s.ready + hand[1..];
      var n := |s.ready|;
      assert q[n] == hand[0];
      forall i, j | 0 <= i < j < |q'| ensures q'[i] != q'[j] {
        var i' := if i < n then i else i + 1;
        var j' := if j < n then j else j + 1;
        assert q'[i] == q[i'] && q'[j] == q[j'];
      }
      forall k ensures k in r.readyDict <==> k in q' {
        assert k in s.readyDict <==> k in q;
        if k in q' {
          var i :| 0 <= i < |q'| && q'[i] == k;
          assert q[if i < n then i else i + 1] == k;
        }
        if k in q && k != hand[0] {
          var i :| 0 <= i < |q| && q[i] == k;
          assert q'[if i < n then i else i - 1] == k;
        }
      }
    }
  }
}

/**
 Clients blocked on keys. Who waits for which key is recorded twice, on the client and in the
 database, next to a count of waiters that also want to hear of deletions, counts of blocked
 clients per type, the queue of keys signalled as ready, and the queue of clients to be
 reprocessed. `Inv` says that all of these agree.
 */
module Blocked {

  type Id = nat

  /** A key of one database. */
  datatype Key = Key(db: nat, name: string)

  datatype BType = NONE | LIST | ZSET | STREAM | MODULE | WAIT | WAITAOF | POSTPONE | POSTPONE_TRIM | SHUTDOWN | LAZYFREE

  datatype ObjType = OBJ_STRING | OBJ_LIST | OBJ_SET | OBJ_ZSET | OBJ_HASH | OBJ_MODULE | OBJ_STREAM

  /** getBlockedTypeByType */
  function BlockedTypeOf(t: ObjType): BType {
    match t
    case OBJ_LIST => LIST
    case OBJ_ZSET => ZSET
    case OBJ_MODULE => MODULE
    case OBJ_STREAM => STREAM
    case _ => NONE
  }

  predicate WaitsForData(b: BType) {
    b == LIST || b == ZSET || b == STREAM
  }

  /** `queued` is the CLIENT_UNBLOCKED flag; a client is blocked when its type is not NONE. */
  datatype Client = Client(
    btype: BType,
    keys: set<Key>,
    onNokey: bool,
    pending: bool,
    queued: bool,
    isModule: bool)

  datatype State = State(
    clients: map<Id, Client>,
    blocking: map<Key, seq<Id>>,
    nokey: map<Key, nat>,
    byType: map<BType, int>,
    blockedCount: int,
    readyDict: set<Key>,
    ready: seq<Key>,
    unblocked: seq<Id>)

  // ---------- lists without repetitions ----------

  predicate NoDup<T(==)>(l: seq<T>) {
    forall i, j :: 0 <= i < j < |l| ==> l[i] != l[j]
  }

  /** The list with one client unlinked. */
  function Without(l: seq<Id>, c: Id): (r: seq<Id>) {
    if l == [] then [] else if l[0] == c then l[1..] else [l[0]] + Without(l[1..], c)
  }

  lemma {:induction false} WithoutMembers(l: seq<Id>, c: Id)
    requires NoDup(l)
    ensures NoDup(Without(l, c))
    ensures forall x :: x in Without(l, c) <==> x in l && x != c
  {
    if l != [] {
      assert NoDup(l[1..]);
      WithoutMembers(l[1..], c);
      assert forall x :: x in l <==> x == l[0] || x in l[1..];
      if l[0] == c {
        assert l[0] !in l[1..];
      } else {
        var r := Without(l[1..], c);
        assert l[0] !in r;
        assert forall i :: 0 < i < |[l[0]] + r| ==> ([l[0]] + r)[i] in r;
      }
    }
  }

  lemma SnocNoDup<T>(l: seq<T>, x: T)
    requires NoDup(l) && x !in l
    ensures NoDup(l + [x])
  {
  }

  /** How many clients of a list want to be woken when the key goes away. */
  function Count(clients: map<Id, Client>, l: seq<Id>): nat {
    if l == [] then 0
    else (if l[0] in clients && clients[l[0]].onNokey then 1 else 0) + Count(clients, l[1..])
  }

  lemma {:induction false} CountSnoc(clients: map<Id, Client>, l: seq<Id>, c: Id)
    ensures Count(clients, l + [c]) == Count(clients, l) + (if c in clients && clients[c].onNokey then 1 else 0)
  {
    if l == [] {
      assert (l + [c])[1..] == [];
    } else {
      assert (l + [c])[1..] == l[1..] + [c];
      CountSnoc(clients, l[1..], c);
    }
  }

  lemma {:induction false} CountWithout(clients: map<Id, Client>, l: seq<Id>, c: Id)
    requires c in l
    ensures Count(clients, Without(l, c)) == Count(clients, l) - (if c in clients && clients[c].onNokey then 1 else 0)
  {
    if l[0] != c {
      CountWithout(clients, l[1..], c);
      assert ([l[0]] + Without(l[1..], c))[1..] == Without(l[1..], c);
    }
  }

  lemma {:induction false} CountSame(a: map<Id, Client>, b: map<Id, Client>, l: seq<Id>)
    requires forall i :: 0 <= i < |l| ==>
               ((l[i] in a && a[l[i]].onNokey) <==> (l[i] in b && b[l[i]].onNokey))
    ensures Count(a, l) == Count(b, l)
  {
    if l != [] {
      CountSame(a, b, l[1..]);
    }
  }

  lemma {:induction false} CountPositive(clients: map<Id, Client>, l: seq<Id>, c: Id)
    requires c in l && c in clients && clients[c].onNokey
    ensures Count(clients, l) > 0
  {
    if l[0] != c {
      CountPositive(clients, l[1..], c);
    }
  }

  // ---------- the invariant ----------

  predicate Waits(s: State, c: Id, k: Key) {
    c in s.clients && k in s.clients[c].keys
  }

  predicate Listed(s: State, c: Id, k: Key) {
    k in s.blocking && c in s.blocking[k]
  }

  function NokeyOf(s: State, k: Key): nat {
    if k in s.nokey then s.nokey[k] else 0
  }

  function WaitersOf(s: State, k: Key): seq<Id> {
    if k in s.blocking then s.blocking[k] else []
  }

  /** For one key, the client side and the database side of the index are inverse to each
      other; the count of deletion listeners is exact, and absent when zero. */
  ghost predicate KeyOk(s: State, k: Key) {
    && (forall c :: Waits(s, c, k) <==> Listed(s, c, k))
    && (k in s.blocking ==> s.blocking[k] != [] && NoDup(s.blocking[k]))
    && NokeyOf(s, k) == Count(s.clients, WaitersOf(s, k))
    && (k in s.nokey ==> s.nokey[k] > 0)
  }

  ghost predicate IndexOk(s: State) {
    forall k :: KeyOk(s, k)
  }

  function OfType(s: State, t: BType): set<Id> {
    set c | c in s.clients && s.clients[c].btype == t
  }

  function Regular(s: State): set<Id> {
    set c | c in s.clients && s.clients[c].btype != NONE && !s.clients[c].isModule
  }

  predicate TypeOk(s: State, t: BType) {
    t in s.byType && (t != NONE ==> s.byType[t] == |OfType(s, t)|)
  }

  ghost predicate CountsOk(s: State) {
    && (forall t: BType :: TypeOk(s, t))
    && s.blockedCount == |Regular(s)|
  }

  /** Only clients blocked for data or by a module wait for keys. */
  predicate KeysOk(s: State) {
    forall c :: c in s.clients && s.clients[c].keys != {} ==> WaitsForData(s.clients[c].btype) || s.clients[c].btype == MODULE
  }

  /** A client flagged for reprocessing is in the queue, once. */
  predicate QueueOk(s: State) {
    && NoDup(s.unblocked)
    && (forall c :: c in s.clients ==> (s.clients[c].queued <==> c in s.unblocked))
    && (forall c :: c in s.unblocked ==> c in s.clients)
  }

  ghost predicate Inv(s: State) {
    IndexOk(s) && CountsOk(s) && KeysOk(s) && QueueOk(s)
  }

  // ---------- releasing one entry ----------

  function SetClient(s: State, c: Id, x: Client): State {
    s.(clients := s.clients[c := x])
  }

  /** releaseBlockedEntry on the database side. */
  function Unlink(s: State, c: Id, k: Key): State
    requires c in s.clients && k in s.blocking
  {
    var l := Without(s.blocking[k], c);
    if l == [] then s.(blocking := s.blocking - {k}, nokey := s.nokey - {k})
    else
      var s1 := s.(blocking := s.blocking[k := l]);
      if s.clients[c].onNokey && k in s.nokey then
        s1.(nokey := if s.nokey[k] <= 1 then s.nokey - {k} else s.nokey[k := s.nokey[k] - 1])
      else s1
  }

  function RestOf(s: State, c: Id, ks: set<Key>, k: Key): seq<Id> {
    if k in ks then Without(WaitersOf(s, k), c) else WaitersOf(s, k)
  }

  function NokeyLeft(s: State, c: Id, ks: set<Key>, k: Key): int
    requires c in s.clients
  {
    NokeyOf(s, k) - (if k in ks && s.clients[c].onNokey then 1 else 0)
  }

  /** The client leaves the lists of the keys `ks`: lists that become empty, and counts that
      become zero, are removed. */
  function Drop(s: State, c: Id, ks: set<Key>): State
    requires c in s.clients
  {
    s.(clients := s.clients[c := s.clients[c].(keys := s.clients[c].keys - ks)],
       blocking := map k | k in s.blocking && RestOf(s, c, ks, k) != [] :: RestOf(s, c, ks, k),
       nokey := map k | k in s.nokey && NokeyLeft(s, c, ks, k) > 0 :: NokeyLeft(s, c, ks, k))
  }

  lemma DropWaiters(s: State, c: Id, ks: set<Key>, k: Key)
    requires c in s.clients
    ensures WaitersOf(Drop(s, c, ks), k) == RestOf(s, c, ks, k)
  {
  }

  lemma DropKeepsIndex(s: State, c: Id, ks: set<Key>)
    requires IndexOk(s) && c in s.clients && ks <= s.clients[c].keys
    ensures IndexOk(Drop(s, c, ks))
  {
    var t := Drop(s, c, ks);
    forall k ensures KeyOk(t, k) {
      assert KeyOk(s, k);
      var l := WaitersOf(s, k);
      DropWaiters(s, c, ks, k);
      CountSame(s.clients, t.clients, WaitersOf(t, k));
      WithoutMembers(l, c);
      if k in ks {
        assert Waits(s, c, k);
        CountWithout(s.clients, l, c);
      }
      forall d ensures Waits(t, d, k) <==> Listed(t, d, k) {
        assert Waits(s, d, k) <==> Listed(s, d, k);
        assert Listed(t, d, k) <==> d in WaitersOf(t, k);
      }
    }
  }

  /** releaseBlockedEntry does for one key what Drop does. */
  lemma UnlinkIsDrop(s: State, c: Id, k: Key)
    requires IndexOk(s) && Waits(s, c, k)
    ensures k in s.blocking
    ensures SetClient(Unlink(s, c, k), c, s.clients[c].(keys := s.clients[c].keys - {k})) == Drop(s, c, {k})
  {
    assert KeyOk(s, k);
    assert Listed(s, c, k);
    var l := s.blocking[k];
    var u, t := Unlink(s, c, k), Drop(s, c, {k});
    assert NokeyOf(s, k) == Count(s.clients, WaitersOf(s, k));
    CountWithout(s.clients, l, c);
    if s.clients[c].onNokey {
      ListenerIsCounted(s, c, k);
    }
    forall j
      ensures j in u.blocking <==> j in t.blocking
      ensures j in u.nokey <==> j in t.nokey
    {
      assert KeyOk(s, j);
    }
    assert u.blocking == t.blocking;
    assert u.nokey == t.nokey;
  }

  lemma DropNokey(s: State, c: Id, ks: set<Key>, k: Key)
    requires c in s.clients && NokeyLeft(s, c, ks, k) >= 0
    ensures NokeyOf(Drop(s, c, ks), k) == NokeyLeft(s, c, ks, k)
  {
  }

  lemma DropTwiceAt(s: State, c: Id, a: set<Key>, k: Key, j: Key)
    requires KeyOk(s, j) && c in s.clients && a <= s.clients[c].keys && k !in a
    ensures var t := Drop(s, c, a);
            && RestOf(t, c, {k}, j) == RestOf(s, c, a + {k}, j)
            && NokeyLeft(t, c, {k}, j) == NokeyLeft(s, c, a + {k}, j)
  {
    DropWaiters(s, c, a, j);
    if j in a && s.clients[c].onNokey {
      assert Waits(s, c, j);
      CountPositive(s.clients, WaitersOf(s, j), c);
    }
    DropNokey(s, c, a, j);
  }

  lemma DropFrame(s: State, c: Id, ks: set<Key>)
    requires c in s.clients
    ensures var t := Drop(s, c, ks);
            && t == s.(clients := t.clients, blocking := t.blocking, nokey := t.nokey)
            && t.clients == s.clients[c := s.clients[c].(keys := s.clients[c].keys - ks)]
  {
  }

  lemma DropTwiceLists(s: State, c: Id, a: set<Key>, k: Key)
    requires IndexOk(s) && c in s.clients && a <= s.clients[c].keys && k !in a
    ensures Drop(Drop(s, c, a), c, {k}).blocking == Drop(s, c, a + {k}).blocking
  {
    hide Without, Count, NoDup;
    var t := Drop(s, c, a);
    var u, v := Drop(t, c, {k}).blocking, Drop(s, c, a + {k}).blocking;
    forall j
      ensures j in u <==> j in v
      ensures j in u ==> u[j] == v[j]
    {
      assert KeyOk(s, j);
      DropTwiceAt(s, c, a, k, j);
      DropWaiters(t, c, {k}, j);
      DropWaiters(s, c, a + {k}, j);
    }
  }

  lemma DropTwiceNokey(s: State, c: Id, a: set<Key>, k: Key)
    requires IndexOk(s) && c in s.clients && a <= s.clients[c].keys && k !in a
    ensures Drop(Drop(s, c, a), c, {k}).nokey == Drop(s, c, a + {k}).nokey
  {
    hide Without, Count, NoDup;
    var t := Drop(s, c, a);
    var u, v := Drop(t, c, {k}).nokey, Drop(s, c, a + {k}).nokey;
    forall j
      ensures j in u <==> j in v
      ensures j in u ==> u[j] == v[j]
    {
      assert KeyOk(s, j);
      DropTwiceAt(s, c, a, k, j);
    }
  }

  lemma DropTwice(s: State, c: Id, a: set<Key>, k: Key)
    requires IndexOk(s) && c in s.clients && a <= s.clients[c].keys && k !in a
    ensures Drop(Drop(s, c, a), c, {k}) == Drop(s, c, a + {k})
  {
    hide Drop;
    var t := Drop(s, c, a);
    DropFrame(s, c, a);
    DropFrame(t, c, {k});
    DropFrame(s, c, a + {k});
    DropTwiceLists(s, c, a, k);
    DropTwiceNokey(s, c, a, k);
    assert s.clients[c].keys - a - {k} == s.clients[c].keys - (a + {k});
  }

  /** It is not possible to have a listener of deletions without a count for it. */
  lemma ListenerIsCounted(s: State, c: Id, k: Key)
    requires IndexOk(s) && Waits(s, c, k) && s.clients[c].onNokey
    ensures k in s.nokey
  {
    assert KeyOk(s, k);
    assert Listed(s, c, k);
    CountPositive(s.clients, s.blocking[k], c);
    assert NokeyOf(s, k) == Count(s.clients, WaitersOf(s, k));
  }

  // ---------- blocking on keys ----------

  /** One key of blockForKeys; a key that is already there is ignored. */
  function AddWaiter(s: State, c: Id, k: Key, flag: bool): State
    requires c in s.clients
  {
    var x := s.clients[c];
    if k in x.keys then s
    else
      s.(clients := s.clients[c := x.(keys := x.keys + {k})],
         blocking := s.blocking[k := WaitersOf(s, k) + [c]],
         nokey := if flag then s.nokey[k := NokeyOf(s, k) + 1] else s.nokey)
  }

  function AddWaiters(s: State, c: Id, ks: seq<Key>, flag: bool): State
    requires c in s.clients
    decreases |ks|
  {
    if ks == [] then s else AddWaiters(AddWaiter(s, c, ks[0], flag), c, ks[1..], flag)
  }

  lemma AddWaiterKeepsIndex(s: State, c: Id, k: Key)
    requires IndexOk(s) && c in s.clients
    ensures IndexOk(AddWaiter(s, c, k, s.clients[c].onNokey))
  {
    var t := AddWaiter(s, c, k, s.clients[c].onNokey);
    if k !in s.clients[c].keys {
      assert KeyOk(s, k);
      assert !Waits(s, c, k);
      assert !Listed(s, c, k);
      forall j ensures KeyOk(t, j) {
        assert KeyOk(s, j);
        CountSame(s.clients, t.clients, WaitersOf(t, j));
        if j == k {
          SnocNoDup(WaitersOf(s, k), c);
          CountSnoc(s.clients, WaitersOf(s, k), c);
        }
        forall d ensures Waits(t, d, j) <==> Listed(t, d, j) {
          assert Waits(s, d, j) <==> Listed(s, d, j);
        }
      }
    }
  }

  /** Only the client's keys and the database side change. */
  predicate OnlyAdds(s: State, t: State, c: Id, ks: set<Key>)
    requires c in s.clients
  {
    && t == s.(clients := t.clients, blocking := t.blocking, nokey := t.nokey)
    && t.clients == s.clients[c := s.clients[c].(keys := s.clients[c].keys + ks)]
  }

  lemma AddWaiterOnlyAdds(s: State, c: Id, k: Key, flag: bool)
    requires c in s.clients
    ensures OnlyAdds(s, AddWaiter(s, c, k, flag), c, {k})
  {
    if k in s.clients[c].keys {
      assert s.clients[c].keys + {k} == s.clients[c].keys;
      assert s.clients == s.clients[c := s.clients[c]];
    }
  }

  lemma OnlyAddsTrans(s: State, t: State, u: State, c: Id, a: set<Key>, b: set<Key>, ab: set<Key>)
    requires c in s.clients && OnlyAdds(s, t, c, a) && OnlyAdds(t, u, c, b) && ab == a + b
    ensures OnlyAdds(s, u, c, ab)
  {
    assert s.clients[c].keys + a + b == s.clients[c].keys + ab;
    assert u.clients == s.clients[c := s.clients[c].(keys := s.clients[c].keys + ab)];
  }

  lemma {:induction false} AddWaitersKeepIndex(s: State, c: Id, ks: seq<Key>)
    requires IndexOk(s) && c in s.clients
    ensures var t := AddWaiters(s, c, ks, s.clients[c].onNokey);
            IndexOk(t) && OnlyAdds(s, t, c, set k | k in ks)
    decreases |ks|
  {
    hide IndexOk;
    if ks == [] {
      assert s.clients[c].keys + (set k | k in ks) == s.clients[c].keys;
      assert s.clients == s.clients[c := s.clients[c]];
    } else {
      AddWaiterKeepsIndex(s, c, ks[0]);
      AddWaiterOnlyAdds(s, c, ks[0], s.clients[c].onNokey);
      var t := AddWaiter(s, c, ks[0], s.clients[c].onNokey);
      AddWaitersKeepIndex(t, c, ks[1..]);
      var u := AddWaiters(t, c, ks[1..], s.clients[c].onNokey);
      assert ks == [ks[0]] + ks[1..];
      assert (set k | k in ks) == {ks[0]} + (set k | k in ks[1..]);
      OnlyAddsTrans(s, t, u, c, {ks[0]}, set k | k in ks[1..], set k | k in ks);
    }
  }

  /** blockClient */
  function BlockClient(s: State, c: Id, b: BType): State
    requires c in s.clients && b in s.byType
  {
    var x := s.clients[c];
    s.(clients := s.clients[c := x.(btype := b)],
       blockedCount := s.blockedCount + (if x.isModule then 0 else 1),
       byType := s.byType[b := s.byType[b] + 1])
  }

  /** Changing one client's type moves it from one set to the other. */
  lemma Retyped(s: State, t: State, c: Id, u: BType)
    requires c in s.clients && c in t.clients && t.clients == s.clients[c := t.clients[c]]
    ensures OfType(t, u) == if t.clients[c].btype == u then OfType(s, u) + {c} else OfType(s, u) - {c}
  {
  }

  lemma RegularRetyped(s: State, t: State, c: Id)
    requires c in s.clients && c in t.clients && t.clients == s.clients[c := t.clients[c]]
    ensures Regular(t) == if t.clients[c].btype != NONE && !t.clients[c].isModule then Regular(s) + {c} else Regular(s) - {c}
  {
  }

  lemma BlockedTypeAt(s: State, c: Id, b: BType, u: BType)
    requires TypeOk(s, u) && c in s.clients && s.clients[c].btype == NONE && b != NONE && b in s.byType
    ensures TypeOk(BlockClient(s, c, b), u)
  {
    var t := BlockClient(s, c, b);
    Retyped(s, t, c, u);
    NotOfType(s, c, u);
  }

  lemma BlockClientCounts(s: State, c: Id, b: BType)
    requires CountsOk(s) && c in s.clients && s.clients[c].btype == NONE && b != NONE
    ensures b in s.byType && CountsOk(BlockClient(s, c, b))
  {
    hide OfType, Regular, TypeOk;
    TypeIsCounted(s, b);
    var t := BlockClient(s, c, b);
    forall u: BType ensures TypeOk(t, u) {
      BlockedTypeAt(s, c, b, u);
    }
    RegularRetyped(s, t, c);
    NotRegular(s, c);
  }

  lemma NotOfType(s: State, c: Id, u: BType)
    requires c in s.clients
    ensures c in OfType(s, u) <==> s.clients[c].btype == u
    ensures c !in OfType(s, u) ==> OfType(s, u) - {c} == OfType(s, u)
  {
  }

  lemma NotRegular(s: State, c: Id)
    requires c in s.clients
    ensures c in Regular(s) <==> s.clients[c].btype != NONE && !s.clients[c].isModule
    ensures c !in Regular(s) ==> Regular(s) - {c} == Regular(s)
  {
  }

  lemma {:induction false} AddWaitersFrame(s: State, c: Id, ks: seq<Key>, flag: bool)
    requires c in s.clients
    ensures var t := AddWaiters(s, c, ks, flag); c in t.clients && t.byType == s.byType
    decreases |ks|
  {
    if ks != [] {
      AddWaitersFrame(AddWaiter(s, c, ks[0], flag), c, ks[1..], flag);
    }
  }

  /** blockForKeys for a client that is not blocked. */
  function BlockForKeys(s: State, c: Id, b: BType, ks: seq<Key>, flag: bool): State
    requires c in s.clients && b in s.byType
  {
    AddWaitersFrame(SetClient(s, c, s.clients[c].(onNokey := flag)), c, ks, flag);
    var s1 := Enlisted(s, c, ks, flag);
    var x := s1.clients[c];
    BlockClient(SetClient(s1, c, x.(pending := x.pending || b != MODULE)), c, b)
  }

  lemma IdleHasNoKeys(s: State, c: Id)
    requires Inv(s) && c in s.clients && s.clients[c].btype == NONE
    ensures s.clients[c].keys == {}
    ensures forall k :: !Listed(s, c, k)
  {
    forall k ensures !Listed(s, c, k) {
      assert KeyOk(s, k);
      assert !Waits(s, c, k);
    }
  }

  /** Flags other than onNokey never matter to the index; onNokey does not for a client that
      waits for nothing. */
  lemma FlagsKeepIndex(s: State, c: Id, x: Client)
    requires IndexOk(s) && c in s.clients && x.keys == s.clients[c].keys
    requires x.onNokey == s.clients[c].onNokey || x.keys == {}
    ensures IndexOk(SetClient(s, c, x))
  {
    var t := SetClient(s, c, x);
    forall k ensures KeyOk(t, k) {
      assert KeyOk(s, k);
      assert Waits(s, c, k) <==> Listed(s, c, k);
      CountSame(s.clients, t.clients, WaitersOf(t, k));
      forall d ensures Waits(t, d, k) <==> Listed(t, d, k) {
        assert Waits(s, d, k) <==> Listed(s, d, k);
      }
    }
  }

  /** Counting and queueing only look at types and flags. */
  lemma SameTypesCount(s: State, t: State)
    requires CountsOk(s) && t.byType == s.byType && t.blockedCount == s.blockedCount
    requires t.clients.Keys == s.clients.Keys
    requires forall c :: c in s.clients ==> t.clients[c].btype == s.clients[c].btype && t.clients[c].isModule == s.clients[c].isModule
    ensures CountsOk(t)
  {
    forall u: BType ensures TypeOk(t, u) {
      assert TypeOk(s, u);
      assert OfType(t, u) == OfType(s, u);
    }
    assert Regular(t) == Regular(s);
  }

  lemma OtherFieldsKeep(s: State, t: State, c: Id)
    requires KeysOk(s) && QueueOk(s) && c in s.clients && c in t.clients
    requires t.clients == s.clients[c := t.clients[c]] && t.unblocked == s.unblocked
    requires t.clients[c].queued == s.clients[c].queued
    requires t.clients[c].keys == {} || WaitsForData(t.clients[c].btype) || t.clients[c].btype == MODULE
    ensures KeysOk(t) && QueueOk(t)
  {
  }

  /** The waiters half of blockForKeys. */
  function Enlisted(s: State, c: Id, ks: seq<Key>, flag: bool): State
    requires c in s.clients
  {
    AddWaiters(SetClient(s, c, s.clients[c].(onNokey := flag)), c, ks, flag)
  }

  lemma EnlistedKeeps(s: State, c: Id, ks: seq<Key>, flag: bool)
    requires IndexOk(s) && c in s.clients && s.clients[c].keys == {}
    ensures var t := Enlisted(s, c, ks, flag);
            && IndexOk(t) && c in t.clients
            && t == s.(clients := t.clients, blocking := t.blocking, nokey := t.nokey)
            && t.clients == s.clients[c := s.clients[c].(keys := (set k | k in ks), onNokey := flag)]
  {
    hide IndexOk;
    var s0 := SetClient(s, c, s.clients[c].(onNokey := flag));
    FlagsKeepIndex(s, c, s0.clients[c]);
    AddWaitersKeepIndex(s0, c, ks);
    assert s0.clients[c].keys + (set k | k in ks) == (set k | k in ks);
  }

  lemma BlockForKeysKeeps(s: State, c: Id, b: BType, ks: seq<Key>, flag: bool)
    requires Inv(s) && c in s.clients && s.clients[c].btype == NONE && (WaitsForData(b) || b == MODULE)
    ensures b in s.byType
    ensures var t := BlockForKeys(s, c, b, ks, flag);
            Inv(t) && c in t.clients && t.clients[c].keys == (set k | k in ks) && t.clients[c].btype == b
  {
    hide IndexOk, CountsOk, KeysOk, QueueOk, Enlisted;
    IdleHasNoKeys(s, c);
    TypeIsCounted(s, b);
    EnlistedKeeps(s, c, ks, flag);
    var s1 := Enlisted(s, c, ks, flag);
    var x := s1.clients[c].(pending := s1.clients[c].pending || b != MODULE);
    BlockFlagged(s, s1, c, b, x);
  }

  lemma BlockFlagged(s: State, s1: State, c: Id, b: BType, x: Client)
    requires Inv(s) && IndexOk(s1) && c in s.clients && c in s1.clients && s.clients[c].btype == NONE
    requires WaitsForData(b) || b == MODULE
    requires s1 == s.(clients := s1.clients, blocking := s1.blocking, nokey := s1.nokey)
    requires s1.clients == s.clients[c := s.clients[c].(keys := s1.clients[c].keys, onNokey := s1.clients[c].onNokey)]
    requires x == s1.clients[c].(pending := x.pending)
    ensures b in s1.byType
    ensures Inv(BlockClient(SetClient(s1, c, x), c, b))
  {
    hide IndexOk, CountsOk, KeysOk, QueueOk;
    TypeIsCounted(s, b);
    var s2 := SetClient(s1, c, x);
    FlagsKeepIndex(s1, c, x);
    SameTypesCount(s, s2);
    BlockClientCounts(s2, c, b);
    BlockClientIndex(s2, c, b);
    var t := BlockClient(s2, c, b);
    assert t.clients == s.clients[c := t.clients[c]];
    OtherFieldsKeep(s, t, c);
  }

  lemma TypeIsCounted(s: State, b: BType)
    requires CountsOk(s)
    ensures b in s.byType
    ensures b != NONE ==> s.byType[b] == |OfType(s, b)|
  {
    assert TypeOk(s, b);
  }

  lemma BlockClientIndex(s: State, c: Id, b: BType)
    requires IndexOk(s) && c in s.clients && b in s.byType
    ensures IndexOk(BlockClient(s, c, b))
  {
    var x := s.clients[c].(btype := b);
    FlagsKeepIndex(s, c, x);
    IndexIgnoresCounts(SetClient(s, c, x), BlockClient(s, c, b));
  }

  lemma IndexIgnoresCounts(s: State, t: State)
    requires IndexOk(s) && t.clients == s.clients && t.blocking == s.blocking && t.nokey == s.nokey
    ensures IndexOk(t)
  {
    forall k ensures KeyOk(t, k) {
      assert KeyOk(s, k);
      forall c ensures Waits(t, c, k) <==> Listed(t, c, k) {
        assert Waits(s, c, k) <==> Listed(s, c, k);
      }
    }
  }

  // ---------- unblocking ----------

  /** queueClientForReprocessing: once, however often it is asked for. */
  function Queue(s: State, c: Id): State
    requires c in s.clients
  {
    if s.clients[c].queued then s
    else SetClient(s, c, s.clients[c].(queued := true)).(unblocked := s.unblocked + [c])
  }

  /** unblockClient */
  function UnblockClient(s: State, c: Id, requeue: bool): State
    requires c in s.clients && s.clients[c].btype in s.byType
  {
    var b := s.clients[c].btype;
    var s1 := if WaitsForData(b) || b == MODULE then Drop(s, c, s.clients[c].keys) else s;
    var x := s1.clients[c];
    var s2 := s1.(clients := s1.clients[c := x.(btype := NONE, onNokey := false)],
                  blockedCount := s1.blockedCount - (if x.isModule then 0 else 1),
                  byType := s1.byType[b := s1.byType[b] - 1]);
    if requeue then Queue(s2, c) else s2
  }

  lemma QueueKeeps(s: State, c: Id)
    requires Inv(s) && c in s.clients
    ensures Inv(Queue(s, c))
  {
    var t := Queue(s, c);
    if !s.clients[c].queued {
      FlagsKeepIndex(s, c, t.clients[c]);
      IndexIgnoresCounts(SetClient(s, c, t.clients[c]), t);
      SameTypesCount(s, t);
      SnocNoDup(s.unblocked, c);
    }
  }

  lemma UnblockCounts(s: State, t: State, c: Id)
    requires CountsOk(s) && c in s.clients && s.clients[c].btype != NONE
    requires c in t.clients && t.clients == s.clients[c := t.clients[c]]
    requires t.clients[c].btype == NONE && t.clients[c].isModule == s.clients[c].isModule
    requires s.clients[c].btype in s.byType
    requires t.byType == s.byType[s.clients[c].btype := s.byType[s.clients[c].btype] - 1]
    requires t.blockedCount == s.blockedCount - (if s.clients[c].isModule then 0 else 1)
    ensures CountsOk(t)
  {
    hide OfType, Regular;
    forall u: BType ensures TypeOk(t, u) {
      assert TypeOk(s, u);
      Retyped(s, t, c, u);
      NotOfType(s, c, u);
    }
    RegularRetyped(s, t, c);
    NotRegular(s, c);
  }

  lemma UnblockKeeps(s: State, c: Id, requeue: bool)
    requires Inv(s) && c in s.clients && s.clients[c].btype != NONE
    ensures s.clients[c].btype in s.byType
    ensures var t := UnblockClient(s, c, requeue);
            Inv(t) && t.clients[c].btype == NONE && t.clients[c].keys == {} && (requeue ==> c in t.unblocked)
  {
    hide IndexOk, CountsOk;
    var b := s.clients[c].btype;
    TypeIsCounted(s, b);
    var s1 := if WaitsForData(b) || b == MODULE then Drop(s, c, s.clients[c].keys) else s;
    if WaitsForData(b) || b == MODULE {
      DropKeepsIndex(s, c, s.clients[c].keys);
    }
    assert s1.clients[c].keys == {};
    var s2 := UnblockClient(s, c, false);
    FlagsKeepIndex(s1, c, s2.clients[c]);
    IndexIgnoresCounts(SetClient(s1, c, s2.clients[c]), s2);
    UnblockCounts(s, s2, c);
    if requeue {
      QueueKeeps(s2, c);
    }
  }
}

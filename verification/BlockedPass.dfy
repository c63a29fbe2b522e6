/**
 Serving the clients that wait for a key that became ready. One pass tries the clients that
 waited when it started, in the order in which they blocked, each exactly once, even though
 serving a client unlinks it from the list being walked and may put it back at the tail.
 */
module BlockedPass {
  import opened Common
  import opened Blocked
  import opened BlockedReady

  /** What became of the command that was executed again: it finished, it blocked once more, or
      the client was freed on the way. */
  datatype Outcome = Finishes | BlocksAgain(b: BType, ks: seq<Key>, flag: bool) | IsFreed

  /** What the server finds and what the client's command does when its turn comes: the type of
      the object now stored at the key, the keys signalled while the command runs, the outcome,
      and the keys signalled after it. */
  datatype Attempt = Attempt(
    stored: Option<ObjType>,
    during: seq<(Key, ObjType, bool)>,
    outcome: Outcome,
    signals: seq<(Key, ObjType, bool)>)

  predicate Sensible(a: Attempt) {
    a.outcome.BlocksAgain? ==> WaitsForData(a.outcome.b) || a.outcome.b == MODULE
  }

  /** The test of handleClientsBlockedOnKey. */
  predicate Eligible(x: Client, stored: Option<ObjType>) {
    (stored.Some? && (x.btype == BlockedTypeOf(stored.value) || x.btype == MODULE)) || x.onNokey
  }

  function SignalAll(s: State, signals: seq<(Key, ObjType, bool)>): State
    decreases |signals|
  {
    if signals == [] then s
    else SignalAll(Signal(s, signals[0].0, signals[0].1, signals[0].2), signals[1..])
  }

  lemma {:induction false} SignalAllKeeps(s: State, signals: seq<(Key, ObjType, bool)>)
    requires Inv(s)
    ensures var t := SignalAll(s, signals);
            Inv(t) && t == s.(readyDict := t.readyDict, ready := t.ready) && s.ready <= t.ready
    decreases |signals|
  {
    hide Inv;
    if signals != [] {
      SignalKeeps(s, signals[0].0, signals[0].1, signals[0].2);
      SignalAllKeeps(Signal(s, signals[0].0, signals[0].1, signals[0].2), signals[1..]);
    }
  }

  lemma {:induction false} SignalAllKeepsReady(s: State, signals: seq<(Key, ObjType, bool)>, hand: seq<Key>)
    requires ReadyOk(s, hand)
    ensures ReadyOk(SignalAll(s, signals), hand)
    decreases |signals|
  {
    hide ReadyOk, Signal;
    if signals != [] {
      SignalKeepsReady(s, signals[0].0, signals[0].1, signals[0].2, hand);
      SignalAllKeepsReady(Signal(s, signals[0].0, signals[0].1, signals[0].2), signals[1..], hand);
    }
  }

  // ---------- one client ----------

  /** The client's entry for the key, then the client itself, are released. */
  ghost function Released(s: State, c: Id, k: Key): State
    requires Inv(s) && Waits(s, c, k)
  {
    DropOneKeeps(s, c, k);
    UnblockKeeps(Drop(s, c, {k}), c, false);
    UnblockClient(Drop(s, c, {k}), c, false)
  }

  lemma DropOneKeeps(s: State, c: Id, k: Key)
    requires Inv(s) && Waits(s, c, k)
    ensures Inv(Drop(s, c, {k})) && s.clients[c].btype != NONE
  {
    hide IndexOk, CountsOk;
    var t := Drop(s, c, {k});
    DropKeepsIndex(s, c, {k});
    SameTypesCount(s, t);
    OtherFieldsKeep(s, t, c);
  }

  /** Removing a client that is not blocked. */
  function Freed(s: State, c: Id): State {
    s.(clients := s.clients - {c}, unblocked := Without(s.unblocked, c))
  }

  lemma FreedKeeps(s: State, c: Id)
    requires Inv(s) && c in s.clients && s.clients[c].btype == NONE
    ensures Inv(Freed(s, c))
  {
    var t := Freed(s, c);
    IdleHasNoKeys(s, c);
    forall k ensures KeyOk(t, k) {
      assert KeyOk(s, k);
      assert !Listed(s, c, k);
      CountSame(s.clients, t.clients, WaitersOf(t, k));
      forall d ensures Waits(t, d, k) <==> Listed(t, d, k) {
        assert Waits(s, d, k) <==> Listed(s, d, k);
      }
    }
    WithoutMembers(s.unblocked, c);
    forall u: BType ensures TypeOk(t, u) {
      assert TypeOk(s, u);
      assert u != NONE ==> OfType(t, u) == OfType(s, u);
    }
    assert Regular(t) == Regular(s);
  }

  lemma UnpendingKeeps(s: State, c: Id)
    requires Inv(s) && c in s.clients
    ensures Inv(SetClient(s, c, s.clients[c].(pending := false)))
  {
    hide IndexOk, CountsOk, KeysOk, QueueOk;
    var t := SetClient(s, c, s.clients[c].(pending := false));
    FlagsKeepIndex(s, c, t.clients[c]);
    SameTypesCount(s, t);
    assert KeysOk(t) by { hide *; TypesAllowKeys(s, c, s.clients[c].(pending := false)); }
    assert QueueOk(t) by { QueueIgnoresPending(s, c, s.clients[c].(pending := false)); }
  }

  lemma TypesAllowKeys(s: State, c: Id, x: Client)
    requires KeysOk(s) && c in s.clients && x.keys == s.clients[c].keys && x.btype == s.clients[c].btype
    ensures KeysOk(SetClient(s, c, x))
  {
  }

  lemma QueueIgnoresPending(s: State, c: Id, x: Client)
    requires QueueOk(s) && c in s.clients && x.queued == s.clients[c].queued
    ensures QueueOk(SetClient(s, c, x))
  {
  }

  /** How the command that is executed again ends. */
  ghost function Ended(s: State, c: Id, a: Attempt): State
    requires Inv(s) && c in s.clients && s.clients[c].btype == NONE && Sensible(a)
  {
    match a.outcome
    case IsFreed => Freed(s, c)
    case BlocksAgain(b, ks, flag) => BlockForKeysKeeps(s, c, b, ks, flag); BlockForKeys(s, c, b, ks, flag)
    case Finishes => if s.clients[c].isModule then s else Queue(s, c)
  }

  /** The command is executed again, for a client that is no longer blocked. */
  ghost function Reexecuted(s: State, c: Id, a: Attempt): State
    requires Inv(s) && c in s.clients && s.clients[c].btype == NONE && Sensible(a)
  {
    SignalAllKeeps(s, a.during);
    Ended(SignalAll(s, a.during), c, a)
  }

  /** unblockClientOnKey */
  ghost function UnblockOnKey(s: State, c: Id, k: Key, a: Attempt): State
    requires Inv(s) && Waits(s, c, k) && Sensible(a)
  {
    ReleasedKeeps(s, c, k);
    var s1 := Released(s, c, k);
    if !s1.clients[c].pending then s1
    else
      UnpendingKeeps(s1, c);
      Reexecuted(SetClient(s1, c, s1.clients[c].(pending := false)), c, a)
  }

  lemma ReleasedKeeps(s: State, c: Id, k: Key)
    requires Inv(s) && Waits(s, c, k)
    ensures var t := Released(s, c, k);
            && Inv(t) && c in t.clients && t.clients[c].btype == NONE
            && t.ready == s.ready && t.readyDict == s.readyDict
  {
    DropOneKeeps(s, c, k);
    UnblockKeeps(Drop(s, c, {k}), c, false);
  }

  lemma EndedKeeps(s: State, c: Id, a: Attempt)
    requires Inv(s) && c in s.clients && s.clients[c].btype == NONE && Sensible(a)
    ensures var t := Ended(s, c, a); Inv(t) && t.ready == s.ready && t.readyDict == s.readyDict
  {
    hide Inv;
    match a.outcome
    case IsFreed => FreedKeeps(s, c);
    case BlocksAgain(b, ks, flag) =>
      BlockForKeysKeeps(s, c, b, ks, flag);
      BlockForKeysFrame(s, c, b, ks, flag);
    case Finishes => QueueKeeps(s, c);
  }

  lemma BlockForKeysFrame(s: State, c: Id, b: BType, ks: seq<Key>, flag: bool)
    requires Inv(s) && c in s.clients && s.clients[c].btype == NONE && b in s.byType
    ensures var t := BlockForKeys(s, c, b, ks, flag); t.ready == s.ready && t.readyDict == s.readyDict
  {
    IdleHasNoKeys(s, c);
    EnlistedKeeps(s, c, ks, flag);
  }

  lemma ReexecutedKeeps(s: State, c: Id, a: Attempt, hand: seq<Key>)
    requires Inv(s) && c in s.clients && s.clients[c].btype == NONE && Sensible(a)
    ensures var t := Reexecuted(s, c, a);
            Inv(t) && s.ready <= t.ready && (ReadyOk(s, hand) ==> ReadyOk(t, hand))
  {
    hide Inv, Ended, SignalAll;
    SignalAllKeeps(s, a.during);
    EndedKeeps(SignalAll(s, a.during), c, a);
    if ReadyOk(s, hand) {
      SignalAllKeepsReady(s, a.during, hand);
    }
  }

  lemma UnblockOnKeyKeeps(s: State, c: Id, k: Key, a: Attempt, hand: seq<Key>)
    requires Inv(s) && Waits(s, c, k) && Sensible(a)
    ensures var t := UnblockOnKey(s, c, k, a);
            Inv(t) && s.ready <= t.ready && (ReadyOk(s, hand) ==> ReadyOk(t, hand))
  {
    hide Inv, Released, Reexecuted;
    ReleasedKeeps(s, c, k);
    var s1 := Released(s, c, k);
    if s1.clients[c].pending {
      UnpendingKeeps(s1, c);
      ReexecutedKeeps(SetClient(s1, c, s1.clients[c].(pending := false)), c, a, hand);
    }
  }

  // ---------- the effect on the list that is being walked ----------

  lemma {:induction false} AddWaitersAt(s: State, c: Id, ks: seq<Key>, flag: bool, k: Key)
    requires c in s.clients
    ensures WaitersOf(AddWaiters(s, c, ks, flag), k) ==
            WaitersOf(s, k) + (if k in ks && k !in s.clients[c].keys then [c] else [])
    ensures forall d :: d in s.clients && d != c ==>
              d in AddWaiters(s, c, ks, flag).clients && AddWaiters(s, c, ks, flag).clients[d] == s.clients[d]
    decreases |ks|
  {
    if ks != [] {
      AddWaitersAt(AddWaiter(s, c, ks[0], flag), c, ks[1..], flag, k);
      assert ks == [ks[0]] + ks[1..];
    }
  }

  /** Other clients' own records do not change. */
  ghost predicate SameOthers(s: State, t: State, c: Id) {
    forall d :: d in s.clients && d != c ==> d in t.clients && t.clients[d] == s.clients[d]
  }

  lemma ReleasedAt(s: State, c: Id, k: Key)
    requires Inv(s) && Waits(s, c, k)
    ensures var t := Released(s, c, k);
            && WaitersOf(t, k) == Without(WaitersOf(s, k), c) && SameOthers(s, t, c)
            && c in t.clients && t.clients[c] == s.clients[c].(btype := NONE, onNokey := false, keys := {})
  {
    DropOneKeeps(s, c, k);
    var s1 := Drop(s, c, {k});
    UnblockKeeps(s1, c, false);
    DropWaiters(s, c, {k}, k);
    DropWaiters(s1, c, s1.clients[c].keys, k);
    assert s1.clients[c].keys - s1.clients[c].keys == {};
  }

  lemma BlockForKeysAt(s: State, c: Id, b: BType, ks: seq<Key>, flag: bool, k: Key)
    requires c in s.clients && b in s.byType && s.clients[c].keys == {}
    ensures var t := BlockForKeys(s, c, b, ks, flag);
            SameOthers(s, t, c) && WaitersOf(t, k) == WaitersOf(s, k) + (if k in ks then [c] else [])
  {
    AddWaitersAt(SetClient(s, c, s.clients[c].(onNokey := flag)), c, ks, flag, k);
  }

  /** The client's command ran again and blocked on the same key once more. */
  predicate ComesBack(x: Client, k: Key, a: Attempt) {
    x.pending && a.outcome.BlocksAgain? && k in a.outcome.ks
  }

  lemma ReexecutedAt(s: State, c: Id, k: Key, a: Attempt)
    requires Inv(s) && c in s.clients && s.clients[c].btype == NONE && s.clients[c].keys == {} && Sensible(a)
    ensures var t := Reexecuted(s, c, a);
            && SameOthers(s, t, c)
            && WaitersOf(t, k) == WaitersOf(s, k) + (if a.outcome.BlocksAgain? && k in a.outcome.ks then [c] else [])
  {
    hide Inv, Ended, SignalAll;
    SignalAllKeeps(s, a.during);
    EndedAt(SignalAll(s, a.during), c, k, a);
  }

  lemma EndedAt(s: State, c: Id, k: Key, a: Attempt)
    requires Inv(s) && c in s.clients && s.clients[c].btype == NONE && s.clients[c].keys == {} && Sensible(a)
    ensures var t := Ended(s, c, a);
            && SameOthers(s, t, c)
            && WaitersOf(t, k) == WaitersOf(s, k) + (if a.outcome.BlocksAgain? && k in a.outcome.ks then [c] else [])
  {
    hide Inv;
    match a.outcome
    case IsFreed =>
    case BlocksAgain(b, ks, flag) =>
      BlockForKeysKeeps(s, c, b, ks, flag);
      BlockForKeysAt(s, c, b, ks, flag, k);
    case Finishes =>
  }

  lemma UnblockOnKeyAt(s: State, c: Id, k: Key, a: Attempt)
    requires Inv(s) && Waits(s, c, k) && Sensible(a)
    ensures var t := UnblockOnKey(s, c, k, a);
            && SameOthers(s, t, c)
            && WaitersOf(t, k) == Without(WaitersOf(s, k), c) + (if ComesBack(s.clients[c], k, a) then [c] else [])
  {
    hide Inv, Released, Reexecuted;
    ReleasedKeeps(s, c, k);
    ReleasedAt(s, c, k);
    var s1 := Released(s, c, k);
    if s1.clients[c].pending {
      UnpendingKeeps(s1, c);
      ReexecutedAt(SetClient(s1, c, s1.clients[c].(pending := false)), c, k, a);
    }
  }

  // ---------- one pass ----------

  /** A client whose turn ends its wait. For a client blocked by a module, the module is asked
      and the client leaves the list only later. */
  predicate Served(x: Client, a: Attempt) {
    Eligible(x, a.stored) && x.btype != MODULE
  }

  /** One turn of the loop of handleClientsBlockedOnKey. */
  ghost function Turn(s: State, c: Id, k: Key, a: Attempt): State
    requires Inv(s) && Waits(s, c, k) && Sensible(a)
  {
    var x := s.clients[c];
    if !Eligible(x, a.stored) then s
    else SignalAll(if Served(x, a) then UnblockOnKey(s, c, k, a) else s, a.signals)
  }

  /** A client that is served waits for data, as unblockClientOnKey asserts. */
  lemma ServedWaitsForData(s: State, c: Id, k: Key, a: Attempt)
    requires Inv(s) && Waits(s, c, k) && Served(s.clients[c], a)
    ensures WaitsForData(s.clients[c].btype)
  {
    assert s.clients[c].keys != {};
  }

  lemma TurnKeeps(s: State, c: Id, k: Key, a: Attempt)
    requires Inv(s) && Waits(s, c, k) && Sensible(a)
    ensures var t := Turn(s, c, k, a); Inv(t) && s.ready <= t.ready
  {
    hide Inv, UnblockOnKey;
    UnblockOnKeyKeeps(s, c, k, a, []);
    var s1 := if Served(s.clients[c], a) then UnblockOnKey(s, c, k, a) else s;
    SignalAllKeeps(s1, a.signals);
  }

  lemma TurnKeepsReady(s: State, c: Id, k: Key, a: Attempt, hand: seq<Key>)
    requires Inv(s) && Waits(s, c, k) && Sensible(a) && ReadyOk(s, hand)
    ensures ReadyOk(Turn(s, c, k, a), hand)
  {
    hide Inv, UnblockOnKey, SignalAll;
    UnblockOnKeyKeeps(s, c, k, a, hand);
    var s1 := if Served(s.clients[c], a) then UnblockOnKey(s, c, k, a) else s;
    SignalAllKeepsReady(s1, a.signals, hand);
  }

  lemma TurnAt(s: State, c: Id, k: Key, a: Attempt)
    requires Inv(s) && Waits(s, c, k) && Sensible(a)
    ensures var t := Turn(s, c, k, a);
            && SameOthers(s, t, c)
            && WaitersOf(t, k) == if !Served(s.clients[c], a) then WaitersOf(s, k)
                                  else Without(WaitersOf(s, k), c) + (if ComesBack(s.clients[c], k, a) then [c] else [])
  {
    hide Inv, UnblockOnKey, SignalAll;
    UnblockOnKeyKeeps(s, c, k, a, []);
    UnblockOnKeyAt(s, c, k, a);
    var s1 := if Served(s.clients[c], a) then UnblockOnKey(s, c, k, a) else s;
    SignalAllKeeps(s1, a.signals);
  }

  /** The client after `c` in a list; what the list iterator fetches before `c` is served. */
  function Successor(l: seq<Id>, c: Id): Option<Id> {
    if l == [] then None
    else if l[0] == c then (if |l| == 1 then None else Some(l[1]))
    else Successor(l[1..], c)
  }

  lemma {:induction false} SuccessorAt(l: seq<Id>, i: nat)
    requires NoDup(l) && i < |l|
    ensures Successor(l, l[i]) == if i + 1 < |l| then Some(l[i + 1]) else None
  {
    if i > 0 {
      assert NoDup(l[1..]);
      SuccessorAt(l[1..], i - 1);
    }
  }

  lemma {:induction false} WithoutAt(l: seq<Id>, i: nat)
    requires NoDup(l) && i < |l|
    ensures Without(l, l[i]) == l[..i] + l[i + 1..]
  {
    if i > 0 {
      assert NoDup(l[1..]);
      WithoutAt(l[1..], i - 1);
      assert [l[0]] + (l[1..][..i - 1] + l[1..][i..]) == l[..i] + l[i + 1..];
    }
  }

  lemma WaitersNoDup(s: State, k: Key)
    requires Inv(s)
    ensures NoDup(WaitersOf(s, k))
    ensures forall c :: c in WaitersOf(s, k) <==> Waits(s, c, k)
  {
    assert KeyOk(s, k);
    forall c ensures c in WaitersOf(s, k) <==> Waits(s, c, k) {
      assert Waits(s, c, k) <==> Listed(s, c, k);
    }
  }

  /** The node that the iterator holds is still in the list after the turn: serving a client
      unlinks no node but its own. */
  lemma IteratorStaysValid(s: State, c: Id, k: Key, a: Attempt)
    requires Inv(s) && Waits(s, c, k) && Sensible(a)
    ensures var next := Successor(WaitersOf(s, k), c);
            next.Some? ==> next.value != c && Waits(Turn(s, c, k, a), next.value, k)
  {
    hide Turn, Inv;
    var l := WaitersOf(s, k);
    WaitersNoDup(s, k);
    var i :| 0 <= i < |l| && l[i] == c;
    SuccessorAt(l, i);
    TurnAt(s, c, k, a);
    TurnKeeps(s, c, k, a);
    if i + 1 < |l| {
      assert l[i + 1] in l;
      assert Waits(s, l[i + 1], k);
    }
  }

  /** handleClientsBlockedOnKey: the state after the pass, and the clients that had a turn. The
      precondition on `next` is that the iterator points to a node of the list. */
  ghost function Pass(s: State, k: Key, next: Option<Id>, count: nat, turn: nat, attempts: nat -> Attempt): (State, seq<Id>)
    requires Inv(s) && (next.Some? ==> Waits(s, next.value, k))
    requires forall i :: Sensible(attempts(i))
    decreases count
  {
    if next.None? || count == 0 then (s, [])
    else
      var c := next.value;
      TurnKeeps(s, c, k, attempts(turn));
      IteratorStaysValid(s, c, k, attempts(turn));
      var r := Pass(Turn(s, c, k, attempts(turn)), k, Successor(WaitersOf(s, k), c), count - 1, turn + 1, attempts);
      (r.0, [c] + r.1)
  }

  lemma {:induction false} PassKeeps(s: State, k: Key, next: Option<Id>, count: nat, turn: nat, attempts: nat -> Attempt, hand: seq<Key>)
    requires Inv(s) && (next.Some? ==> Waits(s, next.value, k)) && ReadyOk(s, hand)
    requires forall i :: Sensible(attempts(i))
    ensures var r := Pass(s, k, next, count, turn, attempts);
            Inv(r.0) && ReadyOk(r.0, hand) && s.ready <= r.0.ready
    decreases count
  {
    hide Inv, ReadyOk, Turn;
    if next.Some? && count > 0 {
      var c := next.value;
      TurnKeeps(s, c, k, attempts(turn));
      TurnKeepsReady(s, c, k, attempts(turn), hand);
      IteratorStaysValid(s, c, k, attempts(turn));
      PassKeeps(Turn(s, c, k, attempts(turn)), k, Successor(WaitersOf(s, k), c), count - 1, turn + 1, attempts, hand);
    }
  }

  /** The waiters that their turn leaves where they are. */
  function Passed(clients: map<Id, Client>, l: seq<Id>, turn: nat, attempts: nat -> Attempt): seq<Id>
    requires forall c :: c in l ==> c in clients
  {
    if l == [] then []
    else (if Served(clients[l[0]], attempts(turn)) then [] else [l[0]]) + Passed(clients, l[1..], turn + 1, attempts)
  }

  /** The waiters that are served and block on the key again. */
  function Returned(clients: map<Id, Client>, k: Key, l: seq<Id>, turn: nat, attempts: nat -> Attempt): seq<Id>
    requires forall c :: c in l ==> c in clients
  {
    if l == [] then []
    else
      var a := attempts(turn);
      (if Served(clients[l[0]], a) && ComesBack(clients[l[0]], k, a) then [l[0]] else []) +
      Returned(clients, k, l[1..], turn + 1, attempts)
  }

  lemma {:induction false} PassedSame(a: map<Id, Client>, b: map<Id, Client>, k: Key, l: seq<Id>, turn: nat, attempts: nat -> Attempt)
    requires forall c :: c in l ==> c in a && c in b && a[c] == b[c]
    ensures Passed(a, l, turn, attempts) == Passed(b, l, turn, attempts)
    ensures Returned(a, k, l, turn, attempts) == Returned(b, k, l, turn, attempts)
  {
    if l != [] {
      PassedSame(a, b, k, l[1..], turn + 1, attempts);
    }
  }

  /** The list after one turn, when the list is `kept + todo + back` and `todo` starts with the
      client whose turn it is. */
  lemma TurnMoves(s: State, k: Key, kept: seq<Id>, todo: seq<Id>, back: seq<Id>, a: Attempt)
    requires Inv(s) && Sensible(a) && todo != [] && WaitersOf(s, k) == kept + todo + back
    ensures Waits(s, todo[0], k)
    ensures Successor(WaitersOf(s, k), todo[0]) == if todo[1..] + back == [] then None else Some((todo[1..] + back)[0])
    ensures var x := s.clients[todo[0]];
            WaitersOf(Turn(s, todo[0], k, a), k) ==
              (kept + (if Served(x, a) then [] else [todo[0]])) + todo[1..] +
              (back + (if Served(x, a) && ComesBack(x, k, a) then [todo[0]] else []))
  {
    hide Turn, Inv, Served, ComesBack;
    var l := WaitersOf(s, k);
    WaitersNoDup(s, k);
    var i := |kept|;
    assert l[i] == todo[0];
    SuccessorAt(l, i);
    WithoutAt(l, i);
    TurnAt(s, todo[0], k, a);
    assert l[i + 1..] == todo[1..] + back;
    assert l[..i] == kept;
    assert kept + [todo[0]] + todo[1..] + back == l;
  }

  /** Every client still to come keeps its record, and its place in front of those that came
      back. */
  lemma {:induction false} PassWalks(s: State, k: Key, kept: seq<Id>, todo: seq<Id>, back: seq<Id>, turn: nat, attempts: nat -> Attempt)
    requires Inv(s) && WaitersOf(s, k) == kept + todo + back
    requires forall i :: Sensible(attempts(i))
    ensures forall c :: c in todo ==> c in s.clients && Waits(s, c, k)
    ensures back != [] ==> Waits(s, back[0], k)
    ensures var next := if todo + back == [] then None else Some((todo + back)[0]);
            var r := Pass(s, k, next, |todo|, turn, attempts);
            && r.1 == todo
            && WaitersOf(r.0, k) ==
               kept + Passed(s.clients, todo, turn, attempts) + (back + Returned(s.clients, k, todo, turn, attempts))
    decreases |todo|
  {
    hide Inv, Turn, Served, ComesBack;
    WaitersNoDup(s, k);
    var l := WaitersOf(s, k);
    assert forall c :: c in todo ==> c in l;
    assert back != [] ==> back[0] in l;
    var next := if todo + back == [] then None else Some((todo + back)[0]);
    if todo == [] {
      assert kept + todo + back == kept + back;
    } else {
      var c, a := todo[0], attempts(turn);
      TurnMoves(s, k, kept, todo, back, a);
      TurnKeeps(s, c, k, a);
      TurnAt(s, c, k, a);
      var t := Turn(s, c, k, a);
      var stays := if Served(s.clients[c], a) then [] else [c];
      var comes := if Served(s.clients[c], a) && ComesBack(s.clients[c], k, a) then [c] else [];
      PassStep(s, k, kept, todo, back, turn, attempts, t, stays, comes);
    }
  }

  lemma RestUntouched(s: State, t: State, k: Key, kept: seq<Id>, todo: seq<Id>, back: seq<Id>)
    requires Inv(s) && todo != [] && WaitersOf(s, k) == kept + todo + back && SameOthers(s, t, todo[0])
    ensures forall c :: c in todo ==> c in s.clients
    ensures forall c :: c in todo[1..] ==> c in s.clients && c in t.clients && s.clients[c] == t.clients[c]
  {
    hide Inv;
    WaitersNoDup(s, k);
    var l, rest := WaitersOf(s, k), todo[1..];
    assert forall c :: c in todo ==> c in l && Waits(s, c, k);
    forall c | c in rest ensures c in s.clients && c in t.clients && s.clients[c] == t.clients[c] {
      var i :| 0 <= i < |rest| && rest[i] == c;
      assert l[|kept|] == todo[0] && l[|kept| + 1 + i] == c;
      assert c in todo;
    }
  }

  lemma PassUnfolds(s: State, k: Key, todo: seq<Id>, back: seq<Id>, comes: seq<Id>, turn: nat, attempts: nat -> Attempt)
    requires Inv(s) && todo != [] && Waits(s, todo[0], k)
    requires forall i :: Sensible(attempts(i))
    requires Successor(WaitersOf(s, k), todo[0]) == if todo[1..] + back == [] then None else Some((todo[1..] + back)[0])
    requires var q := todo[1..] + (back + comes); q != [] ==> Waits(Turn(s, todo[0], k, attempts(turn)), q[0], k)
    ensures var t := Turn(s, todo[0], k, attempts(turn));
            var q := todo[1..] + (back + comes);
            && Inv(t)
            && (var r := Pass(t, k, if q == [] then None else Some(q[0]), |todo| - 1, turn + 1, attempts);
                Pass(s, k, Some(todo[0]), |todo|, turn, attempts) == (r.0, [todo[0]] + r.1))
  {
    hide Inv, Turn, Successor;
    TurnKeeps(s, todo[0], k, attempts(turn));
    IteratorStaysValid(s, todo[0], k, attempts(turn));
    var t := Turn(s, todo[0], k, attempts(turn));
    var next := Successor(WaitersOf(s, k), todo[0]);
    var q := todo[1..] + (back + comes);
    var next' := if q == [] then None else Some(q[0]);
    if |todo| == 1 {
      assert Pass(t, k, next, 0, turn + 1, attempts) == (t, []) == Pass(t, k, next', 0, turn + 1, attempts);
    } else {
      assert next == next';
    }
  }

  lemma PassedUnfolds(clients: map<Id, Client>, k: Key, l: seq<Id>, turn: nat, attempts: nat -> Attempt)
    requires l != [] && forall c :: c in l ==> c in clients
    ensures forall c :: c in l[1..] ==> c in clients
    ensures Passed(clients, l, turn, attempts) ==
            (if Served(clients[l[0]], attempts(turn)) then [] else [l[0]]) + Passed(clients, l[1..], turn + 1, attempts)
    ensures Returned(clients, k, l, turn, attempts) ==
            (if Served(clients[l[0]], attempts(turn)) && ComesBack(clients[l[0]], k, attempts(turn)) then [l[0]] else []) +
            Returned(clients, k, l[1..], turn + 1, attempts)
  {
  }

  lemma Regroup<T>(a: seq<T>, b: seq<T>, c: seq<T>, d: seq<T>, e: seq<T>, f: seq<T>)
    ensures (a + b) + c + ((d + e) + f) == a + (b + c) + (d + (e + f))
  {
  }

  lemma {:induction false} PassStep(s: State, k: Key, kept: seq<Id>, todo: seq<Id>, back: seq<Id>, turn: nat,
                                    attempts: nat -> Attempt, t: State, stays: seq<Id>, comes: seq<Id>)
    requires Inv(s) && todo != [] && WaitersOf(s, k) == kept + todo + back
    requires forall i :: Sensible(attempts(i))
    requires Waits(s, todo[0], k) && t == Turn(s, todo[0], k, attempts(turn)) && Inv(t)
    requires SameOthers(s, t, todo[0])
    requires WaitersOf(t, k) == (kept + stays) + todo[1..] + (back + comes)
    requires stays == if Served(s.clients[todo[0]], attempts(turn)) then [] else [todo[0]]
    requires comes == if Served(s.clients[todo[0]], attempts(turn)) && ComesBack(s.clients[todo[0]], k, attempts(turn)) then [todo[0]] else []
    requires Successor(WaitersOf(s, k), todo[0]) == if todo[1..] + back == [] then None else Some((todo[1..] + back)[0])
    requires forall c :: c in todo ==> c in s.clients
    ensures var r := Pass(s, k, Some(todo[0]), |todo|, turn, attempts);
            && r.1 == todo
            && WaitersOf(r.0, k) ==
               kept + Passed(s.clients, todo, turn, attempts) + (back + Returned(s.clients, k, todo, turn, attempts))
    decreases |todo|, 0
  {
    hide Inv, Turn, Served, ComesBack, Successor, WaitersOf, Pass, Passed, Returned;
    var rest := todo[1..];
    PassWalks(t, k, kept + stays, rest, back + comes, turn + 1, attempts);
    assert var q := rest + (back + comes); q != [] ==> Waits(t, q[0], k);
    PassUnfolds(s, k, todo, back, comes, turn, attempts);
    RestUntouched(s, t, k, kept, todo, back);
    PassedSame(s.clients, t.clients, k, rest, turn + 1, attempts);
    PassedUnfolds(s.clients, k, todo, turn, attempts);
    Regroup(kept, stays, Passed(t.clients, rest, turn + 1, attempts), back, comes, Returned(t.clients, k, rest, turn + 1, attempts));
    assert [todo[0]] + rest == todo;
  }
}

/**
 Clients that want to hear of the end of a key, and the objects stored at the keys. XREADGROUP
 blocks on streams that exist, and whoever removes or replaces an object signals the key with
 the type of the old object first. So the quick return by type never keeps a deletion from such
 a client: in every reachable state its key holds a stream or is queued (`ListenerIsHeard`). A
 module can block on a key of any type, and there the type can matter (`DeletionIsHeardIff`).
 */
module BlockedDb {
  import opened Common
  import opened Blocked
  import opened BlockedReady
  import opened BlockedPass
  import opened BlockedRun

  // ---------- stored objects ----------

  type Db = map<Key, ObjType>

  /** One change of the database: an object is added, an object is written to, the key is
      removed, another object takes its place; or a module calls for attention. */
  datatype Change = Add(k: Key, t: ObjType) | Touch(k: Key) | Remove(k: Key) | Replace(k: Key, t: ObjType) | Call(k: Key)

  function SignalOf(d: Db, x: Change): seq<(Key, ObjType, bool)> {
    match x
    case Add(k, t) => if k in d then [] else [(k, t, false)]
    case Touch(k) => if k in d then [(k, d[k], false)] else []
    case Remove(k) => if k in d then [(k, d[k], true)] else []
    case Replace(k, t) => if k in d then [(k, d[k], true)] else [(k, t, false)]
    case Call(k) => [(k, OBJ_MODULE, false)]
  }

  function Changed(d: Db, x: Change): Db {
    match x
    case Add(k, t) => if k in d then d else d[k := t]
    case Remove(k) => d - {k}
    case Replace(k, t) => d[k := t]
    case _ => d
  }

  function Signals(d: Db, xs: seq<Change>): seq<(Key, ObjType, bool)>
    decreases |xs|
  {
    if xs == [] then [] else SignalOf(d, xs[0]) + Signals(Changed(d, xs[0]), xs[1..])
  }

  function ChangedAll(d: Db, xs: seq<Change>): Db
    decreases |xs|
  {
    if xs == [] then d else ChangedAll(Changed(d, xs[0]), xs[1..])
  }

  predicate HoldsStream(d: Db, k: Key) {
    k in d && d[k] == OBJ_STREAM
  }

  // ---------- who listens ----------

  /** A client of XREADGROUP that waits for the key. */
  predicate Listens(clients: map<Id, Client>, c: Id, k: Key) {
    c in clients && k in clients[c].keys && clients[c].onNokey && clients[c].btype == STREAM
  }

  /** Every listener's key holds a stream, or is queued, or the client is among the `rest` that the
      running pass over key `p` has still to try. */
  ghost predicate Heard(clients: map<Id, Client>, d: Db, queue: seq<Key>, p: Key, rest: seq<Id>) {
    forall c, k :: Listens(clients, c, k) ==> HoldsStream(d, k) || k in queue || (k == p && c in rest)
  }

  /** Signals change nothing but the queue, which grows. */
  lemma SignalsOnlyQueue(s: State, sigs: seq<(Key, ObjType, bool)>, hand: seq<Key>)
    requires Inv(s)
    ensures var t := SignalAll(s, sigs);
            Inv(t) && t.clients == s.clients && forall k :: k in s.ready + hand ==> k in t.ready + hand
  {
    hide Inv;
    SignalAllKeeps(s, sigs);
  }

  /** A change is heard: if it takes a stream away, the key is queued. */
  lemma ChangeIsHeard(s: State, d: Db, x: Change, hand: seq<Key>, p: Key, rest: seq<Id>)
    requires Inv(s) && ReadyOk(s, hand) && Heard(s.clients, d, s.ready + hand, p, rest)
    ensures var t := SignalAll(s, SignalOf(d, x)); Heard(t.clients, Changed(d, x), t.ready + hand, p, rest)
  {
    hide Inv, ReadyOk, Signal;
    var sigs := SignalOf(d, x);
    var t := SignalAll(s, sigs);
    SignalsOnlyQueue(s, sigs, hand);
    forall c, k | Listens(t.clients, c, k)
      ensures HoldsStream(Changed(d, x), k) || k in t.ready + hand || (k == p && c in rest)
    {
      if HoldsStream(d, k) && !HoldsStream(Changed(d, x), k) {
        assert sigs == [(k, OBJ_STREAM, true)];
        assert sigs[1..] == [];
        assert Waits(s, c, k);
        NoLostWakeup(s, k, OBJ_STREAM, true, hand, c);
        assert t == Signal(s, k, OBJ_STREAM, true);
      }
    }
  }

  lemma {:induction false} SignalAllConcat(s: State, a: seq<(Key, ObjType, bool)>, b: seq<(Key, ObjType, bool)>)
    ensures SignalAll(s, a + b) == SignalAll(SignalAll(s, a), b)
    decreases |a|
  {
    hide Signal;
    if a == [] {
      assert a + b == b;
    } else {
      assert (a + b)[1..] == a[1..] + b;
      SignalAllConcat(Signal(s, a[0].0, a[0].1, a[0].2), a[1..], b);
    }
  }

  lemma {:induction false} ChangesAreHeard(s: State, d: Db, xs: seq<Change>, hand: seq<Key>, p: Key, rest: seq<Id>)
    requires Inv(s) && ReadyOk(s, hand) && Heard(s.clients, d, s.ready + hand, p, rest)
    ensures var t := SignalAll(s, Signals(d, xs));
            Inv(t) && ReadyOk(t, hand) && t.clients == s.clients && Heard(t.clients, ChangedAll(d, xs), t.ready + hand, p, rest)
    decreases |xs|
  {
    hide Inv, ReadyOk, Heard, SignalOf;
    SignalsOnlyQueue(s, Signals(d, xs), hand);
    SignalAllKeepsReady(s, Signals(d, xs), hand);
    if xs != [] {
      var sigs := SignalOf(d, xs[0]);
      ChangeIsHeard(s, d, xs[0], hand, p, rest);
      SignalsOnlyQueue(s, sigs, hand);
      SignalAllKeepsReady(s, sigs, hand);
      SignalAllConcat(s, sigs, Signals(Changed(d, xs[0]), xs[1..]));
      ChangesAreHeard(SignalAll(s, sigs), Changed(d, xs[0]), xs[1..], hand, p, rest);
    }
  }

  // ---------- a command that runs again ----------

  /** What a served command does to the database, how it ends, and what the server does after. */
  datatype Act = Act(during: seq<Change>, outcome: Outcome, after: seq<Change>)

  function Found(d: Db, k: Key): Option<ObjType> {
    if k in d then Some(d[k]) else None
  }

  /** XREADGROUP ends with an error unless every key holds a stream; only it and modules ask to be
      told of the end of a key. */
  function OutcomeOn(d: Db, o: Outcome): Outcome {
    if o.BlocksAgain? && o.flag && o.b != MODULE && !(o.b == STREAM && forall k :: k in o.ks ==> HoldsStream(d, k)) then Finishes else o
  }

  /** The database when the command ends: its own changes are made if it runs at all. */
  function Midway(d: Db, k: Key, x: Client, act: Act): Db {
    if Eligible(x, Found(d, k)) && x.btype != MODULE && x.pending then ChangedAll(d, act.during) else d
  }

  function AttemptOf(d: Db, k: Key, x: Client, act: Act): Attempt {
    var mid := Midway(d, k, x, act);
    Attempt(Found(d, k), Signals(d, act.during), OutcomeOn(mid, act.outcome), Signals(mid, act.after))
  }

  function DbAfter(d: Db, k: Key, x: Client, act: Act): Db {
    if Eligible(x, Found(d, k)) then ChangedAll(Midway(d, k, x, act), act.after) else d
  }

  predicate Proper(act: Act) {
    act.outcome.BlocksAgain? ==> WaitsForData(act.outcome.b) || act.outcome.b == MODULE
  }

  /** After a step of client `c` only `c` can be a new listener, and then on streams. */
  lemma OneClientMoves(before: map<Id, Client>, after: map<Id, Client>, d: Db, queue: seq<Key>, p: Key, c: Id, rest: seq<Id>)
    requires Heard(before, d, queue, p, [c] + rest)
    requires forall i :: i in after && i != c ==> i in before && after[i] == before[i]
    requires forall k :: Listens(after, c, k) ==> HoldsStream(d, k)
    ensures Heard(after, d, queue, p, rest)
  {
    forall i, k | Listens(after, i, k) ensures HoldsStream(d, k) || k in queue || (k == p && i in rest) {
      if i != c {
        assert Listens(before, i, k);
        assert i in [c] + rest ==> i in rest;
      }
    }
  }

  lemma ReleasedClients(s: State, c: Id, k: Key)
    requires Inv(s) && Waits(s, c, k)
    ensures var t := Released(s, c, k);
            && t.clients.Keys == s.clients.Keys && c in t.clients
            && t.clients[c] == s.clients[c].(btype := NONE, onNokey := false, keys := {})
            && forall i :: i in t.clients && i != c ==> t.clients[i] == s.clients[i]
  {
    hide Inv;
    DropOneKeeps(s, c, k);
    UnblockKeeps(Drop(s, c, {k}), c, false);
    ReleasedAt(s, c, k);
    hide Blocked.Unlink;
  }

  /** However the command ends, only its own client changes; it listens only if it blocked on
      streams once more. */
  lemma EndedClients(s: State, c: Id, a: Attempt)
    requires Inv(s) && c in s.clients && s.clients[c].btype == NONE && s.clients[c].keys == {} && Sensible(a)
    ensures var t := Ended(s, c, a);
            && (forall i :: i in t.clients && i != c ==> i in s.clients && t.clients[i] == s.clients[i])
            && (forall k :: Listens(t.clients, c, k) ==>
                  a.outcome.BlocksAgain? && a.outcome.flag && a.outcome.b == STREAM && k in a.outcome.ks)
  {
    hide IndexOk, CountsOk, KeysOk, QueueOk, Enlisted;
    if a.outcome.BlocksAgain? {
      var o := a.outcome;
      BlockForKeysKeeps(s, c, o.b, o.ks, o.flag);
      EnlistedKeeps(s, c, o.ks, o.flag);
    }
  }

  /** One turn of the pass. A listener is always eligible, so its turn ends its wait. */
  lemma TurnIsHeard(s: State, d: Db, c: Id, k: Key, act: Act, hand: seq<Key>, rest: seq<Id>)
    requires Inv(s) && ReadyOk(s, hand) && Waits(s, c, k) && Proper(act)
    requires Heard(s.clients, d, s.ready + hand, k, [c] + rest)
    ensures var a := AttemptOf(d, k, s.clients[c], act);
            var t := Turn(s, c, k, a);
            Sensible(a) && Heard(t.clients, DbAfter(d, k, s.clients[c], act), t.ready + hand, k, rest)
  {
    hide Inv, ReadyOk, UnblockOnKey, SignalAll, ChangedAll, Signals;
    var x := s.clients[c];
    var a := AttemptOf(d, k, x, act);
    var mid := Midway(d, k, x, act);
    if !Served(x, a) {
      OneClientMoves(s.clients, s.clients, d, s.ready + hand, k, c, rest);
      if Eligible(x, a.stored) {
        ChangesAreHeard(s, d, act.after, hand, k, rest);
      }
    } else {
      ServedIsHeard(s, d, c, k, act, hand, rest);
      UnblockOnKeyKeeps(s, c, k, a, hand);
      ChangesAreHeard(UnblockOnKey(s, c, k, a), mid, act.after, hand, k, rest);
    }
  }

  lemma ServedIsHeard(s: State, d: Db, c: Id, k: Key, act: Act, hand: seq<Key>, rest: seq<Id>)
    requires Inv(s) && ReadyOk(s, hand) && Waits(s, c, k) && Proper(act)
    requires Heard(s.clients, d, s.ready + hand, k, [c] + rest)
    requires Served(s.clients[c], AttemptOf(d, k, s.clients[c], act))
    ensures var a := AttemptOf(d, k, s.clients[c], act);
            var t := UnblockOnKey(s, c, k, a);
            Sensible(a) && Heard(t.clients, Midway(d, k, s.clients[c], act), t.ready + hand, k, rest)
  {
    hide Inv, ReadyOk, Released, Ended, SignalAll, ChangedAll, Signals;
    var x := s.clients[c];
    var a := AttemptOf(d, k, x, act);
    ReleasedKeeps(s, c, k);
    ReleasedClients(s, c, k);
    var s1 := Released(s, c, k);
    OneClientMoves(s.clients, s1.clients, d, s1.ready + hand, k, c, rest);
    ReadyUntouched(s, s1, hand);
    if x.pending {
      var s2 := SetClient(s1, c, s1.clients[c].(pending := false));
      UnpendingKeeps(s1, c);
      OneClientMoves(s.clients, s2.clients, d, s2.ready + hand, k, c, rest);
      ReadyUntouched(s1, s2, hand);
      ChangesAreHeard(s2, d, act.during, hand, k, rest);
      var s3 := SignalAll(s2, a.during);
      var mid := Midway(d, k, x, act);
      EndedKeeps(s3, c, a);
      EndedClients(s3, c, a);
      var t := Ended(s3, c, a);
      OneClientMoves(s3.clients, t.clients, mid, t.ready + hand, k, c, rest);
    }
  }

  // ---------- a pass ----------

  /** What the turns of a pass find and do, as a list: the attempts, and the database at the end.
      The iterator walks as in `Pass`. */
  ghost function Attempts(s: State, d: Db, k: Key, next: Option<Id>, count: nat, turn: nat, acts: nat -> Act): (seq<Attempt>, Db)
    requires Inv(s) && (next.Some? ==> Waits(s, next.value, k)) && forall i :: Proper(acts(i))
    decreases count
  {
    if next.None? || count == 0 then ([], d)
    else
      var c := next.value;
      var a := AttemptOf(d, k, s.clients[c], acts(turn));
      assert Proper(acts(turn));
      TurnKeeps(s, c, k, a);
      IteratorStaysValid(s, c, k, a);
      var r := Attempts(Turn(s, c, k, a), DbAfter(d, k, s.clients[c], acts(turn)), k, Successor(WaitersOf(s, k), c), count - 1, turn + 1, acts);
      ([a] + r.0, r.1)
  }

  lemma {:induction false} AttemptsSensible(s: State, d: Db, k: Key, next: Option<Id>, count: nat, turn: nat, acts: nat -> Act)
    requires Inv(s) && (next.Some? ==> Waits(s, next.value, k)) && forall i :: Proper(acts(i))
    ensures forall a :: a in Attempts(s, d, k, next, count, turn, acts).0 ==> Sensible(a)
    decreases count
  {
    hide Inv, Turn;
    if next.Some? && count > 0 {
      var c := next.value;
      var a := AttemptOf(d, k, s.clients[c], acts(turn));
      assert Proper(acts(turn));
      TurnKeeps(s, c, k, a);
      IteratorStaysValid(s, c, k, a);
      AttemptsSensible(Turn(s, c, k, a), DbAfter(d, k, s.clients[c], acts(turn)), k, Successor(WaitersOf(s, k), c), count - 1, turn + 1, acts);
    }
  }

  const IDLE := Attempt(None, [], Finishes, [])

  function InOrder(l: seq<Attempt>): nat -> Attempt {
    (i: nat) => if i < |l| then l[i] else IDLE
  }

  ghost predicate Agrees(attempts: nat -> Attempt, turn: nat, l: seq<Attempt>) {
    forall i: nat :: i < |l| ==> attempts(turn + i) == l[i]
  }

  lemma AgreesTail(attempts: nat -> Attempt, turn: nat, a: Attempt, l: seq<Attempt>)
    requires Agrees(attempts, turn, [a] + l)
    ensures attempts(turn) == a && Agrees(attempts, turn + 1, l)
  {
    assert attempts(turn + 0) == ([a] + l)[0];
    forall i: nat | i < |l| ensures attempts(turn + 1 + i) == l[i] {
      assert attempts(turn + (i + 1)) == ([a] + l)[i + 1];
    }
  }

  /** A pass with those attempts over the clients `todo` leaves every listener heard. */
  lemma {:induction false} PassIsHeard(s: State, d: Db, k: Key, kept: seq<Id>, todo: seq<Id>, back: seq<Id>, next: Option<Id>,
                                       turn: nat, acts: nat -> Act, attempts: nat -> Attempt, hand: seq<Key>)
    requires Inv(s) && ReadyOk(s, hand) && WaitersOf(s, k) == kept + todo + back
    requires (next.Some? ==> Waits(s, next.value, k)) && (todo != [] ==> next == Some(todo[0]))
    requires Heard(s.clients, d, s.ready + hand, k, todo)
    requires (forall i :: Proper(acts(i))) && forall i :: Sensible(attempts(i))
    requires Agrees(attempts, turn, Attempts(s, d, k, next, |todo|, turn, acts).0)
    ensures var t := Pass(s, k, next, |todo|, turn, attempts).0;
            Heard(t.clients, Attempts(s, d, k, next, |todo|, turn, acts).1, t.ready + hand, k, [])
    decreases |todo|
  {
    hide Inv, ReadyOk, Turn, Heard, AttemptOf, DbAfter;
    if todo != [] {
      var c := todo[0];
      assert Proper(acts(turn));
      assert todo == [c] + todo[1..];
      TurnIsHeard(s, d, c, k, acts(turn), hand, todo[1..]);
      var a := AttemptOf(d, k, s.clients[c], acts(turn));
      TurnMoves(s, k, kept, todo, back, a);
      TurnKeeps(s, c, k, a);
      TurnKeepsReady(s, c, k, a, hand);
      IteratorStaysValid(s, c, k, a);
      var t, e, next' := Turn(s, c, k, a), DbAfter(d, k, s.clients[c], acts(turn)), Successor(WaitersOf(s, k), c);
      var kept' := kept + (if Served(s.clients[c], a) then [] else [c]);
      var back' := back + (if Served(s.clients[c], a) && ComesBack(s.clients[c], k, a) then [c] else []);
      var l, l' := Attempts(s, d, k, next, |todo|, turn, acts), Attempts(t, e, k, next', |todo| - 1, turn + 1, acts);
      assert l == ([a] + l'.0, l'.1);
      AgreesTail(attempts, turn, a, l'.0);
      PassIsHeard(t, e, k, kept', todo[1..], back', next', turn + 1, acts, attempts, hand);
    }
  }

  // ---------- runs ----------

  datatype DbServer = DbServer(v: Server, db: Db)

  /** Events of `BlockedRun` that leave the database alone, changes of the database, and the
      handling of the next ready key by commands that change it. */
  datatype DbEvent = Plain(e: Event) | Alter(x: Change) | HandleKey(acts: nat -> Act)

  ghost predicate Allowed(w: DbServer, e: DbEvent) {
    match e
    case Plain(p) =>
      && Enabled(w.v, p) && !p.SignalReady? && !p.HandleNext?
      && (p.BlockOnKeys? && p.flag && p.b != MODULE ==> p.b == STREAM && forall k :: k in p.ks ==> HoldsStream(w.db, k))
    case Alter(_) => true
    case HandleKey(acts) => w.v.hand != [] && forall i :: Proper(acts(i))
  }

  ghost function AttemptsOn(w: DbServer, acts: nat -> Act): (seq<Attempt>, Db)
    requires Sound(w.v) && w.v.hand != [] && forall i :: Proper(acts(i))
  {
    TakeKeeps(w.v.s, w.v.hand);
    var s, k := TakeOne(w.v.s, w.v.hand), w.v.hand[0];
    WaitersNoDup(s, k);
    var l := WaitersOf(s, k);
    assert l != [] ==> l[0] in l;
    Attempts(s, w.db, k, if l == [] then None else Some(l[0]), |l|, 0, acts)
  }

  lemma HandlingIsEnabled(w: DbServer, acts: nat -> Act)
    requires Sound(w.v) && w.v.hand != [] && forall i :: Proper(acts(i))
    ensures Enabled(w.v, HandleNext(InOrder(AttemptsOn(w, acts).0)))
  {
    hide Inv, ReadyOk;
    TakeKeeps(w.v.s, w.v.hand);
    var s, k := TakeOne(w.v.s, w.v.hand), w.v.hand[0];
    WaitersNoDup(s, k);
    var l := WaitersOf(s, k);
    assert l != [] ==> l[0] in l;
    AttemptsSensible(s, w.db, k, if l == [] then None else Some(l[0]), |l|, 0, acts);
    var as0 := AttemptsOn(w, acts).0;
    forall i: nat ensures Sensible(InOrder(as0)(i)) {
      if i < |as0| {
        assert as0[i] in as0;
      }
    }
  }

  ghost function DbStep(w: DbServer, e: DbEvent): DbServer
    requires Sound(w.v) && Allowed(w, e)
  {
    match e
    case Plain(p) => w.(v := Step(w.v, p).0)
    case Alter(x) => DbServer(w.v.(s := SignalAll(w.v.s, SignalOf(w.db, x))), Changed(w.db, x))
    case HandleKey(acts) =>
      HandlingIsEnabled(w, acts);
      DbServer(Step(w.v, HandleNext(InOrder(AttemptsOn(w, acts).0))).0, AttemptsOn(w, acts).1)
  }

  /** No pass is running: every listener's key holds a stream or is queued. */
  ghost predicate AllHeard(w: DbServer) {
    forall c, k :: Listens(w.v.s.clients, c, k) ==> HoldsStream(w.db, k) || Queued(w.v, k)
  }

  lemma HeardIsAllHeard(w: DbServer, p: Key)
    ensures AllHeard(w) <==> Heard(w.v.s.clients, w.db, w.v.s.ready + w.v.hand, p, [])
  {
    if AllHeard(w) {
      forall c, k | Listens(w.v.s.clients, c, k) ensures HoldsStream(w.db, k) || k in w.v.s.ready + w.v.hand {
        assert HoldsStream(w.db, k) || Queued(w.v, k);
      }
    }
    if Heard(w.v.s.clients, w.db, w.v.s.ready + w.v.hand, p, []) {
      forall c, k | Listens(w.v.s.clients, c, k) ensures HoldsStream(w.db, k) || Queued(w.v, k) {
        assert c !in [];
      }
    }
  }

  /** The client that a quiet event is about. */
  function ClientOf(v: Server, e: Event): Id
    requires !e.SignalReady? && !e.HandleNext? && !e.TakeReadyList? && (e.Reprocess? ==> v.s.unblocked != [])
  {
    match e
    case Connect(c, _) => c
    case Disconnect(c) => c
    case Block(c, _) => c
    case BlockOnKeys(c, _, _, _) => c
    case Unblock(c, _) => c
    case Reprocess => v.s.unblocked[0]
  }

  /** A quiet event changes one client, which then listens if it did, or if it has just blocked on
      keys as XREADGROUP does. */
  lemma QuietClients(v: Server, e: Event)
    requires Sound(v) && Enabled(v, e) && !e.SignalReady? && !e.HandleNext? && !e.TakeReadyList?
    ensures var c, s, t := ClientOf(v, e), v.s.clients, Step(v, e).0.s.clients;
            && (forall i :: i in t && i != c ==> i in s && t[i] == s[i])
            && (forall k :: Listens(t, c, k) ==>
                  Listens(s, c, k) || (e.BlockOnKeys? && e.flag && e.b == STREAM && k in e.ks))
  {
    hide IndexOk, CountsOk, KeysOk, QueueOk, ReadyOk, Enlisted;
    var s := v.s;
    match e
    case Connect(_, _) =>
    case Disconnect(_) =>
    case Block(c, b) =>
      BlockKeeps(s, c, b);
      IdleHasNoKeys(s, c);
    case BlockOnKeys(c, b, ks, flag) =>
      BlockForKeysKeeps(s, c, b, ks, flag);
      IdleHasNoKeys(s, c);
      EnlistedKeeps(s, c, ks, flag);
    case Unblock(c, requeue) =>
      UnblockKeeps(s, c, requeue);
    case Reprocess =>
      PopKeeps(s);
  }

  lemma PlainIsHeard(w: DbServer, e: Event)
    requires Sound(w.v) && AllHeard(w) && Allowed(w, Plain(e))
    ensures AllHeard(DbStep(w, Plain(e)))
  {
    hide Inv, ReadyOk, Step;
    var u := DbStep(w, Plain(e));
    if e.TakeReadyList? {
      TakenIsQueued(w.v);
      forall c, k | Listens(u.v.s.clients, c, k) ensures HoldsStream(u.db, k) || Queued(u.v, k) {
        assert Listens(w.v.s.clients, c, k);
      }
    } else {
      QuietStep(w.v, e);
      QuietClients(w.v, e);
      var b := ClientOf(w.v, e);
      forall c, k | Listens(u.v.s.clients, c, k) ensures HoldsStream(u.db, k) || Queued(u.v, k) {
        if c != b || Listens(w.v.s.clients, c, k) {
          assert Listens(w.v.s.clients, c, k);
        }
      }
    }
  }

  lemma TakenIsQueued(v: Server)
    requires Sound(v) && v.hand == []
    ensures var u := Step(v, TakeReadyList).0; u.s.clients == v.s.clients && forall k :: Queued(u, k) <==> Queued(v, k)
  {
    hide Inv;
    assert [] + v.s.ready == v.s.ready + [];
  }

  lemma AlterIsHeard(w: DbServer, x: Change)
    requires Sound(w.v) && AllHeard(w)
    ensures var u := DbStep(w, Alter(x)); Sound(u.v) && AllHeard(u)
  {
    hide Inv, ReadyOk, SignalAll, Heard, AllHeard;
    var p := Key(0, "");
    HeardIsAllHeard(w, p);
    ChangeIsHeard(w.v.s, w.db, x, w.v.hand, p, []);
    SignalAllKeeps(w.v.s, SignalOf(w.db, x));
    SignalAllKeepsReady(w.v.s, SignalOf(w.db, x), w.v.hand);
    HeardIsAllHeard(DbStep(w, Alter(x)), p);
  }

  /** Taking the key to handle off the queue leaves its waiters to the pass. */
  lemma TakenIsHeard(w: DbServer)
    requires Sound(w.v) && AllHeard(w) && w.v.hand != []
    ensures var s, k := TakeOne(w.v.s, w.v.hand), w.v.hand[0];
            Inv(s) && Heard(s.clients, w.db, s.ready + w.v.hand[1..], k, WaitersOf(s, k))
  {
    hide Inv, ReadyOk;
    var s, p := TakeOne(w.v.s, w.v.hand), w.v.hand[0];
    TakeKeeps(w.v.s, w.v.hand);
    WaitersNoDup(s, p);
    forall c, k | Listens(s.clients, c, k)
      ensures HoldsStream(w.db, k) || k in s.ready + w.v.hand[1..] || (k == p && c in WaitersOf(s, p))
    {
      assert Listens(w.v.s.clients, c, k);
      if Queued(w.v, k) && k == p {
        assert Waits(s, c, p);
      }
    }
  }

  lemma HandleIsHeard(w: DbServer, acts: nat -> Act)
    requires Sound(w.v) && AllHeard(w) && Allowed(w, HandleKey(acts))
    ensures AllHeard(DbStep(w, HandleKey(acts)))
  {
    hide Inv, ReadyOk, Heard, Attempts, Pass;
    var v := w.v;
    TakeKeeps(v.s, v.hand);
    TakenIsHeard(w);
    HandlingIsEnabled(w, acts);
    var s, k := TakeOne(v.s, v.hand), v.hand[0];
    WaitersNoDup(s, k);
    var l := WaitersOf(s, k);
    var next := if l == [] then None else Some(l[0]);
    assert l != [] ==> l[0] in l;
    var a := AttemptsOn(w, acts);
    var attempts := InOrder(a.0);
    assert a == Attempts(s, w.db, k, next, |l|, 0, acts);
    assert Agrees(attempts, 0, a.0);
    assert [] + l + [] == l;
    PassIsHeard(s, w.db, k, [], l, [], next, 0, acts, attempts, v.hand[1..]);
    HandleIsPassOf(s, k, attempts);
    HeardIsAllHeard(DbStep(w, HandleKey(acts)), k);
  }

  lemma HandleIsPassOf(s: State, k: Key, attempts: nat -> Attempt)
    requires Inv(s) && forall i :: Sensible(attempts(i))
    ensures var l := WaitersOf(s, k);
            && (l != [] ==> Waits(s, l[0], k))
            && Handle(s, k, attempts) == Pass(s, k, if l == [] then None else Some(l[0]), |l|, 0, attempts)
  {
    WaitersNoDup(s, k);
    var l := WaitersOf(s, k);
    assert l != [] ==> l[0] in l;
    if k in s.blocking {
      FirstWaits(s, k);
    }
  }

  lemma DbStepKeeps(w: DbServer, e: DbEvent)
    requires Sound(w.v) && AllHeard(w) && Allowed(w, e)
    ensures var u := DbStep(w, e); Sound(u.v) && AllHeard(u)
  {
    hide Sound, AllHeard, Step;
    match e
    case Plain(p) =>
      StepKeeps(w.v, p);
      PlainIsHeard(w, p);
    case Alter(x) => AlterIsHeard(w, x);
    case HandleKey(acts) =>
      HandlingIsEnabled(w, acts);
      StepKeeps(w.v, HandleNext(InOrder(AttemptsOn(w, acts).0)));
      HandleIsHeard(w, acts);
  }

  /** The states that events lead through, up to the first that cannot happen. */
  ghost function DbReach(w: DbServer, es: seq<DbEvent>): (r: seq<DbServer>)
    requires Sound(w.v) && AllHeard(w)
    ensures 1 <= |r| <= |es| + 1 && r[0] == w
    decreases |es|
  {
    if es == [] || !Allowed(w, es[0]) then [w]
    else
      DbStepKeeps(w, es[0]);
      [w] + DbReach(DbStep(w, es[0]), es[1..])
  }

  lemma StartIsHeard(w: DbServer)
    requires Started(w.v)
    ensures Sound(w.v) && AllHeard(w)
  {
    StartIsSound(w.v);
  }

  lemma {:induction false} RunIsHeard(w: DbServer, es: seq<DbEvent>, i: nat)
    requires Sound(w.v) && AllHeard(w) && i < |DbReach(w, es)|
    ensures Sound(DbReach(w, es)[i].v) && AllHeard(DbReach(w, es)[i])
    decreases |es|
  {
    hide Sound, AllHeard, DbStep, Allowed;
    if i > 0 {
      DbStepKeeps(w, es[0]);
      RunIsHeard(DbStep(w, es[0]), es[1..], i - 1);
    }
  }

  /** In every state of every run, whatever commands do to the database while they are served: a
      client blocked in XREADGROUP waits for a key that holds a stream, or that is queued to be
      handled; and when its turn comes it is served, whatever is stored there by then. */
  lemma ListenerIsHeard(w: DbServer, es: seq<DbEvent>, i: nat, c: Id, k: Key)
    requires Started(w.v)
    ensures Sound(w.v) && AllHeard(w)
    ensures i < |DbReach(w, es)| && Listens(DbReach(w, es)[i].v.s.clients, c, k) ==>
              var u := DbReach(w, es)[i];
              && (HoldsStream(u.db, k) || Queued(u.v, k))
              && forall stored, during, o, after :: Served(u.v.s.clients[c], Attempt(stored, during, o, after))
  {
    hide Sound, DbReach;
    StartIsHeard(w);
    if i < |DbReach(w, es)| {
      RunIsHeard(w, es, i);
    }
  }

  // ---------- clients of modules ----------

  /** A client of a module that asked to be told when the key is deleted. */
  predicate ModuleListens(clients: map<Id, Client>, c: Id, k: Key) {
    c in clients && k in clients[c].keys && clients[c].onNokey && clients[c].btype == MODULE
  }

  /** The end of a key that a module's client listens to, by removal or replacement: the key is
      queued if and only if it was, or the old object is of a type that clients can block for. */
  lemma DeletionIsHeardIff(w: DbServer, x: Change, c: Id)
    requires Sound(w.v) && (x.Remove? || x.Replace?) && x.k in w.db
    requires ModuleListens(w.v.s.clients, c, x.k)
    ensures Queued(DbStep(w, Alter(x)).v, x.k) <==> Queued(w.v, x.k) || BlockedTypeOf(w.db[x.k]) != NONE
  {
    hide Inv, ReadyOk, Signal;
    var s, k, t := w.v.s, x.k, w.db[x.k];
    assert Waits(s, c, k);
    assert TypeAwaited(s, t);
    assert Wanted(s, k, true);
    SignalQueuesIff(s, k, t, true, w.v.hand);
    var sigs := SignalOf(w.db, x);
    assert sigs == [(k, t, true)] && sigs[1..] == [];
    assert SignalAll(s, sigs) == Signal(s, k, t, true);
  }

  /** The failing case, from a start: a module's client blocks on a key that holds a hash, and asks
      to be told of its deletion. The key is deleted, and nobody is told. */
  lemma HashDeletionIsMissed(w: DbServer, k: Key)
    requires Started(w.v) && w.db == map[]
    ensures Sound(w.v) && AllHeard(w)
    ensures var es := [Plain(Connect(0, false)), Alter(Add(k, OBJ_HASH)), Plain(BlockOnKeys(0, MODULE, [k], true)), Alter(Remove(k))];
            var r := DbReach(w, es);
            && |r| == 5
            && k in r[3].db
            && ModuleListens(r[4].v.s.clients, 0, k) && k !in r[4].db && !Queued(r[4].v, k)
  {
    hide IndexOk, CountsOk, KeysOk, QueueOk, ReadyOk, Enlisted, DbReach, AllHeard;
    StartIsHeard(w);
    var e0, e1, e2, e3 := Plain(Connect(0, false)), Alter(Add(k, OBJ_HASH)), Plain(BlockOnKeys(0, MODULE, [k], true)), Alter(Remove(k));
    DbStepKeeps(w, e0);
    var a := DbStep(w, e0);
    DbStepKeeps(a, e1);
    var b := DbStep(a, e1);
    HashIsQuiet(a, k);
    DbStepKeeps(b, e2);
    var c := DbStep(b, e2);
    ModuleBlocks(b, k);
    DbStepKeeps(c, e3);
    DeletionIsHeardIff(c, Remove(k), 0);
    SignalsOnlyQueue(c.v.s, SignalOf(c.db, Remove(k)), c.v.hand);
    ReachFour(w, e0, e1, e2, e3);
  }

  lemma HashIsQuiet(a: DbServer, k: Key)
    requires Sound(a.v) && k !in a.db
    ensures var b := DbStep(a, Alter(Add(k, OBJ_HASH))); b.v == a.v && b.db == a.db[k := OBJ_HASH]
  {
    hide Inv, ReadyOk;
    var sigs := [(k, OBJ_HASH, false)];
    assert sigs[1..] == [];
    assert Signal(a.v.s, k, OBJ_HASH, false) == a.v.s;
    assert SignalAll(a.v.s, sigs) == a.v.s;
  }

  lemma ModuleBlocks(b: DbServer, k: Key)
    requires Sound(b.v) && 0 in b.v.s.clients && b.v.s.clients[0].btype == NONE && !Queued(b.v, k)
    ensures var c := DbStep(b, Plain(BlockOnKeys(0, MODULE, [k], true)));
            ModuleListens(c.v.s.clients, 0, k) && !Queued(c.v, k) && c.db == b.db
  {
    hide IndexOk, CountsOk, KeysOk, QueueOk, ReadyOk, Enlisted;
    QuietStep(b.v, BlockOnKeys(0, MODULE, [k], true));
    BlockForKeysKeeps(b.v.s, 0, MODULE, [k], true);
    IdleHasNoKeys(b.v.s, 0);
    EnlistedKeeps(b.v.s, 0, [k], true);
  }

  lemma ReachFour(w: DbServer, e0: DbEvent, e1: DbEvent, e2: DbEvent, e3: DbEvent)
    requires Sound(w.v) && AllHeard(w) && Allowed(w, e0)
    requires var a := DbStep(w, e0); Sound(a.v) && AllHeard(a) && Allowed(a, e1)
    requires var b := DbStep(DbStep(w, e0), e1); Sound(b.v) && AllHeard(b) && Allowed(b, e2)
    requires var c := DbStep(DbStep(DbStep(w, e0), e1), e2); Sound(c.v) && AllHeard(c) && Allowed(c, e3)
    ensures var a := DbStep(w, e0);
            var b := DbStep(a, e1);
            var c := DbStep(b, e2);
            DbReach(w, [e0, e1, e2, e3]) == [w, a, b, c, DbStep(c, e3)]
  {
    hide Sound, AllHeard, DbStep, Allowed;
    var a := DbStep(w, e0);
    var b := DbStep(a, e1);
    var c := DbStep(b, e2);
    DbStepKeeps(c, e3);
    var es := [e0, e1, e2, e3];
    assert es[1..] == [e1, e2, e3] && es[1..][1..] == [e2, e3] && es[1..][1..][1..] == [e3] && es[1..][1..][1..][1..] == [];
    assert DbReach(DbStep(c, e3), []) == [DbStep(c, e3)];
    assert DbReach(c, [e3]) == [c] + [DbStep(c, e3)];
    assert DbReach(b, [e2, e3]) == [b] + DbReach(c, [e3]);
    assert DbReach(a, [e1, e2, e3]) == [a] + DbReach(b, [e2, e3]);
    assert DbReach(w, es) == [w] + DbReach(a, [e1, e2, e3]);
  }
}

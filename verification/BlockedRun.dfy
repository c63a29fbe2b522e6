/**
 Whole runs of the blocking machinery: clients come, block, time out and go, keys are
 signalled, and ready keys are handled round by round. Every reachable state keeps the
 indexes, the counts and the queues in agreement, and no key that was queued is forgotten
 before its waiters have had their turn.
 */
module BlockedRun {
  import opened Common
  import opened Blocked
  import opened BlockedReady
  import opened BlockedPass

  /** handleClientsBlockedOnKey */
  ghost function Handle(s: State, k: Key, attempts: nat -> Attempt): (State, seq<Id>)
    requires Inv(s) && forall i :: Sensible(attempts(i))
  {
    if k !in s.blocking then (s, [])
    else
      FirstWaits(s, k);
      Pass(s, k, Some(s.blocking[k][0]), |s.blocking[k]|, 0, attempts)
  }

  lemma FirstWaits(s: State, k: Key)
    requires Inv(s) && k in s.blocking
    ensures s.blocking[k] != [] && Waits(s, s.blocking[k][0], k)
  {
    assert KeyOk(s, k);
    assert Listed(s, s.blocking[k][0], k);
  }

  /** Fairness: every client waiting when the pass starts has exactly one turn, in the order in
      which the clients blocked. Afterwards those not served are still in front, in the same
      order, and those that blocked again are behind them. */
  lemma HandleIsFair(s: State, k: Key, attempts: nat -> Attempt)
    requires Inv(s) && forall i :: Sensible(attempts(i))
    ensures var r := Handle(s, k, attempts);
            && r.1 == WaitersOf(s, k) && NoDup(r.1)
            && (forall c :: Waits(s, c, k) <==> c in r.1)
    ensures forall c :: c in WaitersOf(s, k) ==> c in s.clients
    ensures WaitersOf(Handle(s, k, attempts).0, k) ==
            Passed(s.clients, WaitersOf(s, k), 0, attempts) + Returned(s.clients, k, WaitersOf(s, k), 0, attempts)
  {
    hide Inv, Pass, Passed, Returned, NoDup;
    var l := WaitersOf(s, k);
    WaitersNoDup(s, k);
    forall c | c in l ensures c in s.clients {
      assert Waits(s, c, k);
    }
    assert [] + l + [] == l;
    PassWalks(s, k, [], l, [], 0, attempts);
    PassNobody(s, k, attempts);
    Lonely(Passed(s.clients, l, 0, attempts), Returned(s.clients, k, l, 0, attempts));
    if k in s.blocking {
      FirstWaits(s, k);
      assert l + [] == l;
    }
  }

  lemma PassNobody(s: State, k: Key, attempts: nat -> Attempt)
    requires Inv(s) && forall i :: Sensible(attempts(i))
    ensures Pass(s, k, None, 0, 0, attempts) == (s, [])
  {
  }

  lemma Lonely<T>(a: seq<T>, b: seq<T>)
    ensures [] + a + ([] + b) == a + b
  {
  }

  lemma HandleKeeps(s: State, k: Key, attempts: nat -> Attempt, hand: seq<Key>)
    requires Inv(s) && ReadyOk(s, hand) && forall i :: Sensible(attempts(i))
    ensures var r := Handle(s, k, attempts); Inv(r.0) && ReadyOk(r.0, hand) && s.ready <= r.0.ready
  {
    hide Inv, ReadyOk;
    if k in s.blocking {
      FirstWaits(s, k);
      PassKeeps(s, k, Some(s.blocking[k][0]), |s.blocking[k]|, 0, attempts, hand);
    }
  }

  // ---------- runs ----------

  /** `hand` is the list of ready keys that handleClientsBlockedOnKeys is running through. */
  datatype Server = Server(s: State, hand: seq<Key>)

  ghost predicate Sound(v: Server) {
    Inv(v.s) && ReadyOk(v.s, v.hand)
  }

  datatype Event =
    | Connect(c: Id, isModule: bool)
    | Disconnect(c: Id)
    | Block(c: Id, b: BType)
    | BlockOnKeys(c: Id, b: BType, ks: seq<Key>, flag: bool)
    | Unblock(c: Id, requeue: bool)
    | SignalReady(k: Key, t: ObjType, deleted: bool)
    | TakeReadyList
    | HandleNext(attempts: nat -> Attempt)
    | Reprocess

  /** When an event can happen. */
  ghost predicate Enabled(v: Server, e: Event) {
    match e
    case Connect(c, _) => c !in v.s.clients
    case Disconnect(c) => c in v.s.clients && v.s.clients[c].btype == NONE
    case Block(c, b) => c in v.s.clients && v.s.clients[c].btype == NONE && b != NONE
    case BlockOnKeys(c, b, _, _) => c in v.s.clients && v.s.clients[c].btype == NONE && (WaitsForData(b) || b == MODULE)
    case Unblock(c, _) => c in v.s.clients && v.s.clients[c].btype != NONE
    case SignalReady(_, _, _) => true
    case TakeReadyList => v.hand == []
    case HandleNext(attempts) => v.hand != [] && forall i :: Sensible(attempts(i))
    case Reprocess => v.s.unblocked != []
  }

  function Fresh(isModule: bool): Client {
    Client(NONE, {}, false, false, false, isModule)
  }

  /** processUnblockedClients takes the first client of the queue and clears its flag. */
  function PopUnblocked(s: State): State
    requires s.unblocked != [] && s.unblocked[0] in s.clients
  {
    var c := s.unblocked[0];
    SetClient(s, c, s.clients[c].(queued := false)).(unblocked := s.unblocked[1..])
  }

  /** The next state, and for a handled key who had a turn. */
  ghost function Step(v: Server, e: Event): (Server, seq<Id>)
    requires Sound(v) && Enabled(v, e)
  {
    var s := v.s;
    match e
    case Connect(c, isModule) => (v.(s := SetClient(s, c, Fresh(isModule))), [])
    case Disconnect(c) => (v.(s := Freed(s, c)), [])
    case Block(c, b) => TypeIsCounted(s, b); (v.(s := BlockClient(s, c, b)), [])
    case BlockOnKeys(c, b, ks, flag) => TypeIsCounted(s, b); (v.(s := BlockForKeys(s, c, b, ks, flag)), [])
    case Unblock(c, requeue) => TypeIsCounted(s, s.clients[c].btype); (v.(s := UnblockClient(s, c, requeue)), [])
    case SignalReady(k, t, deleted) => (v.(s := Signal(s, k, t, deleted)), [])
    case TakeReadyList => (Server(TakeAll(s).0, TakeAll(s).1), [])
    case HandleNext(attempts) =>
      TakeKeeps(s, v.hand);
      var r := Handle(TakeOne(s, v.hand), v.hand[0], attempts);
      (Server(r.0, v.hand[1..]), r.1)
    case Reprocess => (v.(s := PopUnblocked(s)), [])
  }

  lemma ConnectKeeps(s: State, c: Id, isModule: bool)
    requires Inv(s) && c !in s.clients
    ensures Inv(SetClient(s, c, Fresh(isModule)))
  {
    var t := SetClient(s, c, Fresh(isModule));
    forall k ensures KeyOk(t, k) {
      assert KeyOk(s, k);
      assert !Waits(s, c, k);
      assert !Listed(s, c, k);
      CountSame(s.clients, t.clients, WaitersOf(t, k));
      forall d ensures Waits(t, d, k) <==> Listed(t, d, k) {
        assert Waits(s, d, k) <==> Listed(s, d, k);
      }
    }
    forall u: BType ensures TypeOk(t, u) {
      assert TypeOk(s, u);
      assert u != NONE ==> OfType(t, u) == OfType(s, u);
    }
    assert Regular(t) == Regular(s);
  }

  lemma BlockKeeps(s: State, c: Id, b: BType)
    requires Inv(s) && c in s.clients && s.clients[c].btype == NONE && b != NONE
    ensures b in s.byType && Inv(BlockClient(s, c, b))
  {
    hide IndexOk, CountsOk;
    BlockClientCounts(s, c, b);
    BlockClientIndex(s, c, b);
    IdleHasNoKeys(s, c);
    OtherFieldsKeep(s, BlockClient(s, c, b), c);
  }

  lemma PopKeeps(s: State)
    requires Inv(s) && s.unblocked != []
    ensures s.unblocked[0] in s.clients && Inv(PopUnblocked(s))
  {
    var c := s.unblocked[0];
    var t := PopUnblocked(s);
    FlagsKeepIndex(s, c, t.clients[c]);
    IndexIgnoresCounts(SetClient(s, c, t.clients[c]), t);
    SameTypesCount(s, t);
    forall d | d in t.clients ensures t.clients[d].queued <==> d in t.unblocked {
      assert d in s.unblocked <==> d == c || d in s.unblocked[1..];
    }
  }

  lemma ReadyUntouched(s: State, t: State, hand: seq<Key>)
    requires ReadyOk(s, hand) && t.ready == s.ready && t.readyDict == s.readyDict
    ensures ReadyOk(t, hand)
  {
  }

  lemma StepKeepsInv(v: Server, e: Event)
    requires Sound(v) && Enabled(v, e)
    ensures Inv(Step(v, e).0.s)
  {
    hide Inv, ReadyOk;
    var s := v.s;
    match e
    case Connect(c, isModule) => ConnectKeeps(s, c, isModule);
    case Disconnect(c) => FreedKeeps(s, c);
    case Block(c, b) => BlockKeeps(s, c, b);
    case BlockOnKeys(c, b, ks, flag) => BlockForKeysKeeps(s, c, b, ks, flag);
    case Unblock(c, requeue) => UnblockKeeps(s, c, requeue);
    case SignalReady(k, t, deleted) => SignalKeeps(s, k, t, deleted);
    case TakeReadyList => TakeKeeps(s, v.hand);
    case HandleNext(attempts) =>
      TakeKeeps(s, v.hand);
      HandleKeeps(TakeOne(s, v.hand), v.hand[0], attempts, v.hand[1..]);
    case Reprocess => PopKeeps(s);
  }

  /** Only signalling and handling touch the queue of ready keys. */
  lemma QuietStep(v: Server, e: Event)
    requires Sound(v) && Enabled(v, e) && !e.SignalReady? && !e.TakeReadyList? && !e.HandleNext?
    ensures var w := Step(v, e).0; w.hand == v.hand && w.s.ready == v.s.ready && w.s.readyDict == v.s.readyDict
  {
    hide Inv, ReadyOk;
    var s := v.s;
    match e
    case Connect(_, _) =>
    case Disconnect(_) =>
    case Block(c, b) => BlockKeeps(s, c, b);
    case BlockOnKeys(c, b, ks, flag) =>
      BlockForKeysKeeps(s, c, b, ks, flag);
      BlockForKeysFrame(s, c, b, ks, flag);
    case Unblock(c, requeue) => UnblockKeeps(s, c, requeue);
    case Reprocess => PopKeeps(s);
  }

  lemma StepKeepsReady(v: Server, e: Event)
    requires Sound(v) && Enabled(v, e)
    ensures var w := Step(v, e).0; ReadyOk(w.s, w.hand)
  {
    hide Inv, ReadyOk;
    var s := v.s;
    match e
    case SignalReady(k, t, deleted) => SignalKeepsReady(s, k, t, deleted, v.hand);
    case TakeReadyList => TakeKeeps(s, v.hand);
    case HandleNext(attempts) =>
      TakeKeeps(s, v.hand);
      HandleKeeps(TakeOne(s, v.hand), v.hand[0], attempts, v.hand[1..]);
    case _ =>
      QuietStep(v, e);
      ReadyUntouched(s, Step(v, e).0.s, v.hand);
  }

  /** Every step keeps the two sides of the index, the counts and the queues in agreement. */
  lemma StepKeeps(v: Server, e: Event)
    requires Sound(v) && Enabled(v, e)
    ensures Sound(Step(v, e).0)
  {
    StepKeepsInv(v, e);
    StepKeepsReady(v, e);
  }

  /** A server that has just started. */
  predicate Started(v: Server) {
    && v.hand == [] && v.s.ready == [] && v.s.unblocked == []
    && v.s.clients == map[] && v.s.blocking == map[] && v.s.nokey == map[] && v.s.readyDict == {}
    && v.s.blockedCount == 0
    && forall t: BType :: t in v.s.byType && v.s.byType[t] == 0
  }

  lemma StartIsSound(v: Server)
    requires Started(v)
    ensures Sound(v)
  {
    forall t: BType ensures TypeOk(v.s, t) {
      assert OfType(v.s, t) == {};
    }
    assert Regular(v.s) == {};
  }

  /** The states that a sequence of events leads through, up to the first that cannot happen. */
  ghost function Reach(v: Server, es: seq<Event>): (w: seq<Server>)
    requires Sound(v)
    ensures 1 <= |w| <= |es| + 1 && w[0] == v
    decreases |es|
  {
    if es == [] || !Enabled(v, es[0]) then [v]
    else
      StepKeeps(v, es[0]);
      [v] + Reach(Step(v, es[0]).0, es[1..])
  }

  /** Every state of every run is sound. */
  lemma {:induction false} RunIsSound(v: Server, es: seq<Event>)
    requires Sound(v)
    ensures forall i :: 0 <= i < |Reach(v, es)| ==> Sound(Reach(v, es)[i])
    decreases |es|
  {
    hide Sound, Step, Enabled;
    if es != [] && Enabled(v, es[0]) {
      StepKeeps(v, es[0]);
      RunIsSound(Step(v, es[0]).0, es[1..]);
    }
  }

  predicate Queued(v: Server, k: Key) {
    k in v.s.ready + v.hand
  }

  /** A queued key stays queued until it is the one handled. */
  lemma QueuedUntilHandled(v: Server, e: Event, k: Key)
    requires Sound(v) && Enabled(v, e) && Queued(v, k)
    ensures Queued(Step(v, e).0, k) || (e.HandleNext? && v.hand[0] == k)
  {
    hide Inv;
    match e
    case SignalReady(_, _, _) =>
    case TakeReadyList =>
    case HandleNext(attempts) =>
      TakeKeeps(v.s, v.hand);
      HandleKeeps(TakeOne(v.s, v.hand), v.hand[0], attempts, v.hand[1..]);
    case _ => QuietStep(v, e);
  }

  /** If a key that was queued is no longer queued when a run ends, then it was handled on the
      way, and everyone waiting for it at that moment had a turn. */
  lemma {:induction false} QueuedKeyIsHandled(v: Server, es: seq<Event>, k: Key)
    requires Sound(v) && Queued(v, k) && !Queued(Reach(v, es)[|Reach(v, es)| - 1], k)
    ensures exists i :: 0 <= i < |Reach(v, es)| - 1 && HandledAt(Reach(v, es)[i], es[i], k)
    decreases |es|
  {
    hide Sound, Step, Enabled, Queued;
    if es != [] && Enabled(v, es[0]) {
      StepKeeps(v, es[0]);
      var w := Step(v, es[0]).0;
      var rest := Reach(w, es[1..]);
      assert Reach(v, es) == [v] + rest;
      QueuedUntilHandled(v, es[0], k);
      if Queued(w, k) {
        QueuedKeyIsHandled(w, es[1..], k);
        var i :| 0 <= i < |rest| - 1 && HandledAt(rest[i], es[1..][i], k);
        assert HandledAt(Reach(v, es)[i + 1], es[i + 1], k);
      } else {
        EveryWaiterHasATurn(v, es[0], k);
        assert HandledAt(Reach(v, es)[0], es[0], k);
      }
    }
  }

  ghost predicate HandledAt(v: Server, e: Event, k: Key) {
    && Sound(v) && Enabled(v, e)
    && e.HandleNext? && v.hand[0] == k
    && forall c :: Waits(v.s, c, k) ==> c in Step(v, e).1
  }

  lemma EveryWaiterHasATurn(v: Server, e: Event, k: Key)
    requires Sound(v) && Enabled(v, e) && e.HandleNext? && v.hand[0] == k
    ensures HandledAt(v, e, k)
  {
    hide Inv, ReadyOk, Handle;
    TakeKeeps(v.s, v.hand);
    var s := TakeOne(v.s, v.hand);
    HandleIsFair(s, k, e.attempts);
    forall c | Waits(v.s, c, k) ensures c in Step(v, e).1 {
      assert Waits(s, c, k);
    }
  }
}

/**
 The state of the tunnel engine's session machine: the peer table, the slot
 pool, the wire-index map, parked packets, resolver bookkeeping and the cached
 timer bound, with the invariants that tie them together.
 */
module EngineState {
  import opened Common

  // Protocol constants, times in milliseconds.
  const REKEY_AFTER_MESSAGES: nat := 0x1000_0000_0000_0000
  const REJECT_AFTER_MESSAGES: nat := 0xffff_ffff_ffff_dfff
  const REKEY_AFTER_TIME: nat := 120_000
  const REJECT_AFTER_TIME: nat := 180_000
  const REKEY_ATTEMPT_TIME: nat := 90_000
  const REKEY_TIMEOUT: nat := 5_000
  const REKEY_TIMEOUT_JITTER_MAX: nat := 333
  const KEEPALIVE_TIMEOUT: nat := 10_000

  datatype Role = Initiator | Responder

  /** `key` identifies the sending key; `nSend` is the next counter to use with it. */
  datatype Session = Session(
    peer: nat, key: nat, nSend: nat, localIndex: nat, role: Role,
    created: nat, rekeyAfter: nat, confirmed: bool, rekeyTriggered: bool)

  predicate Expired(x: Session, now: nat) {
    SaturatingSub(now, x.created) >= REJECT_AFTER_TIME || x.nSend >= REJECT_AFTER_MESSAGES
  }

  predicate CanSend(x: Session, now: nat) {
    !Expired(x, now) && x.confirmed
  }

  function RekeyDeadline(x: Session): nat {
    x.created + (if x.rekeyAfter < REJECT_AFTER_TIME then x.rekeyAfter else REKEY_AFTER_TIME)
  }

  datatype Slot = Free | Initiating(peer: nat, localIndex: nat, retryAt: nat) | Established(session: Session)

  function Owner(x: Slot): nat
    requires !x.Free?
  {
    if x.Initiating? then x.peer else x.session.peer
  }

  function Index(x: Slot): nat
    requires !x.Free?
  {
    if x.Initiating? then x.localIndex else x.session.localIndex
  }

  /** A peer with its session generations and protocol timers. */
  datatype Peer = Peer(
    publicKey: nat, pinned: bool, endpoint: bool, relay: Option<nat>, persistent: Option<nat>,
    current: Option<nat>, previous: Option<nat>, next: Option<nat>, handshake: Option<nat>,
    keepaliveDue: Option<nat>, persistentDue: Option<nat>, replyDue: Option<nat>, attemptDeadline: Option<nat>,
    lastActivity: nat)

  datatype Wait = OnResolve(id: nat) | OnHandshake(peer: nat)
  datatype Parked = Parked(wait: Wait, deadline: nat)

  datatype Query = ByAddress(address: nat) | ByKey(publicKey: nat)
  datatype ResolveKind = Outbound | Install | Reconcile | Negative
  datatype Resolve = Resolve(query: Query, kind: ResolveKind, deadline: nat)

  /** A message sealed on behalf of `peer` under a session of `owner`, with that session's key and counter. */
  datatype Seal = Seal(peer: nat, owner: nat, key: nat, counter: nat)

  /** `admitted` holds the keys of all peers ever installed from a resolver answer. */
  datatype State = State(
    peers: seq<Option<Peer>>, byKey: map<nat, nat>, slots: seq<Slot>, indices: map<nat, nat>,
    timers: Option<nat>, pending: seq<Option<Parked>>, resolves: map<nat, Resolve>, reconciles: map<nat, nat>,
    keys: nat, seals: seq<Seal>, admitted: set<nat>)

  predicate HasPeer(s: State, p: nat) {
    p < |s.peers| && s.peers[p].Some?
  }

  function WithPeer(s: State, p: nat, x: Peer): State
    requires p < |s.peers|
  {
    s.(peers := s.peers[p := Some(x)])
  }

  // ---------------------------------------------------------------------
  // Timers
  // ---------------------------------------------------------------------

  datatype TimerId =
    | Keepalive(p: nat) | Persistent(p: nat) | Reply(p: nat) | Attempt(p: nat)
    | SlotTimer(i: nat) | ParkTimer(j: nat) | ResolveTimer(id: nat) | ReconcileTimer(k: nat)

  /** When timer `t` is due, if it is running. */
  function Deadline(s: State, t: TimerId): Option<nat> {
    match t
    case Keepalive(p) => if HasPeer(s, p) then s.peers[p].value.keepaliveDue else None
    case Persistent(p) => if HasPeer(s, p) then s.peers[p].value.persistentDue else None
    case Reply(p) => if HasPeer(s, p) then s.peers[p].value.replyDue else None
    case Attempt(p) => if HasPeer(s, p) then s.peers[p].value.attemptDeadline else None
    case SlotTimer(i) => if i < |s.slots| then SlotDeadline(s.slots[i]) else None
    case ParkTimer(j) => if j < |s.pending| && s.pending[j].Some? then Some(s.pending[j].value.deadline) else None
    case ResolveTimer(id) => if id in s.resolves then Some(s.resolves[id].deadline) else None
    case ReconcileTimer(k) => if k in s.reconciles then Some(s.reconciles[k]) else None
  }

  function SlotDeadline(x: Slot): Option<nat> {
    match x
    case Free => None
    case Initiating(_, _, retryAt) => Some(retryAt)
    case Established(session) => Some(session.created + REJECT_AFTER_TIME)
  }

  predicate IsDue(s: State, t: TimerId, now: nat) {
    Deadline(s, t).Some? && Deadline(s, t).value <= now
  }

  predicate AtMost(bound: Option<nat>, d: nat) {
    bound.Some? && bound.value <= d
  }

  /** The cached bound is at or before every running timer. */
  ghost predicate Bounded(s: State) {
    forall t :: Deadline(s, t).Some? ==> AtMost(s.timers, Deadline(s, t).value)
  }

  /**
   The only ways a step may move timers: stop them, leave them, or start them at
   least `slack` after `now` with the cached bound lowered to cover them. Keys
   and the record of sealed messages only grow.
   */
  ghost predicate Evolves(s: State, s': State, now: nat, slack: nat) {
    && (s.timers.Some? ==> AtMost(s'.timers, s.timers.value))
    && |s'.peers| == |s.peers| && |s'.slots| == |s.slots| && |s'.pending| == |s.pending|
    && s.keys <= s'.keys && s.seals <= s'.seals
    && forall t :: TimerMoved(s, s', t, now, slack)
  }

  predicate TimerMoved(s: State, s': State, t: TimerId, now: nat, slack: nat) {
    var d := Deadline(s', t);
    d.None? || d == Deadline(s, t) || (now + slack <= d.value && AtMost(s'.timers, d.value))
  }

  lemma EvolvesTransitive(a: State, b: State, c: State, now: nat, slack: nat)
    requires Evolves(a, b, now, slack) && Evolves(b, c, now, slack)
    ensures Evolves(a, c, now, slack)
  {
    forall t ensures TimerMoved(a, c, t, now, slack) {
      assert TimerMoved(a, b, t, now, slack) && TimerMoved(b, c, t, now, slack);
    }
  }

  lemma EvolvesRelaxed(s: State, s': State, now: nat, slack: nat)
    requires Evolves(s, s', now, 1) && slack <= 1
    ensures Evolves(s, s', now, slack)
  {
    forall t ensures TimerMoved(s, s', t, now, slack) {
      assert TimerMoved(s, s', t, now, 1);
    }
  }

  /** Steps keep the cached bound honest. */
  lemma EvolvesKeepsBound(s: State, s': State, now: nat, slack: nat)
    requires Bounded(s) && Evolves(s, s', now, slack)
    ensures Bounded(s')
  {
    forall t | Deadline(s', t).Some? ensures AtMost(s'.timers, Deadline(s', t).value) {
      assert TimerMoved(s, s', t, now, slack);
    }
  }

  // ---------------------------------------------------------------------
  // The invariant of the tables
  // ---------------------------------------------------------------------

  predicate IsEstablished(s: State, i: nat, p: nat, confirmed: bool) {
    i < |s.slots| && s.slots[i].Established? && s.slots[i].session.peer == p
      && s.slots[i].session.confirmed == confirmed
  }

  predicate IsInitiating(s: State, i: nat, p: nat) {
    i < |s.slots| && s.slots[i].Initiating? && s.slots[i].peer == p
  }

  /** Every generation field of peer `p` refers to a slot of the right kind that `p` owns, and no slot twice. */
  predicate PeerOk(s: State, p: nat)
    requires HasPeer(s, p)
  {
    var x := s.peers[p].value;
    && (x.current.Some? ==> IsEstablished(s, x.current.value, p, true))
    && (x.previous.Some? ==> IsEstablished(s, x.previous.value, p, true) && x.previous != x.current)
    && (x.next.Some? ==> IsEstablished(s, x.next.value, p, false))
    && (x.handshake.Some? ==> IsInitiating(s, x.handshake.value, p))
    && (x.handshake.Some? <==> x.attemptDeadline.Some?)
    && (x.persistent.Some? ==> x.persistent.value > 0)
    && x.publicKey in s.byKey && s.byKey[x.publicKey] == p
    && (x.pinned <==> x.publicKey !in s.admitted)
  }

  predicate Refers(x: Peer, i: nat, initiating: bool) {
    if initiating then x.handshake == Some(i)
    else x.current == Some(i) || x.previous == Some(i) || x.next == Some(i)
  }

  /** A slot in use has its wire index registered and, unless it is the orphan, is referred to by its owner. */
  predicate SlotOk(s: State, i: nat, orphan: Option<nat>)
    requires i < |s.slots|
  {
    !s.slots[i].Free? ==>
      var p := Owner(s.slots[i]);
      && Index(s.slots[i]) in s.indices && s.indices[Index(s.slots[i])] == i
      && HasPeer(s, p)
      && (orphan == Some(i) || Refers(s.peers[p].value, i, s.slots[i].Initiating?))
  }

  predicate IndexOk(s: State, x: nat)
    requires x in s.indices
  {
    s.indices[x] < |s.slots| && !s.slots[s.indices[x]].Free? && Index(s.slots[s.indices[x]]) == x
  }

  /**
   The wire-index map is a bijection onto the slots in use, and each slot in use
   is referred to by exactly one generation field of its owner: `handshake` when
   initiating, one of the others when established. A step in progress may leave
   one `orphan` that no field refers to.
   */
  ghost predicate Tables(s: State, orphan: Option<nat>) {
    && (forall p: nat {:trigger PeerOk(s, p)} | HasPeer(s, p) :: PeerOk(s, p))
    && (forall i: nat {:trigger SlotOk(s, i, orphan)} | i < |s.slots| :: SlotOk(s, i, orphan))
    && (forall x: nat {:trigger IndexOk(s, x)} | x in s.indices :: IndexOk(s, x))
    && (forall k: nat {:trigger s.byKey[k]} | k in s.byKey ::
          HasPeer(s, s.byKey[k]) && s.peers[s.byKey[k]].value.publicKey == k)
  }

  /** A session's key has been derived, and every counter sealed under it is below its next one. */
  ghost predicate KeyOk(x: Slot, seals: seq<Seal>, keys: nat) {
    x.Established? ==>
      && x.session.key < keys
      && (forall n {:trigger seals[n]} | 0 <= n < |seals| && seals[n].key == x.session.key ::
            seals[n].counter < x.session.nSend)
  }

  predicate KeysApart(x: Slot, y: Slot) {
    x.Established? && y.Established? ==> x.session.key != y.session.key
  }

  predicate SealOk(x: Seal, keys: nat) {
    x.key < keys && x.counter < REJECT_AFTER_MESSAGES && x.owner == x.peer
  }

  predicate SealsApart(x: Seal, y: Seal) {
    x.key != y.key || x.counter != y.counter
  }

  /**
   No (key, counter) pair was ever used twice, none beyond the message limit,
   and whatever was sealed on behalf of a peer was sealed under a session of
   that very peer.
   */
  ghost predicate SealsOk(seals: seq<Seal>, keys: nat) {
    && (forall n {:trigger SealOk(seals[n], keys)} | 0 <= n < |seals| :: SealOk(seals[n], keys))
    && (forall m, n {:trigger SealsApart(seals[m], seals[n])} | 0 <= m < n < |seals| :: SealsApart(seals[m], seals[n]))
  }

  /** Each session has a key of its own, and no pair it could still use has been used. */
  ghost predicate Keys(slots: seq<Slot>, seals: seq<Seal>, keys: nat) {
    && (forall i {:trigger KeyOk(slots[i], seals, keys)} | 0 <= i < |slots| :: KeyOk(slots[i], seals, keys))
    && (forall i, j {:trigger KeysApart(slots[i], slots[j])} | 0 <= i < j < |slots| :: KeysApart(slots[i], slots[j]))
    && SealsOk(seals, keys)
  }

  /** Ending sessions keeps the keys of the others. */
  lemma FewerKeys(slots: seq<Slot>, slots': seq<Slot>, seals: seq<Seal>, keys: nat)
    requires Keys(slots, seals, keys) && |slots'| == |slots|
    requires forall i | 0 <= i < |slots| :: slots'[i] == slots[i] || !slots'[i].Established?
    ensures Keys(slots', seals, keys)
  {
    forall i | 0 <= i < |slots'| ensures KeyOk(slots'[i], seals, keys) {
      assert KeyOk(slots[i], seals, keys);
    }
    forall i, j | 0 <= i < j < |slots'| ensures KeysApart(slots'[i], slots'[j]) {
      assert KeysApart(slots[i], slots[j]);
    }
  }

  ghost predicate Inv(s: State, orphan: Option<nat>) {
    Tables(s, orphan) && Keys(s.slots, s.seals, s.keys)
  }

  // ---------------------------------------------------------------------
  // Freeing a slot
  // ---------------------------------------------------------------------

  function Cleared(x: Option<nat>, i: nat): Option<nat> {
    if x == Some(i) then None else x
  }

  function Unlink(x: Peer, i: nat): Peer {
    var y := x.(current := Cleared(x.current, i), previous := Cleared(x.previous, i), next := Cleared(x.next, i));
    if x.handshake == Some(i) then y.(handshake := None, attemptDeadline := None) else y
  }

  /** The state after freeing slot `i`. */
  function Freed(s: State, i: nat): State {
    if i >= |s.slots| || s.slots[i].Free? || !HasPeer(s, Owner(s.slots[i])) then s
    else
      var p := Owner(s.slots[i]);
      s.(peers := s.peers[p := Some(Unlink(s.peers[p].value, i))],
         indices := s.indices - {Index(s.slots[i])},
         slots := s.slots[i := Free])
  }

  lemma FreedOther(s: State, i: nat, orphan: Option<nat>, q: nat)
    requires Tables(s, orphan) && i < |s.slots| && !s.slots[i].Free? && HasPeer(s, Owner(s.slots[i]))
    requires HasPeer(s, q) && q != Owner(s.slots[i])
    ensures PeerOk(Freed(s, i), q)
  {
    assert PeerOk(s, q);
    assert Freed(s, i).peers[q] == s.peers[q];
  }

  /** Unlinking keeps whatever a generation field does not lose. */
  lemma Unlinked(x: Peer, i: nat)
    ensures var y := Unlink(x, i);
            && y.current == Cleared(x.current, i) && y.previous == Cleared(x.previous, i)
            && y.next == Cleared(x.next, i) && y.handshake == Cleared(x.handshake, i)
            && y.attemptDeadline == (if x.handshake == Some(i) then None else x.attemptDeadline)
            && y.persistent == x.persistent && y.publicKey == x.publicKey && y.pinned == x.pinned
  {
  }

  lemma FreedOwner(s: State, i: nat)
    requires i < |s.slots| && !s.slots[i].Free? && HasPeer(s, Owner(s.slots[i])) && PeerOk(s, Owner(s.slots[i]))
    ensures PeerOk(Freed(s, i), Owner(s.slots[i]))
  {
    var p := Owner(s.slots[i]);
    Unlinked(s.peers[p].value, i);
    var s' := Freed(s, i);
    assert s'.peers[p] == Some(Unlink(s.peers[p].value, i)) && s'.slots == s.slots[i := Free];
  }

  lemma FreedSlot(s: State, i: nat, orphan: Option<nat>, j: nat)
    requires Tables(s, orphan) && i < |s.slots| && !s.slots[i].Free? && HasPeer(s, Owner(s.slots[i])) && j < |s.slots|
    requires orphan == None || orphan == Some(i)
    ensures SlotOk(Freed(s, i), j, None)
  {
    assert SlotOk(s, j, orphan) && SlotOk(s, i, orphan);
  }

  lemma FreedIndex(s: State, i: nat, orphan: Option<nat>, x: nat)
    requires Tables(s, orphan) && i < |s.slots| && !s.slots[i].Free? && HasPeer(s, Owner(s.slots[i]))
    requires x in s.indices && x != Index(s.slots[i])
    ensures IndexOk(Freed(s, i), x)
  {
    assert IndexOk(s, x);
  }

  lemma FreedTables(s: State, i: nat, orphan: Option<nat>)
    requires Tables(s, orphan) && i < |s.slots| && (orphan == None || orphan == Some(i))
    requires !s.slots[i].Free? ==> HasPeer(s, Owner(s.slots[i]))
    ensures Tables(Freed(s, i), None)
  {
    var s' := Freed(s, i);
    forall j: nat | j < |s'.slots| ensures SlotOk(s', j, None) {
      assert SlotOk(s, j, orphan);
      if !s.slots[i].Free? {
        FreedSlot(s, i, orphan, j);
      }
    }
    if !s.slots[i].Free? {
      forall q: nat | HasPeer(s', q) ensures PeerOk(s', q) {
        if q == Owner(s.slots[i]) {
          assert PeerOk(s, q);
          FreedOwner(s, i);
        } else {
          FreedOther(s, i, orphan, q);
        }
      }
      forall x: nat | x in s'.indices ensures IndexOk(s', x) {
        FreedIndex(s, i, orphan, x);
      }
    }
  }

  /** Freeing a slot never fails, keeps every table consistent, and starts no timer. */
  lemma FreedOk(s: State, i: nat, orphan: Option<nat>, now: nat)
    requires Inv(s, orphan) && i < |s.slots| && (orphan == None || orphan == Some(i))
    ensures !s.slots[i].Free? ==> HasPeer(s, Owner(s.slots[i]))
    ensures !s.slots[i].Free? ==> Index(s.slots[i]) in s.indices && s.indices[Index(s.slots[i])] == i
    ensures Inv(Freed(s, i), None) && Freed(s, i).slots[i].Free?
    ensures Evolves(s, Freed(s, i), now, 1)
  {
    assert SlotOk(s, i, orphan);
    FreedTables(s, i, orphan);
    var s' := Freed(s, i);
    FewerKeys(s.slots, s'.slots, s.seals, s.keys);
  }
}

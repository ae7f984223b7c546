/**
 The elementary state changes of the session machine, each with the proof that
 it keeps the tables consistent and moves timers only as allowed.
 */
module EngineSteps {
  import opened Common
  import opened EngineState

  // ---------------------------------------------------------------------
  // Arming the cached bound
  // ---------------------------------------------------------------------

  /** `TimerCache::arm`: the bound only ever moves earlier. */
  function Lower(bound: Option<nat>, d: nat): Option<nat> {
    if bound.Some? && bound.value <= d then bound else Some(d)
  }

  function Arm(s: State, d: nat): State {
    s.(timers := Lower(s.timers, d))
  }

  function ArmOpt(s: State, d: Option<nat>): State {
    if d.Some? then Arm(s, d.value) else s
  }

  /** The tables that the invariant speaks about are untouched. */
  predicate SameTables(s: State, s': State) {
    && s'.peers == s.peers && s'.byKey == s.byKey && s'.slots == s.slots && s'.indices == s.indices
    && s'.keys == s.keys && s'.seals == s.seals && s'.admitted == s.admitted
  }

  lemma SameTablesKeepInv(s: State, s': State, orphan: Option<nat>)
    requires Inv(s, orphan) && SameTables(s, s')
    ensures Inv(s', orphan)
  {
    forall p: nat | HasPeer(s', p) ensures PeerOk(s', p) {
      assert PeerOk(s, p);
    }
    forall i: nat | i < |s'.slots| ensures SlotOk(s', i, orphan) {
      assert SlotOk(s, i, orphan);
    }
    forall x: nat | x in s'.indices ensures IndexOk(s', x) {
      assert IndexOk(s, x);
    }
  }

  // ---------------------------------------------------------------------
  // Changing a peer's timers
  // ---------------------------------------------------------------------

  /** `y` differs from `x` at most in timers other than the attempt deadline, and in unrelated data. */
  predicate SameGenerations(x: Peer, y: Peer) {
    && y.publicKey == x.publicKey && y.pinned == x.pinned
    && y.current == x.current && y.previous == x.previous && y.next == x.next
    && y.handshake == x.handshake && y.attemptDeadline == x.attemptDeadline
    && (y.persistent.Some? ==> y.persistent.value > 0)
  }

  /** One peer's timers may be stopped, kept, or started late enough and covered by the bound. */
  predicate PeerTimersMoved(x: Peer, y: Peer, bound: Option<nat>, now: nat) {
    && Moved(x.keepaliveDue, y.keepaliveDue, bound, now)
    && Moved(x.persistentDue, y.persistentDue, bound, now)
    && Moved(x.replyDue, y.replyDue, bound, now)
    && Moved(x.attemptDeadline, y.attemptDeadline, bound, now)
  }

  predicate Moved(d: Option<nat>, d': Option<nat>, bound: Option<nat>, now: nat) {
    d'.None? || d' == d || (now < d'.value && AtMost(bound, d'.value))
  }

  lemma PeerEvolves(s: State, s': State, p: nat, y: Peer, now: nat)
    requires HasPeer(s, p) && s'.peers == s.peers[p := Some(y)]
    requires s'.slots == s.slots && s'.pending == s.pending && s'.resolves == s.resolves
              && s'.reconciles == s.reconciles
    requires s.keys <= s'.keys && s.seals <= s'.seals
    requires s.timers.Some? ==> AtMost(s'.timers, s.timers.value)
    requires PeerTimersMoved(s.peers[p].value, y, s'.timers, now)
    ensures Evolves(s, s', now, 1)
  {
    forall t ensures TimerMoved(s, s', t, now, 1) {
      OnePeerMoved(s, s', p, y, now, t);
    }
  }

  lemma OnePeerMoved(s: State, s': State, p: nat, y: Peer, now: nat, t: TimerId)
    requires HasPeer(s, p) && s'.peers == s.peers[p := Some(y)]
    requires s'.slots == s.slots && s'.pending == s.pending && s'.resolves == s.resolves
              && s'.reconciles == s.reconciles
    requires PeerTimersMoved(s.peers[p].value, y, s'.timers, now)
    ensures TimerMoved(s, s', t, now, 1)
  {
    if (t.Keepalive? || t.Persistent? || t.Reply? || t.Attempt?) && t.p != p {
      assert HasPeer(s', t.p) <==> HasPeer(s, t.p);
    }
  }

  lemma PeerTimersKeepInv(s: State, s': State, p: nat, y: Peer, orphan: Option<nat>)
    requires Inv(s, orphan) && HasPeer(s, p) && SameGenerations(s.peers[p].value, y)
    requires s'.peers == s.peers[p := Some(y)]
    requires s'.byKey == s.byKey && s'.slots == s.slots && s'.indices == s.indices && s'.keys == s.keys
              && s'.seals == s.seals && s'.admitted == s.admitted
    ensures Inv(s', orphan)
  {
    forall q: nat | HasPeer(s', q) ensures PeerOk(s', q) {
      assert PeerOk(s, q);
    }
    forall i: nat | i < |s'.slots| ensures SlotOk(s', i, orphan) {
      assert SlotOk(s, i, orphan);
    }
    forall x: nat | x in s'.indices ensures IndexOk(s', x) {
      assert IndexOk(s, x);
    }
  }

  // ---------------------------------------------------------------------
  // Starting a handshake
  // ---------------------------------------------------------------------

  /** A free slot becomes an initiating one with a fresh wire index; no peer field refers to it yet. */
  function Initiated(s: State, p: nat, i: nat, index: nat, retryAt: nat): State
    requires i < |s.slots|
  {
    Arm(s.(slots := s.slots[i := Initiating(p, index, retryAt)], indices := s.indices[index := i]), retryAt)
  }

  lemma InitiatedOk(s: State, p: nat, i: nat, index: nat, retryAt: nat, now: nat)
    requires Inv(s, None) && HasPeer(s, p) && i < |s.slots| && s.slots[i].Free? && index !in s.indices
    requires now < retryAt
    ensures Inv(Initiated(s, p, i, index, retryAt), Some(i))
    ensures Evolves(s, Initiated(s, p, i, index, retryAt), now, 1)
  {
    var s' := Initiated(s, p, i, index, retryAt);
    FewerKeys(s.slots, s'.slots, s.seals, s.keys);
    forall q: nat | HasPeer(s', q) ensures PeerOk(s', q) {
      assert PeerOk(s, q);
    }
    forall j: nat | j < |s'.slots| ensures SlotOk(s', j, Some(i)) {
      assert SlotOk(s, j, None);
    }
    forall x: nat | x in s'.indices ensures IndexOk(s', x) {
      if x != index {
        assert IndexOk(s, x);
      }
    }
  }

  /** Retransmission: same slot and index, later retry. */
  function Retried(s: State, i: nat, retryAt: nat): State
    requires i < |s.slots| && s.slots[i].Initiating?
  {
    Arm(s.(slots := s.slots[i := s.slots[i].(retryAt := retryAt)]), retryAt)
  }

  lemma RetriedOk(s: State, i: nat, retryAt: nat, now: nat)
    requires Inv(s, None) && i < |s.slots| && s.slots[i].Initiating? && now < retryAt
    ensures Inv(Retried(s, i, retryAt), None) && Evolves(s, Retried(s, i, retryAt), now, 1)
  {
    var s' := Retried(s, i, retryAt);
    FewerKeys(s.slots, s'.slots, s.seals, s.keys);
    forall q: nat | HasPeer(s', q) ensures PeerOk(s', q) {
      assert PeerOk(s, q);
    }
    forall j: nat | j < |s'.slots| ensures SlotOk(s', j, None) {
      assert SlotOk(s, j, None);
    }
    forall x: nat | x in s'.indices ensures IndexOk(s', x) {
      assert IndexOk(s, x);
    }
  }

  /** `begin_handshake`: the peer takes the initiating slot and its overall deadline starts. */
  function Begun(s: State, p: nat, i: nat, deadline: nat): State
    requires HasPeer(s, p)
  {
    var x := s.peers[p].value;
    var y := x.(handshake := Some(i),
      attemptDeadline := if x.attemptDeadline.None? then Some(deadline) else x.attemptDeadline);
    Arm(WithPeer(s, p, y), deadline)
  }

  lemma BegunOk(s: State, p: nat, i: nat, deadline: nat, now: nat)
    requires Inv(s, Some(i)) && HasPeer(s, p) && IsInitiating(s, i, p) && s.peers[p].value.handshake.None?
    requires now < deadline
    ensures Inv(Begun(s, p, i, deadline), None) && Evolves(s, Begun(s, p, i, deadline), now, 1)
  {
    var s' := Begun(s, p, i, deadline);
    assert PeerOk(s, p);
    forall q: nat | HasPeer(s', q) ensures PeerOk(s', q) {
      assert PeerOk(s, q);
    }
    forall j: nat | j < |s'.slots| ensures SlotOk(s', j, None) {
      assert SlotOk(s, j, Some(i));
    }
    forall x: nat | x in s'.indices ensures IndexOk(s', x) {
      assert IndexOk(s, x);
    }
    PeerEvolves(s, s', p, s'.peers[p].value, now);
  }

  // ---------------------------------------------------------------------
  // Installing sessions
  // ---------------------------------------------------------------------

  /** A new session with a key never used before. */
  predicate NewSession(s: State, x: Session, p: nat) {
    x.peer == p && x.key == s.keys && x.nSend == 0
  }

  /** The peer as left by authenticated traffic: active now, and directly reachable unless relayed. */
  function Heard(x: Peer, now: nat): Peer {
    x.(lastActivity := now, endpoint := x.endpoint || x.relay.None?)
  }

  /** The responder's unconfirmed session goes into a free slot, or over the peer's previous unconfirmed one. */
  function Responded(s: State, p: nat, i: nat, x: Session): State
    requires HasPeer(s, p) && i < |s.slots|
  {
    var y := Heard(s.peers[p].value, x.created).(next := Some(i));
    var indices := if s.slots[i].Free? then s.indices else s.indices - {Index(s.slots[i])};
    Arm(s.(peers := s.peers[p := Some(y)], slots := s.slots[i := Established(x)],
           indices := indices[x.localIndex := i], keys := s.keys + 1),
        x.created + REJECT_AFTER_TIME)
  }

  predicate CanRespond(s: State, p: nat, i: nat, x: Session) {
    && HasPeer(s, p) && i < |s.slots| && NewSession(s, x, p) && !x.confirmed
    && (s.peers[p].value.next == Some(i) || (s.peers[p].value.next.None? && s.slots[i].Free?))
    && x.localIndex !in s.indices
  }

  lemma RespondedPeer(s: State, p: nat, i: nat, x: Session, q: nat)
    requires Tables(s, None) && CanRespond(s, p, i, x) && HasPeer(s, q)
    ensures PeerOk(Responded(s, p, i, x), q)
  {
    assert PeerOk(s, p) && PeerOk(s, q);
  }

  lemma RespondedTables(s: State, p: nat, i: nat, x: Session)
    requires Tables(s, None) && CanRespond(s, p, i, x)
    ensures Tables(Responded(s, p, i, x), None)
  {
    var s' := Responded(s, p, i, x);
    assert PeerOk(s, p) && SlotOk(s, i, None);
    forall q: nat | HasPeer(s', q) ensures PeerOk(s', q) {
      RespondedPeer(s, p, i, x, q);
    }
    forall j: nat | j < |s'.slots| ensures SlotOk(s', j, None) {
      assert SlotOk(s, j, None);
    }
    forall k: nat | k in s'.indices ensures IndexOk(s', k) {
      if k != x.localIndex {
        assert IndexOk(s, k);
      }
    }
  }

  /** A session with a fresh key put into any slot keeps keys apart and counters unused. */
  lemma FreshKey(s: State, i: nat, x: Session)
    requires Keys(s.slots, s.seals, s.keys) && i < |s.slots| && x.key == s.keys && x.nSend == 0
    ensures Keys(s.slots[i := Established(x)], s.seals, s.keys + 1)
  {
    var slots := s.slots[i := Established(x)];
    forall n | 0 <= n < |s.seals| ensures s.seals[n].key != x.key && SealOk(s.seals[n], s.keys + 1) {
      assert SealOk(s.seals[n], s.keys);
    }
    forall j | 0 <= j < |slots| ensures KeyOk(slots[j], s.seals, s.keys + 1) {
      assert KeyOk(s.slots[j], s.seals, s.keys);
    }
    forall j, k | 0 <= j < k < |slots| ensures KeysApart(slots[j], slots[k]) {
      assert KeyOk(s.slots[j], s.seals, s.keys) && KeyOk(s.slots[k], s.seals, s.keys);
      assert KeysApart(s.slots[j], s.slots[k]);
    }
    forall m, n | 0 <= m < n < |s.seals| ensures SealsApart(s.seals[m], s.seals[n]) {
    }
  }

  /** Peer `p`'s unconfirmed session is the one begun at `now` under key `key`, with no message sent. */
  predicate Responding(s: State, p: nat, key: nat, now: nat) {
    && HasPeer(s, p) && s.peers[p].value.next.Some? && IsEstablished(s, s.peers[p].value.next.value, p, false)
    && var x := s.slots[s.peers[p].value.next.value].session;
    x.key == key && x.nSend == 0 && x.role.Responder? && x.created == now && !x.rekeyTriggered
  }

  lemma RespondedOk(s: State, p: nat, i: nat, x: Session, now: nat)
    requires Inv(s, None) && CanRespond(s, p, i, x) && x.created == now
    ensures Inv(Responded(s, p, i, x), None) && Evolves(s, Responded(s, p, i, x), now, 1)
  {
    RespondedTables(s, p, i, x);
    FreshKey(s, i, x);
  }

  /** Current becomes previous and slot `i` becomes current; the old previous is no longer referred to. */
  function Rotated(x: Peer, i: nat): Peer {
    x.(current := Some(i), previous := x.current)
  }

  /** `install_initiator` with the slot turning from initiating to established. */
  function Answered(s: State, p: nat, i: nat, x: Session): State
    requires HasPeer(s, p) && i < |s.slots|
  {
    var y := Rotated(Heard(s.peers[p].value, x.created), i).(handshake := None, attemptDeadline := None);
    Arm(s.(peers := s.peers[p := Some(y)], slots := s.slots[i := Established(x)], keys := s.keys + 1),
        x.created + REJECT_AFTER_TIME)
  }

  predicate CanAnswer(s: State, p: nat, i: nat, x: Session) {
    && HasPeer(s, p) && IsInitiating(s, i, p) && NewSession(s, x, p) && x.confirmed
    && x.localIndex == s.slots[i].localIndex && s.peers[p].value.handshake == Some(i)
  }

  lemma AnsweredTables(s: State, p: nat, i: nat, x: Session)
    requires Tables(s, None) && CanAnswer(s, p, i, x)
    ensures Tables(Answered(s, p, i, x), s.peers[p].value.previous)
  {
    var s', orphan := Answered(s, p, i, x), s.peers[p].value.previous;
    assert PeerOk(s, p) && SlotOk(s, i, None);
    forall q: nat | HasPeer(s', q) ensures PeerOk(s', q) {
      assert PeerOk(s, q);
    }
    forall j: nat | j < |s'.slots| ensures SlotOk(s', j, orphan) {
      assert SlotOk(s, j, None);
    }
    forall k: nat | k in s'.indices ensures IndexOk(s', k) {
      assert IndexOk(s, k);
    }
  }

  lemma AnsweredOk(s: State, p: nat, i: nat, x: Session, now: nat)
    requires Inv(s, None) && CanAnswer(s, p, i, x) && x.created == now
    ensures Inv(Answered(s, p, i, x), s.peers[p].value.previous) && Evolves(s, Answered(s, p, i, x), now, 1)
  {
    AnsweredTables(s, p, i, x);
    FreshKey(s, i, x);
  }

  /** `confirm_responder` with the session marked confirmed. */
  function Confirmed(s: State, p: nat, i: nat): State
    requires HasPeer(s, p) && i < |s.slots| && s.slots[i].Established?
  {
    var y := Rotated(s.peers[p].value, i).(next := None);
    s.(peers := s.peers[p := Some(y)], slots := s.slots[i := Established(s.slots[i].session.(confirmed := true))])
  }

  lemma ConfirmedTables(s: State, p: nat, i: nat)
    requires Tables(s, None) && HasPeer(s, p) && s.peers[p].value.next == Some(i) && IsEstablished(s, i, p, false)
    ensures Tables(Confirmed(s, p, i), s.peers[p].value.previous)
  {
    var s', orphan := Confirmed(s, p, i), s.peers[p].value.previous;
    assert PeerOk(s, p) && SlotOk(s, i, None);
    forall q: nat | HasPeer(s', q) ensures PeerOk(s', q) {
      assert PeerOk(s, q);
    }
    forall j: nat | j < |s'.slots| ensures SlotOk(s', j, orphan) {
      assert SlotOk(s, j, None);
    }
    forall k: nat | k in s'.indices ensures IndexOk(s', k) {
      assert IndexOk(s, k);
    }
  }

  /** The seal that slot `i` would make next on behalf of peer `p`. */
  function NextSeal(s: State, p: nat, i: nat): Seal
    requires i < |s.slots| && s.slots[i].Established?
  {
    var x := s.slots[i].session;
    Seal(p, x.peer, x.key, x.nSend)
  }

  /** No seal so far used slot `i`'s key with its next counter. */
  ghost predicate Unused(s: State, i: nat)
    requires i < |s.slots| && s.slots[i].Established?
  {
    forall n {:trigger s.seals[n]} | 0 <= n < |s.seals| ::
      s.seals[n].key != s.slots[i].session.key || s.seals[n].counter != s.slots[i].session.nSend
  }

  /** Changing a session without touching its key or counter. */
  lemma SessionKeepsKeys(s: State, i: nat, y: Session)
    requires Keys(s.slots, s.seals, s.keys) && i < |s.slots| && s.slots[i].Established?
    requires y.key == s.slots[i].session.key && y.nSend == s.slots[i].session.nSend
    ensures Keys(s.slots[i := Established(y)], s.seals, s.keys)
  {
    var slots := s.slots[i := Established(y)];
    forall j | 0 <= j < |slots| ensures KeyOk(slots[j], s.seals, s.keys) {
      assert KeyOk(s.slots[j], s.seals, s.keys);
    }
    forall j, k | 0 <= j < k < |slots| ensures KeysApart(slots[j], slots[k]) {
      assert KeysApart(s.slots[j], s.slots[k]);
    }
  }

  /** One more seal under a session of the peer itself uses a new pair and leaves every other session's pairs unused. */
  lemma SealKeepsKeys(s: State, i: nat, y: Session)
    requires Keys(s.slots, s.seals, s.keys) && i < |s.slots| && s.slots[i].Established?
    requires var x := s.slots[i].session; y.key == x.key && y.nSend == x.nSend + 1 && x.nSend < REJECT_AFTER_MESSAGES
    ensures Unused(s, i)
    ensures Keys(s.slots[i := Established(y)], s.seals + [NextSeal(s, s.slots[i].session.peer, i)], s.keys)
  {
    var slots, seals := s.slots[i := Established(y)], s.seals + [NextSeal(s, s.slots[i].session.peer, i)];
    assert KeyOk(s.slots[i], s.seals, s.keys);
    forall j | 0 <= j < |slots| ensures KeyOk(slots[j], seals, s.keys) {
      assert KeyOk(s.slots[j], s.seals, s.keys);
      assert KeysApart(s.slots[if i < j then i else j], s.slots[if i < j then j else i]) || i == j;
    }
    forall j, k | 0 <= j < k < |slots| ensures KeysApart(slots[j], slots[k]) {
      assert KeysApart(s.slots[j], s.slots[k]);
    }
    forall n | 0 <= n < |seals| ensures SealOk(seals[n], s.keys) {
      assert n < |s.seals| ==> SealOk(s.seals[n], s.keys);
    }
    forall m, n | 0 <= m < n < |seals| ensures SealsApart(seals[m], seals[n]) {
      assert n < |s.seals| ==> SealsApart(s.seals[m], s.seals[n]);
    }
  }

  lemma ConfirmedOk(s: State, p: nat, i: nat, now: nat)
    requires Inv(s, None) && HasPeer(s, p) && s.peers[p].value.next == Some(i)
    ensures i < |s.slots| && s.slots[i].Established?
    ensures Inv(Confirmed(s, p, i), s.peers[p].value.previous) && Evolves(s, Confirmed(s, p, i), now, 1)
  {
    assert PeerOk(s, p);
    ConfirmedTables(s, p, i);
    SessionKeepsKeys(s, i, s.slots[i].session.(confirmed := true));
    ConfirmedEvolves(s, p, i, now);
  }

  lemma ConfirmedEvolves(s: State, p: nat, i: nat, now: nat)
    requires HasPeer(s, p) && i < |s.slots| && s.slots[i].Established?
    ensures Evolves(s, Confirmed(s, p, i), now, 1)
  {
  }

  // ---------------------------------------------------------------------
  // Sealing
  // ---------------------------------------------------------------------

  /** The session after one more message; `trigger` says whether this message asks for a rekey. */
  function Spent(x: Session, trigger: bool): Session {
    x.(nSend := x.nSend + 1, rekeyTriggered := x.rekeyTriggered || trigger)
  }

  predicate Triggers(x: Session, now: nat) {
    !x.rekeyTriggered && (x.nSend + 1 >= REKEY_AFTER_MESSAGES || (x.role.Initiator? && now >= RekeyDeadline(x)))
  }

  /** The limits of section 6.1 of the whitepaper, times in milliseconds. */
  lemma SessionLimits(x: Session, now: nat)
    ensures CanSend(x, now) <==>
            x.confirmed && now < x.created + 180_000 && x.nSend < 18_446_744_073_709_543_423
    ensures Triggers(x, now) <==>
            && !x.rekeyTriggered
            && (|| x.nSend >= 1_152_921_504_606_846_975
                || (x.role == Initiator
                    && now >= x.created + (if x.rekeyAfter < 180_000 then x.rekeyAfter else 120_000)))
  {
  }

  /** The sending peer's timers: no keepalive owed, persistent timer restarted, a reply awaited after real data. */
  function SentPeer(x: Peer, data: bool, now: nat, replyBy: nat): Peer {
    x.(lastActivity := now, keepaliveDue := None,
       persistentDue := if x.persistent.Some? then Some(now + x.persistent.value) else None,
       replyDue := if data && x.replyDue.None? then Some(replyBy) else x.replyDue)
  }

  /** Peer `p` has just sent; its new deadlines are covered. */
  function Sent(s: State, p: nat, data: bool, now: nat, replyBy: nat): State
    requires HasPeer(s, p)
  {
    var x := s.peers[p].value;
    var s' := WithPeer(s, p, SentPeer(x, data, now, replyBy));
    var reply := if data && x.replyDue.None? then Some(replyBy) else None;
    ArmOpt(ArmOpt(s', reply), SentPeer(x, data, now, replyBy).persistentDue)
  }

  /** A message of peer `p` sealed under the session of slot `i`. */
  function Sealed(s: State, p: nat, i: nat, data: bool, now: nat, replyBy: nat): State
    requires HasPeer(s, p) && i < |s.slots| && s.slots[i].Established?
  {
    var x := s.slots[i].session;
    Sent(s.(slots := s.slots[i := Established(Spent(x, Triggers(x, now)))], seals := s.seals + [NextSeal(s, p, i)]),
         p, data, now, replyBy)
  }

  /** Sending keeps the generations and covers what it starts. */
  lemma SentMoves(s: State, p: nat, data: bool, now: nat, replyBy: nat)
    requires HasPeer(s, p) && now < replyBy
    requires s.peers[p].value.persistent.Some? ==> s.peers[p].value.persistent.value > 0
    ensures var s', x := Sent(s, p, data, now, replyBy), s.peers[p].value;
            && HasPeer(s', p) && s'.peers == s.peers[p := s'.peers[p]]
            && SameGenerations(x, s'.peers[p].value) && PeerTimersMoved(x, s'.peers[p].value, s'.timers, now)
            && (s.timers.Some? ==> AtMost(s'.timers, s.timers.value))
  {
  }

  lemma SentOk(s: State, p: nat, data: bool, now: nat, replyBy: nat)
    requires Inv(s, None) && HasPeer(s, p) && now < replyBy
    ensures Inv(Sent(s, p, data, now, replyBy), None) && Evolves(s, Sent(s, p, data, now, replyBy), now, 1)
  {
    assert PeerOk(s, p);
    SentMoves(s, p, data, now, replyBy);
    var s' := Sent(s, p, data, now, replyBy);
    PeerTimersKeepInv(s, s', p, s'.peers[p].value, None);
    PeerEvolves(s, s', p, s'.peers[p].value, now);
  }

  /**
   Sealing on a peer's own session uses a fresh (key, counter) pair, keeps the tables, and
   starts only later timers.
   */
  lemma SealedOk(s: State, p: nat, i: nat, data: bool, now: nat, replyBy: nat)
    requires Inv(s, None) && HasPeer(s, p) && IsEstablished(s, i, p, true)
    requires CanSend(s.slots[i].session, now) && now < replyBy
    ensures Inv(Sealed(s, p, i, data, now, replyBy), None)
    ensures Evolves(s, Sealed(s, p, i, data, now, replyBy), now, 1)
    ensures Unused(s, i)
  {
    var x := s.slots[i].session;
    var y := Spent(x, Triggers(x, now));
    var s1 := s.(slots := s.slots[i := Established(y)], seals := s.seals + [NextSeal(s, p, i)]);
    SealKeepsKeys(s, i, y);
    SessionKeepsTables(s, s1, i, y);
    SessionEvolves(s, s1, i, y, now);
    SentOk(s1, p, data, now, replyBy);
    EvolvesTransitive(s, s1, Sealed(s, p, i, data, now, replyBy), now, 1);
  }

  /** Changing a session's counters and flags leaves the tables alone. */
  lemma SessionKeepsTables(s: State, s': State, i: nat, y: Session)
    requires Tables(s, None) && i < |s.slots| && s.slots[i].Established?
    requires s'.slots == s.slots[i := Established(y)] && s'.peers == s.peers && s'.byKey == s.byKey
              && s'.indices == s.indices
    requires var x := s.slots[i].session; y.peer == x.peer && y.localIndex == x.localIndex && y.confirmed == x.confirmed
    requires s'.admitted == s.admitted
    ensures Tables(s', None)
  {
    forall q: nat | HasPeer(s', q) ensures PeerOk(s', q) {
      assert PeerOk(s, q);
    }
    forall j: nat | j < |s'.slots| ensures SlotOk(s', j, None) {
      assert SlotOk(s, j, None);
    }
    forall k: nat | k in s'.indices ensures IndexOk(s', k) {
      assert IndexOk(s, k);
    }
  }

  lemma SessionEvolves(s: State, s': State, i: nat, y: Session, now: nat)
    requires i < |s.slots| && s.slots[i].Established? && y.created == s.slots[i].session.created
    requires s'.slots == s.slots[i := Established(y)] && s'.peers == s.peers && s'.timers == s.timers
    requires s'.pending == s.pending && s'.resolves == s.resolves && s'.reconciles == s.reconciles
    requires s.keys <= s'.keys && s.seals <= s'.seals
    ensures Evolves(s, s', now, 1)
  {
  }

  /** A peer just heard from: no reply is awaited, and data wants an answer within the keepalive time. */
  function HeardFrom(x: Peer, data: bool, now: nat): Peer {
    Heard(x, now).(replyDue := None,
                   persistentDue := if x.persistent.Some? then Some(now + x.persistent.value) else None,
                   keepaliveDue := if data then Some(now + KEEPALIVE_TIMEOUT) else x.keepaliveDue)
  }

  function Received(s: State, p: nat, data: bool, now: nat): State
    requires HasPeer(s, p)
  {
    var y := HeardFrom(s.peers[p].value, data, now);
    var s1 := ArmOpt(s, if data then Some(now + KEEPALIVE_TIMEOUT) else None);
    WithPeer(ArmOpt(s1, y.persistentDue), p, y)
  }

  lemma ReceivedOk(s: State, p: nat, data: bool, now: nat, orphan: Option<nat>)
    requires Inv(s, orphan) && HasPeer(s, p)
    ensures Inv(Received(s, p, data, now), orphan) && Evolves(s, Received(s, p, data, now), now, 1)
  {
    assert PeerOk(s, p);
    var s', y := Received(s, p, data, now), HeardFrom(s.peers[p].value, data, now);
    PeerTimersKeepInv(s, s', p, y, orphan);
    PeerEvolves(s, s', p, y, now);
  }

  /** All of a receipt on slot `i`: an unconfirmed session becomes current and the old previous is freed. */
  function Delivered(s: State, p: nat, i: nat, data: bool, now: nat): State
    requires HasPeer(s, p) && i < |s.slots| && s.slots[i].Established?
  {
    if s.peers[p].value.next == Some(i)
    then FreedOpt(Received(Confirmed(s, p, i), p, data, now), s.peers[p].value.previous)
    else Received(s, p, data, now)
  }

  /** The intermediate states keep the invariant up to the orphan, so the free cannot fail. */
  lemma DeliveredOk(s: State, p: nat, i: nat, data: bool, now: nat)
    requires Inv(s, None) && HasPeer(s, p) && i < |s.slots| && s.slots[i].Established?
    ensures s.peers[p].value.next == Some(i) ==>
              && Inv(Received(Confirmed(s, p, i), p, data, now), s.peers[p].value.previous)
              && (s.peers[p].value.previous.Some? ==> s.peers[p].value.previous.value < |s.slots|)
    ensures Inv(Delivered(s, p, i, data, now), None) && Evolves(s, Delivered(s, p, i, data, now), now, 1)
  {
    if s.peers[p].value.next == Some(i) {
      var orphan := s.peers[p].value.previous;
      var s1 := Confirmed(s, p, i);
      ConfirmedOk(s, p, i, now);
      var s2 := Received(s1, p, data, now);
      ReceivedOk(s1, p, data, now, orphan);
      EvolvesTransitive(s, s1, s2, now, 1);
      if orphan.Some? {
        assert PeerOk(s, p);
        FreedOk(s2, orphan.value, orphan, now);
        EvolvesTransitive(s, s2, Freed(s2, orphan.value), now, 1);
      }
    } else {
      ReceivedOk(s, p, data, now, None);
    }
  }

  /** What confirmation leaves of the peer and the slots before the old previous is freed. */
  lemma ConfirmedThenReceived(s: State, p: nat, i: nat, data: bool, now: nat)
    requires HasPeer(s, p) && i < |s.slots| && s.slots[i].Established?
    ensures var s' := Received(Confirmed(s, p, i), p, data, now);
            && s'.peers == s.peers[p := Some(HeardFrom(Rotated(s.peers[p].value, i).(next := None), data, now))]
            && s'.slots == s.slots[i := Established(s.slots[i].session.(confirmed := true))]
  {
  }

  lemma FreedPeer(s: State, i: nat, p: nat)
    requires HasPeer(s, p) && i < |s.slots| && OwnedBy(s.slots[i], p)
    ensures Freed(s, i).slots == s.slots[i := Free]
              && Freed(s, i).peers == s.peers[p := Some(Unlink(s.peers[p].value, i))]
  {
  }

  /** Confirmation rotates the generations and leaves the old previous slot free. */
  lemma DeliveredRotates(s: State, p: nat, i: nat, data: bool, now: nat)
    requires HasPeer(s, p) && PeerOk(s, p) && s.peers[p].value.next == Some(i)
    ensures i < |s.slots| && s.slots[i].Established?
    ensures Rotation(s, Delivered(s, p, i, data, now), p, i)
    ensures Delivered(s, p, i, data, now).slots[i] == Established(s.slots[i].session.(confirmed := true))
  {
    var orphan := s.peers[p].value.previous;
    var s2 := Received(Confirmed(s, p, i), p, data, now);
    ConfirmedThenReceived(s, p, i, data, now);
    if orphan.Some? {
      FreedPeer(s2, orphan.value, p);
    }
  }

  /** Slot `i` is current, the old current is previous, the old previous is free. */
  predicate Rotation(s: State, s': State, p: nat, i: nat)
    requires HasPeer(s, p)
  {
    && HasPeer(s', p) && |s'.slots| == |s.slots|
    && var x, y := s.peers[p].value, s'.peers[p].value;
    && y.current == Some(i) && y.previous == x.current && y.next != Some(i) && y.handshake != Some(i)
    && (x.previous.Some? ==> x.previous.value < |s'.slots| && s'.slots[x.previous.value].Free?)
  }

  /** The initiator's rotation does the same. */
  lemma AnsweredRotates(s: State, p: nat, i: nat, x: Session)
    requires HasPeer(s, p) && PeerOk(s, p) && CanAnswer(s, p, i, x)
    ensures Rotation(s, FreedOpt(Answered(s, p, i, x), s.peers[p].value.previous), p, i)
    ensures FreedOpt(Answered(s, p, i, x), s.peers[p].value.previous).slots[i] == Established(x)
  {
    var orphan := s.peers[p].value.previous;
    var s1 := Answered(s, p, i, x);
    assert s1.slots == s.slots[i := Established(x)];
    assert s1.peers[p].value.current == Some(i) && s1.peers[p].value.previous == s.peers[p].value.current;
    if orphan.Some? {
      FreedPeer(s1, orphan.value, p);
    }
  }

  // ---------------------------------------------------------------------
  // Sending abandons no handshake
  // ---------------------------------------------------------------------

  /** The slot of peer `p`'s handshake in flight. */
  function InFlight(s: State, p: nat): Option<nat> {
    if HasPeer(s, p) then s.peers[p].value.handshake else None
  }

  ghost predicate HandshakesKept(s: State, s': State) {
    forall p: nat {:trigger InFlight(s', p)} | InFlight(s, p).Some? :: InFlight(s', p) == InFlight(s, p)
  }

  /** A slot that holds a session held the same one before, and one that is initiating goes on under its index. */
  predicate SameSession(x: Slot, y: Slot) {
    && (y.Established? ==>
          && x.Established? && y.session.confirmed == x.session.confirmed
          && y.session.peer == x.session.peer && y.session.key == x.session.key)
    && (x.Initiating? ==> y.Initiating? && y.peer == x.peer && y.localIndex == x.localIndex)
  }

  /** Sessions end but none begins, and none changes hands. */
  ghost predicate NoNewSessions(s: State, s': State) {
    && |s'.slots| == |s.slots|
    && forall i {:trigger SameSession(s.slots[i], s'.slots[i])} | 0 <= i < |s.slots| ::
      SameSession(s.slots[i], s'.slots[i])
  }

  /** When the persistent keepalive of `x` is next due after it sends or hears something at `now`. */
  function NextPersistent(x: Peer, now: nat): Option<nat> {
    if x.persistent.Some? then Some(now + x.persistent.value) else None
  }

  /** Peer `p` stays, and its persistent keepalive is left alone or restarted. */
  predicate KeepsInterval(s: State, s': State, p: nat, now: nat) {
    HasPeer(s, p) ==>
      && HasPeer(s', p)
      && var x, y := s.peers[p].value, s'.peers[p].value;
      && y.persistent == x.persistent
      && (y.persistentDue == x.persistentDue || y.persistentDue == NextPersistent(x, now))
  }

  ghost predicate IntervalsKept(s: State, s': State, now: nat) {
    forall p: nat {:trigger KeepsInterval(s, s', p, now)} :: KeepsInterval(s, s', p, now)
  }

  /**
   What every sending path does: moves timers as allowed, abandons no handshake, begins no
   session, removes no peer and stops no persistent keepalive.
   */
  ghost predicate Sends(s: State, s': State, now: nat) {
    Evolves(s, s', now, 1) && HandshakesKept(s, s') && NoNewSessions(s, s') && IntervalsKept(s, s', now)
  }

  lemma SendsReflexive(s: State, now: nat)
    ensures Sends(s, s, now)
  {
  }

  lemma SendsTransitive(a: State, b: State, c: State, now: nat)
    requires Sends(a, b, now) && Sends(b, c, now)
    ensures Sends(a, c, now)
  {
    EvolvesTransitive(a, b, c, now, 1);
    forall p: nat | InFlight(a, p).Some? ensures InFlight(c, p) == InFlight(a, p) {
      assert InFlight(b, p) == InFlight(a, p);
    }
    forall i | 0 <= i < |a.slots| ensures SameSession(a.slots[i], c.slots[i]) {
      assert SameSession(a.slots[i], b.slots[i]) && SameSession(b.slots[i], c.slots[i]);
    }
    forall p: nat ensures KeepsInterval(a, c, p, now) {
      assert KeepsInterval(a, b, p, now) && KeepsInterval(b, c, p, now);
    }
  }

  /** Freeing a slot removes no peer and starts nothing. */
  lemma FreedPeers(s: State, i: nat, p: nat)
    requires HasPeer(s, p)
    ensures HasPeer(Freed(s, i), p)
    ensures s.peers[p].value.next.None? ==> Freed(s, i).peers[p].value.next.None?
    ensures s.peers[p].value.handshake.None? ==> Freed(s, i).peers[p].value.handshake.None?
    ensures Freed(s, i).peers[p].value.endpoint == s.peers[p].value.endpoint
    ensures Freed(s, i).peers[p].value.relay == s.peers[p].value.relay
  {
  }

  /** Freeing a slot that is not initiating ends no handshake. */
  lemma FreedKeepsHandshakes(s: State, i: nat, now: nat)
    requires Tables(s, None) && i < |s.slots| && !s.slots[i].Initiating?
    ensures HandshakesKept(s, Freed(s, i)) && NoNewSessions(s, Freed(s, i)) && IntervalsKept(s, Freed(s, i), now)
  {
    forall p: nat | InFlight(s, p).Some? ensures InFlight(Freed(s, i), p) == InFlight(s, p) {
      assert PeerOk(s, p);
    }
  }

  lemma SealedSends(s: State, p: nat, i: nat, data: bool, now: nat, replyBy: nat)
    requires HasPeer(s, p) && i < |s.slots| && s.slots[i].Established?
    ensures var s' := Sealed(s, p, i, data, now, replyBy);
            && HandshakesKept(s, s') && NoNewSessions(s, s') && IntervalsKept(s, s', now)
            && s'.seals == s.seals + [NextSeal(s, p, i)] && s'.slots[i].Established?
  {
  }

  /** A message of peer `p` went out under the session, and the next counter, that slot `i` held before. */
  ghost predicate SealedUnder(s: State, s': State, p: nat, i: nat) {
    && i < |s.slots| && s.slots[i].Established?
    && exists n :: |s.seals| <= n < |s'.seals| && s'.seals[n] == NextSeal(s, p, i)
  }

  /** A message went out on behalf of `p`. */
  ghost predicate SealedFor(s: State, s': State, p: nat) {
    exists n :: |s.seals| <= n < |s'.seals| && s'.seals[n].peer == p
  }

  /** A session that is still there is still the same peer's. */
  lemma StillOwn(s: State, s': State, p: nat, i: nat)
    requires OwnSession(s, p, i) && NoNewSessions(s, s')
    ensures OwnSession(s', p, i)
  {
    assert i < |s.slots| ==> SameSession(s.slots[i], s'.slots[i]);
  }

  /** What went out stays on record. */
  lemma SealedStays(s: State, s1: State, s2: State, p: nat, i: nat)
    requires SealedUnder(s, s1, p, i) && s1.seals <= s2.seals
    ensures SealedUnder(s, s2, p, i)
  {
    var n :| |s.seals| <= n < |s1.seals| && s1.seals[n] == NextSeal(s, p, i);
    assert s2.seals[n] == s1.seals[n];
  }

  lemma SealedForStays(s: State, s0: State, s1: State, s2: State, p: nat)
    requires s.seals <= s0.seals && SealedFor(s0, s1, p) && s1.seals <= s2.seals
    ensures SealedFor(s, s2, p)
  {
    var n :| |s0.seals| <= n < |s1.seals| && s1.seals[n].peer == p;
    assert s2.seals[n] == s1.seals[n];
  }

  /** If slot `i` holds a session at all, it is one of peer `p`. */
  predicate OwnSession(s: State, p: nat, i: nat) {
    i < |s.slots| && s.slots[i].Established? ==> s.slots[i].session.peer == p
  }

  // ---------------------------------------------------------------------
  // Installing and removing peers
  // ---------------------------------------------------------------------

  function NewPeer(publicKey: nat, pinned: bool, endpoint: bool, relay: Option<nat>, interval: Option<nat>,
                   now: nat): Peer {
    var persistent := if interval == Some(0) then None else interval;
    Peer(publicKey, pinned, endpoint, relay, persistent, None, None, None, None,
         None, if persistent.Some? then Some(now + persistent.value) else None, None, None, now)
  }

  function Installed(s: State, p: nat, x: Peer): State
    requires p < |s.peers|
  {
    var admitted := if x.pinned then s.admitted else s.admitted + {x.publicKey};
    var s' := s.(peers := s.peers[p := Some(x)], byKey := s.byKey[x.publicKey := p], admitted := admitted);
    ArmOpt(s', x.persistentDue)
  }

  /** A peer without sessions or running timers other than the persistent keepalive. */
  predicate IsNew(x: Peer, now: nat) {
    && x.current.None? && x.previous.None? && x.next.None? && x.handshake.None?
    && x.keepaliveDue.None? && x.replyDue.None? && x.attemptDeadline.None?
    && (x.persistent.Some? ==> x.persistent.value > 0)
    && x.persistentDue == if x.persistent.Some? then Some(now + x.persistent.value) else None
  }

  lemma InstalledInv(s: State, p: nat, x: Peer, now: nat)
    requires Inv(s, None) && p < |s.peers| && s.peers[p].None? && x.publicKey !in s.byKey && IsNew(x, now)
    requires x.pinned ==> x.publicKey !in s.admitted
    ensures Inv(Installed(s, p, x), None)
  {
    var s' := Installed(s, p, x);
    forall q: nat | HasPeer(s', q) ensures PeerOk(s', q) {
      if q != p {
        assert PeerOk(s, q);
      }
    }
    forall j: nat | j < |s'.slots| ensures SlotOk(s', j, None) {
      assert SlotOk(s, j, None);
    }
    forall k: nat | k in s'.indices ensures IndexOk(s', k) {
      assert IndexOk(s, k);
    }
  }

  lemma InstalledOk(s: State, p: nat, x: Peer, now: nat)
    requires Inv(s, None) && p < |s.peers| && s.peers[p].None? && x.publicKey !in s.byKey && IsNew(x, now)
    requires x.pinned ==> x.publicKey !in s.admitted
    ensures Inv(Installed(s, p, x), None) && Evolves(s, Installed(s, p, x), now, 1)
  {
    InstalledInv(s, p, x, now);
    forall t ensures TimerMoved(s, Installed(s, p, x), t, now, 1) {
    }
  }

  function FreedOpt(s: State, i: Option<nat>): State {
    if i.Some? then Freed(s, i.value) else s
  }

  predicate OwnedBy(x: Slot, p: nat) {
    !x.Free? && Owner(x) == p
  }

  predicate LeadsTo(s: State, index: nat, p: nat)
    requires index in s.indices
  {
    s.indices[index] < |s.slots| && OwnedBy(s.slots[s.indices[index]], p)
  }

  /** Peer `p` leaves: every slot it owns is freed with its wire index, and packets waiting for it are dropped. */
  function Evicted(s: State, p: nat): State
    requires HasPeer(s, p)
  {
    s.(peers := s.peers[p := None], byKey := s.byKey - {s.peers[p].value.publicKey},
       slots := seq(|s.slots|, i requires 0 <= i < |s.slots| => if OwnedBy(s.slots[i], p) then Free else s.slots[i]),
       indices := map x | x in s.indices && !LeadsTo(s, x, p) :: s.indices[x],
       pending := Dropped(s.pending, OnHandshake(p)))
  }

  lemma EvictedOk(s: State, p: nat, now: nat)
    requires Inv(s, None) && HasPeer(s, p)
    ensures Inv(Evicted(s, p), None) && Evolves(s, Evicted(s, p), now, 1)
  {
    EvictedTables(s, p);
    EvictedEvolves(s, p, now);
    var s' := Evicted(s, p);
    FewerKeys(s.slots, s'.slots, s.seals, s.keys);
  }

  lemma EvictedEvolves(s: State, p: nat, now: nat)
    requires HasPeer(s, p)
    ensures Evolves(s, Evicted(s, p), now, 1)
  {
  }

  lemma EvictedTables(s: State, p: nat)
    requires Tables(s, None) && HasPeer(s, p)
    ensures Tables(Evicted(s, p), None)
  {
    var s' := Evicted(s, p);
    forall q: nat | HasPeer(s', q) ensures PeerOk(s', q) {
      assert PeerOk(s, q) && PeerOk(s, p);
    }
    forall j: nat | j < |s'.slots| ensures SlotOk(s', j, None) {
      assert SlotOk(s, j, None);
    }
    forall k: nat | k in s'.indices ensures IndexOk(s', k) {
      assert IndexOk(s, k);
    }
  }

  /** The slots a peer owns are exactly those its four generation fields name. */
  lemma OwnedIsReferred(s: State, p: nat, i: nat)
    requires Tables(s, None) && HasPeer(s, p) && i < |s.slots|
    ensures var x := s.peers[p].value;
            OwnedBy(s.slots[i], p) <==> Some(i) in [x.current, x.previous, x.next, x.handshake]
  {
    assert PeerOk(s, p) && SlotOk(s, i, None);
    var x := s.peers[p].value;
    var fields := [x.current, x.previous, x.next, x.handshake];
    assert fields[0] == x.current && fields[1] == x.previous && fields[2] == x.next && fields[3] == x.handshake;
  }

  /** Freeing the slots named by the four fields is the eviction of the peer's slots. */
  lemma ReleasedIsEvicted(s: State, p: nat, fields: seq<Option<nat>>, slots: seq<Slot>, indices: map<nat, nat>)
    requires Tables(s, None) && HasPeer(s, p) && |slots| == |s.slots|
    requires var x := s.peers[p].value; fields == [x.current, x.previous, x.next, x.handshake]
    requires forall j | 0 <= j < |slots| :: slots[j] == if Some(j) in fields then Free else s.slots[j]
    requires forall x :: x in indices <==> x in s.indices && Some(s.indices[x]) !in fields
    requires forall x | x in indices :: indices[x] == s.indices[x]
    ensures slots == Evicted(s, p).slots && indices == Evicted(s, p).indices
  {
    forall j: nat | j < |slots| ensures slots[j] == Evicted(s, p).slots[j] {
      OwnedIsReferred(s, p, j);
    }
    forall x | x in s.indices ensures x in indices <==> x in Evicted(s, p).indices {
      assert IndexOk(s, x);
      OwnedIsReferred(s, p, s.indices[x]);
    }
  }

  // ---------------------------------------------------------------------
  // Parked packets and resolver bookkeeping
  // ---------------------------------------------------------------------

  predicate Awaits(x: Option<Parked>, wait: Wait) {
    x.Some? && x.value.wait == wait
  }

  function Dropped(pending: seq<Option<Parked>>, wait: Wait): seq<Option<Parked>> {
    seq(|pending|, j requires 0 <= j < |pending| => if Awaits(pending[j], wait) then None else pending[j])
  }

  /** Where a new packet goes: a free place, or over the packet closest to its deadline. */
  predicate ParkSpot(pending: seq<Option<Parked>>, j: nat) {
    && j < |pending|
    && (pending[j].None? || forall k | 0 <= k < |pending| ::
          pending[k].Some? && pending[j].value.deadline <= pending[k].value.deadline)
  }

  ghost function Occupied(pending: seq<Option<Parked>>): set<nat> {
    set j: nat | j < |pending| && pending[j].Some?
  }

  ghost function Awaiting(pending: seq<Option<Parked>>, wait: Wait): set<nat> {
    set j: nat | j < |pending| && Awaits(pending[j], wait)
  }

  /** A lookup for `query` must not be issued: one is in flight, or a negative answer is still honoured. */
  predicate Suppressed(resolves: map<nat, Resolve>, query: Query, now: nat) {
    exists id :: id in resolves && resolves[id].query == query
                 && (resolves[id].kind.Negative? ==> resolves[id].deadline > now)
  }

  /** A step that touches only parked packets, resolver bookkeeping and the bound. */
  lemma AuxOk(s: State, s': State, orphan: Option<nat>, now: nat, slack: nat)
    requires Inv(s, orphan) && SameTables(s, s') && |s'.pending| == |s.pending|
    requires s.timers.Some? ==> AtMost(s'.timers, s.timers.value)
    requires forall j: nat :: TimerMoved(s, s', ParkTimer(j), now, slack)
    requires forall id: nat :: TimerMoved(s, s', ResolveTimer(id), now, slack)
    requires forall k: nat :: TimerMoved(s, s', ReconcileTimer(k), now, slack)
    ensures Inv(s', orphan) && Evolves(s, s', now, slack)
  {
    SameTablesKeepInv(s, s', orphan);
    forall t ensures TimerMoved(s, s', t, now, slack) {
      match t
      case ParkTimer(j) => assert TimerMoved(s, s', ParkTimer(j), now, slack);
      case ResolveTimer(id) => assert TimerMoved(s, s', ResolveTimer(id), now, slack);
      case ReconcileTimer(k) => assert TimerMoved(s, s', ReconcileTimer(k), now, slack);
      case _ =>
    }
  }

  /** New lookups are armed and late enough; others stay or go. */
  lemma ResolvesOk(s: State, resolves: map<nat, Resolve>, timers: Option<nat>, now: nat, slack: nat)
    requires Inv(s, None) && (s.timers.Some? ==> AtMost(timers, s.timers.value))
    requires forall id | id in resolves ::
               (id in s.resolves && resolves[id] == s.resolves[id])
               || (now + slack <= resolves[id].deadline && AtMost(timers, resolves[id].deadline))
    ensures Inv(s.(resolves := resolves, timers := timers), None)
    ensures Evolves(s, s.(resolves := resolves, timers := timers), now, slack)
  {
    AuxOk(s, s.(resolves := resolves, timers := timers), None, now, slack);
  }

  lemma ReconcilesOk(s: State, reconciles: map<nat, nat>, timers: Option<nat>, now: nat, slack: nat)
    requires Inv(s, None) && (s.timers.Some? ==> AtMost(timers, s.timers.value))
    requires forall k | k in reconciles ::
               (k in s.reconciles && reconciles[k] == s.reconciles[k])
               || (now + slack <= reconciles[k] && AtMost(timers, reconciles[k]))
    ensures Inv(s.(reconciles := reconciles, timers := timers), None)
    ensures Evolves(s, s.(reconciles := reconciles, timers := timers), now, slack)
  {
    AuxOk(s, s.(reconciles := reconciles, timers := timers), None, now, slack);
  }

  /** Reconciliation of `key` is no longer owed. */
  function Unowed(s: State, key: nat): State {
    s.(reconciles := s.reconciles - {key})
  }

  lemma UnowedOk(s: State, key: nat, now: nat)
    requires Inv(s, None)
    ensures Inv(Unowed(s, key), None) && Evolves(s, Unowed(s, key), now, 1)
  {
    ReconcilesOk(s, Unowed(s, key).reconciles, s.timers, now, 1);
  }

  /** Reconciliation of `key` is owed at `due`. */
  function Owed(s: State, key: nat, due: nat): State {
    Arm(s.(reconciles := s.reconciles[key := due]), due)
  }

  lemma OwedOk(s: State, key: nat, due: nat, now: nat, slack: nat)
    requires Inv(s, None) && ((key in s.reconciles && s.reconciles[key] == due) || now + slack <= due)
    ensures Inv(Owed(s, key, due), None) && Evolves(s, Owed(s, key, due), now, slack)
  {
    var s' := Owed(s, key, due);
    ReconcilesOk(s, s'.reconciles, s'.timers, now, slack);
  }

  /** A resolver record replaces the endpoint, relay and persistent keepalive of a held peer. */
  function Refreshed(x: Peer, endpoint: bool, relay: Option<nat>, persistent: Option<nat>, now: nat): Peer {
    var y := x.(endpoint := endpoint, relay := relay);
    if x.persistent == persistent then y
    else y.(persistent := persistent, persistentDue := if persistent.Some? then Some(now + persistent.value) else None)
  }

  function WithRecord(s: State, p: nat, endpoint: bool, relay: Option<nat>, persistent: Option<nat>, now: nat): State
    requires HasPeer(s, p)
  {
    var x := s.peers[p].value;
    var s' := WithPeer(s, p, Refreshed(x, endpoint, relay, persistent, now));
    if x.persistent != persistent && persistent.Some? then Arm(s', now + persistent.value) else s'
  }

  lemma RefreshedPeer(x: Peer, endpoint: bool, relay: Option<nat>, persistent: Option<nat>, bound: Option<nat>,
                      now: nat)
    requires (x.persistent.Some? ==> x.persistent.value > 0) && (persistent.Some? ==> persistent.value > 0)
    requires x.persistent != persistent && persistent.Some? ==> AtMost(bound, now + persistent.value)
    ensures var y := Refreshed(x, endpoint, relay, persistent, now);
            SameGenerations(x, y) && PeerTimersMoved(x, y, bound, now)
  {
  }

  lemma WithRecordOk(s: State, p: nat, endpoint: bool, relay: Option<nat>, persistent: Option<nat>, now: nat)
    requires Inv(s, None) && HasPeer(s, p) && (persistent.Some? ==> persistent.value > 0)
    ensures Inv(WithRecord(s, p, endpoint, relay, persistent, now), None)
    ensures Evolves(s, WithRecord(s, p, endpoint, relay, persistent, now), now, 1)
  {
    assert PeerOk(s, p);
    var s' := WithRecord(s, p, endpoint, relay, persistent, now);
    RefreshedPeer(s.peers[p].value, endpoint, relay, persistent, s'.timers, now);
    var y := Refreshed(s.peers[p].value, endpoint, relay, persistent, now);
    PeerTimersKeepInv(s, s', p, y, None);
    PeerEvolves(s, s', p, y, now);
  }

  /** The record is the new one, the generations stay, and the keepalive runs on unless its interval changed. */
  predicate Carries(x: Peer, y: Peer, endpoint: bool, relay: Option<nat>, persistent: Option<nat>) {
    && SameGenerations(x, y) && y.endpoint == endpoint && y.relay == relay && y.persistent == persistent
    && (if x.persistent == persistent then y.persistentDue == x.persistentDue
        else y.persistentDue.Some? <==> persistent.Some?)
  }

  lemma RefreshedCarries(x: Peer, endpoint: bool, relay: Option<nat>, persistent: Option<nat>, now: nat)
    requires (x.persistent.Some? ==> x.persistent.value > 0) && (persistent.Some? ==> persistent.value > 0)
    ensures Carries(x, Refreshed(x, endpoint, relay, persistent, now), endpoint, relay, persistent)
  {
  }

  lemma RemovedSize<V>(m: map<nat, V>, k: nat)
    requires k in m
    ensures |m - {k}| + 1 == |m|
  {
    assert m.Keys == (m - {k}).Keys + {k};
    assert |m.Keys| == |m| && |(m - {k}).Keys| == |m - {k}|;
  }

  lemma SubmapSize<V>(m: map<nat, V>, n: map<nat, V>)
    requires m.Keys <= n.Keys
    ensures |m| <= |n|
  {
    assert n.Keys == m.Keys + (n.Keys - m.Keys);
    assert |m.Keys| == |m| && |n.Keys| == |n|;
  }

  // ---------------------------------------------------------------------
  // Due timers
  // ---------------------------------------------------------------------

  /** Every timer that could be running. */
  ghost function AllTimers(s: State): set<TimerId> {
    (set p: nat | p < |s.peers| :: Keepalive(p)) + (set p: nat | p < |s.peers| :: Persistent(p))
    + (set p: nat | p < |s.peers| :: Reply(p)) + (set p: nat | p < |s.peers| :: Attempt(p))
    + (set i: nat | i < |s.slots| :: SlotTimer(i)) + (set j: nat | j < |s.pending| :: ParkTimer(j))
    + (set id | id in s.resolves :: ResolveTimer(id)) + (set k | k in s.reconciles :: ReconcileTimer(k))
  }

  ghost function DueSet(s: State, now: nat): (r: set<TimerId>)
    ensures forall t :: t in r <==> IsDue(s, t, now)
  {
    set t | t in AllTimers(s) && IsDue(s, t, now)
  }

  /** A step that starts timers only in the future makes nothing due. */
  lemma NothingBecomesDue(s: State, s': State, now: nat)
    requires Evolves(s, s', now, 1)
    ensures DueSet(s', now) <= DueSet(s, now)
  {
    forall t | IsDue(s', t, now) ensures IsDue(s, t, now) {
      assert TimerMoved(s, s', t, now, 1);
    }
  }

  /** Every entry is a live lookup and there is no place for another. */
  predicate FullOfLive(resolves: map<nat, Resolve>, max: nat) {
    |resolves| >= max && forall id | id in resolves :: !resolves[id].kind.Negative?
  }

  /** A due reconciliation of `key` can only be put off: it is being asked already, or cannot be asked. */
  predicate Blocked(s: State, key: nat, now: nat, max: nat) {
    key in s.byKey && (Suppressed(s.resolves, ByKey(key), now) || FullOfLive(s.resolves, max))
  }

  predicate OwesWhenExpired(s: State, x: Resolve) {
    x.kind.Reconcile? && x.query.ByKey? && x.query.publicKey in s.byKey
  }

  /** Reconciliation of `key` comes to be owed at `due`: never later than before, and only within the backlog. */
  function OwedAt(reconciles: map<nat, nat>, key: nat, due: nat, backlog: nat): map<nat, nat> {
    if key in reconciles then reconciles[key := if due < reconciles[key] then due else reconciles[key]]
    else if |reconciles| < backlog then reconciles[key := due]
    else reconciles
  }

  // ---------------------------------------------------------------------
  // When draining at one instant ends
  // ---------------------------------------------------------------------

  /** Live lookups that will not expire at `now`. */
  ghost function Waiting(resolves: map<nat, Resolve>, now: nat): set<nat> {
    set id | id in resolves && !resolves[id].kind.Negative? && resolves[id].deadline > now
  }

  /** Lookup `x` expires at `now` and leaves the reconciliation of `key` owed. */
  predicate Lapses(x: Resolve, key: nat, now: nat) {
    x.deadline <= now && x.kind.Reconcile? && x.query == ByKey(key)
  }

  /** The held keys whose reconciliation is due, or will be once the due lookups have expired. */
  ghost function Owing(s: State, now: nat): set<nat> {
    set k | k in s.byKey && IsOwing(s, k, now)
  }

  ghost predicate IsOwing(s: State, key: nat, now: nat) {
    IsDue(s, ReconcileTimer(key), now) || exists id :: id in s.resolves && Lapses(s.resolves[id], key, now)
  }

  /** An entry that outlives `now` stands in the way of asking for `key`. */
  ghost predicate InTheWay(resolves: map<nat, Resolve>, id: nat, key: nat, now: nat) {
    id in resolves && resolves[id].query == ByKey(key) && resolves[id].deadline > now
  }

  /** Every owed reconciliation can be asked: nothing is in its way, and all fit beside the waiting lookups. */
  ghost predicate Clear(s: State, now: nat, max: nat) {
    && (forall k, id | k in Owing(s, now) :: !InTheWay(s.resolves, id, k, now))
    && |Owing(s, now)| + |Waiting(s.resolves, now)| <= max
  }

  /** Some owed reconciliation cannot: a waiting lookup is in its way, or not all fit. */
  ghost predicate Over(s: State, now: nat, max: nat) {
    || (exists k, id :: k in Owing(s, now) && id in Waiting(s.resolves, now) && InTheWay(s.resolves, id, k, now))
    || |Owing(s, now)| + |Waiting(s.resolves, now)| > max
  }

  /** The backlog has room for whatever is owed. */
  ghost predicate Room(s: State, now: nat) {
    |s.reconciles.Keys + Owing(s, now)| <= |s.peers|
  }

  /** No negative marker outlives `now`; made with a zero TTL, a marker's deadline is the instant it was made. */
  predicate NoLateMarkers(s: State, now: nat) {
    forall id | id in s.resolves && s.resolves[id].kind.Negative? :: s.resolves[id].deadline <= now
  }

  /** The two conditions are exactly complementary. */
  lemma ClearOrOver(s: State, now: nat, max: nat)
    requires NoLateMarkers(s, now)
    ensures Clear(s, now, max) <==> !Over(s, now, max)
  {
    forall k, id | k in Owing(s, now) && InTheWay(s.resolves, id, k, now) ensures id in Waiting(s.resolves, now) {
    }
  }

  lemma WaitingSize(resolves: map<nat, Resolve>, now: nat)
    ensures Waiting(resolves, now) <= resolves.Keys && |Waiting(resolves, now)| <= |resolves|
    ensures (forall id | id in resolves :: id in Waiting(resolves, now)) ==> |Waiting(resolves, now)| == |resolves|
  {
    var w := Waiting(resolves, now);
    assert resolves.Keys == w + (resolves.Keys - w) && |resolves.Keys| == |resolves|;
  }

  /** Where nothing is owed, everything is clear. */
  lemma ClearWhenNothingOwed(s: State, now: nat, max: nat)
    requires |s.resolves| <= max && Owing(s, now) == {}
    ensures Clear(s, now, max)
  {
    WaitingSize(s.resolves, now);
  }

  lemma NothingOwed(s: State, now: nat)
    requires s.resolves == map[] && s.reconciles == map[]
    ensures Owing(s, now) == {}
  {
  }

  /** Where not everything can be asked, something is due. */
  lemma OverIsDue(s: State, now: nat, max: nat)
    requires Over(s, now, max) && |s.resolves| <= max
    ensures exists t :: IsDue(s, t, now)
  {
    WaitingSize(s.resolves, now);
    assert Owing(s, now) != {};
    var k :| k in Owing(s, now);
    if !IsDue(s, ReconcileTimer(k), now) {
      var id :| id in s.resolves && Lapses(s.resolves[id], k, now);
      assert IsDue(s, ResolveTimer(id), now);
    }
  }

  // The steps ---------------------------------------------------------------

  /** What one step does to the two conditions when the TTL is zero. */
  ghost predicate KeepsOutlook(s: State, s': State, now: nat, max: nat) {
    && (Clear(s, now, max) ==> Clear(s', now, max))
    && (Over(s, now, max) && Room(s, now) ==> Over(s', now, max) && Room(s', now))
  }

  lemma OutlookThrough(a: State, b: State, c: State, now: nat, max: nat)
    requires KeepsOutlook(b, c, now, max)
    ensures KeepsOutlook(a, b, now, max) ==> KeepsOutlook(a, c, now, max)
  {
  }

  /** Steps that leave lookups and obligations alone keep both. */
  lemma SameLookups(s: State, s': State, now: nat, max: nat)
    requires s'.resolves == s.resolves && s'.reconciles == s.reconciles && s'.byKey == s.byKey
    requires |s'.peers| == |s.peers|
    ensures KeepsOutlook(s, s', now, max) && Owing(s', now) == Owing(s, now)
  {
    forall k ensures IsOwing(s', k, now) == IsOwing(s, k, now) {
    }
    assert Owing(s', now) == Owing(s, now);
    SameOutlook(s, s', now, max);
  }

  lemma SameOutlook(s: State, s': State, now: nat, max: nat)
    requires s'.resolves == s.resolves && s'.reconciles == s.reconciles && |s'.peers| == |s.peers|
    requires Owing(s', now) == Owing(s, now)
    ensures KeepsOutlook(s, s', now, max)
  {
    if Clear(s, now, max) {
      forall k, id | k in Owing(s', now) ensures !InTheWay(s'.resolves, id, k, now) {
        assert !InTheWay(s.resolves, id, k, now);
      }
    }
    if k, id :| k in Owing(s, now) && id in Waiting(s.resolves, now) && InTheWay(s.resolves, id, k, now) {
      assert id in Waiting(s'.resolves, now) && InTheWay(s'.resolves, id, k, now);
    }
  }

  /** Lookup `id` expired: its packets are gone, and a reconciliation it was made for is owed again. */
  ghost predicate LookupExpired(s: State, s': State, id: nat, now: nat, ttl: nat) {
    && id in s.resolves && s.resolves[id].deadline <= now && s'.resolves == s.resolves - {id}
    && s'.byKey == s.byKey && s'.peers == s.peers && s'.slots == s.slots
    && s'.pending == (if s.resolves[id].kind.Outbound? then Dropped(s.pending, OnResolve(id)) else s.pending)
    && s'.reconciles == if !OwesWhenExpired(s, s.resolves[id]) then s.reconciles
                        else OwedAt(s.reconciles, s.resolves[id].query.publicKey, now + ttl, |s.peers|)
  }

  lemma ExpiredWaiting(s: State, s': State, id: nat, now: nat, ttl: nat)
    requires LookupExpired(s, s', id, now, ttl)
    ensures Waiting(s'.resolves, now) == Waiting(s.resolves, now)
  {
  }

  /** Expiry makes nothing new owed. */
  lemma ExpiredOwesNoMore(s: State, s': State, id: nat, now: nat, ttl: nat)
    requires LookupExpired(s, s', id, now, ttl)
    ensures Owing(s', now) <= Owing(s, now)
  {
    var x := s.resolves[id];
    forall k | k in Owing(s', now) ensures k in Owing(s, now) {
      if IsDue(s', ReconcileTimer(k), now) {
        if !IsDue(s, ReconcileTimer(k), now) {
          assert OwesWhenExpired(s, x) && k == x.query.publicKey;
          assert Lapses(x, k, now);
        }
      } else {
        var other :| other in s'.resolves && Lapses(s'.resolves[other], k, now);
        assert other in s.resolves && Lapses(s.resolves[other], k, now);
      }
    }
  }

  /** With room in the backlog it makes nothing less owed either. */
  lemma ExpiredOwesNoLess(s: State, s': State, id: nat, now: nat)
    requires LookupExpired(s, s', id, now, 0) && Room(s, now)
    ensures Owing(s, now) <= Owing(s', now)
  {
    forall k | k in Owing(s, now) ensures k in Owing(s', now) {
      if !IsDue(s, ReconcileTimer(k), now) {
        var one :| one in s.resolves && Lapses(s.resolves[one], k, now);
        if one == id {
          RoomForOne(s, k, now);
          LapsedIsOwed(s, s', id, k, now);
        } else {
          assert one in s'.resolves && Lapses(s'.resolves[one], k, now);
        }
      } else {
        StaysOwed(s, s', id, k, now);
      }
    }
  }

  lemma LapsedIsOwed(s: State, s': State, id: nat, k: nat, now: nat)
    requires LookupExpired(s, s', id, now, 0) && Lapses(s.resolves[id], k, now) && k in s.byKey
    requires !IsDue(s, ReconcileTimer(k), now) && (k in s.reconciles || |s.reconciles| < |s.peers|)
    ensures IsDue(s', ReconcileTimer(k), now)
  {
  }

  lemma StaysOwed(s: State, s': State, id: nat, k: nat, now: nat)
    requires LookupExpired(s, s', id, now, 0) && IsDue(s, ReconcileTimer(k), now)
    ensures IsDue(s', ReconcileTimer(k), now)
  {
  }

  lemma RoomForOne(s: State, k: nat, now: nat)
    requires Room(s, now) && k in Owing(s, now)
    ensures k in s.reconciles || |s.reconciles| < |s.peers|
  {
    if k !in s.reconciles {
      var all := s.reconciles.Keys + Owing(s, now);
      assert all == (all - s.reconciles.Keys) + s.reconciles.Keys && k in all - s.reconciles.Keys;
      assert |s.reconciles.Keys| == |s.reconciles|;
    }
  }

  lemma ExpiredClear(s: State, s': State, id: nat, now: nat, max: nat)
    requires LookupExpired(s, s', id, now, 0) && Clear(s, now, max)
    ensures Clear(s', now, max)
  {
    ExpiredWaiting(s, s', id, now, 0);
    ExpiredOwesNoMore(s, s', id, now, 0);
    SubsetSize(Owing(s', now), Owing(s, now));
    forall k, i | k in Owing(s', now) ensures !InTheWay(s'.resolves, i, k, now) {
      assert !InTheWay(s.resolves, i, k, now);
    }
  }

  lemma ExpiredOver(s: State, s': State, id: nat, now: nat, max: nat)
    requires LookupExpired(s, s', id, now, 0) && Over(s, now, max) && Room(s, now)
    ensures Over(s', now, max)
  {
    ExpiredWaiting(s, s', id, now, 0);
    ExpiredOwesNoLess(s, s', id, now);
    SubsetSize(Owing(s, now), Owing(s', now));
    if k, i :| k in Owing(s, now) && i in Waiting(s.resolves, now) && InTheWay(s.resolves, i, k, now) {
      assert k in Owing(s', now) && i in Waiting(s'.resolves, now) && InTheWay(s'.resolves, i, k, now);
    }
  }

  lemma ExpiredOutlook(s: State, s': State, id: nat, now: nat, max: nat)
    requires LookupExpired(s, s', id, now, 0)
    ensures KeepsOutlook(s, s', now, max)
  {
    if Clear(s, now, max) {
      ExpiredClear(s, s', id, now, max);
    }
    if Over(s, now, max) && Room(s, now) {
      ExpiredOver(s, s', id, now, max);
      ExpiredRoom(s, s', id, now);
    }
  }

  lemma ExpiredRoom(s: State, s': State, id: nat, now: nat)
    requires LookupExpired(s, s', id, now, 0) && Room(s, now)
    ensures Room(s', now)
  {
    ExpiredOwesNoMore(s, s', id, now, 0);
    var x := s.resolves[id];
    forall k | k in s'.reconciles ensures k in s.reconciles.Keys + Owing(s, now) {
      if k !in s.reconciles {
        assert k == x.query.publicKey && Lapses(x, k, now);
      }
    }
    SubsetSize(s'.reconciles.Keys + Owing(s', now), s.reconciles.Keys + Owing(s, now));
  }

  lemma SubsetSize<T>(a: set<T>, b: set<T>)
    requires a <= b
    ensures |a| <= |b|
  {
    assert b == a + (b - a);
  }

  /** A lookup for `key` was issued as `id`, at most at the cost of a marker. */
  ghost predicate Asked(resolves: map<nat, Resolve>, resolves': map<nat, Resolve>, id: nat, key: nat, now: nat) {
    && id !in resolves && id in resolves' && resolves'[id].query == ByKey(key) && resolves'[id].kind.Reconcile?
    && resolves'[id].deadline > now
    && (forall k | k in resolves && !resolves[k].kind.Negative? :: k in resolves' && resolves'[k] == resolves[k])
    && (forall k | k in resolves' && k != id :: k in resolves && resolves'[k] == resolves[k])
  }

  /** One due obligation was served: put off when blocked, dropped when its peer is gone, otherwise asked. */
  ghost predicate Promoted(s: State, s': State, key: nat, now: nat, ttl: nat, max: nat) {
    && IsDue(s, ReconcileTimer(key), now)
    && s'.byKey == s.byKey && s'.peers == s.peers && s'.slots == s.slots && s'.pending == s.pending
    && if Blocked(s, key, now, max) then s'.reconciles == s.reconciles[key := now + ttl] && s'.resolves == s.resolves
       else && s'.reconciles == s.reconciles - {key}
            && if key in s.byKey then exists id :: Asked(s.resolves, s'.resolves, id, key, now)
               else s'.resolves == s.resolves
  }

  ghost predicate NoneLapse(s: State, now: nat) {
    forall id: nat :: !IsDue(s, ResolveTimer(id), now)
  }

  /** Serving an obligation consumes it, unless it is blocked and the TTL is zero. */
  lemma PromotedConsumes(s: State, s': State, key: nat, now: nat, ttl: nat, max: nat)
    requires Promoted(s, s', key, now, ttl, max)
    ensures IsDue(s', ReconcileTimer(key), now) <==> ttl == 0 && Blocked(s, key, now, max)
  {
  }

  /** With no lookup due, what is owed is what is due. */
  lemma OwingIsDue(s: State, k: nat, now: nat)
    requires NoneLapse(s, now)
    ensures k in Owing(s, now) <==> k in s.byKey && IsDue(s, ReconcileTimer(k), now)
  {
    if id :| id in s.resolves && Lapses(s.resolves[id], k, now) {
      assert IsDue(s, ResolveTimer(id), now);
    }
  }

  /** A clear obligation is not blocked. */
  lemma ClearIsNotBlocked(s: State, key: nat, now: nat, max: nat)
    requires Clear(s, now, max) && NoneLapse(s, now) && IsDue(s, ReconcileTimer(key), now)
    ensures !Blocked(s, key, now, max)
  {
    OwingIsDue(s, key, now);
    assert key in Owing(s, now) ==> |Owing(s, now)| > 0;
    WaitingSize(s.resolves, now);
    forall id | id in s.resolves ensures s.resolves[id].deadline > now {
      assert !IsDue(s, ResolveTimer(id), now);
    }
    if key in s.byKey && Suppressed(s.resolves, ByKey(key), now) {
      var id :| id in s.resolves && s.resolves[id].query == ByKey(key)
                && (s.resolves[id].kind.Negative? ==> s.resolves[id].deadline > now);
      assert InTheWay(s.resolves, id, key, now);
    }
  }

  /** An asked obligation is one less to owe and one more lookup to wait for. */
  lemma AskedBalance(s: State, s': State, id: nat, key: nat, now: nat)
    requires NoneLapse(s, now) && key in Owing(s, now) && Asked(s.resolves, s'.resolves, id, key, now)
    requires s'.byKey == s.byKey && s'.reconciles == s.reconciles - {key}
    ensures NoneLapse(s', now) && Owing(s', now) == Owing(s, now) - {key}
    ensures Waiting(s'.resolves, now) == Waiting(s.resolves, now) + {id} && id !in Waiting(s.resolves, now)
    ensures |Owing(s', now)| + |Waiting(s'.resolves, now)| == |Owing(s, now)| + |Waiting(s.resolves, now)|
  {
    forall i: nat ensures !IsDue(s', ResolveTimer(i), now) {
      assert !IsDue(s, ResolveTimer(i), now);
    }
    forall k ensures k in Owing(s', now) <==> k in Owing(s, now) && k != key {
      if k in s.byKey {
        OwingIsDue(s, k, now);
        OwingIsDue(s', k, now);
      }
    }
  }

  lemma PromotedClear(s: State, s': State, key: nat, now: nat, max: nat)
    requires Promoted(s, s', key, now, 0, max) && NoneLapse(s, now) && Clear(s, now, max)
    ensures Clear(s', now, max)
  {
    ClearIsNotBlocked(s, key, now, max);
    OwingIsDue(s, key, now);
    if key in s.byKey {
      var id :| Asked(s.resolves, s'.resolves, id, key, now);
      AskedBalance(s, s', id, key, now);
      forall k, i | k in Owing(s', now) ensures !InTheWay(s'.resolves, i, k, now) {
        assert !InTheWay(s.resolves, i, k, now);
      }
    } else {
      DroppedOwesSame(s, s', key, now);
      forall k, i | k in Owing(s', now) ensures !InTheWay(s'.resolves, i, k, now) {
        assert !InTheWay(s.resolves, i, k, now);
      }
    }
  }

  /** Dropping an obligation without a peer, or putting one off to the same instant, changes nothing owed. */
  lemma DroppedOwesSame(s: State, s': State, key: nat, now: nat)
    requires s'.byKey == s.byKey && s'.resolves == s.resolves && IsDue(s, ReconcileTimer(key), now)
    requires || (key !in s.byKey && s'.reconciles == s.reconciles - {key})
             || s'.reconciles == s.reconciles[key := now]
    ensures Owing(s', now) == Owing(s, now)
  {
    forall k | k in s.byKey ensures IsOwing(s', k, now) == IsOwing(s, k, now) {
    }
  }

  lemma PromotedOver(s: State, s': State, key: nat, now: nat, max: nat)
    requires Promoted(s, s', key, now, 0, max) && NoneLapse(s, now) && Over(s, now, max)
    ensures Over(s', now, max)
  {
    if Blocked(s, key, now, max) || key !in s.byKey {
      DroppedOwesSame(s, s', key, now);
      if k, i :| k in Owing(s, now) && i in Waiting(s.resolves, now) && InTheWay(s.resolves, i, k, now) {
        assert i in Waiting(s'.resolves, now) && InTheWay(s'.resolves, i, k, now);
      }
    } else {
      OwingIsDue(s, key, now);
      var id :| Asked(s.resolves, s'.resolves, id, key, now);
      AskedBalance(s, s', id, key, now);
      if k, i :| k in Owing(s, now) && i in Waiting(s.resolves, now) && InTheWay(s.resolves, i, k, now) {
        assert k != key by {
          assert k == key ==> Suppressed(s.resolves, ByKey(key), now);
        }
        assert k in Owing(s', now) && i in Waiting(s'.resolves, now) && InTheWay(s'.resolves, i, k, now);
      }
    }
  }

  lemma PromotedRoom(s: State, s': State, key: nat, now: nat, max: nat)
    requires Promoted(s, s', key, now, 0, max) && NoneLapse(s, now) && Room(s, now)
    ensures Room(s', now)
  {
    if Blocked(s, key, now, max) || key !in s.byKey {
      DroppedOwesSame(s, s', key, now);
    } else {
      OwingIsDue(s, key, now);
      var id :| Asked(s.resolves, s'.resolves, id, key, now);
      AskedBalance(s, s', id, key, now);
    }
    SubsetSize(s'.reconciles.Keys + Owing(s', now), s.reconciles.Keys + Owing(s, now));
  }

  // Progress ------------------------------------------------------------------

  /** Due timers other than reconciliations, and due reconciliations. */
  ghost function DueOthers(s: State, now: nat): set<TimerId> {
    set t | t in DueSet(s, now) && !t.ReconcileTimer?
  }

  ghost function DueOwed(s: State, now: nat): set<TimerId> {
    set t | t in DueSet(s, now) && t.ReconcileTimer?
  }

  /** One of the others is gone, or they are the same and a reconciliation is. */
  ghost predicate Progress(s: State, s': State, now: nat) {
    || DueOthers(s', now) < DueOthers(s, now)
    || (DueOthers(s', now) == DueOthers(s, now) && DueOwed(s', now) < DueOwed(s, now))
  }

  lemma PlainProgress(s: State, s': State, t: TimerId, now: nat)
    requires IsDue(s, t, now) && !IsDue(s', t, now) && !t.ReconcileTimer? && Evolves(s, s', now, 1)
    ensures Progress(s, s', now)
  {
    NothingBecomesDue(s, s', now);
    assert t in DueOthers(s, now) && t !in DueOthers(s', now);
  }

  lemma ExpiredProgress(s: State, s': State, id: nat, now: nat, ttl: nat)
    requires LookupExpired(s, s', id, now, ttl)
    ensures Progress(s, s', now)
  {
    forall t | IsDue(s', t, now) && !t.ReconcileTimer? ensures IsDue(s, t, now) {
      if t.ParkTimer? {
        assert s'.pending[t.j] == s.pending[t.j];
      }
    }
    assert ResolveTimer(id) in DueOthers(s, now) && ResolveTimer(id) !in DueOthers(s', now);
  }

  lemma PromotedProgress(s: State, s': State, key: nat, now: nat, ttl: nat, max: nat)
    requires Promoted(s, s', key, now, ttl, max) && NoneLapse(s, now) && (ttl > 0 || !Blocked(s, key, now, max))
    ensures Progress(s, s', now)
  {
    PromotedConsumes(s, s', key, now, ttl, max);
    forall t: TimerId | !t.ReconcileTimer? ensures IsDue(s', t, now) == IsDue(s, t, now) {
      if t.ResolveTimer? {
        assert !IsDue(s, t, now);
        if !Blocked(s, key, now, max) && key in s.byKey {
          var id :| Asked(s.resolves, s'.resolves, id, key, now);
        }
      }
    }
    forall t: TimerId | t.ReconcileTimer? && IsDue(s', t, now) ensures IsDue(s, t, now) {
    }
    assert ReconcileTimer(key) in DueOwed(s, now) && ReconcileTimer(key) !in DueOwed(s', now);
  }

  /**
   Timer `t` was due and fired. It is consumed, except that with a zero TTL a
   blocked reconciliation stays due. There is progress when the TTL is positive
   or everything owed can be asked; with a zero TTL what can be asked still can
   be, and what cannot still cannot.
   */
  ghost predicate Fired(s: State, s': State, t: TimerId, now: nat, ttl: nat, max: nat) {
    && IsDue(s, t, now)
    && (IsDue(s', t, now) <==> ttl == 0 && t.ReconcileTimer? && Blocked(s, t.k, now, max))
    && (ttl > 0 || Clear(s, now, max) ==> Progress(s, s', now))
    && (ttl == 0 ==> KeepsOutlook(s, s', now, max))
    && (s.resolves == map[] && s.reconciles == map[] ==> s'.reconciles == map[])
  }

  lemma FiredPlain(s: State, s': State, t: TimerId, now: nat, ttl: nat, max: nat)
    requires IsDue(s, t, now) && !IsDue(s', t, now) && !t.ReconcileTimer? && Evolves(s, s', now, 1)
    requires s'.resolves == s.resolves && s'.reconciles == s.reconciles && s'.byKey == s.byKey
    ensures Fired(s, s', t, now, ttl, max)
  {
    SameLookups(s, s', now, max);
    PlainProgress(s, s', t, now);
  }

  lemma FiredLookup(s: State, s': State, id: nat, now: nat, ttl: nat, max: nat)
    requires LookupExpired(s, s', id, now, ttl)
    ensures Fired(s, s', ResolveTimer(id), now, ttl, max)
  {
    ExpiredProgress(s, s', id, now, ttl);
    if ttl == 0 {
      ExpiredOutlook(s, s', id, now, max);
    }
  }

  lemma PromotedOutlook(s: State, s': State, key: nat, now: nat, max: nat)
    requires Promoted(s, s', key, now, 0, max) && NoneLapse(s, now)
    ensures KeepsOutlook(s, s', now, max)
  {
    if Clear(s, now, max) {
      PromotedClear(s, s', key, now, max);
    }
    if Over(s, now, max) && Room(s, now) {
      PromotedOver(s, s', key, now, max);
      PromotedRoom(s, s', key, now, max);
    }
  }

  lemma ObligationProgress(s: State, s': State, key: nat, now: nat, ttl: nat, max: nat)
    requires Promoted(s, s', key, now, ttl, max) && NoneLapse(s, now) && (ttl > 0 || Clear(s, now, max))
    ensures Progress(s, s', now)
  {
    if ttl == 0 {
      ClearIsNotBlocked(s, key, now, max);
    }
    PromotedProgress(s, s', key, now, ttl, max);
  }

  lemma FiredObligation(s: State, s': State, key: nat, now: nat, ttl: nat, max: nat)
    requires Promoted(s, s', key, now, ttl, max) && NoneLapse(s, now)
    ensures Fired(s, s', ReconcileTimer(key), now, ttl, max)
  {
    PromotedConsumes(s, s', key, now, ttl, max);
    assert key in s.reconciles;
    if ttl > 0 || Clear(s, now, max) {
      ObligationProgress(s, s', key, now, ttl, max);
    }
    if ttl == 0 {
      PromotedOutlook(s, s', key, now, max);
    }
  }

  /** Progress does not depend on the cached bound. */
  lemma ProgressThrough(a: State, b: State, c: State, now: nat)
    requires Progress(a, b, now) && DueSet(c, now) == DueSet(b, now)
    ensures Progress(a, c, now)
  {
    assert DueOthers(c, now) == DueOthers(b, now) && DueOwed(c, now) == DueOwed(b, now);
  }

  /** When no timer of any kind is due, none is. */
  lemma NothingDue(s: State, now: nat)
    requires forall p: nat :: !IsDue(s, Keepalive(p), now) && !IsDue(s, Persistent(p), now) && !IsDue(s, Reply(p), now)
    requires forall p: nat :: !IsDue(s, Attempt(p), now)
    requires forall i: nat :: !IsDue(s, SlotTimer(i), now)
    requires forall j: nat :: !IsDue(s, ParkTimer(j), now)
    requires forall id: nat :: !IsDue(s, ResolveTimer(id), now)
    requires forall k: nat :: !IsDue(s, ReconcileTimer(k), now)
    ensures forall t :: !IsDue(s, t, now)
  {
    forall t ensures !IsDue(s, t, now) {
      match t
      case Keepalive(p) => assert !IsDue(s, Keepalive(p), now);
      case Persistent(p) => assert !IsDue(s, Persistent(p), now);
      case Reply(p) => assert !IsDue(s, Reply(p), now);
      case Attempt(p) => assert !IsDue(s, Attempt(p), now);
      case SlotTimer(i) => assert !IsDue(s, SlotTimer(i), now);
      case ParkTimer(j) => assert !IsDue(s, ParkTimer(j), now);
      case ResolveTimer(id) => assert !IsDue(s, ResolveTimer(id), now);
      case ReconcileTimer(k) => assert !IsDue(s, ReconcileTimer(k), now);
    }
  }

  // ---------------------------------------------------------------------
  // The exact scan
  // ---------------------------------------------------------------------

  function Earliest(a: Option<nat>, b: Option<nat>): Option<nat> {
    if b.None? || (a.Some? && a.value <= b.value) then a else b
  }

  predicate NoLater(a: Option<nat>, b: Option<nat>) {
    b.Some? ==> AtMost(a, b.value)
  }

  predicate Covers(s: State, at: Option<nat>, t: TimerId) {
    Deadline(s, t).Some? ==> AtMost(at, Deadline(s, t).value)
  }

  ghost predicate Attained(s: State, at: Option<nat>) {
    at.Some? ==> exists t :: Deadline(s, t) == at
  }

  /** `at` is the earliest deadline of all. */
  ghost predicate Exact(s: State, at: Option<nat>) {
    Attained(s, at) && forall t :: Covers(s, at, t)
  }

  lemma SameDue(s: State, s': State, now: nat)
    requires s' == s.(timers := s'.timers)
    ensures DueSet(s', now) == DueSet(s, now)
  {
    assert forall t :: IsDue(s', t, now) == IsDue(s, t, now);
  }

  /** Changing only the cached bound, to an earlier or to the exact value. */
  lemma RetimedOk(s: State, s': State, now: nat)
    requires Inv(s, None) && Bounded(s) && s' == s.(timers := s'.timers)
    requires s'.timers == Lower(s.timers, now) || Exact(s, s'.timers)
    ensures Inv(s', None) && Bounded(s') && DueSet(s', now) == DueSet(s, now)
    ensures Exact(s, s'.timers) ==> Exact(s', s'.timers)
    ensures forall max :: KeepsOutlook(s, s', now, max)
  {
    SameTablesKeepInv(s, s', None);
    forall max ensures KeepsOutlook(s, s', now, max) {
      SameLookups(s, s', now, max);
    }
    assert forall t :: Deadline(s', t) == Deadline(s, t);
    assert forall t :: IsDue(s', t, now) == IsDue(s, t, now);
    if Exact(s, s'.timers) {
      forall t ensures Covers(s', s'.timers, t) {
        assert Covers(s, s'.timers, t);
      }
    }
    forall t | Deadline(s', t).Some? ensures AtMost(s'.timers, Deadline(s', t).value) {
      assert Deadline(s, t).Some?;
      if Exact(s, s'.timers) {
        assert Covers(s, s'.timers, t);
      }
    }
  }

  // ---------------------------------------------------------------------
  // Stopping and restarting a peer's timer
  // ---------------------------------------------------------------------

  function Stopped(x: Peer, t: TimerId): Peer {
    match t
    case Keepalive(_) => x.(keepaliveDue := None)
    case Persistent(_) => x.(persistentDue := None)
    case Reply(_) => x.(replyDue := None)
    case _ => x
  }

  lemma StoppedPeer(x: Peer, t: TimerId, bound: Option<nat>, now: nat)
    requires x.persistent.Some? ==> x.persistent.value > 0
    ensures SameGenerations(x, Stopped(x, t)) && PeerTimersMoved(x, Stopped(x, t), bound, now)
  {
  }

  lemma StoppedOk(s: State, p: nat, t: TimerId, now: nat)
    requires Inv(s, None) && HasPeer(s, p)
    ensures Inv(WithPeer(s, p, Stopped(s.peers[p].value, t)), None)
    ensures Evolves(s, WithPeer(s, p, Stopped(s.peers[p].value, t)), now, 1)
  {
    assert PeerOk(s, p);
    StoppedPeer(s.peers[p].value, t, s.timers, now);
    var y := Stopped(s.peers[p].value, t);
    PeerTimersKeepInv(s, WithPeer(s, p, y), p, y, None);
    PeerEvolves(s, WithPeer(s, p, y), p, y, now);
  }

  function Rearmed(s: State, p: nat, due: nat): State {
    Arm(if HasPeer(s, p) then WithPeer(s, p, s.peers[p].value.(persistentDue := Some(due))) else s, due)
  }

  lemma RearmedOk(s: State, p: nat, due: nat, now: nat)
    requires Inv(s, None) && now < due
    ensures Inv(Rearmed(s, p, due), None) && Evolves(s, Rearmed(s, p, due), now, 1)
  {
    var s' := Rearmed(s, p, due);
    if HasPeer(s, p) {
      assert PeerOk(s, p);
      PeerTimersKeepInv(s, s', p, s'.peers[p].value, None);
      PeerEvolves(s, s', p, s'.peers[p].value, now);
    } else {
      AuxOk(s, s', None, now, 1);
    }
  }
}

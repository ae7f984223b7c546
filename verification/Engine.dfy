/**
 The tunnel engine's session machine: the protocol steps that allocate, install,
 rotate, retransmit, expire and free session slots, and the timers that drive
 them. Whether the clock, the random generator and the ciphers serve is an
 input: one fate, fixed but arbitrary, for every time they are needed.
 */
module Engine {
  import opened Common
  import opened EngineState
  import opened EngineSteps

  // ---------------------------------------------------------------------
  // Slot allocation policy
  // ---------------------------------------------------------------------

  predicate TooOld(x: Slot, now: nat) {
    x.Established? && SaturatingSub(now, x.session.created) >= REJECT_AFTER_TIME
  }

  predicate PinnedCurrent(s: State, i: nat)
    requires i < |s.slots|
  {
    && s.slots[i].Established? && HasPeer(s, s.slots[i].session.peer)
    && var x := s.peers[s.slots[i].session.peer].value;
    x.pinned && x.current == Some(i)
  }

  /** The slots that pressure must never take: handshakes in flight and pinned peers' live current sessions. */
  predicate Protected(s: State, i: nat, now: nat)
    requires i < |s.slots|
  {
    s.slots[i].Initiating? || (PinnedCurrent(s, i) && !TooOld(s.slots[i], now))
  }

  predicate IsPrevious(s: State, i: nat) {
    exists p: nat :: p < |s.peers| && s.peers[p].Some? && s.peers[p].value.previous == Some(i)
  }

  predicate Evictable(s: State, i: nat)
    requires i < |s.slots|
  {
    s.slots[i].Established? && !PinnedCurrent(s, i)
  }

  function Activity(s: State, i: nat): nat
    requires i < |s.slots|
  {
    if s.slots[i].Established? && HasPeer(s, s.slots[i].session.peer)
    then s.peers[s.slots[i].session.peer].value.lastActivity
    else 0
  }

  /** The eviction order: free, then expired, then any previous session, then the least recently active. */
  ghost predicate Chosen(s: State, i: nat, now: nat) {
    && i < |s.slots|
    && if exists j: nat :: j < |s.slots| && s.slots[j].Free? then s.slots[i].Free?
       else if exists j: nat :: j < |s.slots| && TooOld(s.slots[j], now) then TooOld(s.slots[i], now)
       else if exists j: nat :: IsPrevious(s, j) then IsPrevious(s, i)
       else Evictable(s, i) && forall j: nat | j < |s.slots| && Evictable(s, j) :: Activity(s, i) <= Activity(s, j)
  }

  /** Whatever the order picks is not protected. */
  lemma ChosenNotProtected(s: State, i: nat, now: nat)
    requires Tables(s, None) && Chosen(s, i, now)
    ensures !Protected(s, i, now)
  {
    if IsPrevious(s, i) {
      var p: nat :| p < |s.peers| && s.peers[p].Some? && s.peers[p].value.previous == Some(i);
      assert PeerOk(s, p);
    }
  }

  /** The wire-index map has room whenever a slot is free. */
  lemma IndexRoom(s: State, i: nat, orphan: Option<nat>)
    requires Tables(s, orphan) && i < |s.slots| && s.slots[i].Free?
    ensures |s.indices| < |s.slots|
  {
    var used := Range(|s.slots|) - {i};
    forall x: nat | x in s.indices ensures IndexOk(s, x) && s.indices[x] in used {
      assert IndexOk(s, x);
    }
    InjectionSize(s.indices.Keys, used, x => if x in s.indices then s.indices[x] else 0);
  }

  // ---------------------------------------------------------------------
  // What is asked of the outside, and what is offered to it
  // ---------------------------------------------------------------------

  /** A transport message of `peer` offered to the session in `slot`, and whether it went out. */
  datatype Offer = Offer(peer: nat, slot: nat, data: bool, ok: bool)

  /** A handshake message built for `peer`, and whether it went out. */
  datatype Signal = Signal(peer: nat, response: bool, ok: bool)

  /**
   How often the outside was needed, every message so far in order, and the routes of the
   packets that went on after waiting for one.
   */
  datatype Outside = Outside(draws: nat, offers: seq<Offer>, signals: seq<Signal>, onward: seq<Option<nat>>)

  /** No transport message was offered, and handshake messages stay on record. */
  predicate Grows(o: Outside, o': Outside) {
    o'.offers == o.offers && o.signals <= o'.signals && o.draws <= o'.draws && o'.onward == o.onward
  }

  /** One transport message was offered. */
  predicate OffersOne(o: Outside, o': Outside, x: Offer) {
    o'.offers == o.offers + [x] && o.signals <= o'.signals && o'.onward == o.onward
  }

  /** `n` packets went on by `route`. */
  ghost predicate Forwarded(o: Outside, o': Outside, route: Option<nat>, n: nat) {
    && |o'.onward| == |o.onward| + n && o.onward <= o'.onward
    && forall m | |o.onward| <= m < |o'.onward| :: o'.onward[m] == route
  }

  predicate HasRoom(pending: seq<Option<Parked>>) {
    exists j :: 0 <= j < |pending| && pending[j].None?
  }

  /** A packet parked in a free place displaces none. */
  lemma ParkedApart(pending: seq<Option<Parked>>, spot: nat, x: Parked, wait: Wait)
    requires spot < |pending| && pending[spot].None? && x.wait != wait
    ensures Awaiting(pending[spot := Some(x)], wait) == Awaiting(pending, wait)
  {
  }

  /** The handshake message `x` was among those built. */
  ghost predicate Signalled(o: Outside, o': Outside, x: Signal) {
    exists n :: |o.signals| <= n < |o'.signals| && o'.signals[n] == x
  }

  lemma SignalStays(o: Outside, o1: Outside, o2: Outside, o3: Outside, x: Signal)
    requires o.signals <= o1.signals && Signalled(o1, o2, x) && o2.signals <= o3.signals
    ensures Signalled(o, o3, x)
  {
    var n :| |o1.signals| <= n < |o2.signals| && o2.signals[n] == x;
    assert o3.signals[n] == x;
  }

  /** An initiation was built for `p`. */
  ghost predicate Initiates(o: Outside, o': Outside, p: nat) {
    Signalled(o, o', Signal(p, false, true)) || Signalled(o, o', Signal(p, false, false))
  }

  /** A response was built for `p`. */
  ghost predicate Responds(o: Outside, o': Outside, p: nat) {
    Signalled(o, o', Signal(p, true, true)) || Signalled(o, o', Signal(p, true, false))
  }

  /** Nothing but the outside can keep an initiation of `p` from being answered. */
  predicate CanReply(s: State, p: nat, now: nat) {
    HasPeer(s, p) && (s.peers[p].value.next.Some? || CanTake(s, now))
  }

  /** The slot of the peer's current session, if it may encrypt right now. */
  function Usable(s: State, p: nat, now: nat): Option<nat> {
    if HasPeer(s, p) && s.peers[p].value.current.Some? then
      var i := s.peers[p].value.current.value;
      if i < |s.slots| && s.slots[i].Established? && CanSend(s.slots[i].session, now) then Some(i) else None
    else None
  }

  predicate Reachable(s: State, p: nat) {
    HasPeer(s, p) && (s.peers[p].value.endpoint || s.peers[p].value.relay.Some?)
  }

  /** Some slot may be taken. */
  predicate CanTake(s: State, now: nat) {
    exists i: nat {:trigger Protected(s, i, now)} :: i < |s.slots| && !Protected(s, i, now)
  }

  /** Nothing but the outside can keep a handshake with `p` from starting. */
  predicate CanStart(s: State, p: nat, now: nat) {
    Reachable(s, p) && InFlight(s, p).None? && CanTake(s, now)
  }

  /** The relay's peer and the slot of its usable session; a relay is reached directly or not at all. */
  function Path(s: State, key: nat, now: nat): Option<(nat, nat)> {
    if key !in s.byKey || !HasPeer(s, s.byKey[key]) then None
    else
      var x := s.peers[s.byKey[key]].value;
      var usable := Usable(s, s.byKey[key], now);
      if x.relay.None? && x.endpoint && usable.Some? then Some((s.byKey[key], usable.value)) else None
  }

  predicate Relayed(s: State, p: nat) {
    HasPeer(s, p) && s.peers[p].value.relay.Some?
  }

  predicate CanSeal(s: State, p: nat, i: nat, now: nat) {
    HasPeer(s, p) && i < |s.slots| && s.slots[i].Established? && CanSend(s.slots[i].session, now)
  }

  /** Nothing but the outside can keep a message of `p` under slot `i` from going out. */
  predicate Sendable(s: State, p: nat, i: nat, now: nat) {
    && CanSeal(s, p, i, now)
    && var x := s.peers[p].value;
    if x.relay.Some? then Path(s, x.relay.value, now).Some? else x.endpoint
  }

  /** The outside serves a direct message, or both layers of a relayed one. */
  predicate Serves(fate: nat -> bool, n: nat, relayed: bool) {
    fate(n) && (relayed ==> fate(n + 1))
  }

  /** Peer `p`'s persistent keepalive starts over. */
  predicate Restarted(s: State, s': State, p: nat, now: nat) {
    HasPeer(s, p) && HasPeer(s', p) && s'.peers[p].value.persistentDue == NextPersistent(s.peers[p].value, now)
  }

  lemma RestartStays(s: State, s1: State, s2: State, p: nat, now: nat)
    requires Restarted(s, s1, p, now) && IntervalsKept(s, s1, now) && IntervalsKept(s1, s2, now)
    ensures Restarted(s, s2, p, now)
  {
    assert KeepsInterval(s, s1, p, now) && KeepsInterval(s1, s2, p, now);
  }

  /** A message of `p` went out under slot `i`, and its persistent keepalive starts over. */
  ghost predicate Carried(s: State, s': State, p: nat, i: nat, now: nat) {
    SealedUnder(s, s', p, i) && Restarted(s, s', p, now)
  }

  lemma CarriedStays(s: State, s1: State, s2: State, p: nat, i: nat, now: nat)
    requires Carried(s, s1, p, i, now) && s1.seals <= s2.seals && IntervalsKept(s, s1, now)
    requires IntervalsKept(s1, s2, now)
    ensures Carried(s, s2, p, i, now)
  {
    SealedStays(s, s1, s2, p, i);
    RestartStays(s, s1, s2, p, now);
  }

  /** One sealed message, all at once. */
  lemma SealedAll(s: State, p: nat, i: nat, data: bool, now: nat, replyBy: nat)
    requires Inv(s, None) && OwnSession(s, p, i) && CanSeal(s, p, i, now) && now < replyBy
    ensures var s' := Sealed(s, p, i, data, now, replyBy);
            Inv(s', None) && Sends(s, s', now) && Unused(s, i) && Carried(s, s', p, i, now)
  {
    var s' := Sealed(s, p, i, data, now, replyBy);
    SealedOk(s, p, i, data, now, replyBy);
    SealedSends(s, p, i, data, now, replyBy);
    SealedParts(s, p, i, data, now, replyBy);
    assert s'.seals[|s.seals|] == NextSeal(s, p, i);
  }

  /**
   After sending, `p` owes no keepalive and its persistent one starts over. Real data wants a
   reply within 15 seconds and a third, counted from the first message still unanswered.
   */
  predicate SentTimers(x: Peer, s: State, p: nat, data: bool, now: nat) {
    && HasPeer(s, p)
    && var y := s.peers[p].value;
    && y.lastActivity == now && Deadline(s, Keepalive(p)) == None
    && Deadline(s, Persistent(p)) == (if x.persistent.Some? then Some(now + x.persistent.value) else None)
    && (if data && x.replyDue.None?
        then y.replyDue.Some? && now + 15_000 <= y.replyDue.value <= now + 15_333 && AtMost(s.timers, y.replyDue.value)
        else y.replyDue == x.replyDue)
  }

  lemma SealedTimers(s: State, p: nat, i: nat, data: bool, now: nat, replyBy: nat)
    requires CanSeal(s, p, i, now) && now + 15_000 <= replyBy <= now + 15_333
    ensures SentTimers(s.peers[p].value, Sealed(s, p, i, data, now, replyBy), p, data, now)
  {
    SealedParts(s, p, i, data, now, replyBy);
  }

  /**
   After hearing from `p`, no reply is awaited and the persistent keepalive starts over; data is
   answered by a keepalive in 10 seconds, unless something else is sent before.
   */
  predicate HeardTimers(x: Peer, s: State, p: nat, data: bool, now: nat) {
    && HasPeer(s, p) && s.peers[p].value.lastActivity == now && Deadline(s, Reply(p)) == None
    && Deadline(s, Persistent(p)) == (if x.persistent.Some? then Some(now + x.persistent.value) else None)
    && (if data then Deadline(s, Keepalive(p)) == Some(now + 10_000) && AtMost(s.timers, now + 10_000)
        else Deadline(s, Keepalive(p)) == x.keepaliveDue)
  }

  lemma DeliveredTimers(s: State, p: nat, i: nat, data: bool, now: nat)
    requires HasPeer(s, p) && i < |s.slots| && s.slots[i].Established?
    ensures HeardTimers(s.peers[p].value, Delivered(s, p, i, data, now), p, data, now)
  {
    var orphan := s.peers[p].value.previous;
    if s.peers[p].value.next != Some(i) {
      ReceivedTimers(s, p, data, now);
    } else {
      ReceivedTimers(Confirmed(s, p, i), p, data, now);
      if orphan.Some? {
        FreedTimers(Received(Confirmed(s, p, i), p, data, now), orphan.value, p);
      }
    }
  }

  lemma ReceivedTimers(s: State, p: nat, data: bool, now: nat)
    requires HasPeer(s, p)
    ensures HeardTimers(s.peers[p].value, Received(s, p, data, now), p, data, now)
  {
  }

  /** Freeing a slot leaves a peer's own timers alone. */
  lemma FreedTimers(s: State, i: nat, p: nat)
    requires HasPeer(s, p)
    ensures var s' := Freed(s, i);
            && HasPeer(s', p) && s'.timers == s.timers
            && var x, y := s.peers[p].value, s'.peers[p].value;
            && y.keepaliveDue == x.keepaliveDue && y.persistentDue == x.persistentDue && y.replyDue == x.replyDue
            && y.lastActivity == x.lastActivity
  {
  }

  /** Whether a handshake with `q` is in flight, or could start, is as it was. */
  predicate SameStart(s: State, s': State, q: nat, now: nat) {
    (CanStart(s', q, now) <==> CanStart(s, q, now)) && InFlight(s', q) == InFlight(s, q)
  }

  /** A handshake is in flight, or one can be started. */
  predicate MayRun(s: State, p: nat, now: nat, served: bool) {
    InFlight(s, p).Some? || (CanStart(s, p, now) && served)
  }

  /** A handshake was wanted: it is in flight, unless it could not start. */
  predicate Rekeyed(s: State, s': State, p: nat, now: nat, served: bool) {
    MayRun(s, p, now, served) ==> InFlight(s', p).Some?
  }

  lemma SameParts(s: State, s': State, q: nat, now: nat)
    requires s'.peers == s.peers && s'.slots == s.slots
    ensures SameStart(s, s', q, now) && CanTake(s', now) == CanTake(s, now)
  {
    forall j: nat | j < |s.slots| ensures Protected(s', j, now) == Protected(s, j, now) {
      assert PinnedCurrent(s', j) == PinnedCurrent(s, j);
    }
    SameTaking(s, s', now);
  }

  // ---------------------------------------------------------------------
  // The initiator speaks first
  // ---------------------------------------------------------------------

  predicate AnyOk(offers: seq<Offer>, lo: nat, hi: nat)
    requires hi <= |offers|
  {
    exists m :: lo <= m < hi && offers[m].ok
  }

  /** `n` packets were offered, each once, and then a keepalive if none of them went out. */
  ghost predicate Flushed(o: Outside, o': Outside, p: nat, i: nat, n: nat) {
    var k := |o.offers|;
    && o.offers <= o'.offers && k + n <= |o'.offers|
    && |o'.offers| == k + n + (if AnyOk(o'.offers, k, k + n) then 0 else 1)
    && forall m | k <= m < |o'.offers| :: o'.offers[m] == Offer(p, i, m < k + n, o'.offers[m].ok)
  }

  /** Every message offered since `o` was one of `p` under slot `i`, with real data. */
  ghost predicate OffersMade(o: Outside, o': Outside, p: nat, i: nat) {
    && o.offers <= o'.offers
    && forall m | |o.offers| <= m < |o'.offers| :: o'.offers[m] == Offer(p, i, true, o'.offers[m].ok)
  }

  /** The first message offered since `o` went out as session, path and outside in state `s` permit. */
  ghost predicate FirstOffer(s: State, s': State, o: Outside, o': Outside, p: nat, i: nat, now: nat,
                             fate: nat -> bool)
  {
    var k := |o.offers|;
    && (|o'.offers| > k ==>
          (o'.offers[k].ok <==> Sendable(s, p, i, now) && Serves(fate, o.draws, Relayed(s, p))))
    && (|o'.offers| <= k ==> s' == s.(pending := s'.pending) && o'.draws == o.draws)
  }

  lemma OneMoreOffer(before: seq<Offer>, offers: seq<Offer>, x: Offer)
    requires before <= offers
    ensures AnyOk(offers + [x], |before|, |offers| + 1) <==> AnyOk(offers, |before|, |offers|) || x.ok
  {
    var more := offers + [x];
    if AnyOk(offers, |before|, |offers|) {
      var m :| |before| <= m < |offers| && offers[m].ok;
      assert more[m].ok;
    } else if x.ok {
      assert more[|offers|].ok;
    }
  }

  /** Packets offered, and then a keepalive if none went out. */
  lemma FlushDone(o: Outside, o1: Outside, o2: Outside, p: nat, i: nat)
    requires OffersMade(o, o1, p, i)
    requires if AnyOk(o1.offers, |o.offers|, |o1.offers|) then o2.offers == o1.offers
             else exists ok :: o2.offers == o1.offers + [Offer(p, i, false, ok)]
    ensures Flushed(o, o2, p, i, |o1.offers| - |o.offers|) && |o2.offers| > |o.offers|
  {
    var k, n := |o.offers|, |o1.offers|;
    assert AnyOk(o2.offers, k, n) <==> AnyOk(o1.offers, k, n) by {
      forall m | k <= m < n ensures o2.offers[m] == o1.offers[m] {
      }
    }
  }

  lemma CarriedIsFor(s: State, s': State, p: nat, i: nat, now: nat)
    requires Carried(s, s', p, i, now)
    ensures SealedFor(s, s', p)
  {
    var n :| |s.seals| <= n < |s'.seals| && s'.seals[n] == NextSeal(s, p, i);
    assert s'.seals[n].peer == p;
  }

  lemma NoneAwaiting(pending: seq<Option<Parked>>, wait: Wait)
    requires forall j | 0 <= j < |pending| :: !Awaits(pending[j], wait)
    ensures Awaiting(pending, wait) == {}
  {
  }

  /**
   From state `s`, with `n` packets parked for `p` and its new session in slot `i`: all of them
   are offered, and a keepalive if none goes out. Nothing stays parked. The first offer goes out
   unless the path or the outside fails, and if any does, a message was sealed for `p`.
   */
  ghost predicate SpeaksFirst(s: State, s': State, o: Outside, o': Outside, p: nat, i: nat, n: nat, now: nat,
                              fate: nat -> bool)
  {
    var k := |o.offers|;
    && Flushed(o, o', p, i, n) && k < |o'.offers|
    && (forall j | 0 <= j < |s'.pending| :: !Awaits(s'.pending[j], OnHandshake(p)))
    && (o'.offers[k].ok <==> Sendable(s, p, i, now) && Serves(fate, o.draws, Relayed(s, p)))
    && (AnyOk(o'.offers, k, |o'.offers|) ==> SealedFor(s, s', p))
  }

  /** Sealing touches nothing that a handshake depends on. */
  lemma SealedKeepsStart(s: State, p: nat, i: nat, data: bool, now: nat, replyBy: nat, q: nat)
    requires CanSeal(s, p, i, now)
    ensures SameStart(s, Sealed(s, p, i, data, now, replyBy), q, now)
  {
    var s' := Sealed(s, p, i, data, now, replyBy);
    SealedParts(s, p, i, data, now, replyBy);
    KeepsStart(s, s', p, i, s'.slots[i].session, s'.peers[p].value, now, q);
  }

  lemma SealedParts(s: State, p: nat, i: nat, data: bool, now: nat, replyBy: nat)
    requires CanSeal(s, p, i, now)
    ensures var s', x := Sealed(s, p, i, data, now, replyBy), s.slots[i].session;
            && s'.slots == s.slots[i := Established(Spent(x, Triggers(x, now)))]
            && s'.peers == s.peers[p := Some(SentPeer(s.peers[p].value, data, now, replyBy))]
  {
  }

  /** What starting a handshake depends on. */
  lemma KeepsStart(s: State, s': State, p: nat, i: nat, y: Session, z: Peer, now: nat, q: nat)
    requires HasPeer(s, p) && i < |s.slots| && s.slots[i].Established?
    requires s'.slots == s.slots[i := Established(y)] && s'.peers == s.peers[p := Some(z)]
    requires y.peer == s.slots[i].session.peer && y.created == s.slots[i].session.created
    requires var x := s.peers[p].value;
             && z.pinned == x.pinned && z.current == x.current && z.handshake == x.handshake
             && z.endpoint == x.endpoint && z.relay == x.relay
    ensures SameStart(s, s', q, now)
  {
    forall j: nat | j < |s.slots| ensures Protected(s', j, now) == Protected(s, j, now) {
      assert PinnedCurrent(s', j) == PinnedCurrent(s, j);
    }
    SameTaking(s, s', now);
  }

  lemma SameTaking(s: State, s': State, now: nat)
    requires |s'.slots| == |s.slots|
    requires forall j: nat | j < |s.slots| :: Protected(s', j, now) == Protected(s, j, now)
    ensures CanTake(s', now) == CanTake(s, now)
  {
  }

  lemma SomeUnused(m: map<nat, nat>)
    ensures exists k: nat :: k !in m
  {
    assert |m.Keys| == |m|;
    if forall k: nat :: k in m {
      InjectionSize(Range(|m| + 1), m.Keys, k => k);
    }
  }

  /** The next retransmission comes after five seconds and at most a third more. */
  predicate RetriesSoon(x: Slot, now: nat) {
    x.Initiating? && now + 5_000 <= x.retryAt <= now + 5_333
  }

  /**
   A due retry: if the initiation can be rebuilt it goes on in the same slot under the same
   index, still as the peer's handshake; otherwise the attempt is abandoned.
   */
  predicate Rebuilt(s: State, s': State, p: nat, i: nat, now: nat, served: bool) {
    if Reachable(s, p) && served then
      && IsInitiating(s, i, p) && IsInitiating(s', i, p) && s'.slots[i].localIndex == s.slots[i].localIndex
      && s'.slots[i].retryAt > now && InFlight(s', p) == Some(i)
    else Same(s', Freed(s, i))
  }

  /** The two differ at most in the cached bound. */
  predicate Same(s: State, s': State) {
    s'.(timers := s.timers) == s
  }

  // ---------------------------------------------------------------------
  // What each timer is for
  // ---------------------------------------------------------------------

  /** A keepalive is offered to the usable session, if there is one, and goes out as path and outside permit. */
  ghost predicate KeepaliveTried(s: State, s': State, o: Outside, o': Outside, p: nat, now: nat, fate: nat -> bool) {
    match Usable(s, p, now)
    case None => o'.offers == o.offers
    case Some(i) =>
      var ok := Sendable(s, p, i, now) && Serves(fate, o.draws, Relayed(s, p));
      o'.offers == o.offers + [Offer(p, i, false, ok)] && (ok ==> Carried(s, s', p, i, now))
  }

  /** A handshake is in flight unless it cannot start, and if it starts here its initiation was built. */
  ghost predicate Pursued(s: State, s': State, o: Outside, o': Outside, p: nat, now: nat, fate: nat -> bool) {
    && Rekeyed(s, s', p, now, fate(o.draws))
    && (CanStart(s, p, now) && fate(o.draws) ==> Initiates(o, o', p))
  }

  /**
   A passive keepalive is sent if a session is usable. So is a persistent one; without a session
   a handshake is started, and either way it comes round again. A missing reply starts a handshake.
   */
  ghost predicate PeerActs(s: State, s': State, o: Outside, o': Outside, t: TimerId, now: nat, fate: nat -> bool) {
    match t
    case Keepalive(p) => KeepaliveTried(s, s', o, o', p, now, fate)
    case Persistent(p) =>
      && KeepaliveTried(s, s', o, o', p, now, fate)
      && (Usable(s, p, now).None? ==> Restarted(s, s', p, now) && Pursued(s, s', o, o', p, now, fate))
    case Reply(p) => Pursued(s, s', o, o', p, now, fate)
    case _ => false
  }

  /**
   A due retry sends the initiation again from the same slot or abandons the attempt; a session
   past its life is dropped; an attempt past its deadline ends with the packets that waited for it.
   */
  ghost predicate SlotActs(s: State, s': State, o: Outside, o': Outside, t: TimerId, now: nat, fate: nat -> bool) {
    match t
    case SlotTimer(i) =>
      && i < |s.slots|
      && (match s.slots[i]
          case Free => false
          case Initiating(p, _, _) =>
            && Rebuilt(s, s', p, i, now, fate(o.draws))
            && (Reachable(s, p) && fate(o.draws) ==> Initiates(o, o', p))
          case Established(_) => Same(s', Freed(s, i)))
    case Attempt(p) =>
      && InFlight(s, p).Some?
      && Same(s', Freed(s, InFlight(s, p).value).(pending := Dropped(s.pending, OnHandshake(p))))
    case _ => false
  }

  /** A parked packet is dropped; a lookup expires; an obligation is served. */
  ghost predicate LookupActs(s: State, s': State, t: TimerId, now: nat, ttl: nat, max: nat) {
    match t
    case ParkTimer(j) => j < |s.pending| && Same(s', s.(pending := s.pending[j := None]))
    case ResolveTimer(id) => LookupExpired(s, s', id, now, ttl)
    case ReconcileTimer(k) => Promoted(s, s', k, now, ttl, max)
    case _ => false
  }

  /** Timer `t` did what it is for. */
  ghost predicate Acts(s: State, s': State, o: Outside, o': Outside, t: TimerId, now: nat, fate: nat -> bool, ttl: nat,
                       max: nat)
  {
    LookupActs(s, s', t, now, ttl, max) || TrafficActs(s, s', o, o', t, now, fate)
  }

  /** What a timer did does not depend on the cached bound. */
  lemma ActsThrough(a: State, b: State, c: State, o: Outside, o': Outside, t: TimerId, now: nat, fate: nat -> bool,
                    ttl: nat, max: nat)
    requires Acts(a, b, o, o', t, now, fate, ttl, max) && c == b.(timers := c.timers)
    ensures Acts(a, c, o, o', t, now, fate, ttl, max)
  {
  }

  /** The order in which kinds of timer are looked at. */
  function Rank(t: TimerId): nat {
    match t
    case ParkTimer(_) => 0
    case ResolveTimer(_) => 1
    case ReconcileTimer(_) => 2
    case SlotTimer(_) => 3
    case Attempt(_) => 3
    case _ => 4
  }

  /** No timer of an earlier kind is due. */
  ghost predicate ComesFirst(s: State, t: TimerId, now: nat) {
    forall u {:trigger IsDue(s, u, now)} | IsDue(s, u, now) :: Rank(t) <= Rank(u)
  }

  ghost predicate TrafficActs(s: State, s': State, o: Outside, o': Outside, t: TimerId, now: nat, fate: nat -> bool) {
    SlotActs(s, s', o, o', t, now, fate) || PeerActs(s, s', o, o', t, now, fate)
  }

  ghost predicate NoLookupDue(s: State, now: nat) {
    && (forall j: nat :: !IsDue(s, ParkTimer(j), now))
    && (forall id: nat :: !IsDue(s, ResolveTimer(id), now))
    && (forall k: nat :: !IsDue(s, ReconcileTimer(k), now))
  }

  ghost predicate NoSlotDue(s: State, now: nat) {
    (forall i: nat :: !IsDue(s, SlotTimer(i), now)) && (forall p: nat :: !IsDue(s, Attempt(p), now))
  }

  ghost predicate NoTrafficDue(s: State, now: nat) {
    && NoSlotDue(s, now)
    && (forall p: nat :: !IsDue(s, Keepalive(p), now) && !IsDue(s, Persistent(p), now) && !IsDue(s, Reply(p), now))
  }

  lemma LookupComesFirst(s: State, t: TimerId, now: nat)
    requires forall j: nat :: !IsDue(s, ParkTimer(j), now)
    requires t.ResolveTimer? || (t.ReconcileTimer? && NoneLapse(s, now))
    ensures ComesFirst(s, t, now)
  {
    forall u ensures IsDue(s, u, now) ==> Rank(t) <= Rank(u) {
      if u.ParkTimer? {
        assert !IsDue(s, ParkTimer(u.j), now);
      } else if u.ResolveTimer? && t.ReconcileTimer? {
        assert !IsDue(s, ResolveTimer(u.id), now);
      }
    }
  }

  lemma SlotComesFirst(s: State, t: TimerId, now: nat)
    requires NoLookupDue(s, now) && (t.SlotTimer? || t.Attempt?)
    ensures ComesFirst(s, t, now)
  {
    forall u ensures IsDue(s, u, now) ==> Rank(t) <= Rank(u) {
      match u
      case ParkTimer(j) => assert !IsDue(s, ParkTimer(j), now);
      case ResolveTimer(id) => assert !IsDue(s, ResolveTimer(id), now);
      case ReconcileTimer(k) => assert !IsDue(s, ReconcileTimer(k), now);
      case _ =>
    }
  }

  lemma PeerComesFirst(s: State, t: TimerId, now: nat)
    requires NoLookupDue(s, now) && NoSlotDue(s, now)
    ensures ComesFirst(s, t, now)
  {
    forall u ensures IsDue(s, u, now) ==> Rank(t) <= Rank(u) {
      match u
      case SlotTimer(i) => assert !IsDue(s, SlotTimer(i), now);
      case Attempt(p) => assert !IsDue(s, Attempt(p), now);
      case ParkTimer(j) => assert !IsDue(s, ParkTimer(j), now);
      case ResolveTimer(id) => assert !IsDue(s, ResolveTimer(id), now);
      case ReconcileTimer(k) => assert !IsDue(s, ReconcileTimer(k), now);
      case _ =>
    }
  }

  /** Stopping one of its timers changes nothing that sending depends on. */
  lemma StoppedSends(s: State, p: nat, t: TimerId, now: nat)
    requires HasPeer(s, p)
    ensures var s1 := WithPeer(s, p, Stopped(s.peers[p].value, t));
            && Usable(s1, p, now) == Usable(s, p, now) && Relayed(s1, p) == Relayed(s, p)
            && (forall i :: Sendable(s1, p, i, now) == Sendable(s, p, i, now))
            && SameStart(s, s1, p, now)
            && NextPersistent(s1.peers[p].value, now) == NextPersistent(s.peers[p].value, now)
  {
    var s1 := WithPeer(s, p, Stopped(s.peers[p].value, t));
    forall key, q ensures Usable(s1, q, now) == Usable(s, q, now) && Path(s1, key, now) == Path(s, key, now) {
    }
    forall j: nat | j < |s.slots| ensures Protected(s1, j, now) == Protected(s, j, now) {
      assert PinnedCurrent(s1, j) == PinnedCurrent(s, j);
    }
    SameTaking(s, s1, now);
  }

  /** So what follows a stopped timer is what it was for. */
  lemma StoppedThen(s: State, s': State, o: Outside, o': Outside, p: nat, t: TimerId, now: nat, fate: nat -> bool)
    requires HasPeer(s, p)
    ensures var s1 := WithPeer(s, p, Stopped(s.peers[p].value, t));
            && (KeepaliveTried(s1, s', o, o', p, now, fate) ==> KeepaliveTried(s, s', o, o', p, now, fate))
            && (Pursued(s1, s', o, o', p, now, fate) ==> Pursued(s, s', o, o', p, now, fate))
            && Usable(s1, p, now) == Usable(s, p, now)
            && (Restarted(s1, s', p, now) ==> Restarted(s, s', p, now))
  {
    StoppedSends(s, p, t, now);
  }

  /** How an attempt to start a handshake ended. */
  datatype Staged = Started | NotNeeded | Unable

  lemma EvolvesReflexive(s: State, now: nat, slack: nat)
    ensures Evolves(s, s, now, slack)
  {
  }

  /** A peer record from the resolver, and what a lookup may come back with. */
  datatype Record = Record(publicKey: nat, endpoint: bool, relay: Option<nat>, interval: Option<nat>)
  datatype Outcome = Found(record: Record) | NotFound | Failed

  /**
   What the parts of the core outside this machine decide about an answer:
   whether it is valid, whether a free or an occupied place may be used, whether
   its route fits or may displace a peer, whether the eviction budget has a
   token, which peers' removal frees the routes needed, where its destination is
   then routed, and whether an initiation is parked behind it.
   */
  datatype Policy = Policy(
    valid: bool, mayUseFree: bool, mayDisplace: bool, roomy: bool, mayEvict: bool, budget: bool, gives: set<nat>,
    route: Option<nat>, parked: bool)

  /** A keepalive interval of zero means none. */
  function NonZero(interval: Option<nat>): Option<nat> {
    if interval == Some(0) then None else interval
  }

  /** What became of a record: its peer is installed or refreshed, or not, perhaps to be remembered. */
  datatype Adoption = Adopted(p: nat) | Refused(negative: bool)

  predicate Pinned(s: State, key: nat) {
    key in s.byKey && HasPeer(s, s.byKey[key]) && s.peers[s.byKey[key]].value.pinned
  }

  /** The response named an initiating slot, and in `s'` that slot holds its peer's new current session. */
  ghost predicate AnswersHandshake(s: State, s': State, index: nat, now: nat) {
    && AwaitsResponse(s, index)
    && var i := s.indices[index];
    var p := s.slots[i].peer;
    && HasPeer(s, p) && Rotation(s, s', p, i) && IsEstablished(s', i, p, true)
    && var x := s'.slots[i].session;
    && x.key == s.keys && x.nSend == 0 && x.localIndex == index
    && x.role.Initiator? && x.created == now && !x.rekeyTriggered
  }

  /** An initiator's session too old to be answered for before it ends, that has not asked for a rekey yet. */
  predicate NearEnd(x: Session, now: nat) {
    x.role.Initiator? && !x.rekeyTriggered && SaturatingSub(now, x.created) >= 165_000
  }

  /** The session in slot `i` has asked for a rekey. */
  function Triggered(s: State, i: nat): State {
    if i < |s.slots| && s.slots[i].Established?
    then s.(slots := s.slots[i := Established(s.slots[i].session.(rekeyTriggered := true))]) else s
  }

  /** A peer that answered can be reached directly, unless it is relayed. */
  lemma AnsweredReaches(s: State, p: nat, i: nat, x: Session)
    requires HasPeer(s, p) && i < |s.slots|
    ensures var s' := FreedOpt(Answered(s, p, i, x), s.peers[p].value.previous);
            HasPeer(s', p) && (s'.peers[p].value.relay.None? ==> s'.peers[p].value.endpoint)
  {
    var s1 := Answered(s, p, i, x);
    var orphan := s.peers[p].value.previous;
    if orphan.Some? {
      FreedPeers(s1, orphan.value, p);
    }
  }

  /** Wire index `index` names a handshake in flight. */
  predicate AwaitsResponse(s: State, index: nat) {
    index in s.indices && s.indices[index] < |s.slots| && s.slots[s.indices[index]].Initiating?
  }

  lemma CommittedStays(s: State, s1: State, s2: State, key: nat, x: Record)
    requires Committed(s, s1, key, x)
    requires s2.peers == s1.peers && s2.byKey == s1.byKey && s2.slots == s1.slots && s2.indices == s1.indices
    ensures Committed(s, s2, key, x)
  {
  }

  /** A live lookup of one of the first `n` addresses that will not expire at `now`. */
  predicate AsksFor(x: Resolve, n: nat, now: nat) {
    x.kind.Outbound? && x.query.ByAddress? && x.query.address < n && x.deadline > now
  }

  lemma AddedSize(m: map<nat, Resolve>, k: nat, x: Resolve)
    requires k !in m
    ensures |m[k := x]| == |m| + 1
  {
    assert m[k := x].Keys == m.Keys + {k};
    assert |m.Keys| == |m| && |m[k := x].Keys| == |m[k := x]|;
  }

  /** One obligation due and every place taken by a waiting lookup of an address. */
  lemma OneOwed(s: State, key: nat, now: nat, max: nat)
    requires key in s.byKey && IsDue(s, ReconcileTimer(key), now) && s.reconciles.Keys == {key} && |s.peers| > 0
    requires |Waiting(s.resolves, now)| == max && |s.resolves| <= max
    ensures Over(s, now, max) && Room(s, now)
  {
    WaitingSize(s.resolves, now);
    assert key in Owing(s, now);
    forall k | k in Owing(s, now) ensures k == key {
      if id :| id in s.resolves && Lapses(s.resolves[id], k, now) {
        AllWait(s.resolves, now);
        assert false;
      }
    }
    assert Owing(s, now) == {key} && s.reconciles.Keys + Owing(s, now) == {key};
  }

  lemma AllWait(resolves: map<nat, Resolve>, now: nat)
    requires |Waiting(resolves, now)| >= |resolves|
    ensures forall id | id in resolves :: id in Waiting(resolves, now)
  {
    var w := Waiting(resolves, now);
    assert resolves.Keys == w + (resolves.Keys - w) && |resolves.Keys| == |resolves|;
    assert |resolves.Keys - w| == 0;
    forall id | id in resolves ensures id in w {
      assert id !in resolves.Keys - w;
    }
  }

  predicate IsInstalled(x: Option<Peer>, r: Record) {
    x.Some? && x.value.pinned && x.value.publicKey == r.publicKey && x.value.endpoint == r.endpoint
      && x.value.relay == r.relay && x.value.persistent == NonZero(r.interval)
  }

  /** No entry names `dst`, and there is a place for one. */
  predicate Unasked(resolves: map<nat, Resolve>, dst: nat, max: nat) {
    |resolves| < max && forall k | k in resolves :: resolves[k].query != ByAddress(dst)
  }

  /** No marker for `dst` still holds, and one is being asked for or there is a place to ask. */
  predicate MayAsk(resolves: map<nat, Resolve>, dst: nat, now: nat, max: nat) {
    && (forall k | k in resolves && resolves[k].query == ByAddress(dst) ::
          !resolves[k].kind.Negative? || resolves[k].deadline <= now)
    && ((exists k :: k in resolves && resolves[k].query == ByAddress(dst)) || !FullOfLive(resolves, max))
  }

  /**
   A lookup in flight is joined and the table left alone. A new one, until `until`, is made
   only where `dst` has no entry, or a marker whose time is over.
   */
  ghost predicate AsksOnce(resolves: map<nat, Resolve>, resolves': map<nat, Resolve>, id: nat, dst: nat, now: nat,
                           until: nat)
  {
    if id in resolves then resolves' == resolves
    else
      && id in resolves' && resolves'[id] == Resolve(ByAddress(dst), Outbound, until)
      && ((forall k | k in resolves :: resolves[k].query != ByAddress(dst))
          || (exists k :: k in resolves && IsMarker(resolves[k], ByAddress(dst)) && resolves[k].deadline <= now))
  }

  predicate IsOutbound(x: Resolve) {
    x.kind.Outbound? && x.query.ByAddress?
  }

  predicate HasVacancy(peers: seq<Option<Peer>>) {
    exists p :: 0 <= p < |peers| && peers[p].None?
  }

  /** The answer brings in a peer that was not held. */
  ghost predicate Admits(s: State, outcome: Outcome, policy: Policy) {
    && outcome.Found? && outcome.record.publicKey !in s.byKey && HasVacancy(s.peers)
    && policy.valid && policy.mayUseFree && policy.roomy && policy.route.Some?
  }

  /** The entries for other targets. */
  function Without(resolves: map<nat, Resolve>, query: Query): map<nat, Resolve> {
    map k | k in resolves && resolves[k].query != query :: resolves[k]
  }

  /** A marker joins the table if there is room. */
  ghost predicate MarkerAdded(m: map<nat, Resolve>, m': map<nat, Resolve>, query: Query, until: nat, max: nat,
                              from: nat)
  {
    if |m| < max then exists id: nat :: id >= from && id !in m && m' == m[id := Resolve(query, Negative, until)]
    else m' == m
  }

  /** The answer is valid, names no pinned peer, and its peer lands. */
  ghost predicate Lets(s: State, outcome: Outcome, policy: Policy) {
    outcome.Found? && policy.valid && !Pinned(s, outcome.record.publicKey) && Lands(s, outcome.record, policy)
  }

  /** The packets behind the lookup can go on. */
  ghost predicate GoesOn(s: State, outcome: Outcome, policy: Policy) {
    Lets(s, outcome, policy) && policy.route.Some?
  }

  /** An initiation was parked behind the lookup, and there is a slot for its session. */
  ghost predicate GreetsParked(s: State, outcome: Outcome, policy: Policy) {
    Lets(s, outcome, policy) && policy.parked && exists i: nat :: i < |s.slots| && s.slots[i].Free?
  }

  /** A response was built for the peer of `key`. */
  ghost predicate RespondsTo(s: State, o: Outside, o': Outside, key: nat) {
    key in s.byKey && Responds(o, o', s.byKey[key])
  }

  /**
   An authoritative answer about the held peer of `key`. Only "not found" removes it; a record that
   is accepted is committed; otherwise the old record stays whole and its reconciliation is owed.
   */
  ghost predicate HeldEffect(s: State, s': State, key: nat, outcome: Outcome, policy: Policy, now: nat, ttl: nat,
                             max: nat, minIdle: nat)
  {
    if !Dynamic(s, key) then s' == s.(reconciles := s.reconciles - {key})
    else
      match outcome
      case NotFound =>
        && s'.byKey == s.byKey - {key} && s'.reconciles == s.reconciles - {key}
        && MarkerAdded(Without(s.resolves, ByKey(key)), s'.resolves, ByKey(key), now + ttl, max, 0)
      case Failed => Kept(s, s', key, now + ttl)
      case Found(x) =>
        if Accepts(s, key, x, policy, now, minIdle) then Committed(s, s', key, x) && key !in s'.reconciles
        else Kept(s, s', key, now + ttl)
  }

  /**
   The answer to a lookup `id` of `dst`: nothing stays parked behind it. The packets go on where
   they can; "not found" is remembered, and a failure is not.
   */
  ghost predicate OutboundEffect(s: State, s': State, o: Outside, o': Outside, id: nat, dst: nat, outcome: Outcome,
                                 policy: Policy, now: nat, ttl: nat, max: nat)
  {
    && (forall j | 0 <= j < |s'.pending| :: !Awaits(s'.pending[j], OnResolve(id)))
    && (Admits(s, outcome, policy) ==>
          && outcome.record.publicKey in s'.byKey && outcome.record.publicKey in s'.admitted
          && s'.reconciles == s.reconciles && s'.resolves.Keys <= s.resolves.Keys)
    && (GoesOn(s, outcome, policy) ==> Forwarded(o, o', policy.route, |Awaiting(s.pending, OnResolve(id))|))
    && (outcome.NotFound? ==>
          MarkerAdded(Without(s.resolves, ByAddress(dst)), s'.resolves, ByAddress(dst), now + ttl, max, 0))
    && (outcome.Failed? ==> s'.resolves == s.resolves)
  }

  /** The answer about an unknown key: a peer that lands is held, and a parked initiation of it is answered. */
  ghost predicate InstallEffect(s: State, s': State, o: Outside, o': Outside, key: nat, outcome: Outcome,
                                policy: Policy, now: nat, fate: nat -> bool, ttl: nat, max: nat)
  {
    && (Lets(s, outcome, policy) && outcome.record.publicKey == key ==> key in s'.byKey)
    && (GreetsParked(s, outcome, policy) && outcome.record.publicKey == key && fate(o.draws) ==>
          RespondsTo(s', o, o', key))
    && (outcome.NotFound? ==> MarkerAdded(Without(s.resolves, ByKey(key)), s'.resolves, ByKey(key), now + ttl, max, 0))
    && (outcome.Failed? ==> s' == s)
  }

  /** What the answer to lookup `x`, already taken out of the table, does. */
  ghost predicate AnswerEffect(s: State, s': State, o: Outside, o': Outside, id: nat, x: Resolve, outcome: Outcome,
                               policy: Policy, now: nat, fate: nat -> bool, ttl: nat, max: nat, minIdle: nat)
  {
    match (x.kind, x.query)
    case (Outbound, ByAddress(dst)) => OutboundEffect(s, s', o, o', id, dst, outcome, policy, now, ttl, max)
    case (Install, ByKey(key)) => InstallEffect(s, s', o, o', key, outcome, policy, now, fate, ttl, max)
    case (Reconcile, ByKey(key)) => HeldEffect(s, s', key, outcome, policy, now, ttl, max, minIdle)
    case _ => s' == s
  }

  predicate IsMarker(x: Resolve, query: Query) {
    x.kind.Negative? && x.query == query
  }

  predicate Dynamic(s: State, key: nat) {
    key in s.byKey && HasPeer(s, s.byKey[key]) && !s.peers[s.byKey[key]].value.pinned
  }

  predicate Sessionless(x: Peer) {
    x.current.None? && x.previous.None? && x.next.None? && x.handshake.None?
  }

  /** The only kind of peer that is ever evicted for capacity. */
  predicate Displaceable(s: State, p: nat, exclude: Option<nat>, now: nat, minIdle: nat) {
    && HasPeer(s, p) && exclude != Some(p) && !s.peers[p].value.pinned && Sessionless(s.peers[p].value)
    && SaturatingSub(now, s.peers[p].value.lastActivity) >= minIdle
  }

  /** Such a peer whose removal also frees the routes needed. */
  predicate MayGo(s: State, p: nat, exclude: Option<nat>, gives: set<nat>, now: nat, minIdle: nat) {
    p in gives && Displaceable(s, p, exclude, now, minIdle)
  }

  ghost predicate Idlest(s: State, p: nat, exclude: Option<nat>, gives: set<nat>, now: nat, minIdle: nat) {
    && MayGo(s, p, exclude, gives, now, minIdle)
    && forall q: nat | MayGo(s, q, exclude, gives, now, minIdle) ::
         s.peers[p].value.lastActivity <= s.peers[q].value.lastActivity
  }

  /** The route of peer `p` fits, or can be made to. */
  ghost predicate RouteFits(s: State, p: nat, policy: Policy, now: nat, minIdle: nat) {
    policy.roomy
    || (policy.mayEvict && policy.budget && exists q: nat :: MayGo(s, q, Some(p), policy.gives, now, minIdle))
  }

  /** There is a place for a new peer, or one can be made. */
  ghost predicate PlaceFor(s: State, policy: Policy, now: nat, minIdle: nat) {
    || (policy.mayUseFree && HasVacancy(s.peers))
    || (policy.mayDisplace && policy.budget && exists q: nat :: MayGo(s, q, None, policy.gives, now, minIdle))
  }

  /** The record is valid, names the held peer of `key`, and its route fits. */
  ghost predicate Accepts(s: State, key: nat, x: Record, policy: Policy, now: nat, minIdle: nat) {
    policy.valid && x.publicKey == key && key in s.byKey && RouteFits(s, s.byKey[key], policy, now, minIdle)
  }

  /** The record's peer is held, or has a free place, and its route fits as it is. */
  ghost predicate Lands(s: State, x: Record, policy: Policy) {
    policy.roomy && (x.publicKey in s.byKey || (policy.mayUseFree && HasVacancy(s.peers)))
  }

  /** The held peer of the record's key carries the record. */
  predicate Updates(s: State, s': State, x: Record) {
    && x.publicKey in s.byKey && HasPeer(s, s.byKey[x.publicKey]) && HasPeer(s', s.byKey[x.publicKey])
    && Carries(s.peers[s.byKey[x.publicKey]].value, s'.peers[s.byKey[x.publicKey]].value, x.endpoint, x.relay,
               NonZero(x.interval))
  }

  /** No slot changed, and every peer that is not displaceable is exactly as it was. */
  ghost predicate Spares(s: State, s': State, exclude: Option<nat>, now: nat, minIdle: nat) {
    && s'.slots == s.slots && s'.indices == s.indices && |s'.peers| == |s.peers|
    && forall q: nat {:trigger s'.peers[q]} | HasPeer(s, q) && !Displaceable(s, q, exclude, now, minIdle) ::
         s'.peers[q] == s.peers[q]
  }

  lemma EvictedSessionless(s: State, p: nat)
    requires Tables(s, None) && HasPeer(s, p) && Sessionless(s.peers[p].value)
    ensures Evicted(s, p).slots == s.slots && Evicted(s, p).indices == s.indices
  {
    forall i: nat | i < |s.slots| ensures !OwnedBy(s.slots[i], p) {
      OwnedIsReferred(s, p, i);
    }
  }

  /** A held record untouched and its reconciliation owed by `due`, unless the backlog is full. */
  ghost predicate Kept(s: State, s': State, key: nat, due: nat) {
    s' == s.(reconciles := OwedAt(s.reconciles, key, due, |s.peers|), timers := s'.timers)
  }

  /** The peer of `key` is still held, with its sessions and the new record. */
  ghost predicate Committed(s: State, s': State, key: nat, x: Record) {
    && Dynamic(s, key) && key in s'.byKey && s'.byKey[key] == s.byKey[key] && HasPeer(s', s.byKey[key])
    && s'.slots == s.slots && s'.indices == s.indices
    && Carries(s.peers[s.byKey[key]].value, s'.peers[s.byKey[key]].value, x.endpoint, x.relay, NonZero(x.interval))
  }

  /**
   Everything that can be fed to the engine and moves the session machine: inner
   packets with and without a route, authenticated handshake and transport
   messages, lookups for unknown keys, resolver completions and updates, and
   the passing of time. Cookie replies touch none of its state.
   */
  datatype Event =
    | Send(p: nat) | Unrouted(dst: nat) | Initiation(p: nat) | Response(index: nat, authentic: bool)
    | Transport(index: nat, data: bool, authentic: bool)
    | UnknownKey(key: nat, budget: bool) | Completed(id: nat, outcome: Outcome, policy: Policy)
    | Updated(key: nat, outcome: Outcome, policy: Policy) | Tick

  /** A packet is offered to the usable session or waits for a handshake or, without a route, for a lookup. */
  ghost predicate PacketEffect(e: Event, s: State, s': State, o: Outside, o': Outside, now: nat, fate: nat -> bool,
                               max: nat)
    requires e.Send? || e.Unrouted? || e.UnknownKey?
  {
    match e
    case Send(p) =>
      (match Usable(s, p, now)
       case Some(i) =>
         o'.offers == o.offers + [Offer(p, i, true, Sendable(s, p, i, now) && Serves(fate, o.draws, Relayed(s, p)))]
       case None =>
         && Rekeyed(s, s', p, now, fate(o.draws))
         && (|s'.pending| > 0 ==> IsParked(s'.pending, OnHandshake(p))))
    case Unrouted(dst) => MayAsk(s.resolves, dst, now, max) ==> InQuestion(s'.resolves, ByAddress(dst))
    case UnknownKey(key, budget) =>
      budget && !Suppressed(s.resolves, ByKey(key), now) && !FullOfLive(s.resolves, max) ==>
        InQuestion(s'.resolves, ByKey(key))
  }

  ghost predicate IsParked(pending: seq<Option<Parked>>, wait: Wait) {
    exists j :: 0 <= j < |pending| && Awaits(pending[j], wait)
  }

  /** A live lookup asks `query`. */
  ghost predicate InQuestion(resolves: map<nat, Resolve>, query: Query) {
    exists id :: id in resolves && resolves[id].query == query && !resolves[id].kind.Negative?
  }

  /** A transport message was accepted on a live session. */
  predicate Receives(s: State, index: nat, now: nat) {
    && index in s.indices && s.indices[index] < |s.slots|
    && s.slots[s.indices[index]].Established? && !TooOld(s.slots[s.indices[index]], now)
  }

  /** An initiation and a response each give their peer a session with a new key; data is delivered. */
  ghost predicate MessageEffect(e: Event, s: State, s': State, o: Outside, o': Outside, now: nat, fate: nat -> bool)
    requires e.Initiation? || e.Response? || e.Transport?
  {
    match e
    case Initiation(p) =>
      s'.keys >= s.keys && (CanReply(s, p, now) && fate(o.draws) ==> s'.keys == s.keys + 1 && Responds(o, o', p))
    case Response(index, authentic) =>
      if authentic && AwaitsResponse(s, index) then
        exists rotated: State :: AnswersHandshake(s, rotated, index, now) && Sends(rotated, s', now)
      else s' == s
    case Transport(index, data, authentic) =>
      if authentic && Receives(s, index, now) then
        var i := s.indices[index];
        var x := s.slots[i].session;
        HasPeer(s, x.peer) && (!NearEnd(x, now) ==> s' == Delivered(s, x.peer, i, data, now))
      else s' == s
  }

  class Engine {
    const negativeTtl: nat
    const resolveTimeout: nat
    const resolveOutboundTimeout: nat
    const maxInflight: nat
    const minIdle: nat
    /** Whether the clock, the random generator and the ciphers serve, for each time they are needed. */
    const fate: nat -> bool
    var peers: seq<Option<Peer>>
    var byKey: map<nat, nat>
    var slots: seq<Slot>
    var indices: map<nat, nat>
    var timers: Option<nat>
    var pending: seq<Option<Parked>>
    var resolves: map<nat, Resolve>
    var reconciles: map<nat, nat>
    var nextResolveId: nat
    /** Identities of the session keys derived so far; every derivation yields a new one. */
    var keys: nat
    var outside: Outside
    /** Every message sealed so far, in order. */
    ghost var seals: seq<Seal>
    /** Every key ever installed from a resolver answer. */
    ghost var admitted: set<nat>

    ghost function S(): State
      reads this
    {
      State(peers, byKey, slots, indices, timers, pending, resolves, reconciles, keys, seals, admitted)
    }

    /** The tables are consistent and the resolve table is within its limit. */
    ghost predicate Ready()
      reads this
    {
      && Inv(S(), None) && |resolves| <= maxInflight && resolveTimeout > 0 && resolveOutboundTimeout > 0
      && forall id | id in resolves :: id < nextResolveId
    }

    /**
     What every public operation keeps: consistent tables and a cached bound that
     is never late. With no place for any lookup, no answer ever admits a peer, so
     no record is ever owed a reconciliation.
     */
    ghost predicate Valid()
      reads this
    {
      && Ready() && Bounded(S())
      && (maxInflight == 0 ==> admitted == {} && reconciles == map[])
    }

    /** New deadlines lie strictly in the future, provided the negative TTL is not zero. */
    ghost function Slack(): (k: nat)
      ensures k <= 1
    {
      if negativeTtl > 0 then 1 else 0
    }

    /** An empty engine; configuration validation has already rejected zero resolver timeouts. */
    constructor (maxPeers: nat, maxSessions: nat, maxParked: nat, negativeTtl: nat,
                 resolveTimeout: nat, resolveOutboundTimeout: nat, maxInflight: nat, minIdle: nat, fate: nat -> bool)
      requires resolveTimeout > 0 && resolveOutboundTimeout > 0
      ensures Valid() && timers == None && |peers| == maxPeers && |slots| == maxSessions && |pending| == maxParked
      ensures this.negativeTtl == negativeTtl && this.resolveTimeout == resolveTimeout
                && this.maxInflight == maxInflight
      ensures byKey == map[] && resolves == map[] && reconciles == map[] && admitted == {}
      ensures forall p | 0 <= p < maxPeers :: peers[p].None?
      ensures forall j | 0 <= j < maxParked :: pending[j].None?
      ensures forall t :: Deadline(S(), t) == None
    {
      this.negativeTtl := negativeTtl;
      this.resolveTimeout := resolveTimeout;
      this.resolveOutboundTimeout := resolveOutboundTimeout;
      this.maxInflight := maxInflight;
      this.minIdle := minIdle;
      this.fate := fate;
      outside := Outside(0, [], [], []);
      peers := seq(maxPeers, _ => None);
      byKey := map[];
      slots := seq(maxSessions, _ => Free);
      indices := map[];
      timers := None;
      pending := seq(maxParked, _ => None);
      resolves := map[];
      reconciles := map[];
      nextResolveId := 0;
      keys := 0;
      seals := [];
      admitted := {};
    }

    /** Needs the outside once. */
    method Draw() returns (served: bool)
      modifies this`outside
      ensures served == fate(old(outside).draws) && outside == old(outside).(draws := old(outside).draws + 1)
    {
      served := fate(outside.draws);
      outside := outside.(draws := outside.draws + 1);
    }

    /** Lowers the cached bound. */
    method ArmTimer(d: nat)
      modifies this`timers
      ensures S() == Arm(old(S()), d)
    {
      if timers.None? || d < timers.value {
        timers := Some(d);
      }
    }

    // -------------------------------------------------------------------
    // The slot pool
    // -------------------------------------------------------------------

    /** Frees a slot: unlinks it from its peer, removes its wire index, drops its contents. Never fails. */
    method FreeSlot(i: nat, ghost orphan: Option<nat>, ghost now: nat) returns (ok: bool)
      requires Inv(S(), orphan) && i < |slots| && (orphan == None || orphan == Some(i))
      modifies this`peers, this`slots, this`indices
      ensures ok && S() == Freed(old(S()), i) && slots[i].Free?
      ensures Inv(S(), None) && Evolves(old(S()), S(), now, 1)
      ensures !old(slots[i]).Free? ==> Index(old(slots[i])) !in indices
    {
      FreedOk(S(), i, orphan, now);
      if slots[i].Free? {
        return true;
      }
      var p, index := Owner(slots[i]), Index(slots[i]);
      ok := p < |peers| && peers[p].Some? && index in indices && indices[index] == i;
      if ok {
        indices := indices - {index};
        peers := peers[p := Some(Unlink(peers[p].value, i))];
        slots := slots[i := Free];
      }
    }

    method FindFree() returns (r: Option<nat>)
      ensures r.Some? ==> r.value < |slots| && slots[r.value].Free?
      ensures r.None? ==> forall j: nat | j < |slots| :: !slots[j].Free?
    {
      for i := 0 to |slots|
        invariant forall j: nat | j < i :: !slots[j].Free?
      {
        if slots[i].Free? {
          return Some(i);
        }
      }
      return None;
    }

    method FindTooOld(now: nat) returns (r: Option<nat>)
      ensures r.Some? ==> r.value < |slots| && TooOld(slots[r.value], now)
      ensures r.None? ==> forall j: nat | j < |slots| :: !TooOld(slots[j], now)
    {
      for i := 0 to |slots|
        invariant forall j: nat | j < i :: !TooOld(slots[j], now)
      {
        if TooOld(slots[i], now) {
          return Some(i);
        }
      }
      return None;
    }

    method FindPrevious() returns (r: Option<nat>)
      ensures r.Some? ==> IsPrevious(S(), r.value)
      ensures r.None? ==> forall j: nat :: !IsPrevious(S(), j)
    {
      for p := 0 to |peers|
        invariant forall q: nat | q < p && peers[q].Some? :: peers[q].value.previous.None?
      {
        if peers[p].Some? && peers[p].value.previous.Some? {
          return peers[p].value.previous;
        }
      }
      return None;
    }

    method FindLeastActive() returns (r: Option<nat>)
      ensures r.Some? ==> r.value < |slots| && Evictable(S(), r.value)
      ensures r.Some? ==> forall j: nat | j < |slots| && Evictable(S(), j) :: Activity(S(), r.value) <= Activity(S(), j)
      ensures r.None? ==> forall j: nat | j < |slots| :: !Evictable(S(), j)
    {
      r := None;
      var least := 0;
      for i := 0 to |slots|
        invariant r.Some? ==> r.value < i && Evictable(S(), r.value) && least == Activity(S(), r.value)
        invariant r.Some? ==> forall j: nat | j < i && Evictable(S(), j) :: least <= Activity(S(), j)
        invariant r.None? ==> forall j: nat | j < i :: !Evictable(S(), j)
      {
        if slots[i].Established? {
          var p := slots[i].session.peer;
          var known := p < |peers| && peers[p].Some?;
          var pinnedCurrent := known && peers[p].value.pinned && peers[p].value.current == Some(i);
          var activity := if known then peers[p].value.lastActivity else 0;
          if !pinnedCurrent && (r.None? || activity < least) {
            r := Some(i);
            least := activity;
          }
        }
      }
    }

    /** The slot that the eviction order prescribes, if any slot may be taken. */
    method PickSlot(now: nat) returns (r: Option<nat>)
      requires Inv(S(), None)
      ensures r.Some? ==> Chosen(S(), r.value, now) && !Protected(S(), r.value, now)
      ensures r.None? ==> forall i: nat | i < |slots| :: Protected(S(), i, now)
    {
      r := FindFree();
      if r.None? {
        r := FindTooOld(now);
        if r.None? {
          r := FindPrevious();
          if r.Some? {
            ghost var p: nat :| p < |peers| && peers[p].Some? && peers[p].value.previous == r;
            assert PeerOk(S(), p);
          } else {
            r := FindLeastActive();
            assert r.None? ==> forall i: nat | i < |slots| ::
                !slots[i].Free? && !TooOld(slots[i], now) && !Evictable(S(), i);
          }
        }
      }
      if r.Some? {
        assert Chosen(S(), r.value, now);
        ChosenNotProtected(S(), r.value, now);
      }
    }

    /** A slot for authenticated use, evicting by policy when none is free. */
    method AllocSlot(now: nat) returns (r: Option<nat>)
      requires Inv(S(), None)
      modifies this`peers, this`slots, this`indices
      ensures Inv(S(), None) && Sends(old(S()), S(), now)
      ensures r.Some? ==> r.value < |slots| && slots[r.value].Free? && S() == Freed(old(S()), r.value)
      ensures r.Some? ==> Chosen(old(S()), r.value, now) && !Protected(old(S()), r.value, now)
      ensures r.None? ==> S() == old(S()) && forall i: nat | i < |slots| :: Protected(S(), i, now)
    {
      SendsReflexive(S(), now);
      r := PickSlot(now);
      if r.Some? {
        FreedKeepsHandshakes(S(), r.value, now);
        var ok := FreeSlot(r.value, None, now);
      }
    }

    /** The same for callers that do not mind which slot it is. */
    method TakeSlot(now: nat) returns (r: Option<nat>)
      requires Inv(S(), None)
      modifies this`peers, this`slots, this`indices
      ensures Inv(S(), None) && Sends(old(S()), S(), now)
      ensures r.Some? ==> r.value < |slots| && slots[r.value].Free? && S() == Freed(old(S()), r.value)
      ensures r.None? ==> S() == old(S())
      ensures r.Some? <==> CanTake(old(S()), now)
    {
      r := AllocSlot(now);
    }

    /** A wire index not in use. */
    method RandomUnused() returns (index: nat)
      ensures index !in indices
    {
      SomeUnused(indices);
      index :| index !in indices;
    }

    /** Registers an unused wire index; the map's capacity is one entry per slot. */
    method InsertIndex(index: nat, i: nat) returns (ok: bool)
      modifies this`indices
      ensures ok <==> i < |slots| && index !in old(indices) && |old(indices)| < |slots|
      ensures indices == if ok then old(indices)[index := i] else old(indices)
    {
      ok := i < |slots| && index !in indices && |indices| < |slots|;
      if ok {
        indices := indices[index := i];
      }
    }

    // -------------------------------------------------------------------
    // Starting handshakes
    // -------------------------------------------------------------------

    /**
     Builds an initiation with a fresh ephemeral for slot `i`: a free slot gets a
     new wire index and is not yet linked to the peer; an initiating slot keeps
     its index. Only the retry timer changes, and it lies in the future.
     */
    method BuildInitiation(p: nat, i: nat, now: nat) returns (ok: bool)
      requires Inv(S(), None) && i < |slots| && (slots[i].Initiating? ==> slots[i].peer == p)
      modifies this`peers, this`slots, this`indices, this`timers, this`seals, this`outside
      ensures !ok ==> S() == old(S())
      ensures ok ==> HasPeer(S(), p) && IsInitiating(S(), i, p) && RetriesSoon(slots[i], now)
      ensures ok ==> peers == old(peers) && Inv(S(), if old(slots[i]).Free? then Some(i) else None)
      ensures ok && !old(slots[i]).Free? ==>
                old(slots[i]).Initiating? && slots[i].localIndex == old(slots[i]).localIndex
      ensures Sends(old(S()), S(), now)
      ensures ok <==> Reachable(old(S()), p) && !old(slots[i]).Established? && fate(old(outside).draws)
      ensures Grows(old(outside), outside) && outside.signals == old(outside).signals
    {
      SendsReflexive(S(), now);
      if p >= |peers| || peers[p].None? || (!peers[p].value.endpoint && peers[p].value.relay.None?) {
        return false;
      }
      var served := Draw();
      if !served || slots[i].Established? {
        return false;
      }
      ok := true;
      Initiate(p, i, now);
    }

    /** A free slot becomes initiating; an initiating one goes on with a fresh ephemeral. */
    method Initiate(p: nat, i: nat, now: nat)
      requires Inv(S(), None) && HasPeer(S(), p) && i < |slots| && (slots[i].Free? || IsInitiating(S(), i, p))
      modifies this`slots, this`indices, this`timers
      ensures IsInitiating(S(), i, p) && RetriesSoon(slots[i], now)
      ensures Inv(S(), if old(slots[i]).Free? then Some(i) else None) && Sends(old(S()), S(), now)
      ensures !old(slots[i]).Free? ==> slots[i].localIndex == old(slots[i]).localIndex
    {
      if slots[i].Free? {
        var index := RandomUnused();
        Claim(p, i, index, now);
      } else {
        Renew(i, now);
      }
    }

    /** A free slot becomes initiating under a newly registered index. */
    method Claim(p: nat, i: nat, index: nat, now: nat)
      requires Inv(S(), None) && HasPeer(S(), p) && i < |slots| && slots[i].Free? && index !in indices
      modifies this`slots, this`indices, this`timers
      ensures IsInitiating(S(), i, p) && RetriesSoon(slots[i], now)
      ensures Inv(S(), Some(i)) && Sends(old(S()), S(), now)
    {
      var retryAt := RetryDeadline(now);
      IndexRoom(S(), i, None);
      InitiatedOk(S(), p, i, index, retryAt, now);
      ghost var s0 := S();
      var inserted := InsertIndex(index, i);
      slots := slots[i := Initiating(p, index, retryAt)];
      ArmTimer(retryAt);
      assert S() == Initiated(s0, p, i, index, retryAt);
    }

    /** A fresh ephemeral in the same slot under the same index. */
    method Renew(i: nat, now: nat)
      requires Inv(S(), None) && i < |slots| && slots[i].Initiating?
      modifies this`slots, this`timers
      ensures IsInitiating(S(), i, old(slots)[i].peer) && RetriesSoon(slots[i], now)
      ensures slots[i].localIndex == old(slots)[i].localIndex
      ensures Inv(S(), None) && Sends(old(S()), S(), now)
    {
      var retryAt := RetryDeadline(now);
      RetriedOk(S(), i, retryAt, now);
      ghost var s0 := S();
      slots := slots[i := slots[i].(retryAt := retryAt)];
      ArmTimer(retryAt);
      assert S() == Retried(s0, i, retryAt);
    }

    /** A jittered retransmission deadline. */
    method RetryDeadline(now: nat) returns (at: nat)
      ensures now + REKEY_TIMEOUT <= at <= now + REKEY_TIMEOUT + REKEY_TIMEOUT_JITTER_MAX
    {
      var word: nat := *;
      at := now + REKEY_TIMEOUT + word % (REKEY_TIMEOUT_JITTER_MAX + 1);
    }

    /** Links the initiating slot to its peer and starts the attempt's overall deadline. */
    method CommitHandshakeStart(p: nat, i: nat, now: nat)
      requires Inv(S(), Some(i)) && HasPeer(S(), p) && IsInitiating(S(), i, p) && peers[p].value.handshake.None?
      modifies this`peers, this`timers
      ensures S() == Begun(old(S()), p, i, now + REKEY_ATTEMPT_TIME)
      ensures Inv(S(), None) && Sends(old(S()), S(), now)
    {
      BegunOk(S(), p, i, now + REKEY_ATTEMPT_TIME, now);
      var x := peers[p].value;
      var deadline := now + REKEY_ATTEMPT_TIME;
      var attempt := if x.attemptDeadline.None? then Some(deadline) else x.attemptDeadline;
      peers := peers[p := Some(x.(handshake := Some(i), attemptDeadline := attempt))];
      ArmTimer(deadline);
    }

    /** Allocates a slot, builds an initiation for it and commits the handshake, or leaves everything consistent. */
    method StageInitiation(p: nat, now: nat) returns (r: Staged)
      requires Inv(S(), None)
      modifies this`peers, this`slots, this`indices, this`timers, this`seals, this`outside
      ensures Inv(S(), None) && Sends(old(S()), S(), now)
      ensures r.NotNeeded? ==> S() == old(S())
      ensures r.NotNeeded? <==> !HasPeer(old(S()), p) || InFlight(old(S()), p).Some?
      ensures r.Started? <==> CanStart(old(S()), p, now) && fate(old(outside).draws)
      ensures r.Started? ==> InFlight(S(), p).Some?
      ensures Grows(old(outside), outside) && outside.signals == old(outside).signals
    {
      SendsReflexive(S(), now);
      if p >= |peers| || peers[p].None? || peers[p].value.handshake.Some? {
        return NotNeeded;
      }
      if !peers[p].value.endpoint && peers[p].value.relay.None? {
        return Unable;
      }
      ghost var s0 := S();
      var slot := TakeSlot(now);
      if slot.None? {
        return Unable;
      }
      ghost var s1 := S();
      FreedPeers(s0, slot.value, p);
      var built := BuildInitiation(p, slot.value, now);
      ghost var s2 := S();
      SendsTransitive(s0, s1, s2, now);
      if !built {
        var ok := FreeSlot(slot.value, None, now);
        SendsTransitive(s0, s2, S(), now);
        return Unable;
      }
      CommitHandshakeStart(p, slot.value, now);
      SendsTransitive(s0, s2, S(), now);
      return Started;
    }

    /** Starts a handshake with a peer that must be directly reachable. */
    method EnsureDirectHandshake(p: nat, now: nat)
      requires Inv(S(), None)
      modifies this`peers, this`slots, this`indices, this`timers, this`seals, this`outside
      ensures Inv(S(), None) && Sends(old(S()), S(), now)
      ensures Grows(old(outside), outside)
      ensures CanStart(old(S()), p, now) && !Relayed(old(S()), p) && fate(old(outside).draws) ==>
                InFlight(S(), p).Some? && Signalled(old(outside), outside, Signal(p, false, true))
    {
      SendsReflexive(S(), now);
      if p >= |peers| || peers[p].None? || peers[p].value.relay.Some? || !peers[p].value.endpoint {
        return;
      }
      var r := StageInitiation(p, now);
      if r.Started? {
        outside := outside.(signals := outside.signals + [Signal(p, false, true)]);
        assert outside.signals[|outside.signals| - 1] == Signal(p, false, true);
      }
    }

    /** The peer's current session, if it may encrypt right now. */
    function UsableSession(p: nat, now: nat): (r: Option<nat>)
      reads this
      ensures r.Some? ==> r.value < |slots| && slots[r.value].Established? && CanSend(slots[r.value].session, now)
      ensures r.Some? && Inv(S(), None) ==> HasPeer(S(), p) && slots[r.value].session.peer == p
      ensures r == Usable(S(), p, now)
    {
      assert p < |peers| && peers[p].Some? && Inv(S(), None) ==> PeerOk(S(), p);
      if p < |peers| && peers[p].Some? && peers[p].value.current.Some? then
        var i := peers[p].value.current.value;
        if i < |slots| && slots[i].Established? && CanSend(slots[i].session, now) then Some(i) else None
      else None
    }

    /** Resolves a relay to a usable session, or starts a handshake with it and gives up for now. */
    method RelayPath(key: nat, now: nat) returns (r: Option<(nat, nat)>)
      requires Inv(S(), None)
      modifies this`peers, this`slots, this`indices, this`timers, this`seals, this`outside
      ensures Inv(S(), None) && Sends(old(S()), S(), now)
      ensures r.Some? ==>
                && S() == old(S()) && key in byKey && r.value.0 == byKey[key] && HasPeer(S(), r.value.0)
                && peers[r.value.0].value.relay.None? && peers[r.value.0].value.endpoint
                && IsEstablished(S(), r.value.1, r.value.0, true) && CanSend(slots[r.value.1].session, now)
      ensures r == Path(old(S()), key, now) && (r.Some? ==> outside == old(outside)) && Grows(old(outside), outside)
    {
      SendsReflexive(S(), now);
      if key !in byKey {
        return None;
      }
      var rp := byKey[key];
      if rp >= |peers| || peers[rp].None? || peers[rp].value.relay.Some? || !peers[rp].value.endpoint {
        return None;
      }
      var usable := UsableSession(rp, now);
      if usable.Some? {
        return Some((rp, usable.value));
      }
      EnsureDirectHandshake(rp, now);
      return None;
    }

    // -------------------------------------------------------------------
    // Sealing and sending
    // -------------------------------------------------------------------

    /**
     Seals one message of peer `p` under slot `i`. Success uses a (key, counter)
     pair never used before; failure changes nothing.
     */
    method SealTransport(p: nat, i: nat, data: bool, now: nat) returns (ok: bool, rekey: bool, ghost replyBy: nat)
      requires Inv(S(), None) && OwnSession(S(), p, i)
      modifies this`peers, this`slots, this`timers, this`seals, this`outside
      ensures !ok ==> S() == old(S()) && !rekey
      ensures ok ==>
                && HasPeer(old(S()), p) && i < |old(slots)| && old(slots)[i].Established?
                  && CanSend(old(slots)[i].session, now)
                && S() == Sealed(old(S()), p, i, data, now, replyBy) && rekey == Triggers(old(slots)[i].session, now)
                && Unused(old(S()), i) && Carried(old(S()), S(), p, i, now)
                && now + 15_000 <= replyBy <= now + 15_333
      ensures Inv(S(), None) && Sends(old(S()), S(), now)
      ensures ok <==> CanSeal(old(S()), p, i, now) && fate(old(outside).draws)
      ensures outside == if CanSeal(old(S()), p, i, now) then old(outside).(draws := old(outside).draws + 1)
                         else old(outside)
    {
      SendsReflexive(S(), now);
      replyBy := 0;
      if p >= |peers| || peers[p].None? || i >= |slots| || !slots[i].Established? {
        return false, false, 0;
      }
      var x := slots[i].session;
      if !CanSend(x, now) {
        return false, false, 0;
      }
      var served := Draw();
      if !served {
        return false, false, 0;
      }
      var retry := RetryDeadline(now);
      replyBy := retry + KEEPALIVE_TIMEOUT;
      SealedAll(S(), p, i, data, now, replyBy);
      rekey := CommitSeal(p, i, data, now, retry + KEEPALIVE_TIMEOUT);
      ok := true;
    }

    /** Counts the sealed message and restarts the sending peer's timers. */
    method CommitSeal(p: nat, i: nat, data: bool, now: nat, replyBy: nat) returns (rekey: bool)
      requires HasPeer(S(), p) && i < |slots| && slots[i].Established?
      modifies this`peers, this`slots, this`timers, this`seals
      ensures S() == Sealed(old(S()), p, i, data, now, replyBy)
      ensures rekey == Triggers(old(slots)[i].session, now)
    {
      var x := slots[i].session;
      var aged := x.role.Initiator? && now >= RekeyDeadline(x);
      rekey := !x.rekeyTriggered && (x.nSend + 1 >= REKEY_AFTER_MESSAGES || aged);
      seals := seals + [Seal(p, x.peer, x.key, x.nSend)];
      slots := slots[i := Established(x.(nSend := x.nSend + 1, rekeyTriggered := x.rekeyTriggered || rekey))];
      NoteSent(p, data, now, replyBy);
    }

    /** No keepalive is owed any more; the persistent timer restarts; real data wants a reply. */
    method NoteSent(p: nat, data: bool, now: nat, replyBy: nat)
      requires HasPeer(S(), p)
      modifies this`peers, this`timers
      ensures S() == Sent(old(S()), p, data, now, replyBy)
    {
      var y := peers[p].value;
      var persistentDue := if y.persistent.Some? then Some(now + y.persistent.value) else None;
      var armed := data && y.replyDue.None?;
      peers := peers[p := Some(y.(lastActivity := now, keepaliveDue := None, persistentDue := persistentDue,
                                   replyDue := if armed then Some(replyBy) else y.replyDue))];
      if armed {
        ArmTimer(replyBy);
      }
      if persistentDue.Some? {
        ArmTimer(persistentDue.value);
      }
    }

    /** Delivers a handshake message directly, or inside a relay envelope when the peer is relayed. */
    method TransmitWire(p: nat, response: bool, now: nat) returns (ok: bool)
      requires Inv(S(), None)
      modifies this`peers, this`slots, this`indices, this`timers, this`seals, this`outside
      ensures Inv(S(), None) && Sends(old(S()), S(), now)
      ensures Grows(old(outside), outside)
      ensures !HasPeer(old(S()), p) ==> !ok && S() == old(S())
      ensures HasPeer(old(S()), p) ==> Signalled(old(outside), outside, Signal(p, response, ok))
      ensures HasPeer(old(S()), p) && !Relayed(old(S()), p) ==>
                S() == old(S()) && (ok <==> response || old(peers)[p].value.endpoint)
      ensures Relayed(old(S()), p) ==>
                (ok <==> Path(old(S()), old(peers)[p].value.relay.value, now).Some? && fate(old(outside).draws))
      ensures ok && Relayed(old(S()), p) ==>
                && old(peers)[p].value.relay.value in old(byKey)
                && SealedFor(old(S()), S(), old(byKey)[old(peers)[p].value.relay.value])
    {
      SendsReflexive(S(), now);
      if p >= |peers| || peers[p].None? {
        return false;
      }
      var x := peers[p].value;
      if x.relay.None? {
        ok := response || x.endpoint;
        Report(p, response, ok);
        return;
      }
      ok := TransmitRelayed(p, x.relay.value, response, now);
    }

    /** A handshake message for `p` went out, or could not. */
    method Report(p: nat, response: bool, ok: bool)
      modifies this`outside
      ensures Grows(old(outside), outside) && outside.draws == old(outside).draws
      ensures Signalled(old(outside), outside, Signal(p, response, ok))
    {
      outside := outside.(signals := outside.signals + [Signal(p, response, ok)]);
      assert outside.signals[|outside.signals| - 1] == Signal(p, response, ok);
    }

    /** A handshake message for `p` inside an envelope for the relay. */
    method TransmitRelayed(p: nat, relay: nat, response: bool, now: nat) returns (ok: bool)
      requires Inv(S(), None)
      modifies this`peers, this`slots, this`indices, this`timers, this`seals, this`outside
      ensures Inv(S(), None) && Sends(old(S()), S(), now)
      ensures Grows(old(outside), outside) && Signalled(old(outside), outside, Signal(p, response, ok))
      ensures ok <==> Path(old(S()), relay, now).Some? && fate(old(outside).draws)
      ensures ok ==> relay in old(byKey) && SealedFor(old(S()), S(), old(byKey)[relay])
    {
      ghost var o0 := outside;
      var path := RelayPath(relay, now);
      if path.None? {
        ghost var o1 := outside;
        Report(p, response, false);
        SignalStays(o0, o1, outside, outside, Signal(p, response, false));
        return false;
      }
      ok := Envelop(path.value.0, path.value.1, p, response, now);
    }

    /** Seals the envelope for the relay `rp` in slot `ri`, and rekeys with it when that is due. */
    method Envelop(rp: nat, ri: nat, p: nat, response: bool, now: nat) returns (ok: bool)
      requires Inv(S(), None) && OwnSession(S(), rp, ri) && CanSeal(S(), rp, ri, now)
      modifies this`peers, this`slots, this`indices, this`timers, this`seals, this`outside
      ensures Inv(S(), None) && Sends(old(S()), S(), now)
      ensures Grows(old(outside), outside) && Signalled(old(outside), outside, Signal(p, response, ok))
      ensures ok <==> fate(old(outside).draws)
      ensures ok ==> SealedFor(old(S()), S(), rp)
    {
      ghost var s0 := S();
      ghost var o0 := outside;
      var rekey;
      ghost var replyBy;
      ok, rekey, replyBy := SealTransport(rp, ri, true, now);
      ghost var o1 := outside;
      Report(p, response, ok);
      if rekey {
        ghost var s1 := S();
        ghost var o2 := outside;
        EnsureDirectHandshake(rp, now);
        SealedStays(s0, s1, S(), rp, ri);
        SendsTransitive(s0, s1, S(), now);
        SignalStays(o0, o1, o2, outside, Signal(p, response, ok));
      }
    }

    /** Makes sure a handshake with `p` is in flight; only inability to start one leaves a known peer without. */
    method EnsureHandshake(p: nat, now: nat) returns (r: Staged)
      requires Inv(S(), None)
      modifies this`peers, this`slots, this`indices, this`timers, this`seals, this`outside
      ensures Inv(S(), None) && Sends(old(S()), S(), now)
      ensures !r.Unable? && HasPeer(old(S()), p) ==> InFlight(S(), p).Some?
      ensures r.NotNeeded? <==> !HasPeer(old(S()), p) || InFlight(old(S()), p).Some?
      ensures r.Started? <==> CanStart(old(S()), p, now) && fate(old(outside).draws)
      ensures Grows(old(outside), outside) && (r.Started? ==> Initiates(old(outside), outside, p))
    {
      ghost var s0 := S();
      ghost var o0 := outside;
      r := StageInitiation(p, now);
      if r.Started? {
        ghost var s1 := S();
        ghost var o1 := outside;
        assert InFlight(s1, p).Some?;
        var sent := TransmitWire(p, false, now);
        SendsTransitive(s0, s1, S(), now);
        SignalStays(o0, o1, outside, outside, Signal(p, false, sent));
      }
    }

    /**
     Encrypts a packet, or an empty keepalive, of peer `p` under its session in
     slot `i` and sends it directly or through the relay. Unless the outside
     fails, it goes out exactly when session and path permit.
     */
    method EncryptAndSend(p: nat, i: nat, data: bool, now: nat) returns (ok: bool)
      requires Inv(S(), None) && OwnSession(S(), p, i)
      modifies this`peers, this`slots, this`indices, this`timers, this`seals, this`outside
      ensures Inv(S(), None) && Sends(old(S()), S(), now)
      ensures OffersOne(old(outside), outside, Offer(p, i, data, ok))
      ensures ok <==> Sendable(old(S()), p, i, now) && Serves(fate, old(outside).draws, Relayed(old(S()), p))
      ensures ok ==> Carried(old(S()), S(), p, i, now)
      ensures ok && Relayed(old(S()), p) ==>
                && old(peers)[p].value.relay.value in old(byKey)
                && SealedFor(old(S()), S(), old(byKey)[old(peers)[p].value.relay.value])
      ensures ok && Triggers(old(slots)[i].session, now) ==>
                Rekeyed(old(S()), S(), p, now, fate(old(outside).draws + if Relayed(old(S()), p) then 2 else 1))
    {
      SendsReflexive(S(), now);
      ok := false;
      if p < |peers| && peers[p].Some? {
        var relay := peers[p].value.relay;
        if relay.Some? {
          ok := EncryptViaRelay(p, i, relay.value, data, now);
        } else if peers[p].value.endpoint {
          ok := EncryptDirect(p, i, data, now);
        }
      }
      outside := outside.(offers := outside.offers + [Offer(p, i, data, ok)]);
    }

    method EncryptDirect(p: nat, i: nat, data: bool, now: nat) returns (ok: bool)
      requires Inv(S(), None) && OwnSession(S(), p, i)
      modifies this`peers, this`slots, this`indices, this`timers, this`seals, this`outside
      ensures Inv(S(), None) && Sends(old(S()), S(), now) && Grows(old(outside), outside)
      ensures ok <==> CanSeal(old(S()), p, i, now) && fate(old(outside).draws)
      ensures ok ==> Carried(old(S()), S(), p, i, now)
      ensures ok && Triggers(old(slots)[i].session, now) ==>
                Rekeyed(old(S()), S(), p, now, fate(old(outside).draws + 1))
    {
      ghost var s0 := S();
      var rekey;
      ghost var replyBy;
      ok, rekey, replyBy := SealTransport(p, i, data, now);
      if rekey {
        ghost var s1 := S();
        SealedKeepsStart(s0, p, i, data, now, replyBy, p);
        var r := EnsureHandshake(p, now);
        CarriedStays(s0, s1, S(), p, i, now);
        SendsTransitive(s0, s1, S(), now);
      }
    }

    /** The packet is sealed end to end and then again for the hop to the relay. */
    method EncryptViaRelay(p: nat, i: nat, relay: nat, data: bool, now: nat) returns (ok: bool)
      requires Inv(S(), None) && OwnSession(S(), p, i) && HasPeer(S(), p) && peers[p].value.relay == Some(relay)
      modifies this`peers, this`slots, this`indices, this`timers, this`seals, this`outside
      ensures Inv(S(), None) && Sends(old(S()), S(), now) && Grows(old(outside), outside)
      ensures ok <==>
                && Path(old(S()), relay, now).Some? && CanSeal(old(S()), p, i, now)
                && Serves(fate, old(outside).draws, true)
      ensures ok ==> Carried(old(S()), S(), p, i, now) && relay in old(byKey)
                     && SealedFor(old(S()), S(), old(byKey)[relay])
      ensures ok && Triggers(old(slots)[i].session, now) ==>
                Rekeyed(old(S()), S(), p, now, fate(old(outside).draws + 2))
    {
      var path := RelayPath(relay, now);
      ok := false;
      if path.Some? {
        ok := EncryptThrough(p, i, path.value.0, path.value.1, data, now);
      }
    }

    method EncryptThrough(p: nat, i: nat, rp: nat, ri: nat, data: bool, now: nat) returns (ok: bool)
      requires Inv(S(), None) && OwnSession(S(), p, i) && OwnSession(S(), rp, ri)
      requires p != rp && CanSeal(S(), rp, ri, now)
      modifies this`peers, this`slots, this`indices, this`timers, this`seals, this`outside
      ensures Inv(S(), None) && Sends(old(S()), S(), now) && Grows(old(outside), outside)
      ensures ok <==> CanSeal(old(S()), p, i, now) && Serves(fate, old(outside).draws, true)
      ensures ok ==> Carried(old(S()), S(), p, i, now) && SealedFor(old(S()), S(), rp)
      ensures ok && Triggers(old(slots)[i].session, now) ==>
                Rekeyed(old(S()), S(), p, now, fate(old(outside).draws + 2))
    {
      ghost var s0 := S();
      var rekeyInner, rekeyOuter;
      ok, rekeyInner, rekeyOuter := SealTwice(p, i, rp, ri, data, now);
      if ok {
        ghost var s1 := S();
        Rekeys(p, rekeyInner, rp, rekeyOuter, now);
        CarriedStays(s0, s1, S(), p, i, now);
        SealedForStays(s0, s0, s1, S(), rp);
        SendsTransitive(s0, s1, S(), now);
      }
    }

    /** Both layers: the counter of the inner session is used even if the outer layer fails. */
    method SealTwice(p: nat, i: nat, rp: nat, ri: nat, data: bool, now: nat)
      returns (ok: bool, rekeyInner: bool, rekeyOuter: bool)
      requires Inv(S(), None) && OwnSession(S(), p, i) && OwnSession(S(), rp, ri)
      requires p != rp && CanSeal(S(), rp, ri, now)
      modifies this`peers, this`slots, this`timers, this`seals, this`outside
      ensures Inv(S(), None) && Sends(old(S()), S(), now) && Grows(old(outside), outside)
      ensures ok <==> CanSeal(old(S()), p, i, now) && Serves(fate, old(outside).draws, true)
      ensures ok ==> Carried(old(S()), S(), p, i, now) && SealedFor(old(S()), S(), rp)
      ensures ok ==> outside.draws == old(outside).draws + 2
      ensures ok ==> rekeyInner == Triggers(old(slots)[i].session, now) && SameStart(old(S()), S(), p, now)
    {
      rekeyOuter := false;
      ghost var s0 := S();
      ghost var replyBy;
      ok, rekeyInner, replyBy := SealTransport(p, i, data, now);
      if !ok {
        return;
      }
      ghost var s1 := S();
      SealedKeepsStart(s0, p, i, data, now, replyBy, p);
      StillOwn(s0, s1, rp, ri);
      assert s1.slots[ri] == s0.slots[ri];
      ok, rekeyOuter, replyBy := SealTransport(rp, ri, true, now);
      SendsTransitive(s0, s1, S(), now);
      if ok {
        SealedKeepsStart(s1, rp, ri, true, now, replyBy, p);
        CarriedStays(s0, s1, S(), p, i, now);
        SealedForStays(s0, s1, S(), S(), rp);
      }
    }

    /** The handshakes that the two seals asked for. */
    method Rekeys(p: nat, inner: bool, rp: nat, outer: bool, now: nat)
      requires Inv(S(), None)
      modifies this`peers, this`slots, this`indices, this`timers, this`seals, this`outside
      ensures Inv(S(), None) && Sends(old(S()), S(), now) && Grows(old(outside), outside)
      ensures inner ==> Rekeyed(old(S()), S(), p, now, fate(old(outside).draws))
    {
      ghost var s0 := S();
      SendsReflexive(s0, now);
      if inner {
        var r := EnsureHandshake(p, now);
      }
      if outer {
        ghost var s1 := S();
        EnsureDirectHandshake(rp, now);
        assert InFlight(s1, p).Some? ==> InFlight(S(), p) == InFlight(s1, p);
        SendsTransitive(s0, s1, S(), now);
      }
    }

    // -------------------------------------------------------------------
    // Parked packets
    // -------------------------------------------------------------------

    /** Parks a packet; a full pool replaces the packet closest to its deadline. */
    method Park(wait: Wait, deadline: nat) returns (ok: bool, ghost spot: nat)
      modifies this`pending
      ensures ok <==> |pending| > 0
      ensures |pending| == |old(pending)|
      ensures ok ==> ParkSpot(old(pending), spot) && pending == old(pending)[spot := Some(Parked(wait, deadline))]
    {
      spot := 0;
      var best: nat := 0;
      for j := 0 to |pending|
        invariant pending == old(pending)
        invariant forall k | 0 <= k < j :: pending[k].Some?
        invariant best == 0 || best < j
        invariant forall k | 0 <= k < j :: pending[best].value.deadline <= pending[k].value.deadline
      {
        if pending[j].None? {
          pending := pending[j := Some(Parked(wait, deadline))];
          return true, j;
        }
        if j > 0 && pending[j].value.deadline < pending[best].value.deadline {
          best := j;
        }
      }
      ok := |pending| > 0;
      if ok {
        spot := best;
        pending := pending[best := Some(Parked(wait, deadline))];
      }
    }

    /** Parks a packet and covers its deadline. */
    method ParkUntil(wait: Wait, deadline: nat, ghost now: nat) returns (ghost spot: nat)
      requires Inv(S(), None) && now < deadline
      modifies this`pending, this`timers
      ensures Inv(S(), None) && Evolves(old(S()), S(), now, 1)
      ensures AtMost(timers, deadline) && |pending| == |old(pending)|
      ensures forall w | w != wait :: Awaiting(pending, w) <= Awaiting(old(pending), w)
      ensures |pending| > 0 ==>
                ParkSpot(old(pending), spot) && pending == old(pending)[spot := Some(Parked(wait, deadline))]
      ensures HasRoom(old(pending)) ==> forall w | w != wait :: Awaiting(pending, w) == Awaiting(old(pending), w)
    {
      ghost var s0 := S();
      var ok;
      ok, spot := Park(wait, deadline);
      ArmTimer(deadline);
      AuxOk(s0, S(), None, now, 1);
      if HasRoom(s0.pending) {
        forall w | w != wait ensures Awaiting(pending, w) == Awaiting(s0.pending, w) {
          ParkedApart(s0.pending, spot, Parked(wait, deadline), w);
        }
      }
    }

    /** Removes the first packet waiting on `wait`. */
    method TakeIf(wait: Wait, ghost now: nat) returns (taken: bool, ghost spot: nat)
      requires Inv(S(), None)
      modifies this`pending
      ensures Inv(S(), None) && Sends(old(S()), S(), now)
      ensures taken ==>
                && spot < |old(pending)| && Awaits(old(pending)[spot], wait) && pending == old(pending)[spot := None]
                && (forall j | 0 <= j < spot :: !Awaits(old(pending)[j], wait))
                && Occupied(pending) < Occupied(old(pending))
                && Awaiting(pending, wait) == Awaiting(old(pending), wait) - {spot}
      ensures !taken ==> pending == old(pending) && forall j | 0 <= j < |pending| :: !Awaits(pending[j], wait)
    {
      for j := 0 to |pending|
        invariant pending == old(pending)
        invariant forall k | 0 <= k < j :: !Awaits(pending[k], wait)
      {
        if Awaits(pending[j], wait) {
          ghost var s0 := S();
          assert j in Occupied(pending) && j in Awaiting(pending, wait);
          pending := pending[j := None];
          assert j !in Occupied(pending) && j !in Awaiting(pending, wait);
          AuxOk(s0, S(), None, now, 1);
          assert forall p: nat :: InFlight(S(), p) == InFlight(s0, p);
          return true, j;
        }
      }
      SendsReflexive(S(), now);
      return false, 0;
    }

    /** Clears every place that holds a packet waiting on `wait`. */
    method DropParked(wait: Wait)
      modifies this`pending
      ensures pending == Dropped(old(pending), wait)
    {
      for j := 0 to |pending|
        invariant |pending| == |old(pending)|
        invariant forall k | 0 <= k < |pending| ::
                    pending[k] == if k < j && Awaits(old(pending)[k], wait) then None else old(pending)[k]
      {
        if Awaits(pending[j], wait) {
          pending := pending[j := None];
        }
      }
    }

    /** Drops every packet waiting on `wait`. */
    method DropIf(wait: Wait, ghost now: nat)
      requires Inv(S(), None)
      modifies this`pending
      ensures pending == Dropped(old(pending), wait)
      ensures Inv(S(), None) && Evolves(old(S()), S(), now, 1)
    {
      ghost var s0 := S();
      DropParked(wait);
      AuxOk(s0, S(), None, now, 1);
    }

    /** Drops one packet whose deadline has passed. */
    method ExpireParked(now: nat) returns (r: bool, ghost t: TimerId)
      requires Inv(S(), None)
      modifies this`pending
      ensures Inv(S(), None) && Evolves(old(S()), S(), now, 1)
      ensures r ==> IsDue(old(S()), t, now) && !IsDue(S(), t, now)
      ensures r ==> t.ParkTimer? && LookupActs(old(S()), S(), t, now, 0, 0)
      ensures !r ==> S() == old(S()) && forall j: nat :: !IsDue(S(), ParkTimer(j), now)
    {
      t := ParkTimer(0);
      for j := 0 to |pending|
        invariant pending == old(pending)
        invariant forall k: nat | k < j :: !IsDue(S(), ParkTimer(k), now)
      {
        if pending[j].Some? && pending[j].value.deadline <= now {
          ghost var s0 := S();
          assert IsDue(s0, ParkTimer(j), now);
          pending := pending[j := None];
          AuxOk(s0, S(), None, now, 1);
          return true, ParkTimer(j);
        }
      }
      EvolvesReflexive(S(), now, 1);
      return false, t;
    }

    // -------------------------------------------------------------------
    // Sending to a peer
    // -------------------------------------------------------------------

    /** Encrypts when a session is usable; otherwise parks the packet and makes sure a handshake runs. */
    method SendToPeer(p: nat, now: nat) returns (ok: bool)
      requires Inv(S(), None)
      modifies this`peers, this`slots, this`indices, this`timers, this`seals, this`outside, this`pending
      ensures Inv(S(), None) && Sends(old(S()), S(), now)
      ensures ok && old(UsableSession(p, now)).Some? ==> SealedUnder(old(S()), S(), p, old(UsableSession(p, now)).value)
      ensures ok && old(UsableSession(p, now)).None? && HasPeer(old(S()), p) ==> InFlight(S(), p).Some?
      ensures forall id :: Awaiting(pending, OnResolve(id)) <= Awaiting(old(pending), OnResolve(id))
      ensures HasRoom(old(pending)) ==>
                forall id :: Awaiting(pending, OnResolve(id)) == Awaiting(old(pending), OnResolve(id))
      ensures old(UsableSession(p, now)).None? && |pending| > 0 ==>
                exists j :: 0 <= j < |pending| && pending[j] == Some(Parked(OnHandshake(p), now + 90_000))
      ensures outside.onward == old(outside).onward
      ensures old(UsableSession(p, now)).Some? ==>
                && outside.offers == old(outside).offers + [Offer(p, old(UsableSession(p, now)).value, true, ok)]
                && pending == old(pending)
                && (ok <==> Sendable(old(S()), p, old(UsableSession(p, now)).value, now)
                            && Serves(fate, old(outside).draws, Relayed(old(S()), p)))
      ensures old(UsableSession(p, now)).None? ==> outside.offers == old(outside).offers
      ensures old(UsableSession(p, now)).None? && HasPeer(old(S()), p) ==>
                (ok <==> MayRun(old(S()), p, now, fate(old(outside).draws)))
    {
      var usable := UsableSession(p, now);
      if usable.Some? {
        ok := EncryptAndSend(p, usable.value, true, now);
      } else {
        ghost var s0 := S();
        ghost var spot := ParkUntil(OnHandshake(p), now + REKEY_ATTEMPT_TIME, now);
        ghost var s1 := S();
        assert forall q: nat :: InFlight(s1, q) == InFlight(s0, q);
        assert |pending| > 0 ==> pending[spot] == Some(Parked(OnHandshake(p), now + 90_000));
        SameParts(s0, s1, p, now);
        var staged := EnsureHandshake(p, now);
        ok := !staged.Unable?;
        SendsTransitive(s0, s1, S(), now);
      }
    }

    /**
     The initiator speaks first: everything parked for the peer goes out, or else
     a keepalive. A rekey on the way may take slot `i` away, but can never hand
     it to another peer's session.
     */
    method FlushParked(p: nat, i: nat, now: nat) returns (sent: bool)
      requires Inv(S(), None) && OwnSession(S(), p, i)
      modifies this`peers, this`slots, this`indices, this`timers, this`seals, this`outside, this`pending
      ensures Inv(S(), None) && Sends(old(S()), S(), now)
      ensures var n := |Awaiting(old(pending), OnHandshake(p))|;
              SpeaksFirst(old(S()), S(), old(outside), outside, p, i, n, now, fate)
      ensures sent <==> AnyOk(outside.offers, |old(outside).offers|, |outside.offers|)
    {
      ghost var s0 := S();
      ghost var o0 := outside;
      ghost var k := |o0.offers|;
      SendsReflexive(s0, now);
      sent := false;
      while true
        invariant Inv(S(), None) && Sends(s0, S(), now)
        invariant sent ==> SealedFor(s0, S(), p)
        invariant OffersMade(o0, outside, p, i)
        invariant sent <==> AnyOk(outside.offers, k, |outside.offers|)
        invariant |outside.offers| - k + |Awaiting(pending, OnHandshake(p))| == |Awaiting(s0.pending, OnHandshake(p))|
        invariant FirstOffer(s0, S(), o0, outside, p, i, now, fate)
        decreases Occupied(pending)
      {
        var taken;
        taken, sent := FlushOne(p, i, now, s0, sent, o0);
        if !taken {
          break;
        }
      }
      NoneAwaiting(pending, OnHandshake(p));
      ghost var o1 := outside;
      if !sent {
        sent := SendOne(p, i, false, now, s0, sent, o0);
      }
      FlushDone(o0, o1, outside, p, i);
    }

    /** The first packet parked for the peer, if there is one, in a flush that began in state `s0` with `o0`. */
    method FlushOne(p: nat, i: nat, now: nat, ghost s0: State, before: bool, ghost o0: Outside)
      returns (taken: bool, sent: bool)
      requires Inv(S(), None) && OwnSession(s0, p, i) && Sends(s0, S(), now) && (before ==> SealedFor(s0, S(), p))
      requires o0.offers <= outside.offers && FirstOffer(s0, S(), o0, outside, p, i, now, fate)
      requires before <==> AnyOk(outside.offers, |o0.offers|, |outside.offers|)
      modifies this`peers, this`slots, this`indices, this`timers, this`seals, this`outside, this`pending
      ensures Inv(S(), None) && Sends(s0, S(), now)
      ensures sent ==> SealedFor(s0, S(), p)
      ensures sent <==> AnyOk(outside.offers, |o0.offers|, |outside.offers|)
      ensures FirstOffer(s0, S(), o0, outside, p, i, now, fate)
      ensures taken ==>
                && (exists ok :: outside.offers == old(outside).offers + [Offer(p, i, true, ok)])
                && Occupied(pending) < Occupied(old(pending))
                && |Awaiting(pending, OnHandshake(p))| + 1 == |Awaiting(old(pending), OnHandshake(p))|
      ensures !taken ==>
                && outside == old(outside) && pending == old(pending)
                && forall j | 0 <= j < |pending| :: !Awaits(pending[j], OnHandshake(p))
    {
      ghost var s1 := S();
      ghost var spot;
      sent := before;
      taken, spot := TakeIf(OnHandshake(p), now);
      SendsTransitive(s0, s1, S(), now);
      if taken {
        sent := SendOne(p, i, true, now, s0, before, o0);
      }
    }

    /** One message of a flush that began in state `s0` with `o0`. */
    method SendOne(p: nat, i: nat, data: bool, now: nat, ghost s0: State, before: bool, ghost o0: Outside)
      returns (sent: bool)
      requires Inv(S(), None) && OwnSession(s0, p, i) && Sends(s0, S(), now) && (before ==> SealedFor(s0, S(), p))
      requires o0.offers <= outside.offers && FirstOffer(s0, S(), o0, outside, p, i, now, fate)
      requires before <==> AnyOk(outside.offers, |o0.offers|, |outside.offers|)
      modifies this`peers, this`slots, this`indices, this`timers, this`seals, this`outside
      ensures Inv(S(), None) && Sends(s0, S(), now)
      ensures sent ==> SealedFor(s0, S(), p)
      ensures exists ok :: outside.offers == old(outside).offers + [Offer(p, i, data, ok)]
      ensures sent <==> AnyOk(outside.offers, |o0.offers|, |outside.offers|)
      ensures FirstOffer(s0, S(), o0, outside, p, i, now, fate)
    {
      ghost var s1 := S();
      ghost var o1 := outside;
      StillOwn(s0, s1, p, i);
      var ok := EncryptAndSend(p, i, data, now);
      SendsTransitive(s0, s1, S(), now);
      if before {
        SealedForStays(s0, s0, s1, S(), p);
      } else if ok {
        CarriedIsFor(s1, S(), p, i, now);
        SealedForStays(s0, s1, S(), S(), p);
      }
      sent := before || ok;
      OneMoreOffer(o0.offers, o1.offers, Offer(p, i, data, ok));
    }

    // -------------------------------------------------------------------
    // Handshake messages
    // -------------------------------------------------------------------

    /** Puts the responder's new session into slot `i`, replacing the wire index of the session it supersedes. */
    method InstallResponder(p: nat, i: nat, x: Session)
      requires HasPeer(S(), p) && i < |slots| && x.localIndex !in indices && (slots[i].Free? ==> |indices| < |slots|)
      modifies this`peers, this`slots, this`indices, this`timers, this`keys
      ensures S() == Responded(old(S()), p, i, x)
    {
      if slots[i].Free? {
        var inserted := InsertIndex(x.localIndex, i);
      } else {
        indices := (indices - {Index(slots[i])})[x.localIndex := i];
      }
      slots := slots[i := Established(x)];
      keys := keys + 1;
      ArmTimer(x.created + REJECT_AFTER_TIME);
      peers := peers[p := Some(Heard(peers[p].value, x.created).(next := Some(i)))];
    }

    /**
     A slot and an unused wire index for the responder: the peer's unconfirmed session
     gives up its own slot first.
     */
    method ResponderSlot(p: nat, now: nat) returns (r: Option<(nat, nat)>)
      requires Inv(S(), None) && HasPeer(S(), p)
      modifies this`peers, this`slots, this`indices
      ensures Inv(S(), None) && Evolves(old(S()), S(), now, 1) && HasPeer(S(), p)
      ensures r.Some? ==>
                r.value.0 < |slots| && r.value.1 !in indices && peers[p].value.next == old(peers)[p].value.next
      ensures r.Some? ==>
                peers[p].value.next == Some(r.value.0) || (peers[p].value.next.None? && slots[r.value.0].Free?)
      ensures old(peers)[p].value.next.Some? ==> S() == old(S())
      ensures r.Some? <==> old(peers)[p].value.next.Some? || CanTake(old(S()), now)
    {
      EvolvesReflexive(S(), now, 1);
      var replacement := peers[p].value.next;
      var i := 0;
      if replacement.Some? {
        i := replacement.value;
        assert PeerOk(S(), p);
      } else {
        ghost var s0 := S();
        var slot := TakeSlot(now);
        if slot.None? {
          return None;
        }
        i := slot.value;
        FreedPeers(s0, i, p);
      }
      var index := RandomUnused();
      r := Some((i, index));
    }

    /** Creates the responder's session under a new key and makes it the peer's unconfirmed one. */
    method CommitResponder(p: nat, i: nat, index: nat, now: nat)
      requires Inv(S(), None) && HasPeer(S(), p) && i < |slots| && index !in indices
      requires peers[p].value.next == Some(i) || (peers[p].value.next.None? && slots[i].Free?)
      modifies this`peers, this`slots, this`indices, this`timers, this`keys
      ensures Inv(S(), None) && Evolves(old(S()), S(), now, 1)
      ensures keys == old(keys) + 1 && Responding(S(), p, old(keys), now)
    {
      var rekeyAfter: nat := *;
      var x := Session(p, keys, 0, index, Responder, now, rekeyAfter, false, false);
      RespondedOk(S(), p, i, x, now);
      if slots[i].Free? {
        IndexRoom(S(), i, None);
      }
      InstallResponder(p, i, x);
    }

    /**
     Answers an authenticated initiation of peer `p`: `installed` is the state in
     which the new session is in place and the response is about to be sent. A
     failure leaves the superseded session usable.
     */
    method RespondToInitiation(p: nat, now: nat) returns (ok: bool, ghost installed: State)
      requires Inv(S(), None)
      modifies this`peers, this`slots, this`indices, this`timers, this`keys, this`seals, this`outside
      ensures Inv(S(), None) && Evolves(old(S()), S(), now, 1)
      ensures ok ==> keys == old(keys) + 1 && Responding(installed, p, old(keys), now) && Sends(installed, S(), now)
      ensures ok && installed.peers[p].value.relay.None? ==> S() == installed
      ensures ok <==> CanReply(old(S()), p, now) && fate(old(outside).draws)
      ensures Grows(old(outside), outside) && (ok ==> Responds(old(outside), outside, p))
      ensures !ok && HasPeer(old(S()), p) && old(peers)[p].value.next.Some? ==> S() == old(S())
    {
      ok, installed := false, S();
      EvolvesReflexive(S(), now, 1);
      if p >= |peers| || peers[p].None? {
        return;
      }
      ghost var s0 := S();
      var place := ResponderSlot(p, now);
      if place.Some? {
        ok := Draw();
      }
      if ok {
        ghost var s1 := S();
        installed := SendResponse(p, place.value.0, place.value.1, now);
        EvolvesTransitive(s0, s1, S(), now, 1);
      }
    }

    /** Installs the responder's session, and only then lets the response out. */
    method SendResponse(p: nat, i: nat, index: nat, now: nat) returns (ghost installed: State)
      requires Inv(S(), None) && HasPeer(S(), p) && i < |slots| && index !in indices
      requires peers[p].value.next == Some(i) || (peers[p].value.next.None? && slots[i].Free?)
      modifies this`peers, this`slots, this`indices, this`timers, this`keys, this`seals, this`outside
      ensures Inv(S(), None) && Evolves(old(S()), S(), now, 1)
      ensures keys == old(keys) + 1 && Responding(installed, p, old(keys), now) && Sends(installed, S(), now)
      ensures installed.peers[p].value.relay.None? ==> S() == installed
      ensures Grows(old(outside), outside) && Responds(old(outside), outside, p)
    {
      ghost var s0 := S();
      CommitResponder(p, i, index, now);
      installed := S();
      var sent := TransmitWire(p, true, now);
      EvolvesTransitive(s0, installed, S(), now, 1);
    }

    /**
     Turns the initiating slot into the current session; the old current is kept as
     previous, the old previous freed.
     */
    method AcceptResponse(p: nat, i: nat, x: Session)
      requires Inv(S(), None) && CanAnswer(S(), p, i, x)
      modifies this`peers, this`slots, this`indices, this`timers, this`keys
      ensures S() == FreedOpt(Answered(old(S()), p, i, x), old(peers)[p].value.previous)
      ensures Rotation(old(S()), S(), p, i) && i < |slots| && slots[i] == Established(x)
      ensures peers[p].value.relay.None? ==> peers[p].value.endpoint
      ensures Inv(S(), None) && Evolves(old(S()), S(), x.created, 1)
    {
      ghost var s0 := S();
      AnsweredOk(s0, p, i, x, x.created);
      assert PeerOk(s0, p);
      AnsweredRotates(s0, p, i, x);
      AnsweredReaches(s0, p, i, x);
      var y := peers[p].value;
      peers := peers[p := Some(Rotated(Heard(y, x.created), i).(handshake := None, attemptDeadline := None))];
      slots := slots[i := Established(x)];
      keys := keys + 1;
      ArmTimer(x.created + REJECT_AFTER_TIME);
      ghost var s1 := S();
      assert s1 == Answered(s0, p, i, x);
      if y.previous.Some? {
        var ok := FreeSlot(y.previous.value, y.previous, x.created);
        EvolvesTransitive(s0, s1, S(), x.created, 1);
      }
    }

    /**
     A handshake response addressed to wire index `index`: `rotated` is the state
     in which the new session is current and the flush is about to begin.
     */
    method RxResponse(index: nat, authentic: bool, now: nat) returns (ok: bool, ghost rotated: State)
      requires Inv(S(), None)
      modifies this`peers, this`slots, this`indices, this`timers, this`keys, this`seals, this`outside, this`pending
      ensures Inv(S(), None) && Evolves(old(S()), S(), now, 1)
      ensures ok <==> authentic && AwaitsResponse(old(S()), index)
      ensures ok ==> AnswersHandshake(old(S()), rotated, index, now)
      ensures ok ==> keys == old(keys) + 1 && Sends(rotated, S(), now)
      ensures ok ==>
                var i := old(indices)[index];
                var p := old(slots)[i].peer;
                var n := |Awaiting(old(pending), OnHandshake(p))|;
                && CanSeal(rotated, p, i, now) && (!Relayed(rotated, p) ==> Sendable(rotated, p, i, now))
                && SpeaksFirst(rotated, S(), old(outside), outside, p, i, n, now, fate)
      ensures !ok ==> S() == old(S()) && outside == old(outside)
    {
      rotated := S();
      ghost var s0 := S();
      EvolvesReflexive(s0, now, 1);
      if index !in indices {
        return false, rotated;
      }
      var i := indices[index];
      assert IndexOk(s0, index) && SlotOk(s0, i, None);
      if !authentic || !slots[i].Initiating? {
        return false, rotated;
      }
      var p := slots[i].peer;
      var rekeyAfter: nat := *;
      ghost var key := keys;
      AcceptResponse(p, i, Session(p, keys, 0, index, Initiator, now, rekeyAfter, true, false));
      rotated := S();
      var sent := FlushParked(p, i, now);
      EvolvesTransitive(s0, rotated, S(), now, 1);
      return true, rotated;
    }

    // -------------------------------------------------------------------
    // Transport data
    // -------------------------------------------------------------------

    /** First authenticated data on the responder's unconfirmed session makes it current. */
    method Confirm(p: nat, i: nat) returns (orphan: Option<nat>)
      requires HasPeer(S(), p) && i < |slots| && slots[i].Established?
      modifies this`peers, this`slots
      ensures S() == Confirmed(old(S()), p, i) && orphan == old(peers)[p].value.previous
    {
      orphan := peers[p].value.previous;
      peers := peers[p := Some(Rotated(peers[p].value, i).(next := None))];
      slots := slots[i := Established(slots[i].session.(confirmed := true))];
    }

    /** Receiving from a peer: a reply is no longer awaited, and data wants an answer within the keepalive time. */
    method NoteReceived(p: nat, data: bool, now: nat)
      requires HasPeer(S(), p)
      modifies this`peers, this`timers
      ensures S() == Received(old(S()), p, data, now)
    {
      var x := peers[p].value;
      var persistentDue := if x.persistent.Some? then Some(now + x.persistent.value) else None;
      var keepaliveDue := if data then Some(now + KEEPALIVE_TIMEOUT) else x.keepaliveDue;
      var y := Heard(x, now).(replyDue := None, persistentDue := persistentDue, keepaliveDue := keepaliveDue);
      peers := peers[p := Some(y)];
      if data {
        ArmTimer(now + KEEPALIVE_TIMEOUT);
      }
      if persistentDue.Some? {
        ArmTimer(persistentDue.value);
      }
    }

    /** Marks the session as already asking for a rekey. */
    method MarkTriggered(i: nat, ghost now: nat)
      requires Inv(S(), None) && i < |slots|
      modifies this`slots
      ensures Inv(S(), None) && Evolves(old(S()), S(), now, 1)
      ensures S() == Triggered(old(S()), i)
    {
      ghost var s0 := S();
      EvolvesReflexive(s0, now, 1);
      if slots[i].Established? {
        var y := slots[i].session.(rekeyTriggered := true);
        slots := slots[i := Established(y)];
        SessionKeepsKeys(s0, i, y);
        SessionKeepsTables(s0, S(), i, y);
        SessionEvolves(s0, S(), i, y, now);
      }
    }

    /** An authenticated, fresh transport message on wire index `index`; `data` says that it is not a keepalive. */
    method RxData(index: nat, data: bool, authentic: bool, now: nat) returns (ok: bool)
      requires Inv(S(), None)
      modifies this`peers, this`slots, this`indices, this`timers, this`keys, this`seals, this`outside
      ensures Inv(S(), None) && Evolves(old(S()), S(), now, 1)
      ensures !ok ==> S() == old(S())
      ensures ok <==>
                && authentic && index in old(indices) && old(indices)[index] < |old(slots)|
                && old(slots)[old(indices)[index]].Established? && !TooOld(old(slots)[old(indices)[index]], now)
      ensures ok ==>
                var i := old(indices)[index];
                var p := old(slots)[i].session.peer;
                && HasPeer(old(S()), p)
                && var delivered := Delivered(old(S()), p, i, data, now);
                && Evolves(delivered, S(), now, 1)
                && (old(peers)[p].value.next == Some(i) ==> Rotation(old(S()), delivered, p, i))
                && (NearEnd(old(slots)[i].session, now) ==>
                      Rekeyed(Triggered(delivered, i), S(), p, now, fate(old(outside).draws)))
                && (!NearEnd(old(slots)[i].session, now) ==> S() == delivered)
    {
      ghost var s0 := S();
      EvolvesReflexive(s0, now, 1);
      if index !in indices {
        return false;
      }
      var i := indices[index];
      assert IndexOk(s0, index) && SlotOk(s0, i, None);
      if !authentic || !slots[i].Established? || SaturatingSub(now, slots[i].session.created) >= REJECT_AFTER_TIME {
        return false;
      }
      var x := slots[i].session;
      ReceiveOn(x.peer, i, data, now);
      ghost var s1 := S();
      RekeyNearEnd(x.peer, i, x, now);
      EvolvesTransitive(s0, s1, S(), now, 1);
      return true;
    }

    /** The session `x` in slot `i`, as it was when it received, asks for a rekey once before it ends. */
    method RekeyNearEnd(p: nat, i: nat, x: Session, now: nat)
      requires Inv(S(), None) && i < |slots|
      modifies this`peers, this`slots, this`indices, this`timers, this`seals, this`outside
      ensures Inv(S(), None) && Evolves(old(S()), S(), now, 1)
      ensures NearEnd(x, now) ==>
                Rekeyed(Triggered(old(S()), i), S(), p, now, fate(old(outside).draws))
      ensures !NearEnd(x, now) ==> S() == old(S())
    {
      ghost var s0 := S();
      EvolvesReflexive(s0, now, 1);
      var age := SaturatingSub(now, x.created);
      if x.role.Initiator? && !x.rekeyTriggered && age >= REJECT_AFTER_TIME - KEEPALIVE_TIMEOUT - REKEY_TIMEOUT {
        MarkTriggered(i, now);
        ghost var s1 := S();
        var r := EnsureHandshake(p, now);
        EvolvesTransitive(s0, s1, S(), now, 1);
      }
    }

    /** Confirmation and rotation, the peer's timers, and freeing the superseded generation. */
    method ReceiveOn(p: nat, i: nat, data: bool, now: nat)
      requires Inv(S(), None) && HasPeer(S(), p) && i < |slots| && slots[i].Established?
      modifies this`peers, this`slots, this`indices, this`timers
      ensures S() == Delivered(old(S()), p, i, data, now)
      ensures old(peers)[p].value.next == Some(i) ==> Rotation(old(S()), S(), p, i)
      ensures Inv(S(), None) && Evolves(old(S()), S(), now, 1)
    {
      DeliveredOk(S(), p, i, data, now);
      assert PeerOk(S(), p);
      if peers[p].value.next == Some(i) {
        DeliveredRotates(S(), p, i, data, now);
      }
      var orphan := None;
      if peers[p].value.next == Some(i) {
        orphan := Confirm(p, i);
      }
      NoteReceived(p, data, now);
      if orphan.Some? {
        var ok := FreeSlot(orphan.value, orphan, now);
      }
    }

    /** Retransmits with a fresh ephemeral, or abandons the attempt when the message cannot be rebuilt. */
    method RetransmitInitiation(p: nat, i: nat, now: nat)
      requires Inv(S(), None) && IsInitiating(S(), i, p)
      modifies this`peers, this`slots, this`indices, this`timers, this`seals, this`outside
      ensures Inv(S(), None) && Evolves(old(S()), S(), now, 1)
      ensures !IsDue(S(), SlotTimer(i), now)
      ensures Rebuilt(old(S()), S(), p, i, now, fate(old(outside).draws))
      ensures Grows(old(outside), outside)
      ensures Reachable(old(S()), p) && fate(old(outside).draws) ==> Initiates(old(outside), outside, p)
    {
      ghost var s0 := S();
      ghost var o0 := outside;
      assert SlotOk(s0, i, None);
      var built := BuildInitiation(p, i, now);
      ghost var s1 := S();
      ghost var o1 := outside;
      if built {
        var sent := TransmitWire(p, false, now);
        EvolvesTransitive(s0, s1, S(), now, 1);
        SignalStays(o0, o1, outside, outside, Signal(p, false, sent));
        assert SameSession(s1.slots[i], slots[i]) && InFlight(s1, p) == Some(i);
        assert TimerMoved(s1, S(), SlotTimer(i), now, 1);
      } else {
        var ok := FreeSlot(i, None, now);
      }
    }

    // -------------------------------------------------------------------
    // Peers
    // -------------------------------------------------------------------

    /** Installs a peer into an empty place of the table, unless its key is already known. */
    method InstallPeer(p: nat, publicKey: nat, pinned: bool, endpoint: bool, relay: Option<nat>,
                       interval: Option<nat>, now: nat)
      returns (ok: bool)
      requires Inv(S(), None) && (pinned ==> publicKey !in admitted)
      modifies this`peers, this`byKey, this`timers, this`admitted
      ensures ok <==> p < |old(peers)| && old(peers)[p].None? && publicKey !in old(byKey)
      ensures ok ==> S() == Installed(old(S()), p, NewPeer(publicKey, pinned, endpoint, relay, interval, now))
      ensures !ok ==> S() == old(S())
      ensures Inv(S(), None) && Evolves(old(S()), S(), now, 1)
    {
      EvolvesReflexive(S(), now, 1);
      if p >= |peers| || peers[p].Some? || publicKey in byKey {
        return false;
      }
      var x := NewPeer(publicKey, pinned, endpoint, relay, interval, now);
      InstalledOk(S(), p, x, now);
      PlacePeer(p, x);
      return true;
    }

    method PlacePeer(p: nat, x: Peer)
      requires p < |peers|
      modifies this`peers, this`byKey, this`timers, this`admitted
      ensures S() == Installed(old(S()), p, x)
    {
      admitted := if x.pinned then admitted else admitted + {x.publicKey};
      byKey := byKey[x.publicKey := p];
      peers := peers[p := Some(x)];
      if x.persistentDue.Some? {
        ArmTimer(x.persistentDue.value);
      }
    }

    /** A resolver record replaces a held peer's endpoint, relay and persistent keepalive; sessions are untouched. */
    method RefreshPeer(p: nat, x: Record, now: nat)
      requires Inv(S(), None) && HasPeer(S(), p)
      modifies this`peers, this`timers
      ensures S() == WithRecord(old(S()), p, x.endpoint, x.relay, NonZero(x.interval), now)
      ensures var y := Refreshed(old(peers)[p].value, x.endpoint, x.relay, NonZero(x.interval), now);
              peers == old(peers)[p := Some(y)]
      ensures Inv(S(), None) && Evolves(old(S()), S(), now, 1)
    {
      WithRecordOk(S(), p, x.endpoint, x.relay, NonZero(x.interval), now);
      CommitRecord(p, x.endpoint, x.relay, NonZero(x.interval), now);
    }

    /** The same for callers that only care what the peer then carries. */
    method ApplyRecord(p: nat, x: Record, now: nat)
      requires Inv(S(), None) && HasPeer(S(), p)
      modifies this`peers, this`timers
      ensures HasPeer(S(), p) && Carries(old(peers)[p].value, peers[p].value, x.endpoint, x.relay, NonZero(x.interval))
      ensures Inv(S(), None) && Evolves(old(S()), S(), now, 1)
    {
      assert PeerOk(S(), p);
      RefreshedCarries(peers[p].value, x.endpoint, x.relay, NonZero(x.interval), now);
      RefreshPeer(p, x, now);
    }

    method CommitRecord(p: nat, endpoint: bool, relay: Option<nat>, persistent: Option<nat>, now: nat)
      requires HasPeer(S(), p)
      modifies this`peers, this`timers
      ensures S() == WithRecord(old(S()), p, endpoint, relay, persistent, now)
      ensures peers == old(peers)[p := Some(Refreshed(old(peers)[p].value, endpoint, relay, persistent, now))]
    {
      var x := peers[p].value;
      peers := peers[p := Some(Refreshed(x, endpoint, relay, persistent, now))];
      if x.persistent != persistent && persistent.Some? {
        ArmTimer(now + persistent.value);
      }
    }

    /** Frees the slots named by the generation fields; they are exactly the slots the peer owns. */
    method ReleaseSlots(fields: seq<Option<nat>>, ghost s0: State, ghost p: nat)
      requires Tables(s0, None) && HasPeer(s0, p) && slots == s0.slots && indices == s0.indices
      requires var x := s0.peers[p].value; fields == [x.current, x.previous, x.next, x.handshake]
      modifies this`slots, this`indices
      ensures slots == Evicted(s0, p).slots && indices == Evicted(s0, p).indices
    {
      assert forall k | 0 <= k < |fields| && fields[k].Some? :: fields[k].value < |s0.slots| by {
        assert PeerOk(s0, p);
      }
      for k := 0 to |fields|
        invariant |slots| == |s0.slots|
        invariant forall j | 0 <= j < |slots| :: slots[j] == if Some(j) in fields[..k] then Free else s0.slots[j]
        invariant forall x :: x in indices <==> x in s0.indices && Some(s0.indices[x]) !in fields[..k]
        invariant forall x | x in indices :: indices[x] == s0.indices[x]
      {
        assert fields[..k + 1] == fields[..k] + [fields[k]];
        if fields[k].Some? {
          assert SlotOk(s0, fields[k].value, None);
          ReleaseOne(fields[k].value, s0);
        }
      }
      assert fields[..|fields|] == fields;
      ReleasedIsEvicted(s0, p, fields, slots, indices);
    }

    /** Drops the contents of slot `i` and its wire index. */
    method ReleaseOne(i: nat, ghost s0: State)
      requires Tables(s0, None) && i < |s0.slots| && |slots| == |s0.slots|
                && (slots[i] == s0.slots[i] || slots[i].Free?)
      requires slots[i].Free? && !s0.slots[i].Free? ==> Index(s0.slots[i]) !in indices
      modifies this`slots, this`indices
      ensures slots == old(slots)[i := Free]
      ensures forall x :: x in indices <==> x in old(indices) && !(x in s0.indices && s0.indices[x] == i)
      ensures forall x | x in indices :: indices[x] == old(indices)[x]
    {
      assert SlotOk(s0, i, None);
      forall x | x in s0.indices && s0.indices[x] == i ensures !s0.slots[i].Free? && x == Index(s0.slots[i]) {
        assert IndexOk(s0, x);
      }
      if !slots[i].Free? {
        indices := indices - {Index(slots[i])};
        slots := slots[i := Free];
      }
    }

    /** Removes a peer with everything it holds. */
    method EvictPeer(p: nat, now: nat) returns (ok: bool)
      requires Inv(S(), None)
      modifies this`peers, this`byKey, this`slots, this`indices, this`pending
      ensures ok && (HasPeer(old(S()), p) ==> S() == Evicted(old(S()), p))
      ensures !HasPeer(old(S()), p) ==> S() == old(S())
      ensures Inv(S(), None) && Evolves(old(S()), S(), now, 1)
    {
      EvolvesReflexive(S(), now, 1);
      if p >= |peers| || peers[p].None? {
        return true;
      }
      ghost var s0 := S();
      EvictedOk(s0, p, now);
      assert PeerOk(s0, p);
      var x := peers[p].value;
      var fields := [x.current, x.previous, x.next, x.handshake];
      ok := byKey[x.publicKey] == p;
      if ok {
        byKey := byKey - {x.publicKey};
        peers := peers[p := None];
        ReleaseSlots(fields, s0, p);
        DropParked(OnHandshake(p));
      }
    }

    // -------------------------------------------------------------------
    // Resolver bookkeeping
    // -------------------------------------------------------------------

    /** An identifier that no lookup in flight carries. */
    method AllocResolveId() returns (id: nat)
      modifies this`nextResolveId
      ensures id !in resolves && old(nextResolveId) <= id < nextResolveId
    {
      while nextResolveId in resolves
        invariant old(nextResolveId) <= nextResolveId
        decreases set k | k in resolves && k >= nextResolveId
      {
        ghost var above := set k | k in resolves && k >= nextResolveId;
        assert nextResolveId in above;
        nextResolveId := nextResolveId + 1;
        assert (set k | k in resolves && k >= nextResolveId) < above;
      }
      id := nextResolveId;
      nextResolveId := nextResolveId + 1;
    }

    /** Appends to the resolve table when it has room, and covers the new deadline. */
    method TryPushResolve(id: nat, x: Resolve, ghost now: nat, ghost slack: nat) returns (ok: bool)
      requires Ready() && id !in resolves && id < nextResolveId && now + slack <= x.deadline
      modifies this`resolves, this`timers
      ensures Ready() && Evolves(old(S()), S(), now, slack)
      ensures ok <==> |old(resolves)| < maxInflight
      ensures resolves == if ok then old(resolves)[id := x] else old(resolves)
      ensures !ok ==> S() == old(S())
    {
      ghost var s0 := S();
      EvolvesReflexive(s0, now, slack);
      ok := |resolves| < maxInflight;
      if ok {
        resolves := resolves[id := x];
        ArmTimer(x.deadline);
        ResolvesOk(s0, resolves, timers, now, slack);
      }
    }

    /** The negative marker that expires soonest. */
    method SoonestNegative() returns (r: Option<nat>)
      ensures r.Some? ==> r.value in resolves && resolves[r.value].kind.Negative?
      ensures r.Some? ==> forall k | k in resolves && resolves[k].kind.Negative? ::
                resolves[r.value].deadline <= resolves[k].deadline
      ensures r.None? ==> forall k | k in resolves :: !resolves[k].kind.Negative?
    {
      r := None;
      var todo := resolves.Keys;
      while todo != {}
        invariant todo <= resolves.Keys
        invariant r.Some? ==> r.value in resolves && resolves[r.value].kind.Negative?
        invariant forall k | k in resolves && k !in todo && resolves[k].kind.Negative? ::
                    r.Some? && resolves[r.value].deadline <= resolves[k].deadline
        decreases todo
      {
        var k :| k in todo;
        todo := todo - {k};
        if resolves[k].kind.Negative? && (r.None? || resolves[k].deadline < resolves[r.value].deadline) {
          r := Some(k);
        }
      }
    }

    /**
     Adds a live lookup. Negative markers never deny it a place: it is refused
     only when every entry is live, and no live entry is ever displaced.
     */
    method PushResolve(id: nat, x: Resolve, ghost now: nat) returns (ok: bool)
      requires Ready() && id !in resolves && id < nextResolveId && now < x.deadline
      modifies this`resolves, this`timers
      ensures Ready() && Evolves(old(S()), S(), now, 1)
      ensures ok <==> !FullOfLive(old(resolves), maxInflight)
      ensures |old(resolves)| < maxInflight ==> resolves == old(resolves)[id := x]
      ensures ok ==> id in resolves && resolves[id] == x
      ensures forall k | k in old(resolves) && !old(resolves)[k].kind.Negative? ::
                k in resolves && resolves[k] == old(resolves)[k]
      ensures forall k | k in resolves && k != id :: k in old(resolves) && resolves[k] == old(resolves)[k]
      ensures !ok ==> S() == old(S())
    {
      ok := TryPushResolve(id, x, now, 1);
      if ok {
        return;
      }
      var victim := SoonestNegative();
      if victim.Some? {
        Displace(victim.value, id, x, now);
        ok := true;
      }
    }

    /** A live lookup takes the place of a marker in a full table. */
    method Displace(marker: nat, id: nat, x: Resolve, ghost now: nat)
      requires Ready() && marker in resolves && id !in resolves && id < nextResolveId && now < x.deadline
      modifies this`resolves, this`timers
      ensures Ready() && Evolves(old(S()), S(), now, 1) && resolves == (old(resolves) - {marker})[id := x]
    {
      ghost var s0 := S();
      KeepResolves(resolves - {marker}, now);
      ghost var s1 := S();
      RemovedSize(s0.resolves, marker);
      var ok := TryPushResolve(id, x, now, 1);
      EvolvesTransitive(s0, s1, S(), now, 1);
    }

    /** Narrows the resolve table to some of its entries. */
    method KeepResolves(kept: map<nat, Resolve>, ghost now: nat)
      requires Ready() && forall k | k in kept :: k in resolves && kept[k] == resolves[k]
      modifies this`resolves
      ensures S() == old(S()).(resolves := kept)
      ensures Ready() && Evolves(old(S()), S(), now, 1)
    {
      ResolvesOk(S(), kept, timers, now, 1);
      SubmapSize(kept, resolves);
      resolves := kept;
    }

    /**
     Records an authoritative "no such peer" in place of all entries for the target; markers are
     skipped when the table is full.
     */
    method MarkNegative(query: Query, now: nat)
      requires Ready()
      modifies this`resolves, this`timers, this`nextResolveId
      ensures Ready() && Evolves(old(S()), S(), now, Slack())
      ensures MarkerAdded(Without(old(resolves), query), resolves, query, now + negativeTtl, maxInflight,
                          old(nextResolveId))
    {
      ghost var s0 := S();
      KeepResolves(Without(resolves, query), now);
      ghost var s1 := S();
      EvolvesRelaxed(s0, s1, now, Slack());
      PushMarker(query, now);
      EvolvesTransitive(s0, s1, S(), now, Slack());
    }

    method PushMarker(query: Query, now: nat)
      requires Ready()
      modifies this`resolves, this`timers, this`nextResolveId
      ensures Ready() && Evolves(old(S()), S(), now, Slack())
      ensures MarkerAdded(old(resolves), resolves, query, now + negativeTtl, maxInflight, old(nextResolveId))
    {
      var id := AllocResolveId();
      var ok := TryPushResolve(id, Resolve(query, Negative, now + negativeTtl), now, Slack());
    }

    /** Drops the negative marker of a target that just resolved; live lookups stay. */
    method ClearNegative(query: Query, ghost now: nat)
      requires Ready()
      modifies this`resolves
      ensures Ready() && Evolves(old(S()), S(), now, 1)
      ensures resolves == map k | k in old(resolves) && !IsMarker(old(resolves)[k], query) :: old(resolves)[k]
    {
      KeepResolves(map k | k in resolves && !IsMarker(resolves[k], query) :: resolves[k], now);
    }

    /** Asks who owns `key`, unless suppressed, over budget or out of places. */
    method QueuePeerInstall(key: nat, budget: bool, now: nat) returns (r: Option<nat>)
      requires Ready()
      modifies this`resolves, this`timers, this`nextResolveId
      ensures Ready() && Evolves(old(S()), S(), now, 1)
      ensures r.Some? <==>
                !Suppressed(old(resolves), ByKey(key), now) && budget && !FullOfLive(old(resolves), maxInflight)
      ensures r.Some? ==> r.value in resolves && resolves[r.value] == Resolve(ByKey(key), Install, now + resolveTimeout)
      ensures forall k | k in resolves && Some(k) != r :: k in old(resolves) && resolves[k] == old(resolves)[k]
    {
      EvolvesReflexive(S(), now, 1);
      if Suppressed(resolves, ByKey(key), now) || !budget {
        return None;
      }
      var id := AllocResolveId();
      var ok := PushResolve(id, Resolve(ByKey(key), Install, now + resolveTimeout), now);
      r := if ok then Some(id) else None;
    }

    /** The entry asking for `query`, if there is one. */
    method FindQuery(query: Query) returns (r: Option<nat>)
      ensures r.Some? ==> r.value in resolves && resolves[r.value].query == query
      ensures r.None? ==> forall k | k in resolves :: resolves[k].query != query
    {
      if k :| k in resolves && resolves[k].query == query {
        return Some(k);
      }
      return None;
    }

    /** A live lookup of `dst`: the one in flight, one in an expired marker's place, or a new one. */
    method LookUp(dst: nat, now: nat) returns (r: Option<nat>)
      requires Ready()
      modifies this`resolves, this`timers, this`nextResolveId
      ensures Ready() && Evolves(old(S()), S(), now, 1)
      ensures r.Some? ==>
                r.value in resolves && resolves[r.value].query == ByAddress(dst) && !resolves[r.value].kind.Negative?
      ensures forall k | k in resolves :: k in old(resolves) || k >= old(nextResolveId)
      ensures old(nextResolveId) <= nextResolveId && (r.None? ==> S() == old(S()))
      ensures Unasked(old(resolves), dst, maxInflight) ==>
                && r.Some? && r.value !in old(resolves)
                && resolves == old(resolves)[r.value := Resolve(ByAddress(dst), Outbound, now + resolveOutboundTimeout)]
      ensures MayAsk(old(resolves), dst, now, maxInflight) ==> r.Some?
      ensures r.Some? ==> AsksOnce(old(resolves), resolves, r.value, dst, now, now + resolveOutboundTimeout)
    {
      EvolvesReflexive(S(), now, 1);
      var deadline := now + resolveOutboundTimeout;
      var found := FindQuery(ByAddress(dst));
      if found.None? {
        var id := AllocResolveId();
        var ok := PushResolve(id, Resolve(ByAddress(dst), Outbound, deadline), now);
        return if ok then Some(id) else None;
      }
      var x := resolves[found.value];
      if !x.kind.Negative? {
        return found;
      }
      if x.deadline > now {
        return None;
      }
      var id := ReuseMarker(found.value, Resolve(ByAddress(dst), Outbound, deadline), now);
      return Some(id);
    }

    /** An expired marker's place is taken over by a live lookup, whose deadline is covered. */
    method ReuseMarker(marker: nat, x: Resolve, ghost now: nat) returns (id: nat)
      requires Ready() && marker in resolves && now < x.deadline
      modifies this`resolves, this`timers, this`nextResolveId
      ensures Ready() && Evolves(old(S()), S(), now, 1)
      ensures id >= old(nextResolveId) && nextResolveId >= old(nextResolveId)
                && resolves == (old(resolves) - {marker})[id := x]
    {
      ghost var s0 := S();
      id := AllocResolveId();
      RemovedSize(resolves, marker);
      resolves := (resolves - {marker})[id := x];
      ArmTimer(x.deadline);
      ResolvesOk(s0, resolves, timers, now, 1);
    }

    /** Parks an unrouted packet behind one lookup of its destination. */
    method QueueOutboundResolution(dst: nat, now: nat) returns (r: Option<nat>)
      requires Ready()
      modifies this`resolves, this`timers, this`nextResolveId, this`pending
      ensures Ready() && Evolves(old(S()), S(), now, 1)
      ensures r.Some? ==>
                r.value in resolves && resolves[r.value].query == ByAddress(dst) && !resolves[r.value].kind.Negative?
      ensures r.Some? && |pending| > 0 ==>
                exists j :: 0 <= j < |pending|
                            && pending[j] == Some(Parked(OnResolve(r.value), now + resolveOutboundTimeout))
      ensures forall w | r.None? || w != OnResolve(r.value) :: Awaiting(pending, w) <= Awaiting(old(pending), w)
      ensures HasRoom(old(pending)) ==>
                forall w | r.None? || w != OnResolve(r.value) :: Awaiting(pending, w) == Awaiting(old(pending), w)
      ensures forall k | k in resolves :: k in old(resolves) || k >= old(nextResolveId)
      ensures old(nextResolveId) <= nextResolveId && (r.None? ==> S() == old(S()))
      ensures Unasked(old(resolves), dst, maxInflight) ==>
                && r.Some? && r.value !in old(resolves)
                && resolves == old(resolves)[r.value := Resolve(ByAddress(dst), Outbound, now + resolveOutboundTimeout)]
      ensures MayAsk(old(resolves), dst, now, maxInflight) ==> r.Some?
      ensures r.Some? ==> AsksOnce(old(resolves), resolves, r.value, dst, now, now + resolveOutboundTimeout)
    {
      ghost var s0 := S();
      r := LookUp(dst, now);
      if r.Some? {
        ghost var s1 := S();
        ghost var spot := ParkUntil(OnResolve(r.value), now + resolveOutboundTimeout, now);
        EvolvesTransitive(s0, s1, S(), now, 1);
        assert |pending| > 0 ==> pending[spot] == Some(Parked(OnResolve(r.value), now + resolveOutboundTimeout));
      }
    }

    /** Records that a held record still needs reconciling; an earlier obligation is not pushed out. */
    method QueueReconcile(key: nat, now: nat)
      requires Ready()
      modifies this`reconciles, this`timers
      ensures Ready() && Evolves(old(S()), S(), now, Slack())
      ensures reconciles == OwedAt(old(reconciles), key, now + negativeTtl, |peers|)
    {
      ghost var s0 := S();
      EvolvesReflexive(s0, now, Slack());
      var due := now + negativeTtl;
      if key in reconciles {
        due := if due < reconciles[key] then due else reconciles[key];
      } else if |reconciles| >= |peers| {
        return;
      }
      OwedOk(s0, key, due, now, Slack());
      reconciles := reconciles[key := due];
      ArmTimer(due);
    }

    method ForgetReconcile(key: nat, ghost now: nat)
      requires Ready()
      modifies this`reconciles
      ensures Ready() && Evolves(old(S()), S(), now, 1)
      ensures reconciles == old(reconciles) - {key}
    {
      UnowedOk(S(), key, now);
      reconciles := reconciles - {key};
    }

    method DeferReconcile(key: nat, now: nat)
      requires Ready() && key in reconciles
      modifies this`reconciles, this`timers
      ensures Ready() && Evolves(old(S()), S(), now, Slack())
      ensures reconciles == old(reconciles)[key := now + negativeTtl]
    {
      OwedOk(S(), key, now + negativeTtl, now, Slack());
      reconciles := reconciles[key := now + negativeTtl];
      ArmTimer(now + negativeTtl);
    }

    /** Expires one lookup with whatever waits behind it; an unanswered reconciliation is owed again. */
    method ExpireOneResolve(now: nat) returns (r: bool, ghost t: TimerId)
      requires Ready()
      modifies this`resolves, this`reconciles, this`timers, this`pending
      ensures Ready() && Evolves(old(S()), S(), now, Slack())
      ensures r ==> t.ResolveTimer? && LookupExpired(old(S()), S(), t.id, now, negativeTtl)
      ensures !r ==> S() == old(S()) && NoneLapse(S(), now)
    {
      EvolvesReflexive(S(), now, Slack());
      t := ResolveTimer(0);
      r := false;
      if id :| id in resolves && resolves[id].deadline <= now {
        t := ResolveTimer(id);
        r := true;
        ExpireLookup(id, now);
      }
    }

    method ExpireLookup(id: nat, now: nat)
      requires Ready() && id in resolves && resolves[id].deadline <= now
      modifies this`resolves, this`reconciles, this`timers, this`pending
      ensures Ready() && Evolves(old(S()), S(), now, Slack())
      ensures LookupExpired(old(S()), S(), id, now, negativeTtl)
    {
      ghost var s0 := S();
      var x := resolves[id];
      KeepResolves(resolves - {id}, now);
      ghost var s1 := S();
      EvolvesRelaxed(s0, s1, now, Slack());
      Unwind(id, x, now);
      EvolvesTransitive(s0, s1, S(), now, Slack());
    }

    /** What an expired lookup leaves behind: its packets are dropped, its reconciliation is still owed. */
    method Unwind(id: nat, x: Resolve, now: nat)
      requires Ready()
      modifies this`reconciles, this`timers, this`pending
      ensures Ready() && Evolves(old(S()), S(), now, Slack())
      ensures pending == if x.kind.Outbound? then Dropped(old(pending), OnResolve(id)) else old(pending)
      ensures reconciles == if !OwesWhenExpired(old(S()), x) then old(reconciles)
                            else OwedAt(old(reconciles), x.query.publicKey, now + negativeTtl, |peers|)
    {
      EvolvesReflexive(S(), now, Slack());
      if x.kind.Outbound? {
        ghost var s0 := S();
        DropIf(OnResolve(id), now);
        EvolvesRelaxed(s0, S(), now, Slack());
      } else if x.kind.Reconcile? && x.query.ByKey? && x.query.publicKey in byKey {
        QueueReconcile(x.query.publicKey, now);
      }
    }

    /** Serves one due obligation, if there is one. */
    method PromoteDueReconcile(now: nat) returns (r: bool, ghost t: TimerId)
      requires Ready()
      modifies this`resolves, this`reconciles, this`timers, this`nextResolveId
      ensures Ready() && Evolves(old(S()), S(), now, Slack())
      ensures r ==> t.ReconcileTimer? && Promoted(old(S()), S(), t.k, now, negativeTtl, maxInflight)
      ensures !r ==> S() == old(S()) && forall k: nat :: !IsDue(S(), ReconcileTimer(k), now)
    {
      EvolvesReflexive(S(), now, Slack());
      t := ReconcileTimer(0);
      r := false;
      if key :| key in reconciles && reconciles[key] <= now {
        t := ReconcileTimer(key);
        r := true;
        assert IsDue(S(), t, now);
        Serve(key, now);
      }
    }

    /**
     Turns a due obligation into a lookup, drops it when its peer is gone, or
     puts it off when it is blocked, which consumes it unless the TTL is zero.
     */
    method Serve(key: nat, now: nat)
      requires Ready() && IsDue(S(), ReconcileTimer(key), now)
      modifies this`resolves, this`reconciles, this`timers, this`nextResolveId
      ensures Ready() && Evolves(old(S()), S(), now, Slack())
      ensures Promoted(old(S()), S(), key, now, negativeTtl, maxInflight)
    {
      ghost var s0 := S();
      if key !in byKey {
        ForgetReconcile(key, now);
        EvolvesRelaxed(s0, S(), now, Slack());
      } else if Suppressed(resolves, ByKey(key), now) {
        DeferReconcile(key, now);
      } else {
        AskAgain(key, now);
      }
    }

    /** Issues the lookup for a due obligation, or puts it off for want of a place. */
    method AskAgain(key: nat, now: nat)
      requires Ready() && key in reconciles
      modifies this`resolves, this`reconciles, this`timers, this`nextResolveId
      ensures Ready() && Evolves(old(S()), S(), now, Slack())
      ensures FullOfLive(old(resolves), maxInflight) ==>
                resolves == old(resolves) && reconciles == old(reconciles)[key := now + negativeTtl]
      ensures !FullOfLive(old(resolves), maxInflight) ==>
                reconciles == old(reconciles) - {key} && exists id :: Asked(old(resolves), resolves, id, key, now)
                                                                      && resolves[id].deadline == now + resolveTimeout
    {
      ghost var s0 := S();
      var id := AllocResolveId();
      var ok := PushResolve(id, Resolve(ByKey(key), Reconcile, now + resolveTimeout), now);
      ghost var s1 := S();
      assert ok ==> Asked(s0.resolves, s1.resolves, id, key, now);
      EvolvesRelaxed(s0, s1, now, Slack());
      if ok {
        ForgetReconcile(key, now);
        EvolvesRelaxed(s1, S(), now, Slack());
      } else {
        DeferReconcile(key, now);
      }
      EvolvesTransitive(s0, s1, S(), now, Slack());
    }

    // -------------------------------------------------------------------
    // Resolver answers
    // -------------------------------------------------------------------

    predicate IsPinned(key: nat)
      reads this
      ensures IsPinned(key) == Pinned(S(), key)
    {
      key in byKey && byKey[key] < |peers| && peers[byKey[key]].Some? && peers[byKey[key]].value.pinned
    }

    /** The least recently active of the peers that may make room for another. */
    method CapacityVictim(exclude: Option<nat>, gives: set<nat>, now: nat) returns (r: Option<nat>)
      ensures r.Some? ==> MayGo(S(), r.value, exclude, gives, now, minIdle)
      ensures r.Some? ==> forall q: nat | MayGo(S(), q, exclude, gives, now, minIdle) ::
                peers[r.value].value.lastActivity <= peers[q].value.lastActivity
      ensures r.None? ==> forall q: nat :: !MayGo(S(), q, exclude, gives, now, minIdle)
    {
      r := None;
      for p := 0 to |peers|
        invariant r.Some? ==> r.value < p && MayGo(S(), r.value, exclude, gives, now, minIdle)
        invariant r.Some? ==> forall q: nat | q < p && MayGo(S(), q, exclude, gives, now, minIdle) ::
                    peers[r.value].value.lastActivity <= peers[q].value.lastActivity
        invariant r.None? ==> forall q: nat | q < p :: !MayGo(S(), q, exclude, gives, now, minIdle)
      {
        if p in gives && peers[p].Some? && exclude != Some(p) && !peers[p].value.pinned && Sessionless(peers[p].value)
           && SaturatingSub(now, peers[p].value.lastActivity) >= minIdle
        {
          assert MayGo(S(), p, exclude, gives, now, minIdle);
          if r.None? || peers[p].value.lastActivity < peers[r.value].value.lastActivity {
            r := Some(p);
          }
        }
      }
    }

    /** Evicting for capacity costs no session, no pinned or active peer, and not the peer room is made for. */
    method MakeRoom(exclude: Option<nat>, policy: Policy, now: nat) returns (r: Option<nat>)
      requires Inv(S(), None)
      modifies this`peers, this`byKey, this`slots, this`indices, this`pending
      ensures Inv(S(), None) && Evolves(old(S()), S(), now, 1) && Spares(old(S()), S(), exclude, now, minIdle)
      ensures r.Some? ==> r.value < |peers| && peers[r.value].None?
      ensures r.Some? ==> Idlest(old(S()), r.value, exclude, policy.gives, now, minIdle)
                          && S() == Evicted(old(S()), r.value)
      ensures r.Some? <==> policy.budget && exists p: nat :: MayGo(old(S()), p, exclude, policy.gives, now, minIdle)
      ensures r.None? ==> S() == old(S())
      ensures byKey.Keys <= old(byKey).Keys
    {
      EvolvesReflexive(S(), now, 1);
      r := CapacityVictim(exclude, policy.gives, now);
      if r.None? || !policy.budget {
        return None;
      }
      EvictedSessionless(S(), r.value);
      var ok := EvictPeer(r.value, now);
    }

    /** Room for the route of peer `p`: there is some, or another peer gives way, or there is none. */
    method FitRoute(p: nat, policy: Policy, now: nat) returns (ok: bool)
      requires Inv(S(), None) && HasPeer(S(), p)
      modifies this`peers, this`byKey, this`slots, this`indices, this`pending
      ensures Inv(S(), None) && Evolves(old(S()), S(), now, 1) && Spares(old(S()), S(), Some(p), now, minIdle)
      ensures !ok || policy.roomy ==> S() == old(S())
      ensures ok <==> RouteFits(old(S()), p, policy, now, minIdle)
      ensures byKey.Keys <= old(byKey).Keys
    {
      EvolvesReflexive(S(), now, 1);
      ok := policy.roomy;
      if !ok && policy.mayEvict {
        var place := MakeRoom(Some(p), policy, now);
        ok := place.Some?;
      }
    }

    /** A place for a new peer: an empty one, or that of a peer that gives way, as policy permits. */
    method FindPlace(policy: Policy, now: nat) returns (r: Option<nat>)
      requires Inv(S(), None)
      modifies this`peers, this`byKey, this`slots, this`indices, this`pending
      ensures Inv(S(), None) && Evolves(old(S()), S(), now, 1) && Spares(old(S()), S(), None, now, minIdle)
      ensures r.Some? ==> r.value < |peers| && peers[r.value].None?
      ensures r.None? || (policy.mayUseFree && HasVacancy(old(peers))) ==> S() == old(S())
      ensures r.Some? <==> PlaceFor(old(S()), policy, now, minIdle)
      ensures byKey.Keys <= old(byKey).Keys
    {
      EvolvesReflexive(S(), now, 1);
      if policy.mayUseFree {
        for p := 0 to |peers|
          invariant forall q | 0 <= q < p :: peers[q].Some?
        {
          if peers[p].None? {
            return Some(p);
          }
        }
      }
      if !policy.mayDisplace {
        return None;
      }
      r := MakeRoom(None, policy, now);
    }

    /** A new dynamic peer from a resolver record, removed again when its route does not fit. */
    method AdmitPeer(x: Record, policy: Policy, now: nat) returns (r: Adoption)
      requires Inv(S(), None) && x.publicKey !in byKey
      modifies this`peers, this`byKey, this`slots, this`indices, this`pending, this`timers, this`admitted
      ensures Inv(S(), None) && Evolves(old(S()), S(), now, 1) && slots == old(slots) && indices == old(indices)
      ensures r.Adopted? ==> HasPeer(S(), r.p) && x.publicKey in byKey && byKey[x.publicKey] == r.p
      ensures r.Adopted? ==>
                x.publicKey in admitted
                && peers[r.p] == Some(NewPeer(x.publicKey, false, x.endpoint, x.relay, x.interval, now))
      ensures !r.Adopted? ==> x.publicKey !in byKey
      ensures PlaceFor(old(S()), policy, now, minIdle) && policy.roomy ==> r.Adopted?
      ensures Lands(old(S()), x, policy) ==> pending == old(pending)
      ensures r.Adopted? ==> PlaceFor(old(S()), policy, now, minIdle)
    {
      ghost var s0 := S();
      var place := FindPlace(policy, now);
      if place.None? {
        return Refused(false);
      }
      ghost var s1 := S();
      var installed := InstallPeer(place.value, x.publicKey, false, x.endpoint, x.relay, x.interval, now);
      ghost var s2 := S();
      EvolvesTransitive(s0, s1, s2, now, 1);
      r := Settle(place.value, x.publicKey, policy, now);
      EvolvesTransitive(s0, s2, S(), now, 1);
    }

    /** Gives a newly installed peer its route, or removes it again. */
    method Settle(p: nat, ghost key: nat, policy: Policy, now: nat) returns (r: Adoption)
      requires Inv(S(), None) && HasPeer(S(), p) && Sessionless(peers[p].value) && peers[p].value.publicKey == key
      modifies this`peers, this`byKey, this`slots, this`indices, this`pending
      ensures Inv(S(), None) && Evolves(old(S()), S(), now, 1) && slots == old(slots) && indices == old(indices)
      ensures r == Adopted(p) || r == Refused(true)
      ensures r.Adopted? ==> HasPeer(S(), p) && key in byKey && byKey[key] == p && peers[p] == old(peers)[p]
      ensures !r.Adopted? ==> key !in byKey
      ensures policy.roomy ==> r.Adopted? && pending == old(pending)
    {
      ghost var s0 := S();
      var fits := FitRoute(p, policy, now);
      ghost var s1 := S();
      assert HasPeer(s1, p) && PeerOk(s1, p);
      if fits {
        return Adopted(p);
      }
      EvictedSessionless(s1, p);
      var ok := EvictPeer(p, now);
      return Refused(true);
    }

    /** A record for a peer already held: its route is fitted first, so a refusal leaves the old record whole. */
    method UpdatePeer(p: nat, x: Record, policy: Policy, now: nat) returns (ok: bool)
      requires Inv(S(), None) && HasPeer(S(), p)
      modifies this`peers, this`byKey, this`slots, this`indices, this`pending, this`timers
      ensures Inv(S(), None) && Evolves(old(S()), S(), now, 1) && slots == old(slots) && indices == old(indices)
      ensures HasPeer(S(), p)
      ensures ok ==> Carries(old(peers)[p].value, peers[p].value, x.endpoint, x.relay, NonZero(x.interval))
      ensures !ok ==> S() == old(S())
      ensures ok <==> RouteFits(old(S()), p, policy, now, minIdle)
      ensures policy.roomy ==> pending == old(pending)
    {
      ghost var s0 := S();
      ok := FitRoute(p, policy, now);
      if ok {
        ghost var s1 := S();
        assert s1.peers[p] == s0.peers[p];
        ApplyRecord(p, x, now);
        EvolvesTransitive(s0, s1, S(), now, 1);
      }
    }

    /** Installs or refreshes the peer a resolver record names; `isNew` says which. */
    method Adopt(x: Record, policy: Policy, now: nat) returns (r: Adoption, isNew: bool)
      requires Inv(S(), None)
      modifies this`peers, this`byKey, this`slots, this`indices, this`pending, this`timers, this`admitted
      ensures Inv(S(), None) && Evolves(old(S()), S(), now, 1) && slots == old(slots) && indices == old(indices)
      ensures isNew <==> x.publicKey !in old(byKey)
      ensures r.Adopted? ==> HasPeer(S(), r.p) && x.publicKey in byKey && byKey[x.publicKey] == r.p
      ensures r.Adopted? && isNew ==> x.publicKey in admitted
      ensures isNew ==> (r.Adopted? <==> x.publicKey in byKey)
      ensures isNew && policy.roomy && PlaceFor(old(S()), policy, now, minIdle) ==> r.Adopted?
      ensures isNew && r.Adopted? ==>
                && PlaceFor(old(S()), policy, now, minIdle)
                && peers[r.p] == Some(NewPeer(x.publicKey, false, x.endpoint, x.relay, x.interval, now))
      ensures !isNew ==>
                && (r.Adopted? <==> RouteFits(old(S()), old(byKey)[x.publicKey], policy, now, minIdle))
                && (r.Adopted? ==> Updates(old(S()), S(), x))
                && (!r.Adopted? ==> S() == old(S()))
      ensures Lands(old(S()), x, policy) ==> r.Adopted? && pending == old(pending)
    {
      isNew := x.publicKey !in byKey;
      if isNew {
        r := AdmitPeer(x, policy, now);
      } else {
        var p := byKey[x.publicKey];
        assert HasPeer(S(), p);
        var ok := UpdatePeer(p, x, policy, now);
        assert PeerOk(S(), p);
        r := if ok then Adopted(p) else Refused(true);
      }
    }

    /**
     Applies an authoritative answer about a held peer. Only "not found" removes
     it; a failed, invalid or unplaceable answer leaves its record as it was and
     the reconciliation owed.
     */
    method HeldAnswer(key: nat, outcome: Outcome, policy: Policy, now: nat)
      requires Ready()
      modifies this
      ensures Ready() && Evolves(old(S()), S(), now, Slack())
      ensures forall k | k in resolves :: k in old(resolves) || k >= old(nextResolveId)
      ensures HeldEffect(old(S()), S(), key, outcome, policy, now, negativeTtl, maxInflight, minIdle)
    {
      assert key in byKey ==> HasPeer(S(), byKey[key]);
      if key !in byKey || IsPinned(key) {
        ghost var s0 := S();
        ForgetReconcile(key, now);
        EvolvesRelaxed(s0, S(), now, Slack());
        return;
      }
      match outcome {
        case Found(record) => var ok := ReconcileWith(key, record, policy, now);
        case NotFound => Forget(key, byKey[key], now);
        case Failed => Postpone(key, now);
      }
    }

    /** A positive answer for a held dynamic peer. */
    method ReconcileWith(key: nat, x: Record, policy: Policy, now: nat) returns (ok: bool)
      requires Ready() && Dynamic(S(), key)
      modifies this`peers, this`byKey, this`slots, this`indices, this`pending, this`timers, this`reconciles
      modifies this`resolves
      ensures Ready() && Evolves(old(S()), S(), now, Slack()) && resolves.Keys <= old(resolves).Keys
      ensures ok ==> Committed(old(S()), S(), key, x) && key !in reconciles
      ensures !ok ==> Kept(old(S()), S(), key, now + negativeTtl)
      ensures ok <==> Accepts(old(S()), key, x, policy, now, minIdle)
    {
      ghost var s0 := S();
      ok := CommitAnswer(key, x, policy, now);
      if ok {
        EvolvesRelaxed(s0, S(), now, Slack());
      } else {
        Postpone(key, now);
      }
    }

    /** Commits the record and discharges the obligation, or changes nothing. */
    method CommitAnswer(key: nat, x: Record, policy: Policy, now: nat) returns (ok: bool)
      requires Ready() && Dynamic(S(), key)
      modifies this`peers, this`byKey, this`slots, this`indices, this`pending, this`timers, this`reconciles
      modifies this`resolves
      ensures Ready() && Evolves(old(S()), S(), now, 1) && resolves.Keys <= old(resolves).Keys
      ensures ok ==> Committed(old(S()), S(), key, x) && key !in reconciles
      ensures !ok ==> S() == old(S())
      ensures ok <==> Accepts(old(S()), key, x, policy, now, minIdle)
    {
      ghost var s0 := S();
      ok := TryCommit(key, x, policy, now);
      if ok {
        ghost var s1 := S();
        Discharge(key, now);
        EvolvesTransitive(s0, s1, S(), now, 1);
        CommittedStays(s0, s1, S(), key, x);
      }
    }

    /** The record stays as it is and its reconciliation is owed. */
    method Postpone(key: nat, now: nat)
      requires Ready()
      modifies this`reconciles, this`timers
      ensures Ready() && Evolves(old(S()), S(), now, Slack())
      ensures Kept(old(S()), S(), key, now + negativeTtl)
    {
      QueueReconcile(key, now);
    }

    /** Commits the whole record, or nothing when it is invalid or its route does not fit. */
    method TryCommit(key: nat, x: Record, policy: Policy, now: nat) returns (fits: bool)
      requires Inv(S(), None) && Dynamic(S(), key)
      modifies this`peers, this`byKey, this`slots, this`indices, this`pending, this`timers
      ensures Inv(S(), None) && Evolves(old(S()), S(), now, 1)
      ensures fits ==> Committed(old(S()), S(), key, x)
      ensures !fits ==> S() == old(S())
      ensures fits <==> Accepts(old(S()), key, x, policy, now, minIdle)
    {
      EvolvesReflexive(S(), now, 1);
      fits := false;
      if policy.valid && x.publicKey == key {
        ghost var p := byKey[key];
        assert PeerOk(S(), p);
        fits := UpdatePeer(byKey[key], x, policy, now);
        assert PeerOk(S(), p);
      }
    }

    /** The obligation is met and any marker for the key is void. */
    method Discharge(key: nat, ghost now: nat)
      requires Ready()
      modifies this`reconciles, this`resolves
      ensures Ready() && Evolves(old(S()), S(), now, 1)
      ensures key !in reconciles && resolves.Keys <= old(resolves).Keys
    {
      ghost var s0 := S();
      ForgetReconcile(key, now);
      ghost var s1 := S();
      ClearNegative(ByKey(key), now);
      EvolvesTransitive(s0, s1, S(), now, 1);
    }

    /** The peer is removed and its key marked as unknown. */
    method Forget(key: nat, p: nat, now: nat)
      requires Ready() && HasPeer(S(), p) && peers[p].value.publicKey == key
      modifies this
      ensures Ready() && Evolves(old(S()), S(), now, Slack())
      ensures forall k | k in resolves :: k in old(resolves) || k >= old(nextResolveId)
      ensures byKey == old(byKey) - {key} && reconciles == old(reconciles) - {key}
      ensures MarkerAdded(Without(old(resolves), ByKey(key)), resolves, ByKey(key), now + negativeTtl, maxInflight, 0)
    {
      ghost var s0 := S();
      RemovePeer(key, p, now);
      ghost var s1 := S();
      EvolvesRelaxed(s0, s1, now, Slack());
      MarkNegative(ByKey(key), now);
      EvolvesTransitive(s0, s1, S(), now, Slack());
    }

    /** The peer goes, and with it whatever was owed for its record. */
    method RemovePeer(key: nat, p: nat, now: nat)
      requires Ready() && HasPeer(S(), p) && peers[p].value.publicKey == key
      modifies this`peers, this`byKey, this`slots, this`indices, this`pending, this`reconciles
      ensures Ready() && Evolves(old(S()), S(), now, 1)
      ensures byKey == old(byKey) - {key} && reconciles == old(reconciles) - {key}
    {
      ghost var s0 := S();
      ForgetReconcile(key, now);
      ghost var s1 := S();
      var ok := EvictPeer(p, now);
      EvolvesTransitive(s0, s1, S(), now, 1);
    }

    /** A completed lookup leaves the table and is applied by kind; an unknown identifier changes nothing. */
    method Resolved(id: nat, outcome: Outcome, policy: Policy, now: nat)
      requires Ready()
      modifies this
      ensures Ready() && Evolves(old(S()), S(), now, Slack())
      ensures id !in old(resolves) ==> S() == old(S())
      ensures id in old(resolves) ==>
                && id !in resolves
                && AnswerEffect(old(S()).(resolves := old(resolves) - {id}), S(), old(outside), outside, id,
                                old(resolves)[id], outcome, policy, now, fate, negativeTtl, maxInflight, minIdle)
    {
      ghost var s0 := S();
      EvolvesReflexive(s0, now, Slack());
      if id !in resolves {
        return;
      }
      var x := resolves[id];
      KeepResolves(resolves - {id}, now);
      ghost var s1 := S();
      EvolvesRelaxed(s0, s1, now, Slack());
      Apply(id, x, outcome, policy, now);
      EvolvesTransitive(s0, s1, S(), now, Slack());
    }

    method Apply(id: nat, x: Resolve, outcome: Outcome, policy: Policy, now: nat)
      requires Ready() && id !in resolves && id < nextResolveId
      modifies this
      ensures Ready() && Evolves(old(S()), S(), now, Slack()) && id !in resolves
      ensures AnswerEffect(old(S()), S(), old(outside), outside, id, x, outcome, policy, now, fate, negativeTtl,
                           maxInflight, minIdle)
    {
      EvolvesReflexive(S(), now, Slack());
      match (x.kind, x.query)
      case (Outbound, ByAddress(dst)) => ResolvedOutbound(id, dst, outcome, policy, now);
      case (Install, ByKey(key)) => ResolvedInstall(id, key, outcome, policy, now);
      case (Reconcile, ByKey(key)) => HeldAnswer(key, outcome, policy, now);
      case _ =>
    }

    /** The answer to an unknown initiator or relay destination; a parked initiation is answered at once. */
    method ResolvedInstall(ghost id: nat, key: nat, outcome: Outcome, policy: Policy, now: nat)
      requires Ready() && id !in resolves && id < nextResolveId
      modifies this
      ensures Ready() && Evolves(old(S()), S(), now, Slack()) && id !in resolves
      ensures InstallEffect(old(S()), S(), old(outside), outside, key, outcome, policy, now, fate, negativeTtl,
                            maxInflight)
    {
      ghost var s0 := S();
      EvolvesReflexive(s0, now, Slack());
      if outcome.NotFound? {
        MarkNegative(ByKey(key), now);
      } else if outcome.Found? && outcome.record.publicKey == key && policy.valid && !IsPinned(key) {
        Welcome(outcome.record, policy, now);
        EvolvesRelaxed(s0, S(), now, Slack());
      }
    }

    method Welcome(x: Record, policy: Policy, now: nat)
      requires Ready()
      modifies this`peers, this`byKey, this`slots, this`indices, this`pending, this`timers, this`resolves, this`keys
      modifies this`seals, this`outside, this`admitted
      ensures Ready() && Evolves(old(S()), S(), now, 1) && resolves.Keys <= old(resolves).Keys
      ensures Lands(old(S()), x, policy) && policy.parked && fate(old(outside).draws)
              && (exists i: nat :: i < |old(slots)| && old(slots)[i].Free?) ==>
                RespondsTo(S(), old(outside), outside, x.publicKey)
      ensures Lands(old(S()), x, policy) ==> x.publicKey in byKey
    {
      ghost var s0 := S();
      var adopted, isNew := Adopt(x, policy, now);
      if adopted.Adopted? {
        ghost var s1 := S();
        assert (exists i: nat :: i < |slots| && slots[i].Free?) ==> CanTake(s1, now) by {
          if i: nat :| i < |slots| && slots[i].Free? {
            assert !Protected(s1, i, now);
          }
        }
        Greet(adopted.p, x.publicKey, policy.parked, now);
        EvolvesTransitive(s0, s1, S(), now, 1);
      }
    }

    method Greet(p: nat, key: nat, parked: bool, now: nat)
      requires Ready()
      modifies this`peers, this`slots, this`indices, this`timers, this`resolves, this`keys, this`seals, this`outside
      ensures Ready() && Evolves(old(S()), S(), now, 1) && resolves.Keys <= old(resolves).Keys
      ensures parked && CanReply(old(S()), p, now) && fate(old(outside).draws) ==>
                keys == old(keys) + 1 && Responds(old(outside), outside, p)
    {
      ghost var s0 := S();
      ClearNegative(ByKey(key), now);
      if parked {
        ghost var s1 := S();
        SameParts(s0, s1, p, now);
        ghost var installed;
        var ok;
        ok, installed := RespondToInitiation(p, now);
        EvolvesTransitive(s0, s1, S(), now, 1);
      }
    }

    /** The answer to an outbound lookup: its packets are sent on, or dropped; none stays behind. */
    method ResolvedOutbound(id: nat, dst: nat, outcome: Outcome, policy: Policy, now: nat)
      requires Ready() && id !in resolves && id < nextResolveId
      modifies this
      ensures Ready() && Evolves(old(S()), S(), now, Slack()) && id !in resolves
      ensures OutboundEffect(old(S()), S(), old(outside), outside, id, dst, outcome, policy, now, negativeTtl,
                             maxInflight)
    {
      if outcome.Found? && policy.valid && !IsPinned(outcome.record.publicKey) {
        Deliver(id, dst, outcome.record, policy, now);
      } else {
        GiveUp(id, dst, outcome.NotFound?, now);
      }
    }

    /** A valid positive answer: the peer is adopted and the packets follow its route, if there now is one. */
    method Deliver(id: nat, dst: nat, x: Record, policy: Policy, now: nat)
      requires Ready() && id !in resolves && id < nextResolveId
      modifies this
      ensures Ready() && Evolves(old(S()), S(), now, Slack()) && id !in resolves
      ensures forall j | 0 <= j < |pending| :: !Awaits(pending[j], OnResolve(id))
      ensures x.publicKey !in old(byKey) && policy.mayUseFree && policy.roomy && HasVacancy(old(peers))
              && policy.route.Some? ==>
                && x.publicKey in byKey && x.publicKey in admitted
                && reconciles == old(reconciles) && resolves.Keys <= old(resolves).Keys
      ensures Lands(old(S()), x, policy) && policy.route.Some? ==>
                Forwarded(old(outside), outside, policy.route, |Awaiting(old(pending), OnResolve(id))|)
    {
      ghost var s0 := S();
      var adopted, isNew := Adopt(x, policy, now);
      ghost var s1 := S();
      EvolvesRelaxed(s0, s1, now, Slack());
      if adopted.Adopted? && policy.route.Some? {
        Replay(id, dst, policy.route, now);
        EvolvesRelaxed(s1, S(), now, Slack());
      } else {
        Abandon(id, dst, adopted, isNew, now);
      }
      EvolvesTransitive(s0, s1, S(), now, Slack());
    }

    /** Without a route, a peer that is new goes again, and the packets are dropped. */
    method Abandon(id: nat, dst: nat, adopted: Adoption, isNew: bool, now: nat)
      requires Ready() && id !in resolves && id < nextResolveId
      modifies this`peers, this`byKey, this`slots, this`indices, this`pending, this`timers, this`resolves
      modifies this`nextResolveId
      ensures Ready() && Evolves(old(S()), S(), now, Slack()) && id !in resolves
      ensures forall j | 0 <= j < |pending| :: !Awaits(pending[j], OnResolve(id))
    {
      ghost var s0 := S();
      EvolvesReflexive(s0, now, Slack());
      if adopted.Adopted? && isNew {
        var ok := EvictPeer(adopted.p, now);
        EvolvesRelaxed(s0, S(), now, Slack());
      }
      ghost var s1 := S();
      GiveUp(id, dst, adopted.Adopted? || adopted.negative, now);
      EvolvesTransitive(s0, s1, S(), now, Slack());
    }

    /** Drops what waits behind a lookup, and remembers a negative answer. */
    method GiveUp(id: nat, dst: nat, negative: bool, now: nat)
      requires Ready() && id !in resolves && id < nextResolveId
      modifies this`resolves, this`timers, this`nextResolveId, this`pending
      ensures Ready() && Evolves(old(S()), S(), now, Slack()) && id !in resolves
      ensures forall j | 0 <= j < |pending| :: !Awaits(pending[j], OnResolve(id))
      ensures negative ==>
                MarkerAdded(Without(old(resolves), ByAddress(dst)), resolves, ByAddress(dst), now + negativeTtl,
                            maxInflight, 0)
      ensures !negative ==> resolves == old(resolves)
    {
      ghost var s0 := S();
      EvolvesReflexive(s0, now, Slack());
      if negative {
        MarkNegative(ByAddress(dst), now);
      }
      ghost var s1 := S();
      DropIf(OnResolve(id), now);
      EvolvesRelaxed(s1, S(), now, Slack());
      EvolvesTransitive(s0, s1, S(), now, Slack());
    }

    /**
     Sends the packets behind an answered lookup through the outbound path again.
     This ends: a packet without a route waits on another lookup, never on this
     one, so no answer can drive an endless loop of queries.
     */
    method Replay(id: nat, dst: nat, route: Option<nat>, now: nat)
      requires Ready() && id !in resolves && id < nextResolveId
      modifies this`peers, this`slots, this`indices, this`timers, this`seals, this`outside, this`pending, this`resolves
      modifies this`nextResolveId
      ensures Ready() && Evolves(old(S()), S(), now, 1) && id !in resolves
      ensures forall j | 0 <= j < |pending| :: !Awaits(pending[j], OnResolve(id))
      ensures route.Some? ==> resolves.Keys <= old(resolves).Keys
      ensures Forwarded(old(outside), outside, route, |Awaiting(old(pending), OnResolve(id))|)
    {
      ghost var s0 := S();
      ClearNegative(ByAddress(dst), now);
      while true
        invariant Ready() && id !in resolves && id < nextResolveId && Evolves(s0, S(), now, 1)
        invariant route.Some? ==> resolves.Keys <= s0.resolves.Keys
        invariant |Awaiting(pending, OnResolve(id))| <= |Awaiting(s0.pending, OnResolve(id))|
        invariant Forwarded(old(outside), outside, route,
                            |Awaiting(s0.pending, OnResolve(id))| - |Awaiting(pending, OnResolve(id))|)
        decreases Awaiting(pending, OnResolve(id))
      {
        ghost var s1 := S();
        var taken := ReplayOne(id, dst, route, now);
        EvolvesTransitive(s0, s1, S(), now, 1);
        if !taken {
          break;
        }
      }
      NoneAwaiting(pending, OnResolve(id));
    }

    /** The first packet behind the lookup, if there is one, goes on. */
    method ReplayOne(id: nat, dst: nat, route: Option<nat>, now: nat) returns (taken: bool)
      requires Ready() && id !in resolves && id < nextResolveId
      modifies this`peers, this`slots, this`indices, this`timers, this`seals, this`outside, this`pending, this`resolves
      modifies this`nextResolveId
      ensures Ready() && Evolves(old(S()), S(), now, 1) && id !in resolves && id < nextResolveId
      ensures route.Some? ==> resolves == old(resolves)
      ensures taken ==>
                && outside.onward == old(outside).onward + [route]
                && Awaiting(pending, OnResolve(id)) < Awaiting(old(pending), OnResolve(id))
                && |Awaiting(pending, OnResolve(id))| + 1 == |Awaiting(old(pending), OnResolve(id))|
      ensures !taken ==>
                && outside == old(outside) && pending == old(pending)
                && forall j | 0 <= j < |pending| :: !Awaits(pending[j], OnResolve(id))
    {
      ghost var s0 := S();
      ghost var spot;
      taken, spot := TakeIf(OnResolve(id), now);
      if taken {
        ghost var s1 := S();
        assert pending[spot].None?;
        SendOut(route, dst, now, id);
        EvolvesTransitive(s0, s1, S(), now, 1);
      }
    }

    /** One packet on the outbound path: to the routed peer, or behind a lookup of its destination. */
    method SendOut(route: Option<nat>, dst: nat, now: nat, ghost id: nat)
      requires Ready()
      modifies this`peers, this`slots, this`indices, this`timers, this`seals, this`outside, this`pending, this`resolves
      modifies this`nextResolveId
      ensures Ready() && Evolves(old(S()), S(), now, 1) && old(nextResolveId) <= nextResolveId
      ensures id !in old(resolves) && id < old(nextResolveId) ==>
                && id !in resolves && Awaiting(pending, OnResolve(id)) <= Awaiting(old(pending), OnResolve(id))
                && (HasRoom(old(pending)) ==> Awaiting(pending, OnResolve(id)) == Awaiting(old(pending), OnResolve(id)))
      ensures route.Some? ==> resolves == old(resolves)
      ensures outside.onward == old(outside).onward + [route]
      ensures route.Some? && Usable(old(S()), route.value, now).Some? ==> |outside.offers| == |old(outside).offers| + 1
      ensures route.Some? && Usable(old(S()), route.value, now).None? ==>
                Rekeyed(old(S()), S(), route.value, now, fate(old(outside).draws))
    {
      if route.Some? {
        var ok := SendToPeer(route.value, now);
      } else {
        var r := QueueOutboundResolution(dst, now);
      }
      outside := outside.(onward := outside.onward + [route]);
    }

    // -------------------------------------------------------------------
    // Timers
    // -------------------------------------------------------------------

    /** The next instant at which a timeout should be handled; it is never late. */
    method PollAt() returns (at: Option<nat>)
      requires Valid()
      ensures forall t :: Deadline(S(), t).Some? ==> AtMost(at, Deadline(S(), t).value)
    {
      at := timers;
    }

    method ScanPeers() returns (at: Option<nat>)
      ensures Attained(S(), at)
      ensures forall p: nat :: Covers(S(), at, Keepalive(p)) && Covers(S(), at, Persistent(p))
                && Covers(S(), at, Reply(p))
    {
      at := None;
      for p := 0 to |peers|
        invariant Attained(S(), at)
        invariant forall q: nat | q < p ::
                  Covers(S(), at, Keepalive(q)) && Covers(S(), at, Persistent(q)) && Covers(S(), at, Reply(q))
      {
        if peers[p].Some? {
          var x := peers[p].value;
          assert Deadline(S(), Keepalive(p)) == x.keepaliveDue;
          assert Deadline(S(), Persistent(p)) == x.persistentDue;
          assert Deadline(S(), Reply(p)) == x.replyDue;
          at := Earliest(Earliest(Earliest(at, x.keepaliveDue), x.persistentDue), x.replyDue);
        }
      }
    }

    /** Attempt deadlines are reached through the initiating slot of their peer. */
    method ScanSlots(from: Option<nat>) returns (at: Option<nat>)
      requires Inv(S(), None) && Attained(S(), from)
      ensures Attained(S(), at) && NoLater(at, from)
      ensures forall i: nat :: Covers(S(), at, SlotTimer(i))
      ensures forall p: nat :: Covers(S(), at, Attempt(p))
    {
      at := from;
      for i := 0 to |slots|
        invariant Attained(S(), at) && NoLater(at, from)
        invariant forall j: nat | j < i :: Covers(S(), at, SlotTimer(j))
        invariant forall j: nat | j < i && slots[j].Initiating? :: Covers(S(), at, Attempt(slots[j].peer))
      {
        assert Deadline(S(), SlotTimer(i)) == SlotDeadline(slots[i]);
        at := Earliest(at, SlotDeadline(slots[i]));
        if slots[i].Initiating? {
          var p := slots[i].peer;
          assert SlotOk(S(), i, None);
          assert Deadline(S(), Attempt(p)) == peers[p].value.attemptDeadline;
          at := Earliest(at, peers[p].value.attemptDeadline);
        }
      }
      forall p: nat | HasPeer(S(), p) ensures Covers(S(), at, Attempt(p)) {
        assert PeerOk(S(), p);
      }
    }

    method ScanParked(from: Option<nat>) returns (at: Option<nat>)
      requires Attained(S(), from)
      ensures Attained(S(), at) && NoLater(at, from) && forall j: nat :: Covers(S(), at, ParkTimer(j))
    {
      at := from;
      for j := 0 to |pending|
        invariant Attained(S(), at) && NoLater(at, from)
        invariant forall k: nat | k < j :: Covers(S(), at, ParkTimer(k))
      {
        if pending[j].Some? {
          assert Deadline(S(), ParkTimer(j)) == Some(pending[j].value.deadline);
          at := Earliest(at, Some(pending[j].value.deadline));
        }
      }
    }

    method ScanResolver(from: Option<nat>) returns (at: Option<nat>)
      requires Attained(S(), from)
      ensures Attained(S(), at) && NoLater(at, from)
      ensures forall id: nat :: Covers(S(), at, ResolveTimer(id))
      ensures forall k: nat :: Covers(S(), at, ReconcileTimer(k))
    {
      at := from;
      var todo := resolves.Keys;
      while todo != {}
        invariant todo <= resolves.Keys && Attained(S(), at) && NoLater(at, from)
        invariant forall id: nat | id !in todo :: Covers(S(), at, ResolveTimer(id))
        decreases todo
      {
        var id :| id in todo;
        todo := todo - {id};
        assert Deadline(S(), ResolveTimer(id)) == Some(resolves[id].deadline);
        at := Earliest(at, Some(resolves[id].deadline));
      }
      var owed := reconciles.Keys;
      while owed != {}
        invariant owed <= reconciles.Keys && Attained(S(), at) && NoLater(at, from)
        invariant forall id: nat :: Covers(S(), at, ResolveTimer(id))
        invariant forall k: nat | k !in owed :: Covers(S(), at, ReconcileTimer(k))
        decreases owed
      {
        var k :| k in owed;
        owed := owed - {k};
        assert Deadline(S(), ReconcileTimer(k)) == Some(reconciles[k]);
        at := Earliest(at, Some(reconciles[k]));
      }
    }

    /** The true earliest deadline: at or before every running timer, and equal to one of them. */
    method ScanDeadlines() returns (at: Option<nat>)
      requires Inv(S(), None)
      ensures Exact(S(), at)
    {
      var a := ScanPeers();
      var b := ScanSlots(a);
      var c := ScanParked(b);
      at := ScanResolver(c);
      forall t ensures Covers(S(), at, t) {
        match t
        case Keepalive(p) => assert Covers(S(), a, Keepalive(p));
        case Persistent(p) => assert Covers(S(), a, Persistent(p));
        case Reply(p) => assert Covers(S(), a, Reply(p));
        case Attempt(p) => assert Covers(S(), b, Attempt(p));
        case SlotTimer(i) => assert Covers(S(), b, SlotTimer(i));
        case ParkTimer(j) => assert Covers(S(), c, ParkTimer(j));
        case ResolveTimer(id) => assert Covers(S(), at, ResolveTimer(id));
        case ReconcileTimer(k) => assert Covers(S(), at, ReconcileTimer(k));
      }
    }

    /** The action of a due slot timer. */
    method FireSlot(i: nat, now: nat) returns (r: bool, ghost t: TimerId)
      requires Inv(S(), None) && i < |slots|
      modifies this`peers, this`slots, this`indices, this`timers, this`seals, this`outside, this`pending
      ensures Inv(S(), None) && Evolves(old(S()), S(), now, 1)
      ensures r ==> IsDue(old(S()), t, now) && !IsDue(S(), t, now)
      ensures r ==> SlotActs(old(S()), S(), old(outside), outside, t, now, fate)
      ensures !r ==> S() == old(S()) && outside == old(outside) && !IsDue(S(), SlotTimer(i), now)
      ensures !r && slots[i].Initiating? ==> !IsDue(S(), Attempt(slots[i].peer), now)
    {
      ghost var s0 := S();
      EvolvesReflexive(s0, now, 1);
      assert SlotOk(s0, i, None);
      r, t := false, SlotTimer(i);
      match slots[i] {
        case Free =>
        case Initiating(p, index, retryAt) =>
          var attempt := peers[p].value.attemptDeadline;
          if attempt.Some? && attempt.value <= now {
            r, t := true, Attempt(p);
            var ok := FreeSlot(i, None, now);
            ghost var s1 := S();
            DropIf(OnHandshake(p), now);
            EvolvesTransitive(s0, s1, S(), now, 1);
          } else if retryAt <= now {
            r := true;
            RetransmitInitiation(p, i, now);
          }
        case Established(session) =>
          if SaturatingSub(now, session.created) >= REJECT_AFTER_TIME {
            r := true;
            var ok := FreeSlot(i, None, now);
          }
      }
    }

    /** One slot timer: giving up on, or retransmitting, a handshake, or expiring a session. */
    method SlotTimeout(now: nat) returns (r: bool, ghost t: TimerId)
      requires Inv(S(), None)
      modifies this`peers, this`slots, this`indices, this`timers, this`seals, this`outside, this`pending
      ensures Inv(S(), None) && Evolves(old(S()), S(), now, 1)
      ensures r ==> IsDue(old(S()), t, now) && !IsDue(S(), t, now)
      ensures r ==> SlotActs(old(S()), S(), old(outside), outside, t, now, fate)
      ensures !r ==> S() == old(S()) && outside == old(outside) && forall i: nat :: !IsDue(S(), SlotTimer(i), now)
      ensures !r ==> forall p: nat :: !IsDue(S(), Attempt(p), now)
    {
      ghost var s0 := S();
      EvolvesReflexive(s0, now, 1);
      r, t := false, SlotTimer(0);
      var n := |slots|;
      for i := 0 to n
        invariant S() == s0 && n == |slots| && outside == old(outside)
        invariant forall j: nat | j < i :: !IsDue(s0, SlotTimer(j), now)
        invariant forall j: nat | j < i && s0.slots[j].Initiating? :: !IsDue(s0, Attempt(s0.slots[j].peer), now)
      {
        r, t := FireSlot(i, now);
        if r {
          return;
        }
      }
      r := false;
      forall p: nat | HasPeer(s0, p) ensures !IsDue(s0, Attempt(p), now) {
        assert PeerOk(s0, p);
      }
    }

    /** Stops one of a peer's timers. */
    method StopTimer(p: nat, t: TimerId, ghost now: nat)
      requires Inv(S(), None) && HasPeer(S(), p) && (t == Keepalive(p) || t == Persistent(p) || t == Reply(p))
      modifies this`peers
      ensures Inv(S(), None) && Evolves(old(S()), S(), now, 1)
      ensures HasPeer(S(), p) && Deadline(S(), t).None?
      ensures S() == WithPeer(old(S()), p, Stopped(old(peers)[p].value, t))
    {
      StoppedOk(S(), p, t, now);
      peers := peers[p := Some(Stopped(peers[p].value, t))];
    }

    /** Sends a keepalive on the usable session, if there is one. */
    method SendKeepalive(p: nat, now: nat) returns (usable: bool)
      requires Inv(S(), None)
      modifies this`peers, this`slots, this`indices, this`timers, this`seals, this`outside
      ensures Inv(S(), None) && Sends(old(S()), S(), now)
      ensures usable <==> Usable(old(S()), p, now).Some?
      ensures KeepaliveTried(old(S()), S(), old(outside), outside, p, now, fate)
      ensures !usable ==> S() == old(S()) && outside == old(outside)
    {
      SendsReflexive(S(), now);
      var i := UsableSession(p, now);
      usable := i.Some?;
      if usable {
        var ok := EncryptAndSend(p, i.value, false, now);
      }
    }

    /** A passive keepalive is due. */
    method FireKeepalive(p: nat, now: nat)
      requires Inv(S(), None) && HasPeer(S(), p)
      modifies this`peers, this`slots, this`indices, this`timers, this`seals, this`outside
      ensures Inv(S(), None) && Evolves(old(S()), S(), now, 1)
      ensures !IsDue(S(), Keepalive(p), now)
      ensures PeerActs(old(S()), S(), old(outside), outside, Keepalive(p), now, fate)
    {
      ghost var s0 := S();
      StopTimer(p, Keepalive(p), now);
      ghost var s1 := S();
      var usable := SendKeepalive(p, now);
      EvolvesTransitive(s0, s1, S(), now, 1);
      assert TimerMoved(s1, S(), Keepalive(p), now, 1);
      StoppedThen(s0, S(), old(outside), outside, p, Keepalive(p), now, fate);
    }

    /** A reply is missing: the session is taken for dead. */
    method FireReply(p: nat, now: nat)
      requires Inv(S(), None) && HasPeer(S(), p)
      modifies this`peers, this`slots, this`indices, this`timers, this`seals, this`outside
      ensures Inv(S(), None) && Evolves(old(S()), S(), now, 1)
      ensures !IsDue(S(), Reply(p), now)
      ensures PeerActs(old(S()), S(), old(outside), outside, Reply(p), now, fate)
    {
      ghost var s0 := S();
      StopTimer(p, Reply(p), now);
      ghost var s1 := S();
      var r := EnsureHandshake(p, now);
      EvolvesTransitive(s0, s1, S(), now, 1);
      assert TimerMoved(s1, S(), Reply(p), now, 1);
      StoppedThen(s0, S(), old(outside), outside, p, Reply(p), now, fate);
    }

    /** The persistent keepalive: send now, or start a handshake and come back after the interval. */
    method FirePersistent(p: nat, now: nat)
      requires Inv(S(), None) && HasPeer(S(), p)
      modifies this`peers, this`slots, this`indices, this`timers, this`seals, this`outside
      ensures Inv(S(), None) && Evolves(old(S()), S(), now, 1)
      ensures !IsDue(S(), Persistent(p), now)
      ensures PeerActs(old(S()), S(), old(outside), outside, Persistent(p), now, fate)
    {
      ghost var s0 := S();
      var interval := peers[p].value.persistent;
      assert PeerOk(s0, p);
      StopTimer(p, Persistent(p), now);
      ghost var s1 := S();
      KeepaliveOrHandshake(p, interval, now);
      EvolvesTransitive(s0, s1, S(), now, 1);
      assert TimerMoved(s1, S(), Persistent(p), now, 1);
      StoppedThen(s0, S(), old(outside), outside, p, Persistent(p), now, fate);
    }

    method KeepaliveOrHandshake(p: nat, interval: Option<nat>, now: nat)
      requires Inv(S(), None) && HasPeer(S(), p) && peers[p].value.persistent == interval
      requires peers[p].value.persistentDue.None?
      modifies this`peers, this`slots, this`indices, this`timers, this`seals, this`outside
      ensures Inv(S(), None) && Evolves(old(S()), S(), now, 1)
      ensures PeerActs(old(S()), S(), old(outside), outside, Persistent(p), now, fate)
    {
      assert PeerOk(S(), p);
      var usable := SendKeepalive(p, now);
      if !usable {
        HandshakeThenRearm(p, interval, now);
      }
    }

    /** Without a usable session: a handshake, and another keepalive after the interval. */
    method HandshakeThenRearm(p: nat, interval: Option<nat>, now: nat)
      requires Inv(S(), None) && HasPeer(S(), p) && peers[p].value.persistent == interval && interval != Some(0)
      requires peers[p].value.persistentDue.None?
      modifies this`peers, this`slots, this`indices, this`timers, this`seals, this`outside
      ensures Inv(S(), None) && Evolves(old(S()), S(), now, 1)
      ensures Restarted(old(S()), S(), p, now) && Pursued(old(S()), S(), old(outside), outside, p, now, fate)
      ensures outside.offers == old(outside).offers
    {
      ghost var s0 := S();
      var r := EnsureHandshake(p, now);
      ghost var s1 := S();
      assert KeepsInterval(s0, s1, p, now);
      if interval.Some? {
        Rearm(p, now, interval.value);
        EvolvesTransitive(s0, s1, S(), now, 1);
      }
    }

    /** Restarts the persistent keepalive of a peer that is still there. */
    method Rearm(p: nat, now: nat, interval: nat)
      requires Inv(S(), None) && interval > 0
      modifies this`peers, this`timers
      ensures Inv(S(), None) && Evolves(old(S()), S(), now, 1)
      ensures S() == Rearmed(old(S()), p, now + interval)
    {
      ghost var s0 := S();
      EvolvesReflexive(s0, now, 1);
      RearmedOk(s0, p, now + interval, now);
      if p < |peers| && peers[p].Some? {
        peers := peers[p := Some(peers[p].value.(persistentDue := Some(now + interval)))];
      }
      ArmTimer(now + interval);
    }

    /** The action of one due timer of peer `p`. */
    method FirePeer(p: nat, now: nat) returns (r: bool, ghost t: TimerId)
      requires Inv(S(), None) && p < |peers|
      modifies this`peers, this`slots, this`indices, this`timers, this`seals, this`outside
      ensures Inv(S(), None) && Evolves(old(S()), S(), now, 1)
      ensures r ==> IsDue(old(S()), t, now) && !IsDue(S(), t, now)
      ensures r ==> PeerActs(old(S()), S(), old(outside), outside, t, now, fate)
      ensures !r ==>
                && S() == old(S()) && outside == old(outside) && !IsDue(S(), Keepalive(p), now)
                && !IsDue(S(), Persistent(p), now) && !IsDue(S(), Reply(p), now)
    {
      EvolvesReflexive(S(), now, 1);
      r, t := false, Keepalive(p);
      if peers[p].None? {
        return;
      }
      var x := peers[p].value;
      if x.keepaliveDue.Some? && x.keepaliveDue.value <= now {
        r := true;
        FireKeepalive(p, now);
      } else if x.persistentDue.Some? && x.persistentDue.value <= now {
        r, t := true, Persistent(p);
        FirePersistent(p, now);
      } else if x.replyDue.Some? && x.replyDue.value <= now {
        r, t := true, Reply(p);
        FireReply(p, now);
      }
    }

    /** One peer timer: a passive or persistent keepalive, or a handshake for want of a reply. */
    method PeerTimeout(now: nat) returns (r: bool, ghost t: TimerId)
      requires Inv(S(), None)
      modifies this`peers, this`slots, this`indices, this`timers, this`seals, this`outside
      ensures Inv(S(), None) && Evolves(old(S()), S(), now, 1)
      ensures r ==> IsDue(old(S()), t, now) && !IsDue(S(), t, now)
      ensures r ==> PeerActs(old(S()), S(), old(outside), outside, t, now, fate)
      ensures !r ==> S() == old(S()) && outside == old(outside)
      ensures !r ==> forall p: nat ::
                !IsDue(S(), Keepalive(p), now) && !IsDue(S(), Persistent(p), now) && !IsDue(S(), Reply(p), now)
    {
      ghost var s0 := S();
      EvolvesReflexive(s0, now, 1);
      r, t := false, Keepalive(0);
      var n := |peers|;
      for p := 0 to n
        invariant S() == s0 && n == |peers| && outside == old(outside)
        invariant forall q: nat | q < p ::
                    !IsDue(s0, Keepalive(q), now) && !IsDue(s0, Persistent(q), now) && !IsDue(s0, Reply(q), now)
      {
        r, t := FirePeer(p, now);
        if r {
          return;
        }
      }
      r := false;
    }

    /**
     Performs one due timer action, in the engine's fixed order, or finds that
     nothing is due. The timer is consumed, except in exactly one case: with a
     zero TTL, a blocked reconciliation stays due.
     */
    method Timeout(now: nat) returns (r: bool, ghost t: TimerId)
      requires Ready()
      modifies this`peers, this`slots, this`indices, this`timers, this`seals, this`outside, this`pending
      modifies this`resolves, this`reconciles, this`nextResolveId
      ensures Ready() && Evolves(old(S()), S(), now, Slack())
      ensures r ==> Fired(old(S()), S(), t, now, negativeTtl, maxInflight) && ComesFirst(old(S()), t, now)
      ensures r ==> Acts(old(S()), S(), old(outside), outside, t, now, fate, negativeTtl, maxInflight)
      ensures !r ==> S() == old(S()) && forall u :: !IsDue(S(), u, now)
    {
      ghost var s0 := S();
      r, t := ResolverTimeout(now);
      if r {
        return;
      }
      r, t := TrafficTimeout(now);
      EvolvesRelaxed(s0, S(), now, Slack());
      if r {
        FiredPlain(s0, S(), t, now, negativeTtl, maxInflight);
      } else {
        NothingDue(s0, now);
      }
    }

    /** The other kinds, when none of those is due: slots, and then peers. */
    method TrafficTimeout(now: nat) returns (r: bool, ghost t: TimerId)
      requires Inv(S(), None) && NoLookupDue(S(), now)
      modifies this`peers, this`slots, this`indices, this`timers, this`seals, this`outside, this`pending
      ensures Inv(S(), None) && Evolves(old(S()), S(), now, 1)
      ensures r ==> IsDue(old(S()), t, now) && !IsDue(S(), t, now) && ComesFirst(old(S()), t, now)
      ensures r ==> !t.ReconcileTimer? && TrafficActs(old(S()), S(), old(outside), outside, t, now, fate)
      ensures !r ==> S() == old(S()) && outside == old(outside) && NoTrafficDue(S(), now)
    {
      ghost var s0 := S();
      r, t := SlotTimeout(now);
      if r {
        SlotComesFirst(s0, t, now);
        return;
      }
      r, t := PeerTimeout(now);
      if r {
        PeerComesFirst(s0, t, now);
      }
    }

    /** The first three kinds of timer: parked packets, lookups, obligations. */
    method ResolverTimeout(now: nat) returns (r: bool, ghost t: TimerId)
      requires Ready()
      modifies this`timers, this`pending, this`resolves, this`reconciles, this`nextResolveId
      ensures Ready() && Evolves(old(S()), S(), now, Slack())
      ensures r ==> Fired(old(S()), S(), t, now, negativeTtl, maxInflight) && ComesFirst(old(S()), t, now)
      ensures r ==> LookupActs(old(S()), S(), t, now, negativeTtl, maxInflight)
      ensures !r ==> S() == old(S()) && NoLookupDue(S(), now)
    {
      ghost var s0 := S();
      r, t := ExpireParked(now);
      if r {
        EvolvesRelaxed(s0, S(), now, Slack());
        FiredPlain(s0, S(), t, now, negativeTtl, maxInflight);
        return;
      }
      r, t := LookupTimeout(now);
      if r {
        LookupComesFirst(s0, t, now);
      }
    }

    /** A due lookup expires, or else a due obligation is served. */
    method LookupTimeout(now: nat) returns (r: bool, ghost t: TimerId)
      requires Ready()
      modifies this`timers, this`pending, this`resolves, this`reconciles, this`nextResolveId
      ensures Ready() && Evolves(old(S()), S(), now, Slack())
      ensures r ==> Fired(old(S()), S(), t, now, negativeTtl, maxInflight)
      ensures r ==> LookupActs(old(S()), S(), t, now, negativeTtl, maxInflight)
      ensures r ==> t.ResolveTimer? || (t.ReconcileTimer? && NoneLapse(old(S()), now))
      ensures !r ==> S() == old(S()) && NoneLapse(S(), now)
      ensures !r ==> forall k: nat :: !IsDue(S(), ReconcileTimer(k), now)
    {
      ghost var s0 := S();
      r, t := ExpireOneResolve(now);
      if r {
        FiredLookup(s0, S(), t.id, now, negativeTtl, maxInflight);
        return;
      }
      r, t := PromoteDueReconcile(now);
      if r {
        FiredObligation(s0, S(), t.k, now, negativeTtl, maxInflight);
      }
    }

    /**
     Handles one timeout. `true` means work was due and the bound asks for another
     call; there is progress when the TTL is positive or everything owed can be
     asked, and otherwise there may be no end. `false` means nothing is due and
     the bound is exact.
     */
    method HandleTimeout(now: nat) returns (r: bool, ghost t: TimerId)
      requires Valid()
      modifies this`peers, this`slots, this`indices, this`timers, this`seals, this`outside, this`pending
      modifies this`resolves, this`reconciles, this`nextResolveId
      ensures Valid() && old(seals) <= seals
      ensures r ==> AtMost(timers, now) && t in DueSet(old(S()), now) && ComesFirst(old(S()), t, now)
      ensures r ==> Acts(old(S()), S(), old(outside), outside, t, now, fate, negativeTtl, maxInflight)
      ensures r && (negativeTtl > 0 || Clear(old(S()), now, maxInflight)) ==> Progress(old(S()), S(), now)
      ensures !r ==> DueSet(S(), now) == {} && Exact(S(), timers) && S() == old(S()).(timers := timers)
      ensures negativeTtl == 0 ==> KeepsOutlook(old(S()), S(), now, maxInflight)
      ensures Over(old(S()), now, maxInflight) ==> r
    {
      ghost var s0 := S();
      r, t := Timeout(now);
      ghost var s1 := S();
      EvolvesKeepsBound(s0, s1, now, Slack());
      if r {
        assert t in DueSet(s0, now);
        ArmTimer(now);
        ActsThrough(s0, s1, S(), old(outside), outside, t, now, fate, negativeTtl, maxInflight);
      } else {
        if Over(s0, now, maxInflight) {
          OverIsDue(s0, now, maxInflight);
        }
        timers := ScanDeadlines();
      }
      RetimedOk(s1, S(), now);
      OutlookThrough(s0, s1, S(), now, maxInflight);
      if r && (negativeTtl > 0 || Clear(s0, now, maxInflight)) {
        ProgressThrough(s0, s1, S(), now);
      }
    }

    /**
     "Call again until it returns false" terminates from every state when the
     negative TTL is positive or no lookup is ever made, and whatever the limits
     from every state in which all that is owed can be asked.
     */
    method Drain(now: nat)
      requires Valid() && (negativeTtl > 0 || maxInflight == 0 || Clear(S(), now, maxInflight))
      modifies this
      ensures Valid() && Exact(S(), timers)
      ensures forall t :: Deadline(S(), t).Some? ==> Deadline(S(), t).value > now
      ensures timers.Some? ==> timers.value > now
    {
      if maxInflight == 0 {
        NothingOwed(S(), now);
        ClearWhenNothingOwed(S(), now, maxInflight);
      }
      var more := true;
      while more
        invariant Valid() && (negativeTtl > 0 || Clear(S(), now, maxInflight))
        invariant !more ==> DueSet(S(), now) == {} && Exact(S(), timers)
        decreases DueOthers(S(), now), DueOwed(S(), now), more
      {
        ghost var t;
        more, t := HandleTimeout(now);
      }
      forall t | Deadline(S(), t).Some? ensures Deadline(S(), t).value > now {
        assert t !in DueSet(S(), now);
      }
    }

    // -------------------------------------------------------------------
    // Whole runs
    // -------------------------------------------------------------------

    /** Installs the configured peers in order; they fit exactly when there are places and no key comes twice. */
    method InstallPinned(pinned: seq<Record>, now: nat) returns (ok: bool)
      requires Valid() && byKey == map[] && admitted == {} && forall p | 0 <= p < |peers| :: peers[p].None?
      modifies this`peers, this`byKey, this`timers, this`admitted
      ensures Valid()
      ensures ok <==>
                |pinned| <= |peers| && forall i, j | 0 <= i < j < |pinned| :: pinned[i].publicKey != pinned[j].publicKey
      ensures ok ==> forall i | 0 <= i < |pinned| :: IsInstalled(peers[i], pinned[i])
    {
      for n := 0 to |pinned|
        invariant Valid() && n <= |peers| == |old(peers)| && admitted == {}
        invariant forall p | n <= p < |peers| :: peers[p].None?
        invariant forall i | 0 <= i < n :: IsInstalled(peers[i], pinned[i])
        invariant forall i | 0 <= i < n :: pinned[i].publicKey in byKey && byKey[pinned[i].publicKey] == i
        invariant forall k | k in byKey :: byKey[k] < n && pinned[byKey[k]].publicKey == k
      {
        ok := AddPinned(n, pinned[n], now);
        if !ok {
          return;
        }
      }
      ok := true;
    }

    method AddPinned(p: nat, x: Record, now: nat) returns (ok: bool)
      requires Valid() && x.publicKey !in admitted
      modifies this`peers, this`byKey, this`timers, this`admitted
      ensures Valid() && admitted == old(admitted)
      ensures ok <==> p < |old(peers)| && old(peers)[p].None? && x.publicKey !in old(byKey)
      ensures ok ==> |peers| == |old(peers)| && peers == old(peers)[p := peers[p]] && IsInstalled(peers[p], x)
      ensures ok ==> byKey == old(byKey)[x.publicKey := p]
      ensures !ok ==> peers == old(peers) && byKey == old(byKey)
    {
      ghost var s0 := S();
      ok := InstallPeer(p, x.publicKey, true, x.endpoint, x.relay, x.interval, now);
      EvolvesKeepsBound(s0, S(), now, 1);
    }

    /** One input of any kind, at any time. */
    method Step(e: Event, now: nat)
      requires Valid()
      modifies this
      ensures Valid() && old(seals) <= seals
      ensures (e.Send? || e.Unrouted? || e.UnknownKey?) ==>
                PacketEffect(e, old(S()), S(), old(outside), outside, now, fate, maxInflight)
      ensures (e.Initiation? || e.Response? || e.Transport?) ==>
                MessageEffect(e, old(S()), S(), old(outside), outside, now, fate)
      ensures e.Completed? && e.id in old(resolves) ==>
                AnswerEffect(old(S()).(resolves := old(resolves) - {e.id}), S(), old(outside), outside, e.id,
                             old(resolves)[e.id], e.outcome, e.policy, now, fate, negativeTtl, maxInflight, minIdle)
      ensures e.Updated? ==>
                HeldEffect(old(S()), S(), e.key, e.outcome, e.policy, now, negativeTtl, maxInflight, minIdle)
      ensures e.Tick? && DueSet(old(S()), now) != {} ==>
                exists t :: Acts(old(S()), S(), old(outside), outside, t, now, fate, negativeTtl, maxInflight)
                            && IsDue(old(S()), t, now)
    {
      match e {
        case Tick => Tock(now);
        case Completed(id, outcome, policy) => StepAnswer(id, outcome, policy, now);
        case Updated(key, outcome, policy) => StepUpdate(key, outcome, policy, now);
        case Send(_) => StepPacket(e, now);
        case Unrouted(_) => StepPacket(e, now);
        case UnknownKey(_, _) => StepPacket(e, now);
        case _ => StepMessage(e, now);
      }
    }

    method Tock(now: nat)
      requires Valid()
      modifies this
      ensures Valid() && old(seals) <= seals
      ensures DueSet(old(S()), now) != {} ==>
                exists t :: Acts(old(S()), S(), old(outside), outside, t, now, fate, negativeTtl, maxInflight)
                            && IsDue(old(S()), t, now)
    {
      ghost var s0 := S();
      var more;
      ghost var t;
      more, t := HandleTimeout(now);
      if !more {
        SameDue(s0, S(), now);
      }
    }

    /** Packets and lookups for unknown keys. */
    method StepPacket(e: Event, now: nat)
      requires Valid() && (e.Send? || e.Unrouted? || e.UnknownKey?)
      modifies this`peers, this`slots, this`indices, this`timers, this`pending, this`resolves, this`nextResolveId
      modifies this`keys, this`seals, this`outside
      ensures Valid() && old(seals) <= seals
      ensures PacketEffect(e, old(S()), S(), old(outside), outside, now, fate, maxInflight)
    {
      ghost var s0 := S();
      var ok: bool;
      var r: Option<nat>;
      match e {
        case Send(p) => ok := SendToPeer(p, now);
        case Unrouted(dst) => r := QueueOutboundResolution(dst, now);
        case UnknownKey(key, budget) => r := QueuePeerInstall(key, budget, now);
      }
      EvolvesKeepsBound(s0, S(), now, 1);
    }

    /** Handshake and transport messages. */
    method StepMessage(e: Event, now: nat)
      requires Valid() && (e.Initiation? || e.Response? || e.Transport?)
      modifies this`peers, this`slots, this`indices, this`timers, this`pending, this`keys, this`seals, this`outside
      ensures Valid() && old(seals) <= seals
      ensures MessageEffect(e, old(S()), S(), old(outside), outside, now, fate)
    {
      ghost var s0 := S();
      ghost var mid;
      var ok: bool;
      match e {
        case Initiation(p) => ok, mid := RespondToInitiation(p, now);
        case Response(index, authentic) => ok, mid := RxResponse(index, authentic, now);
        case Transport(index, data, authentic) => ok := RxData(index, data, authentic, now);
      }
      EvolvesKeepsBound(s0, S(), now, 1);
    }

    /** With no place for a lookup, there is none to complete. */
    method StepAnswer(id: nat, outcome: Outcome, policy: Policy, now: nat)
      requires Valid()
      modifies this
      ensures Valid() && old(seals) <= seals
      ensures id in old(resolves) ==>
                AnswerEffect(old(S()).(resolves := old(resolves) - {id}), S(), old(outside), outside, id,
                             old(resolves)[id], outcome, policy, now, fate, negativeTtl, maxInflight, minIdle)
    {
      ghost var s0 := S();
      Resolved(id, outcome, policy, now);
      EvolvesKeepsBound(s0, S(), now, Slack());
    }

    /** With no place for a lookup, no held peer is dynamic, and an update leaves nothing owed. */
    method StepUpdate(key: nat, outcome: Outcome, policy: Policy, now: nat)
      requires Valid()
      modifies this
      ensures Valid() && old(seals) <= seals
      ensures HeldEffect(old(S()), S(), key, outcome, policy, now, negativeTtl, maxInflight, minIdle)
    {
      ghost var s0 := S();
      if key in byKey {
        assert PeerOk(s0, byKey[key]);
      }
      HeldAnswer(key, outcome, policy, now);
      EvolvesKeepsBound(s0, S(), now, Slack());
    }

    /**
     Every run keeps the tables consistent and the bound honest. Over the whole
     run no (key, counter) pair is used twice, and nothing is sealed for a peer
     except under that peer's own sessions.
     */
    method Run(inputs: seq<(Event, nat)>)
      requires Valid()
      modifies this
      ensures Valid() && old(seals) <= seals
      ensures forall m, n | 0 <= m < n < |seals| :: seals[m].key != seals[n].key || seals[m].counter != seals[n].counter
      ensures forall n | 0 <= n < |seals| :: seals[n].owner == seals[n].peer && seals[n].counter < REJECT_AFTER_MESSAGES
    {
      for n := 0 to |inputs|
        invariant Valid() && old(seals) <= seals
      {
        Step(inputs[n].0, inputs[n].1);
      }
      forall m, n | 0 <= m < n < |seals|
        ensures seals[m].key != seals[n].key || seals[m].counter != seals[n].counter
      {
        assert SealsApart(seals[m], seals[n]);
      }
      forall n | 0 <= n < |seals| ensures seals[n].owner == seals[n].peer && seals[n].counter < REJECT_AFTER_MESSAGES {
        assert SealOk(seals[n], keys);
      }
    }
  }

  /**
   A zero negative TTL is accepted by configuration validation, but then
   draining need not end: whatever the other accepted limits, if lookups are
   made at all, there are inputs that lead a new engine into a state in which
   every one of any number of calls at the same instant asks for another.
   */
  method ZeroTtlNeverDrains(maxPeers: nat, maxSessions: nat, maxParked: nat, resolveTimeout: nat, outboundTimeout: nat,
                            maxInflight: nat, minIdle: nat, fate: nat -> bool, x: Record, now: nat, calls: nat)
    returns (e: Engine, answers: seq<bool>)
    requires maxPeers > 0 && resolveTimeout > 0 && outboundTimeout > 0 && maxInflight > 0
    ensures e.Valid() && e.negativeTtl == 0 && Over(e.S(), now, maxInflight)
    ensures |answers| == calls && false !in answers
  {
    e := new Engine(maxPeers, maxSessions, maxParked, 0, resolveTimeout, outboundTimeout, maxInflight, minIdle, fate);
    assert e.peers[0].None?;
    var accept := Policy(true, true, false, true, false, false, {}, Some(0), false);
    AdmitByAnswer(e, x, accept, now);
    FillPlaces(e, now);
    OweOne(e, x.publicKey, accept, now);
    answers := Spin(e, now, calls);
  }

  /** Calls would go on for ever: the TTL is zero, not all that is owed can be asked, and the backlog has room. */
  ghost predicate Spins(e: Engine, now: nat)
    reads e
  {
    e.Valid() && e.negativeTtl == 0 && Over(e.S(), now, e.maxInflight) && Room(e.S(), now)
  }

  method OneTurn(e: Engine, now: nat) returns (more: bool)
    requires Spins(e, now)
    modifies e
    ensures more && Spins(e, now)
  {
    ghost var t;
    more, t := e.HandleTimeout(now);
  }

  /** Where not all that is owed can be asked, with room in the backlog, calls go on for ever. */
  method Spin(e: Engine, now: nat, calls: nat) returns (answers: seq<bool>)
    requires Spins(e, now)
    modifies e
    ensures Spins(e, now)
    ensures |answers| == calls && false !in answers
  {
    if calls == 0 {
      return [];
    }
    var more := OneTurn(e, now);
    var rest := Spin(e, now, calls - 1);
    answers := [more] + rest;
  }

  /** First input and second: a packet without a route, and the answer to its lookup, which brings in a peer. */
  method AdmitByAnswer(e: Engine, x: Record, policy: Policy, now: nat)
    requires e.Valid() && e.maxInflight > 0 && HasVacancy(e.peers)
    requires e.byKey == map[] && e.resolves == map[] && e.reconciles == map[]
    requires policy.valid && policy.mayUseFree && policy.roomy && policy.route.Some?
    modifies e
    ensures e.Valid() && |e.peers| == old(|e.peers|)
    ensures x.publicKey in e.byKey && x.publicKey in e.admitted && e.resolves == map[] && e.reconciles == map[]
  {
    ghost var s0 := e.S();
    var id := e.QueueOutboundResolution(0, now);
    ghost var s1 := e.S();
    EvolvesKeepsBound(s0, s1, now, 1);
    assert e.resolves.Keys == {id.value};
    e.Resolved(id.value, Found(x), policy, now);
    EvolvesKeepsBound(s1, e.S(), now, e.Slack());
    assert e.resolves.Keys == {};
  }

  /** Then packets to other destinations, until their lookups take up every place. */
  method FillPlaces(e: Engine, now: nat)
    requires e.Valid() && e.resolves == map[] && e.maxInflight > 0
    modifies e`resolves, e`timers, e`nextResolveId, e`pending
    ensures e.Valid() && |Waiting(e.resolves, now)| == e.maxInflight && |e.peers| == old(|e.peers|)
  {
    for n := 0 to e.maxInflight
      invariant e.Valid() && |e.resolves| == n
      invariant forall k | k in e.resolves :: AsksFor(e.resolves[k], n, now)
    {
      ghost var s0 := e.S();
      var r := e.QueueOutboundResolution(n, now);
      EvolvesKeepsBound(s0, e.S(), now, 1);
      AddedSize(s0.resolves, r.value, e.resolves[r.value]);
    }
    WaitingSize(e.resolves, now);
  }

  /** Last, a failed update for the peer: its record is owed a reconciliation that cannot be asked. */
  method OweOne(e: Engine, key: nat, policy: Policy, now: nat)
    requires e.Valid() && e.negativeTtl == 0 && e.maxInflight > 0 && |e.peers| > 0
    requires key in e.byKey && key in e.admitted && e.reconciles == map[]
    requires |Waiting(e.resolves, now)| == e.maxInflight
    modifies e
    ensures e.Valid() && Over(e.S(), now, e.maxInflight) && Room(e.S(), now)
  {
    ghost var s0 := e.S();
    assert PeerOk(s0, s0.byKey[key]);
    e.HeldAnswer(key, Failed, policy, now);
    EvolvesKeepsBound(s0, e.S(), now, e.Slack());
    OneOwed(e.S(), key, now, e.maxInflight);
  }
}

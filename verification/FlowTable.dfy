/** The mutable flow table behind the firewall, with its derived per-peer counts. */
module FlowTable {
  import opened Common
  import opened Packets
  import opened Flows

  /** The entries still alive at `now`. */
  function Alive(es: seq<Entry>, now: nat): seq<Entry> {
    Keep(es, Unexpired(now))
  }

  function Unexpired(now: nat): Entry -> bool {
    (e: Entry) => e.expires > now
  }

  function NotOf(peer: nat): Entry -> bool {
    (e: Entry) => e.peer != peer
  }

  /** Entry `i` is a live entry of `peer` for `flow`. */
  predicate LiveAt(es: seq<Entry>, i: nat, peer: nat, flow: FlowKey, now: nat) {
    i < |es| && es[i].peer == peer && es[i].expires > now && es[i].flow == flow
  }

  /** The flow whose return traffic carries `key`. */
  function Reverse(key: FlowKey): (r: FlowKey)
    ensures forall f :: IsReverseOf(key, f) <==> f == r
  {
    FlowKey(key.dst, key.src, key.protocol, key.dstPort, key.srcPort)
  }

  /** Some chain of events justifies the entry. */
  ghost predicate Justified(h: seq<Event>, t: Timeouts, e: Entry) {
    exists chain :: Records(h, t, e, chain)
  }

  lemma JustifiedGrows(h: seq<Event>, t: Timeouts, e: Entry, ev: Event)
    requires Justified(h, t, e) && ev != Removed(e.peer)
    ensures Justified(h + [ev], t, e)
  {
    var chain :| Records(h, t, e, chain);
    RecordsGrows(h, t, e, chain, ev);
  }

  lemma JustifiedRefresh(h: seq<Event>, t: Timeouts, e: Entry, ev: Event)
    requires Justified(h, t, e) && Refreshes(ev, e.peer, e.flow) && ev.time < e.expires
    ensures Justified(h + [ev], t, Refreshed(t, e, Flow(ev).value, ev.time))
    ensures Witnessed(h + [ev], t, e.peer, e.flow)
  {
    var chain :| Records(h, t, e, chain);
    RecordsRefresh(h, t, e, chain, ev);
  }

  lemma JustifiedOpen(h: seq<Event>, t: Timeouts, ev: Event, peer: nat, flow: FlowKey)
    requires Opens(ev, peer, flow)
    ensures Justified(h + [ev], t, NewEntry(t, peer, flow, ev.time))
  {
    RecordsOpen(h, t, ev, peer, flow);
  }

  /** The latest event is the end of a chain that has kept `flow` of `peer` open since it was last cleared. */
  ghost predicate Witnessed(h: seq<Event>, t: Timeouts, peer: nat, flow: FlowKey) {
    exists chain :: Chain(h, t, peer, flow, chain) && chain[|chain| - 1] == |h| - 1
      && NotClearedSince(h, peer, chain[0])
  }

  /** What an outbound packet does to the table. */
  ghost predicate Observed(es: seq<Entry>, after: seq<Entry>, t: Timeouts, peer: nat, parsed: Parsed, now: nat,
                           max: nat, quota: nat) {
    if exists i: nat :: LiveAt(es, i, peer, parsed.key, now) then
      exists i: nat :: LiveAt(es, i, peer, parsed.key, now) && after == es[i := Refreshed(t, es[i], parsed, now)]
    else if OpensNewFlow(parsed) then
      Admission(Alive(es, now), after, NewEntry(t, peer, parsed.key, now), max, quota)
    else
      after == es
  }

  /** Whether an inbound packet is let in: an error about a live flow, or return traffic of one. */
  ghost predicate Admissible(es: seq<Entry>, peer: nat, packet: seq<Byte>, now: nat) {
    ParseFlow(packet).Some?
    && var p := ParseFlow(packet).value;
    match p.kind
    case Error => exists i: nat :: LiveAt(es, i, peer, p.key, now)
    case EchoRequest => false
    case Tcp(f) => !(Syn(f) && !Ack(f)) && exists i: nat :: LiveAt(es, i, peer, Reverse(p.key), now)
    case Udp => exists i: nat :: LiveAt(es, i, peer, Reverse(p.key), now)
    case EchoReply => exists i: nat :: LiveAt(es, i, peer, Reverse(p.key), now)
  }

  class Firewall {
    const timeouts: Timeouts
    const maxEntries: nat
    const quota: nat
    const maxPeers: nat
    var entries: seq<Entry>
    /** Derived `u16` counts of the entries of each peer. */
    var counts: seq<nat>
    /** Every call since construction. */
    ghost var history: seq<Event>

    ghost predicate Valid()
      reads this
    {
      && maxEntries <= U16_MAX && |counts| == maxPeers
      && |entries| <= maxEntries && Distinct(entries)
      && (forall e <- entries :: e.peer < maxPeers)
      && CountsOk(entries)
      && (forall p: nat :: Count(entries, p) <= quota)
      && (forall e <- entries :: Justified(history, timeouts, e))
    }

    ghost predicate CountsOk(es: seq<Entry>)
      reads this
    {
      |counts| == maxPeers && forall p: nat | p < maxPeers :: counts[p] == Count(es, p)
    }

    /** `MAX_FLOWS` is `maxFlows`, the storage ceiling; the active limits are cut to it. */
    constructor (timeouts: Timeouts, maxEntries: nat, perPeer: nat, maxFlows: nat, maxPeers: nat)
      requires maxFlows <= U16_MAX
      ensures Valid() && entries == [] && history == []
      ensures this.timeouts == timeouts && this.maxPeers == maxPeers
      ensures this.maxEntries == Min(maxEntries, maxFlows) && this.quota == Min(Min(perPeer, maxEntries), maxFlows)
    {
      this.timeouts := timeouts;
      this.maxEntries := Min(maxEntries, maxFlows);
      this.quota := Min(Min(perPeer, maxEntries), maxFlows);
      this.maxPeers := maxPeers;
      entries := [];
      counts := seq(maxPeers, _ => 0);
      history := [];
    }

    function PeerCount(peer: nat): nat
      requires |counts| == maxPeers
      reads this
    {
      if peer < maxPeers then counts[peer] else 0
    }

    /** Recounts the table from scratch. */
    method RebuildCounts()
      requires |counts| == maxPeers && |entries| <= U16_MAX
      modifies this`counts
      ensures CountsOk(entries)
    {
      counts := seq(maxPeers, _ => 0);
      for i := 0 to |entries|
        invariant CountsOk(entries[..i])
      {
        var peer := entries[i].peer;
        assert entries[..i + 1] == entries[..i] + [entries[i]];
        forall p: nat ensures Count(entries[..i + 1], p) == Count(entries[..i], p) + (if peer == p then 1 else 0) {
          CountPush(entries[..i], entries[i], p);
        }
        if peer < maxPeers {
          counts := counts[peer := Saturate(counts[peer] + 1, U16_MAX)];
        }
      }
      assert entries[..|entries|] == entries;
    }

    /** Drops expired entries. */
    method CollectExpired(now: nat)
      requires Valid()
      modifies this`entries, this`counts
      ensures Valid() && entries == Alive(old(entries), now)
    {
      var previous := |entries|;
      KeepDistinct(entries, Unexpired(now));
      forall p: nat ensures Count(Alive(entries, now), p) <= quota {
        KeepCount(entries, Unexpired(now), p);
      }
      entries := Alive(entries, now);
      if |entries| != previous {
        RebuildCounts();
      }
    }

    /** The owner's first entry that no other of its entries beats. */
    method VictimOwnedBy(peer: nat) returns (v: Option<nat>)
      ensures v.Some? ==> IsVictim(entries, peer, v.value)
      ensures v.None? ==> forall e <- entries :: e.peer != peer
    {
      v := None;
      for i := 0 to |entries|
        invariant v.Some? ==> v.value < i && entries[v.value].peer == peer
        invariant v.Some? ==> forall k | 0 <= k < i && entries[k].peer == peer :: NoBetter(entries[v.value], entries[k])
        invariant v.None? ==> forall k | 0 <= k < i :: entries[k].peer != peer
      {
        if entries[i].peer == peer && (v.None? || !NoBetter(entries[v.value], entries[i])) {
          v := Some(i);
        }
      }
    }

    /** The first peer with more entries than the requester and than every peer before it. */
    method LargestOwner(requester: nat) returns (owner: Option<nat>)
      requires Valid() && requester < maxPeers
      ensures owner.None? ==> Largest(entries, requester)
      ensures owner.Some? ==> Largest(entries, owner.value) && Count(entries, owner.value) > Count(entries, requester)
    {
      owner := None;
      var largest := PeerCount(requester);
      for p := 0 to maxPeers
        invariant largest == if owner.Some? then Count(entries, owner.value) else Count(entries, requester)
        invariant owner.Some? ==> Count(entries, owner.value) > Count(entries, requester)
        invariant forall k: nat | k < p :: Count(entries, k) <= largest
      {
        if counts[p] > largest {
          largest := counts[p];
          owner := Some(p);
        }
      }
      forall p: nat | p >= maxPeers ensures Count(entries, p) == 0 {
        CountAbsent(entries, p);
      }
    }

    /** A full table's victim: the requester's own entry unless a strictly larger owner can spare one. */
    method FairVictim(requester: nat) returns (v: Option<nat>)
      requires Valid() && requester < maxPeers
      ensures v.None? ==> Count(entries, requester) == 0 && (quota == 0 || Largest(entries, requester))
      ensures v.Some? ==>
                if Count(entries, requester) >= quota || Largest(entries, requester)
                then IsVictim(entries, requester, v.value)
                else exists owner: nat :: Largest(entries, owner) && Count(entries, owner) > Count(entries, requester)
                                          && IsVictim(entries, owner, v.value)
    {
      if PeerCount(requester) >= quota {
        v := OwnVictim(requester);
        return;
      }
      var owner := LargestOwner(requester);
      if owner.Some? {
        v := OwnVictim(owner.value);
        if v.Some? {
          assert !Largest(entries, requester);
          return;
        }
      }
      v := OwnVictim(requester);
    }

    method OwnVictim(peer: nat) returns (v: Option<nat>)
      ensures v.Some? ==> IsVictim(entries, peer, v.value)
      ensures v.None? <==> Count(entries, peer) == 0
    {
      v := VictimOwnedBy(peer);
      if v.Some? {
        CountMember(entries, v.value);
      } else {
        CountAbsent(entries, peer);
      }
    }

    /** The live entry of `peer` for `flow`, if any. */
    method FindLive(peer: nat, flow: FlowKey, now: nat) returns (r: Option<nat>)
      ensures r.Some? ==> LiveAt(entries, r.value, peer, flow, now)
      ensures r.None? ==> forall i: nat :: !LiveAt(entries, i, peer, flow, now)
    {
      for i := 0 to |entries|
        invariant forall k: nat | k < i :: !LiveAt(entries, k, peer, flow, now)
      {
        if entries[i].peer == peer && entries[i].expires > now && entries[i].flow == flow {
          return Some(i);
        }
      }
      return None;
    }

    method IncrementPeer(peer: nat)
      requires |counts| == maxPeers
      modifies this`counts
      ensures counts == if peer >= maxPeers then old(counts)
                        else old(counts)[peer := Saturate(old(counts)[peer] + 1, U16_MAX)]
    {
      if peer < maxPeers {
        counts := counts[peer := Saturate(counts[peer] + 1, U16_MAX)];
      }
    }

    method DecrementPeer(peer: nat)
      requires |counts| == maxPeers
      modifies this`counts
      ensures counts == if peer >= maxPeers then old(counts)
                        else old(counts)[peer := SaturatingSub(old(counts)[peer], 1)]
    {
      if peer < maxPeers {
        counts := counts[peer := SaturatingSub(counts[peer], 1)];
      }
    }

    /** Overwrites entry `position`, moving its count to the new owner. */
    method Replace(position: nat, entry: Entry)
      requires CountsOk(entries) && |entries| <= U16_MAX && position < |entries|
      modifies this`entries, this`counts
      ensures entries == old(entries)[position := entry] && CountsOk(entries)
    {
      var previous := entries[position];
      ghost var es := entries[position := entry];
      forall p: nat
        ensures Count(es, p) + (if previous.peer == p then 1 else 0)
             == Count(entries, p) + (if entry.peer == p then 1 else 0)
      {
        CountReplace(entries, position, entry, p);
      }
      if previous.peer != entry.peer {
        DecrementPeer(previous.peer);
        IncrementPeer(entry.peer);
      }
      entries := entries[position := entry];
    }

    /** Appends an entry while the table is below its limit. */
    method Push(entry: Entry) returns (ok: bool)
      requires CountsOk(entries) && |entries| <= maxEntries <= U16_MAX
      modifies this`entries, this`counts
      ensures ok <==> |old(entries)| < maxEntries
      ensures entries == if ok then old(entries) + [entry] else old(entries)
      ensures CountsOk(entries)
    {
      if |entries| >= maxEntries {
        return false;
      }
      forall p: nat ensures Count(entries + [entry], p) == Count(entries, p) + (if entry.peer == p then 1 else 0) {
        CountPush(entries, entry, p);
      }
      entries := entries + [entry];
      IncrementPeer(entry.peer);
      return true;
    }

    /** Admits a new flow into a table free of expired entries. */
    method Admit(entry: Entry)
      requires Valid() && entry.peer < maxPeers
      requires forall e <- entries :: e.peer != entry.peer || e.flow != entry.flow
      modifies this`entries, this`counts
      ensures Admission(old(entries), entries, entry, maxEntries, quota)
      ensures CountsOk(entries) && |entries| <= maxEntries && Distinct(entries)
      ensures forall p: nat :: Count(entries, p) <= quota
      ensures forall e <- entries :: e == entry || e in old(entries)
    {
      ghost var es := entries;
      var pushed := false;
      if PeerCount(entry.peer) < quota {
        pushed := Push(entry);
      }
      if !pushed {
        Recycle(entry);
      }
      AdmissionBounded(es, entries, entry, maxEntries, quota);
    }

    /** Recycles an entry for a flow that found no room. */
    method Recycle(entry: Entry)
      requires Valid() && entry.peer < maxPeers
      requires Count(entries, entry.peer) >= quota || |entries| >= maxEntries
      modifies this`entries, this`counts
      ensures Admission(old(entries), entries, entry, maxEntries, quota) && CountsOk(entries)
    {
      var victim := FairVictim(entry.peer);
      if victim.Some? {
        CountMember(entries, victim.value);
        Replace(victim.value, entry);
      }
    }

    /** Appends an event that clears no peer of the table. */
    ghost method Remember(ev: Event)
      requires Valid() && forall e <- entries :: ev != Removed(e.peer)
      modifies this`history
      ensures Valid() && history == old(history) + [ev]
    {
      forall e <- entries ensures Justified(history + [ev], timeouts, e) {
        JustifiedGrows(history, timeouts, e, ev);
      }
      history := history + [ev];
    }

    /** Refreshes live entry `i` with the packet of the latest event. */
    method RefreshAt(i: nat, parsed: Parsed, now: nat, ghost h: seq<Event>, ghost ev: Event)
      requires Valid() && i < |entries| && entries[i].expires > now
      requires history == h + [ev] && Justified(h, timeouts, entries[i])
      requires Refreshes(ev, entries[i].peer, entries[i].flow) && Flow(ev) == Some(parsed) && ev.time == now
      modifies this`entries
      ensures Valid() && entries == old(entries)[i := Refreshed(timeouts, old(entries)[i], parsed, now)]
      ensures Witnessed(history, timeouts, entries[i].peer, entries[i].flow)
    {
      var e := Refreshed(timeouts, entries[i], parsed, now);
      JustifiedRefresh(h, timeouts, entries[i], ev);
      ReplaceSame(entries, entries[i := e], i, e);
      entries := entries[i := e];
    }

    /** Records an outbound packet. */
    method ObserveOutbound(peer: nat, packet: seq<Byte>, now: nat)
      requires Valid()
      modifies this`entries, this`counts, this`history
      ensures Valid() && history == old(history) + [Outbound(peer, packet, now)]
      ensures peer >= maxPeers || ParseFlow(packet).None? || ParseFlow(packet).value.kind.Error? ==>
                entries == old(entries)
      ensures peer < maxPeers && ParseFlow(packet).Some? && !ParseFlow(packet).value.kind.Error? ==>
                Observed(old(entries), entries, timeouts, peer, ParseFlow(packet).value, now, maxEntries, quota)
    {
      ghost var ev := Outbound(peer, packet, now);
      Remember(ev);
      if peer >= maxPeers {
        return;
      }
      var flow := ParseFlow(packet);
      if flow.None? || flow.value.kind.Error? {
        return;
      }
      var parsed := flow.value;
      var pos := FindLive(peer, parsed.key, now);
      if pos.Some? {
        RefreshAt(pos.value, parsed, now, old(history), ev);
        return;
      }
      if !OpensNewFlow(parsed) {
        return;
      }
      OpenFlow(peer, parsed.key, now, old(history), ev);
    }

    /** Tracks the new flow that the latest event opened. */
    method OpenFlow(peer: nat, flow: FlowKey, now: nat, ghost h: seq<Event>, ghost ev: Event)
      requires Valid() && peer < maxPeers && history == h + [ev] && Opens(ev, peer, flow) && ev.time == now
      requires forall i: nat :: !LiveAt(entries, i, peer, flow, now)
      modifies this`entries, this`counts
      ensures Valid()
      ensures Admission(Alive(old(entries), now), entries, NewEntry(timeouts, peer, flow, now), maxEntries, quota)
    {
      CollectExpired(now);
      var entry := NewEntry(timeouts, peer, flow, now);
      forall e <- entries ensures e.peer != peer || e.flow != flow {
        var i :| 0 <= i < |old(entries)| && old(entries)[i] == e;
        assert !LiveAt(old(entries), i, peer, flow, now);
      }
      Admit(entry);
      JustifiedOpen(h, timeouts, ev, peer, flow);
    }

    /**
     Decides whether an inbound packet may pass. Return traffic is admitted
     exactly when a live entry matches, refreshes that entry, and always has a
     history witness; an error neither creates, refreshes nor removes state.
     */
    method AllowsInbound(peer: nat, packet: seq<Byte>, now: nat) returns (admitted: bool)
      requires Valid()
      modifies this`entries, this`history
      ensures Valid() && history == old(history) + [Inbound(peer, packet, now, admitted)]
      ensures admitted <==> Admissible(old(entries), peer, packet, now)
      ensures admitted && !ParseFlow(packet).value.kind.Error? ==>
                && Witnessed(history, timeouts, peer, Reverse(ParseFlow(packet).value.key))
                && exists i: nat :: LiveAt(old(entries), i, peer, Reverse(ParseFlow(packet).value.key), now)
                     && entries == old(entries)[i := Refreshed(timeouts, old(entries)[i], ParseFlow(packet).value, now)]
      ensures !admitted || ParseFlow(packet).value.kind.Error? ==> entries == old(entries)
    {
      var flow := ParseFlow(packet);
      if flow.None? {
        Remember(Inbound(peer, packet, now, false));
        return false;
      }
      var parsed := flow.value;
      if parsed.kind.Error? {
        var related := FindLive(peer, parsed.key, now);
        Remember(Inbound(peer, packet, now, related.Some?));
        return related.Some?;
      }
      if (parsed.kind.Tcp? && Syn(parsed.kind.flags) && !Ack(parsed.kind.flags)) || parsed.kind.EchoRequest? {
        Remember(Inbound(peer, packet, now, false));
        return false;
      }
      var pos := FindLive(peer, Reverse(parsed.key), now);
      if pos.None? {
        Remember(Inbound(peer, packet, now, false));
        return false;
      }
      ghost var ev := Inbound(peer, packet, now, true);
      Remember(ev);
      RefreshAt(pos.value, parsed, now, old(history), ev);
      return true;
    }

    /** Forgets every flow of `peer`. */
    method RemovePeer(peer: nat)
      requires Valid()
      modifies this`entries, this`counts, this`history
      ensures Valid() && history == old(history) + [Removed(peer)]
      ensures entries == Keep(old(entries), NotOf(peer))
    {
      KeepDistinct(entries, NotOf(peer));
      forall p: nat
        ensures Count(Keep(entries, NotOf(peer)), p) == if p == peer then 0 else Count(entries, p)
      {
        KeepCount(entries, NotOf(peer), p);
      }
      entries := Keep(entries, NotOf(peer));
      if peer < maxPeers {
        counts := counts[peer := 0];
      }
      Remember(Removed(peer));
    }
  }

  /** In every reachable table, an entry's deadline is the protocol's lifetime after its last packet. */
  lemma EntryLifetime(f: Firewall, i: nat)
    requires f.Valid() && i < |f.entries|
    ensures exists chain ::
              && Chain(f.history, f.timeouts, f.entries[i].peer, f.entries[i].flow, chain)
              && f.entries[i].lastSeen == f.history[chain[|chain| - 1]].time
              && LivesFor(f.timeouts, f.entries[i].flow.protocol, ClosedBefore(f.history, chain, |chain|),
                          f.entries[i].expires - f.entries[i].lastSeen)
  {
    var chain :| Records(f.history, f.timeouts, f.entries[i], chain);
    ExpiryMeaning(f.history, f.timeouts, f.entries[i], chain);
  }
}

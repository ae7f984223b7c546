/**
 The stateful ingress firewall: a bounded flow table with per-peer counts,
 quotas and fair eviction, and the history that justifies every admission.
 */
module Flows {
  import opened Common
  import opened Packets

  datatype Timeouts = Timeouts(udp: nat, icmp: nat, tcp: nat, tcpClosing: nat)

  /** The lifetime a flow's entry gets from its next refresh. */
  function Lifetime(t: Timeouts, protocol: Byte, closing: bool): nat {
    if protocol == UDP then t.udp
    else if protocol == ICMP || protocol == ICMPV6 then t.icmp
    else if closing then t.tcpClosing
    else t.tcp
  }

  datatype Entry = Entry(peer: nat, flow: FlowKey, expires: nat, lastSeen: nat, closing: bool)

  function NewEntry(t: Timeouts, peer: nat, flow: FlowKey, now: nat): Entry {
    Entry(peer, flow, now + Lifetime(t, flow.protocol, false), now, false)
  }

  function Refreshed(t: Timeouts, e: Entry, p: Parsed, now: nat): Entry {
    var closing := e.closing || IsClosing(p);
    e.(lastSeen := now, closing := closing, expires := now + Lifetime(t, e.flow.protocol, closing))
  }

  // ---------------------------------------------------------------------
  // Counting entries
  // ---------------------------------------------------------------------

  function Count(es: seq<Entry>, peer: nat): (n: nat)
    ensures n <= |es|
  {
    if es == [] then 0
    else Count(es[..|es| - 1], peer) + (if es[|es| - 1].peer == peer then 1 else 0)
  }

  lemma CountPush(es: seq<Entry>, e: Entry, peer: nat)
    ensures Count(es + [e], peer) == Count(es, peer) + (if e.peer == peer then 1 else 0)
  {
    assert (es + [e])[..|es|] == es;
  }

  lemma {:induction false} CountReplace(es: seq<Entry>, i: nat, e: Entry, peer: nat)
    requires i < |es|
    ensures Count(es[i := e], peer) + (if es[i].peer == peer then 1 else 0)
         == Count(es, peer) + (if e.peer == peer then 1 else 0)
  {
    var n := |es| - 1;
    if i == n {
      assert es[i := e][..n] == es[..n];
    } else {
      CountReplace(es[..n], i, e, peer);
      assert es[i := e][..n] == es[..n][i := e];
    }
  }

  lemma {:induction false} CountMember(es: seq<Entry>, i: nat)
    requires i < |es|
    ensures Count(es, es[i].peer) > 0
  {
    if i < |es| - 1 {
      CountMember(es[..|es| - 1], i);
    }
  }

  lemma {:induction false} CountAbsent(es: seq<Entry>, peer: nat)
    requires forall e <- es :: e.peer != peer
    ensures Count(es, peer) == 0
  {
    if es != [] {
      assert es[|es| - 1] in es && forall e <- es[..|es| - 1] :: e in es;
      CountAbsent(es[..|es| - 1], peer);
    }
  }

  /** Removing entries by a test that keeps the order. */
  function Keep(es: seq<Entry>, f: Entry -> bool): (r: seq<Entry>)
    ensures |r| <= |es|
    ensures forall e <- r :: e in es && f(e)
    ensures forall e <- es :: f(e) ==> e in r
    ensures |r| == |es| ==> r == es
  {
    if es == [] then []
    else
      var n := |es| - 1;
      var front := Keep(es[..n], f);
      assert es == es[..n] + [es[n]];
      if f(es[n]) then front + [es[n]] else front
  }

  /** No peer has two entries for one flow. */
  ghost predicate Distinct(es: seq<Entry>) {
    forall i, j | 0 <= i < j < |es| :: es[i].peer != es[j].peer || es[i].flow != es[j].flow
  }

  lemma {:induction false} KeepDistinct(es: seq<Entry>, f: Entry -> bool)
    requires Distinct(es)
    ensures Distinct(Keep(es, f))
  {
    if es != [] {
      var n := |es| - 1;
      KeepDistinct(es[..n], f);
      forall e <- Keep(es[..n], f) ensures e.peer != es[n].peer || e.flow != es[n].flow {
        assert e in es[..n];
      }
    }
  }

  lemma {:induction false} KeepCount(es: seq<Entry>, f: Entry -> bool, peer: nat)
    ensures Count(Keep(es, f), peer) <= Count(es, peer)
    ensures (forall e <- es :: e.peer == peer ==> f(e)) ==> Count(Keep(es, f), peer) == Count(es, peer)
    ensures (forall e <- es :: e.peer == peer ==> !f(e)) ==> Count(Keep(es, f), peer) == 0
  {
    if es != [] {
      var n := |es| - 1;
      KeepCount(es[..n], f, peer);
      assert es[n] in es && forall e <- es[..n] :: e in es;
      if f(es[n]) {
        CountPush(Keep(es[..n], f), es[n], peer);
      }
    }
  }

  /** Overwriting an entry with one of the same peer and flow keeps counts and distinctness. */
  lemma ReplaceSame(es: seq<Entry>, after: seq<Entry>, i: nat, e: Entry)
    requires i < |es| && e.peer == es[i].peer && e.flow == es[i].flow && after == es[i := e] && Distinct(es)
    ensures Distinct(after) && forall x <- after :: x == e || x in es
    ensures forall p: nat :: Count(after, p) == Count(es, p)
  {
    forall p: nat ensures Count(after, p) == Count(es, p) {
      CountReplace(es, i, e, p);
    }
  }

  // ---------------------------------------------------------------------
  // Admission of a new flow
  // ---------------------------------------------------------------------

  /** Eviction preference within one owner: closing entries first, then the longest unseen. */
  predicate NoBetter(a: Entry, b: Entry) {
    if a.closing == b.closing then a.lastSeen <= b.lastSeen else a.closing
  }

  /** `v` is the owner's entry to recycle. */
  ghost predicate IsVictim(es: seq<Entry>, owner: nat, v: nat) {
    && v < |es| && es[v].peer == owner
    && forall i | 0 <= i < |es| && es[i].peer == owner :: NoBetter(es[v], es[i])
  }

  /** No peer holds more entries than `owner`. */
  ghost predicate Largest(es: seq<Entry>, owner: nat) {
    forall p: nat :: Count(es, p) <= Count(es, owner)
  }

  /** How the table `es`, free of expired entries, may change when flow `e` is admitted. */
  ghost predicate Admission(es: seq<Entry>, after: seq<Entry>, e: Entry, max: nat, quota: nat) {
    if Count(es, e.peer) < quota && |es| < max then after == es + [e]
    else if Count(es, e.peer) >= quota || Largest(es, e.peer) then
      if Count(es, e.peer) == 0 then after == es
      else exists v: nat :: IsVictim(es, e.peer, v) && after == es[v := e]
    else
      exists v: nat, owner: nat ::
        && Largest(es, owner) && Count(es, owner) > Count(es, e.peer)
        && IsVictim(es, owner, v) && after == es[v := e]
  }

  /** With nonzero limits every admitted flow ends up tracked. */
  lemma AdmissionTracks(es: seq<Entry>, after: seq<Entry>, e: Entry, max: nat, quota: nat)
    requires Admission(es, after, e, max, quota) && max > 0 && quota > 0
    ensures e in after
  {
    if Count(es, e.peer) < quota && |es| < max {
      assert after[|es|] == e;
    } else if Count(es, e.peer) == 0 && Largest(es, e.peer) {
      CountMember(es, 0);
      assert false;
    } else if Count(es, e.peer) >= quota || Largest(es, e.peer) {
      var v: nat :| IsVictim(es, e.peer, v) && after == es[v := e];
      assert after[v] == e;
    } else {
      var v: nat, owner: nat :| Largest(es, owner) && Count(es, owner) > Count(es, e.peer)
                                && IsVictim(es, owner, v) && after == es[v := e];
      assert after[v] == e;
    }
  }

  /**
   Another peer loses at most one entry, and only when the table is full, the
   requester is below its quota, and the loser holds strictly more than the
   requester; the requester then ends up with no more than the loser had.
   */
  lemma AdmissionFair(es: seq<Entry>, after: seq<Entry>, e: Entry, max: nat, quota: nat, other: nat)
    requires Admission(es, after, e, max, quota) && other != e.peer
    ensures Count(es, other) - 1 <= Count(after, other) <= Count(es, other)
    ensures Count(after, other) < Count(es, other) ==>
              && |es| >= max && Count(es, e.peer) < quota
              && Count(es, e.peer) < Count(es, other) && Count(after, e.peer) <= Count(es, other)
              && forall p: nat :: Count(after, p) <= Count(es, other)
  {
    if Count(es, e.peer) < quota && |es| < max {
      CountPush(es, e, other);
    } else if after != es {
      var v: nat :| v < |es| && after == es[v := e]
                    && (es[v].peer == e.peer || (Largest(es, es[v].peer) && Count(es, es[v].peer) > Count(es, e.peer)
                                                  && Count(es, e.peer) < quota));
      CountReplace(es, v, e, other);
      if es[v].peer != e.peer {
        ReplaceFromLargest(es, after, v, e);
      }
    }
  }

  lemma ReplaceFromLargest(es: seq<Entry>, after: seq<Entry>, v: nat, e: Entry)
    requires v < |es| && Largest(es, es[v].peer) && Count(es, e.peer) < Count(es, es[v].peer)
    requires after == es[v := e]
    ensures forall p: nat :: Count(after, p) <= Count(es, es[v].peer)
  {
    forall p: nat ensures Count(after, p) <= Count(es, es[v].peer) {
      CountReplace(es, v, e, p);
    }
  }

  /** The table keeps its limits. */
  lemma AdmissionBounded(es: seq<Entry>, after: seq<Entry>, e: Entry, max: nat, quota: nat)
    requires Admission(es, after, e, max, quota) && |es| <= max && Distinct(es)
    requires forall p: nat :: Count(es, p) <= quota
    requires forall i | 0 <= i < |es| :: es[i].peer != e.peer || es[i].flow != e.flow
    ensures |after| <= max && Distinct(after)
    ensures forall p: nat :: Count(after, p) <= quota
    ensures forall x <- after :: x == e || x in es
  {
    if Count(es, e.peer) < quota && |es| < max {
      forall p: nat ensures Count(after, p) <= quota {
        CountPush(es, e, p);
      }
    } else if after != es {
      var v: nat :| v < |es| && after == es[v := e]
                    && (es[v].peer == e.peer || Count(es, e.peer) < quota);
      forall p: nat ensures Count(after, p) <= quota {
        CountReplace(es, v, e, p);
      }
    }
  }

  // ---------------------------------------------------------------------
  // History: what justifies a live entry
  // ---------------------------------------------------------------------

  datatype Event =
    | Outbound(peer: nat, packet: seq<Byte>, time: nat)
    | Inbound(peer: nat, packet: seq<Byte>, time: nat, admitted: bool)
    | Removed(peer: nat)

  /** What the event's packet parses to. */
  function Flow(ev: Event): Option<Parsed> {
    if ev.Removed? then None else ParseFlow(ev.packet)
  }

  /** The event opened `flow` towards `peer`. */
  predicate Opens(ev: Event, peer: nat, flow: FlowKey) {
    && ev.Outbound? && ev.peer == peer
    && Flow(ev).Some? && Flow(ev).value.key == flow && OpensNewFlow(Flow(ev).value)
  }

  /** The event is traffic of `flow`, in either direction, that the firewall let pass. */
  predicate Refreshes(ev: Event, peer: nat, flow: FlowKey) {
    && !ev.Removed? && ev.peer == peer
    && Flow(ev).Some? && !Flow(ev).value.kind.Error?
    && (ev.Outbound? ==> Flow(ev).value.key == flow)
    && (ev.Inbound? ==> ev.admitted && IsReverseOf(Flow(ev).value.key, flow))
  }

  /** Some refresh of the chain carried a FIN or RST. */
  predicate SawClosing(h: seq<Event>, chain: seq<nat>) {
    |chain| > 1
    && (SawClosing(h, chain[..|chain| - 1])
        || var i := chain[|chain| - 1]; i < |h| && Flow(h[i]).Some? && IsClosing(Flow(h[i]).value))
  }

  /**
   `chain` lists events that keep `flow` of `peer` open: an opening packet, then
   refreshes in order, each before the lifetime then in force has run out.
   */
  predicate Chain(h: seq<Event>, t: Timeouts, peer: nat, flow: FlowKey, chain: seq<nat>)
    ensures Chain(h, t, peer, flow, chain) ==>
              chain != [] && chain[|chain| - 1] < |h| && !h[chain[|chain| - 1]].Removed?
  {
    chain != []
    && var n := |chain| - 1;
    && chain[n] < |h|
    && if n == 0 then Opens(h[chain[0]], peer, flow)
       else
         && Chain(h, t, peer, flow, chain[..n])
         && chain[n - 1] < chain[n] && Refreshes(h[chain[n]], peer, flow)
         && h[chain[n]].time < Deadline(h, t, flow, chain[..n])
  }

  /** When the flow kept open by `chain` expires. */
  function Deadline(h: seq<Event>, t: Timeouts, flow: FlowKey, chain: seq<nat>): nat
    requires chain != [] && chain[|chain| - 1] < |h| && !h[chain[|chain| - 1]].Removed?
  {
    h[chain[|chain| - 1]].time + Lifetime(t, flow.protocol, SawClosing(h, chain))
  }

  /** The peer was not cleared since event `from`. */
  predicate NotClearedSince(h: seq<Event>, peer: nat, from: nat) {
    forall i | from < i < |h| :: h[i] != Removed(peer)
  }

  /** The entry records exactly what its chain of events did. */
  ghost predicate Records(h: seq<Event>, t: Timeouts, e: Entry, chain: seq<nat>) {
    && Chain(h, t, e.peer, e.flow, chain)
    && NotClearedSince(h, e.peer, chain[0])
    && e.closing == SawClosing(h, chain)
    && e.lastSeen == h[chain[|chain| - 1]].time
    && e.expires == Deadline(h, t, e.flow, chain)
  }

  // ---------------------------------------------------------------------
  // What the lifetimes are
  // ---------------------------------------------------------------------

  /** A TCP segment with the FIN or RST bit. */
  predicate CarriesFinOrRst(ev: Event) {
    && !ev.Removed? && ParseFlow(ev.packet).Some? && ParseFlow(ev.packet).value.kind.Tcp?
    && var flags := ParseFlow(ev.packet).value.kind.flags;
    flags % 2 == 1 || flags / 4 % 2 == 1
  }

  /** Some refresh of the chain before its `k`th event carried a FIN or RST. */
  predicate ClosedBefore(h: seq<Event>, chain: seq<nat>, k: nat) {
    exists m :: 0 < m < k && m < |chain| && chain[m] < |h| && CarriesFinOrRst(h[chain[m]])
  }

  /** How long a flow of this protocol lives after a packet, and how much shorter once it is closing. */
  predicate LivesFor(t: Timeouts, protocol: Byte, closed: bool, span: int) {
    && (protocol == 17 ==> span == t.udp)
    && (protocol == 1 || protocol == 58 ==> span == t.icmp)
    && (protocol == 6 && closed ==> span == t.tcpClosing)
    && (protocol == 6 && !closed ==> span == t.tcp)
  }

  lemma {:induction false} ClosingMeaning(h: seq<Event>, chain: seq<nat>)
    ensures SawClosing(h, chain) <==> ClosedBefore(h, chain, |chain|)
    decreases |chain|
  {
    if |chain| > 1 {
      var n := |chain| - 1;
      var front := chain[..n];
      ClosingMeaning(h, front);
      assert ClosedBefore(h, front, n) <==> ClosedBefore(h, chain, n) by {
        assert forall m | 0 < m < n :: front[m] == chain[m];
      }
      if SawClosing(h, chain) && !SawClosing(h, front) {
        assert CarriesFinOrRst(h[chain[n]]);
      }
    }
  }

  /** A recorded entry expires the protocol's lifetime after its last packet, the closing one after a FIN or RST. */
  lemma ExpiryMeaning(h: seq<Event>, t: Timeouts, e: Entry, chain: seq<nat>)
    requires Records(h, t, e, chain)
    ensures chain[|chain| - 1] < |h| && !h[chain[|chain| - 1]].Removed? && e.lastSeen == h[chain[|chain| - 1]].time
    ensures LivesFor(t, e.flow.protocol, ClosedBefore(h, chain, |chain|), e.expires - e.lastSeen)
  {
    ClosingMeaning(h, chain);
  }

  /** Each refresh of a chain comes within the lifetime in force after the packet before it. */
  lemma {:induction false} ChainLinks(h: seq<Event>, t: Timeouts, peer: nat, flow: FlowKey, chain: seq<nat>, k: nat)
    requires Chain(h, t, peer, flow, chain) && 0 < k < |chain|
    ensures chain[k - 1] < chain[k] < |h| && !h[chain[k - 1]].Removed? && Refreshes(h[chain[k]], peer, flow)
    ensures exists span :: LivesFor(t, flow.protocol, ClosedBefore(h, chain, k), span)
                           && h[chain[k]].time < h[chain[k - 1]].time + span
    decreases |chain|
  {
    var n := |chain| - 1;
    var front := chain[..n];
    if k < n {
      ChainLinks(h, t, peer, flow, front, k);
      SamePrefixClosed(h, chain, n, k);
    } else {
      ClosingMeaning(h, front);
      SamePrefixClosed(h, chain, n, n);
      var span := Deadline(h, t, flow, front) - h[chain[n - 1]].time;
      assert LivesFor(t, flow.protocol, ClosedBefore(h, chain, k), span);
    }
  }

  lemma SamePrefixClosed(h: seq<Event>, chain: seq<nat>, n: nat, k: nat)
    requires k <= n <= |chain|
    ensures ClosedBefore(h, chain[..n], k) <==> ClosedBefore(h, chain, k)
  {
    assert forall m | 0 < m < k :: chain[..n][m] == chain[m];
  }

  /** The entry to recycle is a closing one if the owner has any, and the longest unseen of its kind. */
  lemma VictimMeaning(es: seq<Entry>, owner: nat, v: nat)
    requires IsVictim(es, owner, v)
    ensures (exists e <- es :: e.peer == owner && e.closing) ==> es[v].closing
    ensures forall e <- es :: e.peer == owner && e.closing == es[v].closing ==> es[v].lastSeen <= e.lastSeen
  {
    forall e <- es | e.peer == owner ensures NoBetter(es[v], e) {
      var i :| 0 <= i < |es| && es[i] == e;
    }
  }

  lemma {:induction false} ChainGrows(h: seq<Event>, t: Timeouts, peer: nat, flow: FlowKey, chain: seq<nat>, ev: Event)
    requires Chain(h, t, peer, flow, chain)
    ensures Chain(h + [ev], t, peer, flow, chain)
    ensures SawClosing(h + [ev], chain) == SawClosing(h, chain)
    decreases |chain|
  {
    var n := |chain| - 1;
    assert (h + [ev])[chain[n]] == h[chain[n]];
    if n > 0 {
      ChainGrows(h, t, peer, flow, chain[..n], ev);
    }
  }

  /** Further events leave a justification standing, unless they clear the peer. */
  lemma RecordsGrows(h: seq<Event>, t: Timeouts, e: Entry, chain: seq<nat>, ev: Event)
    requires Records(h, t, e, chain) && ev != Removed(e.peer)
    ensures Records(h + [ev], t, e, chain)
  {
    ChainGrows(h, t, e.peer, e.flow, chain, ev);
  }

  /** A refresh within the lifetime extends the justification to the latest event. */
  lemma RecordsRefresh(h: seq<Event>, t: Timeouts, e: Entry, chain: seq<nat>, ev: Event)
    requires Records(h, t, e, chain) && Refreshes(ev, e.peer, e.flow) && ev.time < e.expires
    ensures Records(h + [ev], t, Refreshed(t, e, Flow(ev).value, ev.time), chain + [|h|])
  {
    RecordsGrows(h, t, e, chain, ev);
    var c' := chain + [|h|];
    assert c'[..|chain|] == chain && (h + [ev])[|h|] == ev;
  }

  /** An opening packet starts a justification. */
  lemma RecordsOpen(h: seq<Event>, t: Timeouts, ev: Event, peer: nat, flow: FlowKey)
    requires Opens(ev, peer, flow)
    ensures Records(h + [ev], t, NewEntry(t, peer, flow, ev.time), [|h|])
  {
    assert (h + [ev])[|h|] == ev;
  }
}

# A verified model of the microtun tunnel engine

microtun is a WireGuard-style tunnel whose core, `microtun-core`, performs no
I/O: every packet, timer and resolver answer is a call with an explicit clock,
and every table has a fixed capacity. This project models the hard parts of
that core, and the two tokenizers of its command line, in Dafny, and proves
what the design relies on.

- `Engine.dfy`, `EngineSteps.dfy`, `EngineState.dfy`: session slots, wire indices, peer generations, parked packets, resolver bookkeeping and the cached timer bound
- `PrefixTrie.dfy`, `Trie.dfy`, `Bits.dfy`: the path-compressed prefix trie in its bounded node pool
- `FlowTable.dfy`, `Flows.dfy`, `Packets.dfy`: the connection-tracking firewall and its packet parsers
- `Rate.dfy`: token buckets, the per-source rate limiter and the interval budget
- `Noise.dfy`: the Noise IKpsk2 handshake over a term algebra
- `Replay.dfy`: the sliding replay window
- `Timestamps.dfy`: TAI64N handshake timestamps and the responder's replay gate
- `Lexer.dfy`: the in-place lexer and the completion splitter
- `Common.dfy`: shared vocabulary

`dafny verify dfyconfig.toml` checks everything.

## How the main results are built

**Engine.** `EngineState.State` is a snapshot of all tables, and `Deadline`
gives every timer of the machine a name. `Inv` says that the wire-index map is a
bijection onto the slots in use and that each such slot is referred to by
exactly one generation field of its owner, and that every session has a key of
its own with all sealed counters below the next one, that no two seals so far
used the same (key, counter) pair, and that each was made under a session of
the peer it was made for. `Evolves` says how a step
may move timers: stop them, leave them, or start them in the future with the
cached bound lowered to cover them. Each elementary change has a lemma showing
that it keeps `Inv` and is an `Evolves` step; class `Engine` performs the
changes in the order the code does. Whether the clock, the random generator and
the ciphers serve is a `fate`, fixed but arbitrary, consulted once for every time
they are needed; whether a received message is authentic and what a resolver
answers are inputs. So contracts say when a step succeeds and not only what
success means. `Outside` records every transport message offered to a session,
every handshake message built and every waiting packet sent on, and `Acts` says
what each kind of timer is for. From these follow, for every run: the bound reported by
`poll_at` is never late, freeing a slot never fails, index insertion never
overflows, no (key, counter) pair is sealed twice, and draining timeouts
terminates.

**When draining ends.** The contract "call `handle_timeout` again until it
returns false" is not kept for every accepted configuration.
`CoreConfig::validate_against_limits` (microtun-core/src/config.rs:169-188)
accepts `negative_ttl == 0`. A due reconciliation that is blocked, because a
lookup for its key is in flight or because live lookups take up every place, is
then put off to the very same instant (microtun-core/src/resolver.rs:764-767,
778-793), so every call reports more work. `Timeout` states the branch exactly:
the timer that fired is consumed unless the TTL is zero and it is a blocked
reconciliation.

For configurations the condition is `negative_ttl > 0` or
`max_inflight_resolves == 0`. With either, `Drain` terminates from every valid
state; where no lookup is ever made, no answer admits a dynamic peer and nothing
is ever owed, which `Valid` records. Otherwise `ZeroTtlNeverDrains` gives inputs
that lead a new engine into a state where any number of calls return true.

For single states with a zero TTL, `Clear` says that everything owed, now or
once the due lookups have expired, can be asked: no entry is in the way, and
owed keys and waiting lookups fit the places together. `Drain` terminates from
every clear state. `Over` says that they do not, and `Spin` shows that calls then
never end while the backlog has room for what is owed. `ClearOrOver` shows the
two complementary unless a negative marker outlives the instant.

**Inserted completions.** `replace_range` puts double quotes around a value that
needs quoting but does not escape it. `InsertedRoundTrip` gives the exact
condition under which the inserted text lexes back to the value: it contains
neither `"` nor `\`; `InsertedInLine` gives the same for the whole edited line.

**Command lines.** `Line` and `Spelling` are a grammar of lines in byte values:
blanks, two kinds of quotes and backslashes. `GrammarReads` says that every line
of the grammar lexes to the texts of its words, or is refused for having more
than 32; `TokenizersAgree` carries this over to the completion splitter.

**Trie.** A ghost `Shape` gives each live node its absolute prefix. `Wf` states
the edges, parents and path compression; `Stores` ties the nodes to a plain map.
Insertion, removal, splitting and merging are proved against that map, and the
pool bound is a counting argument over it.

**Firewall.** A ghost history records every packet and every peer removal.
`Chain` picks out of it an opening packet and an unbroken run of refreshes, each
within the lifetime then in force; the table invariant carries such a chain for
every entry, and admission exhibits it.

**Rate limiter.** `Level` is what a source could spend at a future time. One call
lowers it by at most one token for the payer and by nothing for anyone else,
reclamation included, which gives the envelope for every window of every run. `KeyIsSource` says in
octets which addresses are one source.

**Noise.** Keys, hashes and boxes are constructors, and a shared secret is an
unordered pair, so that commutativity and injectivity are theorems. The pattern
itself is written out independently as its tokens, `e, es, s, ss` and
`e, ee, se, psk`, over a symmetric state with one general key derivation, and
what the functions of the code build and accept is proved to be exactly that. A
Dolev-Yao attacker who lacks the static-static secret is modelled as sequences
of deductions.

## Model

| member | source | states |
|---|---|---|
| `EngineState.EvolvesTransitive` | microtun-core/src/time.rs:120-160 | steps that only stop timers or start covered future ones compose |
| `EngineState.EvolvesKeepsBound` | microtun-core/src/time.rs:96-160 | any such step keeps the cached bound at or before every running timer |
| `EngineState.FreedOk` | microtun-core/src/lib.rs:2960-2998 | in every consistent state freeing a slot finds its owner and its index, keeps all tables consistent (also when the slot is the one orphan of a rotation), and starts no timer |
| `EngineState.FreedTables` | microtun-core/src/peer.rs:92-111 | unlinking the freed slot leaves the index bijection and the one-reference-per-slot property intact |
| `EngineSteps.InitiatedOk` | microtun-core/src/lib.rs:2702-2744 | claiming a free slot for an initiation leaves exactly that slot unreferenced and arms its retry |
| `EngineSteps.RetriedOk` | microtun-core/src/lib.rs:2764-2781 | a retransmission keeps slot and index and moves the retry into the future |
| `EngineSteps.BegunOk` | microtun-core/src/peer.rs:72-85 | linking the initiating slot to its peer restores full consistency |
| `EngineSteps.RespondedOk` | microtun-core/src/lib.rs:1914-1953 | installing an unconfirmed responder session, in a free slot or over the previous unconfirmed one with its index replaced, keeps every table |
| `EngineSteps.AnsweredOk` | microtun-core/src/peer.rs:55-62 | the initiator's rotation keeps every table with the old previous session as only orphan |
| `EngineSteps.AnsweredRotates` | microtun-core/src/peer.rs:107-111 | afterwards the new session is current, the old current previous, the old previous slot free |
| `EngineSteps.ConfirmedOk` | microtun-core/src/peer.rs:64-70 | the responder's confirmation keeps every table with the old previous session as only orphan |
| `EngineSteps.DeliveredOk` | microtun-core/src/lib.rs:2180-2236 | confirmation, receive timers and freeing the superseded session together keep every table and start only future timers |
| `EngineSteps.DeliveredRotates` | microtun-core/src/lib.rs:2184-2200 | first data on the unconfirmed session makes it current, the old current previous, the old previous slot free |
| `EngineSteps.SealedOk` | microtun-core/src/lib.rs:1432-1508 | sealing uses a (key, counter) pair never sealed before, keeps all tables, and starts only covered future timers |
| `EngineSteps.SessionLimits` | microtun-core/src/session.rs:104-128 | a session may send exactly when confirmed, younger than 180 seconds and below 2^64 - 2^13 - 1 messages, and a message asks for a rekey once, at 2^60 messages or, from an initiator, at its rekey age |
| `EngineSteps.FreedKeepsHandshakes` | microtun-core/src/lib.rs:2894-2998 | freeing a slot that is not initiating ends no handshake of any peer |
| `EngineSteps.StillOwn` | microtun-core/src/lib.rs:2058-2073 | across sending, a slot that still holds a session holds the same peer's session, although rekeys may free slots |
| `EngineSteps.FreshKey` | microtun-core/src/session.rs:78-101 | a session with a newly derived key put into any slot keeps keys distinct and counters unused |
| `EngineSteps.SealKeepsKeys` | microtun-core/src/lib.rs:1440-1475 | one more seal uses a pair no earlier seal used, and no pair that any other session could still use |
| `EngineSteps.InstalledOk` | microtun-core/src/lib.rs:2794-2833 | installing a peer keeps the key index and all tables and covers its persistent keepalive |
| `EngineSteps.EvictedOk` | microtun-core/src/resolver.rs:1491-1537 | removing a peer with exactly the slots it owns keeps every table and starts no timer |
| `EngineSteps.OwnedIsReferred` | microtun-core/src/peer.rs:40-42 | the slots a peer owns are exactly those its four generation fields name |
| `EngineSteps.WithRecordOk` | microtun-core/src/resolver.rs:1249-1290 | refreshing a held peer's record keeps its sessions and covers the restarted persistent keepalive |
| `EngineSteps.OwedOk` | microtun-core/src/resolver.rs:682-710 | recording or deferring a reconciliation covers its deadline |
| `EngineSteps.ResolvesOk` | microtun-core/src/resolver.rs:1647-1668 | adding covered lookups and dropping others keeps the tables and the bound |
| `EngineSteps.NothingBecomesDue` | microtun-core/src/lib.rs:1135-1158 | a step that starts timers only in the future makes no timer due |
| `EngineSteps.PromotedConsumes` | microtun-core/src/resolver.rs:744-793 | serving a due obligation leaves it due if and only if the TTL is zero and the obligation is blocked: its key is held and already being asked, or all places are taken by live lookups |
| `EngineSteps.ClearOrOver` | microtun-core/src/resolver.rs:744-793 | the two conditions are complementary: everything owed can be asked if and only if it is not so that a waiting lookup is in the way of an owed key or that owed keys and waiting lookups exceed the places |
| `EngineSteps.ClearIsNotBlocked` | microtun-core/src/resolver.rs:744-769 | where everything owed can be asked and no lookup is due, no due obligation is blocked |
| `EngineSteps.AskedBalance` | microtun-core/src/resolver.rs:771-784 | asking moves one key from the owed to the waiting, so their sum stays the same |
| `EngineSteps.PromotedClear` | microtun-core/src/resolver.rs:744-793 | with a zero TTL, serving an obligation keeps everything owed askable |
| `EngineSteps.PromotedOver` | microtun-core/src/resolver.rs:744-793 | with a zero TTL, serving an obligation never makes up for what cannot be asked |
| `EngineSteps.ExpiredOutlook` | microtun-core/src/resolver.rs:367-406 | with a zero TTL, expiring a lookup keeps askable what is askable, and, with room in the backlog, keeps unaskable what is not |
| `EngineSteps.PromotedProgress` | microtun-core/src/resolver.rs:744-793 | serving an obligation that is not blocked, or any with a positive TTL, leaves the other due timers as they are and one due reconciliation fewer |
| `EngineSteps.ExpiredProgress` | microtun-core/src/resolver.rs:367-406 | expiring a lookup leaves strictly fewer due timers other than reconciliations, whatever it leaves owed |
| `EngineSteps.OverIsDue` | microtun-core/src/lib.rs:2428-2547 | where not everything owed can be asked, some timer is due |
| `EngineSteps.RetimedOk` | microtun-core/src/lib.rs:1137-1155 | both ways of resetting the cached bound after a timeout pass keep it honest |
| `Engine.ChosenNotProtected` | microtun-core/src/lib.rs:2890-2947 | the eviction order never selects an initiating slot or a pinned peer's unexpired current session |
| `Engine.SealedTimers` | microtun-core/src/lib.rs:1476-1503 | after sending, no keepalive is owed and the persistent one starts over; data that finds no reply awaited wants one after 15 seconds and at most a third more, covered by the bound; otherwise the reply timer is as it was |
| `Engine.DeliveredTimers` | microtun-core/src/lib.rs:2202-2236 | after a receipt no reply is awaited and the persistent keepalive starts over; data wants an answer in exactly 10 seconds, covered by the bound, and a keepalive leaves that timer as it was |
| `Engine.SealedKeepsStart` | microtun-core/src/lib.rs:1440-1508 | sealing changes neither whether a handshake with any peer is in flight nor whether one could start |
| `Engine.Engine.PickSlot` | microtun-core/src/lib.rs:2889-2947 | picks by the eviction order, never a protected slot, and finds none exactly when all are protected |
| `Engine.IndexRoom` | microtun-core/src/session_index.rs:106-134 | while a slot is free the index map has room, so insertion cannot overflow |
| `Engine.Engine.constructor` | microtun-core/src/lib.rs:772-965 | a new engine is valid, empty, and no timer runs; the configured peers follow by `InstallPinned` |
| `Engine.Engine.InstallPinned` | microtun-core/src/lib.rs:832-987 | the configured peers are installed in order, all of them if and only if they fit and no key comes twice |
| `Engine.Engine.FreeSlot` | microtun-core/src/lib.rs:2960-2998 | always succeeds, frees exactly that slot, and its wire index no longer resolves |
| `Engine.Engine.FindLeastActive` | microtun-core/src/lib.rs:2914-2941 | an established slot of minimal activity that is not a pinned peer's current session, or none exists |
| `Engine.Engine.AllocSlot` | microtun-core/src/lib.rs:2894-2947 | takes the slot the eviction order prescribes, never a protected one; gives up, unchanged, exactly when every slot is protected |
| `Engine.Engine.BuildInitiation` | microtun-core/src/lib.rs:2684-2746 | succeeds exactly for a reachable peer and a slot without a session, if the outside serves; failure changes nothing; success keeps an existing index, registers a new one otherwise, and retries after five seconds and at most a third |
| `Engine.Engine.CommitHandshakeStart` | microtun-core/src/lib.rs:2581-2605 | links the slot and starts the attempt deadline; the tables are consistent again |
| `Engine.Engine.StageInitiation` | microtun-core/src/lib.rs:2556-2634 | a handshake starts exactly when the peer is reachable, has none in flight, some slot may be taken and the outside serves; every way out, including a failed build, leaves the tables consistent |
| `Engine.Engine.EnsureHandshake` | microtun-core/src/lib.rs:2637-2646 | starts a handshake, with its initiation built and handed on, exactly when one can start and the outside serves; one in flight stays; no other peer's is abandoned |
| `Engine.Engine.UsableSession` | microtun-core/src/lib.rs:1219-1226 | any session it returns is the peer's own, established, and may send now |
| `Engine.Engine.RelayPath` | microtun-core/src/lib.rs:1377-1404 | exactly the directly reachable relay with a session that may send now, without side effect; otherwise at most a consistent handshake start |
| `Engine.Engine.SealTransport` | microtun-core/src/lib.rs:1412-1508 | succeeds exactly for a known peer and a session that may send, if the outside serves; success uses a pair that no earlier seal used, under a session of that very peer, reports the rekey trigger exactly and restarts the persistent keepalive; failure changes nothing |
| `Engine.Engine.TransmitWire` | microtun-core/src/lib.rs:1515-1563 | the message is always recorded with its outcome: a direct one succeeds exactly with a destination and changes nothing, a relayed one exactly with a usable relay and a served seal, made for the relay; no handshake in flight is abandoned |
| `Engine.Engine.EncryptAndSend` | microtun-core/src/lib.rs:1232-1274 | the message goes out exactly when session and path permit and the outside serves every layer; then it was sealed under the peer's own session with its next counter, once more for the relay when relayed, the persistent keepalive starts over, and a due rekey has a handshake in flight unless none can start |
| `Engine.Engine.EncryptViaRelay` | microtun-core/src/lib.rs:1279-1327 | goes out exactly with a usable relay, a session that may send and both layers served; one seal under the peer's own session and one for the relay's hop |
| `Engine.Engine.SealTwice` | microtun-core/src/lib.rs:1305-1318 | both layers succeed exactly when the inner session may send and both are served; the two pairs are different and unused |
| `Engine.Engine.SendToPeer` | microtun-core/src/lib.rs:1192-1216 | with a usable session the packet is offered to it once and goes out exactly as session, path and outside permit, nothing being parked; without one it is parked for 90 seconds, covered, and success means exactly that a handshake is in flight or could be started |
| `Engine.Engine.Park` | microtun-core/src/pending.rs:94-126 | stores the packet in a free place or over the packet closest to its deadline; refuses only with no places |
| `Engine.Engine.TakeIf` | microtun-core/src/pending.rs:129-136 | removes the first matching packet and nothing else, or shows that none matches |
| `Engine.Engine.DropIf` | microtun-core/src/pending.rs:139-145 | removes all matching packets and nothing else |
| `Engine.Engine.ExpireParked` | microtun-core/src/pending.rs:157-165 | removes one due packet, or shows that none is due |
| `Engine.Engine.FlushParked` | microtun-core/src/lib.rs:2058-2073 | terminates: every packet parked for the peer is offered exactly once, then a keepalive if and only if none of them went out; nothing stays parked; the result says exactly whether any went out, and then a message of that peer was sealed; a rekey inside the loop may take the slot but never hands it to another peer |
| `Engine.Engine.RespondToInitiation` | microtun-core/src/lib.rs:1835-1972 | succeeds exactly for a known peer that has an unconfirmed session or for which a slot may be taken, if the outside serves; the new session, under a new key with nothing sent, is then the unconfirmed one, a response is built, and only sending follows; a failure leaves a superseded unconfirmed session exactly as it was |
| `Engine.Engine.AcceptResponse` | microtun-core/src/lib.rs:2011-2056 | rotates the generations and frees the old previous slot, which cannot fail |
| `Engine.Engine.RxResponse` | microtun-core/src/lib.rs:1974-2074 | acts exactly on an authentic response to an initiating slot; that slot then holds the new current session, the old current is previous, the old previous is free; then every parked packet is offered once, or a keepalive if none goes out, nothing stays parked, and the first offer to a direct peer goes out unless the outside fails |
| `Engine.Engine.ReceiveOn` | microtun-core/src/lib.rs:2180-2241 | confirmation, timers and freeing as one consistent step; an unconfirmed session becomes current, the old current previous, the old previous slot free |
| `Engine.Engine.RxData` | microtun-core/src/lib.rs:2120-2254 | acts exactly on an authentic message to a live session; the receipt is the consistent step above, rotation included; near the end of an initiator's session a rekey follows, with a handshake in flight unless none can start, and otherwise nothing else changes |
| `Engine.Engine.RetransmitInitiation` | microtun-core/src/lib.rs:2749-2784 | for a reachable peer, if the outside serves, the initiation is built again in the same slot under the same index, which stays the peer's handshake; otherwise exactly that slot is freed; either way the slot's timer is no longer due |
| `Engine.Engine.InstallPeer` | microtun-core/src/lib.rs:2794-2833 | succeeds exactly for an empty place and an unknown key; otherwise nothing changes |
| `Engine.Engine.RefreshPeer` | microtun-core/src/resolver.rs:1249-1290 | the new record, keepalive interval included, replaces the old one, and no session, slot or index is touched |
| `Engine.Engine.ReleaseSlots` | microtun-core/src/resolver.rs:1517-1529 | walking the four generation fields frees exactly the slots the peer owns, with their indices |
| `Engine.Engine.EvictPeer` | microtun-core/src/resolver.rs:1491-1537 | never hits an inconsistency; removes the peer, all slots it owns and packets waiting for it |
| `Engine.Engine.AllocResolveId` | microtun-core/src/resolver.rs:1568-1576 | terminates with an identifier not in flight |
| `Engine.Engine.PushResolve` | microtun-core/src/resolver.rs:1627-1645 | a live lookup is refused if and only if the table is full of live lookups, and never displaces one |
| `Engine.Engine.MarkNegative` | microtun-core/src/resolver.rs:1604-1614 | entries for the query go, all others stay, and the marker is added exactly when there is room |
| `Engine.Engine.QueuePeerInstall` | microtun-core/src/resolver.rs:490-518 | a lookup is queued if and only if it is not suppressed, within budget, and the table is not full of live lookups |
| `Engine.Engine.QueueOutboundResolution` | microtun-core/src/resolver.rs:301-364 | where no marker holds and there is an entry or a place, the packet is parked behind one live lookup of its destination until that lookup's timeout; a lookup in flight is joined, never doubled; otherwise nothing changes; no other lookup gains a waiting packet |
| `Engine.Engine.QueueReconcile` | microtun-core/src/resolver.rs:682-710 | an obligation is recorded within the backlog, and an existing one is never pushed out by a later failure |
| `Engine.Engine.HeldAnswer` | microtun-core/src/resolver.rs:587-680 | only "not found" removes a dynamic peer, and marks its key; a positive answer is committed exactly when it is valid, names the key and its route fits, with endpoint, relay and keepalive interval, the sessions kept and the obligation discharged; otherwise, like a failure, it leaves the record untouched and the reconciliation owed; unknown and pinned keys are untouched |
| `Engine.Engine.CapacityVictim` | microtun-core/src/resolver.rs:1378-1401 | the least recently active of all dynamic, idle, sessionless peers that free enough routes, or there is none |
| `Engine.Engine.MakeRoom` | microtun-core/src/resolver.rs:1378-1423 | evicts exactly when the budget permits and there is a dynamic, idle, sessionless peer that frees enough routes, and then the least recently active one; it frees no slot and touches no pinned or active peer |
| `Engine.Engine.UpdatePeer` | microtun-core/src/resolver.rs:1099-1128 | a record for a held peer, endpoint, relay and keepalive interval, is committed with the sessions kept exactly when its route fits or can be made to; otherwise nothing changes |
| `Engine.Engine.AdmitPeer` | microtun-core/src/resolver.rs:1296-1376 | a new peer is installed under its key with exactly the answer's record, or removed again when its route does not fit; no session is lost either way; with a fitting route it is installed exactly when there is a place or one can be made |
| `Engine.Engine.Resolved` | microtun-core/src/resolver.rs:526-561 | an answered lookup leaves the table and an unknown one changes nothing; no packet stays parked behind an answered outbound lookup, and where the answer is acceptable its peer is held and all its packets go on by the route; a parked initiation is answered; "not found" is remembered and a failure is not |
| `Engine.Engine.Replay` | microtun-core/src/resolver.rs:1023-1034 | every packet behind the lookup goes on by the route exactly once, and none stays; this ends, because a packet without a route waits on another lookup and never again on this one |
| `Engine.Engine.ExpireOneResolve` | microtun-core/src/resolver.rs:367-406 | consumes one due lookup with its packets, and exactly an expired reconciliation of a held key is owed again; or none is due |
| `Engine.Engine.PromoteDueReconcile` | microtun-core/src/resolver.rs:744-785 | one due obligation is put off if blocked, dropped if its peer is gone, and otherwise asked at most at the cost of a marker; or none is due |
| `Engine.Engine.PollAt` | microtun-core/src/lib.rs:2371-2388 | the reported instant is at or before the deadline of every running timer |
| `Engine.Engine.ScanDeadlines` | microtun-core/src/lib.rs:2395-2425 | the result is the minimum over all timers: a lower bound that some timer attains; attempt deadlines are found through their initiating slot |
| `Engine.Engine.FireSlot` | microtun-core/src/lib.rs:2452-2489 | a due retry sends the initiation again from the same slot under the same index, or frees the slot if it cannot be rebuilt; a session at its age limit is freed; an attempt at its deadline is freed with the packets that waited for it; otherwise neither the slot's nor its attempt's timer is due |
| `Engine.Engine.FirePersistent` | microtun-core/src/lib.rs:2511-2532 | the keepalive is offered to a usable session and goes out as path and outside permit, restarting the timer; without a session a handshake is in flight unless none can start, and the timer always comes round after the interval |
| `Engine.Engine.FirePeer` | microtun-core/src/lib.rs:2494-2543 | a due passive keepalive is offered to a usable session and goes out as path and outside permit; a due persistent one does the same or pursues a handshake and comes round again; a missing reply pursues a handshake, in flight afterwards unless none can start; otherwise none of them is due |
| `Engine.Engine.Timeout` | microtun-core/src/lib.rs:2428-2547 | true: a due timer of the earliest kind that is due did what it is for, and is consumed, except exactly when the TTL is zero and a blocked reconciliation was served; false: nothing changed and no timer at all is due |
| `Engine.Engine.HandleTimeout` | microtun-core/src/lib.rs:1135-1158 | true: one due timer did what it is for, the bound is at most now, and there is progress when the TTL is positive or everything owed can be asked; false: nothing is due and the bound is exact; with a zero TTL what can be asked still can be, and what cannot still cannot |
| `Engine.Engine.Drain` | microtun-core/src/lib.rs:1135-1155 | repeated calls at one instant terminate, leaving every deadline in the future: from every valid state when the TTL is positive or no lookup is ever made, and whatever the limits from every state in which everything owed can be asked |
| `Engine.ZeroTtlNeverDrains` | microtun-core/src/config.rs:169-188 | with TTL zero, lookups made at all, and any other limits that validation accepts, there are inputs to a new engine after which any number of calls all return true |
| `Engine.Spin` | microtun-core/src/lib.rs:1135-1155 | with a zero TTL, from every valid state in which not everything owed can be asked and the backlog has room, any number of calls all return true |
| `Engine.AdmitByAnswer` | microtun-core/src/resolver.rs:919-1036 | first inputs of that run: a packet without a route, and an answer to its lookup that brings in a peer |
| `Engine.FillPlaces` | microtun-core/src/resolver.rs:301-364 | further inputs: packets to other destinations until their lookups take up every place |
| `Engine.OweOne` | microtun-core/src/resolver.rs:587-650 | last input: a failed update for the peer leaves an obligation that cannot be asked |
| `Engine.Engine.Step` | microtun-core/src/lib.rs:1076-1158 | every input keeps the engine valid and the record of seals growing, and has the effect of its kind: packets are offered, parked or asked for, authentic responses and initiations give a session with a new key, answers are applied, a due timer acts |
| `Engine.Engine.Run` | microtun-core/src/lib.rs:1076-1158 | over every run, no (key, counter) pair is sealed twice, none beyond the message limit, and nothing is sealed for a peer except under its own sessions; the engine stays valid |
| `PrefixTrie.LongestMatchIsLongest` | microtun-core/src/prefix_trie.rs:312-333 | the reference match is the value of the longest stored prefix covering the address, and none only if no stored prefix covers it |
| `PrefixTrie.WalkStep` | microtun-core/src/prefix_trie.rs:411-416 | one step of the walk reaches the next live node on the address's path, or shows that none is left |
| `PrefixTrie.MatchGoesOn` | microtun-core/src/prefix_trie.rs:312-333 | where the walk goes on, the next node's value replaces the best match if it has one |
| `PrefixTrie.MatchEnds` | microtun-core/src/prefix_trie.rs:312-333 | where the walk ends, the best match so far is the longest of all |
| `PrefixTrie.EdgeMatchMeaning` | microtun-core/src/prefix_trie.rs:411-416 | the shift-and-compare edge test holds exactly when the edge continues the address |
| `PrefixTrie.NotStored` | microtun-core/src/prefix_trie.rs:256-307 | a walk that ends early proves the prefix is not stored |
| `PrefixTrie.TwoChildrenEach` | microtun-core/src/prefix_trie.rs:55-61 | nodes with two children number at most half the non-root nodes, because every non-root node has exactly one parent edge |
| `PrefixTrie.NonRootBound` | microtun-core/src/prefix_trie.rs:55-61 | live non-root nodes number at most twice the stored non-default prefixes |
| `PrefixTrie.VacantSlot` | microtun-core/src/prefix_trie.rs:457-475 | with capacity left, the pool has a free place, so allocation cannot panic |
| `PrefixTrie.SplitEdge` | microtun-core/src/prefix_trie.rs:290-305 | splitting an edge keeps the trie well formed and stores exactly the intended map |
| `PrefixTrie.HangLeaf` | microtun-core/src/prefix_trie.rs:267-274 | hanging a leaf, also under a fresh middle node, completes the insertion |
| `PrefixTrie.MergeStep` | microtun-core/src/prefix_trie.rs:420-430 | merging a pass-through node into its child keeps the trie well formed and its map |
| `PrefixTrie.PrefixTrie.constructor` | microtun-core/src/prefix_trie.rs:229-243 | an empty trie represents the empty map |
| `PrefixTrie.PrefixTrie.Lookup` | microtun-core/src/prefix_trie.rs:312-333 | returns the longest-prefix match of the represented map |
| `PrefixTrie.PrefixTrie.Get` | microtun-core/src/prefix_trie.rs:338-352 | returns the value of exactly that prefix |
| `PrefixTrie.PrefixTrie.Insert` | microtun-core/src/prefix_trie.rs:256-307 | updates the map and returns the old value; fails only with fewer than two nodes left, never for a stored prefix, a default route, or below the limit of other prefixes, and then changes nothing |
| `PrefixTrie.PrefixTrie.Remove` | microtun-core/src/prefix_trie.rs:357-405 | removes exactly that prefix from the map and returns its value |
| `PrefixTrie.PrefixTrie.MergeIntoChild` | microtun-core/src/prefix_trie.rs:420-430 | restores path compression without changing the map |
| `PrefixTrie.PrefixTrie.Alloc` | microtun-core/src/prefix_trie.rs:457-475 | takes a free place and changes no other node |
| `Trie.Descend` | microtun-core/src/prefix_trie.rs:312-333 | whatever live node lies below a node in some direction lies below its child on that side |
| `Trie.Split` | microtun-core/src/prefix_trie.rs:290-305 | well-formedness after a split, with the middle node possibly still short of a child |
| `Trie.Merge` | microtun-core/src/prefix_trie.rs:420-430 | well-formedness after a merge |
| `Trie.AddLeaf` | microtun-core/src/prefix_trie.rs:267-274 | well-formedness after adding a leaf |
| `Trie.Drop` | microtun-core/src/prefix_trie.rs:357-405 | well-formedness after dropping a leaf, the parent possibly to be merged |
| `Bits.CommonLen` | microtun-core/src/prefix_trie.rs:494-496 | the number of leading bits two words share, up to a limit |
| `Bits.OrJoins` | microtun-core/src/prefix_trie.rs:420-430 | the shifted disjunction of two masked edges is their concatenation |
| `Bits.ShlDrops` | microtun-core/src/prefix_trie.rs:499-501 | shifting a masked edge left drops its leading bits and stays masked |
| `FlowTable.Firewall.ObserveOutbound` | microtun-core/src/firewall.rs:419-484 | counts, quotas, limit and distinctness are kept; a live flow is refreshed, an opener is admitted by the fair policy, anything else leaves the table alone; with `EntryLifetime`, every entry then expires its protocol's lifetime after its last packet |
| `FlowTable.Firewall.AllowsInbound` | microtun-core/src/firewall.rs:488-533 | admits exactly the reverse of live flows and errors about them; an admitted packet has a witness chain in the history, whose links `ChainLinks` spells out |
| `FlowTable.Firewall.RemovePeer` | microtun-core/src/firewall.rs:537-544 | drops exactly that peer's entries and keeps the counts exact |
| `FlowTable.Firewall.CollectExpired` | microtun-core/src/firewall.rs:339-345 | keeps exactly the unexpired entries and the counts exact |
| `FlowTable.Firewall.FairVictim` | microtun-core/src/firewall.rs:361-379 | at quota, or with no larger owner, only the requester's own entry; otherwise one of an owner with strictly more entries |
| `FlowTable.Firewall.LargestOwner` | microtun-core/src/firewall.rs:365-378 | finds an owner with the most entries, above the requester's, or shows that the requester has the most |
| `FlowTable.Firewall.Replace` | microtun-core/src/firewall.rs:382-393 | replacing an entry keeps the counts exact |
| `FlowTable.Firewall.Push` | microtun-core/src/firewall.rs:395-414 | appends within the limit and keeps the counts exact |
| `FlowTable.Firewall.RebuildCounts` | microtun-core/src/firewall.rs:327-337 | counts equal the true number of entries per peer |
| `FlowTable.JustifiedRefresh` | microtun-core/src/firewall.rs:191-206 | refreshing an unexpired entry extends its witness chain with the lifetime then in force |
| `FlowTable.EntryLifetime` | microtun-core/src/firewall.rs:191-206 | in every valid table an entry expires exactly its protocol's lifetime after its last packet: the closing one for TCP exactly when a packet after the opener carried FIN or RST |
| `Flows.AdmissionTracks` | microtun-core/src/firewall.rs:459-483 | with nonzero limits every opener ends up tracked |
| `Flows.AdmissionFair` | microtun-core/src/firewall.rs:347-414 | another peer loses at most one entry, only when the table is full and it has strictly more than the requester, and no count then exceeds what it had |
| `Flows.AdmissionBounded` | microtun-core/src/firewall.rs:382-414 | admission keeps the limit, every quota and distinctness |
| `Flows.RecordsRefresh` | microtun-core/src/firewall.rs:191-206 | a refresh keeps the entry equal to what its chain prescribes |
| `Flows.ExpiryMeaning` | microtun-core/src/firewall.rs:191-206 | whatever history records, an entry expires after the UDP, ICMP, TCP or TCP closing time since its last packet, the last exactly when some packet after the opener carried FIN or RST |
| `Flows.ClosingMeaning` | microtun-core/src/firewall.rs:172-206 | a chain counts as closing exactly when an event after its first carries FIN or RST |
| `Flows.ChainLinks` | microtun-core/src/firewall.rs:191-206 | each refresh in a chain comes before the lifetime in force after the packet before it has run out |
| `Flows.VictimMeaning` | microtun-core/src/firewall.rs:347-359 | the entry to recycle is a closing one if the owner has any, and the longest unseen of its kind |
| `Flows.RecordsGrows` | microtun-core/src/firewall.rs:419-545 | a recorded entry stays recorded by every event that does not remove its peer |
| `Packets.ParseHeader` | microtun-core/src/ip.rs:33-90 | the accepted lengths nest, and both addresses have the packet's version |
| `Packets.V4TcpRoundTrip` | microtun-core/src/firewall.rs:552-630 | an IPv4 TCP packet built byte by byte parses to its addresses, ports and flags |
| `Packets.V6UdpRoundTrip` | microtun-core/src/firewall.rs:552-623 | an IPv6 UDP packet built byte by byte parses to its addresses and ports |
| `Packets.EchoReads` | microtun-core/src/firewall.rs:632-720 | an echo message parses to its type, with the identifier as both ports |
| `Packets.ReplyIsReverse` | microtun-core/src/firewall.rs:132-160 | the flow with addresses and ports exchanged, and no other, is the reverse |
| `Packets.OpenersMeaning` | microtun-core/src/firewall.rs:164-171 | exactly a UDP datagram, an echo request and a TCP SYN without ACK open a flow |
| `Packets.FlowIgnoresPadding` | microtun-core/src/firewall.rs:552-620 | header and flow depend only on the first `total_len` bytes |
| `Packets.QuoteKeepsFlow` | microtun-core/src/firewall.rs:722-798 | any truncation of a tracked packet that keeps its header and eight bytes yields the same flow key (RFC 792; section 3 of RFC 4443) |
| `Packets.ErrorIsRelated` | microtun-core/src/firewall.rs:632-720 | an ICMP error quoting a tracked packet parses as an error about its flow exactly when it is addressed to the quoted source |
| `Rate.RateLimiter.Allow` | microtun-core/src/rate.rs:123-154 | allows only with a token; refuses a key with one only when the table is full; costs the payer one token and no other key anything, at any future time |
| `Rate.RateLimiter.Collect` | microtun-core/src/rate.rs:186-194 | reclaiming full buckets changes what no key can spend |
| `Rate.RateLimiter.Admit` | microtun-core/src/rate.rs:173-184 | a new bucket behaves as the absent one did |
| `Rate.RunLimiter` | microtun-core/src/rate.rs:123-154 | in every run and every window, for every IPv4 address, mapped or not, and for every IPv6 /64, 1000 times the number of messages allowed from it is at most 1000 times burst plus rate times elapsed milliseconds |
| `Rate.KeyIsSource` | microtun-core/src/rate.rs:42-61 | two addresses share a bucket if and only if they are the same IPv4 address after unmapping, or IPv6 addresses equal in the first eight octets |
| `Rate.UnmapMeaning` | microtun-core/src/ip.rs:112-117 | exactly ten zero octets and two of 255 before four more are an IPv4 address |
| `Rate.TokensAtLinear` | microtun-core/src/rate.rs:216-238 | a bucket holds what it held plus rate times elapsed time, cut off at capacity; no saturation shows |
| `Rate.EnvelopeStep` | microtun-core/src/rate.rs:216-255 | one call carries the envelope of all windows forward |
| `Rate.ReclaimSpendsNothing` | microtun-core/src/rate.rs:186-194 | a full bucket and an absent one allow the same spending ever after |
| `Rate.RefillComposes` | microtun-core/src/rate.rs:230-238 | refilling in two steps equals refilling in one |
| `Rate.IntervalBudget.TryTakeMany` | microtun-core/src/rate.rs:288-312 | all or nothing, tied to the functional budget, with the charge account kept |
| `Rate.IntervalBudget.ChargesBounded` | microtun-core/src/rate.rs:270-312 | charges since construction are at most burst plus the whole intervals elapsed |
| `Rate.RefillExact` | microtun-core/src/rate.rs:288-312 | refilling credits exactly the whole intervals elapsed, up to the burst, and keeps the remainder |
| `Rate.RefusalIsNeutral` | microtun-core/src/rate.rs:288-312 | a refused charge changes the outcome of no later sequence of charges |
| `Noise.DhLaws` | microtun-core/src/crypto.rs:215-224 | shared secrets commute and determine the public key |
| `Noise.ChainsAgree` | microtun-core/src/noise.rs:298-391 | the chain before the response's box determines the chain it came from, the ephemeral and both secrets |
| `Noise.KdfIsTau` | microtun-core/src/crypto.rs:73-118 | the three key derivations are the first outputs of the general HMAC chain |
| `Noise.InitiationIsNoise` | microtun-core/src/noise.rs:116-199 | the initiation is, field by field, the tokens e, es, s, ss and the timestamp, from the protocol's name, identifier and the responder's key; the initiator keeps their chain and transcript |
| `Noise.ConsumedIsNoise` | microtun-core/src/noise.rs:201-296 | a message is consumed as a party's with a timestamp if and only if it is that first message, and leaves its chain and transcript |
| `Noise.ResponseIsNoise` | microtun-core/src/noise.rs:298-345 | the response is the tokens e, ee, se, psk and an empty payload, and the transport keys are the two outputs split from the final chain |
| `Noise.AcceptedIsNoise` | microtun-core/src/noise.rs:347-391 | a response is accepted if and only if its box is sealed as those tokens prescribe, and then the same two keys result, exchanged |
| `Noise.ResponseAccepted` | microtun-core/src/noise.rs:298-391 | a response is accepted if and only if both sides hold the same chain, transcript and identities, and then the keys are mirrored |
| `Noise.TranscriptsAgree` | microtun-core/src/noise.rs:116-279 | equal transcripts imply equal peers, ephemerals, timestamp, message and chain |
| `Noise.Agreement` | microtun-core/src/noise.rs:116-391 | a response to whatever was consumed is accepted if and only if that was this initiation to this responder |
| `Noise.HonestInitiation` | microtun-core/src/noise.rs:201-296 | an honest initiation is consumed with the right identity, timestamp and chain |
| `Noise.HonestRun` | microtun-core/src/noise.rs:116-391 | every honest run completes with mirrored keys |
| `Noise.GenerationsSeparate` | microtun-core/src/noise.rs:298-391 | a response to one ephemeral generation never authenticates against another |
| `Noise.AttackStaysClean` | microtun-core/src/noise.rs:201-279 | no deduction sequence without the static-static secret yields a forged timestamp box |
| `Noise.Possession` | microtun-core/src/noise.rs:243-279 | a consumed initiation that names an honest peer was sent by that peer, with that timestamp |
| `Noise.Forwarding` | microtun-core/src/noise.rs:201-296 | conversely, forwarding an honest initiation is within the adversary's power and is consumed with its identity and timestamp |
| `Replay.ReplayWindow.CheckAndUpdate` | microtun-core/src/replay.rs:41-83 | accepts exactly the counters that are unseen and not behind the window |
| `Replay.ReplayWindow.ClearAhead` | microtun-core/src/replay.rs:55-76 | clearing the words stepped over, capped at one turn of the ring, represents the same set |
| `Replay.Run` | microtun-core/src/replay.rs:41-83 | every run gives the verdicts of the unbounded reference set, for a window of 64 counters a word, one word less than the ring has |
| `Replay.AcceptedOnce` | microtun-core/src/replay.rs:41-83 | no counter is accepted twice in any run |
| `Replay.VerdictMeaning` | microtun-core/src/replay.rs:41-83 | a counter is accepted if and only if every counter accepted before it differs from it and is at most the window greater |
| `Timestamps.StampOrder` | microtun-core/src/crypto.rs:250-258 | byte order of encoded timestamps is order of seconds, then nanoseconds |
| `Timestamps.BytesOrder` | microtun-core/src/crypto.rs:250-258 | lexicographic order of equally long big-endian strings is numeric order |
| `Timestamps.WhitenedBytes` | microtun-core/src/lib.rs:3094-3137 | a timestamp is whitened exactly when its last three bytes are zero and the one before them is below 60 |
| `Timestamps.EpochBytes` | microtun-core/src/lib.rs:3094-3104 | the twelve bytes of the Unix epoch |
| `Timestamps.NextWhitenedValue` | microtun-core/src/lib.rs:3114-3137 | the next whitened timestamp carries into the seconds exactly at the nanosecond limit, and fails only at the end of time |
| `Timestamps.NextWhitenedIsSuccessor` | microtun-core/src/lib.rs:3114-3137 | it is the least whitened timestamp after the given one |
| `Timestamps.Clock.SetUnixTime` | microtun-core/src/lib.rs:1057-1068 | from the set time on the clock reads that time plus the local time elapsed, or the last representable instant once that is passed |
| `Timestamps.ReadingIsStamped` | microtun-core/src/lib.rs:3094-3104 | a clock that reads a Unix time stamps exactly that second, and the nanosecond rounded down to a quantum |
| `Timestamps.StampAt` | microtun-core/src/lib.rs:1057-1111 | setting the clock and stamping at once gives the set time's label, unless something later was emitted, and then its successor |
| `Timestamps.Clock.Timestamp` | microtun-core/src/lib.rs:3094-3111 | each emitted timestamp is whitened and after every earlier one, under any clock settings |
| `Timestamps.ReplayGate.Accept` | microtun-core/src/lib.rs:1748-1782 | accepted timestamps strictly increase and acceptances are more than 20 ms apart |
| `Lexer.Lex` | microtun-cli/src/lexer.rs:43-126 | the in-place lexer equals the pure lexing of the original bytes, errors included, and touches nothing past the line |
| `Lexer.GrammarReads` | microtun-cli/src/lexer.rs:43-126 | every line put together from blanks (32, 9, 13, 10) and words of plain bytes, bytes behind a backslash (92) and stretches between two equal quotes (34 or 39) lexes to the words' texts, or is refused exactly for having more than 32 |
| `Lexer.LexWord` | microtun-cli/src/lexer.rs:60-118 | one word is compacted without overwriting unread input |
| `Lexer.CompletionWords` | microtun-cli/src/completion.rs:325-382 | the splitter finds the raw words and reports trailing blanks exactly |
| `Lexer.LogicalIterator.Next` | microtun-cli/src/completion.rs:67-92 | the iterator yields the logical bytes one by one and then none |
| `Lexer.WordAgrees` | microtun-cli/src/completion.rs:325-382 | where the lexer accepts a word, both end at the same byte and the logical span is the token |
| `Lexer.TokenizersAgree` | microtun-cli/src/completion.rs:45-92 | whenever lexing succeeds there are as many raw words as tokens, and each raw word's logical bytes are its token |
| `Lexer.InsertedInLine` | microtun-cli/src/editor.rs:246-270 | in the whole line after a replacement, the tokens before it are the same, and the replaced word reads back as prefix and value, with lexing going on after it, if and only if the value has neither a double quote nor a backslash |
| `Lexer.InsertedRoundTrip` | microtun-cli/src/editor.rs:246-270 | an inserted completion alone lexes back to its value if and only if the value has neither a double quote nor a backslash |

## Left out

- Routes and admission policy: whether an answer is valid, a route fits, a reserve, ghost or budget refuses is a parameter of the answer, and so are where its destination is then routed, which peers hold enough routes, and whether the eviction budget has a token.
- Order of the resolve and reconcile lists: they are maps, and the choice among several due entries is nondeterministic.
- The engine's peers hold their `PeerSessions` by value in a sequence field; rotation in place inside a peer record is a record update.
- Instants in the engine and the firewall are unbounded naturals; saturation at the end of 64-bit time is not modelled there.
- Engine.Engine.AllocResolveId: identifiers are unbounded and do not wrap around.
- Engine.Engine.InstallPinned: does not check the own key, relay reachability and overlapping addresses of the configured peers, because keys are opaque and routes are not modelled.
- Engine.Engine.RefreshPeer: does not reset the firewall on a policy change, because inbound policies are not modelled in the engine.
- Engine.Engine.EvictPeer: does not cascade to routes and firewall, which are not wired to the engine.
- Endpoints are reduced to whether one is known; public keys, addresses and packets in the engine are opaque numbers or flags. Packets are not told apart by content, and a relayed packet that is too large counts as not served.
- Cookies, mac1 and mac2, load estimation, parked initiations awaiting a resolver answer, and relay forwarding by the relay itself.
- The firewall and the rate limiter are proved as components and are not wired into the engine's methods.
- FlowTable.Firewall.constructor: requires a flow capacity of at most 65535, because the per-peer counters are 16 bits and saturate; larger capacities are not covered.
- Concrete cryptography: hashes, key derivation, boxes and Diffie-Hellman are symbolic constructors, and message buffers are records. The sender index is outside the transcript and outside the agreement property.
- Words of the trie and the replay ring are sequences of bits, and the node pool's pairs are flattened into one array; the allocator-backed variants are not modelled.
- Engine.Engine.FirePersistent: does not promise that the keepalive is restarted in the one branch where a session is usable and the send fails, because the code leaves it stopped there.
- Engine.Engine.RxData: does not model what happens to the decrypted packet, only the session machine.
- Logging, zeroization, asynchronous delivery, WebSocket and configuration handling, history and rendering of the command line.

/**
 Budgets: the per-source token buckets that bound handshake work under load,
 and the interval budget that bounds destructive peer evictions.

 Millisecond instants are natural numbers; the `u32`/`u64` saturations of the
 refill arithmetic are written out.
 */
module Rate {
  import opened Common

  /** One handshake message, in millitokens. */
  const COST_MT: nat := 1000

  type U32 = x: nat | x <= U32_MAX

  // ---------------------------------------------------------------------
  // What the limiter treats as one source
  // ---------------------------------------------------------------------

  datatype Ip = V4(octets: seq<nat>) | V6(octets6: seq<nat>)

  type Address = ip: Ip | (ip.V4? ==> |ip.octets| == 4) && (ip.V6? ==> |ip.octets6| == 16)
    witness V4([0, 0, 0, 0])

  const MAPPED_PREFIX: seq<nat> := [0, 0, 0, 0, 0, 0, 0, 0, 0, 0, 255, 255]

  /** An IPv4-mapped IPv6 address is its IPv4 address. */
  function Unmap(ip: Address): Address {
    if ip.V6? && ip.octets6[..12] == MAPPED_PREFIX then V4(ip.octets6[12..]) else ip
  }

  datatype Key = KeyV4(octets: seq<nat>) | KeyV6Prefix(prefix: seq<nat>)

  /** An IPv4 source is its address; an IPv6 source is its /64, because the host chooses the rest. */
  function KeyOf(ip: Address): Key {
    match Unmap(ip)
    case V4(o) => KeyV4(o)
    case V6(o) => KeyV6Prefix(o[..8])
  }

  /** An IPv4 address, plain or mapped into IPv6 as `::ffff:a.b.c.d`. */
  predicate SpeaksV4(a: Address) {
    || a.V4?
    || ((forall k | 0 <= k < 10 :: a.octets6[k] == 0) && a.octets6[10] == 255 && a.octets6[11] == 255)
  }

  function V4Octet(a: Address, k: nat): nat
    requires k < 4
  {
    if a.V4? then a.octets[k] else a.octets6[12 + k]
  }

  /** One IPv4 address, or two IPv6 addresses of one /64. */
  predicate SameSource(a: Address, b: Address) {
    if SpeaksV4(a) then SpeaksV4(b) && forall k | 0 <= k < 4 :: V4Octet(a, k) == V4Octet(b, k)
    else !SpeaksV4(b) && forall k | 0 <= k < 8 :: a.octets6[k] == b.octets6[k]
  }

  lemma UnmapMeaning(a: Address)
    ensures Unmap(a).V4? <==> SpeaksV4(a)
    ensures SpeaksV4(a) ==> forall k | 0 <= k < 4 :: Unmap(a).octets[k] == V4Octet(a, k)
    ensures !SpeaksV4(a) ==> Unmap(a) == a
  {
    if a.V6? {
      assert a.octets6[..12] == MAPPED_PREFIX ==> forall k | 0 <= k < 12 :: a.octets6[k] == MAPPED_PREFIX[k];
    }
  }

  /** Two addresses share a bucket exactly when they are one source. */
  lemma KeyIsSource(a: Address, b: Address)
    ensures KeyOf(a) == KeyOf(b) <==> SameSource(a, b)
  {
    UnmapMeaning(a);
    UnmapMeaning(b);
    var x, y := Unmap(a), Unmap(b);
    if x.V4? && y.V4? {
      assert x.octets == y.octets <==> forall k | 0 <= k < 4 :: x.octets[k] == y.octets[k];
    } else if x.V6? && y.V6? {
      assert x.octets6[..8] == y.octets6[..8] <==> forall k | 0 <= k < 8 :: x.octets6[k] == y.octets6[k] by {
        assert forall k | 0 <= k < 8 :: x.octets6[..8][k] == x.octets6[k] && y.octets6[..8][k] == y.octets6[k];
      }
    }
  }

  // ---------------------------------------------------------------------
  // Token buckets
  // ---------------------------------------------------------------------

  datatype TokenBucket = TokenBucket(millitokens: U32, capacity: U32, perSec: U32, last: nat)

  function NewBucket(perSec: U32, burst: U32, now: nat): TokenBucket {
    var capacity := Saturate(burst * 1000, U32_MAX);
    TokenBucket(capacity, capacity, perSec, now)
  }

  /** Millitokens the bucket would hold at `now`. */
  function TokensAt(b: TokenBucket, now: nat): U32 {
    var elapsed := SaturatingSub(now, b.last);
    Credit(b, elapsed * b.perSec)
  }

  /** The bucket's contents after gaining `gained` millitokens, with the `u64` saturations of the code. */
  function Credit(b: TokenBucket, gained: nat): U32 {
    Min(Saturate(b.millitokens + Saturate(gained, U64_MAX), U64_MAX), b.capacity)
  }

  predicate IsFull(b: TokenBucket, now: nat) {
    TokensAt(b, now) >= b.capacity
  }

  /** The refilled and possibly charged bucket, with the verdict. */
  function TryTake(b: TokenBucket, now: nat): (TokenBucket, bool) {
    var tokens := TokensAt(b, now);
    if tokens >= COST_MT then (b.(millitokens := tokens - COST_MT, last := now), true)
    else (b.(millitokens := tokens, last := now), false)
  }

  /** The saturations are invisible: refill is linear growth cut off at capacity. */
  lemma TokensAtLinear(b: TokenBucket, now: nat)
    requires b.last <= now
    ensures TokensAt(b, now) == Min(b.millitokens + (now - b.last) * b.perSec, b.capacity)
  {
    CreditLinear(b, (now - b.last) * b.perSec);
  }

  lemma CreditLinear(b: TokenBucket, gained: nat)
    ensures Credit(b, gained) == Min(b.millitokens + gained, b.capacity)
  {
  }

  lemma MulMonotone(a: nat, b: nat, c: nat)
    requires a <= b
    ensures a * c <= b * c
  {
  }

  /** Refilling in two steps is refilling in one. */
  lemma RefillComposes(b: TokenBucket, mid: nat, now: nat)
    requires b.last <= mid <= now
    ensures TokensAt(b.(millitokens := TokensAt(b, mid), last := mid), now) == TokensAt(b, now)
  {
    var g, g' := (mid - b.last) * b.perSec, (now - mid) * b.perSec;
    assert (now - b.last) * b.perSec == g + g' by {
      assert now - b.last == (mid - b.last) + (now - mid);
    }
    CreditTwice(b, g, g', mid);
  }

  lemma CreditTwice(b: TokenBucket, g: nat, g': nat, mid: nat)
    ensures Credit(b.(millitokens := Credit(b, g), last := mid), g') == Credit(b, g + g')
  {
  }

  lemma BucketGrows(b: TokenBucket, mid: nat, now: nat)
    requires b.last <= mid <= now
    ensures TokensAt(b, now) <= TokensAt(b, mid) + (now - mid) * b.perSec
  {
    RefillComposes(b, mid, now);
    TokensAtLinear(b.(millitokens := TokensAt(b, mid), last := mid), now);
  }

  lemma FullStaysFull(b: TokenBucket, now: nat, t: nat)
    requires b.last <= now <= t && IsFull(b, now)
    ensures TokensAt(b, t) == b.capacity
  {
    TokensAtLinear(b, now);
    TokensAtLinear(b, t);
    MulMonotone(now - b.last, t - b.last, b.perSec);
  }

  // ---------------------------------------------------------------------
  // The bounded table of buckets
  // ---------------------------------------------------------------------

  datatype Bucket = Bucket(key: Key, tokens: TokenBucket)

  function Find(bs: seq<Bucket>, key: Key): (r: Option<nat>)
    ensures r.Some? ==> r.value < |bs| && bs[r.value].key == key
    ensures r.None? ==> forall i | 0 <= i < |bs| :: bs[i].key != key
  {
    if bs == [] then None
    else if bs[0].key == key then Some(0)
    else match Find(bs[1..], key)
      case None => None
      case Some(i) =>
        assert bs[1..][i] == bs[i + 1];
        Some(i + 1)
  }

  /** The buckets that have not refilled to capacity. */
  function Unfilled(bs: seq<Bucket>, now: nat): (r: seq<Bucket>)
    ensures |r| <= |bs|
    ensures forall b <- r :: b in bs && !IsFull(b.tokens, now)
    ensures forall b <- bs :: !IsFull(b.tokens, now) ==> b in r
  {
    if bs == [] then []
    else if IsFull(bs[0].tokens, now) then Unfilled(bs[1..], now)
    else [bs[0]] + Unfilled(bs[1..], now)
  }

  ghost predicate DistinctKeys(bs: seq<Bucket>) {
    forall i, j | 0 <= i < j < |bs| :: bs[i].key != bs[j].key
  }

  lemma {:induction false} UnfilledDistinct(bs: seq<Bucket>, now: nat)
    requires DistinctKeys(bs)
    ensures DistinctKeys(Unfilled(bs, now))
  {
    if bs != [] {
      UnfilledDistinct(bs[1..], now);
      forall b <- Unfilled(bs[1..], now) ensures b.key != bs[0].key {
        assert b in bs[1..];
      }
    }
  }

  /**
   What a source can still spend at time `t`: its bucket's tokens, or a full
   burst when it has no bucket. This is the whole observable meaning of the table.
   */
  function Level(bs: seq<Bucket>, capacity: U32, key: Key, t: nat): U32 {
    match Find(bs, key)
    case Some(i) => TokensAt(bs[i].tokens, t)
    case None => capacity
  }

  /** Changing or adding buckets of other sources leaves a source's bucket where it was. */
  lemma SameFind(bs: seq<Bucket>, cs: seq<Bucket>, key: Key)
    requires DistinctKeys(bs) && DistinctKeys(cs) && |bs| <= |cs|
    requires forall i | 0 <= i < |bs| :: bs[i].key == cs[i].key && (bs[i].key == key ==> bs[i] == cs[i])
    requires forall i | |bs| <= i < |cs| :: cs[i].key != key
    ensures Find(bs, key) == Find(cs, key)
    ensures Find(bs, key).Some? ==> bs[Find(bs, key).value] == cs[Find(bs, key).value]
  {
  }

  /**
   What one call of the limiter does to the allowances: the payer, if any, is
   one message poorer, and no other source is affected now or at any later time.
   */
  ghost predicate Spends(bs: seq<Bucket>, bs': seq<Bucket>, capacity: U32, payer: Option<Key>, now: nat) {
    && (forall k, t | now <= t && payer != Some(k) :: Level(bs', capacity, k, t) == Level(bs, capacity, k, t))
    && (payer.Some? ==> Level(bs', capacity, payer.value, now) + COST_MT == Level(bs, capacity, payer.value, now))
  }

  lemma SpendsAfterReclaim(bs: seq<Bucket>, mid: seq<Bucket>, bs': seq<Bucket>, capacity: U32, payer: Option<Key>,
                           now: nat)
    requires Spends(bs, mid, capacity, None, now) && Spends(mid, bs', capacity, payer, now)
    ensures Spends(bs, bs', capacity, payer, now)
  {
  }

  /** Every bucket of the table carries the limiter's parameters and was last touched by `clock`. */
  ghost predicate Uniform(bs: seq<Bucket>, perSec: U32, capacity: U32, clock: nat) {
    forall b <- bs :: b.tokens.capacity == capacity && b.tokens.perSec == perSec && b.tokens.last <= clock
  }

  /** Reclaiming refilled buckets is unobservable. */
  lemma ReclaimSpendsNothing(bs: seq<Bucket>, perSec: U32, capacity: U32, now: nat)
    requires DistinctKeys(bs) && Uniform(bs, perSec, capacity, now)
    ensures Spends(bs, Unfilled(bs, now), capacity, None, now)
  {
    forall k, t | now <= t ensures Level(Unfilled(bs, now), capacity, k, t) == Level(bs, capacity, k, t) {
      ReclaimKeepsLevel(bs, perSec, capacity, now, k, t);
    }
  }

  lemma ReclaimKeepsLevel(bs: seq<Bucket>, perSec: U32, capacity: U32, now: nat, key: Key, t: nat)
    requires DistinctKeys(bs) && Uniform(bs, perSec, capacity, now) && now <= t
    ensures Level(Unfilled(bs, now), capacity, key, t) == Level(bs, capacity, key, t)
  {
    var r := Unfilled(bs, now);
    UnfilledDistinct(bs, now);
    match Find(bs, key)
    case None =>
      assert Find(r, key).None?;
    case Some(i) =>
      var b := bs[i];
      if IsFull(b.tokens, now) {
        FullStaysFull(b.tokens, now, t);
        assert forall c <- r :: c in bs && c != b;
        assert Find(r, key).None?;
      } else {
        assert b in r;
        assert r[Find(r, key).value] in bs;
      }
  }

  /** Charging a source that has a bucket. */
  lemma ChargeSpends(bs: seq<Bucket>, i: nat, capacity: U32, now: nat)
    requires DistinctKeys(bs) && i < |bs| && bs[i].tokens.last <= now
    ensures var (tokens, ok) := TryTake(bs[i].tokens, now);
            && ok == (Level(bs, capacity, bs[i].key, now) >= COST_MT)
            && Spends(bs, bs[i := Bucket(bs[i].key, tokens)], capacity, if ok then Some(bs[i].key) else None, now)
  {
    var (tokens, ok) := TryTake(bs[i].tokens, now);
    var key := bs[i].key;
    var cs := bs[i := Bucket(key, tokens)];
    assert Find(bs, key) == Some(i) && cs[i].key == key;
    assert Find(cs, key) == Some(i);
    TokensAtLinear(tokens, now);
    forall k, t | now <= t && (k != key || !ok) ensures Level(cs, capacity, k, t) == Level(bs, capacity, k, t) {
      if k == key {
        RefillComposes(bs[i].tokens, now, t);
      } else {
        SameFind(bs, cs, k);
      }
    }
  }

  /** Admitting a source that has none. */
  lemma AdmitSpends(bs: seq<Bucket>, key: Key, perSec: U32, burst: U32, now: nat)
    requires DistinctKeys(bs) && Find(bs, key).None?
    ensures var b := NewBucket(perSec, burst, now);
            var (tokens, ok) := TryTake(b, now);
            && ok == (b.capacity >= COST_MT)
            && Spends(bs, bs + [Bucket(key, tokens)], b.capacity, if ok then Some(key) else None, now)
  {
    var b := NewBucket(perSec, burst, now);
    var (tokens, ok) := TryTake(b, now);
    var cs := bs + [Bucket(key, tokens)];
    assert cs[|bs|].key == key;
    assert Find(cs, key) == Some(|bs|);
    TokensAtLinear(b, now);
    TokensAtLinear(tokens, now);
    forall k, t | now <= t && (k != key || !ok)
      ensures Level(cs, b.capacity, k, t) == Level(bs, b.capacity, k, t)
    {
      if k == key {
        RefillComposes(b, now, t);
        FullStaysFull(b, now, t);
      } else {
        SameFind(bs, cs, k);
      }
    }
  }

  class RateLimiter {
    const perSec: U32
    const burst: U32
    const maxEntries: nat
    /** The storage ceiling of the table. */
    const ceiling: nat
    var buckets: seq<Bucket>
    /** The time of the last call. */
    ghost var clock: nat

    ghost predicate Valid()
      reads this
    {
      && DistinctKeys(buckets)
      && |buckets| <= Min(maxEntries, ceiling)
      && Uniform(buckets, perSec, Capacity(), clock)
    }

    ghost function Capacity(): U32 {
      Saturate(burst * 1000, U32_MAX)
    }

    constructor (perSec: U32, burst: U32, maxEntries: nat, ceiling: nat)
      ensures Valid() && buckets == [] && clock == 0
      ensures this.perSec == perSec && this.burst == burst && this.maxEntries == maxEntries && this.ceiling == ceiling
    {
      this.perSec := perSec;
      this.burst := burst;
      this.maxEntries := maxEntries;
      this.ceiling := ceiling;
      buckets := [];
      clock := 0;
    }

    /**
     Charges one message to the source of `ip`. The verdict and the new allowances are those
     of ideal per-source buckets; only a table already full of sources that are
     still below capacity can refuse a source that could pay.
     */
    method Allow(ip: Address, now: nat) returns (allowed: bool)
      requires Valid() && clock <= now
      modifies this
      ensures Valid() && clock == now
      ensures allowed ==> Level(old(buckets), Capacity(), KeyOf(ip), now) >= 1000
      ensures !allowed && Level(old(buckets), Capacity(), KeyOf(ip), now) >= 1000 ==>
                && Find(old(buckets), KeyOf(ip)).None?
                && (|Unfilled(old(buckets), now)| >= maxEntries || |old(buckets)| >= ceiling)
      ensures Spends(old(buckets), buckets, Capacity(), if allowed then Some(KeyOf(ip)) else None, now)
    {
      var key := KeyOf(ip);
      clock := now;
      match Find(buckets, key)
      case Some(i) =>
        ChargeSpends(buckets, i, Capacity(), now);
        assert buckets[i] in buckets;
        var (tokens, ok) := TryTake(buckets[i].tokens, now);
        buckets := buckets[i := Bucket(key, tokens)];
        return ok;
      case None =>
        if |buckets| >= maxEntries {
          Collect(now);
          if |buckets| >= maxEntries {
            return false;
          }
        }
        ghost var mid := buckets;
        allowed := Admit(key, now);
        SpendsAfterReclaim(old(buckets), mid, buckets, Capacity(), if allowed then Some(key) else None, now);
    }

    method Collect(now: nat)
      requires Valid() && clock == now
      modifies this
      ensures Valid() && clock == now
      ensures buckets == Unfilled(old(buckets), now)
      ensures Spends(old(buckets), buckets, Capacity(), None, now)
      ensures forall k | Find(old(buckets), k).None? :: Find(buckets, k).None?
    {
      UnfilledDistinct(buckets, now);
      ReclaimSpendsNothing(buckets, perSec, Capacity(), now);
      forall k | Find(buckets, k).None? ensures Find(Unfilled(buckets, now), k).None? {
        assert forall b <- Unfilled(buckets, now) :: b in buckets && b.key != k;
      }
      buckets := Unfilled(buckets, now);
    }

    method Admit(key: Key, now: nat) returns (allowed: bool)
      requires Valid() && clock == now
      requires Find(buckets, key).None? && |buckets| < maxEntries
      modifies this
      ensures Valid() && clock == now
      ensures allowed <==> |old(buckets)| < ceiling && Capacity() >= COST_MT
      ensures Spends(old(buckets), buckets, Capacity(), if allowed then Some(key) else None, now)
    {
      var (tokens, ok) := TryTake(NewBucket(perSec, burst, now), now);
      if |buckets| >= ceiling {
        return false;
      }
      AdmitSpends(buckets, key, perSec, burst, now);
      buckets := buckets + [Bucket(key, tokens)];
      return ok;
    }
  }

  // ---------------------------------------------------------------------
  // The envelope over whole runs
  // ---------------------------------------------------------------------

  datatype Call = Call(ip: Address, time: nat)

  ghost predicate Ordered(calls: seq<Call>) {
    forall i, j | 0 <= i < j < |calls| :: calls[i].time <= calls[j].time
  }

  /** How many messages of `key` were allowed among calls `i <= n < j`. */
  function Allowed(calls: seq<Call>, verdicts: seq<bool>, key: Key, i: nat, j: nat): nat
    requires i <= j <= |calls| && j <= |verdicts|
  {
    if i == j then 0
    else Allowed(calls, verdicts, key, i, j - 1) + (if KeyOf(calls[j - 1].ip) == key && verdicts[j - 1] then 1 else 0)
  }

  /** The burst plus what accrues over a span of `ms` milliseconds, in millitokens. */
  function Budget(perSec: U32, burst: U32, ms: nat): nat {
    1000 * burst + perSec * ms
  }

  lemma BudgetGrows(perSec: U32, burst: U32, ms: nat, more: nat)
    ensures Budget(perSec, burst, ms + more) == Budget(perSec, burst, ms) + more * perSec
  {
    assert perSec * (ms + more) == perSec * ms + more * perSec;
  }

  /** An allowance never exceeds a burst and never grows faster than the configured rate. */
  lemma LevelGrows(bs: seq<Bucket>, perSec: U32, burst: U32, clock: nat, key: Key, t: nat)
    requires Uniform(bs, perSec, Saturate(burst * 1000, U32_MAX), clock) && clock <= t
    ensures var cap := Saturate(burst * 1000, U32_MAX);
            && Level(bs, cap, key, t) <= 1000 * burst
            && Level(bs, cap, key, t) <= Level(bs, cap, key, clock) + (t - clock) * perSec
  {
    if Find(bs, key).Some? {
      var b := bs[Find(bs, key).value];
      assert b in bs;
      BucketGrows(b.tokens, clock, t);
    }
  }

  /** What was allowed from call `i` on, plus what `key` still holds, stays within the budget of that span. */
  ghost predicate Within(calls: seq<Call>, verdicts: seq<bool>, perSec: U32, burst: U32, key: Key, i: nat, held: nat,
                         clock: nat)
    requires i < |verdicts| <= |calls|
  {
    && calls[i].time <= clock
    && COST_MT * Allowed(calls, verdicts, key, i, |verdicts|) + held <= Budget(perSec, burst, clock - calls[i].time)
  }

  lemma {:induction false} AllowedPrefix(calls: seq<Call>, verdicts: seq<bool>, more: bool, key: Key, i: nat, j: nat)
    requires i <= j <= |verdicts| <= |calls|
    ensures Allowed(calls, verdicts + [more], key, i, j) == Allowed(calls, verdicts, key, i, j)
    decreases j
  {
    if i < j {
      AllowedPrefix(calls, verdicts, more, key, i, j - 1);
    }
  }

  /** One more call keeps a window inside its budget. */
  lemma WithinStep(calls: seq<Call>, verdicts: seq<bool>, ok: bool, perSec: U32, burst: U32, key: Key, i: nat,
                   held: nat, clock: nat, held': nat)
    requires |verdicts| < |calls| && i <= |verdicts|
    requires clock <= calls[|verdicts|].time
    requires i < |verdicts| ==> Within(calls, verdicts, perSec, burst, key, i, held, clock)
    requires var n := |verdicts|;
             var charge := if KeyOf(calls[n].ip) == key && ok then COST_MT else 0;
             && held' + charge <= held + (calls[n].time - clock) * perSec
             && held' + charge <= 1000 * burst
    ensures Within(calls, verdicts + [ok], perSec, burst, key, i, held', calls[|verdicts|].time)
  {
    var n := |verdicts|;
    AllowedPrefix(calls, verdicts, ok, key, i, n);
    if i < n {
      BudgetGrows(perSec, burst, clock - calls[i].time, calls[n].time - clock);
    } else {
      assert Allowed(calls, verdicts + [ok], key, n, n) == 0;
    }
  }

  /** The same step, with the allowances read off the bucket table before and after the call. */
  lemma WindowStep(calls: seq<Call>, verdicts: seq<bool>, ok: bool, perSec: U32, burst: U32, key: Key, i: nat,
                   bs: seq<Bucket>, clock: nat, bs': seq<Bucket>)
    requires |verdicts| < |calls| && i <= |verdicts|
    requires clock <= calls[|verdicts|].time && Uniform(bs, perSec, Saturate(burst * 1000, U32_MAX), clock)
    requires var cap := Saturate(burst * 1000, U32_MAX);
             i < |verdicts| ==> Within(calls, verdicts, perSec, burst, key, i, Level(bs, cap, key, clock), clock)
    requires var cap, n := Saturate(burst * 1000, U32_MAX), |verdicts|;
             Level(bs', cap, key, calls[n].time) + (if KeyOf(calls[n].ip) == key && ok then COST_MT else 0)
             == Level(bs, cap, key, calls[n].time)
    ensures var cap := Saturate(burst * 1000, U32_MAX);
            Within(calls, verdicts + [ok], perSec, burst, key, i,
                   Level(bs', cap, key, calls[|verdicts|].time), calls[|verdicts|].time)
  {
    var cap, time := Saturate(burst * 1000, U32_MAX), calls[|verdicts|].time;
    LevelGrows(bs, perSec, burst, clock, key, time);
    var held, held' := Level(bs, cap, key, clock), Level(bs', cap, key, time);
    WithinStep(calls, verdicts, ok, perSec, burst, key, i, held, clock, held');
  }

  /** Every window of the run so far is inside its budget, for every source. */
  ghost predicate Enveloped(calls: seq<Call>, verdicts: seq<bool>, perSec: U32, burst: U32)
    requires |verdicts| <= |calls| && Ordered(calls)
  {
    forall key, i, j | 0 <= i < j <= |verdicts| ::
      COST_MT * Allowed(calls, verdicts, key, i, j) <= Budget(perSec, burst, calls[j - 1].time - calls[i].time)
  }

  /** ... and even with what every source still holds at `clock` counted in. */
  ghost predicate AllWithin(calls: seq<Call>, verdicts: seq<bool>, perSec: U32, burst: U32, bs: seq<Bucket>, clock: nat)
    requires |verdicts| <= |calls|
  {
    forall key, i: nat | i < |verdicts| ::
      Within(calls, verdicts, perSec, burst, key, i, Level(bs, Saturate(burst * 1000, U32_MAX), key, clock), clock)
  }

  lemma EnvelopeStep(calls: seq<Call>, verdicts: seq<bool>, ok: bool, perSec: U32, burst: U32,
                     bs: seq<Bucket>, clock: nat, bs': seq<Bucket>)
    requires |verdicts| < |calls| && Ordered(calls)
    requires clock <= calls[|verdicts|].time && Uniform(bs, perSec, Saturate(burst * 1000, U32_MAX), clock)
    requires Enveloped(calls, verdicts, perSec, burst)
    requires AllWithin(calls, verdicts, perSec, burst, bs, clock)
    requires var call := calls[|verdicts|];
             Spends(bs, bs', Saturate(burst * 1000, U32_MAX), if ok then Some(KeyOf(call.ip)) else None, call.time)
    ensures AllWithin(calls, verdicts + [ok], perSec, burst, bs', calls[|verdicts|].time)
    ensures Enveloped(calls, verdicts + [ok], perSec, burst)
  {
    var time, cap := calls[|verdicts|].time, Saturate(burst * 1000, U32_MAX);
    forall key, i: nat | i < |verdicts| + 1
      ensures Within(calls, verdicts + [ok], perSec, burst, key, i, Level(bs', cap, key, time), time)
    {
      WindowStep(calls, verdicts, ok, perSec, burst, key, i, bs, clock, bs');
    }
    forall key, i, j | 0 <= i < j <= |verdicts| + 1
      ensures COST_MT * Allowed(calls, verdicts + [ok], key, i, j)
           <= Budget(perSec, burst, calls[j - 1].time - calls[i].time)
    {
      if j <= |verdicts| {
        AllowedPrefix(calls, verdicts, ok, key, i, j);
      } else {
        assert Within(calls, verdicts + [ok], perSec, burst, key, i, Level(bs', cap, key, time), time);
      }
    }
  }

  /** The allowed calls among `i <= n < j` that come from the source of address `a`. */
  ghost function Passed(calls: seq<Call>, verdicts: seq<bool>, a: Address, i: nat, j: nat): set<nat>
    requires i <= j <= |calls| && j <= |verdicts|
  {
    set n: nat | i <= n < j && verdicts[n] && SameSource(calls[n].ip, a)
  }

  lemma {:induction false} PassedIsAllowed(calls: seq<Call>, verdicts: seq<bool>, a: Address, i: nat, j: nat)
    requires i <= j <= |calls| && j <= |verdicts|
    ensures |Passed(calls, verdicts, a, i, j)| == Allowed(calls, verdicts, KeyOf(a), i, j)
    decreases j - i
  {
    if i < j {
      PassedIsAllowed(calls, verdicts, a, i, j - 1);
      KeyIsSource(calls[j - 1].ip, a);
      var before, all := Passed(calls, verdicts, a, i, j - 1), Passed(calls, verdicts, a, i, j);
      assert all == if verdicts[j - 1] && SameSource(calls[j - 1].ip, a) then before + {j - 1} else before;
    } else {
      assert Passed(calls, verdicts, a, i, j) == {};
    }
  }

  /**
   In any run with nondecreasing time, every source stays inside its envelope
   over every window of calls, although its bucket may be reclaimed and
   recreated any number of times inside the window: an IPv4 address, or a whole
   IPv6 /64, gets at most the burst and what accrues over the window.
   */
  method RunLimiter(perSec: U32, burst: U32, maxEntries: nat, ceiling: nat, calls: seq<Call>)
    returns (verdicts: seq<bool>)
    requires Ordered(calls)
    ensures |verdicts| == |calls|
    ensures Enveloped(calls, verdicts, perSec, burst)
    ensures forall a: Address, i, j | 0 <= i < j <= |calls| ::
              1000 * |Passed(calls, verdicts, a, i, j)| <= 1000 * burst + perSec * (calls[j - 1].time - calls[i].time)
  {
    var l := new RateLimiter(perSec, burst, maxEntries, ceiling);
    verdicts := [];
    for n := 0 to |calls|
      invariant l.Valid() && l.perSec == perSec && l.burst == burst && fresh(l)
      invariant |verdicts| == n
      invariant l.clock == if n == 0 then 0 else calls[n - 1].time
      invariant AllWithin(calls, verdicts, perSec, burst, l.buckets, l.clock)
      invariant Enveloped(calls, verdicts, perSec, burst)
    {
      verdicts := NextCall(l, calls, verdicts);
    }
    SourcesEnveloped(calls, verdicts, perSec, burst);
  }

  lemma SourcesEnveloped(calls: seq<Call>, verdicts: seq<bool>, perSec: U32, burst: U32)
    requires |verdicts| == |calls| && Ordered(calls) && Enveloped(calls, verdicts, perSec, burst)
    ensures forall a: Address, i, j | 0 <= i < j <= |calls| ::
              1000 * |Passed(calls, verdicts, a, i, j)| <= 1000 * burst + perSec * (calls[j - 1].time - calls[i].time)
  {
    forall a: Address, i, j | 0 <= i < j <= |calls|
      ensures 1000 * |Passed(calls, verdicts, a, i, j)| <= 1000 * burst + perSec * (calls[j - 1].time - calls[i].time)
    {
      PassedIsAllowed(calls, verdicts, a, i, j);
      assert COST_MT * Allowed(calls, verdicts, KeyOf(a), i, j)
          <= Budget(perSec, burst, calls[j - 1].time - calls[i].time);
    }
  }

  method NextCall(l: RateLimiter, calls: seq<Call>, verdicts: seq<bool>) returns (verdicts': seq<bool>)
    requires l.Valid() && Ordered(calls) && |verdicts| < |calls| && l.clock <= calls[|verdicts|].time
    requires AllWithin(calls, verdicts, l.perSec, l.burst, l.buckets, l.clock)
    requires Enveloped(calls, verdicts, l.perSec, l.burst)
    modifies l
    ensures l.Valid() && l.clock == calls[|verdicts|].time
    ensures |verdicts'| == |verdicts| + 1
    ensures AllWithin(calls, verdicts', l.perSec, l.burst, l.buckets, l.clock)
    ensures Enveloped(calls, verdicts', l.perSec, l.burst)
  {
    ghost var clock, bs := l.clock, l.buckets;
    var call := calls[|verdicts|];
    var ok := l.Allow(call.ip, call.time);
    EnvelopeStep(calls, verdicts, ok, l.perSec, l.burst, bs, clock, l.buckets);
    verdicts' := verdicts + [ok];
  }

  // ---------------------------------------------------------------------
  // The interval budget
  // ---------------------------------------------------------------------

  /** A `u64` number of milliseconds. */
  type Millis = t: nat | t <= U64_MAX

  datatype Interval = Interval(available: U32, burst: U32, intervalMs: Millis, lastRefill: Millis)

  /** The refill every charge performs first, with the saturations of the code. */
  function Refill(b: Interval, now: Millis): Interval
    requires b.intervalMs > 0
  {
    var refills := SaturatingSub(now, b.lastRefill) / b.intervalMs;
    if refills == 0 then b
    else
      b.(available := Min(Saturate(b.available + Saturate(refills, U32_MAX), U32_MAX), b.burst),
         lastRefill := Saturate(b.lastRefill + Saturate(refills * b.intervalMs, U64_MAX), U64_MAX))
  }

  function TakeMany(b: Interval, count: U32, now: Millis): (Interval, bool) {
    if count == 0 then (b, true)
    else if b.intervalMs == 0 || b.burst == 0 || count > b.burst then (b, false)
    else
      var r := Refill(b, now);
      if r.available < count then (r, false)
      else (r.(available := r.available - count), true)
  }

  lemma DivideOut(x: nat, r: nat, i: nat)
    requires i > 0 && r * i <= x
    ensures (x - r * i) / i == x / i - r
  {
    var q := (x - r * i) / i;
    assert x == q * i + (x - r * i) % i + r * i;
    assert x == (q + r) * i + (x - r * i) % i;
    QuotientUnique(x, q + r, (x - r * i) % i, i);
  }

  lemma QuotientUnique(x: nat, q: nat, rem: nat, i: nat)
    requires rem < i && x == q * i + rem
    ensures x / i == q
  {
    var d := q - x / i;
    assert d * i == x % i - rem by {
      assert x == (x / i) * i + x % i;
      assert d * i == q * i - (x / i) * i;
    }
    NonzeroMultiple(i, d);
  }

  /** The state after crediting `n` whole intervals. */
  function Credited(b: Interval, n: nat): Interval
    requires b.lastRefill + n * b.intervalMs <= U64_MAX
  {
    b.(available := Min(b.available + n, b.burst), lastRefill := b.lastRefill + n * b.intervalMs)
  }

  lemma CreditedTwice(b: Interval, n: nat, k: nat)
    requires b.available <= b.burst
    requires b.lastRefill + n * b.intervalMs <= U64_MAX
    requires Credited(b, n).lastRefill + k * b.intervalMs <= U64_MAX
    ensures b.lastRefill + (n + k) * b.intervalMs <= U64_MAX
    ensures Credited(Credited(b, n), k) == Credited(b, n + k)
  {
    assert (n + k) * b.intervalMs == n * b.intervalMs + k * b.intervalMs;
  }

  /** Refilling credits the elapsed whole intervals; no saturation ever shows. */
  lemma RefillExact(b: Interval, now: Millis)
    requires b.intervalMs > 0 && b.lastRefill <= now && b.available <= b.burst
    ensures var n := (now - b.lastRefill) / b.intervalMs;
            && b.lastRefill + n * b.intervalMs <= now
            && Refill(b, now) == Credited(b, n)
  {
    var n := (now - b.lastRefill) / b.intervalMs;
    assert n * b.intervalMs <= now - b.lastRefill;
  }

  /** An intermediate refill leaves no trace: a later refill reaches the same state without it. */
  lemma RefillAbsorbed(b: Interval, mid: Millis, now: Millis)
    requires b.intervalMs > 0 && b.lastRefill <= mid <= now && b.available <= b.burst
    ensures Refill(Refill(b, mid), now) == Refill(b, now)
    ensures Refill(b, mid).lastRefill <= mid && Refill(b, mid).available <= b.burst
  {
    var i, elapsed := b.intervalMs, now - b.lastRefill;
    var n := (mid - b.lastRefill) / i;
    var b' := Refill(b, mid);
    RefillExact(b, mid);
    RefillExact(b, now);
    RefillExact(b', now);
    var k := (now - b'.lastRefill) / i;
    assert k == elapsed / i - n by {
      DivideOut(elapsed, n, i);
    }
    CreditedTwice(b, n, k);
  }

  datatype Charge = Charge(count: U32, time: Millis)

  ghost predicate OrderedFrom(charges: seq<Charge>, start: nat) {
    && (forall i | 0 <= i < |charges| :: start <= charges[i].time)
    && (forall i, j | 0 <= i < j < |charges| :: charges[i].time <= charges[j].time)
  }

  function Outcomes(b: Interval, charges: seq<Charge>): seq<bool>
    decreases |charges|
  {
    if charges == [] then []
    else
      var (b', ok) := TakeMany(b, charges[0].count, charges[0].time);
      [ok] + Outcomes(b', charges[1..])
  }

  /** A refused charge changes the outcome of no later run of calls. */
  lemma {:induction false} RefusalIsNeutral(b: Interval, refused: Charge, charges: seq<Charge>)
    requires b.available <= b.burst && b.lastRefill <= refused.time
    requires OrderedFrom(charges, refused.time)
    requires !TakeMany(b, refused.count, refused.time).1
    ensures Outcomes(TakeMany(b, refused.count, refused.time).0, charges) == Outcomes(b, charges)
  {
    var b' := TakeMany(b, refused.count, refused.time).0;
    if b' != b {
      RefillIsNeutral(b, refused.time, charges);
    }
  }

  lemma {:induction false} RefillIsNeutral(b: Interval, at: Millis, charges: seq<Charge>)
    requires b.intervalMs > 0 && b.available <= b.burst && b.lastRefill <= at
    requires OrderedFrom(charges, at)
    ensures Outcomes(Refill(b, at), charges) == Outcomes(b, charges)
    decreases |charges|
  {
    if charges != [] {
      RefillAbsorbed(b, at, charges[0].time);
      RefillIsNeutral(b, at, charges[1..]);
    }
  }

  /** A global budget for destructive peer evictions. */
  class IntervalBudget {
    const burst: U32
    const intervalMs: Millis
    var available: U32
    var lastRefill: Millis
    /** Construction time, last call, whole intervals credited and operations charged since construction. */
    ghost const start: nat
    ghost var clock: nat
    ghost var credited: nat
    ghost var charged: nat

    ghost function State(): Interval
      reads this
    {
      Interval(available, burst, intervalMs, lastRefill)
    }

    ghost predicate Valid()
      reads this
    {
      && available <= burst
      && start <= lastRefill <= clock
      && lastRefill == start + credited * intervalMs
      && charged + available <= burst + credited
    }

    constructor (interval: Millis, burst: U32, now: Millis)
      ensures Valid() && State() == Interval(burst, burst, interval, now)
      ensures start == now && clock == now && charged == 0
    {
      this.burst := burst;
      intervalMs := interval;
      available := burst;
      lastRefill := now;
      start := now;
      clock := now;
      credited := 0;
      charged := 0;
    }

    /** All-or-nothing charge of `count` operations. */
    method TryTakeMany(count: U32, now: Millis) returns (ok: bool)
      requires Valid() && clock <= now
      modifies this
      ensures Valid() && clock == now
      ensures (State(), ok) == TakeMany(old(State()), count, now)
      ensures charged == old(charged) + (if ok then count else 0)
    {
      clock := now;
      if count == 0 {
        return true;
      }
      if intervalMs == 0 || burst == 0 || count > burst {
        return false;
      }
      RefillTo(now);
      if available < count {
        return false;
      }
      available := available - count;
      charged := charged + count;
      return true;
    }

    /** Credits the whole intervals elapsed since the last refill. */
    method RefillTo(now: Millis)
      requires Valid() && clock == now && intervalMs > 0
      modifies this
      ensures Valid() && clock == now && charged == old(charged)
      ensures State() == Refill(old(State()), now)
    {
      var elapsed := SaturatingSub(now, lastRefill);
      var refills := elapsed / intervalMs;
      RefillExact(State(), now);
      if refills != 0 {
        var gained := Saturate(refills, U32_MAX);
        available := Min(Saturate(available + gained, U32_MAX), burst);
        lastRefill := Saturate(lastRefill + Saturate(refills * intervalMs, U64_MAX), U64_MAX);
        assert (credited + refills) * intervalMs == credited * intervalMs + refills * intervalMs;
        credited := credited + refills;
      }
    }

    /** In every reachable state the operations charged fit the burst plus one per elapsed interval. */
    lemma ChargesBounded()
      requires Valid() && intervalMs > 0
      ensures charged <= burst + (clock - start) / intervalMs
    {
      var x, i := clock - start, intervalMs;
      assert credited * i <= x;
      DivideOut(x, credited, i);
      assert (x - credited * i) / i >= 0;
    }
  }
}

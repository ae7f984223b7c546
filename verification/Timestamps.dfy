/**
 TAI64N handshake timestamps: the initiator's strictly increasing, whitened
 clock, and the responder's replay gate. Peers compare timestamps as byte
 strings, so the model keeps the twelve bytes and proves what their order means.
 */
module Timestamps {
  import opened Common

  type Byte = b: nat | b < 256

  const NANOS: nat := 1_000_000_000
  /** The whitening quantum: the low 24 bits of the nanoseconds are cleared. */
  const QUANTUM: nat := 0x100_0000
  const TAI_LABEL: nat := 0x4000_0000_0000_000a
  /** Milliseconds that must separate two accepted initiations of one peer. */
  const MIN_INTERVAL: nat := 20

  // ---------------------------------------------------------------------
  // Big-endian bytes and their order
  // ---------------------------------------------------------------------

  function Pow256(n: nat): nat {
    if n == 0 then 1 else 256 * Pow256(n - 1)
  }

  /** The low `n` bytes of `x`, most significant first. */
  function ToBytes(x: nat, n: nat): (s: seq<Byte>)
    ensures |s| == n
  {
    if n == 0 then [] else ToBytes(x / 256, n - 1) + [x % 256]
  }

  function FromBytes(s: seq<Byte>): nat {
    if s == [] then 0 else FromBytes(s[..|s| - 1]) * 256 + s[|s| - 1]
  }

  /** Lexicographic order of equally long byte strings. */
  predicate Before(a: seq<Byte>, b: seq<Byte>)
    requires |a| == |b|
  {
    |a| > 0 && (a[0] < b[0] || (a[0] == b[0] && Before(a[1..], b[1..])))
  }

  /** The order can also be read from the last byte. */
  lemma {:induction false} BeforeFromEnd(a: seq<Byte>, b: seq<Byte>, x: Byte, y: Byte)
    requires |a| == |b|
    ensures Before(a + [x], b + [y]) <==> Before(a, b) || (a == b && x < y)
  {
    if a != [] {
      BeforeFromEnd(a[1..], b[1..], x, y);
      assert (a + [x])[1..] == a[1..] + [x] && (b + [y])[1..] == b[1..] + [y];
      assert a == [a[0]] + a[1..] && b == [b[0]] + b[1..];
    }
  }

  /** Bytes are ordered as the numbers they encode. */
  lemma {:induction false} BytesOrder(s: seq<Byte>, t: seq<Byte>)
    requires |s| == |t|
    ensures Before(s, t) <==> FromBytes(s) < FromBytes(t)
    ensures FromBytes(s) == FromBytes(t) ==> s == t
  {
    if s != [] {
      var n := |s| - 1;
      BytesOrder(s[..n], t[..n]);
      BeforeFromEnd(s[..n], t[..n], s[n], t[n]);
      assert s == s[..n] + [s[n]] && t == t[..n] + [t[n]];
    }
  }

  lemma {:induction false} BytesRoundTrip(x: nat, n: nat)
    requires x < Pow256(n)
    ensures FromBytes(ToBytes(x, n)) == x
  {
    if n > 0 {
      BytesRoundTrip(x / 256, n - 1);
      var s := ToBytes(x, n);
      assert s[..n - 1] == ToBytes(x / 256, n - 1);
    }
  }

  lemma {:induction false} BytesBounded(s: seq<Byte>)
    ensures FromBytes(s) < Pow256(|s|)
  {
    if s != [] {
      BytesBounded(s[..|s| - 1]);
    }
  }

  lemma PowValues()
    ensures Pow256(8) == U64_MAX + 1 && Pow256(4) == U32_MAX + 1
  {
    assert Pow256(2) == 0x1_0000;
    assert Pow256(4) == 0x1_0000_0000;
    assert Pow256(6) == 0x1_0000_0000_0000;
  }

  // ---------------------------------------------------------------------
  // Timestamps
  // ---------------------------------------------------------------------

  type Stamp = s: seq<Byte> | |s| == 12 witness seq(12, i => 0)

  function Seconds(t: Stamp): nat { FromBytes(t[..8]) }
  function Nanos(t: Stamp): nat { FromBytes(t[8..]) }

  /** Nanoseconds below one second with the low 24 bits cleared. */
  predicate Whitened(t: Stamp) {
    Nanos(t) < NANOS && Nanos(t) % QUANTUM == 0
  }

  lemma FourBytes(a: Byte, b: Byte, c: Byte, d: Byte)
    ensures FromBytes([a, b, c, d]) == ((a * 256 + b) * 256 + c) * 256 + d
  {
    assert [a, b, c, d][..3] == [a, b, c] && [a, b, c][..2] == [a, b] && [a, b][..1] == [a] && [a][..0] == [];
    assert FromBytes([a]) == a && FromBytes([a, b]) == a * 256 + b;
    assert FromBytes([a, b, c]) == (a * 256 + b) * 256 + c;
  }

  /** On the wire: the last three bytes are zero, and the one before them stays below a second. */
  lemma WhitenedBytes(t: Stamp)
    ensures Whitened(t) <==> t[8] < 60 && t[9] == 0 && t[10] == 0 && t[11] == 0
  {
    FourBytes(t[8], t[9], t[10], t[11]);
    assert t[8..] == [t[8], t[9], t[10], t[11]];
  }

  function Encode(seconds: nat, nanos: nat): Stamp
    requires seconds <= U64_MAX && nanos <= U32_MAX
  {
    ToBytes(seconds, 8) + ToBytes(nanos, 4)
  }

  lemma EncodeDecodes(seconds: nat, nanos: nat)
    requires seconds <= U64_MAX && nanos <= U32_MAX
    ensures Seconds(Encode(seconds, nanos)) == seconds && Nanos(Encode(seconds, nanos)) == nanos
  {
    PowValues();
    BytesRoundTrip(seconds, 8);
    BytesRoundTrip(nanos, 4);
    assert Encode(seconds, nanos)[..8] == ToBytes(seconds, 8);
    assert Encode(seconds, nanos)[8..] == ToBytes(nanos, 4);
  }

  lemma {:induction false} BeforeConcat(a: seq<Byte>, b: seq<Byte>, c: seq<Byte>, d: seq<Byte>)
    requires |a| == |b| && |c| == |d|
    ensures Before(a + c, b + d) <==> Before(a, b) || (a == b && Before(c, d))
  {
    if a == [] {
      assert a + c == c && b + d == d;
    } else {
      BeforeConcat(a[1..], b[1..], c, d);
      assert (a + c)[1..] == a[1..] + c && (b + d)[1..] == b[1..] + d;
      assert a == [a[0]] + a[1..] && b == [b[0]] + b[1..];
    }
  }

  /** Byte order of timestamps is time order: seconds first, then nanoseconds. */
  lemma StampOrder(t: Stamp, u: Stamp)
    ensures Before(t, u) <==> Seconds(t) < Seconds(u) || (Seconds(t) == Seconds(u) && Nanos(t) < Nanos(u))
    ensures Seconds(t) == Seconds(u) && Nanos(t) == Nanos(u) ==> t == u
  {
    assert t == t[..8] + t[8..] && u == u[..8] + u[8..];
    BeforeConcat(t[..8], u[..8], t[8..], u[8..]);
    BytesOrder(t[..8], u[..8]);
    BytesOrder(t[8..], u[8..]);
  }

  datatype Error = NoWallClock | TimeOverflow

  /** The TAI64N label of a Unix time, whitened. */
  function Tai64n(unixSecs: nat, nanos: nat): Result<Stamp, Error>
    requires nanos <= U32_MAX
  {
    if TAI_LABEL + unixSecs > U64_MAX then Err(TimeOverflow)
    else Ok(Encode(TAI_LABEL + unixSecs, nanos - nanos % QUANTUM))
  }

  /** The label of the Unix epoch: 2^62 seconds and the ten that TAI was ahead of it. */
  lemma EpochBytes()
    ensures Tai64n(0, 0) == Ok([64, 0, 0, 0, 0, 0, 0, 10, 0, 0, 0, 0])
  {
    assert ToBytes(64, 1) == [64];
    assert ToBytes(0x4000, 2) == [64, 0];
    assert ToBytes(0x40_0000, 3) == [64, 0, 0];
    assert ToBytes(0x4000_0000, 4) == [64, 0, 0, 0];
    assert ToBytes(0x40_0000_0000, 5) == [64, 0, 0, 0, 0];
    assert ToBytes(0x4000_0000_0000, 6) == [64, 0, 0, 0, 0, 0];
    assert ToBytes(0x40_0000_0000_0000, 7) == [64, 0, 0, 0, 0, 0, 0];
    assert ToBytes(0x4000_0000_0000_000a, 8) == [64, 0, 0, 0, 0, 0, 0, 10];
    assert ToBytes(0, 2) == [0, 0];
    assert ToBytes(0, 4) == [0, 0, 0, 0];
    assert Tai64n(0, 0) == Ok(ToBytes(0x4000_0000_0000_000a, 8) + ToBytes(0, 4));
    assert [64, 0, 0, 0, 0, 0, 0, 10] + [0, 0, 0, 0] == [64, 0, 0, 0, 0, 0, 0, 10, 0, 0, 0, 0];
  }

  /** The next representable whitened timestamp after `last`. */
  function NextWhitened(last: Stamp): Result<Stamp, Error> {
    var seconds, raw := Seconds(last), Nanos(last);
    BytesBounded(last[..8]);
    BytesBounded(last[8..]);
    PowValues();
    var next := Saturate((raw - raw % QUANTUM) + QUANTUM, U32_MAX);
    if next >= NANOS then
      if seconds == U64_MAX then Err(TimeOverflow) else Ok(Encode(seconds + 1, 0))
    else
      Ok(Encode(seconds, next))
  }

  /** The successor in numbers: one quantum further, carrying into the next second. */
  lemma NextWhitenedValue(last: Stamp)
    requires Whitened(last)
    ensures Seconds(last) <= U64_MAX
    ensures NextWhitened(last).Err? <==> Seconds(last) == U64_MAX && NANOS <= Nanos(last) + QUANTUM
    ensures NextWhitened(last).Ok? ==>
              var next := NextWhitened(last).value;
              if NANOS <= Nanos(last) + QUANTUM then Seconds(next) == Seconds(last) + 1 && Nanos(next) == 0
              else Seconds(next) == Seconds(last) && Nanos(next) == Nanos(last) + QUANTUM
  {
    BytesBounded(last[..8]);
    PowValues();
    if NextWhitened(last).Ok? {
      if NANOS <= Nanos(last) + QUANTUM {
        EncodeDecodes(Seconds(last) + 1, 0);
      } else {
        EncodeDecodes(Seconds(last), Nanos(last) + QUANTUM);
      }
    }
  }

  lemma QuantaApart(a: nat, b: nat)
    requires a % QUANTUM == 0 && b % QUANTUM == 0 && a < b
    ensures a + QUANTUM <= b
  {
  }

  /** Nothing representable lies between a whitened timestamp and its successor. */
  lemma NextWhitenedIsSuccessor(last: Stamp)
    requires Whitened(last) && NextWhitened(last).Ok?
    ensures var next := NextWhitened(last).value;
            && Whitened(next) && Before(last, next)
            && forall t: Stamp | Whitened(t) && Before(last, t) :: t == next || Before(next, t)
  {
    var next := NextWhitened(last).value;
    NextWhitenedValue(last);
    StampOrder(last, next);
    forall t: Stamp | Whitened(t) && Before(last, t) ensures t == next || Before(next, t) {
      StampOrder(last, t);
      StampOrder(next, t);
      if Seconds(t) == Seconds(last) {
        QuantaApart(Nanos(last), Nanos(t));
      }
    }
  }

  lemma Tai64nWhitened(unixSecs: nat, nanos: nat)
    requires nanos < NANOS && TAI_LABEL + unixSecs <= U64_MAX
    ensures Whitened(Tai64n(unixSecs, nanos).value)
  {
    EncodeDecodes(TAI_LABEL + unixSecs, nanos - nanos % QUANTUM);
  }

  lemma BeforeTransitive(t: Stamp, u: Stamp, v: Stamp)
    requires (t == u || Before(t, u)) && Before(u, v)
    ensures Before(t, v)
  {
    StampOrder(t, u);
    StampOrder(u, v);
    StampOrder(t, v);
  }

  datatype WallClock = WallClock(baseUnixNanos: nat, baseInstant: nat)

  /** The wall-clock label extrapolated to `now`, in `u64` nanoseconds. */
  function Reading(wall: WallClock, now: nat): nat {
    Saturate(wall.baseUnixNanos + Saturate(SaturatingSub(now, wall.baseInstant) * 1_000_000, U64_MAX), U64_MAX)
  }

  /** The time `ms` milliseconds after a Unix time fits in 64-bit nanoseconds. */
  predicate Fits(unixSecs: nat, nanos: nat, ms: nat) {
    unixSecs * NANOS + nanos + ms * 1_000_000 <= U64_MAX
  }

  /** A clock that reads a Unix time stamps exactly that second, and the nanosecond rounded down to a quantum. */
  lemma ReadingIsStamped(unixSecs: nat, nanos: nat)
    requires nanos < NANOS && Fits(unixSecs, nanos, 0)
    ensures var total := unixSecs * NANOS + nanos;
            var r := Tai64n(total / NANOS, total % NANOS);
            && r.Ok? && Seconds(r.value) == TAI_LABEL + unixSecs
            && Nanos(r.value) <= nanos < Nanos(r.value) + QUANTUM && Whitened(r.value)
  {
    var total := unixSecs * NANOS + nanos;
    assert total / NANOS == unixSecs && total % NANOS == nanos;
    EncodeDecodes(TAI_LABEL + unixSecs, nanos - nanos % QUANTUM);
    Tai64nWhitened(unixSecs, nanos);
  }

  /** The initiator's clock: `Core::set_unix_time` and `Core::timestamp`. */
  class Clock {
    var wall: Option<WallClock>
    var last: Stamp
    /** Every timestamp emitted so far, oldest first. */
    ghost var emitted: seq<Stamp>

    ghost predicate Valid()
      reads this
    {
      && Whitened(last)
      && (forall t <- emitted :: Whitened(t) && (t == last || Before(t, last)))
      && (forall i, j | 0 <= i < j < |emitted| :: Before(emitted[i], emitted[j]))
    }

    constructor ()
      ensures Valid() && emitted == [] && wall == None && last == seq(12, i => 0)
    {
      wall := None;
      last := seq(12, i => 0);
      emitted := [];
      new;
      ZeroIsWhitened();
    }

    /**
     May move the wall clock anywhere, backwards included. A time that fits in
     64-bit nanoseconds is what the clock then reads, advancing with local time;
     a later one reads as the last representable instant.
     */
    method SetUnixTime(unixSecs: nat, nanos: nat, now: nat)
      requires Valid()
      modifies this`wall
      ensures Valid() && wall.Some?
      ensures forall t | t >= now && Fits(unixSecs, nanos, t - now) ::
                Reading(wall.value, t) == unixSecs * NANOS + nanos + (t - now) * 1_000_000
      ensures forall t | t >= now && !Fits(unixSecs, nanos, t - now) :: Reading(wall.value, t) == U64_MAX
      ensures forall t: nat | t < now :: Reading(wall.value, t) == Reading(wall.value, now)
    {
      wall := Some(WallClock(Saturate(Saturate(unixSecs * NANOS, U64_MAX) + nanos, U64_MAX), now));
    }

    /** Strictly after everything emitted before, and the wall clock itself whenever that is enough. */
    method Timestamp(now: nat) returns (r: Result<Stamp, Error>)
      requires Valid()
      modifies this`last, this`emitted
      ensures Valid()
      ensures r.Err? ==> last == old(last) && emitted == old(emitted)
      ensures r.Ok? ==> last == r.value && emitted == old(emitted) + [r.value]
      ensures r.Ok? ==> Whitened(r.value) && forall t <- old(emitted) :: Before(t, r.value)
      ensures wall.Some? ==>
                var total := Reading(wall.value, now);
                var tai := Tai64n(total / NANOS, total % NANOS);
                && tai.Ok?
                && (Before(old(last), tai.value) ==> r == tai)
                && (!Before(old(last), tai.value) ==> r == NextWhitened(old(last)))
    {
      if wall.None? {
        return Err(NoWallClock);
      }
      var total := Reading(wall.value, now);
      var seconds, nanos := total / NANOS, total % NANOS;
      var tai := Tai64n(seconds, nanos);
      var ts := tai.value;
      Tai64nWhitened(seconds, nanos);
      NextWhitenedValue(last);
      if !Before(last, ts) {
        var next := NextWhitened(last);
        if next.Err? {
          return next;
        }
        ts := next.value;
        NextWhitenedIsSuccessor(last);
      }
      assert forall t <- emitted :: Before(t, ts) by {
        forall t <- emitted ensures Before(t, ts) {
          BeforeTransitive(t, last, ts);
        }
      }
      last := ts;
      emitted := emitted + [ts];
      return Ok(ts);
    }
  }

  /** Setting the clock and stamping at once: the set time's own label, unless something later was already emitted. */
  method StampAt(c: Clock, unixSecs: nat, nanos: nat, now: nat) returns (r: Result<Stamp, Error>)
    requires c.Valid() && nanos < NANOS && Fits(unixSecs, nanos, 0)
    modifies c
    ensures c.Valid() && Tai64n(unixSecs, nanos).Ok?
    ensures r == if Before(old(c.last), Tai64n(unixSecs, nanos).value) then Tai64n(unixSecs, nanos)
                 else NextWhitened(old(c.last))
  {
    ReadingIsStamped(unixSecs, nanos);
    c.SetUnixTime(unixSecs, nanos, now);
    assert Fits(unixSecs, nanos, now - now);
    var total := unixSecs * NANOS + nanos;
    assert total / NANOS == unixSecs && total % NANOS == nanos;
    r := c.Timestamp(now);
  }

  lemma ZeroIsWhitened()
    ensures Whitened(seq(12, i => 0))
  {
    var z: seq<Byte> := seq(12, i => 0);
    assert z[8..] == ToBytes(0, 4);
    BytesRoundTrip(0, 4);
  }

  /** One peer's authenticated-initiation gate: `accept_authenticated_initiation`. */
  class ReplayGate {
    var greatest: Stamp
    var lastAccepted: Option<nat>
    /** The accepted timestamps and the local times they were accepted at. */
    ghost var accepted: seq<(Stamp, nat)>
    ghost var clock: nat

    ghost predicate Valid()
      reads this
    {
      && (lastAccepted.None? ==> accepted == [])
      && (lastAccepted.Some? ==>
        accepted != [] && lastAccepted.value <= clock && accepted[|accepted| - 1] == (greatest, lastAccepted.value))
      && (forall i, j | 0 <= i < j < |accepted| ::
            && Before(accepted[i].0, accepted[j].0)
            && accepted[i].1 + MIN_INTERVAL < accepted[j].1)
    }

    constructor (now: nat)
      ensures Valid() && accepted == [] && clock == now && greatest == seq(12, i => 0)
    {
      greatest := seq(12, i => 0);
      lastAccepted := None;
      accepted := [];
      clock := now;
    }

    method Accept(ts: Stamp, now: nat) returns (ok: bool)
      requires Valid() && clock <= now
      modifies this
      ensures Valid() && clock == now
      ensures ok <==>
                && Before(old(greatest), ts)
                && (old(lastAccepted).Some? ==> old(lastAccepted).value + 20 < now)
      ensures accepted == if ok then old(accepted) + [(ts, now)] else old(accepted)
      ensures greatest == if ok then ts else old(greatest)
    {
      clock := now;
      if !Before(greatest, ts) {
        return false;
      }
      if lastAccepted.Some? && SaturatingSub(now, lastAccepted.value) <= MIN_INTERVAL {
        return false;
      }
      forall i | 0 <= i < |accepted|
        ensures Before(accepted[i].0, ts) && accepted[i].1 + MIN_INTERVAL < now
      {
        BeforeTransitive(accepted[i].0, greatest, ts);
      }
      greatest := ts;
      lastAccepted := Some(now);
      accepted := accepted + [(ts, now)];
      return true;
    }
  }
}

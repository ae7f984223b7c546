/**
 The `u128` bit runs of the prefix trie. A word is its 128 bits, most
 significant first, so that "MSB-aligned" is simply "at the front"; the machine
 operations are what they do to those bits.
 */
module Bits {
  import opened Common

  const WIDTH: nat := 128

  type Word = w: seq<bool> | |w| == WIDTH witness seq(WIDTH, i => false)

  function Zeros(n: nat): (z: seq<bool>)
    ensures |z| == n && forall i | 0 <= i < n :: !z[i]
  {
    seq(n, i => false)
  }

  /** The word that starts with `bits` and is zero after them. */
  function Pad(bits: seq<bool>): (w: Word)
    requires |bits| <= WIDTH
    ensures w[..|bits|] == bits
  {
    bits + Zeros(WIDTH - |bits|)
  }

  function Shl(w: Word, n: nat): Word {
    if n >= WIDTH then Zeros(WIDTH) else w[n..] + Zeros(n)
  }

  function Shr(w: Word, n: nat): Word {
    if n >= WIDTH then Zeros(WIDTH) else Zeros(n) + w[..WIDTH - n]
  }

  function Or(a: Word, b: Word): Word {
    seq(WIDTH, i requires 0 <= i < WIDTH => a[i] || b[i])
  }

  /** Zeroes every bit past the first `len`. */
  function Mask(w: Word, len: nat): Word {
    if len >= WIDTH then w else w[..len] + Zeros(WIDTH - len)
  }

  /** Length of the common prefix, capped at `max`. */
  function CommonLen(a: seq<bool>, b: seq<bool>, max: nat): (n: nat)
    requires max <= |a| && max <= |b|
    ensures n <= max && a[..n] == b[..n] && forall k | 0 <= k < n :: a[k] == b[k]
    ensures n < max ==> a[n] != b[n]
  {
    if max == 0 || a[0] != b[0] then 0
    else
      var n := 1 + CommonLen(a[1..], b[1..], max - 1);
      assert a[..n] == [a[0]] + a[1..][..n - 1] && b[..n] == [b[0]] + b[1..][..n - 1];
      n
  }

  /** A run of bits as the trie stores it: `len` significant bits, all zero after them. */
  predicate IsRun(w: Word, len: nat) {
    len <= WIDTH && forall i | len <= i < WIDTH :: !w[i]
  }

  lemma MaskIsRun(w: Word, len: nat)
    requires len <= WIDTH
    ensures IsRun(Mask(w, len), len) && Mask(w, len)[..len] == w[..len]
  {
  }

  /** Dropping `n` leading bits of a run with a shift drops them from the sequence. */
  lemma ShlDrops(w: Word, len: nat, n: nat)
    requires n <= len <= WIDTH
    ensures Shl(w, n)[..len - n] == w[n..len]
    ensures IsRun(w, len) ==> IsRun(Shl(w, n), len - n)
  {
  }

  lemma ShlTwice(w: Word, m: nat, n: nat)
    requires m + n <= WIDTH
    ensures Shl(Shl(w, m), n) == Shl(w, m + n)
  {
  }

  /** Joining two runs with a shift and an or concatenates them. */
  lemma OrJoins(a: Word, m: nat, b: Word, n: nat)
    requires IsRun(a, m) && IsRun(b, n) && m + n <= WIDTH
    ensures IsRun(Or(a, Shr(b, m)), m + n)
    ensures Or(a, Shr(b, m))[..m + n] == a[..m] + b[..n]
  {
    var w := Or(a, Shr(b, m));
    assert forall i | 0 <= i < m :: w[i] == a[i];
    assert forall i | m <= i < WIDTH :: w[i] == b[i - m];
  }
}

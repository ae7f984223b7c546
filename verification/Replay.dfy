/**
 The anti-replay window of a transport session: the RFC 6479 ring of 64-bit
 words behind `ReplayWindow::check_and_update`.

 The ring forgets: a word is recycled every `64 * N` counters. The model keeps,
 as a ghost, the set of every counter ever accepted, and shows that the ring
 decides exactly what that unbounded memory would decide inside the window.
 */
module Replay {
  import opened Common

  const WORD_BITS: nat := 64

  /** A `u64` as its bits, least significant first. */
  type Word = w: seq<bool> | |w| == WORD_BITS witness seq(WORD_BITS, i => false)

  const ZERO: Word := seq(WORD_BITS, i => false)

  /** The reference: accept a counter that is new and at most `window` behind the greatest one accepted. */
  predicate Fresh(seen: set<nat>, top: Option<nat>, window: nat, counter: nat) {
    && counter !in seen
    && (top.Some? ==> top.value <= counter + window)
  }

  /** The greatest accepted counter after accepting `counter`. */
  function Raise(top: Option<nat>, counter: nat): Option<nat> {
    if top.Some? && counter <= top.value then top else Some(counter)
  }

  /** The verdicts the reference gives for a whole run, from an arbitrary starting memory. */
  function Verdicts(seen: set<nat>, top: Option<nat>, window: nat, counters: seq<nat>): (r: seq<bool>)
    ensures |r| == |counters|
    decreases |counters|
  {
    if counters == [] then []
    else if Fresh(seen, top, window, counters[0]) then
      [true] + Verdicts(seen + {counters[0]}, Raise(top, counters[0]), window, counters[1..])
    else
      [false] + Verdicts(seen, top, window, counters[1..])
  }

  /** The ring position `i % n` of word index `i`, by repeated subtraction. */
  function Pos(i: nat, n: nat): (p: nat)
    requires n > 0
    ensures p < n
  {
    if i < n then i else Pos(i - n, n)
  }

  lemma {:induction false} PosIsRemainder(i: nat, n: nat)
    requires n > 0
    ensures Pos(i, n) == i % n
  {
    if i >= n {
      PosIsRemainder(i - n, n);
      RemainderShift(i - n, n);
    }
  }

  lemma RemainderShift(i: nat, n: nat)
    requires n > 0
    ensures (i + n) % n == i % n
  {
    var q, q' := i / n, (i + n) / n;
    var d := q' - q - 1;
    assert n * d == i % n - (i + n) % n by {
      assert n * d == n * q' - n * q - n;
    }
    NonzeroMultiple(n, d);
  }

  /** Word indices less than a full turn apart never share a ring position. */
  lemma {:induction false} DistinctPositions(lo: nat, hi: nat, n: nat)
    requires lo < hi < lo + n
    ensures Pos(lo, n) != Pos(hi, n)
  {
    if lo >= n {
      DistinctPositions(lo - n, hi - n, n);
    } else if hi >= n {
      assert Pos(hi, n) == Pos(hi - n, n) == hi - n;
    }
  }

  /** Word `i` of the ring. */
  function At(ring: seq<Word>, i: nat): Word
    requires |ring| > 0
  {
    ring[Pos(i, |ring|)]
  }

  lemma AtUpdated(ring: seq<Word>, i: nat, w: Word, j: nat)
    requires |ring| > 0
    requires i < j + |ring| && j < i + |ring|
    ensures At(ring[Pos(i, |ring|) := w], j) == if i == j then w else At(ring, j)
  {
    if i < j {
      DistinctPositions(i, j, |ring|);
    } else if j < i {
      DistinctPositions(j, i, |ring|);
    }
  }

  /** Words `last - |ring| < i <= last` of the ring hold exactly the counters in `seen`. */
  ghost predicate Holds(ring: seq<Word>, last: nat, seen: set<nat>)
    requires |ring| > 0
  {
    forall i: nat, b: nat | i <= last < i + |ring| && b < WORD_BITS ::
      At(ring, i)[b] <==> i * WORD_BITS + b in seen
  }

  /** Zeroing the next word moves the ring one word ahead. */
  lemma Advance(ring: seq<Word>, last: nat, seen: set<nat>)
    requires |ring| > 0 && Holds(ring, last, seen)
    requires forall c <- seen :: c < (last + 1) * WORD_BITS
    ensures Holds(ring[Pos(last + 1, |ring|) := ZERO], last + 1, seen)
  {
    var ring' := ring[Pos(last + 1, |ring|) := ZERO];
    forall i: nat, b: nat | i <= last + 1 < i + |ring| && b < WORD_BITS
      ensures At(ring', i)[b] <==> i * WORD_BITS + b in seen
    {
      AtUpdated(ring, last + 1, ZERO, i);
    }
  }

  /** Setting a counter's bit adds exactly that counter to what the ring holds. */
  lemma Mark(ring: seq<Word>, last: nat, seen: set<nat>, counter: nat)
    requires |ring| > 0 && Holds(ring, last, seen)
    requires counter / WORD_BITS <= last < counter / WORD_BITS + |ring|
    ensures var i := counter / WORD_BITS;
            Holds(ring[Pos(i, |ring|) := At(ring, i)[counter % WORD_BITS := true]], last, seen + {counter})
  {
    var i := counter / WORD_BITS;
    var w := At(ring, i)[counter % WORD_BITS := true];
    var ring' := ring[Pos(i, |ring|) := w];
    forall j: nat, b: nat | j <= last < j + |ring| && b < WORD_BITS
      ensures At(ring', j)[b] <==> j * WORD_BITS + b in seen + {counter}
    {
      AtUpdated(ring, i, w, j);
    }
  }

  class ReplayWindow {
    const bitmap: array<Word>
    var top: Option<nat>
    /** Every counter accepted since construction. */
    ghost var seen: set<nat>

    ghost predicate Valid()
      reads this, bitmap
    {
      && bitmap.Length > 0
      && (top.None? ==> seen == {})
      && (top.Some? ==>
            && top.value in seen
            && (forall c <- seen :: c <= top.value)
            && Holds(bitmap[..], top.value / WORD_BITS, seen))
    }

    /** The usable trailing window: one word of the ring is always being recycled. */
    function Window(): nat
      requires bitmap.Length > 0
    {
      WORD_BITS * (bitmap.Length - 1)
    }

    constructor (words: nat)
      requires words > 0
      ensures Valid() && fresh(bitmap) && bitmap.Length == words
      ensures top == None && seen == {}
    {
      bitmap := new Word[words](_ => ZERO);
      top := None;
      seen := {};
    }

    method SetBit(counter: nat)
      requires bitmap.Length > 0
      modifies bitmap
      ensures var i := counter / WORD_BITS;
              var word := old(At(bitmap[..], i))[counter % WORD_BITS := true];
              bitmap[..] == old(bitmap[..])[Pos(i, bitmap.Length) := word]
    {
      var blk := Pos(counter / WORD_BITS, bitmap.Length);
      bitmap[blk] := bitmap[blk][counter % WORD_BITS := true];
    }

    /** Accepts exactly what the unbounded memory `seen` would accept, and remembers it. */
    method CheckAndUpdate(counter: nat) returns (accepted: bool)
      requires Valid()
      modifies this, bitmap
      ensures Valid()
      ensures accepted <==> old(Fresh(seen, top, Window(), counter))
      ensures seen == if accepted then old(seen) + {counter} else old(seen)
      ensures top == if accepted then Raise(old(top), counter) else old(top)
    {
      var index := counter / WORD_BITS;
      if top.None? {
        forall i | 0 <= i < bitmap.Length {
          bitmap[i] := ZERO;
        }
        Mark(bitmap[..], index, {}, counter);
        SetBit(counter);
        top := Some(counter);
        seen := {counter};
        assert {} + {counter} == seen;
        return true;
      }
      if counter > top.value {
        ClearAhead(index);
        Mark(bitmap[..], index, seen, counter);
        SetBit(counter);
        top := Some(counter);
        seen := seen + {counter};
        return true;
      }
      if top.value - counter > Window() {
        return false;
      }
      var bit := bitmap[Pos(index, bitmap.Length)][counter % WORD_BITS];
      assert bit == At(bitmap[..], index)[counter % WORD_BITS];
      assert counter == index * WORD_BITS + counter % WORD_BITS;
      if bit {
        return false;
      }
      Mark(bitmap[..], top.value / WORD_BITS, seen, counter);
      SetBit(counter);
      seen := seen + {counter};
      return true;
    }

    /** Clears every word between the top word and word `index`, at most once around the ring. */
    method ClearAhead(index: nat)
      requires Valid() && top.Some? && top.value / WORD_BITS <= index
      modifies bitmap
      ensures Holds(bitmap[..], index, seen)
    {
      var topIndex := top.value / WORD_BITS;
      var diff := Min(index - topIndex, bitmap.Length);
      for i := 1 to diff + 1
        invariant Holds(bitmap[..], topIndex + i - 1, seen)
      {
        Advance(bitmap[..], topIndex + i - 1, seen);
        var blk := Pos(topIndex + i, bitmap.Length);
        ghost var before := bitmap[..];
        bitmap[blk] := ZERO;
        assert bitmap[..] == before[blk := ZERO];
      }
      if diff < index - topIndex {
        JumpAhead(bitmap[..], topIndex, index, seen);
      }
    }
  }

  /** A ring a full turn ahead of every accepted counter is all zero, so it stands right anywhere further on. */
  lemma JumpAhead(ring: seq<Word>, topIndex: nat, index: nat, seen: set<nat>)
    requires |ring| > 0 && Holds(ring, topIndex + |ring|, seen)
    requires forall c <- seen :: c < (topIndex + 1) * WORD_BITS
    requires topIndex + |ring| <= index
    ensures Holds(ring, index, seen)
  {
    forall i: nat, b: nat | i <= index < i + |ring| && b < WORD_BITS
      ensures At(ring, i)[b] <==> i * WORD_BITS + b in seen
    {
      var j := SameTurn(i, topIndex + 1, |ring|);
      assert At(ring, j)[b] <==> j * WORD_BITS + b in seen;
    }
  }

  /** Every ring position occurs in any full turn. */
  lemma {:induction false} SameTurn(i: nat, first: nat, n: nat) returns (j: nat)
    requires n > 0 && first <= i
    ensures first <= j < first + n && Pos(j, n) == Pos(i, n)
    decreases i
  {
    if i < first + n {
      j := i;
    } else {
      j := SameTurn(i - n, first, n);
    }
  }

  /**
   A whole run through one window gives the reference's verdicts; in particular
   no counter is ever accepted twice.
   */
  method Run(words: nat, counters: seq<nat>) returns (verdicts: seq<bool>)
    requires words > 0
    ensures verdicts == Verdicts({}, None, 64 * (words - 1), counters)
  {
    var w := new ReplayWindow(words);
    verdicts := [];
    for i := 0 to |counters|
      invariant w.Valid() && w.bitmap.Length == words && fresh(w) && fresh(w.bitmap)
      invariant verdicts + Verdicts(w.seen, w.top, w.Window(), counters[i..])
             == Verdicts({}, None, w.Window(), counters)
    {
      var ok := w.CheckAndUpdate(counters[i]);
      assert counters[i..][0] == counters[i] && counters[i..][1..] == counters[i + 1..];
      verdicts := verdicts + [ok];
    }
  }

  /** The reference never accepts a counter it has already seen, so no run accepts one twice. */
  lemma {:induction false} AcceptedOnce(seen: set<nat>, top: Option<nat>, window: nat, counters: seq<nat>, j: nat)
    requires j < |counters| && Verdicts(seen, top, window, counters)[j]
    ensures counters[j] !in seen
    ensures forall i | 0 <= i < j && Verdicts(seen, top, window, counters)[i] :: counters[i] != counters[j]
    decreases |counters|
  {
    var ok := Fresh(seen, top, window, counters[0]);
    var seen' := if ok then seen + {counters[0]} else seen;
    var top' := if ok then Raise(top, counters[0]) else top;
    var rest := Verdicts(seen', top', window, counters[1..]);
    assert Verdicts(seen, top, window, counters) == [ok] + rest;
    if j > 0 {
      AcceptedOnce(seen', top', window, counters[1..], j - 1);
      forall i | 0 <= i < j && Verdicts(seen, top, window, counters)[i]
        ensures counters[i] != counters[j]
      {
        if i > 0 {
          assert rest[i - 1] && counters[1..][i - 1] == counters[i];
        }
      }
    }
  }

  /**
   What a verdict means, without the reference's memory: a counter is accepted exactly when every
   counter accepted before it was a different one and at most `window` greater.
   */
  lemma {:induction false} VerdictMeaning(seen: set<nat>, top: Option<nat>, window: nat, counters: seq<nat>, j: nat)
    requires j < |counters|
    ensures Verdicts(seen, top, window, counters)[j] <==>
            && counters[j] !in seen && (top.Some? ==> top.value <= counters[j] + window)
            && forall i | 0 <= i < j && Verdicts(seen, top, window, counters)[i] ::
                 counters[i] != counters[j] && counters[i] <= counters[j] + window
    decreases |counters|
  {
    var ok := Fresh(seen, top, window, counters[0]);
    var seen' := if ok then seen + {counters[0]} else seen;
    var top' := if ok then Raise(top, counters[0]) else top;
    var verdicts := Verdicts(seen, top, window, counters);
    var rest := Verdicts(seen', top', window, counters[1..]);
    assert verdicts == [ok] + rest;
    if j > 0 {
      VerdictMeaning(seen', top', window, counters[1..], j - 1);
      assert forall i | 0 <= i < j - 1 :: rest[i] == verdicts[i + 1] && counters[1..][i] == counters[i + 1];
      assert forall i | 0 < i < j :: verdicts[i] == rest[i - 1] && counters[i] == counters[1..][i - 1];
    }
  }
}

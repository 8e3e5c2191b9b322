/** The replay window of RFC 6479, section 2: a ring of bit blocks that stands for the set of accepted counters. */
module Replay {
  import opened Bytes

  const BLOCK_BITS := 64
  const RING_BLOCKS := 128
  const WINDOW_SIZE := (RING_BLOCKS - 1) * BLOCK_BITS

  /** One block of the ring, bit by bit. */
  type Block = b: seq<bool> | |b| == BLOCK_BITS witness seq(BLOCK_BITS, _ => false)

  const CLEAR: Block := seq(BLOCK_BITS, _ => false)

  /** A counter is fresh if it is below the limit, new, and not too far behind any accepted one. */
  ghost predicate Fresh(accepted: set<nat>, counter: nat, limit: nat) {
    && counter < limit
    && counter !in accepted
    && forall a :: a in accepted ==> a - counter <= WINDOW_SIZE
  }

  /** The block's bits are the accepted counters of block number b. */
  ghost predicate BlockExact(b: nat, block: Block, accepted: set<nat>) {
    forall j {:trigger block[j]} :: 0 <= j < BLOCK_BITS ==> (block[j] <==> BLOCK_BITS * b + j in accepted)
  }

  function Slot(b: nat): (r: nat)
    ensures r < RING_BLOCKS
  {
    b % RING_BLOCKS
  }

  /** The last 128 blocks up to `top` are exact. */
  ghost predicate WindowExact(ring: seq<Block>, top: nat, accepted: set<nat>)
    requires |ring| == RING_BLOCKS
  {
    forall b: nat {:trigger Slot(b)} :: b <= top < b + RING_BLOCKS ==> BlockExact(b, ring[Slot(b)], accepted)
  }

  lemma SlotsDiffer(b: nat, i: nat)
    requires b < i < b + RING_BLOCKS
    ensures Slot(b) != Slot(i)
  {}

  /** Every slot is the slot of one of any 128 consecutive blocks. */
  lemma SlotCovered(from: nat, b: nat) returns (c: nat)
    requires from <= b
    ensures from <= c < from + RING_BLOCKS && Slot(c) == Slot(b)
  {
    c := from + (b - from) % RING_BLOCKS;
    var q := (b - from) / RING_BLOCKS;
    assert b == c + RING_BLOCKS * q;
  }

  /** Clearing the next block lets the window move up by one. */
  lemma WindowMoved(ring: seq<Block>, top: nat, accepted: set<nat>)
    requires |ring| == RING_BLOCKS && WindowExact(ring, top, accepted)
    requires forall a :: a in accepted ==> a < BLOCK_BITS * (top + 1)
    ensures WindowExact(ring[Slot(top + 1) := CLEAR], top + 1, accepted)
  {
    var ring' := ring[Slot(top + 1) := CLEAR];
    forall b: nat | b <= top + 1 < b + RING_BLOCKS ensures BlockExact(b, ring'[Slot(b)], accepted) {
      if b <= top {
        SlotsDiffer(b, top + 1);
        assert BlockExact(b, ring[Slot(b)], accepted);
      }
    }
  }

  /** When 128 blocks have been cleared, the window may be anywhere above. */
  lemma WindowCleared(ring: seq<Block>, from: nat, top: nat, accepted: set<nat>)
    requires |ring| == RING_BLOCKS && from + RING_BLOCKS <= top + 1
    requires forall b: nat {:trigger Slot(b)} :: from <= b < from + RING_BLOCKS ==> ring[Slot(b)] == CLEAR
    requires forall a :: a in accepted ==> a < BLOCK_BITS * from
    ensures WindowExact(ring, top, accepted)
  {
    forall b: nat | b <= top < b + RING_BLOCKS ensures BlockExact(b, ring[Slot(b)], accepted) {
      var c := SlotCovered(from, b);
    }
  }

  lemma InWindow(last: nat, counter: nat)
    requires counter <= last <= counter + WINDOW_SIZE
    ensures var b := counter / BLOCK_BITS; b <= last / BLOCK_BITS < b + RING_BLOCKS
  {}

  /** Setting the counter's bit accounts for the counter. */
  lemma BitSet(ring: seq<Block>, top: nat, accepted: set<nat>, counter: nat)
    requires |ring| == RING_BLOCKS && WindowExact(ring, top, accepted)
    requires var b := counter / BLOCK_BITS; b <= top < b + RING_BLOCKS
    ensures var s, j := Slot(counter / BLOCK_BITS), counter % BLOCK_BITS;
            && (ring[s][j] <==> counter in accepted)
            && WindowExact(ring[s := ring[s][j := true]], top, accepted + {counter})
  {
    var n, j := counter / BLOCK_BITS, counter % BLOCK_BITS;
    assert BLOCK_BITS * n + j == counter;
    assert BlockExact(n, ring[Slot(n)], accepted);
    var ring' := ring[Slot(n) := ring[Slot(n)][j := true]];
    forall b: nat | b <= top < b + RING_BLOCKS ensures BlockExact(b, ring'[Slot(b)], accepted + {counter}) {
      assert BlockExact(b, ring[Slot(b)], accepted);
      if b < n { SlotsDiffer(b, n); } else if b > n { SlotsDiffer(n, b); }
    }
  }

  class Filter {
    var last: nat
    const ring: array<Block>
    /** The counters accepted since the last Reset. */
    ghost var accepted: set<nat>

    ghost predicate Valid()
      reads this, ring
    {
      && ring.Length == RING_BLOCKS
      && WindowExact(ring[..], last / BLOCK_BITS, accepted)
      && (forall a :: a in accepted ==> a <= last)
      && (if accepted == {} then last == 0 else last in accepted)
    }

    constructor ()
      ensures Valid() && accepted == {} && fresh(ring)
    {
      last, accepted := 0, {};
      ring := new Block[RING_BLOCKS](_ => CLEAR);
    }

    /** Reset clears the first block only; whatever else is in the ring stays. */
    method Reset()
      requires ring.Length == RING_BLOCKS
      modifies this, ring
      ensures Valid() && accepted == {}
      ensures forall i :: 0 < i < RING_BLOCKS ==> ring[i] == old(ring[i])
    {
      last := 0;
      ring[0] := CLEAR;
      accepted := {};
    }

    method ValidateCounter(counter: Uint64, limit: Uint64) returns (ok: bool)
      requires Valid()
      modifies this, ring
      ensures Valid()
      ensures ok == Fresh(old(accepted), counter, limit)
      ensures accepted == if ok then old(accepted) + {counter} else old(accepted)
    {
      if counter >= limit { return false; }
      var indexBlock := counter / BLOCK_BITS;
      if counter > last {
        MoveForward(counter, indexBlock);
      } else if last - counter > WINDOW_SIZE {
        return false;
      }
      InWindow(last, counter);
      BitSet(ring[..], last / BLOCK_BITS, accepted, counter);
      var s, j := indexBlock % RING_BLOCKS, counter % BLOCK_BITS;
      assert s == Slot(indexBlock);
      ghost var before := ring[..];
      ok := !ring[s][j];
      ring[s] := ring[s][j := true];
      assert ring[..] == before[s := before[s][j := true]];
      if ok { accepted := accepted + {counter}; }
      assert accepted == old(accepted) + {counter};
    }

    /** The window moves up to the counter's block, clearing the blocks in between. */
    method MoveForward(counter: Uint64, indexBlock: nat)
      requires Valid() && counter > last && indexBlock == counter / BLOCK_BITS
      modifies this`last, ring
      ensures last == counter && ring.Length == RING_BLOCKS
      ensures WindowExact(ring[..], last / BLOCK_BITS, accepted)
    {
      hide WindowExact;
      var current := last / BLOCK_BITS;
      var diff := indexBlock - current;
      if diff > RING_BLOCKS { diff := RING_BLOCKS; }
      for i := current + 1 to current + diff + 1
        invariant WindowExact(ring[..], i - 1, accepted)
        invariant forall b: nat {:trigger Slot(b)} :: current < b < i ==> ring[Slot(b)] == CLEAR
        invariant last == old(last)
      {
        ghost var before := ring[..];
        WindowMoved(before, i - 1, accepted);
        forall b: nat | current < b < i ensures Slot(b) != Slot(i) { SlotsDiffer(b, i); }
        ring[i % RING_BLOCKS] := CLEAR;
        assert ring[..] == before[Slot(i) := CLEAR];
      }
      if diff == RING_BLOCKS { WindowCleared(ring[..], current + 1, indexBlock, accepted); }
      last := counter;
    }
  }

  // ----- whole runs

  datatype Event = Reset | Validate(counter: Uint64, limit: Uint64)

  /** The counters accepted since the last reset of a history. */
  ghost function Accepted(h: seq<Event>): set<nat> {
    if h == [] then {}
    else
      var before := Accepted(h[..|h| - 1]);
      match h[|h| - 1]
      case Reset => {}
      case Validate(c, l) => if Fresh(before, c, l) then before + {c} else before
  }

  /** Whether event i of a history lets its counter pass. */
  ghost predicate Passes(h: seq<Event>, i: nat)
    requires i < |h|
  {
    h[i].Validate? && Fresh(Accepted(h[..i]), h[i].counter, h[i].limit)
  }

  /** What has passed since the last reset is remembered. */
  lemma {:induction false} PassedIsAccepted(h: seq<Event>, i: nat)
    requires i < |h| && Passes(h, i) && forall k :: i < k < |h| ==> h[k].Validate?
    ensures h[i].counter in Accepted(h)
  {
    var n := |h| - 1;
    if i == n {
      assert h[..i] == h[..n];
    } else {
      assert h[..n][..i] == h[..i] && h[..n][i] == h[i];
      PassedIsAccepted(h[..n], i);
    }
  }

  /** Between two resets no counter passes twice. */
  lemma NeverTwice(h: seq<Event>, i: nat, j: nat)
    requires i < j < |h| && Passes(h, i) && Passes(h, j) && forall k :: i < k < j ==> h[k].Validate?
    ensures h[i].counter != h[j].counter
  {
    assert h[..j][..i] == h[..i] && h[..j][i] == h[i];
    PassedIsAccepted(h[..j], i);
  }

  /** Event k checks a counter below its limit, and nothing is reset between it and the end of the history. */
  ghost predicate Offered(h: seq<Event>, k: nat) {
    && k < |h| && h[k].Validate? && h[k].counter < h[k].limit
    && forall j {:trigger h[j]} :: k < j < |h| ==> h[j].Validate?
  }

  /** What has been accepted was offered. */
  lemma {:induction false} AcceptedWasOffered(h: seq<Event>, a: nat) returns (k: nat)
    requires a in Accepted(h)
    ensures Offered(h, k) && h[k].counter == a
  {
    var n := |h| - 1;
    if a in Accepted(h[..n]) {
      k := AcceptedWasOffered(h[..n], a);
      forall j | k < j < |h| ensures h[j].Validate? { assert j < n ==> h[j] == h[..n][j]; }
    } else {
      k := n;
    }
  }

  /** What was offered has been accepted, or something far above it has. */
  lemma {:induction false} OfferedIsCovered(h: seq<Event>, k: nat) returns (a: nat)
    requires Offered(h, k)
    ensures a in Accepted(h) && (a == h[k].counter || a - h[k].counter > WINDOW_SIZE)
  {
    var n := |h| - 1;
    if k < n {
      assert h[..n][k] == h[k];
      forall j | k < j < n ensures h[..n][j].Validate? { assert h[j].Validate?; }
      a := OfferedIsCovered(h[..n], k);
    } else {
      var before := Accepted(h[..n]);
      if Fresh(before, h[n].counter, h[n].limit) || h[n].counter in before {
        a := h[n].counter;
      } else {
        a :| a in before && a - h[n].counter > WINDOW_SIZE;
      }
    }
  }

  /**
    In terms of the calls alone: a counter passes if and only if it is below its limit and, among the counters that were
    checked below theirs since the last reset, it is not and none is further ahead of it than the window.
   */
  lemma PassesIff(h: seq<Event>, i: nat)
    requires i < |h| && h[i].Validate?
    ensures Passes(h, i) <==>
      && h[i].counter < h[i].limit
      && forall k: nat :: Offered(h[..i], k) ==> h[k].counter != h[i].counter && h[k].counter - h[i].counter <= 8128
  {
    hide Accepted;
    var c, before := h[i].counter, h[..i];
    if Passes(h, i) {
      forall k: nat | Offered(before, k) ensures h[k].counter != c && h[k].counter - c <= 8128 {
        var a := OfferedIsCovered(before, k);
      }
    } else if c < h[i].limit {
      var a :| a in Accepted(before) && (a == c || a - c > WINDOW_SIZE);
      var k := AcceptedWasOffered(before, a);
    }
  }

  /** Any run of the filter answers as the history demands. */
  method Run(f: Filter, h: seq<Event>) returns (answers: seq<bool>)
    requires f.Valid() && f.accepted == {}
    modifies f, f.ring
    ensures f.Valid() && |answers| == |h|
    ensures forall i :: 0 <= i < |h| ==> answers[i] == Passes(h, i)
  {
    answers := [];
    for i := 0 to |h|
      invariant f.Valid() && f.accepted == Accepted(h[..i])
      invariant |answers| == i && forall k :: 0 <= k < i ==> answers[k] == Passes(h, k)
    {
      assert h[..i + 1][..i] == h[..i];
      match h[i] {
        case Reset =>
          f.Reset();
          answers := answers + [false];
        case Validate(c, l) =>
          var ok := f.ValidateCounter(c, l);
          answers := answers + [ok];
      }
    }
  }
}

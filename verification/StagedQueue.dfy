/** One sender at work on a peer's staged packets: SendStagedPackets, StagePackets and FlushStagedPackets. */
module StagedQueue {
  import opened Nonce

  const QUEUE_STAGED_SIZE := 128

  type Packet = nat

  /** A packet on its way to encryption. */
  datatype Sealed = Sealed(packet: Packet, nonce: nat)

  function Concat(q: seq<seq<Packet>>): seq<Packet> {
    if q == [] then [] else q[0] + Concat(q[1..])
  }

  /** The packets with consecutive nonces from `first` on. */
  function Numbered(ps: seq<Packet>, first: nat): (r: seq<Sealed>)
    ensures |r| == |ps|
    ensures forall i :: 0 <= i < |ps| ==> r[i] == Sealed(ps[i], first + i)
  {
    seq(|ps|, i requires 0 <= i < |ps| => Sealed(ps[i], first + i))
  }

  lemma {:induction false} ConcatAppend(q: seq<seq<Packet>>, c: seq<Packet>)
    ensures Concat(q + [c]) == Concat(q) + c
  {
    if q == [] {
      assert [c][1..] == [];
    } else {
      assert (q + [c])[1..] == q[1..] + [c];
      ConcatAppend(q[1..], c);
    }
  }

  lemma NumberedConcat(a: seq<Packet>, b: seq<Packet>, first: nat)
    ensures Numbered(a + b, first) == Numbered(a, first) + Numbered(b, first + |a|)
  {}

  class Sender {
    var staged: seq<seq<Packet>>
    var sendNonce: nat
    /** What has been handed to encryption, and what has been given back unused. */
    var sent: seq<Sealed>
    var released: seq<Packet>
    var handshakeWanted: bool

    predicate Valid()
      reads this
    {
      |staged| <= QUEUE_STAGED_SIZE && sendNonce <= REJECT_AFTER_MESSAGES
    }

    constructor ()
      ensures Valid() && staged == [] && sendNonce == 0 && sent == [] && released == [] && !handshakeWanted
    {
      staged, sendNonce, sent, released, handshakeWanted := [], 0, [], [], false;
    }

    /** StagePackets: when the queue is full, the oldest container goes. */
    method StagePackets(c: seq<Packet>)
      requires Valid()
      modifies this`staged, this`released
      ensures Valid()
      ensures if |old(staged)| < QUEUE_STAGED_SIZE then staged == old(staged) + [c] && released == old(released)
              else staged == old(staged)[1..] + [c] && released == old(released) + old(staged)[0]
    {
      while true
        invariant |staged| <= QUEUE_STAGED_SIZE
        invariant if |staged| < QUEUE_STAGED_SIZE && |old(staged)| == QUEUE_STAGED_SIZE
                  then staged == old(staged)[1..] && released == old(released) + old(staged)[0]
                  else staged == old(staged) && released == old(released)
        decreases |staged|
      {
        if |staged| < QUEUE_STAGED_SIZE {
          staged := staged + [c];
          return;
        }
        var tooOld := staged[0];
        staged := staged[1..];
        released := released + tooOld;
      }
    }

    /** FlushStagedPackets */
    method FlushStagedPackets()
      requires Valid()
      modifies this`staged, this`released
      ensures Valid() && staged == [] && released == old(released) + Concat(old(staged))
    {
      while staged != []
        invariant |staged| <= |old(staged)|
        invariant released + Concat(staged) == old(released) + Concat(old(staged))
        decreases |staged|
      {
        var c := staged[0];
        staged := staged[1..];
        released := released + c;
      }
    }

    /** Gives nonces to the packets of one container; those drawn too high are set aside. */
    method Number(c: seq<Packet>) returns (kept: seq<Sealed>, outOfOrder: seq<Packet>)
      requires Valid()
      modifies this`sendNonce
      ensures Valid()
      ensures var m := Fitting(|c|, old(sendNonce));
              kept == Numbered(c[..m], old(sendNonce)) && outOfOrder == c[m..] && sendNonce == old(sendNonce) + m
    {
      kept, outOfOrder := [], [];
      ghost var room := REJECT_AFTER_MESSAGES - sendNonce;
      for j := 0 to |c|
        invariant var m := if j <= room then j else room;
                  kept == Numbered(c[..m], old(sendNonce)) && outOfOrder == c[m..j] && sendNonce == old(sendNonce) + m
      {
        sendNonce := sendNonce + 1;
        var nonce := sendNonce - 1;
        if nonce >= REJECT_AFTER_MESSAGES {
          sendNonce := REJECT_AFTER_MESSAGES;
          outOfOrder := outOfOrder + [c[j]];
        } else {
          kept := kept + [Sealed(c[j], nonce)];
        }
      }
      assert c[..|c|] == c;
    }

    /** What becomes of packets that have their nonces: a peer that has stopped only gives them back. */
    method Queue(kept: seq<Sealed>, running: bool)
      modifies this`sent, this`released
      ensures sent == old(sent) + (if running then kept else [])
      ensures released == old(released) + (if running then [] else PacketsOf(kept))
    {
      if running {
        sent := sent + kept;
        return;
      }
      for i := 0 to |kept|
        invariant sent == old(sent) && released == old(released) + PacketsOf(kept[..i])
      {
        released := released + [kept[i].packet];
        assert kept[..i + 1] == kept[..i] + [kept[i]];
      }
      assert kept[..|kept|] == kept;
    }

    /** One turn of the inner loop; the answer is whether it goes back to the top. */
    method SendContainer(running: bool) returns (top: bool)
      requires Valid() && staged != []
      modifies this`staged, this`sendNonce, this`sent, this`released
      ensures Valid() && Taken(old(staged), old(sendNonce), staged, sendNonce, top)
      ensures Handed(running, old(staged)[0][..Fitting(|old(staged)[0]|, old(sendNonce))], old(sendNonce),
                     old(sent), sent, old(released), released)
    {
      var c := staged[0];
      staged := staged[1..];
      var kept, outOfOrder := Number(c);
      ghost var m := |kept|;
      PacketsOfNumbered(c[..m], old(sendNonce));
      if outOfOrder != [] {
        StagePackets(outOfOrder);
      }
      if kept == [] { return true; }
      Queue(kept, running);
      top := outOfOrder != [];
    }

    /**
      The loops of SendStagedPackets once device and keypair have been found fit, which does not change within a call;
      what a jump back to the top tests anew is the queue and the counter.
     */
    method SendAll(running: bool)
      requires Valid()
      modifies this
      ensures Valid()
      ensures var all, m := Concat(old(staged)), Fitting(|Concat(old(staged))|, old(sendNonce));
              && Handed(running, all[..m], old(sendNonce), old(sent), sent, old(released), released)
              && sendNonce == old(sendNonce) + m && multiset(Concat(staged)) == multiset(all[m..])
      ensures staged != [] ==> sendNonce == REJECT_AFTER_MESSAGES
      ensures handshakeWanted == (old(handshakeWanted) || staged != [])
    {
      hide Concat, Numbered, InProgress, Handed, Taken, Fitting;
      ghost var all, first := Concat(staged), sendNonce;
      NothingHanded(running, first, sent, released);
      ghost var done: seq<Packet>, rest := [], all;
      var top := true;
      Begin(staged, sendNonce);
      while true
        invariant Valid() && handshakeWanted == old(handshakeWanted)
        invariant Handed(running, done, first, old(sent), sent, old(released), released)
        invariant InProgress(all, done, rest, staged, first, sendNonce, top && sendNonce == REJECT_AFTER_MESSAGES)
        decreases if sendNonce < REJECT_AFTER_MESSAGES then 2 else if top then 0 else 1, |staged|
      {
        if top {
          if staged == [] { break; }
          if sendNonce >= REJECT_AFTER_MESSAGES {
            handshakeWanted := true;
            break;
          }
          top := false;
        }
        if staged == [] { break; }
        ghost var queue, nonce, done0, sent1, released1 := staged, sendNonce, done, sent, released;
        top := SendContainer(running);
        done, rest := Progress(all, done, rest, queue, staged, first, nonce, sendNonce, top);
        HandedMore(running, done0, queue[0][..Fitting(|queue[0]|, nonce)], first, old(sent), sent1, sent,
                   old(released), released1, released);
      }
      Finished(all, done, rest, staged, first, sendNonce, top && sendNonce == REJECT_AFTER_MESSAGES);
    }

    /**
      SendStagedPackets: packets get consecutive nonces below the limit, in the order in which they were staged, and go
      to a running peer; what is left when the numbers run out stays staged. Without a usable keypair a handshake is
      asked for instead, and a device that is down does nothing.
     */
    method SendStagedPackets(up: bool, hasKeypair: bool, expired: bool, running: bool)
      requires Valid()
      modifies this
      ensures Valid()
      ensures var all := Concat(old(staged));
              var m := if up && hasKeypair && !expired then Fitting(|all|, old(sendNonce)) else 0;
              && sent == old(sent) + (if running then Numbered(all[..m], old(sendNonce)) else [])
              && released == old(released) + (if running then [] else all[..m])
              && sendNonce == old(sendNonce) + m && multiset(Concat(staged)) == multiset(all[m..])
      ensures !up || !hasKeypair || expired ==> staged == old(staged)
      ensures up && hasKeypair && !expired && staged != [] ==> sendNonce == REJECT_AFTER_MESSAGES
      ensures handshakeWanted == (old(handshakeWanted) || (up && staged != []))
    {
      hide Concat, Numbered;
      assert Numbered([], sendNonce) == [];
      assert Concat(staged)[..0] == [] && Concat(staged)[0..] == Concat(staged);
      if staged == [] || !up { EmptyQueue(); return; }
      if !hasKeypair || sendNonce >= REJECT_AFTER_MESSAGES || expired {
        handshakeWanted := true;
        return;
      }
      SendAll(running);
    }
  }

  /** How many of n packets still get a nonce. */
  function Fitting(n: nat, nonce: nat): (m: nat)
    requires nonce <= REJECT_AFTER_MESSAGES
    ensures m <= n && nonce + m <= REJECT_AFTER_MESSAGES
    ensures m < n ==> nonce + m == REJECT_AFTER_MESSAGES
  {
    if n <= REJECT_AFTER_MESSAGES - nonce then n else REJECT_AFTER_MESSAGES - nonce
  }

  /** These packets have got consecutive nonces from `first` on, and have gone to encryption or, unused, back. */
  ghost predicate Handed(running: bool, ps: seq<Packet>, first: nat, sent: seq<Sealed>, sent': seq<Sealed>,
                         released: seq<Packet>, released': seq<Packet>) {
    && sent' == sent + (if running then Numbered(ps, first) else [])
    && released' == released + (if running then [] else ps)
  }

  lemma NothingHanded(running: bool, first: nat, sent: seq<Sealed>, released: seq<Packet>)
    ensures Handed(running, [], first, sent, sent, released, released)
  {}

  lemma HandedMore(running: bool, a: seq<Packet>, b: seq<Packet>, first: nat, sent0: seq<Sealed>, sent: seq<Sealed>,
                   sent': seq<Sealed>, released0: seq<Packet>, released: seq<Packet>, released': seq<Packet>)
    requires Handed(running, a, first, sent0, sent, released0, released)
    requires Handed(running, b, first + |a|, sent, sent', released, released')
    ensures Handed(running, a + b, first, sent0, sent', released0, released')
  {
    NumberedConcat(a, b, first);
  }

  /** The first container has been taken from the queue; what did not get a nonce is behind all others now. */
  ghost predicate Taken(queue: seq<seq<Packet>>, nonce: nat, staged: seq<seq<Packet>>, nonce': nat, top: bool) {
    && queue != [] && nonce <= REJECT_AFTER_MESSAGES
    && var c, m := queue[0], Fitting(|queue[0]|, nonce);
    && nonce' == nonce + m && staged == queue[1..] + (if m < |c| then [c[m..]] else [])
    && top == (m < |c| || m == 0)
  }

  lemma EmptyQueue()
    ensures Concat([]) == []
  {}

  function PacketsOf(s: seq<Sealed>): (r: seq<Packet>)
    ensures |r| == |s|
    ensures forall i :: 0 <= i < |s| ==> r[i] == s[i].packet
  {
    seq(|s|, i requires 0 <= i < |s| => s[i].packet)
  }

  lemma PacketsOfNumbered(ps: seq<Packet>, first: nat)
    ensures PacketsOf(Numbered(ps, first)) == ps
  {}

  /**
    `done` has got consecutive nonces from `first` on, and `rest` is still staged; once the numbers
    have run out in the middle of a container, not in order any more.
   */
  ghost predicate InProgress(all: seq<Packet>, done: seq<Packet>, rest: seq<Packet>, staged: seq<seq<Packet>>,
                             first: nat, nonce: nat, shuffled: bool) {
    && all == done + rest && nonce == first + |done|
    && if shuffled then multiset(Concat(staged)) == multiset(rest) else Concat(staged) == rest
  }

  lemma Begin(staged: seq<seq<Packet>>, nonce: nat)
    ensures InProgress(Concat(staged), [], Concat(staged), staged, nonce, nonce, false)
    ensures InProgress(Concat(staged), [], Concat(staged), staged, nonce, nonce, true)
  {}

  /** What a turn of the loop means for the packets as a whole. */
  lemma Progress(all: seq<Packet>, done: seq<Packet>, rest: seq<Packet>, queue: seq<seq<Packet>>,
                 staged: seq<seq<Packet>>,
                 first: nat, nonce: nat, nonce': nat, top: bool)
    returns (done': seq<Packet>, rest': seq<Packet>)
    requires InProgress(all, done, rest, queue, first, nonce, false) && Taken(queue, nonce, staged, nonce', top)
    ensures nonce == first + |done| && done' == done + queue[0][..Fitting(|queue[0]|, nonce)]
    ensures InProgress(all, done', rest', staged, first, nonce', top && nonce' == REJECT_AFTER_MESSAGES)
    ensures nonce' < REJECT_AFTER_MESSAGES ==> |staged| < |queue|
    ensures nonce' == REJECT_AFTER_MESSAGES || !top || |staged| < |queue|
  {
    var c, m := queue[0], Fitting(|queue[0]|, nonce);
    done', rest' := done + c[..m], c[m..] + Concat(queue[1..]);
    assert c == c[..m] + c[m..];
    if m < |c| {
      ConcatAppend(queue[1..], c[m..]);
    } else {
      assert queue[1..] + [] == queue[1..];
    }
  }

  lemma Finished(all: seq<Packet>, done: seq<Packet>, rest: seq<Packet>, staged: seq<seq<Packet>>,
                 first: nat, nonce: nat, shuffled: bool)
    requires InProgress(all, done, rest, staged, first, nonce, shuffled)
    requires nonce <= REJECT_AFTER_MESSAGES && (staged == [] || nonce == REJECT_AFTER_MESSAGES)
    ensures first <= REJECT_AFTER_MESSAGES
    ensures var m := Fitting(|all|, first);
            && done == all[..m] && nonce == first + m
            && multiset(Concat(staged)) == multiset(all[m..])
  {
    if staged == [] { assert |multiset(rest)| == 0; }
    assert all[..|done|] == done && all[|done|..] == rest;
  }
}

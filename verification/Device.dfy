/** A device and its peers: the handshake steps and keypair rotations as they happen, one at a time. */
module DeviceSessions {
  import opened Wrappers
  import opened Bytes
  import opened NoiseTerms
  import opened Noise
  import opened IndexTable
  import opened SessionSteps

  class Device {
    const identity: nat
    const byKey: map<Term, nat>
    var table: Table
    var peers: Peers
    var made: nat

    ghost predicate Valid()
      reads this
    {
      && TableExact(table, peers)
      && (forall pk :: pk in byKey ==> byKey[pk] in peers)
    }

    constructor (identity: nat, byKey: map<Term, nat>, peers: Peers)
      requires forall q :: q in peers ==>
        && peers[q].handshake.localIndex == 0 && peers[q].handshake.state == Zeroed
        && peers[q].keypairs == Keypairs(None, None, None)
      requires forall pk :: pk in byKey ==> byKey[pk] in peers
      ensures Valid() && this.identity == identity && this.byKey == byKey && this.peers == peers && table == map[]
    {
      this.identity, this.byKey, this.peers := identity, byKey, peers;
      table, made := map[], 0;
    }

    /** IndexTable.Delete */
    method Delete(index: Uint32)
      modifies this`table
      ensures table == old(table) - {index}
    {
      table := table - {index};
    }

    /** DeleteKeypair */
    method DeleteKeypair(slot: Option<Keypair>)
      modifies this`table
      ensures table == Freed(old(table), slot)
    {
      match slot {
        case Some(k) => Delete(k.localIndex);
        case None =>
      }
    }

    /** NewIndexForHandshake: draws until an unused index comes up, or the random source fails. */
    method NewIndexForHandshake(q: nat, draws: seq<Uint32>) returns (index: Option<Uint32>)
      modifies this`table
      ensures index == FirstUnused(draws, old(table))
      ensures table == if index == None then old(table) else old(table)[index.value := HandshakeEntry(q)]
    {
      for j := 0 to |draws|
        invariant FirstUnused(draws, table) == FirstUnused(draws[j..], table)
        invariant table == old(table)
      {
        if draws[j] !in table {
          table := table[draws[j] := HandshakeEntry(q)];
          return Some(draws[j]);
        }
      }
      return None;
    }

    /** SwapIndexForKeypair */
    method SwapIndexForKeypair(index: Uint32, k: Keypair)
      modifies this`table
      ensures table ==
        if index in old(table) then old(table)[index := KeypairEntry(old(table)[index].peer, k)] else old(table)
    {
      if index !in table { return; }
      table := table[index := KeypairEntry(table[index].peer, k)];
    }

    /** The index that is drawn for a handshake once its own index is free. */
    function Drawn(q: nat, draws: seq<Uint32>): Option<Uint32>
      requires q in peers
      reads this
    {
      FirstUnused(draws, table - {peers[q].handshake.localIndex})
    }

    /**
      `ephemeral` is the drawn key, and `draws` the drawn indices;
      the random source may fail at the key and after the draws.
     */
    method CreateMessageInitiation(q: nat, ephemeral: Option<nat>, now: nat, kind: Uint32, draws: seq<Uint32>)
      returns (r: Option<MessageInitiation>)
      requires Valid() && q in peers
      modifies this`table, this`peers
      ensures r.Some? <==>
        && ephemeral.Some? && CanInitiate(old(peers)[q].handshake, ephemeral.value) && old(Drawn(q, draws)).Some?
      ensures r.Some? ==>
        var hs, index := old(peers)[q].handshake, r.value.sender;
        && (Valid() <==> index != 0) && old(Drawn(q, draws)) == Some(index)
        && table == Assigned(old(table), hs.localIndex, q, index)
        && r.value == InitiationOf(hs, identity, ephemeral.value, now, index, kind)
        && peers == old(peers)[q := old(peers)[q].(handshake := Initiated(hs, identity, ephemeral.value, now, index))]
      ensures r == None ==> OnlyKeysChanged(old(peers), peers, q)
      ensures r == None && !(ephemeral.Some? && CanInitiate(old(peers)[q].handshake, ephemeral.value)) ==>
        Valid() && table == old(table)
      ensures r == None && ephemeral.Some? && CanInitiate(old(peers)[q].handshake, ephemeral.value) ==>
        && table == old(table) - {old(peers)[q].handshake.localIndex}
        && (Valid() <==> old(peers)[q].handshake.localIndex == 0)
    {
      var p := peers[q];
      ghost var table0, peers0 := table, peers;
      if ephemeral == None {
        var hs := p.handshake.(hash := INITIAL_HASH, chainKey := INITIAL_CHAIN_KEY, localEphemeral := 0);
        peers := peers[q := p.(handshake := hs)];
        IndexKept(table0, peers0, q, peers[q]);
        return None;
      }
      var ok, hs, parts := WriteInitiation(p.handshake, identity, ephemeral.value, now);
      peers := peers[q := p.(handshake := hs)];
      if !ok {
        IndexKept(table0, peers0, q, peers[q]);
        return None;
      }
      Delete(hs.localIndex);
      var drawn := NewIndexForHandshake(q, draws);
      if drawn == None {
        FailedDrawIff(table0, peers0, q, peers[q]);
        return None;
      }
      var index := drawn.value;
      hs := hs.(localIndex := index);
      hs := hs.(hash := Hash(hs.hash, parts.timestamp));
      hs := hs.(state := InitiationCreated);
      peers := peers[q := p.(handshake := hs)];
      r := Some(MessageInitiation(kind, index, parts.ephemeral, parts.static_, parts.timestamp));
      FreshIndex(draws, table0, p.handshake.localIndex);
      AssignIff(table0, peers0, q, peers[q], index);
      assert peers == peers0[q := p.(handshake := hs)];
    }

    method ConsumeMessageInitiation(msg: MessageInitiation, now: int) returns (r: Option<nat>)
      requires Valid()
      modifies this`peers
      ensures Valid()
      ensures r == Accepting(old(peers), byKey, identity, msg, now)
      ensures r == None ==> peers == old(peers)
      ensures r.Some? ==>
        var q, p := r.value, old(peers)[r.value];
        && peers == old(peers)[q := p.(handshake := Consumed(p.handshake, identity, msg, now))]
        && TimesStepped(p.handshake, TakeInitiation(msg, now), true, peers[q].handshake)
    {
      var claimed, hash, chainKey := OpenStatic(identity, msg);
      if claimed == None || claimed.value !in byKey { return None; }
      var q := byKey[claimed.value];
      if !peers[q].isRunning { return None; }
      var ok, hs := AcceptInitiation(peers[q].handshake, identity, msg, hash, chainKey, now);
      if !ok { return None; }
      IndexKept(table, peers, q, peers[q].(handshake := hs));
      peers := peers[q := peers[q].(handshake := hs)];
      r := Some(q);
    }

    /** `left` is what a failing random source leaves in place of an index. */
    method CreateMessageResponse(q: nat, ephemeral: Option<nat>, kind: Uint32, draws: seq<Uint32>, left: Uint32)
      returns (r: Option<MessageResponse>)
      requires Valid() && q in peers
      modifies this`table, this`peers
      ensures r.Some? <==>
        && old(peers)[q].handshake.state == InitiationConsumed && old(Drawn(q, draws)).Some?
        && ephemeral.Some? && Answerable(old(peers)[q].handshake, ephemeral.value)
      ensures r.Some? ==>
        var hs := old(peers)[q].handshake.(localIndex := r.value.sender);
        && (Valid() <==> hs.localIndex != 0) && old(Drawn(q, draws)) == Some(hs.localIndex)
        && table == Assigned(old(table), old(peers)[q].handshake.localIndex, q, hs.localIndex)
        && r.value == ResponseOf(hs, ephemeral.value, kind)
        && peers == old(peers)[q := old(peers)[q].(handshake := Answered(hs, ephemeral.value))]
      ensures old(peers)[q].handshake.state != InitiationConsumed ==>
        Valid() && peers == old(peers) && table == old(table)
      ensures old(peers)[q].handshake.state == InitiationConsumed && old(Drawn(q, draws)) == None ==>
        && table == old(table) - {old(peers)[q].handshake.localIndex}
        && peers == old(peers)[q := old(peers)[q].(handshake := old(peers)[q].handshake.(localIndex := left))]
        && (Valid() <==> left == 0)
      ensures old(peers)[q].handshake.state == InitiationConsumed && old(Drawn(q, draws)).Some? && r == None ==>
        var hs := old(peers)[q].handshake.(localIndex := old(Drawn(q, draws)).value);
        && (Valid() <==> hs.localIndex != 0)
        && table == Assigned(old(table), old(peers)[q].handshake.localIndex, q, hs.localIndex)
        && OnlyKeysChanged(old(peers)[q := old(peers)[q].(handshake := hs)], peers, q)
    {
      var p := peers[q];
      ghost var table0, peers0 := table, peers;
      if p.handshake.state != InitiationConsumed { return None; }
      Delete(p.handshake.localIndex);
      var drawn := NewIndexForHandshake(q, draws);
      var hs := p.handshake.(localIndex := if drawn.Some? then drawn.value else left);
      if drawn == None {
        peers := peers[q := p.(handshake := hs)];
        FailedDrawIff(table0, peers0, q, peers[q]);
        return None;
      }
      if ephemeral == None {
        hs, r := hs.(localEphemeral := 0), None;
      } else {
        var ok, answered, msg := WriteResponse(hs, ephemeral.value, kind);
        hs, r := answered, if ok then Some(msg) else None;
      }
      peers := peers[q := p.(handshake := hs)];
      FreshIndex(draws, table0, p.handshake.localIndex);
      AssignIff(table0, peers0, q, peers[q], drawn.value);
    }

    method ConsumeMessageResponse(msg: MessageResponse) returns (r: Option<nat>)
      requires Valid()
      modifies this`peers
      ensures Valid()
      ensures r.Some? <==>
        && msg.kind == MESSAGE_RESPONSE_TYPE && msg.receiver in table && table[msg.receiver].HandshakeEntry?
        && table[msg.receiver].peer in old(peers)
        && Completes(old(peers)[table[msg.receiver].peer].handshake, identity, msg)
      ensures r == None ==> peers == old(peers)
      ensures r.Some? ==>
        && r.value in old(peers)
        && var q, p := r.value, old(peers)[r.value];
        && q == table[msg.receiver].peer && p.handshake.localIndex == msg.receiver
        && peers == old(peers)[q := p.(handshake := Completed(p.handshake, identity, msg))]
    {
      if msg.kind != MESSAGE_RESPONSE_TYPE { return None; }
      if msg.receiver !in table { return None; }
      match table[msg.receiver] {
        case KeypairEntry(_, _) => r := None;
        case HandshakeEntry(q) =>
          assert OwnedBy(peers[q], q, msg.receiver, table[msg.receiver]);
          var ok, hs := ReadResponse(peers[q].handshake, identity, msg);
          if !ok { return None; }
          IndexKept(table, peers, q, peers[q].(handshake := hs));
          peers := peers[q := peers[q].(handshake := hs)];
          r := Some(q);
      }
    }

    method BeginSymmetricSession(q: nat) returns (ok: bool)
      requires Valid() && q in peers
      modifies this
      ensures Valid()
      ensures ok <==> old(peers)[q].handshake.state in {ResponseConsumed, ResponseCreated}
      ensures !ok ==> peers == old(peers) && table == old(table)
      ensures ok ==> peers == old(peers)[q := SessionBegun(old(peers)[q], old(made))] && made == old(made) + 1
      ensures ok ==>
        var hs := old(peers)[q].handshake;
        && SessionIn(hs, old(peers)[q].keypairs, peers[q].keypairs)
        && peers[q].handshake == hs.(chainKey := Zeroes, hash := Zeroes, localEphemeral := 0, state := Zeroed,
                                     localIndex := 0)
    {
      var p := peers[q];
      var hs := p.handshake;
      ghost var table0, peers0 := table, peers;
      var isInitiator: bool;
      var sendKey, recvKey;
      if hs.state == ResponseConsumed {
        sendKey, recvKey := Kdf(1, hs.chainKey, Empty), Kdf(2, hs.chainKey, Empty);
        isInitiator := true;
      } else if hs.state == ResponseCreated {
        recvKey, sendKey := Kdf(1, hs.chainKey, Empty), Kdf(2, hs.chainKey, Empty);
        isInitiator := false;
      } else {
        return false;
      }
      hs := hs.(chainKey := Zeroes, hash := Zeroes, localEphemeral := 0, state := Zeroed);
      var keypair := Keypair(made, isInitiator, hs.localIndex, hs.remoteIndex, sendKey, recvKey);
      made := made + 1;
      SwapIndexForKeypair(hs.localIndex, keypair);
      hs := hs.(localIndex := 0);
      var previous, next, current := p.keypairs.previous, p.keypairs.next, p.keypairs.current;
      var s := p.keypairs;
      if isInitiator {
        if next != None {
          s := s.(next := None);
          s := s.(previous := next);
          DeleteKeypair(current);
        } else {
          s := s.(previous := current);
        }
        DeleteKeypair(previous);
        s := s.(current := Some(keypair));
      } else {
        s := s.(next := Some(keypair));
        DeleteKeypair(next);
        s := s.(previous := None);
        DeleteKeypair(previous);
      }
      peers := peers[q := Peer(hs, s, p.isRunning)];
      SessionKeepsExact(table0, peers0, q, keypair);
      ok := true;
    }

    method ReceivedWithKeypair(q: nat, received: Keypair) returns (confirmed: bool)
      requires Valid() && q in peers
      modifies this`table, this`peers
      ensures Valid()
      ensures confirmed <==> old(peers)[q].keypairs.next == Some(received)
      ensures !confirmed ==> peers == old(peers) && table == old(table)
      ensures confirmed ==>
        var p := old(peers)[q];
        peers == old(peers)[q := p.(keypairs := Keypairs(Some(received), p.keypairs.current, None))]
    {
      var p := peers[q];
      var s := p.keypairs;
      if s.next != Some(received) { return false; }
      var dropped := s.previous;
      s := s.(previous := s.current);
      ghost var table0, peers0 := table, peers;
      DeleteKeypair(dropped);
      s := s.(current := s.next);
      s := s.(next := None);
      peers := peers[q := p.(keypairs := s)];
      SlotGivenUp(table0, peers0, q, peers[q], dropped);
      confirmed := true;
    }

    /** The handshake's part of ExpireCurrentKeypairs. */
    method ExpireHandshake(q: nat)
      requires Valid() && q in peers
      modifies this`table, this`peers
      ensures Valid()
      ensures q in peers && peers == old(peers)[q := old(peers)[q].(handshake := peers[q].handshake)]
      ensures Erased(old(peers)[q].handshake, peers[q].handshake)
    {
      ghost var table0, peers0 := table, peers;
      Delete(peers[q].handshake.localIndex);
      peers := peers[q := peers[q].(handshake := Cleared(peers[q].handshake))];
      IndexGivenUp(table0, peers0, q, peers[q]);
    }

    method ZeroAndFlushAll(q: nat)
      requires Valid() && q in peers
      modifies this`table, this`peers
      ensures Valid() && EntriesOf(table, q) == {} && q in peers
      ensures peers == old(peers)[q := Peer(peers[q].handshake, Keypairs(None, None, None), old(peers)[q].isRunning)]
      ensures Erased(old(peers)[q].handshake, peers[q].handshake)
    {
      hide TableExact, EntriesOf, Freed;
      var p := peers[q];
      ghost var table0, peers0 := table, peers;
      DeleteKeypair(p.keypairs.previous);
      DeleteKeypair(p.keypairs.current);
      DeleteKeypair(p.keypairs.next);
      p := p.(keypairs := Keypairs(None, None, None));
      peers := peers[q := p];
      Delete(p.handshake.localIndex);
      p := p.(handshake := Cleared(p.handshake));
      peers := peers[q := p];
      AllGivenUp(table0, peers0, q, p);
      assert peers == peers0[q := p];
      EntriesExact(table, peers, q);
    }

    ghost function Now(): View
      reads this
    {
      View(table, peers)
    }

    /** One event in the life of the device, and the peer for which it succeeded. */
    method Perform(step: Step) returns (who: Option<nat>)
      requires Valid()
      modifies this
      ensures peers.Keys == old(peers).Keys
      ensures Valid() <==> Harmless(old(Now()), step)
      ensures Stepped(old(Now()), step, who, Now(), identity, byKey)
    {
      hide Stepped, Harmless;
      if step.Initiate? || step.Respond? {
        who := PerformCreation(step);
      } else if step.TakeInitiation? || step.TakeResponse? {
        who := PerformConsumption(step);
      } else {
        who := PerformOnPeer(step);
      }
    }

    /** A message is created. */
    method PerformCreation(step: Step) returns (who: Option<nat>)
      requires Valid() && (step.Initiate? || step.Respond?)
      modifies this
      ensures peers.Keys == old(peers).Keys
      ensures Valid() <==> Harmless(old(Now()), step)
      ensures Stepped(old(Now()), step, who, Now(), identity, byKey)
    {
      hide Stepped;
      ghost var v := Now();
      if step.q !in peers {
        NothingStepped(v, step, Now(), identity, byKey);
        return None;
      }
      match step {
        case Initiate(q, ephemeral, now, kind, draws) =>
          var r := CreateMessageInitiation(q, ephemeral, now, kind, draws);
          who := if r.Some? then Some(q) else None;
          HandshakeStepped(v, step, who, Now(), identity, byKey, q);
        case Respond(q, ephemeral, kind, draws, left) =>
          var r := CreateMessageResponse(q, ephemeral, kind, draws, left);
          who := if r.Some? then Some(q) else None;
          HandshakeStepped(v, step, who, Now(), identity, byKey, q);
      }
    }

    /** A message is consumed. */
    method PerformConsumption(step: Step) returns (who: Option<nat>)
      requires Valid() && (step.TakeInitiation? || step.TakeResponse?)
      modifies this
      ensures peers.Keys == old(peers).Keys
      ensures Valid() <==> Harmless(old(Now()), step)
      ensures Stepped(old(Now()), step, who, Now(), identity, byKey)
    {
      hide Stepped;
      ghost var v := Now();
      match step {
        case TakeInitiation(msg, now) => who := ConsumeMessageInitiation(msg, now);
        case TakeResponse(msg) => who := ConsumeMessageResponse(msg);
      }
      if who.Some? {
        HandshakeStepped(v, step, who, Now(), identity, byKey, who.value);
      } else {
        NothingStepped(v, step, Now(), identity, byKey);
      }
    }

    /** Keypairs or a handshake of one peer change. */
    method PerformOnPeer(step: Step) returns (who: Option<nat>)
      requires Valid() && (step.Begin? || step.Confirm? || step.Expire? || step.Flush?)
      modifies this
      ensures peers.Keys == old(peers).Keys
      ensures Valid() <==> Harmless(old(Now()), step)
      ensures Stepped(old(Now()), step, who, Now(), identity, byKey)
    {
      hide Stepped;
      ghost var v := Now();
      if step.q !in peers {
        NothingStepped(v, step, Now(), identity, byKey);
        return None;
      }
      var ok := true;
      match step {
        case Begin(q) => ok := BeginSymmetricSession(q);
        case Confirm(q, k) => ok := ReceivedWithKeypair(q, k);
        case Expire(q) => ExpireHandshake(q);
        case Flush(q) => ZeroAndFlushAll(q);
      }
      who := if ok then Some(step.q) else None;
      if ok {
        OnePeer(v, step, who, Now(), identity, byKey, step.q);
      } else {
        NothingStepped(v, step, Now(), identity, byKey);
      }
    }

    /**
      A run of events: as long as each is harmless where it happens, every peer's entries are exactly what its
      handshake and keypairs call for, and with the first that is not they no longer are.
     */
    method Run(steps: seq<Step>) returns (done: nat, ghost h: History)
      requires Valid()
      modifies this
      ensures peers.Keys == old(peers).Keys
      ensures done <= |steps| && IsRun(h) && |h.who| == done && h.steps == steps && h.views[0] == old(Now())
      ensures h.identity == identity && h.byKey == byKey
      ensures forall i :: 0 <= i < done ==> Harmless(h.views[i], steps[i])
      ensures done < |steps| ==> !Harmless(h.views[done], steps[done]) && !Valid()
      ensures done == |steps| ==> Valid() && h.views[done] == Now()
      ensures done == |steps| ==>
        forall q :: q in peers ==> EntriesOf(table, q) == IndicesOf(peers[q]) && |EntriesOf(table, q)| <= 4
    {
      hide Harmless, Stepped;
      done, h := 0, History(identity, byKey, [Now()], steps, []);
      while done < |steps|
        invariant Valid() && peers.Keys == old(peers).Keys
        invariant done <= |steps| && IsRun(h) && |h.who| == done && h.views[0] == old(Now()) && h.views[done] == Now()
        invariant h.steps == steps && h.identity == identity && h.byKey == byKey
        invariant forall i :: 0 <= i < done ==> Harmless(h.views[i], steps[i])
      {
        var harmless := Harmless(View(table, peers), steps[done]);
        var who := Perform(steps[done]);
        if !harmless { return; }
        RunMore(h, who, Now());
        done, h := done + 1, h.(views := h.views + [Now()], who := h.who + [who]);
      }
      forall q | q in peers ensures EntriesOf(table, q) == IndicesOf(peers[q]) && |EntriesOf(table, q)| <= 4 {
        EntriesExact(table, peers, q);
      }
    }
  }

  /** NewIndexForHandshake tries the draws in turn. */
  function FirstUnused(draws: seq<Uint32>, table: Table): Option<Uint32> {
    if draws == [] then None else if draws[0] !in table then Some(draws[0]) else FirstUnused(draws[1..], table)
  }

  lemma {:induction false} FirstUnusedIff(draws: seq<Uint32>, table: Table)
    ensures match FirstUnused(draws, table)
            case None => forall j :: 0 <= j < |draws| ==> draws[j] in table
            case Some(index) =>
              && index !in table
              && exists j :: 0 <= j < |draws| && draws[j] == index && forall i :: 0 <= i < j ==> draws[i] in table
  {
    if draws != [] && draws[0] in table {
      FirstUnusedIff(draws[1..], table);
      match FirstUnused(draws, table)
      case None => assert forall j :: 0 < j < |draws| ==> draws[j] == draws[1..][j - 1];
      case Some(index) =>
        var j :| 0 <= j < |draws| - 1 && draws[1..][j] == index && forall i :: 0 <= i < j ==> draws[1..][i] in table;
        forall i | 0 <= i < j + 1 ensures draws[i] in table { assert i == 0 || draws[i] == draws[1..][i - 1]; }
        assert draws[j + 1] == index;
    }
  }

  lemma FreshIndex(draws: seq<Uint32>, table: Table, own: Uint32)
    ensures var drawn := FirstUnused(draws, table - {own}); drawn.Some? ==> drawn.value !in table || drawn.value == own
  {
    FirstUnusedIff(draws, table - {own});
  }

  /**
    The step leaves no handshake with an index that the table does not have for it: no index zero, and no stale one.
   */
  predicate Harmless(v: View, step: Step) {
    match step
    case Initiate(q, ephemeral, now, kind, draws) =>
      q in v.peers && ephemeral.Some? && CanInitiate(v.peers[q].handshake, ephemeral.value) ==>
        (match FirstUnused(draws, v.table - {v.peers[q].handshake.localIndex})
         case None => v.peers[q].handshake.localIndex == 0
         case Some(index) => index != 0)
    case Respond(q, ephemeral, kind, draws, left) =>
      q in v.peers && v.peers[q].handshake.state == InitiationConsumed ==>
        (match FirstUnused(draws, v.table - {v.peers[q].handshake.localIndex})
         case None => left == 0
         case Some(index) => index != 0)
    case _ => true
  }

  /** Only the transcript and the ephemeral key of q's handshake may have changed. */
  ghost predicate OnlyKeysChanged(before: Peers, after: Peers, q: nat) {
    && q in before && q in after
    && after == before[q := before[q].(handshake := before[q].handshake.(hash := after[q].handshake.hash,
                                       chainKey := after[q].handshake.chainKey,
                                       localEphemeral := after[q].handshake.localEphemeral))]
  }

  /** The peer that an initiation is accepted for. */
  function Accepting(peers: Peers, byKey: map<Term, nat>, identity: nat, msg: MessageInitiation, now: int): Option<nat>
  {
    match Claimed(identity, msg)
    case None => None
    case Some(pk) =>
      if pk in byKey && byKey[pk] in peers && peers[byKey[pk]].isRunning
         && Acceptable(peers[byKey[pk]].handshake, identity, msg, now)
      then Some(byKey[pk]) else None
  }

  /** The keypair that a finished handshake gives. */
  function KeypairOf(hs: Handshake, id: nat): Keypair {
    Keypair(id, hs.state == ResponseConsumed, hs.localIndex, hs.remoteIndex, SendKey(hs), ReceiveKey(hs))
  }

  function SessionBegun(p: Peer, id: nat): Peer {
    Peer(p.handshake.(chainKey := Zeroes, hash := Zeroes, localEphemeral := 0, state := Zeroed, localIndex := 0),
         Rotated(p.keypairs, KeypairOf(p.handshake, id)), p.isRunning)
  }

  /** The table after a rotation. */
  function TableRotated(table: Table, q: nat, s: Keypairs, k: Keypair): Table {
    var swapped := table[k.localIndex := KeypairEntry(q, k)];
    if !k.isInitiator then Freed(Freed(swapped, s.next), s.previous)
    else if s.next.Some? then Freed(Freed(swapped, s.current), s.previous)
    else Freed(swapped, s.previous)
  }

  lemma SessionKeepsExact(table: Table, peers: Peers, q: nat, k: Keypair)
    requires TableExact(table, peers) && q in peers && peers[q].handshake.state in {ResponseConsumed, ResponseCreated}
    requires k == KeypairOf(peers[q].handshake, k.id)
    ensures k.localIndex in table && table[k.localIndex].peer == q
    ensures TableExact(TableRotated(table, q, peers[q].keypairs, k), peers[q := SessionBegun(peers[q], k.id)])
  {
    var p, s := peers[q], peers[q].keypairs;
    var p' := SessionBegun(p, k.id);
    assert PeerListed(table, p, q) && PeerOk(p);
    assert forall m :: Live(m, s) ==> m.localIndex in table && table[m.localIndex] == KeypairEntry(q, m);
    assert !Live(k, s);
    var a, b := if !k.isInitiator then s.next else if s.next.Some? then s.current else None, s.previous;
    KeypairsRotated(table, peers, q, p', k, a, b);
  }

  lemma AllGivenUp(table: Table, peers: Peers, q: nat, p: Peer)
    requires TableExact(table, peers) && q in peers
    requires p == Peer(Cleared(peers[q].handshake), Keypairs(None, None, None), peers[q].isRunning)
    ensures var s := peers[q].keypairs;
            TableExact(Freed(Freed(Freed(table, s.previous), s.current), s.next) - {peers[q].handshake.localIndex},
                       peers[q := p])
  {
    var s := peers[q].keypairs;
    var table' := Freed(Freed(Freed(table, s.previous), s.current), s.next) - {peers[q].handshake.localIndex};
    NoneLeft(table, peers, q, table');
    PeerStep(table, peers, q, p, table');
  }

  lemma NoneLeft(table: Table, peers: Peers, q: nat, table': Table)
    requires TableExact(table, peers) && q in peers
    requires var s := peers[q].keypairs;
             table' == Freed(Freed(Freed(table, s.previous), s.current), s.next) - {peers[q].handshake.localIndex}
    ensures OthersSame(table, table', q) && forall i :: i in table' ==> table'[i].peer != q
  {
    assert PeerListed(table, peers[q], q);
    forall i | i in table && table[i].peer == q ensures i !in table' { assert OwnedBy(peers[q], q, i, table[i]); }
    var i := peers[q].handshake.localIndex;
    assert i in table ==> OwnedBy(peers[table[i].peer], table[i].peer, i, table[i]);
  }

  // ----- two devices

  /** What a new session on the two devices has to look like: crossed keys, crossed indices, and both can be found. */
  ghost predicate Joined(tableA: Table, a: Peers, qa: nat, tableB: Table, b: Peers, qb: nat) {
    && qa in a && qb in b && a[qa].keypairs.current.Some? && b[qb].keypairs.next.Some?
    && var ka, kb := a[qa].keypairs.current.value, b[qb].keypairs.next.value;
    && ka.isInitiator && !kb.isInitiator
    && ka.sendKey == kb.receiveKey && ka.receiveKey == kb.sendKey && ka.sendKey != ka.receiveKey
    && ka.localIndex == kb.remoteIndex && ka.remoteIndex == kb.localIndex
    && ka.localIndex in tableA && tableA[ka.localIndex] == KeypairEntry(qa, ka)
    && kb.localIndex in tableB && tableB[kb.localIndex] == KeypairEntry(qb, kb)
  }

  /** The responder is willing: its peer runs, the time is newer than any before, and it is no flood. */
  predicate Willing(p: Peer, stamp: nat, now: int) {
    && p.isRunning && stamp > p.handshake.lastTimestamp
    && now - p.handshake.lastInitiationConsumption > HANDSHAKE_INITIATION_RATE
  }

  lemma InitiationTaken(hsA: Handshake, a: nat, p: Peer, b: nat, byKey: map<Term, nat>, peers: Peers, qb: nat,
                        ea: nat, stamp: nat, now: int, ia: Uint32)
    requires Paired(hsA, a, p.handshake, b) && qb in peers && peers[qb] == p && Pub(a) in byKey && byKey[Pub(a)] == qb
    ensures CanInitiate(hsA, ea)
    ensures Accepting(peers, byKey, b, InitiationOf(hsA, a, ea, stamp, ia, MESSAGE_INITIATION_TYPE), now)
            == if Willing(p, stamp, now) then Some(qb) else None
  {
    ClaimedIff(hsA, a, ea, stamp, ia, b);
    StampedIff(hsA, a, ea, stamp, ia, b, p.handshake.precomputedStaticStatic);
    SharedSecretCommutes(a, b);
  }

  lemma IndexListed(table: Table, peers: Peers, q: nat)
    requires TableExact(table, peers) && q in peers
    requires peers[q].handshake.state in {InitiationCreated, ResponseCreated, ResponseConsumed}
    ensures peers[q].handshake.localIndex in table && table[peers[q].handshake.localIndex] == HandshakeEntry(q)
  {
    assert PeerListed(table, peers[q], q) && PeerOk(peers[q]);
  }

  lemma BothListed(tableA: Table, a: Peers, qa: nat, tableB: Table, b: Peers, qb: nat)
    requires TableExact(tableA, a) && TableExact(tableB, b) && qa in a && qb in b
    ensures SlotListed(tableA, qa, a[qa].keypairs.current) && SlotListed(tableB, qb, b[qb].keypairs.next)
  {
    assert PeerListed(tableA, a[qa], qa) && PeerListed(tableB, b[qb], qb);
  }

  /** The keypairs of an exchange. */
  lemma KeypairsCross(hsA: Handshake, a: nat, hsB: Handshake, b: nat, ea: nat, eb: nat,
                      stamp: nat, now: int, ia: Uint32, ib: Uint32, kind: Uint32, idA: nat, idB: nat)
    requires Paired(hsA, a, hsB, b)
    requires stamp > hsB.lastTimestamp && now - hsB.lastInitiationConsumption > HANDSHAKE_INITIATION_RATE
    ensures CanInitiate(hsA, ea)
    ensures var msg1 := InitiationOf(hsA, a, ea, stamp, ia, MESSAGE_INITIATION_TYPE);
            && Claimed(b, msg1).Some? && Acceptable(hsB, b, msg1, now)
            && var hsB1 := Consumed(hsB, b, msg1, now).(localIndex := ib);
            && Answerable(hsB1, eb) && Completes(Initiated(hsA, a, ea, stamp, ia), a, ResponseOf(hsB1, eb, kind))
            && ResponseOf(hsB1, eb, kind).receiver == ia
            && var ka := KeypairOf(Completed(Initiated(hsA, a, ea, stamp, ia), a, ResponseOf(hsB1, eb, kind)), idA);
               var kb := KeypairOf(Answered(hsB1, eb), idB);
            && ka.isInitiator && !kb.isInitiator
            && ka.sendKey == kb.receiveKey && ka.receiveKey == kb.sendKey && ka.sendKey != ka.receiveKey
            && ka.localIndex == kb.remoteIndex && ka.remoteIndex == kb.localIndex
  {
    ExchangeCompletes(hsA, a, hsB, b, ea, eb, stamp, now, ia, ib, kind);
  }

  lemma AcceptingFacts(peers: Peers, byKey: map<Term, nat>, b: nat, msg: MessageInitiation, now: int, q: nat)
    requires Accepting(peers, byKey, b, msg, now) == Some(q)
    ensures q in peers && Claimed(b, msg).Some? && Acceptable(peers[q].handshake, b, msg, now)
  {}

  /** The first message, with the type field as delivery restores it. */
  method Offer(a: Device, qa: nat, b: Device, qb: nat, ea: nat, stamp: nat, now: int, kind: Uint32, draws: seq<Uint32>)
    returns (ok: bool, ghost ia: Uint32)
    requires a != b && a.Valid() && b.Valid() && qa in a.peers && qb in b.peers
    requires Paired(a.peers[qa].handshake, a.identity, b.peers[qb].handshake, b.identity)
    requires Pub(a.identity) in b.byKey && b.byKey[Pub(a.identity)] == qb
    requires a.Drawn(qa, draws) !in {None, Some(0)}
    modifies a`table, a`peers, b`peers
    ensures a.Valid() && b.Valid()
    ensures ok <==> Willing(old(b.peers)[qb], stamp, now)
    ensures CanInitiate(old(a.peers)[qa].handshake, ea)
    ensures var p := old(a.peers)[qa];
            a.peers == old(a.peers)[qa := p.(handshake := Initiated(p.handshake, a.identity, ea, stamp, ia))]
    ensures ok ==>
      var p := old(b.peers)[qb];
      var msg := InitiationOf(old(a.peers)[qa].handshake, a.identity, ea, stamp, ia, MESSAGE_INITIATION_TYPE);
      && Claimed(b.identity, msg).Some? && Acceptable(p.handshake, b.identity, msg, now)
      && b.peers == old(b.peers)[qb := p.(handshake := Consumed(p.handshake, b.identity, msg, now))]
    ensures !ok ==> b.peers == old(b.peers)
  {
    hide TableExact, Initiated, Consumed, InitiationOf, CanInitiate, Acceptable, Claimed, Accepting, Paired, Willing;
    ghost var hsA := a.peers[qa].handshake;
    InitiationTaken(hsA, a.identity, b.peers[qb], b.identity, b.byKey, b.peers, qb, ea, stamp, now, 0);
    var initiation := a.CreateMessageInitiation(qa, Some(ea), stamp, kind, draws);
    ia := initiation.value.sender;
    var msg := initiation.value.(kind := MESSAGE_INITIATION_TYPE);
    InitiationKind(hsA, a.identity, ea, stamp, ia, kind);
    InitiationTaken(hsA, a.identity, b.peers[qb], b.identity, b.byKey, b.peers, qb, ea, stamp, now, ia);
    if Willing(b.peers[qb], stamp, now) { AcceptingFacts(b.peers, b.byKey, b.identity, msg, now, qb); }
    var taken := b.ConsumeMessageInitiation(msg, now);
    ok := taken.Some?;
  }

  /** The handshakes of the two sides after the first message. */
  ghost predicate Offered(hs1: Handshake, a: nat, hs2: Handshake, b: nat, hsA: Handshake, hsB: Handshake,
                          ea: nat, stamp: nat, now: int, ia: Uint32) {
    && Paired(hsA, a, hsB, b) && stamp > hsB.lastTimestamp
    && now - hsB.lastInitiationConsumption > HANDSHAKE_INITIATION_RATE
    && CanInitiate(hsA, ea) && hs1 == Initiated(hsA, a, ea, stamp, ia) && ia != 0
    && var msg := InitiationOf(hsA, a, ea, stamp, ia, MESSAGE_INITIATION_TYPE);
    && Claimed(b, msg).Some? && Acceptable(hsB, b, msg, now) && hs2 == Consumed(hsB, b, msg, now)
  }

  /** What the second message leads to. */
  lemma AnswerFits(hs1: Handshake, a: nat, hs2: Handshake, b: nat, hsA: Handshake, hsB: Handshake,
                   ea: nat, eb: nat, stamp: nat, now: int, ia: Uint32, ib: Uint32, kind: Uint32, idA: nat, idB: nat)
    requires Offered(hs1, a, hs2, b, hsA, hsB, ea, stamp, now, ia)
    ensures hs1.state == InitiationCreated && hs1.localIndex == ia && hs2.state == InitiationConsumed
    ensures Answerable(hs2, eb)
    ensures var hs3 := hs2.(localIndex := ib);
            && Answerable(hs3, eb) && Answered(hs3, eb).state == ResponseCreated
            && var msg := ResponseOf(hs3, eb, kind).(kind := MESSAGE_RESPONSE_TYPE);
            && msg.receiver == ia && Completes(hs1, a, msg)
            && Completed(hs1, a, msg).state == ResponseConsumed
            && var ka, kb := KeypairOf(Completed(hs1, a, msg), idA), KeypairOf(Answered(hs3, eb), idB);
            && ka.isInitiator && !kb.isInitiator
            && ka.sendKey == kb.receiveKey && ka.receiveKey == kb.sendKey && ka.sendKey != ka.receiveKey
            && ka.localIndex == kb.remoteIndex && ka.remoteIndex == kb.localIndex
  {
    KeypairsCross(hsA, a, hsB, b, ea, eb, stamp, now, ia, ib, MESSAGE_RESPONSE_TYPE, idA, idB);
    var hs3 := hs2.(localIndex := ib);
    ResponseKind(hs3, eb, kind);
    AnswerableAnyIndex(hs2, eb, ib);
    AnsweredState(hs3, eb);
    InitiatedState(hsA, a, ea, stamp, ia);
    var response := ResponseOf(hs3, eb, MESSAGE_RESPONSE_TYPE);
    CompletedState(Completed(hs1, a, response), hs1, a, response);
  }

  /** The second message, and the sessions that both sides begin. */
  method Answer(a: Device, qa: nat, b: Device, qb: nat, eb: nat, kind: Uint32, draws: seq<Uint32>,
                ghost hsA: Handshake, ghost hsB: Handshake, ghost ea: nat, ghost stamp: nat, ghost now: int,
                ghost ia: Uint32)
    requires a != b && a.Valid() && b.Valid() && qa in a.peers && qb in b.peers
    requires Offered(a.peers[qa].handshake, a.identity, b.peers[qb].handshake, b.identity, hsA, hsB, ea, stamp, now, ia)
    requires b.Drawn(qb, draws) !in {None, Some(0)}
    modifies a, b
    ensures a.Valid() && b.Valid() && Joined(a.table, a.peers, qa, b.table, b.peers, qb)
  {
    hide TableExact, Answered, Completed, Completes, ResponseOf, Answerable, KeypairOf, Offered;
    ghost var hs1, hs2 := a.peers[qa].handshake, b.peers[qb].handshake;
    AnswerFits(hs1, a.identity, hs2, b.identity, hsA, hsB, ea, eb, stamp, now, ia, 0, kind, a.made, b.made);
    var response := b.CreateMessageResponse(qb, Some(eb), kind, draws, 0);
    ghost var ib := response.value.sender;
    AnswerFits(hs1, a.identity, hs2, b.identity, hsA, hsB, ea, eb, stamp, now, ia, ib, kind, a.made, b.made);
    var msg := response.value.(kind := MESSAGE_RESPONSE_TYPE);
    var begunB := b.BeginSymmetricSession(qb);
    IndexListed(a.table, a.peers, qa);
    var completed := a.ConsumeMessageResponse(msg);
    var begunA := a.BeginSymmetricSession(qa);
    BothListed(a.table, a.peers, qa, b.table, b.peers, qb);
  }

  /**
    The exchange between two devices that know each other: it succeeds exactly when the responder is willing, and then
    the two new keypairs belong together.
   */
  method Exchange(a: Device, qa: nat, b: Device, qb: nat, ea: nat, eb: nat, stamp: nat, now: int,
                  kindA: Uint32, kindB: Uint32, drawsA: seq<Uint32>, drawsB: seq<Uint32>) returns (ok: bool)
    requires a != b && a.Valid() && b.Valid() && qa in a.peers && qb in b.peers
    requires Paired(a.peers[qa].handshake, a.identity, b.peers[qb].handshake, b.identity)
    requires Pub(a.identity) in b.byKey && b.byKey[Pub(a.identity)] == qb
    requires a.Drawn(qa, drawsA) !in {None, Some(0)} && b.Drawn(qb, drawsB) !in {None, Some(0)}
    modifies a, b
    ensures a.Valid() && b.Valid()
    ensures ok <==> Willing(old(b.peers)[qb], stamp, now)
    ensures ok ==> Joined(a.table, a.peers, qa, b.table, b.peers, qb)
    ensures !ok ==> b.peers == old(b.peers) && b.table == old(b.table)
  {
    hide TableExact, Initiated, Consumed, InitiationOf, CanInitiate, Acceptable, Claimed, Paired, Joined, Answerable;
    ghost var hsA, hsB := a.peers[qa].handshake, b.peers[qb].handshake;
    ghost var ia;
    ok, ia := Offer(a, qa, b, qb, ea, stamp, now, kindA, drawsA);
    if ok {
      InitiatedIndex(a.table, a.peers, qa, hsA, a.identity, ea, stamp, ia);
      ConsumedKeeps(hsB, b.identity, InitiationOf(hsA, a.identity, ea, stamp, ia, MESSAGE_INITIATION_TYPE), now);
      Answer(a, qa, b, qb, eb, kindB, drawsB, hsA, hsB, ea, stamp, now, ia);
    }
  }

  lemma InitiatedIndex(table: Table, peers: Peers, q: nat, hs: Handshake, a: nat, ea: nat, stamp: nat, ia: Uint32)
    requires TableExact(table, peers) && q in peers && CanInitiate(hs, ea)
    requires peers[q].handshake == Initiated(hs, a, ea, stamp, ia)
    ensures ia != 0
  {
    assert PeerOk(peers[q]);
    InitiatedState(hs, a, ea, stamp, ia);
  }

  lemma InitiationKind(hs: Handshake, a: nat, ea: nat, stamp: nat, ia: Uint32, kind: Uint32)
    requires CanInitiate(hs, ea)
    ensures InitiationOf(hs, a, ea, stamp, ia, kind).(kind := MESSAGE_INITIATION_TYPE)
            == InitiationOf(hs, a, ea, stamp, ia, MESSAGE_INITIATION_TYPE)
  {}

  lemma ResponseKind(hs: Handshake, eb: nat, kind: Uint32)
    requires Answerable(hs, eb)
    ensures ResponseOf(hs, eb, kind).(kind := MESSAGE_RESPONSE_TYPE) == ResponseOf(hs, eb, MESSAGE_RESPONSE_TYPE)
  {}

  lemma ConsumedKeeps(hs: Handshake, b: nat, msg: MessageInitiation, now: int)
    requires Claimed(b, msg).Some? && Acceptable(hs, b, msg, now)
    ensures Consumed(hs, b, msg, now).localIndex == hs.localIndex
    ensures Consumed(hs, b, msg, now).state == InitiationConsumed
  {}

  lemma AnswerableAnyIndex(hs: Handshake, eb: nat, index: Uint32)
    ensures Answerable(hs, eb) == Answerable(hs.(localIndex := index), eb)
  {}

  lemma AnsweredState(hs: Handshake, eb: nat)
    requires Answerable(hs, eb)
    ensures Answered(hs, eb).state == ResponseCreated && Answered(hs, eb).localIndex == hs.localIndex
  {}

  lemma InitiatedState(hs: Handshake, a: nat, ea: nat, stamp: nat, ia: Uint32)
    requires CanInitiate(hs, ea)
    ensures Initiated(hs, a, ea, stamp, ia).state == InitiationCreated
    ensures Initiated(hs, a, ea, stamp, ia).localIndex == ia
  {}

  lemma CompletedState(r: Handshake, hs: Handshake, a: nat, msg: MessageResponse)
    requires Completes(hs, a, msg) && r == Completed(hs, a, msg)
    ensures r.state == ResponseConsumed && r.localIndex == hs.localIndex
  {}
}

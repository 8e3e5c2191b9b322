/** Which receiver indices belong to whom: the index table, the handshakes and the keypairs of all peers. */
module IndexTable {
  import opened Wrappers
  import opened Bytes
  import opened NoiseTerms
  import opened Noise

  /** id stands for the identity of the keypair object. */
  datatype Keypair = Keypair(id: nat, isInitiator: bool, localIndex: Uint32, remoteIndex: Uint32, sendKey: Term,
                             receiveKey: Term)

  datatype Keypairs = Keypairs(current: Option<Keypair>, previous: Option<Keypair>, next: Option<Keypair>)

  datatype Peer = Peer(handshake: Handshake, keypairs: Keypairs, isRunning: bool)

  datatype Entry = HandshakeEntry(peer: nat) | KeypairEntry(peer: nat, keypair: Keypair)

  type Table = map<Uint32, Entry>
  type Peers = map<nat, Peer>

  predicate Live(k: Keypair, s: Keypairs) {
    s.current == Some(k) || s.previous == Some(k) || s.next == Some(k)
  }

  /** Entry e under index i is accounted for by peer p, whose number is q. */
  predicate OwnedBy(p: Peer, q: nat, i: Uint32, e: Entry) {
    && i != 0
    && match e
       case HandshakeEntry(r) => r == q && p.handshake.localIndex == i
       case KeypairEntry(r, k) => r == q && Live(k, p.keypairs) && k.localIndex == i
  }

  predicate SlotListed(table: Table, q: nat, slot: Option<Keypair>) {
    match slot
    case None => true
    case Some(k) => k.localIndex != 0 && k.localIndex in table && table[k.localIndex] == KeypairEntry(q, k)
  }

  /** Everything the peer can be reached under is in the table. */
  predicate PeerListed(table: Table, p: Peer, q: nat) {
    && (p.handshake.localIndex != 0 ==>
          p.handshake.localIndex in table && table[p.handshake.localIndex] == HandshakeEntry(q))
    && SlotListed(table, q, p.keypairs.current) && SlotListed(table, q, p.keypairs.previous)
    && SlotListed(table, q, p.keypairs.next)
  }

  predicate PeerOk(p: Peer) {
    var s := p.keypairs;
    && (p.handshake.state in {InitiationCreated, ResponseCreated, ResponseConsumed} ==> p.handshake.localIndex != 0)
    && (s.current.Some? ==> s.current != s.previous && s.current != s.next)
    && (s.previous.Some? ==> s.previous != s.next)
  }

  /** The table holds exactly what the peers' handshakes and keypairs call for. */
  ghost predicate TableExact(table: Table, peers: Peers) {
    && (forall i {:trigger table[i]} :: i in table ==>
          table[i].peer in peers && OwnedBy(peers[table[i].peer], table[i].peer, i, table[i]))
    && (forall q {:trigger peers[q]} :: q in peers ==> PeerListed(table, peers[q], q) && PeerOk(peers[q]))
  }

  /** The two tables agree on the entries of all peers but q. */
  ghost predicate OthersSame(table: Table, table': Table, q: nat) {
    && (forall i {:trigger table[i]} :: i in table && table[i].peer != q ==> i in table' && table'[i] == table[i])
    && (forall i {:trigger table'[i]} :: i in table' && table'[i].peer != q ==> i in table && table'[i] == table[i])
  }

  /** One peer and its own entries change. */
  lemma PeerStep(table: Table, peers: Peers, q: nat, p: Peer, table': Table)
    requires TableExact(table, peers) && q in peers && OthersSame(table, table', q)
    requires forall i {:trigger table'[i]} :: i in table' && table'[i].peer == q ==> OwnedBy(p, q, i, table'[i])
    requires PeerListed(table', p, q) && PeerOk(p)
    ensures TableExact(table', peers[q := p])
  {
    var peers' := peers[q := p];
    forall r | r in peers' ensures PeerListed(table', peers'[r], r) && PeerOk(peers'[r]) {
      if r != q { assert PeerListed(table, peers[r], r); }
    }
  }

  // ----- what follows from exactness

  ghost function EntriesOf(table: Table, q: nat): set<Uint32> {
    set i | i in table && table[i].peer == q
  }

  function SlotIndex(slot: Option<Keypair>): set<Uint32> {
    match slot case None => {} case Some(k) => {k.localIndex}
  }

  function IndicesOf(p: Peer): set<Uint32> {
    (if p.handshake.localIndex == 0 then {} else {p.handshake.localIndex})
    + SlotIndex(p.keypairs.current) + SlotIndex(p.keypairs.previous) + SlotIndex(p.keypairs.next)
  }

  /** A peer's entries are exactly its handshake's nonzero index and its live keypairs' indices: at most four. */
  lemma EntriesExact(table: Table, peers: Peers, q: nat)
    requires TableExact(table, peers) && q in peers
    ensures EntriesOf(table, q) == IndicesOf(peers[q]) && |EntriesOf(table, q)| <= 4
  {
    forall i ensures i in EntriesOf(table, q) <==> i in IndicesOf(peers[q]) {
      if i in EntriesOf(table, q) { Owned(table, peers, q, i); }
      if i in IndicesOf(peers[q]) { Listed(table, peers, q, i); }
    }
    AtMostFour(peers[q]);
  }

  lemma Owned(table: Table, peers: Peers, q: nat, i: Uint32)
    requires TableExact(table, peers) && q in peers && i in table && table[i].peer == q
    ensures i in IndicesOf(peers[q])
  {
    assert OwnedBy(peers[q], q, i, table[i]);
  }

  lemma AtMostFour(p: Peer)
    ensures |IndicesOf(p)| <= 4
  {
    var a := if p.handshake.localIndex == 0 then {} else {p.handshake.localIndex};
    var b, c, d := SlotIndex(p.keypairs.current), SlotIndex(p.keypairs.previous), SlotIndex(p.keypairs.next);
    assert |a| <= 1 && |b| <= 1 && |c| <= 1 && |d| <= 1;
    assert |a + b| <= 2 && |a + b + c| <= 3;
  }

  /** No index is shared between peers. */
  lemma NeverShared(table: Table, peers: Peers, q: nat, r: nat)
    requires TableExact(table, peers) && q in peers && r in peers && q != r
    ensures IndicesOf(peers[q]) !! IndicesOf(peers[r])
  {
    forall i | i in IndicesOf(peers[q]) ensures i in table && table[i].peer == q { Listed(table, peers, q, i); }
    forall i | i in IndicesOf(peers[r]) ensures i in table && table[i].peer == r { Listed(table, peers, r, i); }
  }

  lemma Listed(table: Table, peers: Peers, q: nat, i: Uint32)
    requires TableExact(table, peers) && q in peers && i in IndicesOf(peers[q])
    ensures i in table && table[i].peer == q
  {
    assert PeerListed(table, peers[q], q);
  }

  /** ... nor between the handshake and the keypairs of one peer. */
  lemma NeverSharedWithin(table: Table, peers: Peers, q: nat)
    requires TableExact(table, peers) && q in peers
    ensures var p := peers[q];
            && p.handshake.localIndex !in
                 SlotIndex(p.keypairs.current) + SlotIndex(p.keypairs.previous) + SlotIndex(p.keypairs.next)
            && SlotIndex(p.keypairs.current) !! SlotIndex(p.keypairs.previous)
            && SlotIndex(p.keypairs.current) !! SlotIndex(p.keypairs.next)
            && SlotIndex(p.keypairs.previous) !! SlotIndex(p.keypairs.next)
  {
    assert PeerListed(table, peers[q], q) && PeerOk(peers[q]);
  }

  // ----- the table's part in each step

  /** DeleteKeypair */
  function Freed(table: Table, slot: Option<Keypair>): Table {
    match slot case None => table case Some(k) => table - {k.localIndex}
  }

  /** What assigning a new index to a handshake does to the table. */
  function Assigned(table: Table, old_: Uint32, q: nat, index: Uint32): Table {
    (table - {old_})[index := HandshakeEntry(q)]
  }

  /** Assigning a fresh index keeps the table exact just when the index is not zero. */
  lemma AssignIff(table: Table, peers: Peers, q: nat, p: Peer, index: Uint32)
    requires TableExact(table, peers) && q in peers
    requires index !in table || index == peers[q].handshake.localIndex
    requires p.keypairs == peers[q].keypairs && p.handshake.localIndex == index
    ensures TableExact(Assigned(table, peers[q].handshake.localIndex, q, index), peers[q := p]) <==> index != 0
  {
    var old_ := peers[q].handshake.localIndex;
    var table' := Assigned(table, old_, q, index);
    assert PeerListed(table, peers[q], q) && PeerOk(peers[q]);
    assert table'[index] == HandshakeEntry(q);
    if index != 0 {
      assert old_ in table ==> OwnedBy(peers[table[old_].peer], table[old_].peer, old_, table[old_]);
      PeerStep(table, peers, q, p, table');
    }
  }

  /**
    Why zero must never be drawn: a peer that got index 0 loses its entry as soon as
    any peer without an index starts a handshake, although its own handshake is still under way.
   */
  lemma ZeroIndexIsLost(q: nat, r: nat, index: Uint32)
    requires q != r && index != 0
    ensures var first := Assigned(map[], 0, q, 0);
            var second := Assigned(first, 0, r, index);
            0 in first && first[0] == HandshakeEntry(q) && forall i :: i in second ==> second[i].peer != q
  {}

  /** The handshake gives up its index. */
  lemma IndexGivenUp(table: Table, peers: Peers, q: nat, p: Peer)
    requires TableExact(table, peers) && q in peers
    requires p.keypairs == peers[q].keypairs && p.handshake.localIndex == 0 && PeerOk(p)
    ensures TableExact(table - {peers[q].handshake.localIndex}, peers[q := p])
  {
    var old_ := peers[q].handshake.localIndex;
    assert PeerListed(table, peers[q], q) && PeerOk(peers[q]);
    assert old_ in table ==> OwnedBy(peers[table[old_].peer], table[old_].peer, old_, table[old_]);
    PeerStep(table, peers, q, p, table - {old_});
  }

  /**
    When no new index can be drawn, the old one has left the table already: what is left in the handshake's index
    field must be zero for the table to stay exact.
   */
  lemma FailedDrawIff(table: Table, peers: Peers, q: nat, p: Peer)
    requires TableExact(table, peers) && q in peers && p.keypairs == peers[q].keypairs
    requires p.handshake.state == peers[q].handshake.state
    requires p.handshake.localIndex == peers[q].handshake.localIndex || p.handshake.state == InitiationConsumed
    ensures TableExact(table - {peers[q].handshake.localIndex}, peers[q := p]) <==> p.handshake.localIndex == 0
  {
    var left, table' := p.handshake.localIndex, table - {peers[q].handshake.localIndex};
    assert PeerOk(peers[q]);
    if left == 0 {
      IndexGivenUp(table, peers, q, p);
    } else {
      assert left in table ==> OwnedBy(peers[table[left].peer], table[left].peer, left, table[left]);
      assert !PeerListed(table', p, q) && peers[q := p][q] == p;
    }
  }

  /** For instance: a peer in the middle of a handshake under a nonzero index. */
  lemma StaleIndex(q: nat, hs: Handshake, index: Uint32)
    requires index != 0
    ensures var p := Peer(hs.(state := InitiationCreated, localIndex := index), Keypairs(None, None, None), true);
            var table, peers: Peers := map[index := HandshakeEntry(q)], map[q := p];
            TableExact(table, peers) && !TableExact(table - {index}, peers)
  {
    var p := Peer(hs.(state := InitiationCreated, localIndex := index), Keypairs(None, None, None), true);
    var table, peers: Peers := map[index := HandshakeEntry(q)], map[q := p];
    FailedDrawIff(table, peers, q, p);
    assert peers[q := p] == peers;
  }

  /** The handshake changes in ways that do not concern the table. */
  lemma IndexKept(table: Table, peers: Peers, q: nat, p: Peer)
    requires TableExact(table, peers) && q in peers
    requires p.keypairs == peers[q].keypairs && p.handshake.localIndex == peers[q].handshake.localIndex && PeerOk(p)
    ensures TableExact(table, peers[q := p])
  {
    assert PeerListed(table, peers[q], q);
    PeerStep(table, peers, q, p, table);
  }

  /** A peer gives up one of its keypairs. */
  lemma SlotGivenUp(table: Table, peers: Peers, q: nat, p: Peer, slot: Option<Keypair>)
    requires TableExact(table, peers) && q in peers && PeerOk(p)
    requires p.handshake == peers[q].handshake
    requires slot.Some? ==> Live(slot.value, peers[q].keypairs) && !Live(slot.value, p.keypairs)
    requires forall k :: Live(k, p.keypairs) <==> Live(k, peers[q].keypairs) && Some(k) != slot
    ensures TableExact(Freed(table, slot), peers[q := p])
  {
    hide PeerOk;
    SlotEntries(table, peers, q, p, slot);
    SlotsListed(table, peers, q, p, slot);
    PeerStep(table, peers, q, p, Freed(table, slot));
  }

  lemma SlotEntries(table: Table, peers: Peers, q: nat, p: Peer, slot: Option<Keypair>)
    requires TableExact(table, peers) && q in peers && p.handshake == peers[q].handshake
    requires forall k :: Live(k, p.keypairs) <==> Live(k, peers[q].keypairs) && Some(k) != slot
    ensures var table' := Freed(table, slot);
            forall i {:trigger table'[i]} :: i in table' && table'[i].peer == q ==> OwnedBy(p, q, i, table'[i])
  {
    var table' := Freed(table, slot);
    forall i | i in table' && table'[i].peer == q ensures OwnedBy(p, q, i, table'[i]) {
      assert OwnedBy(peers[q], q, i, table[i]);
    }
  }

  lemma SlotsListed(table: Table, peers: Peers, q: nat, p: Peer, slot: Option<Keypair>)
    requires TableExact(table, peers) && q in peers && p.handshake == peers[q].handshake
    requires slot.Some? ==> Live(slot.value, peers[q].keypairs)
    requires forall k :: Live(k, p.keypairs) <==> Live(k, peers[q].keypairs) && Some(k) != slot
    ensures PeerListed(Freed(table, slot), p, q) && OthersSame(table, Freed(table, slot), q)
  {
    hide OthersSame, SlotListed, Freed;
    assert PeerListed(table, peers[q], q);
    LiveListed(table, peers[q], q, slot);
    FreedOthers(table, q, slot);
    HandshakeKept(table, peers[q], q, slot);
    KeptListed(table, peers, q, p, slot, p.keypairs.current);
    KeptListed(table, peers, q, p, slot, p.keypairs.previous);
    KeptListed(table, peers, q, p, slot, p.keypairs.next);
  }

  lemma LiveListed(table: Table, p: Peer, q: nat, slot: Option<Keypair>)
    requires PeerListed(table, p, q) && (slot.Some? ==> Live(slot.value, p.keypairs))
    ensures SlotListed(table, q, slot)
  {}

  lemma FreedOthers(table: Table, q: nat, slot: Option<Keypair>)
    requires SlotListed(table, q, slot)
    ensures OthersSame(table, Freed(table, slot), q)
  {}

  lemma HandshakeKept(table: Table, p: Peer, q: nat, slot: Option<Keypair>)
    requires PeerListed(table, p, q) && SlotListed(table, q, slot)
    ensures p.handshake.localIndex != 0 ==>
      && p.handshake.localIndex in Freed(table, slot)
      && Freed(table, slot)[p.handshake.localIndex] == HandshakeEntry(q)
  {}

  lemma KeptListed(table: Table, peers: Peers, q: nat, p: Peer, slot: Option<Keypair>, other: Option<Keypair>)
    requires q in peers && PeerListed(table, peers[q], q) && SlotListed(table, q, slot)
    requires other.Some? ==> Live(other.value, peers[q].keypairs) && other != slot
    ensures SlotListed(Freed(table, slot), q, other)
  {}

  /** The slots hold the live keypairs. */
  lemma Slots(s: Keypairs)
    ensures forall k :: Live(k, s) <==> s.current == Some(k) || s.previous == Some(k) || s.next == Some(k)
  {}

  /** The keypairs after a new one has been put in place. */
  function Rotated(s: Keypairs, k: Keypair): Keypairs {
    if !k.isInitiator then Keypairs(s.current, None, Some(k))
    else if s.next.Some? then Keypairs(Some(k), s.next, None)
    else Keypairs(Some(k), s.current, None)
  }

  /** A new keypair takes over the handshake's index, and two others (or fewer) are dropped. */
  lemma KeypairsRotated(table: Table, peers: Peers, q: nat, p: Peer, k: Keypair, a: Option<Keypair>, b: Option<Keypair>)
    requires TableExact(table, peers) && q in peers && PeerOk(p)
    requires k.localIndex == peers[q].handshake.localIndex != 0 && p.handshake.localIndex == 0
    requires (a.Some? ==> Live(a.value, peers[q].keypairs)) && (b.Some? ==> Live(b.value, peers[q].keypairs))
    requires forall m :: Live(m, p.keypairs) <==> m == k || (Live(m, peers[q].keypairs) && Some(m) != a && Some(m) != b)
    ensures k.localIndex in table
    ensures TableExact(Freed(Freed(table[k.localIndex := KeypairEntry(q, k)], a), b), peers[q := p])
  {
    var table' := Freed(Freed(table[k.localIndex := KeypairEntry(q, k)], a), b);
    assert PeerListed(table, peers[q], q) && PeerOk(peers[q]);
    Slots(p.keypairs);
    RotatedEntries(table, peers, q, p, k, a, b, table');
    RotatedListed(table, peers, q, p, k, a, b, table');
    PeerStep(table, peers, q, p, table');
  }

  lemma RotatedEntries(table: Table, peers: Peers, q: nat, p: Peer, k: Keypair, a: Option<Keypair>, b: Option<Keypair>,
                       table': Table)
    requires TableExact(table, peers) && q in peers
    requires k.localIndex == peers[q].handshake.localIndex != 0 && p.handshake.localIndex == 0
    requires forall m :: Live(m, p.keypairs) <==> m == k || (Live(m, peers[q].keypairs) && Some(m) != a && Some(m) != b)
    requires table' == Freed(Freed(table[k.localIndex := KeypairEntry(q, k)], a), b)
    ensures forall i {:trigger table'[i]} :: i in table' && table'[i].peer == q ==> OwnedBy(p, q, i, table'[i])
  {
    forall i | i in table' && table'[i].peer == q ensures OwnedBy(p, q, i, table'[i]) {
      if i != k.localIndex { assert OwnedBy(peers[q], q, i, table[i]); }
    }
  }

  lemma RotatedListed(table: Table, peers: Peers, q: nat, p: Peer, k: Keypair, a: Option<Keypair>, b: Option<Keypair>,
                      table': Table)
    requires q in peers && PeerListed(table, peers[q], q)
    requires k.localIndex == peers[q].handshake.localIndex != 0 && p.handshake.localIndex == 0
    requires (a.Some? ==> Live(a.value, peers[q].keypairs)) && (b.Some? ==> Live(b.value, peers[q].keypairs))
    requires forall m :: Live(m, p.keypairs) <==> m == k || (Live(m, peers[q].keypairs) && Some(m) != a && Some(m) != b)
    requires table' == Freed(Freed(table[k.localIndex := KeypairEntry(q, k)], a), b)
    ensures PeerListed(table', p, q) && OthersSame(table, table', q)
  {
    Slots(p.keypairs);
    assert forall m :: Live(m, peers[q].keypairs) ==>
      m.localIndex in table && table[m.localIndex] == KeypairEntry(q, m);
    forall m | Live(m, p.keypairs) ensures SlotListed(table', q, Some(m)) {
    }
  }
}

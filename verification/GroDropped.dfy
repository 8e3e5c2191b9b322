/** Two packets: exactly when the first one's buffer is written without a virtio header. */
module GroDropped {
  import opened Wrappers
  import opened Bytes
  import opened GroState
  import opened GroRules
  import opened GroSteps
  import opened GroTcpSteps
  import opened GroTcpMerge
  import opened GroUdpSteps
  import opened GroAccount
  import opened GroOutcomes
  import opened GroHeaders

  /** The second packet goes together with the first one's item, and finds it corrupt. */
  ghost predicate FindsCorrupt(bufs: seq<Buf>, m: TcpMeta, offset: nat)
    requires |bufs| == 2
  {
    match TcpMetaOf(bufs[1].pkt)
    case Some(own) => own.key == m.key && Outcome(bufs[1], own, NewTcpItem(0, m), bufs, offset) == Some(ItemInvalidCSum)
    case None => false
  }

  /** What the two packets have to be for the first one's item to be dropped. */
  ghost predicate DropsFirst(bufs: seq<Buf>, offset: nat)
    requires |bufs| == 2
  {
    match TcpMetaOf(bufs[0].pkt)
    case Some(m) => FindsCorrupt(bufs, m, offset)
    case None => false
  }

  lemma FirstIsTcp(s: Snapshot, s1: Snapshot, offset: nat, canUdp: bool, m: TcpMeta)
    requires Taken(0, s, s1, offset, canUdp) && s.tcp == map[] && |s.bufs| == 2 && TcpMetaOf(s.bufs[0].pkt) == Some(m)
    ensures s1 == s.(tcp := map[m.key := [NewTcpItem(0, m)]], toWrite := s.toWrite + [0])
  {
    hide BufsAfter, ParseTcp, ParseUdp, Outcome;
    var r, scan, at :| TakenAs(0, s, s1, offset, canUdp, r, scan, at);
    SameKind(s.bufs[0].pkt, canUdp);
    EmptyScan(s.bufs[0], m, s.bufs, offset);
    assert r == TableInsert && [] + [NewTcpItem(0, m)] == [NewTcpItem(0, m)];
  }

  lemma SameKind(pkt: seq<Byte>, canUdp: bool)
    ensures TcpMetaOf(pkt).Some? ==> Classify(pkt, canUdp) in {Tcp4, Tcp6}
  {}

  /** The first packet is left alone, or starts a UDP flow. */
  lemma FirstIsNotTcp(s: Snapshot, s1: Snapshot, offset: nat, canUdp: bool)
    requires Taken(0, s, s1, offset, canUdp) && s.udp == map[] && |s.bufs| == 2 && TcpMetaOf(s.bufs[0].pkt) == None
    ensures s1.toWrite == s.toWrite + [0] && s1.bufs == s.bufs
    ensures 0 in s1.hdrs || exists key :: key in s1.udp && 0 in UdpSlots(s1.udp[key])
  {
    hide BufsAfter, ParseTcp, ParseUdp, UdpOutcome;
    var r, scan, at :| TakenAs(0, s, s1, offset, canUdp, r, scan, at);
    match UdpMetaOf(s.bufs[0].pkt, canUdp)
    case None =>
      Kinds(s.bufs[0].pkt, canUdp);
    case Some(m) =>
      var items := s1.udp[m.key];
      assert items[|items| - 1].bufsIndex == 0;
  }

  /** A scan of a single item. */
  lemma ScanOfOne(own: Buf, m: TcpMeta, item: TcpItem, bufs: seq<Buf>, offset: nat, scan: Option<CoalesceResult>,
                  at: nat)
    requires Scanned(own, m, [item], bufs, offset, scan, at)
    ensures at == 0 && scan == Outcome(own, m, item, bufs, offset)
    ensures var left := AfterScan(own, m, [item], bufs, offset, scan, at);
            left == match scan
                    case Some(Success) => [MergedItem(Mode(own.pkt, m, item, bufs), item, m)]
                    case Some(ItemInvalidCSum) => []
                    case _ => [item]
  {
    hide Outcome, Mode, MergedItem;
    assert [item][1..] == [] && [item][0..] == [item] && [item][..0] == [];
    assert Remaining(own, m, [item], bufs, offset)
           == (if Outcome(own, m, item, bufs, offset) == Some(ItemInvalidCSum) then [] else [item])
             + Remaining(own, m, [], bufs, offset);
  }

  /** After the second packet the first one's item is gone exactly when it was found corrupt. */
  lemma SecondTaken(s1: Snapshot, s2: Snapshot, offset: nat, canUdp: bool, m: TcpMeta)
    requires Taken(1, s1, s2, offset, canUdp) && |s1.bufs| == 2
    requires s1.tcp == map[m.key := [NewTcpItem(0, m)]]
    ensures m.key in s2.tcp && (0 in TcpSlots(s2.tcp[m.key]) <==> !FindsCorrupt(s1.bufs, m, offset))
    ensures FindsCorrupt(s1.bufs, m, offset) ==> s2.udp == s1.udp && s2.tcp.Keys == {m.key} && s2.hdrs == s1.hdrs
    ensures forall w :: w in s1.toWrite ==> w in s2.toWrite
  {
    hide BufsAfter, ParseTcp, ParseUdp, Outcome, UdpDone, Mode, Scanned, AfterScan;
    var r, scan, at :| TakenAs(1, s1, s2, offset, canUdp, r, scan, at);
    Kinds(s1.bufs[1].pkt, canUdp);
    SameKind(s1.bufs[1].pkt, canUdp);
    FirstSlot(NewTcpItem(0, m), []);
    match TcpMetaOf(s1.bufs[1].pkt)
    case None =>
    case Some(own) =>
      if own.key == m.key {
        ScanOfOne(s1.bufs[1], own, NewTcpItem(0, m), s1.bufs, offset, scan, at);
        FirstSlot(NewTcpItem(0, m), [NewTcpItem(1, own)]);
        assert [] + [NewTcpItem(1, own)] == [NewTcpItem(1, own)];
      }
  }

  lemma FirstSlot(item: TcpItem, rest: seq<TcpItem>)
    ensures item.bufsIndex in TcpSlots([item] + rest)
    ensures forall i: TcpItem :: TcpSlots([i]) == {i.bufsIndex}
    ensures TcpSlots([]) == {}
  {
    assert ([item] + rest)[0] == item;
    forall i: TcpItem ensures TcpSlots([i]) == {i.bufsIndex} {
      assert [i][0].bufsIndex in TcpSlots([i]);
    }
  }

  /** What the second packet does keeps the first packet's empty header, or its place in its UDP flow. */
  lemma SecondKeeps(s1: Snapshot, s2: Snapshot, offset: nat, canUdp: bool)
    requires Taken(1, s1, s2, offset, canUdp) && |s1.bufs| == 2
    ensures forall w :: w in s1.toWrite ==> w in s2.toWrite
    ensures 0 in s1.hdrs ==> 0 in s2.hdrs
    ensures forall key :: key in s1.udp && 0 in UdpSlots(s1.udp[key]) ==> key in s2.udp && 0 in UdpSlots(s2.udp[key])
  {
    hide BufsAfter, ParseTcp, ParseUdp, UdpOutcome, TcpDone;
    var r, scan, at :| TakenAs(1, s1, s2, offset, canUdp, r, scan, at);
    forall key | key in s1.udp && 0 in UdpSlots(s1.udp[key])
      ensures key in s2.udp && 0 in UdpSlots(s2.udp[key])
    {
      match UdpMetaOf(s1.bufs[1].pkt, canUdp)
      case None =>
      case Some(m) =>
        if m.key == key {
          UdpSlotKept(s1.udp[key], |s1.udp[key]| - 1, Extended(Last(s1.udp[key])));
          UdpSlotAdded(s1.udp[key], NewUdpItem(1, m, true));
          UdpSlotAdded(s1.udp[key], NewUdpItem(1, m, false));
        }
    }
  }

  /** The two turns of a pass over two packets, and what is known after it. */
  ghost predicate PassOfTwo(s: Snapshot, s1: Snapshot, s2: Snapshot, offset: nat, canUdp: bool) {
    && |s.bufs| == 2 && s.tcp == map[] && s.udp == map[] && s.toWrite == [] && s.hdrs == map[]
    && Taken(0, s, s1, offset, canUdp) && Taken(1, s1, s2, offset, canUdp)
  }

  /**
    The first packet is always written. Its buffer goes without a virtio header if and only if the second packet
    continues it (or precedes it) and finds that its checksum does not verify.
   */
  lemma NoHeaderIff(s: Snapshot, s1: Snapshot, s2: Snapshot, offset: nat, canUdp: bool,
                    t: Trace, env: Env, bufs: seq<Buf>, hdrs: map<nat, Written>)
    requires PassOfTwo(s, s1, s2, offset, canUdp)
    requires Inv(bufs, s2.tcp, s2.udp, s2.toWrite, t, env) && |bufs| == 2 && Tracks(s2.tcp, s2.udp, t.groups, env.input)
    requires OnlyPlain(s2.hdrs, t.groups) && Headed(hdrs, s2.toWrite, t.groups, |bufs|)
    ensures 0 in s2.toWrite
    ensures 0 !in hdrs <==> DropsFirst(s.bufs, offset)
  {
    hide Inv, Tracks, Taken, FindsCorrupt, TcpSlots, UdpSlots;
    NextIsNew(bufs, s2.tcp, s2.udp, s2.toWrite, t, env);
    SlotTracked(bufs, s2.tcp, s2.udp, s2.toWrite, t, env, 0);
    match TcpMetaOf(s.bufs[0].pkt)
    case None =>
      FirstIsNotTcp(s, s1, offset, canUdp);
      assert 0 in s1.toWrite;
      SecondKeeps(s1, s2, offset, canUdp);
    case Some(m) =>
      FirstIsTcp(s, s1, offset, canUdp, m);
      assert 0 in s1.toWrite;
      SecondTaken(s1, s2, offset, canUdp, m);
      assert 0 in s2.toWrite && s1.bufs == s.bufs;
      if FindsCorrupt(s.bufs, m, offset) {
        ZeroIsLoose(s2, m.key, t, env);
        assert 0 !in Plains(t.groups);
        assert WasDropped(t.groups[0]);
      } else {
        assert t.groups[0].tracking == InTcp(m.key);
      }
  }

  lemma ZeroIsLoose(s2: Snapshot, key: TcpKey, t: Trace, env: Env)
    requires Tracks(s2.tcp, s2.udp, t.groups, env.input) && 0 in t.groups
    requires s2.udp == map[] && s2.tcp.Keys == {key} && 0 !in TcpSlots(s2.tcp[key])
    ensures t.groups[0].tracking == Loose
  {
    hide TcpSlots, UdpSlots, DroppedCorrupt;
    assert Covered(0, t.groups[0], s2.tcp, s2.udp);
  }
}

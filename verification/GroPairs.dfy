/** Two packets: exactly when receive offload makes one of them. */
module GroPairs {
  import opened Wrappers
  import opened Bytes
  import opened Gso
  import opened GroState
  import opened GroRules
  import opened GroSteps
  import opened GroTcpSteps
  import opened GroTcpMerge
  import opened GroUdpSteps
  import opened GroAccount
  import opened GroOutcomes
  import opened GroFronts
  import opened GroJoins
  import opened GroDropped

  /** Two segments of a flow, one right behind the other, that agree where merging compares and have room. */
  ghost predicate TcpPair(a: Buf, b: Buf, offset: nat) {
    match TcpMetaOf(a.pkt)
    case None => false
    case Some(m) =>
      match TcpMetaOf(b.pkt)
      case None => false
      case Some(n) => m.key == n.key && TcpGoTogether(a, b, m, n, offset)
  }

  ghost predicate TcpGoTogether(a: Buf, b: Buf, m: TcpMeta, n: TcpMeta, offset: nat) {
    && m.tcphLen == n.tcphLen && Compared(b.pkt, a.pkt, n.key.isV6, OptionsAt(n.key.isV6), n.iphLen + n.tcphLen)
    && (|| (n.sentSeq == (m.sentSeq + m.gsoSize) % TWO32 && !m.pshSet && n.gsoSize <= m.gsoSize
            && Room(a, n.gsoSize, a.cap, offset))
        || ((n.sentSeq + n.gsoSize) % TWO32 == m.sentSeq && !n.pshSet && n.gsoSize >= m.gsoSize
            && Room(a, n.gsoSize, b.cap, offset)))
    && ChecksumValid(a.pkt, m.iphLen, IPPROTO_TCP, m.key.isV6)
    && ChecksumValid(b.pkt, n.iphLen, IPPROTO_TCP, n.key.isV6)
  }

  /** Two datagrams of a flow, the second no larger, that agree where merging compares and have room. */
  ghost predicate UdpPair(a: Buf, b: Buf, offset: nat, canUdp: bool) {
    match UdpMetaOf(a.pkt, canUdp)
    case None => false
    case Some(m) =>
      match UdpMetaOf(b.pkt, canUdp)
      case None => false
      case Some(n) => m.key == n.key && UdpGoTogether(a, b, m, n, offset)
  }

  ghost predicate UdpGoTogether(a: Buf, b: Buf, m: UdpMeta, n: UdpMeta, offset: nat) {
    && |b.pkt| <= |a.pkt| && Compared(b.pkt, a.pkt, n.key.isV6, n.iphLen + 8, n.iphLen + 8)
    && Room(a, n.gsoSize, a.cap, offset)
    && ChecksumValid(a.pkt, m.iphLen, IPPROTO_UDP, m.key.isV6)
    && ChecksumValid(b.pkt, n.iphLen, IPPROTO_UDP, n.key.isV6)
  }

  lemma TcpPairIff(a: Buf, b: Buf, m: TcpMeta, n: TcpMeta, offset: nat)
    requires TcpMetaOf(a.pkt) == Some(m) && TcpMetaOf(b.pkt) == Some(n) && m.key == n.key
    ensures Outcome(b, n, NewTcpItem(0, m), [a, b], offset) == Some(Success) <==> TcpGoTogether(a, b, m, n, offset)
  {
    hide TcpMetaOf, TcpCanCoalesce, SameHeaders, Compared, ChecksumValid;
    TcpShaped(a.pkt, m);
    TcpShaped(b.pkt, n);
    SameHeadersIff(b.pkt, n, NewTcpItem(0, m), a.pkt, a.pkt, m.iphLen + m.tcphLen);
    CanIff(b.pkt, n, NewTcpItem(0, m), a.pkt);
    OneItself(m.gsoSize);
    assert LhsLen(NewTcpItem(0, m)) == m.gsoSize;
  }

  lemma OneItself(g: nat)
    requires g > 0
    ensures g % g == 0
  {}

  lemma UdpPairIff(a: Buf, b: Buf, m: UdpMeta, n: UdpMeta, offset: nat, canUdp: bool)
    requires UdpMetaOf(a.pkt, canUdp) == Some(m) && UdpMetaOf(b.pkt, canUdp) == Some(n) && m.key == n.key
    ensures UdpOutcome(b.pkt, n, NewUdpItem(0, m, false), [a, b], offset) == Some(Success)
            <==> UdpGoTogether(a, b, m, n, offset)
  {
    hide UdpMetaOf, IpHeadersCanCoalesce, Compared, ChecksumValid;
    UdpMetaFacts(a.pkt, canUdp, m);
    UdpMetaFacts(b.pkt, canUdp, n);
    UdpSameHeadersIff(b.pkt, canUdp, n, a.pkt, a.pkt, m.iphLen + 8);
    OneItself(m.gsoSize);
  }

  /** The first packet is a datagram. */
  lemma FirstIsUdp(s: Snapshot, s1: Snapshot, offset: nat, canUdp: bool, m: UdpMeta)
    requires Taken(0, s, s1, offset, canUdp) && s.udp == map[] && |s.bufs| == 2
    requires UdpMetaOf(s.bufs[0].pkt, canUdp) == Some(m)
    ensures s1 == s.(udp := map[m.key := [NewUdpItem(0, m, false)]], toWrite := s.toWrite + [0])
  {
    hide UdpBufsAfter, ParseTcp, ParseUdp, UdpOutcome, TcpDone;
    var r, scan, at :| TakenAs(0, s, s1, offset, canUdp, r, scan, at);
    OnlyTcp(s.bufs[0].pkt, canUdp);
    assert [] + [NewUdpItem(0, m, false)] == [NewUdpItem(0, m, false)];
  }

  /** The first packet is neither. */
  lemma FirstIsOther(s: Snapshot, s1: Snapshot, offset: nat, canUdp: bool)
    requires Taken(0, s, s1, offset, canUdp) && |s.bufs| == 2
    requires TcpMetaOf(s.bufs[0].pkt) == None && UdpMetaOf(s.bufs[0].pkt, canUdp) == None
    ensures s1 == s.(toWrite := s.toWrite + [0], hdrs := s.hdrs[0 := Plain])
  {
    hide ParseTcp, ParseUdp;
    var r, scan, at :| TakenAs(0, s, s1, offset, canUdp, r, scan, at);
  }

  /** The second packet, when it is of TCP. */
  lemma SecondTcp(s1: Snapshot, s2: Snapshot, offset: nat, canUdp: bool, n: TcpMeta)
    requires Taken(1, s1, s2, offset, canUdp) && |s1.bufs| == 2 && TcpMetaOf(s1.bufs[1].pkt) == Some(n)
    requires |ItemsOf(s1.tcp, n.key)| <= 1
    ensures var items := ItemsOf(s1.tcp, n.key);
            s2.toWrite == if items != [] && Outcome(s1.bufs[1], n, items[0], s1.bufs, offset) == Some(Success)
                          then s1.toWrite else s1.toWrite + [1]
  {
    hide BufsAfter, ParseTcp, ParseUdp, Outcome, UdpDone, Mode, AfterScan;
    var r, scan, at :| TakenAs(1, s1, s2, offset, canUdp, r, scan, at);
    OnlyTcp(s1.bufs[1].pkt, canUdp);
  }

  lemma SecondUdp(s1: Snapshot, s2: Snapshot, offset: nat, canUdp: bool, n: UdpMeta)
    requires Taken(1, s1, s2, offset, canUdp) && |s1.bufs| == 2 && UdpMetaOf(s1.bufs[1].pkt, canUdp) == Some(n)
    ensures var items := Datagrams(s1.udp, n.key);
            s2.toWrite == if items != [] && UdpOutcome(s1.bufs[1].pkt, n, Last(items), s1.bufs, offset) == Some(Success)
                          then s1.toWrite else s1.toWrite + [1]
  {
    hide UdpBufsAfter, ParseTcp, ParseUdp, UdpOutcome, TcpDone;
    var r, scan, at :| TakenAs(1, s1, s2, offset, canUdp, r, scan, at);
    OnlyTcp(s1.bufs[1].pkt, canUdp);
  }

  lemma SecondOther(s1: Snapshot, s2: Snapshot, offset: nat, canUdp: bool)
    requires Taken(1, s1, s2, offset, canUdp) && |s1.bufs| == 2
    requires TcpMetaOf(s1.bufs[1].pkt) == None && UdpMetaOf(s1.bufs[1].pkt, canUdp) == None
    ensures s2.toWrite == s1.toWrite + [1]
  {
    hide ParseTcp, ParseUdp;
    var r, scan, at :| TakenAs(1, s1, s2, offset, canUdp, r, scan, at);
  }

  /** Only the first of two packets is written, for both, exactly when the two go together. */
  lemma PairListed(s: Snapshot, s1: Snapshot, s2: Snapshot, offset: nat, canUdp: bool)
    requires PassOfTwo(s, s1, s2, offset, canUdp)
    ensures s2.toWrite == if TcpPair(s.bufs[0], s.bufs[1], offset) || UdpPair(s.bufs[0], s.bufs[1], offset, canUdp)
                          then [0] else [0, 1]
  {
    hide Taken, TcpMetaOf, UdpMetaOf, Outcome, UdpOutcome, TcpGoTogether, UdpGoTogether;
    var a, b := s.bufs[0], s.bufs[1];
    assert s.bufs == [a, b];
    NotBothKinds(a.pkt, canUdp);
    NotBothKinds(b.pkt, canUdp);
    match TcpMetaOf(a.pkt) {
      case Some(m) =>
        FirstIsTcp(s, s1, offset, canUdp, m);
        if TcpMetaOf(b.pkt).Some? && TcpMetaOf(b.pkt).value.key == m.key {
          TcpPairIff(a, b, m, TcpMetaOf(b.pkt).value, offset);
        }
      case None =>
        match UdpMetaOf(a.pkt, canUdp) {
          case Some(m) =>
            FirstIsUdp(s, s1, offset, canUdp, m);
            if UdpMetaOf(b.pkt, canUdp).Some? && UdpMetaOf(b.pkt, canUdp).value.key == m.key {
              UdpPairIff(a, b, m, UdpMetaOf(b.pkt, canUdp).value, offset, canUdp);
            }
          case None => FirstIsOther(s, s1, offset, canUdp);
        }
    }
    assert s1.toWrite == [0] && s1.bufs == s.bufs;
    match TcpMetaOf(b.pkt) {
      case Some(n) => SecondTcp(s1, s2, offset, canUdp, n);
      case None =>
        match UdpMetaOf(b.pkt, canUdp) {
          case Some(n) => SecondUdp(s1, s2, offset, canUdp, n);
          case None => SecondOther(s1, s2, offset, canUdp);
        }
    }
  }

  lemma NotBothKinds(pkt: seq<Byte>, canUdp: bool)
    ensures TcpMetaOf(pkt) == None || UdpMetaOf(pkt, canUdp) == None
  {
    OnlyTcp(pkt, canUdp);
  }
}

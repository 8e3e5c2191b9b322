/** Which packets receive offload looks at, what it reads from them, and when two are of one flow, byte by byte. */
module GroParses {
  import opened Wrappers
  import opened Bytes
  import opened Gso
  import opened GroRules
  import opened GroSteps

  /** Where the transport header starts. */
  function After(isV6: bool): nat { if isV6 then 40 else 20 }

  /** An IP header without options or extensions whose length field covers the packet, which is not a fragment. */
  predicate IpRead(pkt: seq<Byte>, isV6: bool, proto: Byte) {
    && After(isV6) <= |pkt| <= MAX_PACKET
    && if isV6 then HighNibble(pkt[0]) == 6 && pkt[6] == proto && Read16(pkt, 4) as int == |pkt| - 40
       else
         && pkt[0] == 0x45 && pkt[9] == proto && Read16(pkt, 2) as int == |pkt|
         && pkt[6] % 64 == 0 && pkt[7] == 0
  }

  /** A TCP segment with a payload and no flags but ACK and perhaps PSH. */
  predicate TcpRead(pkt: seq<Byte>, isV6: bool) {
    && IpRead(pkt, isV6, IPPROTO_TCP) && After(isV6) + 20 <= |pkt|
    && 5 <= HighNibble(pkt[After(isV6) + 12]) && After(isV6) + 4 * HighNibble(pkt[After(isV6) + 12]) < |pkt|
    && pkt[After(isV6) + 13] in {0x10, 0x18}
  }

  predicate UdpRead(pkt: seq<Byte>, isV6: bool) { IpRead(pkt, isV6, IPPROTO_UDP) && After(isV6) + 8 < |pkt| }

  predicate AddressesRead(pkt: seq<Byte>, isV6: bool, src: seq<Byte>, dst: seq<Byte>) {
    var at, n := if isV6 then 8 else 12, if isV6 then 16 else 4;
    at + 2 * n <= |pkt| && pkt[at..at + n] == src && pkt[at + n..at + 2 * n] == dst
  }

  lemma FragmentedIff(pkt: seq<Byte>)
    requires |pkt| >= 8
    ensures Fragmented(pkt) <==> pkt[6] % 64 != 0 || pkt[7] != 0
  {
    SixBits(pkt[6]);
  }

  lemma SixBits(b: Byte)
    ensures b / 32 % 2 != 0 || b * 8 % 256 != 0 <==> b % 64 != 0
  {}

  lemma TcpReadIff(pkt: seq<Byte>)
    ensures TcpMetaOf(pkt).Some? <==> TcpRead(pkt, false) || TcpRead(pkt, true)
  {
    hide Fragmented, Read16, Read32;
    if |pkt| >= 8 { FragmentedIff(pkt); }
  }

  lemma UdpReadIff(pkt: seq<Byte>, canUdp: bool)
    ensures UdpMetaOf(pkt, canUdp).Some? <==> canUdp && (UdpRead(pkt, false) || UdpRead(pkt, true))
  {
    hide Fragmented, Read16, Read32;
    if |pkt| >= 8 { FragmentedIff(pkt); }
  }

  lemma TcpHeaderRead(pkt: seq<Byte>, m: TcpMeta)
    requires TcpMetaOf(pkt) == Some(m)
    ensures TcpRead(pkt, m.key.isV6) && AddressesRead(pkt, m.key.isV6, m.key.src, m.key.dst)
    ensures m.iphLen == After(m.key.isV6) && m.tcphLen == 4 * HighNibble(pkt[m.iphLen + 12])
    ensures |pkt| == m.iphLen + m.tcphLen + m.gsoSize && (m.pshSet <==> pkt[m.iphLen + 13] == 0x18)
    ensures Read16(pkt, m.iphLen) == m.key.srcPort && Read16(pkt, m.iphLen + 2) == m.key.dstPort
    ensures Read32(pkt, m.iphLen + 4) == m.sentSeq && Read32(pkt, m.iphLen + 8) == m.key.rxAck
  {
    hide Fragmented, Read16, Read32;
    FragmentedIff(pkt);
    assert m.key == TcpKeyOf(pkt, m.key.isV6, m.iphLen);
  }

  lemma UdpHeaderRead(pkt: seq<Byte>, canUdp: bool, m: UdpMeta)
    requires UdpMetaOf(pkt, canUdp) == Some(m)
    ensures UdpRead(pkt, m.key.isV6) && AddressesRead(pkt, m.key.isV6, m.key.src, m.key.dst)
    ensures m.iphLen == After(m.key.isV6) && |pkt| == m.iphLen + 8 + m.gsoSize
    ensures Read16(pkt, m.iphLen) == m.key.srcPort && Read16(pkt, m.iphLen + 2) == m.key.dstPort
  {
    hide Fragmented, Read16, Read32;
    FragmentedIff(pkt);
    assert m.key == UdpKeyOf(pkt, m.key.isV6, m.iphLen);
  }

  lemma SameWord(a: seq<Byte>, b: seq<Byte>, at: nat)
    requires at + 2 <= |a| && at + 2 <= |b|
    ensures Read16(a, at) == Read16(b, at) <==> a[at] == b[at] && a[at + 1] == b[at + 1]
  {}

  /** The two agree on their addresses and on the bytes of the transport header from c up to n. */
  predicate Agree(a: seq<Byte>, b: seq<Byte>, isV6: bool, n: nat) {
    var at, size := if isV6 then 8 else 12, if isV6 then 32 else 8;
    && After(isV6) + n <= |a| && After(isV6) + n <= |b|
    && (forall i :: at <= i < at + size ==> a[i] == b[i])
    && forall i :: After(isV6) <= i < After(isV6) + n ==> a[i] == b[i]
  }

  lemma SameAddresses(a: seq<Byte>, b: seq<Byte>, isV6: bool, src: seq<Byte>, dst: seq<Byte>,
                      src': seq<Byte>, dst': seq<Byte>)
    requires AddressesRead(a, isV6, src, dst) && AddressesRead(b, isV6, src', dst')
    ensures var at, size := if isV6 then 8 else 12, if isV6 then 32 else 8;
            src == src' && dst == dst' <==> forall i :: at <= i < at + size ==> a[i] == b[i]
  {
    var at, n := if isV6 then 8 else 12, if isV6 then 16 else 4;
    if src == src' && dst == dst' {
      forall i | at <= i < at + 2 * n ensures a[i] == b[i] {
        if i < at + n { assert a[at..at + n][i - at] == b[at..at + n][i - at]; }
        else { assert a[at + n..at + 2 * n][i - at - n] == b[at + n..at + 2 * n][i - at - n]; }
      }
    }
  }

  /** Segments are of one flow when they have the same version, addresses, ports and acknowledgement number. */
  lemma TcpFlowIff(a: seq<Byte>, b: seq<Byte>, m: TcpMeta, n: TcpMeta)
    requires TcpMetaOf(a) == Some(m) && TcpMetaOf(b) == Some(n)
    ensures m.key == n.key <==>
      && m.key.isV6 == n.key.isV6 && Agree(a, b, m.key.isV6, 4)
      && forall i :: m.iphLen + 8 <= i < m.iphLen + 12 ==> a[i] == b[i]
  {
    hide TcpMetaOf, Read16, AddressesRead, IpRead;
    TcpHeaderRead(a, m);
    TcpHeaderRead(b, n);
    if m.key.isV6 == n.key.isV6 {
      SameAddresses(a, b, m.key.isV6, m.key.src, m.key.dst, n.key.src, n.key.dst);
      SameWord(a, b, m.iphLen);
      SameWord(a, b, m.iphLen + 2);
      SameWord(a, b, m.iphLen + 8);
      SameWord(a, b, m.iphLen + 10);
    }
  }

  /** Datagrams are of one flow when they have the same version, addresses and ports. */
  lemma UdpFlowIff(a: seq<Byte>, b: seq<Byte>, canUdp: bool, m: UdpMeta, n: UdpMeta)
    requires UdpMetaOf(a, canUdp) == Some(m) && UdpMetaOf(b, canUdp) == Some(n)
    ensures m.key == n.key <==> m.key.isV6 == n.key.isV6 && Agree(a, b, m.key.isV6, 4)
  {
    hide UdpMetaOf, Read16, AddressesRead, IpRead;
    UdpHeaderRead(a, canUdp, m);
    UdpHeaderRead(b, canUdp, n);
    if m.key.isV6 == n.key.isV6 {
      SameAddresses(a, b, m.key.isV6, m.key.src, m.key.dst, n.key.src, n.key.dst);
      SameWord(a, b, m.iphLen);
      SameWord(a, b, m.iphLen + 2);
    }
  }
}

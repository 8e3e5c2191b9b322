/** The pure rules of receive offload: which packets are candidates, and which may be merged. */
module GroRules {
  import opened Wrappers
  import opened Bytes
  import opened Gso
  import opened GroState

  datatype Candidate = NotCandidate | Tcp4 | Tcp6 | Udp4 | Udp6

  function HighNibble(b: Byte): nat { (b as int) / 16 }

  function LowNibble(b: Byte): nat { (b as int) % 16 }

  /** packetIsGROCandidate */
  function Classify(b: seq<Byte>, canUdp: bool): Candidate {
    if |b| < 28 then NotCandidate
    else if HighNibble(b[0]) == 4 then
      if LowNibble(b[0]) != 5 then NotCandidate
      else if b[9] == IPPROTO_TCP && |b| >= 40 then Tcp4
      else if b[9] == IPPROTO_UDP && canUdp then Udp4
      else NotCandidate
    else if HighNibble(b[0]) == 6 then
      if b[6] == IPPROTO_TCP && |b| >= 60 then Tcp6
      else if b[6] == IPPROTO_UDP && |b| >= 48 && canUdp then Udp6
      else NotCandidate
    else NotCandidate
  }

  function IphLen(pkt: seq<Byte>, isV6: bool): nat
    requires pkt != []
  {
    if isV6 then 40 else LowNibble(pkt[0]) * 4
  }

  /** The length field of the IP header agrees with the packet. */
  predicate LengthAgrees(pkt: seq<Byte>, isV6: bool)
    requires |pkt| >= 28
  {
    if isV6 then Read16(pkt, 4) as int == |pkt| - 40 else Read16(pkt, 2) as int == |pkt|
  }

  /** More-fragments flag, reserved low bits or fragment offset set. */
  predicate Fragmented(pkt: seq<Byte>)
    requires |pkt| >= 8
  {
    (pkt[6] as int) / 32 % 2 != 0 || (pkt[6] as int) * 8 % 256 != 0 || pkt[7] != 0
  }

  const FLAG_ACK: Byte := 0x10
  const FLAG_ACK_PSH: Byte := 0x18

  /** What tcpGRO reads from a packet before it consults the table. */
  datatype TcpMeta = TcpMeta(iphLen: nat, tcphLen: nat, pshSet: bool, gsoSize: Uint16, sentSeq: Uint32, key: TcpKey)

  function TcpKeyOf(pkt: seq<Byte>, isV6: bool, tcphAt: nat): TcpKey
    requires SrcAddrOffset(isV6) + 2 * AddrLen(isV6) <= |pkt| && tcphAt + 12 <= |pkt|
  {
    var at, n := SrcAddrOffset(isV6), AddrLen(isV6);
    TcpKey(pkt[at..at + n], pkt[at + n..at + 2 * n],
           Read16(pkt, tcphAt), Read16(pkt, tcphAt + 2), Read32(pkt, tcphAt + 8), isV6)
  }

  /** The first half of tcpGRO; None is groResultNoop. */
  function ParseTcp(pkt: seq<Byte>, isV6: bool): Option<TcpMeta>
    requires Classify(pkt, false) == if isV6 then Tcp6 else Tcp4
  {
    var iph := IphLen(pkt, isV6);
    if |pkt| > MAX_PACKET || !LengthAgrees(pkt, isV6) || |pkt| < iph then None
    else
      var tcph := HighNibble(pkt[iph + 12]) * 4;
      if tcph < 20 || tcph > 60 || |pkt| < iph + tcph then None
      else if !isV6 && Fragmented(pkt) then None
      else
        var flags := pkt[iph + TCP_FLAGS_OFFSET];
        if flags != FLAG_ACK && flags != FLAG_ACK_PSH then None
        else if |pkt| - tcph - iph < 1 then None
        else Some(TcpMeta(iph, tcph, flags != FLAG_ACK, |pkt| - tcph - iph,
                          Read32(pkt, iph + 4), TcpKeyOf(pkt, isV6, iph)))
  }

  /** What udpGRO reads from a packet before it consults the table. */
  datatype UdpMeta = UdpMeta(iphLen: nat, gsoSize: Uint16, key: UdpKey)

  function UdpKeyOf(pkt: seq<Byte>, isV6: bool, udphAt: nat): UdpKey
    requires SrcAddrOffset(isV6) + 2 * AddrLen(isV6) <= |pkt| && udphAt + 4 <= |pkt|
  {
    var at, n := SrcAddrOffset(isV6), AddrLen(isV6);
    UdpKey(pkt[at..at + n], pkt[at + n..at + 2 * n], Read16(pkt, udphAt), Read16(pkt, udphAt + 2), isV6)
  }

  /** The first half of udpGRO; None is groResultNoop. */
  function ParseUdp(pkt: seq<Byte>, isV6: bool): Option<UdpMeta>
    requires Classify(pkt, true) == if isV6 then Udp6 else Udp4
  {
    var iph := IphLen(pkt, isV6);
    if |pkt| > MAX_PACKET || !LengthAgrees(pkt, isV6) || |pkt| < iph + 8 then None
    else if !isV6 && Fragmented(pkt) then None
    else if |pkt| - 8 - iph < 1 then None
    else Some(UdpMeta(iph, |pkt| - 8 - iph, UdpKeyOf(pkt, isV6, iph)))
  }

  datatype CanCoalesce = Prepend | Unavailable | Append

  predicate IpHeadersCanCoalesce(a: seq<Byte>, b: seq<Byte>) {
    && |a| >= 9 && |b| >= 9
    && if HighNibble(a[0]) == 6 then
         a[0] == b[0] && HighNibble(a[1]) == HighNibble(b[1]) && a[7] == b[7]
       else
         a[1] == b[1] && (a[6] as int) / 32 == (b[6] as int) / 32 && a[8] == b[8]
  }

  /** udpPacketsCanCoalesce, for a packet with payload length gsoSize and the item's buffer. */
  function UdpCanCoalesce(pkt: seq<Byte>, iphLen: nat, gsoSize: Uint16, item: UdpItem, target: seq<Byte>): CanCoalesce
    requires iphLen + 8 <= |target| && item.gsoSize > 0
  {
    if !IpHeadersCanCoalesce(pkt, target) then Unavailable
    else if (|target| - iphLen - 8) % item.gsoSize != 0 then Unavailable
    else if gsoSize > item.gsoSize then Unavailable
    else Append
  }

  /** item.gsoSize + item.numMerged * item.gsoSize, as the 16-bit arithmetic computes it. */
  function LhsLen(item: TcpItem): Uint16 {
    (item.gsoSize + item.numMerged * item.gsoSize % TWO16) % TWO16
  }

  /** tcpPacketsCanCoalesce */
  function TcpCanCoalesce(pkt: seq<Byte>, m: TcpMeta, item: TcpItem, target: seq<Byte>): CanCoalesce
    requires m.iphLen + m.tcphLen <= |pkt| && item.iphLen == m.iphLen
    requires item.iphLen + item.tcphLen <= |target| && item.gsoSize > 0
  {
    if m.tcphLen != item.tcphLen then Unavailable
    else if m.tcphLen > 20 &&
            pkt[m.iphLen + 20..m.iphLen + m.tcphLen] != target[item.iphLen + 20..m.iphLen + m.tcphLen]
    then Unavailable
    else if !IpHeadersCanCoalesce(pkt, target) then Unavailable
    else if m.sentSeq == (item.sentSeq + LhsLen(item)) % TWO32 then
      if item.pshSet then Unavailable
      else if (|target| - m.iphLen - m.tcphLen) % item.gsoSize != 0 then Unavailable
      else if m.gsoSize > item.gsoSize then Unavailable
      else Append
    else if (m.sentSeq + m.gsoSize) % TWO32 == item.sentSeq then
      if m.pshSet then Unavailable
      else if m.gsoSize < item.gsoSize then Unavailable
      else if m.gsoSize > item.gsoSize && item.numMerged > 0 then Unavailable
      else Prepend
    else Unavailable
  }
}

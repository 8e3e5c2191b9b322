/** Receive offload followed by segmentation: every packet comes back. */
module GroRoundTrip {
  import opened Wrappers
  import opened Bytes
  import opened InternetChecksum
  import opened Gso
  import opened GroState
  import opened GroRules
  import opened GroRuns
  import opened GroTables
  import opened GroSteps
  import opened GroParses
  import opened GroTcpSteps
  import opened GroAccount
  import opened GroFlows
  import opened GroOutcomes
  import opened GroHeaders
  import opened GroFronts
  import opened Gro

  /**
    Header bytes that do not come back: IPv4 ID and header checksum, or those of the IPv6 flow label; of TCP the
    reserved bits, window, checksum and urgent pointer; of UDP length and checksum. The lower half of the traffic class
    shares a byte with the flow label, and data offset and flags are part of what is parsed.
   */
  predicate Forgotten(tcp: bool, isV6: bool, j: nat) {
    var c := if isV6 then 40 else 20;
    || (if isV6 then 1 <= j < 4 else 4 <= j < 6 || 10 <= j < 12)
    || (if tcp then c + 12 <= j < c + 20 else c + 4 <= j < c + 8)
  }

  /** All other header bytes are the same, and so is the lower half of an IPv6 traffic class. */
  ghost predicate SameHeader(seg: seq<Byte>, pkt: seq<Byte>, tcp: bool, isV6: bool, h: nat) {
    && 2 <= h <= |seg| && h <= |pkt|
    && (isV6 ==> HighNibble(seg[1]) == HighNibble(pkt[1]))
    && forall j :: 0 <= j < h && !Forgotten(tcp, isV6, j) ==> seg[j] == pkt[j]
  }

  /**
    seg parses as the packet does, with its PSH exactly if withPsh,
    and has the same header bytes but for those forgotten;
    it carries the same payload under a checksum that verifies.
   */
  ghost predicate TcpRestored(seg: seq<Byte>, pkt: seq<Byte>, m: TcpMeta, withPsh: bool) {
    && |seg| == |pkt| && TcpMetaOf(seg) == Some(m.(pshSet := m.pshSet && withPsh))
    && SameHeader(seg, pkt, true, m.key.isV6, m.iphLen + m.tcphLen)
    && seg[m.iphLen + m.tcphLen..] == pkt[m.iphLen + m.tcphLen..]
    && ChecksumValid(seg, m.iphLen, IPPROTO_TCP, m.key.isV6)
  }

  ghost predicate UdpRestored(seg: seq<Byte>, pkt: seq<Byte>, m: UdpMeta, canUdp: bool) {
    && |seg| == |pkt| && UdpMetaOf(seg, canUdp) == Some(m)
    && SameHeader(seg, pkt, false, m.key.isV6, m.iphLen + 8)
    && seg[m.iphLen + 8..] == pkt[m.iphLen + 8..]
    && ChecksumValid(seg, m.iphLen, IPPROTO_UDP, m.key.isV6)
  }

  ghost predicate Restored(seg: seq<Byte>, pkt: seq<Byte>, canUdp: bool, withPsh: bool) {
    match TcpMetaOf(pkt)
    case Some(m) => TcpRestored(seg, pkt, m, withPsh)
    case None =>
      match UdpMetaOf(pkt, canUdp)
      case Some(m) => UdpRestored(seg, pkt, m, canUdp)
      case None => false
  }

  /** The segments are the merged packets of the group, in its order, with PSH unless the first one came in later. */
  ghost predicate MergedRestored(outs: seq<seq<Byte>>, g: Group, input: seq<seq<Byte>>, canUdp: bool) {
    && |outs| == |g.members| > 1
    && forall i {:trigger outs[i]} {:trigger g.members[i]} :: 0 <= i < |outs| ==>
         g.members[i] < |input| && Restored(outs[i], input[g.members[i]], canUdp, g.members[0] <= g.members[i])
  }

  /** A packet that was not merged comes back as it was. */
  ghost predicate AllRestored(outs: seq<seq<Byte>>, g: Group, input: seq<seq<Byte>>, canUdp: bool) {
    if |g.members| == 1 then g.members[0] < |input| && outs == [input[g.members[0]]]
    else MergedRestored(outs, g, input, canUdp)
  }

  // ----- the headers of a segment

  /** Header bytes that accounting or segmentation set anew. */
  predicate Renewed(hdr: Header, isV6: bool, j: nat) {
    var c := hdr.csumStart;
    || (if isV6 then 4 <= j < 6 else 2 <= j < 6 || 10 <= j < 12)
    || c + 4 <= j < c + 8
    || (hdr.tcp && (j == c + TCP_FLAGS_OFFSET || c + 16 <= j < c + 18))
  }

  /** The other header bytes are those of the first packet of the group. */
  lemma HeaderBytes(first: seq<Byte>, q: seq<Byte>, p: seq<Byte>, seg: seq<Byte>, hdr: Header, isV6: bool,
                    but: nat, i: nat, data: seq<Byte>, last: bool)
    requires hdr.Fits(isV6, |q|) && hdr.Fits(isV6, |p|)
    requires SameFront(q, first, hdr.hdrLen, but) && (but < hdr.hdrLen ==> Renewed(hdr, isV6, but))
    requires HeadersFixed(q, p, hdr, isV6) && SegmentOk(seg, p, hdr, isV6, i, data, last)
    ensures |seg| >= hdr.hdrLen
    ensures forall j :: 0 <= j < hdr.hdrLen && !Renewed(hdr, isV6, j) ==> seg[j] == first[j]
  {
    hide ChecksumValid, Norm, Sum, PseudoSum, Read16, Read32;
    var c, h := hdr.csumStart, hdr.hdrLen;
    forall j | 0 <= j < h && !Renewed(hdr, isV6, j) ensures seg[j] == first[j] {
      assert p[j] == q[j] == first[j];
      if j < c {
        assert seg[..c][j] == p[..c][j];
      } else {
        assert seg[c..h][j - c] == p[c..h][j - c];
      }
    }
  }

  /** The sequence number and the flags of a segment, and its lengths. */
  lemma TcpFields(first: seq<Byte>, q: seq<Byte>, p: seq<Byte>, seg: seq<Byte>, hdr: Header, isV6: bool,
                  i: nat, data: seq<Byte>, last: bool)
    requires hdr.tcp && hdr.Fits(isV6, |q|) && hdr.Fits(isV6, |p|) && hdr.csumStart == if isV6 then 40 else 20
    requires SameFront(q, first, hdr.hdrLen, FlagsAt(isV6))
    requires HeadersFixed(q, p, hdr, isV6) && SegmentOk(seg, p, hdr, isV6, i, data, last)
    ensures |seg| == hdr.hdrLen + |data|
    ensures Read32(seg, hdr.csumStart + 4) == (Read32(first, hdr.csumStart + 4) + i * hdr.gsoSize) % TWO32
    ensures if last then seg[FlagsAt(isV6)] == q[FlagsAt(isV6)]
            else FinPshCleared(seg[FlagsAt(isV6)], q[FlagsAt(isV6)])
    ensures if isV6 then Read16(seg, 4) as int == |seg| - 40 else Read16(seg, 2) as int == |seg|
  {
    hide ChecksumValid, Norm, Sum, PseudoSum;
    var c, h := hdr.csumStart, hdr.hdrLen;
    var th, from := seg[c..h], p[c..h];
    assert forall k :: 4 <= k < 8 ==> th[k] == seg[c + k] && from[k] == p[c + k] == q[c + k] == first[c + k];
    assert th[TCP_FLAGS_OFFSET] == seg[c + TCP_FLAGS_OFFSET] && from[TCP_FLAGS_OFFSET] == p[c + TCP_FLAGS_OFFSET];
    assert p[FlagsAt(isV6)] == q[FlagsAt(isV6)];
  }

  /** Bytes that decide what the first packet is decide the same for the segment. */
  lemma TcpParsesLike(first: seq<Byte>, seg: seq<Byte>, hdr: Header, m: TcpMeta, n: nat)
    requires TcpMetaOf(first) == Some(m) && hdr.tcp && hdr.csumStart == m.iphLen && hdr.hdrLen == m.iphLen + m.tcphLen
    requires n > 0 && |seg| == hdr.hdrLen + n <= MAX_PACKET
    requires forall j :: 0 <= j < hdr.hdrLen && !Renewed(hdr, m.key.isV6, j) ==> seg[j] == first[j]
    requires seg[FlagsAt(m.key.isV6)] == FLAG_ACK || seg[FlagsAt(m.key.isV6)] == FLAG_ACK_PSH
    requires if m.key.isV6 then Read16(seg, 4) as int == |seg| - 40 else Read16(seg, 2) as int == |seg|
    ensures TcpMetaOf(seg) == Some(TcpMeta(m.iphLen, m.tcphLen, seg[FlagsAt(m.key.isV6)] == FLAG_ACK_PSH, n,
                                           Read32(seg, m.iphLen + 4), m.key))
  {
    hide Renewed, Read32, Read16, TcpKeyOf;
    TcpMetaFacts(first, m);
    DecidingBytes(first, seg, hdr, m.key.isV6);
    TcpKeyKept(first, seg, hdr, m.key.isV6);
  }

  lemma DecidingBytes(first: seq<Byte>, seg: seq<Byte>, hdr: Header, isV6: bool)
    requires hdr.csumStart == (if isV6 then 40 else 20) && hdr.csumStart + (if hdr.tcp then 20 else 8) <= hdr.hdrLen
    requires hdr.hdrLen <= |first| && hdr.hdrLen <= |seg|
    requires forall j :: 0 <= j < hdr.hdrLen && !Renewed(hdr, isV6, j) ==> seg[j] == first[j]
    ensures seg[0] == first[0] && (hdr.tcp ==> seg[hdr.csumStart + 12] == first[hdr.csumStart + 12])
    ensures if isV6 then seg[6] == first[6] else seg[9] == first[9] && seg[6] == first[6] && seg[7] == first[7]
  {}

  lemma TcpKeyKept(first: seq<Byte>, seg: seq<Byte>, hdr: Header, isV6: bool)
    requires hdr.tcp && hdr.csumStart == (if isV6 then 40 else 20) && hdr.csumStart + 20 <= hdr.hdrLen
    requires hdr.hdrLen <= |first| && hdr.hdrLen <= |seg|
    requires forall j :: 0 <= j < hdr.hdrLen && !Renewed(hdr, isV6, j) ==> seg[j] == first[j]
    ensures TcpKeyOf(first, isV6, hdr.csumStart) == TcpKeyOf(seg, isV6, hdr.csumStart)
  {
    hide TcpKeyOf;
    SameTcpKey(first, seg, isV6, hdr.csumStart);
  }

  lemma SameTcpKey(a: seq<Byte>, b: seq<Byte>, isV6: bool, c: nat)
    requires c == (if isV6 then 40 else 20) && c + 12 <= |a| && c + 12 <= |b|
    requires forall j :: (if isV6 then 8 else 12) <= j < c + 12 && !(c + 4 <= j < c + 8) ==> a[j] == b[j]
    ensures TcpKeyOf(a, isV6, c) == TcpKeyOf(b, isV6, c)
  {
    var at, n := SrcAddrOffset(isV6), AddrLen(isV6);
    assert a[at..at + n] == b[at..at + n] && a[at + n..at + 2 * n] == b[at + n..at + 2 * n];
  }

  lemma UdpFields(p: seq<Byte>, seg: seq<Byte>, hdr: Header, isV6: bool, i: nat, data: seq<Byte>, last: bool)
    requires hdr.Fits(isV6, |p|) && hdr.csumStart == if isV6 then 40 else 20
    requires SegmentOk(seg, p, hdr, isV6, i, data, last)
    ensures |seg| == hdr.hdrLen + |data|
    ensures if isV6 then Read16(seg, 4) as int == |seg| - 40 else Read16(seg, 2) as int == |seg|
  {
    hide ChecksumValid, Norm, Sum, PseudoSum;
  }

  lemma UdpParsesLike(first: seq<Byte>, seg: seq<Byte>, hdr: Header, m: UdpMeta, canUdp: bool, n: nat)
    requires UdpMetaOf(first, canUdp) == Some(m) && !hdr.tcp && hdr.csumStart == m.iphLen && hdr.hdrLen == m.iphLen + 8
    requires n > 0 && |seg| == hdr.hdrLen + n <= MAX_PACKET
    requires forall j :: 0 <= j < hdr.hdrLen && !Renewed(hdr, m.key.isV6, j) ==> seg[j] == first[j]
    requires if m.key.isV6 then Read16(seg, 4) as int == |seg| - 40 else Read16(seg, 2) as int == |seg|
    ensures UdpMetaOf(seg, canUdp) == Some(UdpMeta(m.iphLen, n, m.key))
  {
    UdpMetaFacts(first, canUdp, m);
    DecidingBytes(first, seg, hdr, m.key.isV6);
    var at, k := SrcAddrOffset(m.key.isV6), AddrLen(m.key.isV6);
    assert seg[at..at + k] == first[at..at + k] && seg[at + k..at + 2 * k] == first[at + k..at + 2 * k];
  }

  // ----- the packets of an item

  /** A segment cut from a buffer with the headers of `first` is the packet whose payload it carries. */
  lemma TcpSegment(first: seq<Byte>, m0: TcpMeta, own: seq<Byte>, m: TcpMeta, q: seq<Byte>, p: seq<Byte>,
                   hdr: Header, i: nat, last: bool, seg: seq<Byte>, withPsh: bool)
    requires TcpMetaOf(first) == Some(m0) && |own| <= MAX_PACKET
    requires m.key == m0.key && m.iphLen == m0.iphLen && m.tcphLen == m0.tcphLen && m.gsoSize > 0
    requires hdr.tcp && hdr.csumStart == m.iphLen && hdr.hdrLen == m.iphLen + m.tcphLen
    requires |own| == hdr.hdrLen + m.gsoSize
    requires TcpMetaOf(own) == Some(m) && Compared(q, own, m.key.isV6, OptionsAt(m.key.isV6), hdr.hdrLen)
    requires m.sentSeq == (m0.sentSeq + i * hdr.gsoSize) % TWO32
    requires hdr.Fits(m.key.isV6, |q|) && hdr.Fits(m.key.isV6, |p|) && HeadersFixed(q, p, hdr, m.key.isV6)
    requires SameFront(q, first, hdr.hdrLen, FlagsAt(m.key.isV6)) && FlagsAt(m.key.isV6) < hdr.hdrLen
    requires q[FlagsAt(m.key.isV6)] == FLAG_ACK || q[FlagsAt(m.key.isV6)] == FLAG_ACK_PSH
    requires if last then q[FlagsAt(m.key.isV6)] == FLAG_ACK_PSH <==> m.pshSet && withPsh else !m.pshSet
    requires SegmentOk(seg, p, hdr, m.key.isV6, i, own[hdr.hdrLen..], last)
    ensures TcpRestored(seg, own, m, withPsh)
  {
    hide TcpMetaOf, HeadersFixed, SegmentOk, ChecksumValid, SameFront, Compared, SameHeader;
    var isV6, data := m.key.isV6, own[hdr.hdrLen..];
    TcpMetaFacts(first, m0);
    HeaderBytes(first, q, p, seg, hdr, isV6, FlagsAt(isV6), i, data, last);
    TcpFields(first, q, p, seg, hdr, isV6, i, data, last);
    FlagsOfSegment(seg[FlagsAt(isV6)], q[FlagsAt(isV6)], last);
    FirstSequence(first, m0);
    TcpParsesLike(first, seg, hdr, m0, |data|);
    SegmentCarries(seg, p, hdr, isV6, i, data, last);
    ComparedKept(first, q, own, seg, hdr, isV6, OptionsAt(isV6), FlagsAt(isV6));
    SameTcpHeader(seg, own, m, m.pshSet && withPsh);
  }

  /** The bytes that were compared are among those that the segment has from the first packet. */
  lemma ComparedKept(first: seq<Byte>, q: seq<Byte>, own: seq<Byte>, seg: seq<Byte>, hdr: Header, isV6: bool,
                     options: nat, but: nat)
    requires hdr.csumStart == (if isV6 then 40 else 20) && hdr.csumStart + 8 <= hdr.hdrLen <= |seg|
    requires if hdr.tcp then options == OptionsAt(isV6) && but == FlagsAt(isV6) else options == but == hdr.hdrLen
    requires SameFront(q, first, hdr.hdrLen, but) && Compared(q, own, isV6, options, hdr.hdrLen)
    requires forall j :: 0 <= j < hdr.hdrLen && !Renewed(hdr, isV6, j) ==> seg[j] == first[j]
    ensures Compared(seg, own, isV6, options, hdr.hdrLen)
  {}

  /** Everything in the IP header but what is forgotten. */
  lemma SameIpHeader(a: seq<Byte>, b: seq<Byte>, tcp: bool, isV6: bool, proto: Byte, src: seq<Byte>, dst: seq<Byte>,
                     options: nat, h: nat)
    requires IpRead(a, isV6, proto) && IpRead(b, isV6, proto) && |a| == |b| && Compared(a, b, isV6, options, h)
    requires AddressesRead(a, isV6, src, dst) && AddressesRead(b, isV6, src, dst)
    ensures forall j :: 0 <= j < (if isV6 then 40 else 20) && !Forgotten(tcp, isV6, j) ==> a[j] == b[j]
    ensures isV6 ==> HighNibble(a[1]) == HighNibble(b[1])
  {
    var at, n := SrcAddrOffset(isV6), AddrLen(isV6);
    SameWord(a, b, if isV6 then 4 else 2);
    forall j | at <= j < at + 2 * n ensures a[j] == b[j] {
      if j < at + n { assert a[at..at + n][j - at] == b[at..at + n][j - at]; }
      else { assert a[at + n..at + 2 * n][j - at - n] == b[at + n..at + 2 * n][j - at - n]; }
    }
  }

  /** Two packets that parse alike and agree in what is compared have the same headers, but for what is forgotten. */
  lemma SameTcpHeader(a: seq<Byte>, b: seq<Byte>, m: TcpMeta, psh: bool)
    requires TcpMetaOf(b) == Some(m) && TcpMetaOf(a) == Some(m.(pshSet := psh)) && |a| == |b|
    requires Compared(a, b, m.key.isV6, OptionsAt(m.key.isV6), m.iphLen + m.tcphLen)
    ensures SameHeader(a, b, true, m.key.isV6, m.iphLen + m.tcphLen)
  {
    hide TcpMetaOf, IpRead, AddressesRead, Read16;
    TcpHeaderRead(a, m.(pshSet := psh));
    TcpHeaderRead(b, m);
    SameIpHeader(a, b, true, m.key.isV6, IPPROTO_TCP, m.key.src, m.key.dst, OptionsAt(m.key.isV6),
                 m.iphLen + m.tcphLen);
    SameWord(a, b, m.iphLen);
    SameWord(a, b, m.iphLen + 2);
    SameWord(a, b, m.iphLen + 4);
    SameWord(a, b, m.iphLen + 6);
    SameWord(a, b, m.iphLen + 8);
    SameWord(a, b, m.iphLen + 10);
  }

  lemma SameUdpHeader(a: seq<Byte>, b: seq<Byte>, m: UdpMeta, canUdp: bool)
    requires UdpMetaOf(b, canUdp) == UdpMetaOf(a, canUdp) == Some(m) && |a| == |b|
    requires Compared(a, b, m.key.isV6, m.iphLen + 8, m.iphLen + 8)
    ensures SameHeader(a, b, false, m.key.isV6, m.iphLen + 8)
  {
    hide UdpMetaOf, IpRead, AddressesRead, Read16;
    UdpHeaderRead(a, canUdp, m);
    UdpHeaderRead(b, canUdp, m);
    SameIpHeader(a, b, false, m.key.isV6, IPPROTO_UDP, m.key.src, m.key.dst, m.iphLen + 8, m.iphLen + 8);
    SameWord(a, b, m.iphLen);
    SameWord(a, b, m.iphLen + 2);
  }

  lemma TcpMemberRestored(item: TcpItem, g: Group, t: Trace, env: Env, q: seq<Byte>, p: seq<Byte>,
                          i: nat, seg: seq<Byte>)
    requires TcpItemOk(item, g, env.input, t.metas) && TraceTrue(t, env) && i < |g.members|
    requires forall j :: 0 <= j < |g.members| ==> g.members[j] < |t.owner|
    requires FrontOk(g, q, env.input)
    requires var hdr := TcpJob(item).hdr;
             && hdr.Fits(item.key.isV6, |q|) && hdr.Fits(item.key.isV6, |p|) && HeadersFixed(q, p, hdr, item.key.isV6)
             && SegmentOk(seg, p, hdr, item.key.isV6, i, Pieces(g, env.input)[i], i == |g.members| - 1)
    ensures g.members[i] < |env.input|
    ensures Restored(seg, env.input[g.members[i]], env.canUdp, g.members[0] <= g.members[i])
  {
    hide TcpMetaOf, TcpItemOk, HeadersFixed, SegmentOk, TraceTrue, TcpRestored, SameFront, FrontOk, Compared;
    ItemSizes(item, g, env.input, t.metas);
    FrontOfTcp(g, q, env.input, item.key, i);
    MemberMeta(item, g, t, env, 0);
    MemberMeta(item, g, t, env, i);
    LastFlags(item, g, t, env);
    var m := t.metas[g.members[i]];
    TcpSegment(env.input[g.members[0]], t.metas[g.members[0]], env.input[g.members[i]], m, q, p,
               TcpJob(item).hdr, i, i == |g.members| - 1, seg, g.members[0] <= g.members[i]);
  }

  lemma FrontOfTcp(g: Group, q: seq<Byte>, input: seq<seq<Byte>>, key: TcpKey, i: nat)
    requires FrontOk(g, q, input) && g.tracking == InTcp(key) && i < |g.members|
    ensures g.members[i] < |input| && Compared(q, input[g.members[i]], key.isV6, OptionsAt(key.isV6), g.h)
    ensures g.members != [] && g.members[0] < |input| && g.members[|g.members| - 1] < |input|
    ensures FlagsAt(key.isV6) < g.h && SameFront(q, input[g.members[0]], g.h, FlagsAt(key.isV6)) && g.h <= |q|
    ensures FlagsOk(q[FlagsAt(key.isV6)], g, input[g.members[|g.members| - 1]], FlagsAt(key.isV6))
  {}

  lemma LastFlags(item: TcpItem, g: Group, t: Trace, env: Env)
    requires TcpItemOk(item, g, env.input, t.metas) && TraceTrue(t, env)
    requires forall j :: 0 <= j < |g.members| ==> g.members[j] < |t.owner|
    ensures g.members != [] && g.members[|g.members| - 1] in t.metas
    ensures var k := g.members[|g.members| - 1];
            && k < |env.input| && FlagsAt(item.key.isV6) < |env.input[k]|
            && (env.input[k][FlagsAt(item.key.isV6)] == FLAG_ACK_PSH <==> t.metas[k].pshSet)
  {
    hide TcpMetaOf;
    MemberMeta(item, g, t, env, |g.members| - 1);
    TcpFlags(env.input[g.members[|g.members| - 1]], t.metas[g.members[|g.members| - 1]]);
  }

  lemma ItemSizes(item: TcpItem, g: Group, input: seq<seq<Byte>>, metas: TcpMetas)
    requires TcpItemOk(item, g, input, metas)
    ensures g.tracking == InTcp(item.key) && g.h == item.iphLen + item.tcphLen && g.members != []
    ensures item.iphLen == if item.key.isV6 then 40 else 20
    ensures MembersFit(g, input) && |g.members| == item.numMerged + 1 && item.gsoSize > 0
    ensures IsRun(Pieces(g, input), item.gsoSize)
  {}

  lemma FlagsOfSegment(r: Byte, flags: Byte, last: bool)
    requires flags == FLAG_ACK || flags == FLAG_ACK_PSH
    requires if last then r == flags else FinPshCleared(r, flags)
    ensures (r == FLAG_ACK || r == FLAG_ACK_PSH) && (r == FLAG_ACK_PSH <==> last && flags == FLAG_ACK_PSH)
  {}

  lemma FirstSequence(pkt: seq<Byte>, m: TcpMeta)
    requires TcpMetaOf(pkt) == Some(m)
    ensures m.iphLen + 8 <= |pkt| && m.sentSeq == Read32(pkt, m.iphLen + 4)
  {}

  lemma SegmentCarries(seg: seq<Byte>, p: seq<Byte>, hdr: Header, isV6: bool, i: nat, data: seq<Byte>, last: bool)
    requires hdr.Fits(isV6, |p|) && SegmentOk(seg, p, hdr, isV6, i, data, last)
    ensures |seg| == hdr.hdrLen + |data| && seg[hdr.hdrLen..] == data
    ensures ChecksumValid(seg, hdr.csumStart, hdr.Protocol(), isV6)
  {
    hide ChecksumValid, IpHeaderOk, TransportHeaderOk;
  }

  lemma {:induction false} HeldHas(items: seq<UdpItem>, groups: Groups, j: nat, k: nat)
    requires forall j :: 0 <= j < |items| ==> items[j].bufsIndex in groups
    requires j < |items| && k in groups[items[j].bufsIndex].members
    ensures k in Held(items, groups)
  {
    if j < |items| - 1 { HeldHas(items[..|items| - 1], groups, j, k); }
  }

  lemma {:induction false} ArrivalsHave(entered: map<nat, UdpKey>, key: UdpKey, n: nat, k: nat)
    requires k in Arrivals(entered, key, n)
    ensures k in entered && entered[k] == key && k < n
  {
    if k !in Arrivals(entered, key, n - 1) { assert k == n - 1; } else { ArrivalsHave(entered, key, n - 1, k); }
  }

  /** The members of a UDP item's group are datagrams of the flow. */
  lemma UdpMember(bufs: seq<Buf>, tcp: TcpTable, udp: UdpTable, toWrite: seq<nat>, t: Trace, env: Env, key: UdpKey,
                  j: nat, i: nat)
    requires Inv(bufs, tcp, udp, toWrite, t, env) && key in udp && j < |udp[key]|
    ensures udp[key][j].bufsIndex in t.groups && udp[key][j].bufsIndex < |bufs| && udp[key][j].key == key
    ensures var g := t.groups[udp[key][j].bufsIndex];
            && UdpItemOk(udp[key][j], g, env.input)
            && (i < |g.members| ==>
                  && g.members[i] < |env.input| && UdpMetaOf(env.input[g.members[i]], env.canUdp).Some?
                  && UdpMetaOf(env.input[g.members[i]], env.canUdp).value.key == key)
  {
    hide TcpTableOk, UdpItemOk, UdpMetaOf, TcpMetaOf, GroupOk, GroupsVerified;
    assert UdpFlowOk(key, udp[key], t.groups, env.input, t.entered, |t.owner|);
    var g := t.groups[udp[key][j].bufsIndex];
    if i < |g.members| {
      HeldHas(udp[key], t.groups, j, g.members[i]);
      ArrivalsHave(t.entered, key, |t.owner|, g.members[i]);
      assert Recorded(g.members[i], t, env);
    }
  }

  lemma UdpSegment(first: seq<Byte>, own: seq<Byte>, key: UdpKey, canUdp: bool, q: seq<Byte>, p: seq<Byte>,
                   hdr: Header, i: nat, last: bool, seg: seq<Byte>)
    requires UdpMetaOf(first, canUdp).Some? && UdpMetaOf(first, canUdp).value.key == key
    requires UdpMetaOf(own, canUdp).Some? && UdpMetaOf(own, canUdp).value.key == key
    requires !hdr.tcp && hdr.csumStart == (if key.isV6 then 40 else 20) && hdr.hdrLen == hdr.csumStart + 8 <= |own|
    requires hdr.Fits(key.isV6, |q|) && hdr.Fits(key.isV6, |p|) && HeadersFixed(q, p, hdr, key.isV6)
    requires SameFront(q, first, hdr.hdrLen, hdr.hdrLen) && Compared(q, own, key.isV6, hdr.hdrLen, hdr.hdrLen)
    requires SegmentOk(seg, p, hdr, key.isV6, i, own[hdr.hdrLen..], last)
    ensures UdpRestored(seg, own, UdpMetaOf(own, canUdp).value, canUdp)
  {
    hide UdpMetaOf, HeadersFixed, SegmentOk, ChecksumValid, SameFront, Compared, SameHeader;
    var m0, m, data := UdpMetaOf(first, canUdp).value, UdpMetaOf(own, canUdp).value, own[hdr.hdrLen..];
    UdpMetaFacts(first, canUdp, m0);
    UdpMetaFacts(own, canUdp, m);
    HeaderBytes(first, q, p, seg, hdr, key.isV6, hdr.hdrLen, i, data, last);
    UdpFields(p, seg, hdr, key.isV6, i, data, last);
    UdpParsesLike(first, seg, hdr, m0, canUdp, |data|);
    SegmentCarries(seg, p, hdr, key.isV6, i, data, last);
    ComparedKept(first, q, own, seg, hdr, key.isV6, hdr.hdrLen, hdr.hdrLen);
    SameUdpHeader(seg, own, m, canUdp);
  }

  // ----- a written buffer

  /** The buffer was written with a header that asks for segmentation: this is what is known of it. */
  lemma TcpWritten(bufs: seq<Buf>, tcp: TcpTable, udp: UdpTable, toWrite: seq<nat>, t: Trace, env: Env,
                   coalesced: seq<Buf>, hdrs: map<nat, Written>, key: TcpKey, j: nat, outs: seq<seq<Byte>>,
                   sizes: seq<nat>)
    requires Inv(bufs, tcp, udp, toWrite, t, env) && Fronts(t.groups, coalesced, env.input)
    requires key in tcp && j < |tcp[key]| && tcp[key][j].numMerged > 0
    requires Done(TcpJob(tcp[key][j]), coalesced, bufs, hdrs)
    requires var item := tcp[key][j];
             && item.bufsIndex < |bufs| && TcpJob(item).hdr.Fits(key.isV6, |bufs[item.bufsIndex].pkt|)
             && item.gsoSize > 0
             && var pieces := Cut(bufs[item.bufsIndex].pkt[TcpJob(item).hdr.hdrLen..], item.gsoSize);
             && |outs| == |pieces| && Emitted(outs, sizes, bufs[item.bufsIndex].pkt, TcpJob(item).hdr, key.isV6, pieces)
    ensures tcp[key][j].bufsIndex in t.groups
    ensures MergedRestored(outs, t.groups[tcp[key][j].bufsIndex], env.input, env.canUdp)
  {
    hide TcpItemOk, HeadersFixed, SegmentOk, Restored, FrontOk, TcpTableOk, UdpTableOk, GroupsVerified, TraceTrue, Cut,
      Flatten;
    var item := tcp[key][j];
    ItemFacts(bufs, tcp, toWrite, t, env, key, j);
    var g := t.groups[item.bufsIndex];
    ItemSizes(item, g, env.input, t.metas);
    CutOfRun(Pieces(g, env.input), item.gsoSize);
    forall i | 0 <= i < |outs|
      ensures g.members[i] < |env.input|
      ensures Restored(outs[i], env.input[g.members[i]], env.canUdp, g.members[0] <= g.members[i])
    {
      TcpMemberRestored(item, g, t, env, coalesced[item.bufsIndex].pkt, bufs[item.bufsIndex].pkt, i, outs[i]);
    }
  }

  lemma UdpMemberRestored(bufs: seq<Buf>, tcp: TcpTable, udp: UdpTable, toWrite: seq<nat>, t: Trace, env: Env,
                          key: UdpKey, j: nat, i: nat, q: seq<Byte>, p: seq<Byte>, seg: seq<Byte>)
    requires Inv(bufs, tcp, udp, toWrite, t, env) && key in udp && j < |udp[key]|
    requires udp[key][j].bufsIndex in t.groups && FrontOk(t.groups[udp[key][j].bufsIndex], q, env.input)
    requires var g, hdr := t.groups[udp[key][j].bufsIndex], UdpJob(udp[key][j]).hdr;
             && i < |g.members| && MembersFit(g, env.input)
             && hdr.Fits(key.isV6, |q|) && hdr.Fits(key.isV6, |p|) && HeadersFixed(q, p, hdr, key.isV6)
             && SegmentOk(seg, p, hdr, key.isV6, i, Pieces(g, env.input)[i], i == |g.members| - 1)
    ensures var g := t.groups[udp[key][j].bufsIndex];
            && g.members[i] < |env.input|
            && Restored(seg, env.input[g.members[i]], env.canUdp, g.members[0] <= g.members[i])
  {
    hide Inv, UdpMetaOf, TcpMetaOf, HeadersFixed, SegmentOk, UdpRestored, SameFront, Compared;
    var item := udp[key][j];
    var g := t.groups[item.bufsIndex];
    UdpMember(bufs, tcp, udp, toWrite, t, env, key, j, 0);
    UdpMember(bufs, tcp, udp, toWrite, t, env, key, j, i);
    UdpSegment(env.input[g.members[0]], env.input[g.members[i]], key, env.canUdp, q, p, UdpJob(item).hdr, i,
               i == |g.members| - 1, seg);
    UdpMetaFacts(env.input[g.members[i]], env.canUdp, UdpMetaOf(env.input[g.members[i]], env.canUdp).value);
  }

  lemma UdpWritten(bufs: seq<Buf>, tcp: TcpTable, udp: UdpTable, toWrite: seq<nat>, t: Trace, env: Env,
                   coalesced: seq<Buf>, hdrs: map<nat, Written>, key: UdpKey, j: nat, outs: seq<seq<Byte>>,
                   sizes: seq<nat>)
    requires Inv(bufs, tcp, udp, toWrite, t, env) && Fronts(t.groups, coalesced, env.input)
    requires key in udp && j < |udp[key]| && udp[key][j].numMerged > 0
    requires Done(UdpJob(udp[key][j]), coalesced, bufs, hdrs)
    requires var item := udp[key][j];
             && item.key == key && item.bufsIndex < |bufs|
             && UdpJob(item).hdr.Fits(key.isV6, |bufs[item.bufsIndex].pkt|) && item.gsoSize > 0
             && var pieces := Cut(bufs[item.bufsIndex].pkt[UdpJob(item).hdr.hdrLen..], item.gsoSize);
             && |outs| == |pieces| && Emitted(outs, sizes, bufs[item.bufsIndex].pkt, UdpJob(item).hdr, key.isV6, pieces)
    ensures udp[key][j].bufsIndex in t.groups
    ensures MergedRestored(outs, t.groups[udp[key][j].bufsIndex], env.input, env.canUdp)
  {
    hide Inv, UdpItemOk, HeadersFixed, SegmentOk, Restored, FrontOk, Cut, Flatten, GroupOk;
    var item := udp[key][j];
    UdpMember(bufs, tcp, udp, toWrite, t, env, key, j, 0);
    var g := t.groups[item.bufsIndex];
    UdpPieces(bufs, tcp, udp, toWrite, t, env, item, g);
    UdpItemSizes(item, g, env.input);
    forall i | 0 <= i < |outs|
      ensures g.members[i] < |env.input|
      ensures Restored(outs[i], env.input[g.members[i]], env.canUdp, g.members[0] <= g.members[i])
    {
      UdpMemberRestored(bufs, tcp, udp, toWrite, t, env, key, j, i, coalesced[item.bufsIndex].pkt,
                        bufs[item.bufsIndex].pkt, outs[i]);
    }
  }

  lemma UdpPieces(bufs: seq<Buf>, tcp: TcpTable, udp: UdpTable, toWrite: seq<nat>, t: Trace, env: Env, item: UdpItem,
                  g: Group)
    requires Inv(bufs, tcp, udp, toWrite, t, env) && item.bufsIndex in t.groups && g == t.groups[item.bufsIndex]
    requires item.bufsIndex < |bufs| && UdpItemOk(item, g, env.input)
    ensures MembersFit(g, env.input) && g.h == item.iphLen + 8 <= |bufs[item.bufsIndex].pkt|
    ensures item.gsoSize > 0 && Cut(bufs[item.bufsIndex].pkt[g.h..], item.gsoSize) == Pieces(g, env.input)
  {
    hide TcpTableOk, UdpTableOk, GroupsVerified, TraceTrue, Cut, Flatten;
    CutOfRun(Pieces(g, env.input), item.gsoSize);
    assert GroupOk(item.bufsIndex, g, bufs[item.bufsIndex].pkt, env.input, t.owner);
  }

  /** An item into which nothing was merged. */
  lemma NotMerged(bufs: seq<Buf>, tcp: TcpTable, udp: UdpTable, toWrite: seq<nat>, t: Trace, env: Env,
                  coalesced: seq<Buf>, hdrs: map<nat, Written>, w: nat)
    requires Inv(bufs, tcp, udp, toWrite, t, env) && w in t.groups && Covered(w, t.groups[w], tcp, udp)
    requires AccountedFor(tcp, udp, TcpFlows(tcp) + UdpFlows(udp), coalesced, bufs, hdrs)
    requires !(w in hdrs && hdrs[w].Offload?) && t.groups[w].tracking != Loose
    ensures |t.groups[w].members| == 1
  {
    hide Inv, TcpItemOk, UdpItemOk, HeadersFixed, GroupOk;
    var g := t.groups[w];
    assert AllDone(JobsFor(tcp, udp, g.tracking), coalesced, bufs, hdrs);
    match g.tracking
    case InTcp(key) =>
      var j :| 0 <= j < |tcp[key]| && tcp[key][j].bufsIndex == w;
      assert Done(TcpJobs(tcp[key])[j], coalesced, bufs, hdrs);
      TcpItemMembers(bufs, tcp, udp, toWrite, t, env, key, j);
    case InUdp(key) =>
      var j :| 0 <= j < |udp[key]| && udp[key][j].bufsIndex == w;
      assert Done(UdpJobs(udp[key])[j], coalesced, bufs, hdrs);
      UdpMember(bufs, tcp, udp, toWrite, t, env, key, j, 0);
      UdpItemSizes(udp[key][j], g, env.input);
  }

  lemma TcpItemMembers(bufs: seq<Buf>, tcp: TcpTable, udp: UdpTable, toWrite: seq<nat>, t: Trace, env: Env, key: TcpKey,
                       j: nat)
    requires Inv(bufs, tcp, udp, toWrite, t, env) && key in tcp && j < |tcp[key]|
    ensures tcp[key][j].bufsIndex in t.groups && tcp[key][j].gsoSize > 0 && tcp[key][j].key == key
    ensures |t.groups[tcp[key][j].bufsIndex].members| == tcp[key][j].numMerged + 1
  {
    hide TcpItemOk, TcpTableOk, UdpTableOk, GroupOk, GroupsVerified, TraceTrue;
    ItemFacts(bufs, tcp, toWrite, t, env, key, j);
    ItemSizes(tcp[key][j], t.groups[tcp[key][j].bufsIndex], env.input, t.metas);
  }

  /** A buffer without a header that asks for segmentation holds one packet, as it came. */
  lemma NotOffloaded(bufs: seq<Buf>, tcp: TcpTable, udp: UdpTable, toWrite: seq<nat>, t: Trace, env: Env,
                     coalesced: seq<Buf>, hdrs: map<nat, Written>, w: nat)
    requires Inv(bufs, tcp, udp, toWrite, t, env) && Tracks(tcp, udp, t.groups, env.input)
    requires AccountedFor(tcp, udp, TcpFlows(tcp) + UdpFlows(udp), coalesced, bufs, hdrs)
    requires w in toWrite && !(w in hdrs && hdrs[w].Offload?)
    ensures w in t.groups && w < |bufs| && AllRestored([bufs[w].pkt], t.groups[w], env.input, env.canUdp)
  {
    hide TraceTrue, TcpTableOk, UdpTableOk, DroppedCorrupt, AccountedFor, Flatten, UdpRestored, TcpRestored, UdpMetaOf,
      TcpMetaOf;
    var g := t.groups[w];
    assert GroupOk(w, g, bufs[w].pkt, env.input, t.owner) && GroupVerified(g, env.input) && Covered(w, g, tcp, udp);
    if g.tracking != Loose { NotMerged(bufs, tcp, udp, toWrite, t, env, coalesced, hdrs, w); }
    assert |g.members| == 1;
  }

  /** When one of two packets is not listed, the other's buffer is to be segmented again. */
  lemma OneOfTwo(bufs: seq<Buf>, tcp: TcpTable, udp: UdpTable, t: Trace, env: Env,
                 coalesced: seq<Buf>, hdrs: map<nat, Written>)
    requires Inv(bufs, tcp, udp, [0], t, env) && Tracks(tcp, udp, t.groups, env.input) && |t.owner| == 2
    requires AccountedFor(tcp, udp, TcpFlows(tcp) + UdpFlows(udp), coalesced, bufs, hdrs)
    ensures 0 in hdrs && hdrs[0].Offload?
  {
    hide TraceTrue, TcpTableOk, UdpTableOk, GroupsVerified, AccountedFor, DroppedCorrupt, MembersFit, Restored;
    if !(0 in hdrs && hdrs[0].Offload?) {
      NotOffloaded(bufs, tcp, udp, [0], t, env, coalesced, hdrs, 0);
      BothMembers(bufs, t, env);
    }
  }

  lemma BothMembers(bufs: seq<Buf>, t: Trace, env: Env)
    requires Conserved(bufs, env.input, [0], t.groups, t.owner) && |t.owner| == 2
    ensures 0 in t.groups && |t.groups[0].members| > 1
  {
    hide GroupOk;
    assert OwnerHolds(0, t.groups, t.owner) && OwnerHolds(1, t.groups, t.owner);
    assert t.owner[0] in [0] && t.owner[1] in [0];
    var members := t.groups[0].members;
    assert 0 in members && 1 in members;
  }

  lemma UdpItemSizes(item: UdpItem, g: Group, input: seq<seq<Byte>>)
    requires UdpItemOk(item, g, input)
    ensures |g.members| == item.numMerged + 1 && item.gsoSize > 0
  {}

  /** The header that asks for segmentation is that of an item. */
  ghost predicate OffloadedAs(w: nat, tr: Tracking, j: nat, tcp: TcpTable, udp: UdpTable, hdrs: map<nat, Written>,
                              before: seq<Buf>, after: seq<Buf>)
  {
    && w in hdrs
    && match tr
       case Loose => false
       case InTcp(key) =>
         && key in tcp && j < |tcp[key]| && tcp[key][j].bufsIndex == w && tcp[key][j].numMerged > 0
         && tcp[key][j].key == key
         && hdrs[w] == Offload(TcpJob(tcp[key][j]).hdr, key.isV6) && Done(TcpJob(tcp[key][j]), before, after, hdrs)
         && tcp[key][j].gsoSize > 0
       case InUdp(key) =>
         && key in udp && j < |udp[key]| && udp[key][j].bufsIndex == w && udp[key][j].numMerged > 0
         && udp[key][j].key == key
         && hdrs[w] == Offload(UdpJob(udp[key][j]).hdr, key.isV6) && Done(UdpJob(udp[key][j]), before, after, hdrs)
         && udp[key][j].gsoSize > 0
  }

  lemma WhichItem(bufs: seq<Buf>, tcp: TcpTable, udp: UdpTable, toWrite: seq<nat>, t: Trace, env: Env,
                  coalesced: seq<Buf>, hdrs: map<nat, Written>, w: nat) returns (j: nat)
    requires Inv(bufs, tcp, udp, toWrite, t, env) && Tracks(tcp, udp, t.groups, env.input)
    requires AccountedFor(tcp, udp, TcpFlows(tcp) + UdpFlows(udp), coalesced, bufs, hdrs)
    requires Headed(hdrs, toWrite, t.groups, |bufs|)
    requires w in toWrite && w in hdrs && hdrs[w].Offload?
    ensures w in t.groups && OffloadedAs(w, t.groups[w].tracking, j, tcp, udp, hdrs, coalesced, bufs)
    ensures w < |bufs| == |coalesced| && hdrs[w].hdr.Fits(hdrs[w].isV6, |bufs[w].pkt|) && hdrs[w].hdr.gsoSize > 0
  {
    hide Inv, TcpItemOk, UdpItemOk, DroppedCorrupt, GroupOk;
    InRange(bufs, tcp, udp, toWrite, t, env, w);
    var g := t.groups[w];
    assert Covered(w, g, tcp, udp);
    assert g.tracking != Loose;
    assert AllDone(JobsFor(tcp, udp, g.tracking), coalesced, bufs, hdrs);
    match g.tracking
    case InTcp(key) =>
      j :| 0 <= j < |tcp[key]| && tcp[key][j].bufsIndex == w;
      assert Done(TcpJobs(tcp[key])[j], coalesced, bufs, hdrs);
      TcpItemMembers(bufs, tcp, udp, toWrite, t, env, key, j);
    case InUdp(key) =>
      j :| 0 <= j < |udp[key]| && udp[key][j].bufsIndex == w;
      assert Done(UdpJobs(udp[key])[j], coalesced, bufs, hdrs);
      UdpMember(bufs, tcp, udp, toWrite, t, env, key, j, 0);
      UdpItemSizes(udp[key][j], g, env.input);
  }

  lemma {:induction false} CutCount(p: seq<Byte>, g: nat)
    requires g > 0
    ensures |Cut(p, g)| <= |p|
  {
    if |p| > g { CutCount(p[g..], g); }
  }

  /** A pass is over; `coalesced` are its buffers before the accounting. */
  ghost predicate Over(p: Pass, coalesced: seq<Buf>)
    reads p
  {
    && p.Valid() && |p.t.owner| == |p.env.input|
    && AccountedFor(p.tcp, p.udp, TcpFlows(p.tcp) + UdpFlows(p.udp), coalesced, p.bufs, p.hdrs)
    && Fronts(p.t.groups, coalesced, p.env.input) && Headed(p.hdrs, p.toWrite, p.t.groups, |p.bufs|)
  }

  lemma ManyRestored(outs: seq<seq<Byte>>, g: Group, input: seq<seq<Byte>>, canUdp: bool)
    requires MergedRestored(outs, g, input, canUdp)
    ensures AllRestored(outs, g, input, canUdp)
  {}

  /** Segments one written buffer as its header asks. */
  method SplitWritten(p: Pass, ghost coalesced: seq<Buf>, w: nat) returns (outs: seq<seq<Byte>>)
    requires Over(p, coalesced) && w in p.toWrite
    ensures w in p.t.groups && AllRestored(outs, p.t.groups[w], p.env.input, p.env.canUdp)
  {
    hide Inv, Tracks, AccountedFor, Fronts, Headed, AllRestored, MergedRestored, Emitted, Cut, Done;
    InRange(p.bufs, p.tcp, p.udp, p.toWrite, p.t, p.env, w);
    if w in p.hdrs && p.hdrs[w].Offload? {
      ghost var j := WhichItem(p.bufs, p.tcp, p.udp, p.toWrite, p.t, p.env, coalesced, p.hdrs, w);
      var pkt, hdr, isV6 := p.bufs[w].pkt, p.hdrs[w].hdr, p.hdrs[w].isV6;
      CutCount(pkt[hdr.hdrLen..], hdr.gsoSize);
      var n, segments, sizes, tooMany := GsoSplit(pkt, hdr, |pkt|, isV6, p.big);
      outs := segments;
      if p.t.groups[w].tracking.InTcp? {
        TcpWritten(p.bufs, p.tcp, p.udp, p.toWrite, p.t, p.env, coalesced, p.hdrs, p.t.groups[w].tracking.tcpKey, j,
                   outs, sizes);
      } else {
        UdpWritten(p.bufs, p.tcp, p.udp, p.toWrite, p.t, p.env, coalesced, p.hdrs, p.t.groups[w].tracking.udpKey, j,
                   outs, sizes);
      }
      ManyRestored(outs, p.t.groups[w], p.env.input, p.env.canUdp);
    } else {
      NotOffloaded(p.bufs, p.tcp, p.udp, p.toWrite, p.t, p.env, coalesced, p.hdrs, w);
      outs := [p.bufs[w].pkt];
    }
  }

  lemma InRange(bufs: seq<Buf>, tcp: TcpTable, udp: UdpTable, toWrite: seq<nat>, t: Trace, env: Env, w: nat)
    requires Inv(bufs, tcp, udp, toWrite, t, env)
    ensures w in toWrite ==> w in t.groups && w < |bufs|
  {}

  /** Packet k is the i-th of the a-th written buffer. */
  ghost predicate Sits(k: nat, a: nat, i: nat, toWrite: seq<nat>, groups: Groups) {
    && a < |toWrite| && toWrite[a] in groups
    && i < |groups[toWrite[a]].members| && groups[toWrite[a]].members[i] == k
  }

  /** Every one of the n packets sits in exactly one place. */
  lemma ExactlyOnce(bufs: seq<Buf>, tcp: TcpTable, udp: UdpTable, toWrite: seq<nat>, t: Trace, env: Env, k: nat)
    requires Inv(bufs, tcp, udp, toWrite, t, env) && k < |t.owner|
    ensures exists a, i :: Sits(k, a, i, toWrite, t.groups)
    ensures forall a, i, b, j :: Sits(k, a, i, toWrite, t.groups) && Sits(k, b, j, toWrite, t.groups) ==>
      a == b && i == j
  {
    hide TcpTableOk, UdpTableOk, TraceTrue, GroupsVerified, BufsFit;
    var w := t.owner[k];
    assert OwnerHolds(k, t.groups, t.owner) && w in toWrite;
    var a: nat :| a < |toWrite| && toWrite[a] == w;
    var i: nat :| i < |t.groups[w].members| && t.groups[w].members[i] == k;
    assert Sits(k, a, i, toWrite, t.groups);
    forall b: nat, j: nat | Sits(k, b, j, toWrite, t.groups) ensures b == a && j == i {
      assert GroupOk(toWrite[b], t.groups[toWrite[b]], bufs[toWrite[b]].pkt, env.input, t.owner);
      assert GroupOk(w, t.groups[w], bufs[w].pkt, env.input, t.owner);
    }
  }

  /** The segments of the first written buffers, buffer by buffer. */
  ghost predicate Back(outs: seq<seq<seq<Byte>>>, toWrite: seq<nat>, groups: Groups, input: seq<seq<Byte>>,
                       canUdp: bool)
  {
    && |outs| <= |toWrite|
    && forall a {:trigger outs[a]} {:trigger toWrite[a]} :: 0 <= a < |outs| ==>
         toWrite[a] in groups && AllRestored(outs[a], groups[toWrite[a]], input, canUdp)
  }

  lemma BackMore(outs: seq<seq<seq<Byte>>>, toWrite: seq<nat>, groups: Groups, input: seq<seq<Byte>>, canUdp: bool,
                 next: seq<seq<Byte>>)
    requires Back(outs, toWrite, groups, input, canUdp) && |outs| < |toWrite|
    requires toWrite[|outs|] in groups && AllRestored(next, groups[toWrite[|outs|]], input, canUdp)
    ensures Back(outs + [next], toWrite, groups, input, canUdp)
  {
    hide AllRestored;
  }

  /** handleGRO, and then every written buffer segmented: each packet comes back, in the place that the trace tells. */
  method ThereAndBack(p: Pass) returns (ok: bool, outs: seq<seq<seq<Byte>>>)
    requires p.Valid() && p.t.owner == [] && p.hdrs == map[]
    modifies p
    ensures ok <==>
      || p.env.input == []
      || (p.offset >= VIRTIO_NET_HDR_LEN && forall i :: 0 <= i < |p.env.input| ==> p.env.input[i] != [])
    ensures ok ==> p.Valid() && |p.t.owner| == |p.env.input|
    ensures ok ==> |outs| == |p.toWrite| && Back(outs, p.toWrite, p.t.groups, p.env.input, p.env.canUdp)
  {
    hide Inv, Tracks, AccountedFor, Fronts, Headed, AllRestored, PassOver, OnlyPlain, LooseKept, Back;
    var done, coalesced, states, traces := p.HandleGro();
    ok, outs := done, [];
    if !ok { return; }
    NoneBack(p.toWrite, p.t.groups, p.env.input, p.env.canUdp);
    for a := 0 to |p.toWrite|
      modifies {}
      invariant |outs| == a && Over(p, coalesced)
      invariant Back(outs, p.toWrite, p.t.groups, p.env.input, p.env.canUdp)
    {
      var segments := SplitWritten(p, coalesced, p.toWrite[a]);
      BackMore(outs, p.toWrite, p.t.groups, p.env.input, p.env.canUdp, segments);
      outs := outs + [segments];
    }
  }

  lemma NoneBack(toWrite: seq<nat>, groups: Groups, input: seq<seq<Byte>>, canUdp: bool)
    ensures Back([], toWrite, groups, input, canUdp)
  {}
}

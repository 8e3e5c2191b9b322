/** Receive offload of two packets, with pairs on which it does something unexpected. */
module GroExamples {
  import opened Wrappers
  import opened Bytes
  import opened InternetChecksum
  import opened Gso
  import opened GroState
  import opened GroRules
  import opened GroSteps
  import opened GroTcpSteps
  import opened GroOutcomes
  import opened GroHeaders
  import opened GroFronts
  import opened GroDropped
  import opened GroPsh
  import opened GroPairs
  import opened GroFlows
  import opened GroRoundTrip
  import opened Gro

  /**
    handleGRO on two packets: when only the first buffer is written, for both of them; when that has no virtio header;
    and when its PSH is gone.
   */
  method TwoPackets(a: Buf, b: Buf, offset: nat, canUdp: bool, big: bool) returns (p: Pass)
    requires BufsFit([a, b], offset) && offset >= VIRTIO_NET_HDR_LEN && a.pkt != [] && b.pkt != []
    ensures |p.bufs| == 2
    ensures p.toWrite == if TcpPair(a, b, offset) || UdpPair(a, b, offset, canUdp) then [0] else [0, 1]
    ensures p.toWrite == [0] ==> 0 in p.hdrs && p.hdrs[0].Offload?
    ensures 0 !in p.hdrs <==> DropsFirst([a, b], offset)
    ensures TcpMetaOf(a.pkt).Some? && TcpMetaOf(a.pkt).value.pshSet ==>
      (StillPsh(a.pkt, p.bufs[0].pkt) <==> !LosesPsh([a, b], offset))
  {
    hide Inv, Tracks, Taken, OnlyPlain, Headed, AccountedFor, LooseKept, DropsFirst, Joins, HasPsh, TcpMetaOf, Fronts,
      TcpPair, UdpPair;
    p := new Pass([a, b], offset, canUdp, big);
    ghost var s := p.Now();
    var ok, coalesced, states, traces := p.HandleGro();
    assert p.env.input[0] != [] && p.env.input[1] != [];
    assert Taken(0, states[0], states[1], offset, canUdp) && Taken(1, states[1], states[2], offset, canUdp);
    if p.toWrite == [0] { OneOfTwo(p.bufs, p.tcp, p.udp, p.t, p.env, coalesced, p.hdrs); }
    PairListed(states[0], states[1], states[2], offset, canUdp);
    NoHeaderIff(states[0], states[1], states[2], offset, canUdp, p.t, p.env, p.bufs, p.hdrs);
    if TcpMetaOf(a.pkt).Some? && TcpMetaOf(a.pkt).value.pshSet {
      PshLostIff(states[0], states[1], states[2], offset, canUdp, TcpMetaOf(a.pkt).value, p.t, p.env, p.bufs, p.hdrs);
    }
  }

  function Zeros(n: nat): (z: seq<Byte>)
    ensures |z| == n && forall i :: 0 <= i < n ==> z[i] == 0
  {
    seq(n, _ => 0)
  }

  /** An IPv4 header without a checksum, between addresses that are zero. */
  function IpPart(): (r: seq<Byte>)
    ensures |r| == 20
  {
    [0x45, 0, 0, 41, 0, 0, 0, 0, 0, IPPROTO_TCP] + Zeros(10)
  }

  /** What follows n zero bytes and this word. */
  function Field(n: nat, hi: Byte, lo: Byte, rest: seq<Byte>): (r: seq<Byte>)
    ensures |r| == n + 2 + |rest|
  {
    Zeros(n) + [hi, lo] + rest
  }

  /** A TCP header with this low byte of the sequence number, flags and checksum, and a payload of one byte. */
  function TcpPart(sequence: Byte, flags: Byte, csum: Uint16): (r: seq<Byte>)
    ensures |r| == 21
  {
    Field(6, 0, sequence, Field(4, 0x50, flags, Field(2, csum / 256, csum % 256, Field(0, 0, 0, [1]))))
  }

  function Segment(sequence: Byte, flags: Byte, csum: Uint16): (pkt: seq<Byte>)
    ensures |pkt| == 41 && pkt[..20] == IpPart() && pkt[20..] == TcpPart(sequence, flags, csum)
  {
    IpPart() + TcpPart(sequence, flags, csum)
  }

  lemma SumStep(b: seq<Byte>)
    ensures b == [] ==> Sum(b) == 0
    ensures |b| == 1 ==> Sum(b) == Word(b[0], 0)
    ensures |b| > 1 ==> Sum(b) == Word(b[0], b[1]) + Sum(b[2..])
  {}

  lemma {:induction false} SumZeros(n: nat)
    ensures Sum(Zeros(n)) == 0
  {
    hide Sum, Zeros;
    SumStep(Zeros(n));
    if n > 1 {
      SumZeros(n - 2);
      assert Zeros(n)[2..] == Zeros(n - 2);
    }
  }

  lemma SegmentBytes(sequence: Byte, flags: Byte, csum: Uint16)
    ensures var pkt := Segment(sequence, flags, csum);
            && pkt[0] == 0x45 && pkt[9] == IPPROTO_TCP && pkt[2] == 0 && pkt[3] == 41 && pkt[32] == 0x50
            && pkt[33] == flags
            && pkt[27] == sequence && (forall i :: 4 <= i < 9 || 10 <= i < 27 || 28 <= i < 32 ==> pkt[i] == 0)
            && pkt[12..16] == Zeros(4) && pkt[16..20] == Zeros(4)
  {
    hide Zeros;
    var ip, tcp, pkt := IpPart(), TcpPart(sequence, flags, csum), Segment(sequence, flags, csum);
    assert tcp[7] == sequence && tcp[12] == 0x50 && tcp[13] == flags;
    assert forall i :: 0 <= i < 7 || 8 <= i < 12 ==> tcp[i] == 0;
    assert pkt == ip + tcp;
  }

  lemma SegmentParses(sequence: Byte, flags: Byte, csum: Uint16)
    requires flags == FLAG_ACK || flags == FLAG_ACK_PSH
    ensures TcpMetaOf(Segment(sequence, flags, csum))
            == Some(TcpMeta(20, 20, flags == FLAG_ACK_PSH, 1, sequence, TcpKey(Zeros(4), Zeros(4), 0, 0, 0, false)))
  {
    hide Segment, Zeros, IpPart, TcpPart, Field;
    SegmentBytes(sequence, flags, csum);
    assert Classify(Segment(sequence, flags, csum), false) == Tcp4;
  }

  lemma FieldSum(n: nat, hi: Byte, lo: Byte, rest: seq<Byte>)
    requires n % 2 == 0
    ensures Sum(Field(n, hi, lo, rest)) == Word(hi, lo) + Sum(rest)
  {
    SumZeros(n);
    SumConcat(Zeros(n), [hi, lo] + rest, n / 2);
    assert Zeros(n) + [hi, lo] + rest == Zeros(n) + ([hi, lo] + rest);
    assert ([hi, lo] + rest)[2..] == rest;
  }

  /** What the transport checksum is computed over. */
  lemma SegmentSum(sequence: Byte, flags: Byte, csum: Uint16)
    ensures Sum(TcpPart(sequence, flags, csum)) == sequence + 0x5000 + flags + csum + 256
  {
    hide Sum, Field;
    var u := Field(0, 0, 0, [1]);
    var c := Field(2, csum / 256, csum % 256, u);
    var f := Field(4, 0x50, flags, c);
    FieldSum(0, 0, 0, [1]);
    FieldSum(2, csum / 256, csum % 256, u);
    FieldSum(4, 0x50, flags, c);
    FieldSum(6, 0, sequence, f);
    LastByteSum();
  }

  lemma LastByteSum()
    ensures Sum([1]) == 256
  {}

  lemma SegmentValidIff(sequence: Byte, flags: Byte, csum: Uint16)
    ensures ChecksumValid(Segment(sequence, flags, csum), 20, IPPROTO_TCP, false)
            <==> Norm(sequence + 0x5000 + flags + csum + 283) == 0xFFFF
  {
    hide Norm, Sum, Segment, TcpPart, IpPart;
    SegmentSum(sequence, flags, csum);
    SegmentPseudo(sequence, flags, csum);
  }

  lemma SegmentPseudo(sequence: Byte, flags: Byte, csum: Uint16)
    ensures PseudoSum(Segment(sequence, flags, csum), IPPROTO_TCP, false, 21) == 27
  {
    var pkt := Segment(sequence, flags, csum);
    assert pkt[12..16] == Zeros(4) && pkt[16..20] == Zeros(4);
    SumZeros(4);
    assert Sum([0, IPPROTO_TCP]) == 6;
  }

  /** Two consecutive segments, the first without a checksum: it is written without a virtio header. */
  lemma StaleHeader()
    ensures DropsFirst([Buf(Segment(0, FLAG_ACK, 0), 100), Buf(Segment(1, FLAG_ACK, 0), 100)], VIRTIO_NET_HDR_LEN)
  {
    hide ChecksumValid, TcpMetaOf, Segment, TcpPart, IpPart, Field;
    SegmentParses(0, FLAG_ACK, 0);
    SegmentParses(1, FLAG_ACK, 0);
    SegmentValidIff(0, FLAG_ACK, 0);
    var bufs := [Buf(Segment(0, FLAG_ACK, 0), 100), Buf(Segment(1, FLAG_ACK, 0), 100)];
    var m := TcpMeta(20, 20, false, 1, 0, TcpKey(Zeros(4), Zeros(4), 0, 0, 0, false));
    SameIpHeader(0, 1, FLAG_ACK, FLAG_ACK, 0, 0);
    assert Mode(bufs[1].pkt, m.(sentSeq := 1), NewTcpItem(0, m), bufs) == Append;
  }

  lemma SameIpHeader(a: Byte, b: Byte, flagsA: Byte, flagsB: Byte, csumA: Uint16, csumB: Uint16)
    ensures IpHeadersCanCoalesce(Segment(a, flagsA, csumA), Segment(b, flagsB, csumB))
    ensures IpHeadersCanCoalesce(Segment(b, flagsB, csumB), Segment(a, flagsA, csumA))
  {}

  /** A segment with PSH, and then the one in front of it: the merged packet has the latter's headers, and no PSH. */
  lemma PshLost()
    ensures LosesPsh([Buf(Segment(1, FLAG_ACK_PSH, 44747), 100), Buf(Segment(0, FLAG_ACK, 44756), 100)],
                     VIRTIO_NET_HDR_LEN)
  {
    hide ChecksumValid, TcpMetaOf, Segment, TcpPart, IpPart, Field;
    SegmentParses(1, FLAG_ACK_PSH, 44747);
    SegmentParses(0, FLAG_ACK, 44756);
    SegmentValidIff(1, FLAG_ACK_PSH, 44747);
    SegmentValidIff(0, FLAG_ACK, 44756);
    var bufs := [Buf(Segment(1, FLAG_ACK_PSH, 44747), 100), Buf(Segment(0, FLAG_ACK, 44756), 100)];
    var m := TcpMeta(20, 20, true, 1, 1, TcpKey(Zeros(4), Zeros(4), 0, 0, 0, false));
    SameIpHeader(1, 0, FLAG_ACK_PSH, FLAG_ACK, 44747, 44756);
    assert Mode(bufs[1].pkt, m.(sentSeq := 0, pshSet := false), NewTcpItem(0, m), bufs) == Prepend;
  }
}

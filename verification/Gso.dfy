/** Splitting one large TCP or UDP packet into segments of at most gsoSize payload bytes. */
module Gso {
  import opened Bytes
  import opened InternetChecksum

  const IPPROTO_TCP: Byte := 6
  const IPPROTO_UDP: Byte := 17
  const TCP_FLAGS_OFFSET := 13
  const MAX_PACKET := 0xFFFF

  function SrcAddrOffset(isV6: bool): nat { if isV6 then 8 else 12 }

  function AddrLen(isV6: bool): nat { if isV6 then 16 else 4 }

  /** The part of virtioNetHdr that gsoSplit reads. */
  datatype Header = Header(tcp: bool, hdrLen: nat, gsoSize: Uint16, csumStart: nat) {
    function Protocol(): Byte { if tcp then IPPROTO_TCP else IPPROTO_UDP }

    /** csumOffset */
    function CsumOffset(): nat { if tcp then 16 else 6 }

    /** csumStart is the IP header length and hdrLen ends the transport header. */
    predicate Fits(isV6: bool, size: nat) {
      && (if isV6 then 40 else 20) <= csumStart
      && csumStart + (if tcp then 20 else 8) <= hdrLen <= size <= MAX_PACKET
      && (!tcp ==> hdrLen == csumStart + 8)
    }
  }

  // ----- cutting a byte string into pieces

  /** Pieces of g bytes; the last may be shorter, none is empty. */
  function Cut(p: seq<Byte>, g: nat): seq<seq<Byte>>
    requires g > 0
  {
    if p == [] then []
    else if |p| <= g then [p]
    else [p[..g]] + Cut(p[g..], g)
  }

  function Flatten(ps: seq<seq<Byte>>): seq<Byte> {
    if ps == [] then [] else ps[0] + Flatten(ps[1..])
  }

  /** A run of pieces: all but the last of exactly g bytes, the last of at most g, none empty. */
  ghost predicate IsRun(ps: seq<seq<Byte>>, g: nat) {
    && (forall i :: 0 <= i < |ps| ==> 0 < |ps[i]| <= g)
    && (forall i :: 0 <= i < |ps| - 1 ==> |ps[i]| == g)
  }

  lemma {:induction false} CutTiles(p: seq<Byte>, g: nat)
    requires g > 0
    ensures Flatten(Cut(p, g)) == p && IsRun(Cut(p, g), g)
  {
    if |p| > g {
      CutTiles(p[g..], g);
      assert Cut(p, g)[1..] == Cut(p[g..], g);
      assert p == p[..g] + p[g..];
    } else if p != [] {
      assert Flatten([p]) == p + Flatten([]) == p;
    }
  }

  /** Cutting undoes the concatenation of a run. */
  lemma {:induction false} CutOfRun(ps: seq<seq<Byte>>, g: nat)
    requires g > 0 && IsRun(ps, g)
    ensures Cut(Flatten(ps), g) == ps
  {
    if |ps| == 1 {
      assert Flatten(ps) == ps[0] + Flatten([]) == ps[0];
    } else if ps != [] {
      CutOfRun(ps[1..], g);
      var rest := Flatten(ps[1..]);
      assert ps[1..][0] == ps[1];
      assert |rest| >= |ps[1]| by { assert rest == ps[1] + Flatten(ps[1..][1..]); }
      assert (ps[0] + rest)[..g] == ps[0] && (ps[0] + rest)[g..] == rest;
    }
  }

  // ----- checksums of packets

  /** The sum of the pseudo-header of a packet with these leading bytes. */
  function PseudoSum(pkt: seq<Byte>, proto: Byte, isV6: bool, len: nat): nat
    requires SrcAddrOffset(isV6) + 2 * AddrLen(isV6) <= |pkt|
  {
    var at, n := SrcAddrOffset(isV6), AddrLen(isV6);
    Sum(pkt[at..at + n]) + Sum(pkt[at + n..at + 2 * n]) + Sum([0, proto]) + len
  }

  /** The transport checksum verifies: the sum over pseudo-header, header and payload is all ones. */
  ghost predicate ChecksumValid(pkt: seq<Byte>, iphLen: nat, proto: Byte, isV6: bool) {
    && iphLen <= |pkt| <= iphLen + MAX_PACKET
    && SrcAddrOffset(isV6) + 2 * AddrLen(isV6) <= |pkt|
    && Norm(PseudoSum(pkt, proto, isV6, |pkt| - iphLen) + Sum(pkt[iphLen..])) == 0xFFFF
  }

  /** The pseudo-header as bytes: section 3.1 of RFC 793 for IPv4, section 8.1 of RFC 8200 for IPv6. */
  function PseudoHeader(pkt: seq<Byte>, proto: Byte, isV6: bool, len: Uint16): (r: seq<Byte>)
    requires |pkt| >= if isV6 then 40 else 20
  {
    if isV6 then pkt[8..24] + pkt[24..40] + [0, 0, len / 256, len % 256] + [0, 0, 0, proto]
    else pkt[12..16] + pkt[16..20] + [0, proto] + [len / 256, len % 256]
  }

  /** A checksum verifies when the one's-complement sum of pseudo-header, header and payload is all ones. */
  lemma ChecksumValidIff(pkt: seq<Byte>, iphLen: nat, proto: Byte, isV6: bool)
    requires (if isV6 then 40 else 20) <= iphLen <= |pkt| <= MAX_PACKET
    ensures ChecksumValid(pkt, iphLen, proto, isV6) <==>
              Rfc1071(PseudoHeader(pkt, proto, isV6, |pkt| - iphLen) + pkt[iphLen..], 0) == 0xFFFF
  {
    hide Rfc1071, Norm, PseudoHeader;
    var len := |pkt| - iphLen;
    PseudoHeaderSum(pkt, proto, isV6, len);
    var p, body := PseudoHeader(pkt, proto, isV6, len), pkt[iphLen..];
    SumConcat(p, body, |p| / 2);
    Rfc1071IsNorm(p + body, 0);
    assert Norm(0) == 0;
  }

  lemma PseudoHeaderSum(pkt: seq<Byte>, proto: Byte, isV6: bool, len: Uint16)
    requires |pkt| >= if isV6 then 40 else 20
    ensures var p := PseudoHeader(pkt, proto, isV6, len);
            |p| % 2 == 0 && Sum(p) == PseudoSum(pkt, proto, isV6, len)
  {
    hide Sum;
    if isV6 {
      FourParts(pkt[8..24], pkt[24..40], [0, 0, len / 256, len % 256], [0, 0, 0, proto]);
      FourBytes(0, 0, len / 256, len % 256);
      FourBytes(0, 0, 0, proto);
    } else {
      FourParts(pkt[12..16], pkt[16..20], [0, proto], [len / 256, len % 256]);
      TwoBytes(len / 256, len % 256);
    }
    TwoBytes(0, proto);
  }

  lemma TwoBytes(a: Byte, b: Byte)
    ensures Sum([a, b]) == Word(a, b)
  {}

  lemma FourBytes(a: Byte, b: Byte, c: Byte, d: Byte)
    ensures Sum([a, b, c, d]) == Word(a, b) + Word(c, d)
  {
    assert [a, b, c, d][2..] == [c, d];
    TwoBytes(c, d);
  }

  lemma FourParts(a: seq<Byte>, b: seq<Byte>, c: seq<Byte>, d: seq<Byte>)
    requires |a| % 2 == |b| % 2 == |c| % 2 == 0
    ensures Sum(a + b + c + d) == Sum(a) + Sum(b) + Sum(c) + Sum(d)
  {
    SumConcat(a + b + c, d, |a + b + c| / 2);
    SumConcat(a + b, c, |a + b| / 2);
    SumConcat(a, b, |a| / 2);
  }

  method PseudoOf(pkt: seq<Byte>, proto: Byte, isV6: bool, len: Uint16, big: bool) returns (r: Uint64)
    requires SrcAddrOffset(isV6) + 2 * AddrLen(isV6) <= |pkt|
    ensures Norm(r) == Norm(PseudoSum(pkt, proto, isV6, len))
  {
    var at, n := SrcAddrOffset(isV6), AddrLen(isV6);
    r := PseudoHeaderNoFold(proto, pkt[at..at + n], pkt[at + n..at + 2 * n], len, big);
  }

  /** checksumValid */
  method CheckChecksum(pkt: seq<Byte>, iphLen: nat, proto: Byte, isV6: bool, big: bool) returns (ok: bool)
    requires iphLen <= |pkt| <= MAX_PACKET && SrcAddrOffset(isV6) + 2 * AddrLen(isV6) <= |pkt|
    ensures ok == ChecksumValid(pkt, iphLen, proto, isV6)
  {
    hide Norm, Sum, PseudoSum;
    var pseudo := PseudoOf(pkt, proto, isV6, |pkt| - iphLen, big);
    var sum := Checksum(pkt[iphLen..], pseudo, big);
    NormAdd(pseudo, PseudoSum(pkt, proto, isV6, |pkt| - iphLen), Sum(pkt[iphLen..]));
    ok := 0xFFFF - sum == 0;
  }

  /** Storing the complement of the sum over a zeroed even field makes the whole sum all ones. */
  lemma ComplementVerifies(n: nat)
    requires n > 0
    ensures Norm(n + (0xFFFF - Norm(n))) == 0xFFFF
  {
    var q := NormQuotient(n);
    NormShift(n + (0xFFFF - Norm(n)), 0xFFFF, q);
  }

  lemma SumUpdate(b: seq<Byte>, pairs: nat, w: Uint16, r: seq<Byte>)
    requires Put16(b, 2 * pairs, w, r)
    ensures Sum(r) + Read16(b, 2 * pairs) == Sum(b) + w
  {
    SumSplit(b, pairs);
    SumSplit(r, pairs);
  }

  /** A word of the sum between what precedes and what follows it. */
  lemma SumSplit(b: seq<Byte>, pairs: nat)
    requires 2 * pairs + 2 <= |b|
    ensures Sum(b) == Sum(b[..2 * pairs]) + Read16(b, 2 * pairs) + Sum(b[2 * pairs + 2..])
  {
    var at := 2 * pairs;
    assert b == b[..at] + b[at..];
    SumConcat(b[..at], b[at..], pairs);
    assert b[at..][2..] == b[at + 2..];
  }

  // ----- one segment

  /** Clears FIN and PSH: the upper half stays, and so do the two bits in between. */
  function ClearFinPsh(flags: Byte): Byte { flags / 16 * 16 + flags / 2 % 4 * 2 }

  /** Bits 0 and 3 are clear, and the other six are as they were. */
  predicate FinPshCleared(r: Byte, flags: Byte) {
    r % 2 == 0 && r / 8 % 2 == 0 && r / 2 % 4 == flags / 2 % 4 && r / 16 == flags / 16
  }

  lemma FlagsCleared(flags: Byte)
    ensures FinPshCleared(ClearFinPsh(flags), flags)
  {
    TwoFields(flags / 16, flags / 2 % 4);
  }

  lemma TwoFields(a: nat, b: nat)
    requires b < 4
    ensures var r := 16 * a + 2 * b;
            r % 2 == 0 && r / 8 % 2 == 0 && r / 2 % 4 == b && r / 16 == a
  {
    var r := 16 * a + 2 * b;
    assert r / 2 == 8 * a + b && r / 8 == 2 * a;
  }

  /** What becomes of the IP header in segment i, whose total length is `total`. */
  ghost predicate IpHeaderOk(ip: seq<Byte>, from: seq<Byte>, isV6: bool, i: nat, total: nat)
    requires |from| >= if isV6 then 40 else 20
  {
    && |ip| == |from|
    && if isV6 then
         Read16(ip, 4) == total - |ip| && forall j :: 0 <= j < |ip| && j != 4 && j != 5 ==> ip[j] == from[j]
       else
         && Read16(ip, 2) == total
         && Read16(ip, 4) == (Read16(from, 4) + i) % TWO16
         && Norm(Sum(ip)) == 0xFFFF
         && forall j :: 0 <= j < |ip| && !(2 <= j < 6) && j != 10 && j != 11 ==> ip[j] == from[j]
  }

  method EmitIpHeader(from: seq<Byte>, isV6: bool, i: nat, total: Uint16, big: bool) returns (ip: seq<Byte>)
    requires |from| >= if isV6 then 40 else 20
    requires !isV6 ==> Read16(from, 10) == 0
    requires |from| <= total && 0 < total
    ensures IpHeaderOk(ip, from, isV6, i, total)
  {
    if isV6 {
      ip := PutUint16(from, 4, total - |from|);
    } else {
      ip := AdvanceId(from, i);
      ip := PutUint16(ip, 2, total);
      ip := StoreHeaderChecksum(ip, big);
    }
  }

  /** The IPv4 ID of segment i. */
  method AdvanceId(ip: seq<Byte>, i: nat) returns (r: seq<Byte>)
    requires |ip| >= 20
    ensures |r| == |ip| && Read16(r, 4) == (Read16(ip, 4) + i) % TWO16
    ensures forall j :: 0 <= j < |ip| && j != 4 && j != 5 ==> r[j] == ip[j]
  {
    r := ip;
    if i > 0 {
      r := PutUint16(ip, 4, (Read16(ip, 4) + i) % TWO16);
    }
  }

  method StoreHeaderChecksum(ip: seq<Byte>, big: bool) returns (r: seq<Byte>)
    requires |ip| >= 20 && Read16(ip, 10) == 0 && Read16(ip, 2) > 0
    ensures |r| == |ip| && Norm(Sum(r)) == 0xFFFF
    ensures forall j :: 0 <= j < |ip| && j != 10 && j != 11 ==> r[j] == ip[j]
  {
    var sum := Checksum(ip, 0, big);
    SumSplit(ip, 1);
    ComplementVerifies(Sum(ip));
    r := PutUint16(ip, 10, 0xFFFF - sum);
    SumUpdate(ip, 5, 0xFFFF - sum, r);
  }

  /** What becomes of the transport header in segment i. */
  ghost predicate TransportHeaderOk(th: seq<Byte>, from: seq<Byte>, hdr: Header, i: nat, size: nat, last: bool)
    requires |from| >= if hdr.tcp then 20 else 8
  {
    && |th| == |from|
    && if hdr.tcp then
         && Read32(th, 4) == (Read32(from, 4) + i * hdr.gsoSize) % TWO32
         && (if last then th[TCP_FLAGS_OFFSET] == from[TCP_FLAGS_OFFSET]
             else FinPshCleared(th[TCP_FLAGS_OFFSET], from[TCP_FLAGS_OFFSET]))
         && forall j :: 0 <= j < |th| && !(4 <= j < 8) && j != TCP_FLAGS_OFFSET && j != 16 && j != 17 ==>
              th[j] == from[j]
       else
         && Read16(th, 4) == 8 + size
         && forall j :: 0 <= j < |th| && !(4 <= j < 8) ==> th[j] == from[j]
  }

  /** The transport header before its checksum is stored. */
  method EmitTransportFields(from: seq<Byte>, hdr: Header, i: nat, size: nat, last: bool) returns (th: seq<Byte>)
    requires |from| >= if hdr.tcp then 20 else 8
    requires i * hdr.gsoSize <= MAX_PACKET && size + 8 <= MAX_PACKET
    ensures TransportHeaderOk(th, from, hdr, i, size, last)
    ensures Read16(th, hdr.CsumOffset()) == Read16(from, hdr.CsumOffset())
  {
    th := from;
    if hdr.tcp {
      // the product is computed in 16 bits; within a packet it never wraps
      var advance := (hdr.gsoSize * i) % TWO16;
      assert advance == i * hdr.gsoSize;
      th := PutUint32(th, 4, (Read32(th, 4) + advance) % TWO32);
      if !last {
        FlagsCleared(th[TCP_FLAGS_OFFSET]);
        th := th[TCP_FLAGS_OFFSET := ClearFinPsh(th[TCP_FLAGS_OFFSET])];
      }
    } else {
      th := PutUint16(th, 4, size + 8);
    }
  }

  /** Completes a segment: the transport checksum makes the packet verify. */
  method SealTransport(ip: seq<Byte>, th: seq<Byte>, data: seq<Byte>, hdr: Header, isV6: bool, big: bool)
    returns (sealed: seq<Byte>)
    requires |ip| >= (if isV6 then 40 else 20) && |th| >= (if hdr.tcp then 20 else 8)
    requires |th| + |data| <= MAX_PACKET && Read16(th, hdr.CsumOffset()) == 0
    ensures |sealed| == |th|
    ensures forall j :: 0 <= j < |th| && j != hdr.CsumOffset() && j != hdr.CsumOffset() + 1 ==> sealed[j] == th[j]
    ensures ChecksumValid(ip + sealed + data, |ip|, hdr.Protocol(), isV6)
  {
    var len := |th| + |data|;
    var pseudo := PseudoOf(ip, hdr.Protocol(), isV6, len, big);
    var body := th + data;
    var sum := Checksum(body, pseudo, big);
    sealed := PutUint16(th, hdr.CsumOffset(), 0xFFFF - sum);
    SealedVerifies(ip, th, data, hdr, isV6, pseudo, sum, sealed);
  }

  lemma SealedVerifies(ip: seq<Byte>, th: seq<Byte>, data: seq<Byte>, hdr: Header, isV6: bool,
                       pseudo: Uint64, sum: Uint16, sealed: seq<Byte>)
    requires |ip| >= (if isV6 then 40 else 20) && |th| >= (if hdr.tcp then 20 else 8)
    requires |th| + |data| <= MAX_PACKET && Read16(th, hdr.CsumOffset()) == 0
    requires Norm(pseudo) == Norm(PseudoSum(ip, hdr.Protocol(), isV6, |th| + |data|))
    requires sum == Norm(pseudo + Sum(th + data))
    requires Put16(th, hdr.CsumOffset(), 0xFFFF - sum, sealed)
    ensures ChecksumValid(ip + sealed + data, |ip|, hdr.Protocol(), isV6)
  {
    hide Norm, Sum, PseudoSum, Put16, Read16;
    var body := th + data;
    PutInFront(th, data, hdr.CsumOffset(), 0xFFFF - sum, sealed);
    SumUpdate(body, if hdr.tcp then 8 else 3, 0xFFFF - sum, sealed + data);
    SealedSum(ip, hdr.Protocol(), isV6, |th| + |data|, pseudo, Sum(body));
    PseudoOfPacket(ip, sealed + data, hdr.Protocol(), isV6, |th| + |data|);
    assert ip + sealed + data == ip + (sealed + data);
    assert (ip + (sealed + data))[|ip|..] == sealed + data;
  }

  lemma SealedSum(ip: seq<Byte>, proto: Byte, isV6: bool, len: nat, pseudo: nat, body: nat)
    requires |ip| >= (if isV6 then 40 else 20) && proto > 0
    requires Norm(pseudo) == Norm(PseudoSum(ip, proto, isV6, len))
    ensures Norm(PseudoSum(ip, proto, isV6, len) + (body + (0xFFFF - Norm(pseudo + body)))) == 0xFFFF
  {
    NormAdd(pseudo, PseudoSum(ip, proto, isV6, len), body);
    SumPositive(proto);
    ComplementVerifies(PseudoSum(ip, proto, isV6, len) + body);
  }

  lemma PutInFront(th: seq<Byte>, data: seq<Byte>, at: nat, w: Uint16, r: seq<Byte>)
    requires Put16(th, at, w, r)
    ensures Put16(th + data, at, w, r + data)
    ensures Read16(th + data, at) == Read16(th, at)
  {
    assert (th + data)[at + 2..] == th[at + 2..] + data == (r + data)[at + 2..];
    assert (th + data)[..at] == th[..at] == r[..at] == (r + data)[..at];
  }

  /** The pseudo-header is read from the IP header alone. */
  lemma PseudoOfPacket(ip: seq<Byte>, rest: seq<Byte>, proto: Byte, isV6: bool, len: nat)
    requires |ip| >= if isV6 then 40 else 20
    ensures PseudoSum(ip + rest, proto, isV6, len) == PseudoSum(ip, proto, isV6, len)
  {
    var at, n := SrcAddrOffset(isV6), AddrLen(isV6);
    assert (ip + rest)[at..at + n] == ip[at..at + n];
    assert (ip + rest)[at + n..at + 2 * n] == ip[at + n..at + 2 * n];
  }

  lemma SumPositive(proto: Byte)
    requires proto > 0
    ensures Sum([0, proto]) > 0
  {
    assert Sum([0, proto]) == Word(0, proto);
  }

  // ----- the whole packet

  /** seg is segment i of the packet, carrying data. */
  ghost predicate SegmentOk(seg: seq<Byte>, packet: seq<Byte>, hdr: Header, isV6: bool,
                            i: nat, data: seq<Byte>, last: bool)
    requires hdr.Fits(isV6, |packet|)
  {
    var c, h := hdr.csumStart, hdr.hdrLen;
    && |seg| == h + |data|
    && seg[h..] == data
    && IpHeaderOk(seg[..c], packet[..c], isV6, i, |seg|)
    && TransportHeaderOk(seg[c..h], packet[c..h], hdr, i, |data|, last)
    && ChecksumValid(seg, c, hdr.Protocol(), isV6)
  }

  /** The two headers of the packet with the IPv4 header checksum and the transport checksum cleared. */
  ghost predicate Cleared(packet: seq<Byte>, hdr: Header, isV6: bool, ip: seq<Byte>, th: seq<Byte>)
    requires hdr.Fits(isV6, |packet|)
  {
    && |ip| == hdr.csumStart && |th| == hdr.hdrLen - hdr.csumStart
    && (!isV6 ==> Read16(ip, 10) == 0)
    && Read16(th, hdr.CsumOffset()) == 0
    && (forall j :: 0 <= j < |ip| && (isV6 || (j != 10 && j != 11)) ==> ip[j] == packet[j])
    && (forall j :: 0 <= j < |th| && j != hdr.CsumOffset() && j != hdr.CsumOffset() + 1 ==>
          th[j] == packet[hdr.csumStart..hdr.hdrLen][j])
  }

  method ClearChecksums(packet: seq<Byte>, hdr: Header, isV6: bool) returns (ip: seq<Byte>, th: seq<Byte>)
    requires hdr.Fits(isV6, |packet|)
    ensures Cleared(packet, hdr, isV6, ip, th)
  {
    ip := packet[..hdr.csumStart];
    if !isV6 {
      ip := PutUint16(ip, 10, 0);
    }
    th := PutUint16(packet[hdr.csumStart..hdr.hdrLen], hdr.CsumOffset(), 0);
  }

  method EmitSegment(packet: seq<Byte>, ip: seq<Byte>, th: seq<Byte>, hdr: Header, isV6: bool,
                     i: nat, data: seq<Byte>, last: bool, big: bool) returns (seg: seq<Byte>)
    requires hdr.Fits(isV6, |packet|) && hdr.hdrLen + |data| <= MAX_PACKET && i * hdr.gsoSize <= MAX_PACKET
    requires Cleared(packet, hdr, isV6, ip, th)
    ensures SegmentOk(seg, packet, hdr, isV6, i, data, last)
  {
    var out := EmitIpHeader(ip, isV6, i, hdr.hdrLen + |data|, big);
    var fields := EmitTransportFields(th, hdr, i, |data|, last);
    var sealed := SealTransport(out, fields, data, hdr, isV6, big);
    seg := out + sealed + data;
    assert seg[..hdr.csumStart] == out;
    assert seg[hdr.csumStart..hdr.hdrLen] == sealed;
    assert seg[hdr.hdrLen..] == data;
    IpHeaderFrom(out, ip, packet[..hdr.csumStart], isV6, i, hdr.hdrLen + |data|);
    TransportHeaderFrom(sealed, fields, th, packet[hdr.csumStart..hdr.hdrLen], hdr, i, |data|, last);
  }

  lemma IpHeaderFrom(out: seq<Byte>, ip: seq<Byte>, from: seq<Byte>, isV6: bool, i: nat, total: nat)
    requires |from| == |ip| >= if isV6 then 40 else 20
    requires IpHeaderOk(out, ip, isV6, i, total)
    requires forall j :: 0 <= j < |ip| && (isV6 || (j != 10 && j != 11)) ==> ip[j] == from[j]
    ensures IpHeaderOk(out, from, isV6, i, total)
  {}

  lemma TransportHeaderFrom(sealed: seq<Byte>, fields: seq<Byte>, th: seq<Byte>, from: seq<Byte>,
                            hdr: Header, i: nat, size: nat, last: bool)
    requires |from| == |th| >= if hdr.tcp then 20 else 8
    requires TransportHeaderOk(fields, th, hdr, i, size, last) && |sealed| == |th|
    requires forall j :: 0 <= j < |th| && j != hdr.CsumOffset() && j != hdr.CsumOffset() + 1 ==>
               sealed[j] == fields[j] && th[j] == from[j]
    ensures TransportHeaderOk(sealed, from, hdr, i, size, last)
  {}

  /** The segments so far carry the first pieces. */
  ghost predicate Emitted(outs: seq<seq<Byte>>, sizes: seq<nat>, packet: seq<Byte>, hdr: Header, isV6: bool,
                          pieces: seq<seq<Byte>>)
    requires hdr.Fits(isV6, |packet|)
  {
    && |outs| == |sizes| <= |pieces|
    && (forall i :: 0 <= i < |outs| ==> sizes[i] == |outs[i]|)
    && (forall i :: 0 <= i < |outs| ==>
          SegmentOk(outs[i], packet, hdr, isV6, i, pieces[i], i == |pieces| - 1))
  }

  /** The segment that starts at payload position `at`, and where the next one starts. */
  method EmitAt(packet: seq<Byte>, ip: seq<Byte>, th: seq<Byte>, hdr: Header, isV6: bool,
                i: nat, at: nat, big: bool, ghost pieces: seq<seq<Byte>>) returns (seg: seq<Byte>, size: nat, end: nat)
    requires hdr.Fits(isV6, |packet|) && Cleared(packet, hdr, isV6, ip, th)
    requires hdr.hdrLen <= at < |packet| && i * hdr.gsoSize <= MAX_PACKET
    requires hdr.gsoSize > 0 ==> i <= |pieces| && pieces[i..] == Cut(packet[at..], hdr.gsoSize)
    ensures end == if at + hdr.gsoSize > |packet| then |packet| else at + hdr.gsoSize
    ensures hdr.gsoSize > 0 ==>
      && i < |pieces| && pieces[i + 1..] == Cut(packet[end..], hdr.gsoSize)
      && size == |seg| && SegmentOk(seg, packet, hdr, isV6, i, pieces[i], i == |pieces| - 1)
  {
    hide Cut, Cleared;
    end := if at + hdr.gsoSize > |packet| then |packet| else at + hdr.gsoSize;
    var data := packet[at..end];
    seg := EmitSegment(packet, ip, th, hdr, isV6, i, data, end == |packet|, big);
    size := hdr.hdrLen + |data|;
    if hdr.gsoSize > 0 { NextPiece(packet, at, end, hdr.gsoSize, pieces, i); }
  }

  lemma NextStart(at: nat, base: nat, i: nat, g: nat)
    requires at == base + i * g
    ensures at + g == base + (i + 1) * g
    ensures base <= at
  {}

  /** The segments tile the payload; too few buffers is the only failure. */
  method GsoSplit(packet: seq<Byte>, hdr: Header, slots: nat, isV6: bool, big: bool)
    returns (n: int, outs: seq<seq<Byte>>, sizes: seq<nat>, tooMany: bool)
    requires hdr.Fits(isV6, |packet|)
    ensures hdr.gsoSize > 0 ==>
      var pieces := Cut(packet[hdr.hdrLen..], hdr.gsoSize);
      && tooMany == (|pieces| > slots)
      && (!tooMany ==> n == |outs| == |pieces| && Emitted(outs, sizes, packet, hdr, isV6, pieces))
    ensures hdr.gsoSize == 0 ==> tooMany == (hdr.hdrLen < |packet|)
    ensures tooMany ==> n == slots - 1
  {
    hide SegmentOk, Cut, ChecksumValid, Norm, Cleared;
    var ip, th := ClearChecksums(packet, hdr, isV6);
    var at := hdr.hdrLen;
    var g := hdr.gsoSize;
    outs, sizes, tooMany := [], [], false;
    var i := 0;
    ghost var pieces := if g > 0 then Cut(packet[hdr.hdrLen..], g) else [];
    while at < |packet|
      invariant 0 <= i == |outs| == |sizes| <= slots
      invariant at == hdr.hdrLen + i * g
      invariant g > 0 ==> i <= |pieces| && pieces[i..] == Cut(packet[if at <= |packet| then at else |packet|..], g)
      invariant g > 0 ==> Emitted(outs, sizes, packet, hdr, isV6, pieces)
      decreases slots - i
    {
      if i == slots {
        tooMany := true;
        n := i - 1;
        NonEmptyCut(packet, at, g, pieces, i);
        return;
      }
      NextStart(at, hdr.hdrLen, i, g);
      var seg, size, end := EmitAt(packet, ip, th, hdr, isV6, i, at, big, pieces);
      outs := outs + [seg];
      sizes := sizes + [size];
      at := at + g;
      i := i + 1;
    }
    n := i;
    EmptyCut(packet, g, pieces, i);
  }

  lemma NextPiece(packet: seq<Byte>, at: nat, end: nat, g: nat, pieces: seq<seq<Byte>>, i: nat)
    requires g > 0 && at < |packet| && end == (if at + g > |packet| then |packet| else at + g)
    requires i <= |pieces| && pieces[i..] == Cut(packet[at..], g)
    ensures i < |pieces| && pieces[i] == packet[at..end]
    ensures pieces[i + 1..] == Cut(packet[end..], g)
    ensures i == |pieces| - 1 <==> end == |packet|
  {
    var rest := packet[at..];
    assert pieces[i] == pieces[i..][0];
    assert pieces[i + 1..] == pieces[i..][1..];
    if |rest| > g {
      assert rest[..g] == packet[at..end] && rest[g..] == packet[end..];
      assert Cut(rest, g)[1..] == Cut(rest[g..], g);
    } else {
      assert rest == packet[at..end];
    }
  }

  lemma NonEmptyCut(packet: seq<Byte>, at: nat, g: nat, pieces: seq<seq<Byte>>, i: nat)
    requires at < |packet|
    requires g > 0 ==> i <= |pieces| && pieces[i..] == Cut(packet[at..], g)
    ensures g > 0 ==> |pieces| > i
  {
    if g > 0 { assert |Cut(packet[at..], g)| > 0; }
  }

  lemma EmptyCut(packet: seq<Byte>, g: nat, pieces: seq<seq<Byte>>, i: nat)
    requires g > 0 ==> i <= |pieces| && pieces[i..] == Cut(packet[|packet|..], g)
    ensures g > 0 ==> |pieces| == i
  {}
}

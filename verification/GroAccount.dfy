/** What receive offload finally writes in front of and into the headers of a merged packet. */
module GroAccount {
  import opened Bytes
  import opened InternetChecksum
  import opened Gso
  import opened GroState

  /** The virtio header in front of a written packet: none needed, or one that asks for segmentation. */
  datatype Written = Plain | Offload(hdr: Header, isV6: bool)

  /** What the accounting pass does for one item of a table. */
  datatype Job = Job(w: nat, merged: bool, hdr: Header, isV6: bool)

  /** The packet's headers account for all that has been merged into it. */
  ghost predicate HeadersFixed(p: seq<Byte>, r: seq<Byte>, hdr: Header, isV6: bool)
    requires hdr.Fits(isV6, |p|)
  {
    var c := hdr.csumStart;
    && SameBehind(r, p, hdr.hdrLen)
    && (if isV6 then Read16(r, 4) == |r| - c else Read16(r, 2) == |r| && Norm(Sum(r[..c])) == 0xFFFF)
    && Read16(r, c + hdr.CsumOffset()) == Norm(PseudoSum(r, hdr.Protocol(), isV6, |r| - c))
    && (!hdr.tcp ==> Read16(r, c + 4) == |r| - c)
    && forall i :: 0 <= i < |p| && !Accounted(hdr, isV6, i) ==> r[i] == p[i]
  }

  /** The header bytes that accounting may change: lengths and checksums. */
  predicate Accounted(hdr: Header, isV6: bool, i: nat) {
    var c := hdr.csumStart;
    || (if isV6 then 4 <= i < 6 else 2 <= i < 4 || 10 <= i < 12)
    || c + hdr.CsumOffset() <= i < c + hdr.CsumOffset() + 2
    || (!hdr.tcp && c + 4 <= i < c + 6)
  }

  ghost predicate IpFixed(from: seq<Byte>, r: seq<Byte>, isV6: bool, total: nat)
    requires |from| >= 20
  {
    && |r| == |from|
    && (if isV6 then Read16(r, 4) == total - |r| else Read16(r, 2) == total && Norm(Sum(r)) == 0xFFFF)
    && forall i :: 0 <= i < |r| && !(if isV6 then 4 <= i < 6 else 2 <= i < 4 || 10 <= i < 12) ==> r[i] == from[i]
  }

  ghost predicate TransportFixed(from: seq<Byte>, r: seq<Byte>, hdr: Header, len: nat, sum: Uint16)
    requires |from| >= if hdr.tcp then 20 else 8
  {
    && |r| == |from| && Read16(r, hdr.CsumOffset()) == sum && (!hdr.tcp ==> Read16(r, 4) == len)
    && forall i :: 0 <= i < |r| && !(hdr.CsumOffset() <= i < hdr.CsumOffset() + 2) && (hdr.tcp || !(4 <= i < 6)) ==>
         r[i] == from[i]
  }

  /** The IP header with its new length and, for IPv4, its new checksum. */
  method FixIp(ip: seq<Byte>, isV6: bool, total: Uint16, big: bool) returns (r: seq<Byte>)
    requires |ip| == (if isV6 then 40 else 20) && |ip| <= total
    ensures IpFixed(ip, r, isV6, total)
  {
    if isV6 {
      r := PutUint16(ip, 4, total - |ip|);
    } else {
      r := PutUint16(ip, 10, 0);
      r := PutUint16(r, 2, total);
      r := StoreHeaderChecksum(r, big);
    }
  }

  /** The transport header with the UDP length and the pseudo-header sum that checksum offload starts from. */
  method FixTransport(th: seq<Byte>, hdr: Header, len: Uint16, sum: Uint16) returns (r: seq<Byte>)
    requires |th| >= if hdr.tcp then 20 else 8
    ensures TransportFixed(th, r, hdr, len, sum)
  {
    r := th;
    if !hdr.tcp {
      r := PutUint16(r, 4, len);
    }
    r := PutUint16(r, hdr.CsumOffset(), sum);
  }

  method FixHeaders(p: seq<Byte>, hdr: Header, isV6: bool, big: bool) returns (r: seq<Byte>)
    requires hdr.Fits(isV6, |p|) && hdr.csumStart == if isV6 then 40 else 20
    ensures HeadersFixed(p, r, hdr, isV6)
  {
    hide IpFixed, TransportFixed, HeadersFixed, Norm, Sum;
    var c, h := hdr.csumStart, hdr.hdrLen;
    var ip := FixIp(p[..c], isV6, |p|, big);
    IpFixedSize(p[..c], ip, isV6, |p|);
    var pseudo := PseudoOf(ip, hdr.Protocol(), isV6, |p| - c, big);
    var sum := Checksum([], pseudo, big);
    assert sum == Norm(pseudo) by { EmptySum(pseudo); }
    var th := FixTransport(p[c..h], hdr, |p| - c, sum);
    r := ip + th + p[h..];
    Reassembled(p, ip, th, hdr, isV6, sum, r);
  }

  lemma EmptySum(n: nat)
    ensures Norm(n + Sum([])) == Norm(n)
  {}

  lemma IpFixedSize(from: seq<Byte>, r: seq<Byte>, isV6: bool, total: nat)
    requires |from| >= 20 && IpFixed(from, r, isV6, total)
    ensures |r| == |from|
  {}

  lemma Reassembled(p: seq<Byte>, ip: seq<Byte>, th: seq<Byte>, hdr: Header, isV6: bool, sum: Uint16, r: seq<Byte>)
    requires hdr.Fits(isV6, |p|) && hdr.csumStart == if isV6 then 40 else 20
    requires var c, h := hdr.csumStart, hdr.hdrLen;
             && IpFixed(p[..c], ip, isV6, |p|) && TransportFixed(p[c..h], th, hdr, |p| - c, sum)
             && sum == Norm(PseudoSum(ip, hdr.Protocol(), isV6, |p| - c)) && r == ip + th + p[h..]
    ensures HeadersFixed(p, r, hdr, isV6)
  {
    hide Norm, Sum, PseudoSum;
    var c, h := hdr.csumStart, hdr.hdrLen;
    Assembled(p, ip, th, c, h, r);
    PseudoOfPacket(ip, th + p[h..], hdr.Protocol(), isV6, |p| - c);
    UntouchedBytes(p, ip, th, hdr, isV6, sum, r);
  }

  lemma UntouchedBytes(p: seq<Byte>, ip: seq<Byte>, th: seq<Byte>, hdr: Header, isV6: bool, sum: Uint16, r: seq<Byte>)
    requires hdr.Fits(isV6, |p|) && hdr.csumStart == if isV6 then 40 else 20
    requires var c, h := hdr.csumStart, hdr.hdrLen;
             && IpFixed(p[..c], ip, isV6, |p|) && TransportFixed(p[c..h], th, hdr, |p| - c, sum)
             && r == ip + th + p[h..]
    ensures forall i :: 0 <= i < |p| && !Accounted(hdr, isV6, i) ==> r[i] == p[i]
  {
    hide Norm, Sum, Read16;
    Assembled(p, ip, th, hdr.csumStart, hdr.hdrLen, r);
    forall i | 0 <= i < |p| && !Accounted(hdr, isV6, i) ensures r[i] == p[i] {
      if i >= hdr.hdrLen { assert r[hdr.hdrLen..][i - hdr.hdrLen] == p[hdr.hdrLen..][i - hdr.hdrLen]; }
    }
  }

  lemma Assembled(p: seq<Byte>, ip: seq<Byte>, th: seq<Byte>, c: nat, h: nat, r: seq<Byte>)
    requires c <= h <= |p| && |ip| == c && |th| == h - c && r == ip + th + p[h..]
    ensures SameBehind(r, p, h) && r[..c] == ip && r == ip + (th + p[h..])
    ensures forall i :: 0 <= i < c ==> r[i] == ip[i]
    ensures forall i :: c <= i < h ==> r[i] == th[i - c] && p[i] == p[c..h][i - c]
  {}

  /** The job has been done. */
  ghost predicate Done(job: Job, before: seq<Buf>, after: seq<Buf>, hdrs: map<nat, Written>) {
    && job.w < |before| == |after| && job.w in hdrs
    && job.hdr.Fits(job.isV6, |before[job.w].pkt|)
    && if !job.merged then hdrs[job.w] == Plain && after[job.w] == before[job.w]
       else
         && hdrs[job.w] == Offload(job.hdr, job.isV6) && after[job.w].cap == before[job.w].cap
         && HeadersFixed(before[job.w].pkt, after[job.w].pkt, job.hdr, job.isV6)
  }

  /** Every job of a flow has been done. */
  ghost predicate AllDone(jobs: seq<Job>, before: seq<Buf>, after: seq<Buf>, hdrs: map<nat, Written>) {
    forall j {:trigger jobs[j]} :: 0 <= j < |jobs| ==> Done(jobs[j], before, after, hdrs)
  }

  /** The buffer of the job is tracked by t, and its header sizes are those of the buffer's group. */
  ghost predicate JobOk(job: Job, groups: map<nat, Group>, bufs: seq<Buf>, t: Tracking) {
    && job.w in groups && job.w < |bufs| && groups[job.w].tracking == t
    && job.hdr.Fits(job.isV6, |bufs[job.w].pkt|) && job.hdr.csumStart == (if job.isV6 then 40 else 20)
    && job.hdr.hdrLen == groups[job.w].h
    && (job.merged ==> |groups[job.w].members| > 1)
  }

  ghost predicate JobsOk(jobs: seq<Job>, groups: map<nat, Group>, bufs: seq<Buf>, t: Tracking) {
    && (forall j {:trigger jobs[j]} :: 0 <= j < |jobs| ==> JobOk(jobs[j], groups, bufs, t))
    && (forall i, j :: 0 <= i < j < |jobs| ==> jobs[i].w != jobs[j].w)
  }

  /** Buffers that t does not track, and what is in front of them, are as before. */
  ghost predicate OthersKept(groups: map<nat, Group>, t: Tracking, before: seq<Buf>, after: seq<Buf>,
                             hdrs: map<nat, Written>, hdrs': map<nat, Written>) {
    && |before| == |after|
    && forall v: nat {:trigger SameSlot(v, before, after, hdrs, hdrs')} ::
         v < |before| && !(v in groups && groups[v].tracking == t) ==> SameSlot(v, before, after, hdrs, hdrs')
  }

  ghost predicate SameSlot(v: nat, before: seq<Buf>, after: seq<Buf>, hdrs: map<nat, Written>, hdrs': map<nat, Written>)
  {
    && v < |before| == |after| && after[v] == before[v]
    && (v in hdrs <==> v in hdrs') && (v in hdrs ==> hdrs'[v] == hdrs[v])
  }

  /** Only buffer w, and what is in front of it, may have changed. */
  ghost predicate OnlySlot(w: nat, before: seq<Buf>, after: seq<Buf>, hdrs: map<nat, Written>, hdrs': map<nat, Written>)
  {
    && |before| == |after|
    && forall v: nat {:trigger SameSlot(v, before, after, hdrs, hdrs')} ::
         v < |before| && v != w ==> SameSlot(v, before, after, hdrs, hdrs')
  }

  lemma DoneKept(job: Job, before: seq<Buf>, mid: seq<Buf>, after: seq<Buf>, hdrs: map<nat, Written>,
                 hdrs': map<nat, Written>)
    requires Done(job, before, mid, hdrs) && SameSlot(job.w, mid, after, hdrs, hdrs')
    ensures Done(job, before, after, hdrs')
  {
    hide HeadersFixed;
  }

  /** A job is done just as well when its buffer had not been touched before. */
  lemma DoneFrom(job: Job, before: seq<Buf>, mid: seq<Buf>, after: seq<Buf>, hdrs: map<nat, Written>)
    requires Done(job, mid, after, hdrs) && |before| == |mid| && before[job.w] == mid[job.w]
    ensures Done(job, before, after, hdrs)
  {
    hide HeadersFixed;
  }

  /** The buffers of the jobs are tracked by t. */
  ghost predicate JobsTracked(jobs: seq<Job>, groups: map<nat, Group>, t: Tracking, n: nat) {
    forall j {:trigger jobs[j]} :: 0 <= j < |jobs| ==>
      jobs[j].w < n && jobs[j].w in groups && groups[jobs[j].w].tracking == t
  }

  lemma JobsOkTracked(jobs: seq<Job>, groups: map<nat, Group>, bufs: seq<Buf>, t: Tracking)
    requires JobsOk(jobs, groups, bufs, t)
    ensures JobsTracked(jobs, groups, t, |bufs|)
  {}

  lemma AllDoneFrom(jobs: seq<Job>, before: seq<Buf>, mid: seq<Buf>, after: seq<Buf>, hdrs: map<nat, Written>)
    requires AllDone(jobs, mid, after, hdrs) && |before| == |mid|
    requires forall j {:trigger jobs[j]} :: 0 <= j < |jobs| ==> jobs[j].w < |mid| && mid[jobs[j].w] == before[jobs[j].w]
    ensures AllDone(jobs, before, after, hdrs)
  {
    forall j | 0 <= j < |jobs| ensures Done(jobs[j], before, after, hdrs) {
      DoneFrom(jobs[j], before, mid, after, hdrs);
    }
  }

  /** Two flows do not share buffers: accounting for one keeps what was done for the other. */
  lemma AllDoneKept(jobs: seq<Job>, groups: map<nat, Group>, t: Tracking, other: Tracking, before: seq<Buf>,
                    mid: seq<Buf>, after: seq<Buf>, hdrs: map<nat, Written>, hdrs': map<nat, Written>)
    requires AllDone(jobs, before, mid, hdrs) && OthersKept(groups, other, mid, after, hdrs, hdrs') && t != other
    requires JobsTracked(jobs, groups, t, |before|)
    ensures AllDone(jobs, before, after, hdrs')
  {
    forall j | 0 <= j < |jobs| ensures Done(jobs[j], before, after, hdrs') {
      DoneKept(jobs[j], before, mid, after, hdrs, hdrs');
    }
  }
}

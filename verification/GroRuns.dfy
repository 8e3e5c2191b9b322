/** Table items describe contiguous runs of packets, through every kind of merge. */
module GroRuns {
  import opened Bytes
  import opened Gso
  import opened GroState
  import opened GroRules

  lemma {:induction false} RunLength(ps: seq<seq<Byte>>, g: nat)
    requires IsRun(ps, g) && ps != []
    ensures |Flatten(ps)| == (|ps| - 1) * g + |ps[|ps| - 1]|
  {
    if |ps| == 1 {
      FlattenOne(ps[0]);
    } else {
      RunLength(ps[1..], g);
      assert (|ps| - 1) * g == (|ps| - 2) * g + g;
    }
  }

  /** A multiple of g is not n * g + r with 0 < r < g. */
  lemma NotMultiple(n: nat, g: nat, r: nat)
    requires 0 < r < g
    ensures (n * g + r) % g != 0
  {
    var q := (n * g + r) / g;
    NoMultipleBetween(q - n, g, r);
    assert (q - n) * g == q * g - n * g;
  }

  lemma NoMultipleBetween(d: int, g: nat, r: nat)
    requires 0 < r < g
    ensures d * g != r
  {
    if d >= 1 { assert d * g >= g; } else { assert d * g <= 0; }
  }

  /** A run whose length is a multiple of g has a full last piece. */
  lemma RunFull(ps: seq<seq<Byte>>, g: nat)
    requires g > 0 && IsRun(ps, g) && ps != [] && |Flatten(ps)| % g == 0
    ensures |ps[|ps| - 1]| == g && |Flatten(ps)| == |ps| * g
  {
    RunLength(ps, g);
    FullLast(|ps| - 1, g, |ps[|ps| - 1]|);
  }

  lemma FullLast(n: nat, g: nat, last: nat)
    requires 0 < last <= g && (n * g + last) % g == 0
    ensures last == g && n * g + last == (n + 1) * g
  {
    if last < g { NotMultiple(n, g, last); }
  }

  lemma RunAppend(ps: seq<seq<Byte>>, g: nat, p: seq<Byte>)
    requires g > 0 && IsRun(ps, g) && ps != [] && |Flatten(ps)| % g == 0 && 0 < |p| <= g
    ensures IsRun(ps + [p], g)
  {
    RunFull(ps, g);
  }

  lemma RunPrepend(ps: seq<seq<Byte>>, g: nat, p: seq<Byte>)
    requires IsRun(ps, g) && (|p| == g || (|p| > g && |ps| == 1)) && p != []
    ensures IsRun([p] + ps, |p|)
  {}

  // ----- TCP

  /** What was read from the packets that entered the TCP table. */
  type TcpMetas = map<nat, TcpMeta>

  ghost predicate TcpMembers(g: Group, input: seq<seq<Byte>>, metas: TcpMetas, key: TcpKey, tcphLen: nat) {
    && MembersFit(g, input)
    && forall j {:trigger g.members[j]} :: 0 <= j < |g.members| ==>
         TcpMember(g.members[j], g.h, input, metas, key, tcphLen)
  }

  /** Packet k is of the flow and has the header sizes of the group. */
  ghost predicate TcpMember(k: nat, h: nat, input: seq<seq<Byte>>, metas: TcpMetas, key: TcpKey, tcphLen: nat) {
    && k < |input| && k in metas
    && metas[k].key == key && metas[k].tcphLen == tcphLen
    && metas[k].gsoSize > 0 && |input[k]| == h + metas[k].gsoSize
  }

  /** Each payload starts at the sequence number that its predecessors' bytes lead to. */
  ghost predicate InSequence(g: Group, input: seq<seq<Byte>>, metas: TcpMetas, sentSeq: Uint32)
    requires MembersFit(g, input)
    requires forall j :: 0 <= j < |g.members| ==> g.members[j] in metas
  {
    forall j {:trigger g.members[j]} :: 0 <= j < |g.members| ==>
      metas[g.members[j]].sentSeq == SeqAdd(sentSeq, |Flatten(Pieces(g, input)[..j])|)
  }

  /** PSH only on the last packet, and the item knows whether it is there. */
  ghost predicate PshLast(g: Group, metas: TcpMetas, pshSet: bool)
    requires forall j :: 0 <= j < |g.members| ==> g.members[j] in metas
  {
    forall j {:trigger g.members[j]} :: 0 <= j < |g.members| ==>
      metas[g.members[j]].pshSet == (pshSet && j == |g.members| - 1)
  }

  /** The item describes its group: a contiguous run of gsoSize pieces in sequence order. */
  ghost predicate TcpItemOk(item: TcpItem, g: Group, input: seq<seq<Byte>>, metas: TcpMetas) {
    && g.tracking == InTcp(item.key)
    && item.iphLen == (if item.key.isV6 then 40 else 20) && 20 <= item.tcphLen <= 60
    && g.h == item.iphLen + item.tcphLen
    && g.members != [] && |g.members| == item.numMerged + 1
    && TcpMembers(g, input, metas, item.key, item.tcphLen)
    && item.gsoSize > 0 && IsRun(Pieces(g, input), item.gsoSize)
    && metas[g.members[0]].gsoSize == item.gsoSize
    && InSequence(g, input, metas, item.sentSeq)
    && PshLast(g, metas, item.pshSet)
  }

  /** The sequence number n bytes after s, wrapping at 2^32. */
  function SeqAdd(s: Uint32, n: nat): Uint32 {
    Wrap32(s + n)
  }

  function Wrap32(x: nat): Uint32 {
    if x < TWO32 then x else Wrap32(x - TWO32)
  }

  lemma {:induction false} Wrap32Mod(x: nat)
    ensures Wrap32(x) == x % TWO32
  {
    if x >= TWO32 { Wrap32Mod(x - TWO32); }
  }

  lemma SeqAddMod(s: Uint32, n: nat)
    ensures SeqAdd(s, n) == (s + n) % TWO32
  {
    Wrap32Mod(s + n);
  }

  lemma SeqAddTwice(s: Uint32, a: nat, b: nat)
    ensures SeqAdd(SeqAdd(s, a), b) == SeqAdd(s, a + b)
  {
    SeqAddMod(s, a);
    SeqAddMod(SeqAdd(s, a), b);
    SeqAddMod(s, a + b);
  }

  /** The product does not wrap when the whole fits. */
  lemma NoWrap(n: nat, g: nat, total: nat)
    requires total == (n + 1) * g <= MAX_PACKET
    ensures (g + n * g % TWO16) % TWO16 == total
  {
    assert n * g + g == total;
  }

  /** The 16-bit length computed by the item is the true payload length when every piece is full. */
  lemma LhsLenTrue(item: TcpItem, ps: seq<seq<Byte>>)
    requires item.gsoSize > 0 && IsRun(ps, item.gsoSize) && |ps| == item.numMerged + 1
    requires |Flatten(ps)| <= MAX_PACKET && |Flatten(ps)| % item.gsoSize == 0
    ensures LhsLen(item) == |Flatten(ps)|
  {
    hide IsRun, Flatten;
    RunFull(ps, item.gsoSize);
    NoWrap(item.numMerged, item.gsoSize, |Flatten(ps)|);
  }

  lemma AppendFacts(pkt: seq<Byte>, m: TcpMeta, item: TcpItem, target: seq<Byte>)
    requires m.iphLen + m.tcphLen <= |pkt| && item.iphLen == m.iphLen
    requires item.iphLen + item.tcphLen <= |target| && item.gsoSize > 0
    requires TcpCanCoalesce(pkt, m, item, target) == Append
    ensures m.tcphLen == item.tcphLen && !item.pshSet && m.gsoSize <= item.gsoSize
    ensures m.sentSeq == SeqAdd(item.sentSeq, LhsLen(item))
    ensures (|target| - m.iphLen - m.tcphLen) % item.gsoSize == 0
  {
    SeqAddMod(item.sentSeq, LhsLen(item));
  }

  lemma PrependFacts(pkt: seq<Byte>, m: TcpMeta, item: TcpItem, target: seq<Byte>)
    requires m.iphLen + m.tcphLen <= |pkt| && item.iphLen == m.iphLen
    requires item.iphLen + item.tcphLen <= |target| && item.gsoSize > 0
    requires TcpCanCoalesce(pkt, m, item, target) == Prepend
    ensures m.tcphLen == item.tcphLen && !m.pshSet
    ensures SeqAdd(m.sentSeq, m.gsoSize) == item.sentSeq
    ensures m.gsoSize == item.gsoSize || (m.gsoSize > item.gsoSize && item.numMerged == 0)
  {
    SeqAddMod(m.sentSeq, m.gsoSize);
  }

  /** The item after a packet has been appended to it. */
  function Appended(item: TcpItem, m: TcpMeta): TcpItem {
    item.(numMerged := item.numMerged + 1, pshSet := item.pshSet || m.pshSet)
  }

  /** The item after a packet has been put in front of it. */
  function Prepended(item: TcpItem, m: TcpMeta): TcpItem {
    item.(numMerged := item.numMerged + 1, sentSeq := m.sentSeq,
          gsoSize := if m.gsoSize > item.gsoSize then m.gsoSize else item.gsoSize)
  }

  lemma AppendMembers(g: Group, input: seq<seq<Byte>>, metas: TcpMetas, key: TcpKey, tcphLen: nat, k: nat)
    requires TcpMembers(g, input, metas, key, tcphLen) && TcpMember(k, g.h, input, metas, key, tcphLen)
    ensures var g' := Joined(g, k);
            && TcpMembers(g', input, metas, key, tcphLen)
            && Pieces(g', input) == Pieces(g, input) + [input[k][g.h..]]
  {
    var g' := Joined(g, k);
    assert forall j :: 0 <= j < |g.members| ==> g'.members[j] == g.members[j];
  }

  lemma PrependMembers(g: Group, input: seq<seq<Byte>>, metas: TcpMetas, key: TcpKey, tcphLen: nat, k: nat)
    requires TcpMembers(g, input, metas, key, tcphLen) && TcpMember(k, g.h, input, metas, key, tcphLen)
    ensures var g' := Led(g, k);
            && TcpMembers(g', input, metas, key, tcphLen)
            && Pieces(g', input) == [input[k][g.h..]] + Pieces(g, input)
  {
    var g' := Led(g, k);
    assert forall j :: 0 < j < |g'.members| ==> g'.members[j] == g.members[j - 1];
  }

  lemma AppendInSequence(g: Group, input: seq<seq<Byte>>, metas: TcpMetas, key: TcpKey, tcphLen: nat,
                         k: nat, from: Uint32)
    requires TcpMembers(g, input, metas, key, tcphLen) && TcpMember(k, g.h, input, metas, key, tcphLen)
    requires InSequence(g, input, metas, from)
    requires metas[k].sentSeq == SeqAdd(from, |Flatten(Pieces(g, input))|)
    ensures var g' := Joined(g, k);
            TcpMembers(g', input, metas, key, tcphLen) && InSequence(g', input, metas, from)
  {
    AppendMembers(g, input, metas, key, tcphLen, k);
    var g' := Joined(g, k);
    var ps, p := Pieces(g, input), input[k][g.h..];
    forall j | 0 <= j < |g'.members|
      ensures metas[g'.members[j]].sentSeq == SeqAdd(from, |Flatten(Pieces(g', input)[..j])|)
    {
      assert (ps + [p])[..j] == ps[..j];
      if j == |ps| { assert ps[..j] == ps; } else { assert g'.members[j] == g.members[j]; }
    }
  }

  lemma PrefixAfter(p: seq<Byte>, ps: seq<seq<Byte>>, j: nat, from: Uint32, next: Uint32)
    requires 0 < j <= |ps| + 1 && SeqAdd(from, |p|) == next
    ensures SeqAdd(from, |Flatten(([p] + ps)[..j])|) == SeqAdd(next, |Flatten(ps[..j - 1])|)
  {
    assert ([p] + ps)[..j] == [p] + ps[..j - 1];
    assert ([p] + ps[..j - 1])[1..] == ps[..j - 1];
    SeqAddTwice(from, |p|, |Flatten(ps[..j - 1])|);
  }

  lemma PrependInSequence(g: Group, input: seq<seq<Byte>>, metas: TcpMetas, key: TcpKey, tcphLen: nat,
                          k: nat, from: Uint32)
    requires TcpMembers(g, input, metas, key, tcphLen) && TcpMember(k, g.h, input, metas, key, tcphLen)
    requires InSequence(g, input, metas, from)
    requires SeqAdd(metas[k].sentSeq, metas[k].gsoSize) == from
    ensures var g' := Led(g, k);
            TcpMembers(g', input, metas, key, tcphLen) && InSequence(g', input, metas, metas[k].sentSeq)
  {
    PrependMembers(g, input, metas, key, tcphLen, k);
    var g' := Led(g, k);
    var ps, p := Pieces(g, input), input[k][g.h..];
    forall j | 0 <= j < |g'.members|
      ensures metas[g'.members[j]].sentSeq == SeqAdd(metas[k].sentSeq, |Flatten(Pieces(g', input)[..j])|)
    {
      if j > 0 {
        assert g'.members[j] == g.members[j - 1];
        PrefixAfter(p, ps, j, metas[k].sentSeq, from);
      }
    }
  }

  lemma AppendKeepsRun(item: TcpItem, g: Group, input: seq<seq<Byte>>, metas: TcpMetas, k: nat)
    requires TcpItemOk(item, g, input, metas)
    requires TcpMember(k, g.h, input, metas, item.key, item.tcphLen)
    requires var total := |Flatten(Pieces(g, input))|;
             && total <= MAX_PACKET && total % item.gsoSize == 0
             && metas[k].sentSeq == SeqAdd(item.sentSeq, LhsLen(item))
    requires !item.pshSet && metas[k].gsoSize <= item.gsoSize
    ensures TcpItemOk(Appended(item, metas[k]), Joined(g, k), input, metas)
  {
    var ps := Pieces(g, input);
    RunAppend(ps, item.gsoSize, input[k][g.h..]);
    LhsLenTrue(item, ps);
    AppendMembers(g, input, metas, item.key, item.tcphLen, k);
    AppendInSequence(g, input, metas, item.key, item.tcphLen, k, item.sentSeq);
    AppendPsh(g, metas, k);
  }

  lemma AppendPsh(g: Group, metas: TcpMetas, k: nat)
    requires forall j :: 0 <= j < |g.members| ==> g.members[j] in metas
    requires k in metas && PshLast(g, metas, false)
    ensures PshLast(Joined(g, k), metas, metas[k].pshSet)
  {
    var g' := Joined(g, k);
    assert forall j :: 0 <= j < |g.members| ==> g'.members[j] == g.members[j];
  }

  lemma PrependPsh(g: Group, metas: TcpMetas, k: nat, pshSet: bool)
    requires forall j :: 0 <= j < |g.members| ==> g.members[j] in metas
    requires g.members != [] && k in metas && !metas[k].pshSet && PshLast(g, metas, pshSet)
    ensures PshLast(Led(g, k), metas, pshSet)
  {
    var g' := Led(g, k);
    assert forall j :: 0 < j < |g'.members| ==> g'.members[j] == g.members[j - 1];
  }

  lemma PrependKeepsRun(item: TcpItem, g: Group, input: seq<seq<Byte>>, metas: TcpMetas, k: nat)
    requires TcpItemOk(item, g, input, metas)
    requires TcpMember(k, g.h, input, metas, item.key, item.tcphLen)
    requires !metas[k].pshSet && SeqAdd(metas[k].sentSeq, metas[k].gsoSize) == item.sentSeq
    requires metas[k].gsoSize == item.gsoSize || (metas[k].gsoSize > item.gsoSize && item.numMerged == 0)
    ensures TcpItemOk(Prepended(item, metas[k]), Led(g, k), input, metas)
  {
    RunPrepend(Pieces(g, input), item.gsoSize, input[k][g.h..]);
    PrependMembers(g, input, metas, item.key, item.tcphLen, k);
    PrependInSequence(g, input, metas, item.key, item.tcphLen, k, item.sentSeq);
    PrependPsh(g, metas, k, item.pshSet);
  }

  // ----- UDP

  /**
    The item describes its group: datagrams of gsoSize bytes, the last one no longer.
    A datagram that is known to be corrupt is on its own.
   */
  ghost predicate UdpItemOk(item: UdpItem, g: Group, input: seq<seq<Byte>>) {
    && g.tracking == InUdp(item.key)
    && item.iphLen == (if item.key.isV6 then 40 else 20) && g.h == item.iphLen + 8
    && g.members != [] && |g.members| == item.numMerged + 1
    && MembersFit(g, input)
    && item.gsoSize > 0 && IsRun(Pieces(g, input), item.gsoSize)
    && |input[g.members[0]]| == g.h + item.gsoSize
    && (item.cSumKnownInvalid ==>
          |g.members| == 1 && !ChecksumValid(input[g.members[0]], item.iphLen, IPPROTO_UDP, item.key.isV6))
  }

  lemma UdpAppendFacts(pkt: seq<Byte>, iphLen: nat, gsoSize: Uint16, item: UdpItem, target: seq<Byte>)
    requires iphLen + 8 <= |target| && item.gsoSize > 0
    requires UdpCanCoalesce(pkt, iphLen, gsoSize, item, target) == Append
    ensures (|target| - iphLen - 8) % item.gsoSize == 0 && gsoSize <= item.gsoSize
  {}

  lemma UdpAppendKeepsRun(item: UdpItem, g: Group, input: seq<seq<Byte>>, k: nat)
    requires UdpItemOk(item, g, input) && k < |input| && g.h < |input[k]| <= g.h + item.gsoSize
    requires |Flatten(Pieces(g, input))| % item.gsoSize == 0 && !item.cSumKnownInvalid
    ensures UdpItemOk(item.(numMerged := item.numMerged + 1), Joined(g, k), input)
  {
    var g' := Joined(g, k);
    RunAppend(Pieces(g, input), item.gsoSize, input[k][g.h..]);
    assert Pieces(g', input) == Pieces(g, input) + [input[k][g.h..]];
  }
}

/** Which packets are merged, and with which others, in terms of the packets that came in. */
module GroJoins {
  import opened Wrappers
  import opened Bytes
  import opened Gso
  import opened GroState
  import opened GroRules
  import opened GroRuns
  import opened GroTables
  import opened GroSteps
  import opened GroTcpSteps
  import opened GroTcpMerge
  import opened GroUdpSteps
  import opened GroOutcomes
  import opened GroHeaders
  import opened GroFronts

  // ----- TCP: what it takes

  ghost predicate AllRead(g: Group, input: seq<seq<Byte>>) {
    && g.members != []
    && forall i {:trigger g.members[i]} :: 0 <= i < |g.members| ==>
         g.members[i] < |input| && TcpMetaOf(input[g.members[i]]).Some?
  }

  /** What was read from the i-th packet of the group. */
  ghost function Meta(g: Group, input: seq<seq<Byte>>, i: nat): TcpMeta
    requires AllRead(g, input) && i < |g.members|
  {
    TcpMetaOf(input[g.members[i]]).value
  }

  /**
    The packet goes behind the group: its bytes follow on, the group's packets are all of one size,
    the packet is no larger, and the group's last one does not have PSH.
   */
  ghost predicate Behind(g: Group, m: TcpMeta, input: seq<seq<Byte>>)
    requires AllRead(g, input)
  {
    var first, n := Meta(g, input, 0), |g.members|;
    && m.sentSeq == (first.sentSeq + n * first.gsoSize) % TWO32 && m.gsoSize <= first.gsoSize
    && !Meta(g, input, n - 1).pshSet && OneSize(g, input)
  }

  ghost predicate OneSize(g: Group, input: seq<seq<Byte>>) {
    && g.members != [] && g.members[0] < |input|
    && forall i {:trigger g.members[i]} :: 0 <= i < |g.members| ==>
         g.members[i] < |input| && |input[g.members[i]]| == |input[g.members[0]]|
  }

  /**
    The packet goes in front of the group: its bytes lead up to the group's, it does not have PSH, and it is of the
    group's size, or larger than a group of one.
   */
  ghost predicate InFront(g: Group, m: TcpMeta, input: seq<seq<Byte>>)
    requires AllRead(g, input)
  {
    var first := Meta(g, input, 0);
    && (m.sentSeq + m.gsoSize) % TWO32 == first.sentSeq && !m.pshSet
    && (m.gsoSize == first.gsoSize || (m.gsoSize > first.gsoSize && |g.members| == 1))
  }

  /** The buffer that the merged packet would be in has room for it. */
  predicate Room(target: Buf, size: nat, cap: nat, offset: nat) { |target.pkt| + size + 2 * offset <= cap }

  /** Checksums apart, the packet in `own` goes together with the group, whose buffer is `target`. */
  ghost predicate TcpMeets(g: Group, target: Buf, own: Buf, m: TcpMeta, input: seq<seq<Byte>>, offset: nat) {
    && AllRead(g, input) && g.h == m.iphLen + m.tcphLen
    && Compared(own.pkt, input[g.members[0]], m.key.isV6, OptionsAt(m.key.isV6), g.h)
    && (|| (Behind(g, m, input) && Room(target, m.gsoSize, target.cap, offset))
        || (InFront(g, m, input) && Room(target, m.gsoSize, own.cap, offset)))
  }

  /** The packet can be merged with the group. */
  ghost predicate TcpFits(g: Group, target: Buf, own: Buf, m: TcpMeta, input: seq<seq<Byte>>, offset: nat) {
    && TcpMeets(g, target, own, m, input, offset)
    && ChecksumValid(own.pkt, m.iphLen, IPPROTO_TCP, m.key.isV6)
    && AllMembersVerified(g.members, input, m.key.isV6, IPPROTO_TCP)
  }

  // ----- TCP: why the code's tests come to that

  /** The header tests of tcpPacketsCanCoalesce. */
  predicate SameHeaders(own: seq<Byte>, m: TcpMeta, item: TcpItem, target: seq<Byte>)
    requires m.iphLen + m.tcphLen <= |own| && item.iphLen == m.iphLen && item.iphLen + item.tcphLen <= |target|
  {
    && m.tcphLen == item.tcphLen
    && (m.tcphLen > 20 ==>
          own[m.iphLen + 20..m.iphLen + m.tcphLen] == target[item.iphLen + 20..m.iphLen + m.tcphLen])
    && IpHeadersCanCoalesce(own, target)
  }

  lemma SameHeadersIff(own: seq<Byte>, m: TcpMeta, item: TcpItem, target: seq<Byte>, first: seq<Byte>, h: nat)
    requires Shaped(own, m) && item.iphLen == m.iphLen && h == item.iphLen + item.tcphLen
    requires 20 <= item.tcphLen && m.iphLen + m.tcphLen <= |own|
    requires SameFront(target, first, h, FlagsAt(m.key.isV6))
    ensures SameHeaders(own, m, item, target) <==>
      h == m.iphLen + m.tcphLen && Compared(own, first, m.key.isV6, OptionsAt(m.key.isV6), h)
  {
    var o := m.iphLen + 20;
    assert FlagsAt(m.key.isV6) < o == OptionsAt(m.key.isV6) && 9 <= FlagsAt(m.key.isV6);
    if h == m.iphLen + m.tcphLen {
      if forall i :: o <= i < h ==> own[i] == first[i] {
        assert own[o..h] == target[o..h];
      }
      if own[o..h] == target[o..h] {
        forall i | o <= i < h ensures own[i] == first[i] { assert own[o..h][i - o] == target[o..h][i - o]; }
      }
    }
  }

  /** A packet cannot go both behind and in front. */
  lemma NotBoth(sentSeq: Uint32, size: nat, from: Uint32, length: Uint16)
    requires 0 < size < TWO16 && sentSeq == (from + length) % TWO32
    ensures (sentSeq + size) % TWO32 != from
  {}

  lemma CanIff(own: seq<Byte>, m: TcpMeta, item: TcpItem, target: seq<Byte>)
    requires m.iphLen + m.tcphLen <= |own| && item.iphLen == m.iphLen && m.gsoSize > 0
    requires item.iphLen + item.tcphLen <= |target| && item.gsoSize > 0
    ensures TcpCanCoalesce(own, m, item, target) == Append <==>
      && SameHeaders(own, m, item, target) && m.sentSeq == (item.sentSeq + LhsLen(item)) % TWO32
      && !item.pshSet && (|target| - m.iphLen - m.tcphLen) % item.gsoSize == 0 && m.gsoSize <= item.gsoSize
    ensures TcpCanCoalesce(own, m, item, target) == Prepend <==>
      && SameHeaders(own, m, item, target) && (m.sentSeq + m.gsoSize) % TWO32 == item.sentSeq
      && !m.pshSet && (m.gsoSize == item.gsoSize || (m.gsoSize > item.gsoSize && item.numMerged == 0))
  {
    hide IpHeadersCanCoalesce, LhsLen;
    if m.sentSeq == (item.sentSeq + LhsLen(item)) % TWO32 { NotBoth(m.sentSeq, m.gsoSize, item.sentSeq, LhsLen(item)); }
  }

  /** The payload is a multiple of the item's size just when all packets of the group are of one size. */
  lemma OneSizeIff(g: Group, size: nat, target: seq<Byte>, input: seq<seq<Byte>>)
    requires MembersFit(g, input) && g.members != [] && g.h <= |target| && target[g.h..] == Flatten(Pieces(g, input))
    requires size > 0 && IsRun(Pieces(g, input), size) && |input[g.members[0]]| == g.h + size
    ensures (|target| - g.h) % size == 0 <==> OneSize(g, input)
    ensures OneSize(g, input) ==> |target| - g.h == |g.members| * size
  {
    var ps := Pieces(g, input);
    assert |target| - g.h == |Flatten(ps)|;
    RunSizes(ps, size);
    assert OneSize(g, input) <==> forall i :: 0 <= i < |ps| ==> |ps[i]| == |ps[0]|;
  }

  lemma RunSizes(ps: seq<seq<Byte>>, g: nat)
    requires g > 0 && IsRun(ps, g) && ps != [] && |ps[0]| == g
    ensures |Flatten(ps)| % g == 0 <==> forall i :: 0 <= i < |ps| ==> |ps[i]| == |ps[0]|
    ensures |Flatten(ps)| % g == 0 ==> |Flatten(ps)| == |ps| * g
  {
    hide Flatten;
    RunLength(ps, g);
    if |Flatten(ps)| % g == 0 {
      RunFull(ps, g);
    } else {
      assert |ps[|ps| - 1]| != g by { if |ps[|ps| - 1]| == g { Multiple(|ps|, g); } }
    }
  }

  lemma Multiple(n: nat, g: nat)
    requires g > 0 && n > 0
    ensures ((n - 1) * g + g) % g == 0
  {
    var x := (n - 1) * g + g;
    var q, r := x / g, x % g;
    assert (n - q) * g == n * g - q * g;
    if r > 0 { NoMultipleBetween(n - q, g, r); }
  }

  /** How the packet would go together with the item. */
  lemma ModeIff(item: TcpItem, g: Group, own: seq<Byte>, m: TcpMeta, bufs: seq<Buf>, t: Trace, env: Env)
    requires TcpItemOk(item, g, env.input, t.metas) && TraceTrue(t, env) && item.bufsIndex < |bufs|
    requires GroupOk(item.bufsIndex, g, bufs[item.bufsIndex].pkt, env.input, t.owner)
    requires g.members != [] && g.members[0] < |env.input|
    requires SameFront(bufs[item.bufsIndex].pkt, env.input[g.members[0]], g.h, FlagsAt(m.key.isV6))
    requires Shaped(own, m) && item.key == m.key && |bufs[item.bufsIndex].pkt| <= MAX_PACKET
    ensures AllRead(g, env.input)
    ensures var same := g.h == m.iphLen + m.tcphLen
                        && Compared(own, env.input[g.members[0]], m.key.isV6, OptionsAt(m.key.isV6), g.h);
            && (Mode(own, m, item, bufs) == Append <==> same && Behind(g, m, env.input))
            && (Mode(own, m, item, bufs) == Prepend <==> same && InFront(g, m, env.input))
  {
    hide TcpMetaOf, IsRun, InSequence, GroupOk, Compared, SameHeaders, TcpCanCoalesce, LhsLen, IpHeadersCanCoalesce;
    hide Behind, InFront, PshLast, TcpMembers, Pieces;
    var target := bufs[item.bufsIndex].pkt;
    SidesIff(item, g, m, target, t, env);
    SameHeadersIff(own, m, item, target, env.input[g.members[0]], g.h);
    CanIff(own, m, item, target);
  }

  /** The tests on sequence numbers, sizes and PSH, in terms of the packets of the group. */
  lemma SidesIff(item: TcpItem, g: Group, m: TcpMeta, target: seq<Byte>, t: Trace, env: Env)
    requires TcpItemOk(item, g, env.input, t.metas) && GroupOk(item.bufsIndex, g, target, env.input, t.owner)
    requires TraceTrue(t, env) && |target| <= MAX_PACKET
    ensures AllRead(g, env.input) && g.h == item.iphLen + item.tcphLen <= |target|
    ensures Behind(g, m, env.input) <==>
      && m.sentSeq == (item.sentSeq + LhsLen(item)) % TWO32 && !item.pshSet
      && (|target| - g.h) % item.gsoSize == 0 && m.gsoSize <= item.gsoSize
    ensures InFront(g, m, env.input) <==>
      && (m.sentSeq + m.gsoSize) % TWO32 == item.sentSeq && !m.pshSet
      && (m.gsoSize == item.gsoSize || (m.gsoSize > item.gsoSize && item.numMerged == 0))
  {
    hide TcpMetaOf, IsRun, InSequence, LhsLen, OneSize, PshLast, Flatten;
    MembersBefore(item.bufsIndex, g, target, env.input, t.owner);
    forall i | 0 <= i < |g.members| ensures g.members[i] < |env.input| && TcpMetaOf(env.input[g.members[i]]).Some? {
      MemberMeta(item, g, t, env, i);
    }
    assert item.sentSeq == Meta(g, env.input, 0).sentSeq && item.gsoSize == Meta(g, env.input, 0).gsoSize by {
      MemberMeta(item, g, t, env, 0);
    }
    assert item.pshSet == Meta(g, env.input, |g.members| - 1).pshSet by {
      MemberMeta(item, g, t, env, |g.members| - 1);
    }
    OneSizeIff(g, item.gsoSize, target, env.input);
    if OneSize(g, env.input) { FullLength(item, g, target, t, env); }
  }

  lemma FullLength(item: TcpItem, g: Group, target: seq<Byte>, t: Trace, env: Env)
    requires TcpItemOk(item, g, env.input, t.metas) && GroupOk(item.bufsIndex, g, target, env.input, t.owner)
    requires |target| <= MAX_PACKET && (|target| - g.h) % item.gsoSize == 0
    ensures LhsLen(item) == |target| - g.h
  {
    hide IsRun, InSequence, LhsLen;
    LhsLenTrue(item, Pieces(g, env.input));
  }

  /**
    A packet is merged with an item exactly when it fits the item's packets; when it would but for a checksum, the
    item's is the first to be found wrong.
   */
  lemma TcpFitsIff(item: TcpItem, g: Group, own: Buf, m: TcpMeta, bufs: seq<Buf>, t: Trace, env: Env)
    requires TcpItemOk(item, g, env.input, t.metas) && TraceTrue(t, env) && item.bufsIndex < |bufs|
    requires GroupOk(item.bufsIndex, g, bufs[item.bufsIndex].pkt, env.input, t.owner) && GroupVerified(g, env.input)
    requires FrontOk(g, bufs[item.bufsIndex].pkt, env.input)
    requires TcpMetaOf(own.pkt) == Some(m) && item.key == m.key && |bufs[item.bufsIndex].pkt| <= MAX_PACKET
    ensures Outcome(own, m, item, bufs, env.offset) == Some(Success)
            <==> TcpFits(g, bufs[item.bufsIndex], own, m, env.input, env.offset)
    ensures Outcome(own, m, item, bufs, env.offset) == Some(ItemInvalidCSum) <==>
      && TcpMeets(g, bufs[item.bufsIndex], own, m, env.input, env.offset)
      && !AllMembersVerified(g.members, env.input, m.key.isV6, IPPROTO_TCP)
    ensures Outcome(own, m, item, bufs, env.offset) == Some(PktInvalidCSum) <==>
      && TcpMeets(g, bufs[item.bufsIndex], own, m, env.input, env.offset)
      && AllMembersVerified(g.members, env.input, m.key.isV6, IPPROTO_TCP)
      && !ChecksumValid(own.pkt, m.iphLen, IPPROTO_TCP, m.key.isV6)
  {
    hide TcpMetaOf, IsRun, InSequence, Compared, Behind, Mode, ChecksumValid, PshLast, Pieces, AllMembersVerified;
    TcpShaped(own.pkt, m);
    ModeIff(item, g, own.pkt, m, bufs, t, env);
    SingleVerified(item, g, bufs[item.bufsIndex].pkt, t, env);
  }

  /** The tests of the item's own checksum come to all of its packets having been verified. */
  lemma SingleVerified(item: TcpItem, g: Group, target: seq<Byte>, t: Trace, env: Env)
    requires TcpItemOk(item, g, env.input, t.metas) && GroupVerified(g, env.input)
    requires GroupOk(item.bufsIndex, g, target, env.input, t.owner)
    ensures AllMembersVerified(g.members, env.input, item.key.isV6, IPPROTO_TCP) <==>
      (item.numMerged == 0 ==> ChecksumValid(target, item.iphLen, IPPROTO_TCP, item.key.isV6))
  {
    hide ChecksumValid, IsRun, InSequence, PshLast, Pieces;
    if item.numMerged == 0 {
      assert |g.members| == 1 && target == env.input[g.members[0]];
      assert AllMembersVerified(g.members, env.input, item.key.isV6, IPPROTO_TCP) ==>
        MemberVerified(g.members[0], env.input, item.key.isV6, IPPROTO_TCP);
    }
  }

  // ----- TCP: the whole flow

  /** The packet in buffer k can be merged into buffer v, which its flow tracks. */
  ghost predicate TcpTakes(v: nat, k: nat, m: TcpMeta, bufs: seq<Buf>, t: Trace, env: Env) {
    && k < |bufs| && v < |bufs| && v in t.groups && t.groups[v].tracking == InTcp(m.key)
    && TcpFits(t.groups[v], bufs[v], bufs[k], m, env.input, env.offset)
  }

  lemma ItemTakes(bufs: seq<Buf>, tcp: TcpTable, udp: UdpTable, toWrite: seq<nat>, t: Trace, env: Env,
                  k: nat, m: TcpMeta, j: nat)
    requires Inv(bufs, tcp, udp, toWrite, t, env) && Fronts(t.groups, bufs, env.input)
    requires k < |bufs| && TcpMetaOf(bufs[k].pkt) == Some(m) && j < |ItemsOf(tcp, m.key)|
    ensures var item := ItemsOf(tcp, m.key)[j];
            Outcome(bufs[k], m, item, bufs, env.offset) == Some(Success)
            <==> TcpTakes(item.bufsIndex, k, m, bufs, t, env)
  {
    hide TcpMetaOf, Outcome, TcpFits, FrontOk, TcpItemOk, GroupOk, GroupVerified, UdpTableOk, TraceTrue;
    var item := tcp[m.key][j];
    ItemFacts(bufs, tcp, toWrite, t, env, m.key, j);
    FrontOf(t.groups, bufs, env.input, item.bufsIndex);
    Tracking(item, t.groups[item.bufsIndex], env.input, t.metas);
    TcpFitsIff(item, t.groups[item.bufsIndex], bufs[k], m, bufs, t, env);
  }

  lemma Tracking(item: TcpItem, g: Group, input: seq<seq<Byte>>, metas: TcpMetas)
    requires TcpItemOk(item, g, input, metas)
    ensures g.tracking == InTcp(item.key)
  {}

  lemma OutcomeTells(own: Buf, m: TcpMeta, item: TcpItem, bufs: seq<Buf>, offset: nat)
    ensures Outcome(own, m, item, bufs, offset) == Some(Success) ==>
      ChecksumValid(own.pkt, item.iphLen, IPPROTO_TCP, m.key.isV6) && item.iphLen == m.iphLen
    ensures Outcome(own, m, item, bufs, offset) == Some(PktInvalidCSum) ==>
      !ChecksumValid(own.pkt, item.iphLen, IPPROTO_TCP, m.key.isV6) && item.iphLen == m.iphLen
  {
    hide ChecksumValid, TcpCanCoalesce;
  }

  /** A scan ends with a merge exactly when some item takes the packet, and then with the last one that does. */
  lemma ScanMerges(own: Buf, m: TcpMeta, items: seq<TcpItem>, bufs: seq<Buf>, offset: nat,
                   scan: Option<CoalesceResult>, at: nat, j: nat)
    requires Scanned(own, m, items, bufs, offset, scan, at) && at <= |items|
    requires j < |items| && Outcome(own, m, items[j], bufs, offset) == Some(Success)
    ensures scan == Some(Success) && j <= at < |items|
  {
    hide Outcome;
    OutcomeTells(own, m, items[j], bufs, offset);
    if at < |items| { OutcomeTells(own, m, items[at], bufs, offset); }
  }

  /** What becomes of TCP packet k: it is merged into the last buffer that takes it, or keeps its own. */
  ghost predicate TcpJoins(k: nat, m: TcpMeta, bufs: seq<Buf>, t: Trace, env: Env, w: nat) {
    if w == k then forall v: nat :: !TcpTakes(v, k, m, bufs, t, env)
    else TcpTakes(w, k, m, bufs, t, env) && forall v: nat :: TcpTakes(v, k, m, bufs, t, env) ==> v <= w
  }

  lemma TcpJoinsAt(s: Snapshot, tcp': TcpTable, bufs': seq<Buf>, t: Trace, env: Env, k: nat, m: TcpMeta,
                   r: GroResult, scan: Option<CoalesceResult>, at: nat)
    requires Inv(s.bufs, s.tcp, s.udp, s.toWrite, t, env) && Fronts(t.groups, s.bufs, env.input)
    requires Tracks(s.tcp, s.udp, t.groups, env.input)
    requires k == |t.owner| < |s.bufs| && TcpMetaOf(s.bufs[k].pkt) == Some(m)
    requires TcpDone(k, s.bufs, bufs', s.tcp, tcp', env.offset, r, scan, at)
    ensures r == Coalesced ==> at < |ItemsOf(s.tcp, m.key)| && ItemsOf(s.tcp, m.key)[at].bufsIndex < k
    ensures TcpJoins(k, m, s.bufs, t, env, if r == Coalesced then ItemsOf(s.tcp, m.key)[at].bufsIndex else k)
  {
    hide TcpMetaOf, Outcome, TcpFits, AfterScan, BufsFit, Conserved;
    hide TcpTableOk, UdpTableOk, TraceTrue, GroupsVerified, Fronts, BufsAfter, DroppedCorrupt;
    var items := ItemsOf(s.tcp, m.key);
    forall v: nat | TcpTakes(v, k, m, s.bufs, t, env) ensures r == Coalesced && v <= items[at].bufsIndex {
      assert Covered(v, t.groups[v], s.tcp, s.udp);
      var j: nat :| j < |items| && items[j].bufsIndex == v;
      ItemTakes(s.bufs, s.tcp, s.udp, s.toWrite, t, env, k, m, j);
      ScanMerges(s.bufs[k], m, items, s.bufs, env.offset, scan, at, j);
      SlotsAscend(s.tcp, t, env, m.key, j, at);
    }
    if r == Coalesced {
      ItemTakes(s.bufs, s.tcp, s.udp, s.toWrite, t, env, k, m, at);
      NotItself(s, t, env, m.key, at);
    }
  }

  lemma SlotsAscend(tcp: TcpTable, t: Trace, env: Env, key: TcpKey, i: nat, j: nat)
    requires TcpTableOk(tcp, t.groups, env.input, t.metas) && i <= j < |ItemsOf(tcp, key)|
    ensures ItemsOf(tcp, key)[i].bufsIndex <= ItemsOf(tcp, key)[j].bufsIndex
  {
    hide TcpItemOk;
    assert TcpItemsOk(key, tcp[key], t.groups, env.input, t.metas);
  }

  lemma NotItself(s: Snapshot, t: Trace, env: Env, key: TcpKey, j: nat)
    requires Conserved(s.bufs, env.input, s.toWrite, t.groups, t.owner)
    requires TcpTableOk(s.tcp, t.groups, env.input, t.metas) && j < |ItemsOf(s.tcp, key)|
    ensures ItemsOf(s.tcp, key)[j].bufsIndex < |t.owner|
  {
    hide TcpItemOk, GroupOk;
    ItemFacts(s.bufs, s.tcp, s.toWrite, t, env, key, j);
  }

  // ----- UDP

  /** Checksums apart, the datagram goes behind the group: its datagrams are of one size, and the new one no larger. */
  ghost predicate UdpMeets(g: Group, target: Buf, own: seq<Byte>, m: UdpMeta, input: seq<seq<Byte>>, offset: nat) {
    && OneSize(g, input) && g.h == m.iphLen + 8 && |own| <= |input[g.members[0]]|
    && Compared(own, input[g.members[0]], m.key.isV6, g.h, g.h)
    && Room(target, m.gsoSize, target.cap, offset)
  }

  /** The datagram can be appended to the group. */
  ghost predicate UdpFits(g: Group, target: Buf, own: seq<Byte>, m: UdpMeta, input: seq<seq<Byte>>, offset: nat) {
    && UdpMeets(g, target, own, m, input, offset)
    && ChecksumValid(own, m.iphLen, IPPROTO_UDP, m.key.isV6)
    && AllMembersVerified(g.members, input, m.key.isV6, IPPROTO_UDP)
  }

  /** p is the last packet before k that is a datagram of the flow. */
  ghost predicate Latest(p: nat, k: nat, key: UdpKey, env: Env) {
    && p < k <= |env.input| && OfFlow(p, key, env)
    && forall l :: p < l < k ==> !OfFlow(l, key, env)
  }

  ghost predicate OfFlow(p: nat, key: UdpKey, env: Env)
    requires p < |env.input|
  {
    UdpMetaOf(env.input[p], env.canUdp).Some? && UdpMetaOf(env.input[p], env.canUdp).value.key == key
  }

  /** Datagram k can be appended to buffer v, which holds the flow's latest datagram. */
  ghost predicate UdpTakes(v: nat, k: nat, m: UdpMeta, bufs: seq<Buf>, t: Trace, env: Env) {
    && k < |bufs| && v < |bufs| && v in t.groups
    && (exists p: nat :: Latest(p, k, m.key, env) && p < |t.owner| && t.owner[p] == v)
    && UdpFits(t.groups[v], bufs[v], bufs[k].pkt, m, env.input, env.offset)
  }

  /** What becomes of datagram k: it is appended to the buffer that takes it, or keeps its own. */
  ghost predicate UdpJoins(k: nat, m: UdpMeta, bufs: seq<Buf>, t: Trace, env: Env, w: nat) {
    if w == k then forall v: nat :: !UdpTakes(v, k, m, bufs, t, env) else UdpTakes(w, k, m, bufs, t, env)
  }

  lemma UdpVersionRead(pkt: seq<Byte>, canUdp: bool, m: UdpMeta)
    requires UdpMetaOf(pkt, canUdp) == Some(m)
    ensures |pkt| >= 28 && (m.key.isV6 <==> HighNibble(pkt[0]) == 6)
  {}

  lemma UdpSameHeadersIff(own: seq<Byte>, canUdp: bool, m: UdpMeta, target: seq<Byte>, first: seq<Byte>, h: nat)
    requires UdpMetaOf(own, canUdp) == Some(m) && SameFront(target, first, h, h) && h == m.iphLen + 8
    ensures IpHeadersCanCoalesce(own, target) <==> Compared(own, first, m.key.isV6, h, h)
  {
    hide UdpMetaOf;
    UdpMetaFacts(own, canUdp, m);
    UdpVersionRead(own, canUdp, m);
  }

  lemma UdpSingleVerified(item: UdpItem, g: Group, target: seq<Byte>, input: seq<seq<Byte>>, owner: seq<nat>)
    requires UdpItemOk(item, g, input) && GroupVerified(g, input) && GroupOk(item.bufsIndex, g, target, input, owner)
    ensures AllMembersVerified(g.members, input, item.key.isV6, IPPROTO_UDP) <==>
      (item.numMerged == 0 ==>
         !item.cSumKnownInvalid && ChecksumValid(target, item.iphLen, IPPROTO_UDP, item.key.isV6))
  {
    hide ChecksumValid, IsRun, Pieces;
    if item.numMerged == 0 {
      assert |g.members| == 1 && target == input[g.members[0]];
      assert AllMembersVerified(g.members, input, item.key.isV6, IPPROTO_UDP) ==>
        MemberVerified(g.members[0], input, item.key.isV6, IPPROTO_UDP);
    }
  }

  /** A datagram is merged with an item exactly when it fits the item's datagrams. */
  lemma UdpFitsIff(item: UdpItem, g: Group, own: seq<Byte>, m: UdpMeta, bufs: seq<Buf>, t: Trace, env: Env)
    requires UdpItemOk(item, g, env.input) && item.bufsIndex < |bufs|
    requires GroupOk(item.bufsIndex, g, bufs[item.bufsIndex].pkt, env.input, t.owner) && GroupVerified(g, env.input)
    requires FrontOk(g, bufs[item.bufsIndex].pkt, env.input)
    requires UdpMetaOf(own, env.canUdp) == Some(m) && item.key == m.key
    ensures UdpOutcome(own, m, item, bufs, env.offset) == Some(Success)
            <==> UdpFits(g, bufs[item.bufsIndex], own, m, env.input, env.offset)
    ensures UdpOutcome(own, m, item, bufs, env.offset) == Some(ItemInvalidCSum) <==>
      && UdpMeets(g, bufs[item.bufsIndex], own, m, env.input, env.offset)
      && !AllMembersVerified(g.members, env.input, m.key.isV6, IPPROTO_UDP)
    ensures UdpOutcome(own, m, item, bufs, env.offset) == Some(PktInvalidCSum) <==>
      && UdpMeets(g, bufs[item.bufsIndex], own, m, env.input, env.offset)
      && AllMembersVerified(g.members, env.input, m.key.isV6, IPPROTO_UDP)
      && !ChecksumValid(own, m.iphLen, IPPROTO_UDP, m.key.isV6)
  {
    hide UdpMetaOf, IsRun, IpHeadersCanCoalesce, Compared, ChecksumValid, AllMembersVerified, OneSize;
    UdpMetaFacts(own, env.canUdp, m);
    UdpSameHeadersIff(own, env.canUdp, m, bufs[item.bufsIndex].pkt, env.input[g.members[0]], g.h);
    OneSizeIff(g, item.gsoSize, bufs[item.bufsIndex].pkt, env.input);
    UdpSingleVerified(item, g, bufs[item.bufsIndex].pkt, env.input, t.owner);
  }

  /** The flow's latest datagram is the last member of the flow's last item. */
  lemma {:induction false} LatestArrival(t: Trace, env: Env, key: UdpKey, n: nat) returns (p: nat)
    requires TraceTrue(t, env) && n <= |t.owner| && Arrivals(t.entered, key, n) != []
    ensures var a := Arrivals(t.entered, key, n); p == a[|a| - 1] && Latest(p, n, key, env)
  {
    hide UdpMetaOf, TcpMetaOf;
    assert Recorded(n - 1, t, env);
    if n - 1 in t.entered && t.entered[n - 1] == key {
      p := n - 1;
    } else {
      p := LatestArrival(t, env, key, n - 1);
    }
  }

  lemma {:induction false} NoArrivalsOf(t: Trace, env: Env, key: UdpKey, p: nat, n: nat)
    requires TraceTrue(t, env) && p < n <= |t.owner| && OfFlow(p, key, env)
    ensures Arrivals(t.entered, key, n) != []
  {
    hide UdpMetaOf, TcpMetaOf;
    if p == n - 1 { assert Recorded(p, t, env); } else { NoArrivalsOf(t, env, key, p, n - 1); }
  }

  /** The flow's last item has the buffer of its latest datagram. */
  lemma LastHolds(s: Snapshot, t: Trace, env: Env, key: UdpKey) returns (p: nat)
    requires Inv(s.bufs, s.tcp, s.udp, s.toWrite, t, env) && key in s.udp && s.udp[key] != []
    ensures Latest(p, |t.owner|, key, env) && p < |t.owner| && t.owner[p] == Last(s.udp[key]).bufsIndex
  {
    hide TcpTableOk, UdpTableOk, GroupsVerified, Conserved, TraceTrue, Latest;
    LastMember(s, t, env, key);
    p := LatestArrival(t, env, key, |t.owner|);
  }

  lemma FlowOf(udp: UdpTable, t: Trace, env: Env, key: UdpKey)
    requires UdpTableOk(udp, t.groups, env.input, t.entered, |t.owner|) && key in udp
    ensures UdpFlowOk(key, udp[key], t.groups, env.input, t.entered, |t.owner|)
  {}

  lemma LastMember(s: Snapshot, t: Trace, env: Env, key: UdpKey)
    requires Conserved(s.bufs, env.input, s.toWrite, t.groups, t.owner)
    requires UdpTableOk(s.udp, t.groups, env.input, t.entered, |t.owner|) && key in s.udp && s.udp[key] != []
    ensures var a := Arrivals(t.entered, key, |t.owner|);
            a != [] && a[|a| - 1] < |t.owner| && t.owner[a[|a| - 1]] == Last(s.udp[key]).bufsIndex
  {
    hide UdpItemOk, Arrivals, MembersFit, Pieces, Flatten, Conserved, UdpTableOk;
    assert UdpFlowOk(key, s.udp[key], t.groups, env.input, t.entered, |t.owner|) by { FlowOf(s.udp, t, env, key); }
    UdpItemFacts(s.bufs, s.udp, s.toWrite, t, env, key);
    var items := s.udp[key];
    var held, g := Held(items, t.groups), t.groups[Last(items).bufsIndex];
    assert held[|held| - 1] == g.members[|g.members| - 1];
  }

  /** A datagram in the table shows that its flow is there. */
  lemma FlowThere(udp: UdpTable, t: Trace, env: Env, key: UdpKey, p: nat)
    requires UdpTableOk(udp, t.groups, env.input, t.entered, |t.owner|) && TraceTrue(t, env)
    requires p < |t.owner| && p < |env.input| && OfFlow(p, key, env)
    ensures key in udp && udp[key] != []
  {
    hide UdpMetaOf, TcpMetaOf;
    assert Recorded(p, t, env);
    assert UdpFlowOk(key, udp[key], t.groups, env.input, t.entered, |t.owner|);
  }

  lemma UdpJoinsAt(s: Snapshot, udp': UdpTable, bufs': seq<Buf>, t: Trace, env: Env, k: nat, m: UdpMeta, r: GroResult)
    requires Inv(s.bufs, s.tcp, s.udp, s.toWrite, t, env) && Fronts(t.groups, s.bufs, env.input)
    requires k == |t.owner| < |s.bufs| && UdpMetaOf(s.bufs[k].pkt, env.canUdp) == Some(m)
    requires UdpDone(k, s.bufs, bufs', s.udp, udp', env.canUdp, env.offset, r)
    ensures r == Coalesced ==> Datagrams(s.udp, m.key) != [] && Last(Datagrams(s.udp, m.key)).bufsIndex < k
    ensures UdpJoins(k, m, s.bufs, t, env, if r == Coalesced then Last(Datagrams(s.udp, m.key)).bufsIndex else k)
  {
    hide UdpMetaOf, UdpOutcome, UdpFits, BufsFit, Conserved;
    hide TcpTableOk, UdpTableOk, TraceTrue, GroupsVerified, Fronts, Latest;
    var items := Datagrams(s.udp, m.key);
    if items != [] {
      var p := LastHolds(s, t, env, m.key);
      LastTakes(s, t, env, k, m);
    }
    forall v: nat | UdpTakes(v, k, m, s.bufs, t, env) ensures items != [] && v == Last(items).bufsIndex {
      var q: nat :| Latest(q, k, m.key, env) && q < |t.owner| && t.owner[q] == v;
      OneLatest(q, k, m.key, env);
      FlowThere(s.udp, t, env, m.key, q);
      var p := LastHolds(s, t, env, m.key);
      OnlyLatest(p, q, k, m.key, env);
    }
  }

  lemma OneLatest(p: nat, k: nat, key: UdpKey, env: Env)
    requires Latest(p, k, key, env)
    ensures p < |env.input| && OfFlow(p, key, env)
  {}

  lemma OnlyLatest(p: nat, q: nat, k: nat, key: UdpKey, env: Env)
    requires Latest(p, k, key, env) && Latest(q, k, key, env)
    ensures p == q
  {}

  lemma LastTakes(s: Snapshot, t: Trace, env: Env, k: nat, m: UdpMeta)
    requires Inv(s.bufs, s.tcp, s.udp, s.toWrite, t, env) && Fronts(t.groups, s.bufs, env.input)
    requires k == |t.owner| < |s.bufs| && UdpMetaOf(s.bufs[k].pkt, env.canUdp) == Some(m)
    requires m.key in s.udp && s.udp[m.key] != []
    ensures var item := Last(s.udp[m.key]);
            && item.bufsIndex < k && item.bufsIndex in t.groups
            && (UdpOutcome(s.bufs[k].pkt, m, item, s.bufs, env.offset) == Some(Success)
                <==> UdpFits(t.groups[item.bufsIndex], s.bufs[item.bufsIndex], s.bufs[k].pkt, m, env.input, env.offset))
  {
    hide UdpMetaOf, UdpOutcome, UdpFits, FrontOk, UdpItemOk, GroupOk, GroupVerified, TcpTableOk, TraceTrue;
    UdpItemFacts(s.bufs, s.udp, s.toWrite, t, env, m.key);
    var item := Last(s.udp[m.key]);
    FrontOf(t.groups, s.bufs, env.input, item.bufsIndex);
    UdpFitsIff(item, t.groups[item.bufsIndex], s.bufs[k].pkt, m, s.bufs, t, env);
  }

  // ----- any packet, and the whole pass

  /** What becomes of packet k, whose payload ends up in buffer w: other packets always keep their own buffer. */
  ghost predicate Placed(k: nat, s: Snapshot, t: Trace, env: Env, w: nat) {
    && k < |s.bufs|
    && match TcpMetaOf(s.bufs[k].pkt)
       case Some(m) => TcpJoins(k, m, s.bufs, t, env, w)
       case None =>
         match UdpMetaOf(s.bufs[k].pkt, env.canUdp)
         case Some(m) => UdpJoins(k, m, s.bufs, t, env, w)
         case None => w == k
  }

  /** The buffer that a packet is in after its turn. */
  ghost function OwnerOf(k: nat, s: Snapshot, canUdp: bool, r: GroResult, at: nat): nat
    requires k < |s.bufs|
  {
    if r != Coalesced then k
    else match TcpMetaOf(s.bufs[k].pkt)
      case Some(m) => if at < |ItemsOf(s.tcp, m.key)| then ItemsOf(s.tcp, m.key)[at].bufsIndex else k
      case None =>
        match UdpMetaOf(s.bufs[k].pkt, canUdp)
        case Some(m) => if Datagrams(s.udp, m.key) != [] then Last(Datagrams(s.udp, m.key)).bufsIndex else k
        case None => k
  }

  /** Packet k was placed so in its turn, of which s and t are the moment before. */
  ghost predicate Told(k: nat, s: Snapshot, t: Trace, env: Env, w: nat) {
    && Inv(s.bufs, s.tcp, s.udp, s.toWrite, t, env) && Tracks(s.tcp, s.udp, t.groups, env.input)
    && |t.owner| == k && Placed(k, s, t, env, w)
  }

  lemma DispatchPlaces(k: nat, s: Snapshot, s': Snapshot, t: Trace, env: Env,
                       r: GroResult, scan: Option<CoalesceResult>, at: nat)
    requires Inv(s.bufs, s.tcp, s.udp, s.toWrite, t, env) && Fronts(t.groups, s.bufs, env.input)
    requires Tracks(s.tcp, s.udp, t.groups, env.input) && k == |t.owner| < |s.bufs|
    requires Dispatched(k, s, s', env.offset, env.canUdp, r, scan, at)
    ensures Told(k, s, t, env, OwnerOf(k, s, env.canUdp, r, at))
    ensures OwnerOf(k, s, env.canUdp, r, at) == k <==> r != Coalesced
  {
    hide Inv, Fronts, Tracks, TcpDone, UdpDone, ParseTcp, ParseUdp, TcpJoins, UdpJoins;
    Kinds(s.bufs[k].pkt, env.canUdp);
    OnlyTcp(s.bufs[k].pkt, env.canUdp);
    match TcpMetaOf(s.bufs[k].pkt)
    case Some(m) => TcpJoinsAt(s, s'.tcp, s'.bufs, t, env, k, m, r, scan, at);
    case None =>
      match UdpMetaOf(s.bufs[k].pkt, env.canUdp)
      case Some(m) => UdpJoinsAt(s, s'.udp, s'.bufs, t, env, k, m, r);
      case None => Unmerged(k, s, s', env, r, scan, at);
  }

  lemma OnlyTcp(pkt: seq<Byte>, canUdp: bool)
    ensures Classify(pkt, canUdp) !in {Tcp4, Tcp6} ==> TcpMetaOf(pkt) == None
    ensures TcpMetaOf(pkt).Some? ==> Classify(pkt, canUdp) in {Tcp4, Tcp6}
    ensures UdpMetaOf(pkt, canUdp).Some? ==> Classify(pkt, canUdp) in {Udp4, Udp6}
  {}

  lemma Unmerged(k: nat, s: Snapshot, s': Snapshot, env: Env, r: GroResult, scan: Option<CoalesceResult>, at: nat)
    requires k < |s.bufs| && Dispatched(k, s, s', env.offset, env.canUdp, r, scan, at)
    requires TcpMetaOf(s.bufs[k].pkt) == None && UdpMetaOf(s.bufs[k].pkt, env.canUdp) == None
    ensures r != Coalesced
  {}

  /** Every packet of the pass so far. */
  ghost predicate AllTold(states: seq<Snapshot>, traces: seq<Trace>, owner: seq<nat>, env: Env) {
    && |states| == |traces| == |owner| + 1
    && forall k {:trigger owner[k]} {:trigger traces[k]} :: 0 <= k < |owner| ==>
         traces[k].owner == owner[..k] && Told(k, states[k], traces[k], env, owner[k])
  }

  lemma ToldMore(states: seq<Snapshot>, traces: seq<Trace>, owner: seq<nat>, env: Env, s: Snapshot, t: Trace)
    requires AllTold(states, traces, owner, env) && |t.owner| == |owner| + 1 && t.owner[..|owner|] == owner
    requires traces[|owner|].owner == owner && Told(|owner|, states[|owner|], traces[|owner|], env, t.owner[|owner|])
    ensures AllTold(states + [s], traces + [t], t.owner, env)
  {
    hide Told;
    var ss, ts := states + [s], traces + [t];
    forall k | 0 <= k < |t.owner|
      ensures ts[k].owner == t.owner[..k] && Told(k, ss[k], ts[k], env, t.owner[k])
    {
      assert ss[k] == states[k] && ts[k] == traces[k];
      if k < |owner| {
        assert t.owner[k] == t.owner[..|owner|][k] == owner[k];
        assert t.owner[..k] == t.owner[..|owner|][..k] == owner[..k];
      }
    }
  }

  /** The packets that kept their own buffers are listed, in the order in which they came in. */
  ghost predicate ListedInOrder(toWrite: seq<nat>, owner: seq<nat>) {
    && (forall i, j :: 0 <= i < j < |toWrite| ==> toWrite[i] < toWrite[j])
    && (forall k: nat :: k in toWrite <==> k < |owner| && owner[k] == k)
  }

  lemma NothingListedYet(toWrite: seq<nat>)
    requires forall w :: w !in toWrite
    ensures ListedInOrder(toWrite, [])
  {
    assert forall i :: 0 <= i < |toWrite| ==> toWrite[i] in toWrite;
  }

  lemma ListedMore(toWrite: seq<nat>, owner: seq<nat>, w: nat)
    requires ListedInOrder(toWrite, owner)
    ensures ListedInOrder(if w == |owner| then toWrite + [w] else toWrite, owner + [w])
  {
    var more := if w == |owner| then toWrite + [w] else toWrite;
    forall k: nat ensures k in more <==> k < |owner| + 1 && (owner + [w])[k] == k {
      if k < |owner| { assert (owner + [w])[k] == owner[k]; }
    }
    forall i, j | 0 <= i < j < |more| ensures more[i] < more[j] {
      if j == |toWrite| { assert toWrite[i] in toWrite; }
    }
  }
}

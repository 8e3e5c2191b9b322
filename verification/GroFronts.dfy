/** The headers of a merged packet are those of the first packet merged into it. */
module GroFronts {
  import opened Wrappers
  import opened Bytes
  import opened Gso
  import opened GroState
  import opened GroRules
  import opened GroRuns
  import opened GroTables
  import opened GroSteps
  import opened GroTcpSteps
  import opened GroTcpMerge
  import opened GroUdpSteps
  import opened GroOutcomes

  /** The two agree on the first h bytes, except perhaps at `but`. */
  ghost predicate SameFront(a: seq<Byte>, b: seq<Byte>, h: nat, but: nat) {
    h <= |a| && h <= |b| && forall i :: 0 <= i < h && i != but ==> a[i] == b[i]
  }

  function FlagsAt(isV6: bool): nat { (if isV6 then 40 else 20) + TCP_FLAGS_OFFSET }

  /** PSH is on the buffer exactly when its last packet has it and its first packet did not come in after that one. */
  ghost predicate FlagsOk(flags: Byte, g: Group, last: seq<Byte>, at: nat)
    requires g.members != []
  {
    && at < |last| && (flags == FLAG_ACK || flags == FLAG_ACK_PSH)
    && (flags == FLAG_ACK_PSH <==> last[at] == FLAG_ACK_PSH && g.members[0] <= g.members[|g.members| - 1])
  }

  /**
    The two agree on the header bytes that merging compares: TOS, flags and TTL, or version, upper half of the traffic
    class and hop limit; and the TCP options, which start at `options`.
   */
  ghost predicate Compared(a: seq<Byte>, b: seq<Byte>, isV6: bool, options: nat, h: nat) {
    && 9 <= |a| && 9 <= |b| && h <= |a| && h <= |b|
    && (if isV6 then a[0] == b[0] && HighNibble(a[1]) == HighNibble(b[1]) && a[7] == b[7]
        else a[1] == b[1] && (a[6] as int) / 32 == (b[6] as int) / 32 && a[8] == b[8])
    && forall i :: options <= i < h ==> a[i] == b[i]
  }

  function OptionsAt(isV6: bool): nat { (if isV6 then 40 else 20) + 20 }

  /** The buffer agrees in this way with every packet merged into it. */
  ghost predicate AllCompared(g: Group, pkt: seq<Byte>, input: seq<seq<Byte>>, isV6: bool, options: nat) {
    forall j {:trigger g.members[j]} :: 0 <= j < |g.members| ==>
      g.members[j] < |input| && Compared(pkt, input[g.members[j]], isV6, options, g.h)
  }

  ghost predicate FrontOk(g: Group, pkt: seq<Byte>, input: seq<seq<Byte>>) {
    && g.members != [] && g.members[0] < |input| && g.members[|g.members| - 1] < |input|
    && match g.tracking
       case Loose => true
       case InTcp(key) =>
         && FlagsAt(key.isV6) < g.h && SameFront(pkt, input[g.members[0]], g.h, FlagsAt(key.isV6))
         && FlagsOk(pkt[FlagsAt(key.isV6)], g, input[g.members[|g.members| - 1]], FlagsAt(key.isV6))
         && AllCompared(g, pkt, input, key.isV6, OptionsAt(key.isV6))
       case InUdp(key) =>
         SameFront(pkt, input[g.members[0]], g.h, g.h) && AllCompared(g, pkt, input, key.isV6, g.h)
  }

  ghost predicate Fronts(groups: Groups, bufs: seq<Buf>, input: seq<seq<Byte>>) {
    forall w {:trigger groups[w]} :: w in groups ==> w < |bufs| && FrontOk(groups[w], bufs[w].pkt, input)
  }

  /** One group and its buffer change; buffer k, which no group has, may change too. */
  lemma FrontsKept(groups: Groups, bufs: seq<Buf>, input: seq<seq<Byte>>, w: nat, g: Group, bufs': seq<Buf>, k: nat)
    requires Fronts(groups, bufs, input) && |bufs'| == |bufs| && w < |bufs| && (k !in groups || k == w)
    requires forall v :: 0 <= v < |bufs| && v != w && v != k ==> bufs'[v] == bufs[v]
    requires FrontOk(g, bufs'[w].pkt, input)
    ensures Fronts(groups[w := g], bufs', input)
  {
    hide FrontOk;
  }

  lemma TcpFlags(pkt: seq<Byte>, m: TcpMeta)
    requires TcpMetaOf(pkt) == Some(m)
    ensures FlagsAt(m.key.isV6) < m.iphLen + m.tcphLen <= |pkt|
    ensures pkt[FlagsAt(m.key.isV6)] == if m.pshSet then FLAG_ACK_PSH else FLAG_ACK
  {}

  lemma NewTcpFront(groups: Groups, bufs: seq<Buf>, input: seq<seq<Byte>>, k: nat, m: TcpMeta)
    requires Fronts(groups, bufs, input) && k !in groups && k < |bufs| == |input| && bufs[k].pkt == input[k]
    requires TcpMetaOf(input[k]) == Some(m)
    ensures Fronts(groups[k := Group(InTcp(m.key), m.iphLen + m.tcphLen, [k])], bufs, input)
  {
    hide TcpMetaOf;
    TcpMetaFacts(input[k], m);
    TcpFlags(input[k], m);
    FrontsKept(groups, bufs, input, k, Group(InTcp(m.key), m.iphLen + m.tcphLen, [k]), bufs, k);
  }

  lemma NewUdpFront(groups: Groups, bufs: seq<Buf>, input: seq<seq<Byte>>, k: nat, m: UdpMeta, canUdp: bool)
    requires Fronts(groups, bufs, input) && k !in groups && k < |bufs| == |input| && bufs[k].pkt == input[k]
    requires UdpMetaOf(input[k], canUdp) == Some(m)
    ensures Fronts(groups[k := Group(InUdp(m.key), m.iphLen + 8, [k])], bufs, input)
  {
    hide UdpMetaOf;
    UdpMetaFacts(input[k], canUdp, m);
    FrontsKept(groups, bufs, input, k, Group(InUdp(m.key), m.iphLen + 8, [k]), bufs, k);
  }

  lemma LooseFront(groups: Groups, bufs: seq<Buf>, input: seq<seq<Byte>>, w: nat, g: Group)
    requires Fronts(groups, bufs, input) && w < |bufs| && g.tracking == Loose
    requires g.members != [] && g.members[0] < |input| && g.members[|g.members| - 1] < |input|
    ensures Fronts(groups[w := g], bufs, input)
  {
    FrontsKept(groups, bufs, input, w, g, bufs, w);
  }

  lemma DroppedFront(bufs: seq<Buf>, t: Trace, input: seq<seq<Byte>>, w: nat)
    requires Fronts(t.groups, bufs, input)
    ensures Fronts(Dropped(t, w).groups, bufs, input)
  {
    if w in t.groups {
      LooseFront(t.groups, bufs, input, w, t.groups[w].(tracking := Loose));
    }
  }

  lemma NoFronts(bufs: seq<Buf>, tcp: TcpTable, udp: UdpTable, toWrite: seq<nat>, t: Trace, env: Env)
    requires Inv(bufs, tcp, udp, toWrite, t, env) && t.owner == []
    ensures Fronts(t.groups, bufs, env.input)
  {
    assert t.groups.Keys == {};
  }

  // ----- merges

  /** An item without PSH has none on its last packet. */
  lemma LastHasNoPsh(item: TcpItem, g: Group, t: Trace, env: Env)
    requires TcpItemOk(item, g, env.input, t.metas) && TraceTrue(t, env) && !item.pshSet
    requires forall j :: 0 <= j < |g.members| ==> g.members[j] < |t.owner|
    ensures var last := g.members[|g.members| - 1];
            && last < |env.input| && FlagsAt(item.key.isV6) < |env.input[last]|
            && env.input[last][FlagsAt(item.key.isV6)] != FLAG_ACK_PSH
  {
    hide TcpMetaOf, InSequence, SeqAdd;
    var last := g.members[|g.members| - 1];
    assert TcpMember(g.members[|g.members| - 1], g.h, env.input, t.metas, item.key, item.tcphLen);
    assert Recorded(last, t, env);
    TcpFlags(env.input[last], t.metas[last]);
  }

  /** Behind the buffer, whose flags take PSH when the packet has it. */
  lemma AppendedFront(g: Group, pkt: seq<Byte>, input: seq<seq<Byte>>, k: nat, m: TcpMeta, item: TcpItem)
    requires FrontOk(g, pkt, input) && g.tracking == InTcp(m.key) && k < |input| && TcpMetaOf(input[k]) == Some(m)
    requires g.h == item.iphLen + item.tcphLen == m.iphLen + m.tcphLen && item.iphLen == m.iphLen
    requires item.iphLen + TCP_FLAGS_OFFSET < item.iphLen + item.tcphLen <= |pkt|
    requires pkt[FlagsAt(m.key.isV6)] == FLAG_ACK && g.members[0] < k
    requires Compared(input[k], pkt, m.key.isV6, OptionsAt(m.key.isV6), g.h)
    ensures FrontOk(Joined(g, k), WithPsh(pkt, item, m) + input[k][g.h..], input)
  {
    hide TcpMetaOf;
    TcpMetaFacts(input[k], m);
    TcpFlags(input[k], m);
    AllComparedAppend(g, pkt, WithPsh(pkt, item, m) + input[k][g.h..], input, m.key.isV6, OptionsAt(m.key.isV6),
                      FlagsAt(m.key.isV6), k);
  }

  /** The buffer keeps the bytes that are compared, and packet k agrees with it in them. */
  lemma AllComparedAppend(g: Group, pkt: seq<Byte>, pkt': seq<Byte>, input: seq<seq<Byte>>, isV6: bool, options: nat,
                          but: nat, k: nat)
    requires AllCompared(g, pkt, input, isV6, options) && k < |input| && Compared(input[k], pkt, isV6, options, g.h)
    requires SameFront(pkt', pkt, g.h, but) && g.h >= 9 && 9 <= but && (but < options || but >= g.h)
    ensures AllCompared(Joined(g, k), pkt', input, isV6, options)
  {
    forall j | 0 <= j < |Joined(g, k).members|
      ensures Compared(pkt', input[Joined(g, k).members[j]], isV6, options, g.h)
    {
      if j < |g.members| { assert Joined(g, k).members[j] == g.members[j]; }
    }
  }

  /** Packet k is the new front, and agrees with the old one in the bytes that are compared. */
  lemma AllComparedPrepend(g: Group, pkt: seq<Byte>, pkt': seq<Byte>, input: seq<seq<Byte>>, isV6: bool, options: nat,
                           k: nat)
    requires AllCompared(g, pkt, input, isV6, options) && k < |input| && Compared(input[k], pkt, isV6, options, g.h)
    requires SameFront(pkt', input[k], g.h, g.h) && g.h >= 9
    ensures AllCompared(Led(g, k), pkt', input, isV6, options)
  {
    forall j | 0 <= j < |Led(g, k).members|
      ensures Led(g, k).members[j] < |input| && Compared(pkt', input[Led(g, k).members[j]], isV6, options, g.h)
    {
      if j > 0 { assert Led(g, k).members[j] == g.members[j - 1]; }
    }
  }

  /** In front of the buffer, without PSH. */
  lemma PrependedFront(g: Group, pkt: seq<Byte>, input: seq<seq<Byte>>, k: nat, m: TcpMeta)
    requires FrontOk(g, pkt, input) && g.tracking == InTcp(m.key) && k < |input| && TcpMetaOf(input[k]) == Some(m)
    requires g.h == m.iphLen + m.tcphLen && g.h <= |pkt| && !m.pshSet && g.members[|g.members| - 1] < k
    requires Compared(input[k], pkt, m.key.isV6, OptionsAt(m.key.isV6), g.h)
    ensures FrontOk(Led(g, k), input[k] + pkt[g.h..], input)
  {
    hide TcpMetaOf;
    TcpFlags(input[k], m);
    AllComparedPrepend(g, pkt, input[k] + pkt[g.h..], input, m.key.isV6, OptionsAt(m.key.isV6), k);
    assert Led(g, k).members[|g.members|] == g.members[|g.members| - 1];
  }

  lemma ModeFacts(own: Buf, m: TcpMeta, item: TcpItem, bufs: seq<Buf>, offset: nat)
    requires Outcome(own, m, item, bufs, offset) == Some(Success)
    ensures Comparable(own.pkt, m, item, bufs) && m.tcphLen == item.tcphLen
    ensures Mode(own.pkt, m, item, bufs) == TcpCanCoalesce(own.pkt, m, item, bufs[item.bufsIndex].pkt) != Unavailable
    ensures Mode(own.pkt, m, item, bufs) == Append ==> !item.pshSet
    ensures Mode(own.pkt, m, item, bufs) != Append ==> Mode(own.pkt, m, item, bufs) == Prepend && !m.pshSet
  {
    hide ChecksumValid;
  }

  /** What goes together has been compared. */
  lemma TcpCompared(pkt: seq<Byte>, m: TcpMeta, item: TcpItem, target: seq<Byte>)
    requires Shaped(pkt, m) && item.iphLen == m.iphLen
    requires m.iphLen + m.tcphLen <= |pkt| && item.iphLen + item.tcphLen <= |target| && item.gsoSize > 0
    requires TcpCanCoalesce(pkt, m, item, target) != Unavailable
    ensures Compared(pkt, target, m.key.isV6, OptionsAt(m.key.isV6), m.iphLen + m.tcphLen)
  {
    var o, h := OptionsAt(m.key.isV6), m.iphLen + m.tcphLen;
    forall i | o <= i < h ensures pkt[i] == target[i] {
      assert pkt[o..h][i - o] == target[o..h][i - o];
    }
  }

  lemma UdpCompared(pkt: seq<Byte>, m: UdpMeta, canUdp: bool, item: UdpItem, target: seq<Byte>)
    requires UdpMetaOf(pkt, canUdp) == Some(m) && item.iphLen + 8 <= |target| && item.gsoSize > 0
    requires item.iphLen == m.iphLen
    requires UdpCanCoalesce(pkt, m.iphLen, m.gsoSize, item, target) == Append
    ensures Compared(pkt, target, m.key.isV6, m.iphLen + 8, m.iphLen + 8)
  {
    UdpMetaFacts(pkt, canUdp, m);
  }

  lemma MergedFront(mode: CanCoalesce, bufs: seq<Buf>, tcp: TcpTable, udp: UdpTable, toWrite: seq<nat>, t: Trace,
                    env: Env, m: TcpMeta, i: nat, bufs': seq<Buf>)
    requires Inv(bufs, tcp, udp, toWrite, t, env) && |t.owner| < |bufs| && m.key in tcp && i < |tcp[m.key]|
    requires Fronts(t.groups, bufs, env.input) && TcpMetaOf(bufs[|t.owner|].pkt) == Some(m)
    requires Comparable(bufs[|t.owner|].pkt, m, tcp[m.key][i], bufs) && m.tcphLen == tcp[m.key][i].tcphLen
    requires mode == Mode(bufs[|t.owner|].pkt, m, tcp[m.key][i], bufs)
    requires Outcome(bufs[|t.owner|], m, tcp[m.key][i], bufs, env.offset) == Some(Success)
    requires bufs' == MergedBufs(mode, bufs, |t.owner|, m, tcp[m.key][i])
    ensures Fronts(MergedTrace(mode, t, m, tcp[m.key][i].bufsIndex).groups, bufs', env.input)
  {
    hide Outcome, Mode, TcpMetaOf, GroupOk, TcpTableOk, UdpTableOk, GroupsVerified, TcpItemOk, FrontOk;
    var item, k := tcp[m.key][i], |t.owner|;
    var w := item.bufsIndex;
    ModeFacts(bufs[k], m, item, bufs, env.offset);
    ItemFacts(bufs, tcp, toWrite, t, env, m.key, i);
    ItemHeaders(item, t.groups[w], env.input, t.metas);
    var g := t.groups[w];
    assert FrontOk(g, bufs[w].pkt, env.input);
    MembersBefore(w, g, bufs[w].pkt, env.input, t.owner);
    TcpShaped(bufs[k].pkt, m);
    TcpCompared(bufs[k].pkt, m, item, bufs[w].pkt);
    if mode == Append {
      LastHasNoPsh(item, g, t, env);
      FlagsAreAck(g, bufs[w].pkt, env.input, m.key);
      AppendedFront(g, bufs[w].pkt, env.input, k, m, item);
      FrontsKept(t.groups, bufs, env.input, w, Joined(g, k), bufs', k);
    } else {
      PrependedFront(g, bufs[w].pkt, env.input, k, m);
      FrontsKept(t.groups, bufs, env.input, w, Led(g, k), bufs', k);
    }
  }

  lemma ItemHeaders(item: TcpItem, g: Group, input: seq<seq<Byte>>, metas: TcpMetas)
    requires TcpItemOk(item, g, input, metas)
    ensures g.tracking == InTcp(item.key) && g.h == item.iphLen + item.tcphLen
  {}

  lemma MembersBefore(w: nat, g: Group, pkt: seq<Byte>, input: seq<seq<Byte>>, owner: seq<nat>)
    requires GroupOk(w, g, pkt, input, owner)
    ensures g.members != [] && forall j :: 0 <= j < |g.members| ==> g.members[j] < |owner|
  {}

  lemma FlagsAreAck(g: Group, pkt: seq<Byte>, input: seq<seq<Byte>>, key: TcpKey)
    requires FrontOk(g, pkt, input) && g.tracking == InTcp(key)
    requires FlagsAt(key.isV6) < |input[g.members[|g.members| - 1]]|
    requires input[g.members[|g.members| - 1]][FlagsAt(key.isV6)] != FLAG_ACK_PSH
    ensures pkt[FlagsAt(key.isV6)] == FLAG_ACK
  {}

  lemma UdpAppendedFront(g: Group, pkt: seq<Byte>, input: seq<seq<Byte>>, k: nat, rest: seq<Byte>, key: UdpKey)
    requires FrontOk(g, pkt, input) && g.tracking == InUdp(key) && k < |input| && g.h >= 9
    requires Compared(input[k], pkt, key.isV6, g.h, g.h)
    ensures FrontOk(Joined(g, k), pkt + rest, input)
  {
    AllComparedAppend(g, pkt, pkt + rest, input, key.isV6, g.h, g.h, k);
  }

  lemma UdpOutcomeFacts(pkt: seq<Byte>, m: UdpMeta, item: UdpItem, bufs: seq<Buf>, offset: nat)
    requires UdpOutcome(pkt, m, item, bufs, offset) == Some(Success)
    ensures UdpComparable(pkt, m, item, bufs)
    ensures UdpCanCoalesce(pkt, m.iphLen, m.gsoSize, item, bufs[item.bufsIndex].pkt) == Append
  {
    hide ChecksumValid;
  }

  lemma UdpMergedFront(bufs: seq<Buf>, tcp: TcpTable, udp: UdpTable, toWrite: seq<nat>, t: Trace, env: Env, m: UdpMeta)
    requires Inv(bufs, tcp, udp, toWrite, t, env) && |t.owner| < |bufs| && m.key in udp && udp[m.key] != []
    requires Fronts(t.groups, bufs, env.input)
    requires UdpMetaOf(bufs[|t.owner|].pkt, env.canUdp) == Some(m)
    requires UdpOutcome(bufs[|t.owner|].pkt, m, Last(udp[m.key]), bufs, env.offset) == Some(Success)
    requires Last(udp[m.key]).iphLen + 8 <= |bufs[|t.owner|].pkt| && Last(udp[m.key]).bufsIndex < |bufs|
    ensures Fronts(UdpMergedTrace(t, Last(udp[m.key]).bufsIndex, m.key).groups,
                   UdpMergedBufs(bufs, |t.owner|, Last(udp[m.key])), env.input)
  {
    hide GroupOk, TcpTableOk, UdpTableOk, UdpItemOk, GroupsVerified, TraceTrue, FrontOk, Fronts, UdpOutcome, UdpMetaOf,
      Compared;
    var item, k := Last(udp[m.key]), |t.owner|;
    UdpItemFacts(bufs, udp, toWrite, t, env, m.key);
    UdpTracking(item, t.groups[item.bufsIndex], env.input);
    FrontOf(t.groups, bufs, env.input, item.bufsIndex);
    UdpOutcomeFacts(bufs[k].pkt, m, item, bufs, env.offset);
    UdpCompared(bufs[k].pkt, m, env.canUdp, item, bufs[item.bufsIndex].pkt);
    UdpAppendedFront(t.groups[item.bufsIndex], bufs[item.bufsIndex].pkt, env.input, k, bufs[k].pkt[item.iphLen + 8..],
                     m.key);
    FrontsKept(t.groups, bufs, env.input, item.bufsIndex, Joined(t.groups[item.bufsIndex], k),
               UdpMergedBufs(bufs, k, item), k);
  }

  lemma UdpTracking(item: UdpItem, g: Group, input: seq<seq<Byte>>)
    requires UdpItemOk(item, g, input)
    ensures g.tracking == InUdp(item.key) && g.h == item.iphLen + 8 >= 9
  {}

  lemma FrontOf(groups: Groups, bufs: seq<Buf>, input: seq<seq<Byte>>, w: nat)
    requires Fronts(groups, bufs, input) && w in groups
    ensures w < |bufs| && FrontOk(groups[w], bufs[w].pkt, input)
  {}
}

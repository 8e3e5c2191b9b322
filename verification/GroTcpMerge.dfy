/** Appending and prepending TCP packets keep the invariant of the pass. */
module GroTcpMerge {
  import opened Wrappers
  import opened Bytes
  import opened Gso
  import opened GroState
  import opened GroRules
  import opened GroRuns
  import opened GroTables
  import opened GroSteps
  import opened GroTcpSteps

  datatype CoalesceResult = InsufficientCap | PshEnding | ItemInvalidCSum | PktInvalidCSum | Success

  /** The checks of coalesceTCPPackets on the packet in buffer `own` and the item's buffer, in their order. */
  ghost function TcpAttempt(mode: CanCoalesce, own: Buf, m: TcpMeta, item: TcpItem, target: Buf,
                            offset: nat): CoalesceResult
  {
    var length := |target.pkt| + |own.pkt| - (item.iphLen + item.tcphLen);
    if (if mode == Prepend then own.cap else target.cap) - 2 * offset < length then InsufficientCap
    else if mode == Prepend && m.pshSet then PshEnding
    else if item.numMerged == 0 && !ChecksumValid(target.pkt, item.iphLen, IPPROTO_TCP, m.key.isV6) then ItemInvalidCSum
    else if !ChecksumValid(own.pkt, item.iphLen, IPPROTO_TCP, m.key.isV6) then PktInvalidCSum
    else Success
  }

  lemma SuccessFacts(mode: CanCoalesce, own: Buf, m: TcpMeta, item: TcpItem, target: Buf, offset: nat)
    requires TcpAttempt(mode, own, m, item, target, offset) == Success
    ensures |target.pkt| + |own.pkt| - (item.iphLen + item.tcphLen) + 2 * offset
            <= if mode == Prepend then own.cap else target.cap
    ensures item.numMerged == 0 ==> ChecksumValid(target.pkt, item.iphLen, IPPROTO_TCP, m.key.isV6)
    ensures ChecksumValid(own.pkt, item.iphLen, IPPROTO_TCP, m.key.isV6)
  {}

  /** The packet at hand is a member like the others of the flow with the same header sizes. */
  lemma NewMember(t: Trace, env: Env, m: TcpMeta, h: nat)
    requires |t.owner| < |env.input| && TcpMetaOf(env.input[|t.owner|]) == Some(m) && h == m.iphLen + m.tcphLen
    ensures TcpMember(|t.owner|, h, env.input, t.metas[|t.owner| := m], m.key, m.tcphLen)
    ensures |env.input[|t.owner|]| == h + m.gsoSize
    ensures m.iphLen == if m.key.isV6 then 40 else 20
  {
    TcpMetaFacts(env.input[|t.owner|], m);
  }

  lemma MembersVerifiedMore(a: seq<nat>, b: seq<nat>, input: seq<seq<Byte>>, isV6: bool, proto: Byte)
    requires AllMembersVerified(a, input, isV6, proto) && AllMembersVerified(b, input, isV6, proto)
    ensures AllMembersVerified(a + b, input, isV6, proto)
  {
    forall j | 0 <= j < |a + b| ensures MemberVerified((a + b)[j], input, isV6, proto) {
      if j < |a| { assert (a + b)[j] == a[j]; } else { assert (a + b)[j] == b[j - |a|]; }
    }
  }

  lemma OneVerified(k: nat, input: seq<seq<Byte>>, isV6: bool, proto: Byte)
    requires k < |input| && ChecksumValid(input[k], if isV6 then 40 else 20, proto, isV6)
    ensures AllMembersVerified([k], input, isV6, proto)
  {
    assert MemberVerified(k, input, isV6, proto);
  }

  /** The members of a group that is merged with packet |t.owner| have all been verified. */
  lemma MembersAndOne(bufs: seq<Buf>, toWrite: seq<nat>, t: Trace, env: Env, w: nat, g: Group,
                      isV6: bool, proto: Byte, numMerged: nat)
    requires Conserved(bufs, env.input, toWrite, t.groups, t.owner) && GroupsVerified(t.groups, env.input)
    requires w in t.groups && t.groups[w] == g && |g.members| == numMerged + 1 && |t.owner| < |env.input|
    requires g.tracking.InTcp? ==> g.tracking.tcpKey.isV6 == isV6 && proto == IPPROTO_TCP
    requires g.tracking.InUdp? ==> g.tracking.udpKey.isV6 == isV6 && proto == IPPROTO_UDP
    requires numMerged == 0 ==> ChecksumValid(bufs[w].pkt, if isV6 then 40 else 20, proto, isV6)
    requires ChecksumValid(env.input[|t.owner|], if isV6 then 40 else 20, proto, isV6)
    ensures AllMembersVerified(g.members + [|t.owner|], env.input, isV6, proto)
    ensures AllMembersVerified([|t.owner|] + g.members, env.input, isV6, proto)
  {
    MergedVerified(t, env, bufs, toWrite, w, g, isV6, proto, numMerged);
    OneVerified(|t.owner|, env.input, isV6, proto);
    MembersVerifiedMore(g.members, [|t.owner|], env.input, isV6, proto);
    MembersVerifiedMore([|t.owner|], g.members, env.input, isV6, proto);
  }

  /** Sets PSH. */
  function SetPsh(flags: Byte): Byte {
    if (flags as int) / 8 % 2 == 1 then flags else ((flags as int) + 8) % 256
  }

  /** The item can be compared with a packet that parsed as m. */
  predicate Comparable(pkt: seq<Byte>, m: TcpMeta, item: TcpItem, bufs: seq<Buf>) {
    && item.bufsIndex < |bufs| && item.iphLen == m.iphLen && item.gsoSize > 0
    && m.iphLen + m.tcphLen <= |pkt|
    && item.iphLen + TCP_FLAGS_OFFSET < item.iphLen + item.tcphLen <= |bufs[item.bufsIndex].pkt|
  }

  /** The item's packet, with PSH set when the appended packet has it. */
  function WithPsh(target: seq<Byte>, item: TcpItem, m: TcpMeta): (r: seq<Byte>)
    requires item.iphLen + TCP_FLAGS_OFFSET < item.iphLen + item.tcphLen <= |target|
    ensures SameBehind(r, target, item.iphLen + item.tcphLen)
  {
    var at := item.iphLen + TCP_FLAGS_OFFSET;
    if m.pshSet then target[at := SetPsh(target[at])] else target
  }

  /** The buffer after a packet has been appended to it. */
  function AppendedBuf(target: Buf, own: seq<Byte>, m: TcpMeta, item: TcpItem): Buf
    requires item.iphLen + item.tcphLen <= |own|
    requires item.iphLen + TCP_FLAGS_OFFSET < item.iphLen + item.tcphLen <= |target.pkt|
  {
    Buf(WithPsh(target.pkt, item, m) + own[item.iphLen + item.tcphLen..], target.cap)
  }

  /** The buffers after a merge. */
  function MergedBufs(can: CanCoalesce, bufs: seq<Buf>, k: nat, m: TcpMeta, item: TcpItem): seq<Buf>
    requires k < |bufs| && Comparable(bufs[k].pkt, m, item, bufs) && m.tcphLen == item.tcphLen
  {
    var w := item.bufsIndex;
    if can == Append then bufs[w := AppendedBuf(bufs[w], bufs[k].pkt, m, item)]
    else bufs[w := Buf(bufs[k].pkt + bufs[w].pkt[item.iphLen + item.tcphLen..], bufs[k].cap)][k := bufs[w]]
  }

  function MergedItem(can: CanCoalesce, item: TcpItem, m: TcpMeta): TcpItem {
    if can == Append then Appended(item, m) else Prepended(item, m)
  }

  /** The trace after packet |t.owner| has been merged into buffer w. */
  ghost function MergedTrace(can: CanCoalesce, t: Trace, m: TcpMeta, w: nat): Trace {
    if w !in t.groups then t
    else
      var g, k := t.groups[w], |t.owner|;
      TcpTrace(t, t.groups[w := if can == Append then Joined(g, k) else Led(g, k)], w, m)
  }

  /** coalesceTCPPackets applies to packet |t.owner| and item i of its flow. */
  ghost predicate Mergeable(mode: CanCoalesce, bufs: seq<Buf>, tcp: TcpTable, t: Trace, env: Env, m: TcpMeta, i: nat) {
    && |t.owner| < |env.input| == |bufs| && bufs[|t.owner|].pkt == env.input[|t.owner|]
    && TcpMetaOf(env.input[|t.owner|]) == Some(m)
    && m.key in tcp && i < |tcp[m.key]|
    && var item := tcp[m.key][i];
    && item.iphLen == m.iphLen && item.bufsIndex < |bufs| && item.gsoSize > 0
    && m.iphLen + m.tcphLen <= |env.input[|t.owner|]|
    && item.iphLen + item.tcphLen <= |bufs[item.bufsIndex].pkt|
    && TcpCanCoalesce(env.input[|t.owner|], m, item, bufs[item.bufsIndex].pkt) == mode
    && TcpAttempt(mode, bufs[|t.owner|], m, item, bufs[item.bufsIndex], env.offset) == Success
  }

  /** What is known of the item, the room and the checksums when a merge goes ahead. */
  lemma MergeFacts(mode: CanCoalesce, bufs: seq<Buf>, tcp: TcpTable, udp: UdpTable, toWrite: seq<nat>, t: Trace,
                   env: Env, m: TcpMeta, i: nat)
    requires Inv(bufs, tcp, udp, toWrite, t, env) && Mergeable(mode, bufs, tcp, t, env, m, i)
    ensures var item := tcp[m.key][i];
            && item.key == m.key && item.bufsIndex in t.groups && item.bufsIndex < |t.owner|
            && var g := t.groups[item.bufsIndex];
            && TcpItemOk(item, g, env.input, t.metas)
            && GroupOk(item.bufsIndex, g, bufs[item.bufsIndex].pkt, env.input, t.owner)
            && g.h == item.iphLen + item.tcphLen
            && GroupVerified(Joined(g, |t.owner|), env.input)
            && GroupVerified(Led(g, |t.owner|), env.input)
            && |env.input[|t.owner|]| + |bufs[item.bufsIndex].pkt| - g.h + env.offset
               <= if mode == Prepend then bufs[|t.owner|].cap else bufs[item.bufsIndex].cap
  {
    var item := tcp[m.key][i];
    ItemFacts(bufs, tcp, toWrite, t, env, m.key, i);
    SuccessFacts(mode, bufs[|t.owner|], m, item, bufs[item.bufsIndex], env.offset);
    MembersAndOne(bufs, toWrite, t, env, item.bufsIndex, t.groups[item.bufsIndex], m.key.isV6, IPPROTO_TCP,
                  item.numMerged);
  }

  lemma AppendPrepared(bufs: seq<Buf>, tcp: TcpTable, udp: UdpTable, toWrite: seq<nat>, t: Trace, env: Env,
                       m: TcpMeta, i: nat)
    requires Inv(bufs, tcp, udp, toWrite, t, env) && Mergeable(Append, bufs, tcp, t, env, m, i)
    ensures var item := tcp[m.key][i];
            && item.bufsIndex in t.groups && item.bufsIndex < |t.owner|
            && var w, g := item.bufsIndex, t.groups[item.bufsIndex];
            && var t' := TcpTrace(t, t.groups[w := Joined(g, |t.owner|)], w, m);
            && g.h == item.iphLen + item.tcphLen && g.h <= |bufs[w].pkt| && g.h <= |env.input[|t.owner|]|
            && |env.input[|t.owner|]| + |bufs[w].pkt| - g.h + env.offset <= bufs[w].cap
            && GroupVerified(Joined(g, |t.owner|), env.input) && TraceTrue(t', env)
            && TcpTableOk(tcp[m.key := tcp[m.key][i := Appended(item, m)]], t'.groups, env.input, t'.metas)
            && UdpTableOk(udp, t'.groups, env.input, t'.entered, |t'.owner|)
  {
    hide TcpMetaOf, TcpCanCoalesce, GroupVerified, IsRun;
    MergeFacts(Append, bufs, tcp, udp, toWrite, t, env, m, i);
    var item := tcp[m.key][i];
    var g' := Joined(t.groups[item.bufsIndex], |t.owner|);
    AppendFacts(env.input[|t.owner|], m, item, bufs[item.bufsIndex].pkt);
    NewMember(t, env, m, t.groups[item.bufsIndex].h);
    TcpItemMetas(item, t.groups[item.bufsIndex], env.input, t.metas, |t.owner|, m);
    AppendKeepsRun(item, t.groups[item.bufsIndex], env.input, t.metas[|t.owner| := m], |t.owner|);
    MergedTables(tcp, udp, t, env, m, i, Appended(item, m), g');
    TcpTraceTrue(t, env, t.groups[item.bufsIndex := g'], item.bufsIndex, m);
  }

  lemma AppendedBufs(bufs: seq<Buf>, input: seq<seq<Byte>>, k: nat, m: TcpMeta, item: TcpItem, h: nat)
    requires k < |bufs| == |input| && Comparable(bufs[k].pkt, m, item, bufs) && m.tcphLen == item.tcphLen
    requires h == item.iphLen + item.tcphLen && bufs[k].pkt == input[k]
    ensures var w := item.bufsIndex;
            MergedBufs(Append, bufs, k, m, item)
              == bufs[w := Buf(WithPsh(bufs[w].pkt, item, m) + input[k][h..], bufs[w].cap)]
  {}

  lemma PrependedBufs(bufs: seq<Buf>, input: seq<seq<Byte>>, k: nat, m: TcpMeta, item: TcpItem, h: nat)
    requires k < |bufs| == |input| && Comparable(bufs[k].pkt, m, item, bufs) && m.tcphLen == item.tcphLen
    requires h == item.iphLen + item.tcphLen && bufs[k].pkt == input[k]
    ensures var w := item.bufsIndex;
            MergedBufs(Prepend, bufs, k, m, item)
              == bufs[w := Buf(input[k] + bufs[w].pkt[h..], bufs[k].cap)][k := bufs[w]]
  {}

  lemma StepTcpAppend(bufs: seq<Buf>, tcp: TcpTable, udp: UdpTable, toWrite: seq<nat>, t: Trace, env: Env,
                      m: TcpMeta, i: nat, bufs': seq<Buf>, tcp': TcpTable, t': Trace)
    requires Inv(bufs, tcp, udp, toWrite, t, env) && Mergeable(Append, bufs, tcp, t, env, m, i)
    requires Comparable(bufs[|t.owner|].pkt, m, tcp[m.key][i], bufs) && m.tcphLen == tcp[m.key][i].tcphLen
    requires bufs' == MergedBufs(Append, bufs, |t.owner|, m, tcp[m.key][i])
    requires tcp' == tcp[m.key := tcp[m.key][i := Appended(tcp[m.key][i], m)]]
    requires t' == MergedTrace(Append, t, m, tcp[m.key][i].bufsIndex)
    ensures Inv(bufs', tcp', udp, toWrite, t', env)
  {
    AppendPrepared(bufs, tcp, udp, toWrite, t, env, m, i);
    var item := tcp[m.key][i];
    var w := item.bufsIndex;
    AppendedBufs(bufs, env.input, |t.owner|, m, item, t.groups[w].h);
    AppendMerged(bufs, tcp, udp, toWrite, t, env, m, w, Joined(t.groups[w], |t.owner|), tcp', t', bufs',
                 WithPsh(bufs[w].pkt, item, m));
  }

  lemma AppendMerged(bufs: seq<Buf>, tcp: TcpTable, udp: UdpTable, toWrite: seq<nat>, t: Trace, env: Env,
                    m: TcpMeta, w: nat, g': Group, tcp': TcpTable, t': Trace, bufs': seq<Buf>, front: seq<Byte>)
    requires Inv(bufs, tcp, udp, toWrite, t, env)
    requires |t.owner| < |env.input| == |bufs| && w in t.groups && w < |t.owner|
    requires g' == Joined(t.groups[w], |t.owner|) && GroupVerified(g', env.input)
    requires g'.h <= |bufs[w].pkt| && g'.h <= |env.input[|t.owner|]|
    requires t' == TcpTrace(t, t.groups[w := g'], w, m) && TraceTrue(t', env)
    requires TcpTableOk(tcp', t'.groups, env.input, t'.metas)
    requires UdpTableOk(udp, t'.groups, env.input, t'.entered, |t'.owner|)
    requires SameBehind(front, bufs[w].pkt, g'.h)
    requires |front| + |env.input[|t.owner|]| - g'.h + env.offset <= bufs[w].cap
    requires bufs' == bufs[w := Buf(front + env.input[|t.owner|][g'.h..], bufs[w].cap)]
    ensures Inv(bufs', tcp', udp, toWrite, t', env)
  {
    AppendedGroup(w, t.groups[w], bufs[w].pkt, front, env.input, t.owner);
    BufsFitSet(bufs, env.offset, w, bufs'[w]);
    MergedInv(bufs, tcp, udp, toWrite, t, env, w, g', tcp', t', bufs');
  }

  lemma PrependPrepared(bufs: seq<Buf>, tcp: TcpTable, udp: UdpTable, toWrite: seq<nat>, t: Trace, env: Env,
                       m: TcpMeta, i: nat)
    requires Inv(bufs, tcp, udp, toWrite, t, env) && Mergeable(Prepend, bufs, tcp, t, env, m, i)
    ensures var item := tcp[m.key][i];
            && item.bufsIndex in t.groups && item.bufsIndex < |t.owner|
            && var w, g := item.bufsIndex, t.groups[item.bufsIndex];
            && var t' := TcpTrace(t, t.groups[w := Led(g, |t.owner|)], w, m);
            && g.h == item.iphLen + item.tcphLen && g.h <= |bufs[w].pkt| && g.h <= |env.input[|t.owner|]|
            && |env.input[|t.owner|]| + |bufs[w].pkt| - g.h + env.offset <= bufs[|t.owner|].cap
            && GroupVerified(Led(g, |t.owner|), env.input) && TraceTrue(t', env)
            && TcpTableOk(tcp[m.key := tcp[m.key][i := Prepended(item, m)]], t'.groups, env.input, t'.metas)
            && UdpTableOk(udp, t'.groups, env.input, t'.entered, |t'.owner|)
  {
    hide TcpMetaOf, TcpCanCoalesce, GroupVerified, IsRun;
    MergeFacts(Prepend, bufs, tcp, udp, toWrite, t, env, m, i);
    var item := tcp[m.key][i];
    var g' := Led(t.groups[item.bufsIndex], |t.owner|);
    PrependFacts(env.input[|t.owner|], m, item, bufs[item.bufsIndex].pkt);
    NewMember(t, env, m, t.groups[item.bufsIndex].h);
    TcpItemMetas(item, t.groups[item.bufsIndex], env.input, t.metas, |t.owner|, m);
    PrependKeepsRun(item, t.groups[item.bufsIndex], env.input, t.metas[|t.owner| := m], |t.owner|);
    MergedTables(tcp, udp, t, env, m, i, Prepended(item, m), g');
    TcpTraceTrue(t, env, t.groups[item.bufsIndex := g'], item.bufsIndex, m);
  }

  lemma StepTcpPrepend(bufs: seq<Buf>, tcp: TcpTable, udp: UdpTable, toWrite: seq<nat>, t: Trace, env: Env,
                       m: TcpMeta, i: nat, bufs': seq<Buf>, tcp': TcpTable, t': Trace)
    requires Inv(bufs, tcp, udp, toWrite, t, env) && Mergeable(Prepend, bufs, tcp, t, env, m, i)
    requires Comparable(bufs[|t.owner|].pkt, m, tcp[m.key][i], bufs) && m.tcphLen == tcp[m.key][i].tcphLen
    requires bufs' == MergedBufs(Prepend, bufs, |t.owner|, m, tcp[m.key][i])
    requires tcp' == tcp[m.key := tcp[m.key][i := Prepended(tcp[m.key][i], m)]]
    requires t' == MergedTrace(Prepend, t, m, tcp[m.key][i].bufsIndex)
    ensures Inv(bufs', tcp', udp, toWrite, t', env)
  {
    PrependPrepared(bufs, tcp, udp, toWrite, t, env, m, i);
    var w := tcp[m.key][i].bufsIndex;
    PrependedBufs(bufs, env.input, |t.owner|, m, tcp[m.key][i], t.groups[w].h);
    PrependMerged(bufs, tcp, udp, toWrite, t, env, m, w, Led(t.groups[w], |t.owner|), tcp', t', bufs');
  }

  lemma PrependMerged(bufs: seq<Buf>, tcp: TcpTable, udp: UdpTable, toWrite: seq<nat>, t: Trace, env: Env,
                    m: TcpMeta, w: nat, g': Group, tcp': TcpTable, t': Trace, bufs': seq<Buf>)
    requires Inv(bufs, tcp, udp, toWrite, t, env)
    requires |t.owner| < |env.input| == |bufs| && w in t.groups && w < |t.owner|
    requires g' == Led(t.groups[w], |t.owner|) && GroupVerified(g', env.input)
    requires g'.h <= |bufs[w].pkt| && g'.h <= |env.input[|t.owner|]|
    requires t' == TcpTrace(t, t.groups[w := g'], w, m) && TraceTrue(t', env)
    requires TcpTableOk(tcp', t'.groups, env.input, t'.metas)
    requires UdpTableOk(udp, t'.groups, env.input, t'.entered, |t'.owner|)
    requires |env.input[|t.owner|]| + |bufs[w].pkt| - g'.h + env.offset <= bufs[|t.owner|].cap
    requires bufs' ==
      bufs[w := Buf(env.input[|t.owner|] + bufs[w].pkt[g'.h..], bufs[|t.owner|].cap)][|t.owner| := bufs[w]]
    ensures Inv(bufs', tcp', udp, toWrite, t', env)
  {
    hide TcpTableOk, UdpTableOk, TraceTrue, GroupVerified;
    PrependedGroup(w, t.groups[w], bufs[w].pkt, env.input, t.owner);
    BufsFitSet(bufs, env.offset, w, bufs'[w]);
    MergedInv(bufs, tcp, udp, toWrite, t, env, w, g', tcp', t', bufs');
  }
}

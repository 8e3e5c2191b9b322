/** The steps taken with UDP packets keep the invariant of the pass. */
module GroUdpSteps {
  import opened Wrappers
  import opened Bytes
  import opened Gso
  import opened GroState
  import opened GroRules
  import opened GroRuns
  import opened GroTables
  import opened GroSteps
  import opened GroTcpSteps
  import opened GroTcpMerge

  /** The item that insert stores for packet k. */
  function NewUdpItem(k: nat, m: UdpMeta, invalid: bool): UdpItem {
    UdpItem(m.key, k, 0, m.gsoSize, m.iphLen, invalid)
  }

  function Datagrams(udp: UdpTable, key: UdpKey): seq<UdpItem> {
    if key in udp then udp[key] else []
  }

  /** The trace after a UDP packet. */
  function UdpTrace(t: Trace, groups: Groups, w: nat, key: UdpKey): Trace {
    Trace(groups, t.owner + [w], t.metas, t.entered[|t.owner| := key])
  }

  lemma UdpTraceTrue(t: Trace, env: Env, groups: Groups, w: nat, m: UdpMeta)
    requires TraceTrue(t, env) && |t.owner| < |env.input|
    requires UdpMetaOf(env.input[|t.owner|], env.canUdp) == Some(m)
    ensures TraceTrue(UdpTrace(t, groups, w, m.key), env)
  {
    UdpMetaFacts(env.input[|t.owner|], env.canUdp, m);
    RecordTrue(t, env, groups, w);
  }

  lemma NewUdpItemOk(k: nat, m: UdpMeta, input: seq<seq<Byte>>, canUdp: bool, invalid: bool)
    requires k < |input| && UdpMetaOf(input[k], canUdp) == Some(m)
    requires invalid ==> !ChecksumValid(input[k], m.iphLen, IPPROTO_UDP, m.key.isV6)
    ensures UdpItemOk(NewUdpItem(k, m, invalid), Group(InUdp(m.key), m.iphLen + 8, [k]), input)
  {
    UdpMetaFacts(input[k], canUdp, m);
  }

  /** A flow with one more item holds one more datagram, last. */
  lemma UdpItemAdded(key: UdpKey, items: seq<UdpItem>, item: UdpItem, groups: Groups,
                     input: seq<seq<Byte>>, g: Group)
    requires items == [] || UdpItemsOk(key, items, groups, input)
    requires item.key == key && item.bufsIndex !in groups && UdpItemOk(item, g, input)
    ensures var groups' := groups[item.bufsIndex := g];
            && UdpItemsOk(key, items + [item], groups', input)
            && (forall j :: 0 <= j < |items| ==> items[j].bufsIndex in groups)
            && Held(items + [item], groups') == Held(items, groups) + g.members
  {
    var items' := items + [item];
    var groups' := groups[item.bufsIndex := g];
    forall j | 0 <= j < |items'|
      ensures && items'[j].key == key && items'[j].bufsIndex in groups'
              && UdpItemOk(items'[j], groups'[items'[j].bufsIndex], input)
    {
      if j < |items| { assert items'[j] == items[j]; }
    }
    assert items'[..|items'| - 1] == items;
    HeldKept(items, groups, groups');
  }

  lemma UdpInserted(udp: UdpTable, t: Trace, env: Env, m: UdpMeta, invalid: bool)
    requires UdpTableOk(udp, t.groups, env.input, t.entered, |t.owner|) && |t.owner| < |env.input|
    requires |t.owner| !in t.groups && UdpMetaOf(env.input[|t.owner|], env.canUdp) == Some(m)
    requires invalid ==> !ChecksumValid(env.input[|t.owner|], m.iphLen, IPPROTO_UDP, m.key.isV6)
    ensures var k := |t.owner|;
            var groups' := t.groups[k := Group(InUdp(m.key), m.iphLen + 8, [k])];
            UdpTableOk(udp[m.key := Datagrams(udp, m.key) + [NewUdpItem(k, m, invalid)]], groups', env.input,
                       t.entered[k := m.key], k + 1)
    ensures m.iphLen + 8 <= |env.input[|t.owner|]|
  {
    var k := |t.owner|;
    var g := Group(InUdp(m.key), m.iphLen + 8, [k]);
    UdpMetaFacts(env.input[k], env.canUdp, m);
    var items, item := Datagrams(udp, m.key), NewUdpItem(k, m, invalid);
    NewUdpItemOk(k, m, env.input, env.canUdp, invalid);
    if m.key !in udp { NoArrivals(udp, t, env, m.key, k); }
    UdpItemAdded(m.key, items, item, t.groups, env.input, g);
    UdpTableUpdated(udp, t.groups, t.groups[k := g], m.key, items + [item], env.input, t.entered, k);
  }

  lemma {:induction false} NoArrivals(udp: UdpTable, t: Trace, env: Env, key: UdpKey, n: nat)
    requires forall k :: k in t.entered ==> t.entered[k] in udp
    requires key !in udp
    ensures Arrivals(t.entered, key, n) == []
  {
    if n > 0 { NoArrivals(udp, t, env, key, n - 1); }
  }

  /** The trace after a datagram that has become an item of its own. */
  function UdpInsertTrace(t: Trace, m: UdpMeta): Trace {
    UdpTrace(t, t.groups[|t.owner| := Group(InUdp(m.key), m.iphLen + 8, [|t.owner|])], |t.owner|, m.key)
  }

  lemma StepUdpInsert(bufs: seq<Buf>, tcp: TcpTable, udp: UdpTable, toWrite: seq<nat>, t: Trace, env: Env,
                      m: UdpMeta, invalid: bool)
    requires |t.owner| < |env.input| && UdpMetaOf(env.input[|t.owner|], env.canUdp) == Some(m)
    requires invalid ==> !ChecksumValid(env.input[|t.owner|], m.iphLen, IPPROTO_UDP, m.key.isV6)
    requires Inv(bufs, tcp, udp, toWrite, t, env)
    ensures Inv(bufs, tcp, udp[m.key := Datagrams(udp, m.key) + [NewUdpItem(|t.owner|, m, invalid)]],
                toWrite + [|t.owner|], UdpInsertTrace(t, m), env)
  {
    hide UdpMetaOf, TcpTableOk, GroupOk, GroupsVerified, ChecksumValid;
    var k := |t.owner|;
    var g := Group(InUdp(m.key), m.iphLen + 8, [k]);
    UdpInserted(udp, t, env, m, invalid);
    UdpTraceTrue(t, env, t.groups[k := g], k, m);
    UdpInsertedInv(bufs, tcp, udp, toWrite, t, env, udp[m.key := Datagrams(udp, m.key) + [NewUdpItem(k, m, invalid)]],
                   g, UdpTrace(t, t.groups[k := g], k, m.key));
  }

  lemma UdpInsertedInv(bufs: seq<Buf>, tcp: TcpTable, udp: UdpTable, toWrite: seq<nat>, t: Trace, env: Env,
                       udp': UdpTable, g: Group, t': Trace)
    requires Inv(bufs, tcp, udp, toWrite, t, env) && |t.owner| < |env.input|
    requires g.tracking.InUdp? && g.members == [|t.owner|] && g.h <= |env.input[|t.owner|]|
    requires t'.groups == t.groups[|t.owner| := g] && t'.owner == t.owner + [|t.owner|] && t'.metas == t.metas
    requires TraceTrue(t', env) && UdpTableOk(udp', t'.groups, env.input, t'.entered, |t'.owner|)
    ensures Inv(bufs, tcp, udp', toWrite + [|t.owner|], t', env)
  {
    var k := |t.owner|;
    AddGroup(bufs, env.input, toWrite, t.groups, t.owner, g.tracking, g.h);
    NewGroupAside(t, env, k, g);
    TcpTableKept(tcp, t.groups, t'.groups, g.tracking, env.input, t.metas);
  }

  // ----- a datagram is appended to the last item of its flow

  function Extended(item: UdpItem): UdpItem { item.(numMerged := item.numMerged + 1) }

  /** The checks of coalesceUDPPackets, in their order. */
  ghost function UdpAttempt(own: seq<Byte>, m: UdpMeta, item: UdpItem, target: Buf, offset: nat): CoalesceResult {
    if target.cap - 2 * offset < |target.pkt| + |own| - (item.iphLen + 8) then InsufficientCap
    else if item.numMerged == 0
         && (item.cSumKnownInvalid || !ChecksumValid(target.pkt, item.iphLen, IPPROTO_UDP, m.key.isV6))
    then ItemInvalidCSum
    else if !ChecksumValid(own, item.iphLen, IPPROTO_UDP, m.key.isV6) then PktInvalidCSum
    else Success
  }

  /** coalesceUDPPackets applies to packet |t.owner| and the last item of its flow. */
  ghost predicate UdpMergeable(bufs: seq<Buf>, udp: UdpTable, t: Trace, env: Env, m: UdpMeta) {
    && |t.owner| < |env.input| == |bufs| && bufs[|t.owner|].pkt == env.input[|t.owner|]
    && UdpMetaOf(env.input[|t.owner|], env.canUdp) == Some(m)
    && m.key in udp && udp[m.key] != []
    && var item := udp[m.key][|udp[m.key]| - 1];
    && item.iphLen == m.iphLen && item.bufsIndex < |bufs| && item.gsoSize > 0
    && item.iphLen + 8 <= |bufs[item.bufsIndex].pkt|
    && UdpCanCoalesce(env.input[|t.owner|], m.iphLen, m.gsoSize, item, bufs[item.bufsIndex].pkt) == Append
    && UdpAttempt(env.input[|t.owner|], m, item, bufs[item.bufsIndex], env.offset) == Success
  }

  lemma UdpItemFacts(bufs: seq<Buf>, udp: UdpTable, toWrite: seq<nat>, t: Trace, env: Env, key: UdpKey)
    requires Conserved(bufs, env.input, toWrite, t.groups, t.owner)
    requires UdpTableOk(udp, t.groups, env.input, t.entered, |t.owner|) && key in udp
    ensures udp[key] != []
    ensures var item := udp[key][|udp[key]| - 1];
            && item.key == key && item.bufsIndex in t.groups && item.bufsIndex < |t.owner|
            && UdpItemOk(item, t.groups[item.bufsIndex], env.input)
            && GroupOk(item.bufsIndex, t.groups[item.bufsIndex], bufs[item.bufsIndex].pkt, env.input, t.owner)
  {
    assert UdpFlowOk(key, udp[key], t.groups, env.input, t.entered, |t.owner|);
    assert UdpItemsOk(key, udp[key], t.groups, env.input);
  }

  lemma UdpLastExtended(key: UdpKey, items: seq<UdpItem>, groups: Groups, input: seq<seq<Byte>>, k: nat)
    requires UdpItemsOk(key, items, groups, input)
    requires var last := items[|items| - 1];
             UdpItemOk(Extended(last), Joined(groups[last.bufsIndex], k), input)
    ensures var i, last := |items| - 1, items[|items| - 1];
            var groups' := groups[last.bufsIndex := Joined(groups[last.bufsIndex], k)];
            && UdpItemsOk(key, items[i := Extended(last)], groups', input)
            && Held(items[i := Extended(last)], groups') == Held(items, groups) + [k]
  {
    hide UdpItemOk, Pieces, MembersFit;
    var i, last := |items| - 1, items[|items| - 1];
    var w := last.bufsIndex;
    var groups' := groups[w := Joined(groups[w], k)];
    var items' := items[i := Extended(last)];
    assert items'[..i] == items[..i];
    HeldKept(items[..i], groups, groups');
    assert Held(items', groups') == Held(items[..i], groups) + groups'[w].members;
  }

  lemma UdpExtendedItem(t: Trace, env: Env, m: UdpMeta, item: UdpItem, target: seq<Byte>)
    requires |t.owner| < |env.input| && UdpMetaOf(env.input[|t.owner|], env.canUdp) == Some(m)
    requires item.bufsIndex in t.groups && UdpItemOk(item, t.groups[item.bufsIndex], env.input)
    requires GroupOk(item.bufsIndex, t.groups[item.bufsIndex], target, env.input, t.owner)
    requires item.key == m.key && item.iphLen == m.iphLen && item.iphLen + 8 <= |target|
    requires UdpCanCoalesce(env.input[|t.owner|], m.iphLen, m.gsoSize, item, target) == Append
    requires !item.cSumKnownInvalid
    ensures UdpItemOk(Extended(item), Joined(t.groups[item.bufsIndex], |t.owner|), env.input)
  {
    UdpMetaFacts(env.input[|t.owner|], env.canUdp, m);
    UdpAppendFacts(env.input[|t.owner|], m.iphLen, m.gsoSize, item, target);
    UdpAppendKeepsRun(item, t.groups[item.bufsIndex], env.input, |t.owner|);
  }

  lemma UdpTables(udp: UdpTable, groups: Groups, env: Env, entered: map<nat, UdpKey>, key: UdpKey, k: nat)
    requires UdpTableOk(udp, groups, env.input, entered, k) && key in udp && udp[key] != []
    requires var item := udp[key][|udp[key]| - 1];
             && item.bufsIndex in groups && groups[item.bufsIndex].tracking == InUdp(key)
             && UdpItemOk(Extended(item), Joined(groups[item.bufsIndex], k), env.input)
    ensures var i, item := |udp[key]| - 1, udp[key][|udp[key]| - 1];
            var groups' := groups[item.bufsIndex := Joined(groups[item.bufsIndex], k)];
            UdpTableOk(udp[key := udp[key][i := Extended(item)]], groups', env.input, entered[k := key], k + 1)
  {
    hide UdpItemOk, Held, Arrivals;
    var i, item := |udp[key]| - 1, udp[key][|udp[key]| - 1];
    var groups' := groups[item.bufsIndex := Joined(groups[item.bufsIndex], k)];
    assert UdpFlowOk(key, udp[key], groups, env.input, entered, k);
    UdpLastExtended(key, udp[key], groups, env.input, k);
    UdpTableUpdated(udp, groups, groups', key, udp[key][i := Extended(item)], env.input, entered, k);
  }

  lemma UdpTablesTraced(udp: UdpTable, t: Trace, env: Env, key: UdpKey)
    requires UdpTableOk(udp, t.groups, env.input, t.entered, |t.owner|) && key in udp && udp[key] != []
    requires var item := udp[key][|udp[key]| - 1];
             && item.bufsIndex in t.groups && t.groups[item.bufsIndex].tracking == InUdp(key)
             && UdpItemOk(Extended(item), Joined(t.groups[item.bufsIndex], |t.owner|), env.input)
    ensures var i, item := |udp[key]| - 1, udp[key][|udp[key]| - 1];
            var w := item.bufsIndex;
            var t' := UdpTrace(t, t.groups[w := Joined(t.groups[w], |t.owner|)], w, key);
            UdpTableOk(udp[key := udp[key][i := Extended(item)]], t'.groups, env.input, t'.entered, |t'.owner|)
  {
    UdpTables(udp, t.groups, env, t.entered, key, |t.owner|);
    var w := udp[key][|udp[key]| - 1].bufsIndex;
    assert |t.owner + [w]| == |t.owner| + 1;
  }

  lemma UdpMergeFacts(bufs: seq<Buf>, tcp: TcpTable, udp: UdpTable, toWrite: seq<nat>, t: Trace, env: Env, m: UdpMeta)
    requires Inv(bufs, tcp, udp, toWrite, t, env) && UdpMergeable(bufs, udp, t, env, m)
    ensures var item := udp[m.key][|udp[m.key]| - 1];
            && item.bufsIndex in t.groups && item.bufsIndex < |t.owner|
            && var w, g := item.bufsIndex, t.groups[item.bufsIndex];
            && g.h == item.iphLen + 8 && g.h <= |bufs[w].pkt| && g.h <= |env.input[|t.owner|]|
            && |env.input[|t.owner|]| + |bufs[w].pkt| - g.h + env.offset <= bufs[w].cap
            && g.tracking == InUdp(m.key) && GroupVerified(Joined(g, |t.owner|), env.input)
            && UdpItemOk(Extended(item), Joined(g, |t.owner|), env.input)
  {
    var item := udp[m.key][|udp[m.key]| - 1];
    var w := item.bufsIndex;
    UdpItemFacts(bufs, udp, toWrite, t, env, m.key);
    UdpMetaFacts(env.input[|t.owner|], env.canUdp, m);
    UdpExtendedItem(t, env, m, item, bufs[w].pkt);
    MembersAndOne(bufs, toWrite, t, env, w, t.groups[w], m.key.isV6, IPPROTO_UDP, item.numMerged);
  }

  lemma UdpPrepared(tcp: TcpTable, udp: UdpTable, t: Trace, env: Env, m: UdpMeta)
    requires TcpTableOk(tcp, t.groups, env.input, t.metas) && TraceTrue(t, env) && |t.owner| < |env.input|
    requires UdpTableOk(udp, t.groups, env.input, t.entered, |t.owner|)
    requires UdpMetaOf(env.input[|t.owner|], env.canUdp) == Some(m)
    requires m.key in udp && udp[m.key] != []
    requires var item := udp[m.key][|udp[m.key]| - 1];
             && item.bufsIndex in t.groups && t.groups[item.bufsIndex].tracking == InUdp(m.key)
             && UdpItemOk(Extended(item), Joined(t.groups[item.bufsIndex], |t.owner|), env.input)
    ensures var i, item := |udp[m.key]| - 1, udp[m.key][|udp[m.key]| - 1];
            var w := item.bufsIndex;
            var t' := UdpTrace(t, t.groups[w := Joined(t.groups[w], |t.owner|)], w, m.key);
            && TraceTrue(t', env) && TcpTableOk(tcp, t'.groups, env.input, t'.metas)
            && UdpTableOk(udp[m.key := udp[m.key][i := Extended(item)]], t'.groups, env.input, t'.entered, |t'.owner|)
  {
    var w := udp[m.key][|udp[m.key]| - 1].bufsIndex;
    var g' := Joined(t.groups[w], |t.owner|);
    UdpTablesTraced(udp, t, env, m.key);
    UdpTraceTrue(t, env, t.groups[w := g'], w, m);
    TcpTableKept(tcp, t.groups, t.groups[w := g'], InUdp(m.key), env.input, t.metas);
  }

  lemma StepUdpAppend(bufs: seq<Buf>, tcp: TcpTable, udp: UdpTable, toWrite: seq<nat>, t: Trace, env: Env, m: UdpMeta,
                      bufs': seq<Buf>, udp': UdpTable, t': Trace)
    requires Inv(bufs, tcp, udp, toWrite, t, env) && UdpMergeable(bufs, udp, t, env, m)
    requires var item := udp[m.key][|udp[m.key]| - 1];
             && item.iphLen + 8 <= |env.input[|t.owner|]|
             && bufs' == UdpMergedBufs(bufs, |t.owner|, item)
             && udp' == udp[m.key := udp[m.key][|udp[m.key]| - 1 := Extended(item)]]
             && t' == UdpMergedTrace(t, item.bufsIndex, m.key)
    ensures Inv(bufs', tcp, udp', toWrite, t', env)
  {
    UdpMergeFacts(bufs, tcp, udp, toWrite, t, env, m);
    UdpPrepared(tcp, udp, t, env, m);
    var item := udp[m.key][|udp[m.key]| - 1];
    UdpMerged(bufs, tcp, udp, toWrite, t, env, item.bufsIndex, Joined(t.groups[item.bufsIndex], |t.owner|), udp', t',
              bufs');
  }

  /** The buffers after datagram k has been appended to the item's buffer. */
  function UdpMergedBufs(bufs: seq<Buf>, k: nat, item: UdpItem): seq<Buf>
    requires k < |bufs| && item.bufsIndex < |bufs| && item.iphLen + 8 <= |bufs[k].pkt|
  {
    var w := item.bufsIndex;
    bufs[w := Buf(bufs[w].pkt + bufs[k].pkt[item.iphLen + 8..], bufs[w].cap)]
  }

  ghost function UdpMergedTrace(t: Trace, w: nat, key: UdpKey): Trace {
    if w in t.groups then UdpTrace(t, t.groups[w := Joined(t.groups[w], |t.owner|)], w, key) else t
  }

  lemma UdpMerged(bufs: seq<Buf>, tcp: TcpTable, udp: UdpTable, toWrite: seq<nat>, t: Trace, env: Env,
                  w: nat, g': Group, udp': UdpTable, t': Trace, bufs': seq<Buf>)
    requires Inv(bufs, tcp, udp, toWrite, t, env)
    requires |t.owner| < |env.input| == |bufs| && w in t.groups && w < |t.owner|
    requires g' == Joined(t.groups[w], |t.owner|) && GroupVerified(g', env.input)
    requires g'.h <= |bufs[w].pkt| && g'.h <= |env.input[|t.owner|]|
    requires t'.groups == t.groups[w := g'] && t'.owner == t.owner + [w] && t'.metas == t.metas && TraceTrue(t', env)
    requires TcpTableOk(tcp, t'.groups, env.input, t'.metas)
    requires UdpTableOk(udp', t'.groups, env.input, t'.entered, |t'.owner|)
    requires |bufs[w].pkt| + |env.input[|t.owner|]| - g'.h + env.offset <= bufs[w].cap
    requires bufs' == bufs[w := Buf(bufs[w].pkt + env.input[|t.owner|][g'.h..], bufs[w].cap)]
    ensures Inv(bufs', tcp, udp', toWrite, t', env)
  {
    AppendedGroup(w, t.groups[w], bufs[w].pkt, bufs[w].pkt, env.input, t.owner);
    BufsFitSet(bufs, env.offset, w, bufs'[w]);
    MergeInto(bufs, env.input, toWrite, t.groups, t.owner, w, g', bufs');
    VerifiedAfter(t, env, w, g');
  }
}

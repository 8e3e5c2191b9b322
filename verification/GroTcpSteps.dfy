/** The steps taken with TCP packets keep the invariant of the pass. */
module GroTcpSteps {
  import opened Wrappers
  import opened Bytes
  import opened Gso
  import opened GroState
  import opened GroRules
  import opened GroRuns
  import opened GroTables
  import opened GroSteps

  /** The item that insert stores for packet k. */
  function NewTcpItem(k: nat, m: TcpMeta): TcpItem {
    TcpItem(m.key, m.sentSeq, k, 0, m.gsoSize, m.iphLen, m.tcphLen, m.pshSet)
  }

  function ItemsOf(tcp: TcpTable, key: TcpKey): seq<TcpItem> {
    if key in tcp then tcp[key] else []
  }

  lemma NewTcpItemOk(k: nat, m: TcpMeta, input: seq<seq<Byte>>, metas: TcpMetas)
    requires k < |input| && TcpMetaOf(input[k]) == Some(m) && k in metas && metas[k] == m
    ensures TcpItemOk(NewTcpItem(k, m), Group(InTcp(m.key), m.iphLen + m.tcphLen, [k]), input, metas)
  {
    TcpMetaFacts(input[k], m);
    var g := Group(InTcp(m.key), m.iphLen + m.tcphLen, [k]);
    assert TcpMember(k, g.h, input, metas, m.key, m.tcphLen);
    assert Pieces(g, input)[..0] == [];
    SeqAddMod(m.sentSeq, 0);
  }

  lemma TcpItemAdded(key: TcpKey, items: seq<TcpItem>, item: TcpItem, groups: Groups,
                     input: seq<seq<Byte>>, metas: TcpMetas, g: Group)
    requires TcpItemsOk(key, items, groups, input, metas)
    requires item.key == key && item.bufsIndex !in groups && TcpItemOk(item, g, input, metas)
    requires forall w :: w in groups ==> w < item.bufsIndex
    ensures TcpItemsOk(key, items + [item], groups[item.bufsIndex := g], input, metas)
  {
    var items' := items + [item];
    forall j | 0 <= j < |items'|
      ensures && items'[j].key == key && items'[j].bufsIndex in groups[item.bufsIndex := g]
              && TcpItemOk(items'[j], groups[item.bufsIndex := g][items'[j].bufsIndex], input, metas)
    {
      if j < |items| { assert items'[j] == items[j]; }
    }
  }

  lemma StepTcpInsert(bufs: seq<Buf>, tcp: TcpTable, udp: UdpTable, toWrite: seq<nat>, t: Trace, env: Env, m: TcpMeta)
    requires Inv(bufs, tcp, udp, toWrite, t, env) && |t.owner| < |env.input|
    requires TcpMetaOf(env.input[|t.owner|]) == Some(m)
    ensures var k := |t.owner|;
            Inv(bufs, tcp[m.key := ItemsOf(tcp, m.key) + [NewTcpItem(k, m)]], udp, toWrite + [k],
                TcpTrace(t, t.groups[k := Group(InTcp(m.key), m.iphLen + m.tcphLen, [k])], k, m), env)
  {
    var k := |t.owner|;
    var g := Group(InTcp(m.key), m.iphLen + m.tcphLen, [k]);
    TcpMetaFacts(env.input[k], m);
    TcpInserted(tcp, t, env, m);
    TcpTraceTrue(t, env, t.groups[k := g], k, m);
    InsertedInv(bufs, tcp, udp, toWrite, t, env, m, tcp[m.key := ItemsOf(tcp, m.key) + [NewTcpItem(k, m)]], g);
  }

  lemma InsertedInv(bufs: seq<Buf>, tcp: TcpTable, udp: UdpTable, toWrite: seq<nat>, t: Trace, env: Env,
                    m: TcpMeta, tcp': TcpTable, g: Group)
    requires Inv(bufs, tcp, udp, toWrite, t, env) && |t.owner| < |env.input|
    requires g == Group(InTcp(m.key), m.iphLen + m.tcphLen, [|t.owner|]) && g.h <= |env.input[|t.owner|]|
    requires var t' := TcpTrace(t, t.groups[|t.owner| := g], |t.owner|, m);
             TraceTrue(t', env) && TcpTableOk(tcp', t'.groups, env.input, t'.metas)
    ensures var t' := TcpTrace(t, t.groups[|t.owner| := g], |t.owner|, m);
            Inv(bufs, tcp', udp, toWrite + [|t.owner|], t', env)
  {
    var k := |t.owner|;
    AddGroup(bufs, env.input, toWrite, t.groups, t.owner, g.tracking, g.h);
    NewGroupAside(t, env, k, g);
    UdpTableKept(udp, t.groups, t.groups[k := g], g.tracking, env.input, t.entered, k);
  }

  lemma TcpInserted(tcp: TcpTable, t: Trace, env: Env, m: TcpMeta)
    requires TcpTableOk(tcp, t.groups, env.input, t.metas) && TraceTrue(t, env) && |t.owner| < |env.input|
    requires (forall w :: w in t.groups ==> w < |t.owner|) && TcpMetaOf(env.input[|t.owner|]) == Some(m)
    ensures var k := |t.owner|;
            var groups' := t.groups[k := Group(InTcp(m.key), m.iphLen + m.tcphLen, [k])];
            TcpTableOk(tcp[m.key := ItemsOf(tcp, m.key) + [NewTcpItem(k, m)]], groups', env.input, t.metas[k := m])
  {
    var k := |t.owner|;
    var g := Group(InTcp(m.key), m.iphLen + m.tcphLen, [k]);
    var metas' := t.metas[k := m];
    TcpTableMetas(tcp, t.groups, env.input, t.metas, k, m);
    NewTcpItemOk(k, m, env.input, metas');
    TcpItemAdded(m.key, ItemsOf(tcp, m.key), NewTcpItem(k, m), t.groups, env.input, metas', g);
    TcpTableUpdated(tcp, t.groups, t.groups[k := g], m.key, ItemsOf(tcp, m.key) + [NewTcpItem(k, m)],
                    env.input, metas');
  }

  // ----- an item is dropped

  function RemoveAt<T>(s: seq<T>, i: nat): (r: seq<T>)
    requires i < |s|
  {
    s[..i] + s[i + 1..]
  }

  lemma TcpItemDropped(key: TcpKey, items: seq<TcpItem>, i: nat, groups: Groups,
                       input: seq<seq<Byte>>, metas: TcpMetas, g: Group)
    requires TcpItemsOk(key, items, groups, input, metas) && i < |items|
    ensures TcpItemsOk(key, RemoveAt(items, i), groups[items[i].bufsIndex := g], input, metas)
  {
    var items' := RemoveAt(items, i);
    forall j | 0 <= j < |items'|
      ensures && items'[j].key == key && items'[j].bufsIndex in groups && items'[j].bufsIndex != items[i].bufsIndex
              && TcpItemOk(items'[j], groups[items'[j].bufsIndex], input, metas)
    {
      if j < i { assert items'[j] == items[j]; } else { assert items'[j] == items[j + 1]; }
    }
  }

  /** An unmerged item leaves the table; its buffer is still written. */
  lemma StepTcpDelete(bufs: seq<Buf>, tcp: TcpTable, udp: UdpTable, toWrite: seq<nat>, t: Trace, env: Env,
                      key: TcpKey, i: nat, tcp': TcpTable, t': Trace)
    requires Inv(bufs, tcp, udp, toWrite, t, env)
    requires key in tcp && i < |tcp[key]| && tcp[key][i].numMerged == 0
    requires tcp' == tcp[key := RemoveAt(tcp[key], i)] && t' == Dropped(t, tcp[key][i].bufsIndex)
    ensures Inv(bufs, tcp', udp, toWrite, t', env)
  {
    hide UdpFlowOk, GroupOk;
    var items := tcp[key];
    var item := items[i];
    var w := item.bufsIndex;
    assert TcpItemsOk(key, items, t.groups, env.input, t.metas);
    assert TcpItemOk(item, t.groups[w], env.input, t.metas);
    TcpItemDropped(key, items, i, t.groups, env.input, t.metas, t'.groups[w]);
    TcpTableUpdated(tcp, t.groups, t'.groups, key, RemoveAt(items, i), env.input, t.metas);
    UdpTableKept(udp, t.groups, t'.groups, InTcp(key), env.input, t.entered, |t.owner|);
    Untracked(bufs, toWrite, t, env, w);
  }

  /** The trace once no item tracks buffer w any more. */
  ghost function Dropped(t: Trace, w: nat): Trace {
    if w in t.groups then t.(groups := t.groups[w := t.groups[w].(tracking := Loose)]) else t
  }

  lemma SameTrace(t: Trace, t': Trace, env: Env)
    requires TraceTrue(t, env) && t'.owner == t.owner && t'.metas == t.metas && t'.entered == t.entered
    ensures TraceTrue(t', env)
  {
    forall k | 0 <= k < |t'.owner| ensures Recorded(k, t', env) { assert Recorded(k, t, env); }
  }

  /** Whether the table tracks a buffer does not matter to what the buffer holds. */
  lemma Untracked(bufs: seq<Buf>, toWrite: seq<nat>, t: Trace, env: Env, w: nat)
    requires Conserved(bufs, env.input, toWrite, t.groups, t.owner) && TraceTrue(t, env)
    requires GroupsVerified(t.groups, env.input) && w in t.groups && |t.groups[w].members| == 1
    ensures var t' := Dropped(t, w);
            && Conserved(bufs, env.input, toWrite, t'.groups, t'.owner)
            && TraceTrue(t', env) && GroupsVerified(t'.groups, env.input)
  {
    hide Recorded, GroupOk, TraceTrue, AllMembersVerified;
    var g' := t.groups[w].(tracking := Loose);
    var t' := t.(groups := t.groups[w := g']);
    SameTrace(t, t', env);
    forall v | v in t'.groups ensures GroupOk(v, t'.groups[v], bufs[v].pkt, env.input, t.owner) {
      if v == w { GroupUntracked(w, t.groups[w], bufs[w].pkt, env.input, t.owner); }
    }
    forall k | 0 <= k < |t.owner| ensures OwnerHolds(k, t'.groups, t.owner) {
      assert OwnerHolds(k, t.groups, t.owner);
    }
  }

  lemma GroupUntracked(w: nat, g: Group, pkt: seq<Byte>, input: seq<seq<Byte>>, owner: seq<nat>)
    requires GroupOk(w, g, pkt, input, owner)
    ensures GroupOk(w, g.(tracking := Loose), pkt, input, owner)
  {
    assert Pieces(g.(tracking := Loose), input) == Pieces(g, input);
  }

  // ----- a packet is merged

  /** Item i of the flow now describes group g of the same buffer. */
  lemma TcpItemReplaced(key: TcpKey, items: seq<TcpItem>, i: nat, item: TcpItem, groups: Groups,
                        input: seq<seq<Byte>>, metas: TcpMetas, g: Group)
    requires TcpItemsOk(key, items, groups, input, metas) && i < |items|
    requires item.key == key && item.bufsIndex == items[i].bufsIndex && TcpItemOk(item, g, input, metas)
    ensures TcpItemsOk(key, items[i := item], groups[item.bufsIndex := g], input, metas)
  {}

  lemma MergedVerified(t: Trace, env: Env, bufs: seq<Buf>, toWrite: seq<nat>, w: nat, g: Group,
                       isV6: bool, proto: Byte, numMerged: nat)
    requires Conserved(bufs, env.input, toWrite, t.groups, t.owner) && GroupsVerified(t.groups, env.input)
    requires w in t.groups && t.groups[w] == g && |g.members| == numMerged + 1
    requires g.tracking.InTcp? ==> g.tracking.tcpKey.isV6 == isV6 && proto == IPPROTO_TCP
    requires g.tracking.InUdp? ==> g.tracking.udpKey.isV6 == isV6 && proto == IPPROTO_UDP
    requires numMerged == 0 ==> ChecksumValid(bufs[w].pkt, if isV6 then 40 else 20, proto, isV6)
    ensures AllMembersVerified(g.members, env.input, isV6, proto)
  {
    assert GroupVerified(g, env.input);
    assert GroupOk(w, g, bufs[w].pkt, env.input, t.owner);
    if numMerged == 0 {
      assert MemberVerified(g.members[0], env.input, isV6, proto);
    }
  }

  /** What every merge needs to know about an item of the table. */
  lemma ItemFacts(bufs: seq<Buf>, tcp: TcpTable, toWrite: seq<nat>, t: Trace, env: Env, key: TcpKey, i: nat)
    requires Conserved(bufs, env.input, toWrite, t.groups, t.owner)
    requires TcpTableOk(tcp, t.groups, env.input, t.metas) && key in tcp && i < |tcp[key]|
    ensures var item := tcp[key][i];
            && item.key == key && item.bufsIndex in t.groups && item.bufsIndex < |t.owner|
            && TcpItemOk(item, t.groups[item.bufsIndex], env.input, t.metas)
            && GroupOk(item.bufsIndex, t.groups[item.bufsIndex], bufs[item.bufsIndex].pkt, env.input, t.owner)
  {
    assert TcpItemsOk(key, tcp[key], t.groups, env.input, t.metas);
  }

  /** The pieces before the i-th are full. */
  lemma PiecesBefore(ps: seq<seq<Byte>>, g: nat, i: nat)
    requires g > 0 && IsRun(ps, g) && i < |ps|
    ensures |Flatten(ps[..i])| == i * g
  {
    if i > 0 { RunLength(ps[..i], g); }
  }

  /** What was read from the i-th packet of an item. */
  lemma MemberMeta(item: TcpItem, g: Group, t: Trace, env: Env, i: nat)
    requires TcpItemOk(item, g, env.input, t.metas) && TraceTrue(t, env) && i < |g.members|
    requires forall j :: 0 <= j < |g.members| ==> g.members[j] < |t.owner|
    ensures g.members[i] < |env.input| && g.members[i] in t.metas
    ensures var m := t.metas[g.members[i]];
            && TcpMetaOf(env.input[g.members[i]]) == Some(m) && m.key == item.key
            && m.iphLen == item.iphLen && m.tcphLen == item.tcphLen && m.gsoSize > 0
            && |env.input[g.members[i]]| == g.h + m.gsoSize <= MAX_PACKET
            && m.sentSeq == (item.sentSeq + i * item.gsoSize) % TWO32
            && m.pshSet == (item.pshSet && i == |g.members| - 1)
  {
    hide TcpMetaOf;
    var k := g.members[i];
    assert TcpMember(k, g.h, env.input, t.metas, item.key, item.tcphLen);
    assert Recorded(k, t, env);
    TcpMetaFacts(env.input[k], t.metas[k]);
    SeqAddMod(item.sentSeq, |Flatten(Pieces(g, env.input)[..i])|);
    PiecesBefore(Pieces(g, env.input), item.gsoSize, i);
  }

  /** The tables after a merge into item i of a flow. */
  lemma MergedTables(tcp: TcpTable, udp: UdpTable, t: Trace, env: Env, m: TcpMeta, i: nat, item: TcpItem, g: Group)
    requires TcpTableOk(tcp, t.groups, env.input, t.metas) && |t.owner| < |env.input| && |t.owner| !in t.metas
    requires UdpTableOk(udp, t.groups, env.input, t.entered, |t.owner|)
    requires m.key in tcp && i < |tcp[m.key]| && tcp[m.key][i].bufsIndex in t.groups
    requires t.groups[tcp[m.key][i].bufsIndex].tracking == InTcp(m.key)
    requires item.key == m.key && item.bufsIndex == tcp[m.key][i].bufsIndex
    requires TcpItemOk(item, g, env.input, t.metas[|t.owner| := m])
    ensures var t' := TcpTrace(t, t.groups[item.bufsIndex := g], item.bufsIndex, m);
            && TcpTableOk(tcp[m.key := tcp[m.key][i := item]], t'.groups, env.input, t'.metas)
            && UdpTableOk(udp, t'.groups, env.input, t'.entered, |t'.owner|)
  {
    hide TcpItemOk, UdpFlowOk;
    var groups' := t.groups[item.bufsIndex := g];
    var metas' := t.metas[|t.owner| := m];
    TcpTableMetas(tcp, t.groups, env.input, t.metas, |t.owner|, m);
    TcpItemReplaced(m.key, tcp[m.key], i, item, t.groups, env.input, metas', g);
    TcpTableUpdated(tcp, t.groups, groups', m.key, tcp[m.key][i := item], env.input, metas');
    UdpTableKept(udp, t.groups, groups', InTcp(m.key), env.input, t.entered, |t.owner|);
  }

  lemma VerifiedAfter(t: Trace, env: Env, w: nat, g: Group)
    requires GroupsVerified(t.groups, env.input) && GroupVerified(g, env.input)
    ensures GroupsVerified(t.groups[w := g], env.input)
  {}

  /** Merging packet |t.owner| into buffer w, whose item is item i of the flow. */
  lemma MergedInv(bufs: seq<Buf>, tcp: TcpTable, udp: UdpTable, toWrite: seq<nat>, t: Trace, env: Env,
                  w: nat, g: Group, tcp': TcpTable, t': Trace, bufs': seq<Buf>)
    requires Inv(bufs, tcp, udp, toWrite, t, env) && |t.owner| < |env.input|
    requires w in t.groups && |bufs'| == |bufs|
    requires GroupOk(w, g, bufs'[w].pkt, env.input, t.owner + [w]) && GroupVerified(g, env.input)
    requires |t.owner| in g.members && forall n :: n in t.groups[w].members ==> n in g.members
    requires forall i :: 0 <= i < |bufs| && i != w && i != |t.owner| ==> bufs'[i] == bufs[i]
    requires BufsFit(bufs', env.offset)
    requires t'.groups == t.groups[w := g] && t'.owner == t.owner + [w]
    requires TraceTrue(t', env) && TcpTableOk(tcp', t'.groups, env.input, t'.metas)
    requires UdpTableOk(udp, t'.groups, env.input, t'.entered, |t'.owner|)
    ensures Inv(bufs', tcp', udp, toWrite, t', env)
  {
    MergeInto(bufs, env.input, toWrite, t.groups, t.owner, w, g, bufs');
    VerifiedAfter(t, env, w, g);
  }
}

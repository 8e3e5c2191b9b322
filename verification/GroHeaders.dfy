/** Which of the written buffers get a virtio header in front of them. */
module GroHeaders {
  import opened Wrappers
  import opened Bytes
  import opened Gso
  import opened GroState
  import opened GroRules
  import opened GroRuns
  import opened GroTables
  import opened GroSteps
  import opened GroTcpSteps
  import opened GroTcpMerge
  import opened GroUdpSteps
  import opened GroAccount
  import opened GroFlows
  import opened GroOutcomes

  /** A packet that was left alone: handleGRO gives it an empty header at once. */
  predicate LeftAlone(g: Group) { g.tracking == Loose && g.h == 0 }

  /** The packet of an item that was dropped from its table, where the accounting pass no longer finds it. */
  predicate WasDropped(g: Group) { g.tracking == Loose && g.h > 0 }

  function Plains(groups: Groups): set<nat> { set w | w in groups && LeftAlone(groups[w]) }

  /** The packet parses as TCP, but its transport checksum does not verify. */
  ghost predicate Corrupt(pkt: seq<Byte>) {
    match TcpMetaOf(pkt)
    case Some(m) => !ChecksumValid(pkt, m.iphLen, IPPROTO_TCP, m.key.isV6)
    case None => false
  }

  function TcpSlots(items: seq<TcpItem>): set<nat> { set j | 0 <= j < |items| :: items[j].bufsIndex }

  function UdpSlots(items: seq<UdpItem>): set<nat> { set j | 0 <= j < |items| :: items[j].bufsIndex }

  /** A tracked buffer is that of some item of its flow. */
  ghost predicate Covered(w: nat, g: Group, tcp: TcpTable, udp: UdpTable) {
    match g.tracking
    case Loose => true
    case InTcp(key) => key in tcp && w in TcpSlots(tcp[key])
    case InUdp(key) => key in udp && w in UdpSlots(udp[key])
  }

  /** Only single corrupt TCP packets are dropped. */
  ghost predicate DroppedCorrupt(g: Group, input: seq<seq<Byte>>) {
    WasDropped(g) ==> |g.members| == 1 && g.members[0] < |input| && Corrupt(input[g.members[0]])
  }

  ghost predicate Tracks(tcp: TcpTable, udp: UdpTable, groups: Groups, input: seq<seq<Byte>>) {
    forall w {:trigger groups[w]} :: w in groups ==> Covered(w, groups[w], tcp, udp) && DroppedCorrupt(groups[w], input)
  }

  /** One flow and one buffer change. */
  lemma TcpTracks(tcp: TcpTable, udp: UdpTable, groups: Groups, input: seq<seq<Byte>>,
                  key: TcpKey, items: seq<TcpItem>, w: nat, g: Group)
    requires Tracks(tcp, udp, groups, input)
    requires TcpSlots(ItemsOf(tcp, key)) <= TcpSlots(items) + {w}
    requires Covered(w, g, tcp[key := items], udp) && DroppedCorrupt(g, input)
    requires LeftAlone(g) <==> w in groups && LeftAlone(groups[w])
    ensures Tracks(tcp[key := items], udp, groups[w := g], input)
    ensures Plains(groups[w := g]) == Plains(groups)
  {
    hide TcpSlots, UdpSlots, DroppedCorrupt, LeftAlone;
  }

  lemma UdpTracks(tcp: TcpTable, udp: UdpTable, groups: Groups, input: seq<seq<Byte>>,
                  key: UdpKey, items: seq<UdpItem>, w: nat, g: Group)
    requires Tracks(tcp, udp, groups, input)
    requires UdpSlots(Datagrams(udp, key)) <= UdpSlots(items) && w in UdpSlots(items)
    requires g.tracking == InUdp(key) && (w in groups ==> groups[w].tracking == InUdp(key))
    ensures Tracks(tcp, udp[key := items], groups[w := g], input)
    ensures Plains(groups[w := g]) == Plains(groups)
  {
    hide TcpSlots, UdpSlots, Corrupt;
  }

  lemma AloneTracks(tcp: TcpTable, udp: UdpTable, groups: Groups, input: seq<seq<Byte>>, k: nat)
    requires Tracks(tcp, udp, groups, input) && k !in groups
    ensures Tracks(tcp, udp, groups[k := Group(Loose, 0, [k])], input)
    ensures Plains(groups[k := Group(Loose, 0, [k])]) == Plains(groups) + {k}
  {
    hide TcpSlots, UdpSlots, Corrupt;
  }

  // ----- items and their slots

  lemma SlotAdded(items: seq<TcpItem>, item: TcpItem)
    ensures TcpSlots(items + [item]) == TcpSlots(items) + {item.bufsIndex}
  {
    var more := items + [item];
    assert more[|items|] == item;
    forall w | w in TcpSlots(items) ensures w in TcpSlots(more) {
      var j :| 0 <= j < |items| && items[j].bufsIndex == w;
      assert more[j].bufsIndex == w;
    }
  }

  lemma SlotKept(items: seq<TcpItem>, i: nat, item: TcpItem)
    requires i < |items| && item.bufsIndex == items[i].bufsIndex
    ensures TcpSlots(items[i := item]) == TcpSlots(items)
  {
    var after := items[i := item];
    assert forall j :: 0 <= j < |items| ==> after[j].bufsIndex == items[j].bufsIndex;
  }

  lemma SlotDropped(items: seq<TcpItem>, i: nat)
    requires i < |items|
    ensures TcpSlots(items) <= TcpSlots(RemoveAt(items, i)) + {items[i].bufsIndex}
  {
    var after := RemoveAt(items, i);
    forall w | w in TcpSlots(items) ensures w in TcpSlots(after) + {items[i].bufsIndex} {
      var j :| 0 <= j < |items| && items[j].bufsIndex == w;
      if j < i { assert after[j].bufsIndex == w; } else if j > i { assert after[j - 1].bufsIndex == w; }
    }
  }

  lemma UdpSlotAdded(items: seq<UdpItem>, item: UdpItem)
    ensures UdpSlots(items + [item]) == UdpSlots(items) + {item.bufsIndex}
  {
    var more := items + [item];
    assert more[|items|] == item;
    forall w | w in UdpSlots(items) ensures w in UdpSlots(more) {
      var j :| 0 <= j < |items| && items[j].bufsIndex == w;
      assert more[j].bufsIndex == w;
    }
  }

  lemma UdpSlotKept(items: seq<UdpItem>, i: nat, item: UdpItem)
    requires i < |items| && item.bufsIndex == items[i].bufsIndex
    ensures UdpSlots(items[i := item]) == UdpSlots(items) && item.bufsIndex in UdpSlots(items)
  {
    var after := items[i := item];
    assert forall j :: 0 <= j < |items| ==> after[j].bufsIndex == items[j].bufsIndex;
  }

  // ----- the steps of a pass

  lemma NextIsNew(bufs: seq<Buf>, tcp: TcpTable, udp: UdpTable, toWrite: seq<nat>, t: Trace, env: Env)
    requires Inv(bufs, tcp, udp, toWrite, t, env)
    ensures |t.owner| !in t.groups
    ensures forall w :: w in toWrite <==> w in t.groups
    ensures forall w :: w in t.groups ==> w < |bufs|
  {}

  lemma InsertTracks(tcp: TcpTable, udp: UdpTable, groups: Groups, input: seq<seq<Byte>>, k: nat, m: TcpMeta)
    requires Tracks(tcp, udp, groups, input) && k !in groups
    ensures var groups' := groups[k := Group(InTcp(m.key), m.iphLen + m.tcphLen, [k])];
            && Tracks(tcp[m.key := ItemsOf(tcp, m.key) + [NewTcpItem(k, m)]], udp, groups', input)
            && Plains(groups') == Plains(groups)
  {
    SlotAdded(ItemsOf(tcp, m.key), NewTcpItem(k, m));
    TcpTracks(tcp, udp, groups, input, m.key, ItemsOf(tcp, m.key) + [NewTcpItem(k, m)], k,
              Group(InTcp(m.key), m.iphLen + m.tcphLen, [k]));
  }

  lemma MergeTracks(bufs: seq<Buf>, tcp: TcpTable, udp: UdpTable, toWrite: seq<nat>, t: Trace, env: Env,
                    mode: CanCoalesce, m: TcpMeta, i: nat)
    requires Inv(bufs, tcp, udp, toWrite, t, env) && Tracks(tcp, udp, t.groups, env.input)
    requires m.key in tcp && i < |tcp[m.key]|
    ensures var item := tcp[m.key][i];
            var groups' := MergedTrace(mode, t, m, item.bufsIndex).groups;
            && Tracks(tcp[m.key := tcp[m.key][i := MergedItem(mode, item, m)]], udp, groups', env.input)
            && Plains(groups') == Plains(t.groups)
  {
    hide Inv, Tracks, TcpSlots, TcpItemOk, GroupOk;
    var item := tcp[m.key][i];
    ItemTracked(bufs, tcp, udp, toWrite, t, env, m.key, i);
    SlotKept(tcp[m.key], i, MergedItem(mode, item, m));
    ItemSlot(tcp[m.key], i);
    var w := item.bufsIndex;
    var g := if mode == Append then Joined(t.groups[w], |t.owner|) else Led(t.groups[w], |t.owner|);
    TcpTracks(tcp, udp, t.groups, env.input, m.key, tcp[m.key][i := MergedItem(mode, item, m)], item.bufsIndex, g);
  }

  lemma ItemSlot(items: seq<TcpItem>, i: nat)
    requires i < |items|
    ensures items[i].bufsIndex in TcpSlots(items)
  {}

  /** The buffer of an item is tracked, and as long as nothing has been merged it holds the item's packet. */
  lemma ItemTracked(bufs: seq<Buf>, tcp: TcpTable, udp: UdpTable, toWrite: seq<nat>, t: Trace, env: Env, key: TcpKey,
                    i: nat)
    requires Inv(bufs, tcp, udp, toWrite, t, env) && key in tcp && i < |tcp[key]|
    ensures var item := tcp[key][i];
            && item.key == key && item.bufsIndex in t.groups && item.bufsIndex < |bufs|
            && var g := t.groups[item.bufsIndex];
            && g.tracking == InTcp(key) && g.h > 0
            && (item.numMerged == 0 ==>
                  && |g.members| == 1 && g.members[0] < |env.input|
                  && env.input[g.members[0]] == bufs[item.bufsIndex].pkt
                  && TcpMetaOf(bufs[item.bufsIndex].pkt).Some?
                  && TcpMetaOf(bufs[item.bufsIndex].pkt).value.key == key
                  && TcpMetaOf(bufs[item.bufsIndex].pkt).value.iphLen == item.iphLen)
  {
    ItemFacts(bufs, tcp, toWrite, t, env, key, i);
    var item := tcp[key][i];
    var g := t.groups[item.bufsIndex];
    MemberParsed(item, g, t, env);
  }

  lemma MemberParsed(item: TcpItem, g: Group, t: Trace, env: Env)
    requires TcpItemOk(item, g, env.input, t.metas) && TraceTrue(t, env)
    requires forall j :: 0 <= j < |g.members| ==> g.members[j] < |t.owner|
    ensures g.members != [] && g.members[0] < |env.input|
    ensures var own := TcpMetaOf(env.input[g.members[0]]);
            own.Some? && own.value.key == item.key && own.value.iphLen == item.iphLen
  {
    assert TcpMember(g.members[0], g.h, env.input, t.metas, item.key, item.tcphLen);
    assert Recorded(g.members[0], t, env);
    TcpMetaFacts(env.input[g.members[0]], t.metas[g.members[0]]);
  }

  /** An item that stands for one packet, whose checksum does not verify, is dropped. */
  lemma DropTracks(bufs: seq<Buf>, tcp: TcpTable, udp: UdpTable, toWrite: seq<nat>, t: Trace, env: Env, key: TcpKey,
                   i: nat)
    requires Inv(bufs, tcp, udp, toWrite, t, env) && Tracks(tcp, udp, t.groups, env.input)
    requires key in tcp && i < |tcp[key]| && tcp[key][i].numMerged == 0 && tcp[key][i].bufsIndex < |bufs|
    requires !ChecksumValid(bufs[tcp[key][i].bufsIndex].pkt, tcp[key][i].iphLen, IPPROTO_TCP, key.isV6)
    ensures var groups' := Dropped(t, tcp[key][i].bufsIndex).groups;
            && Tracks(tcp[key := RemoveAt(tcp[key], i)], udp, groups', env.input)
            && Plains(groups') == Plains(t.groups)
  {
    hide Inv, Tracks, TcpSlots, TcpItemOk, GroupOk, ChecksumValid, TcpMetaOf;
    var item := tcp[key][i];
    ItemTracked(bufs, tcp, udp, toWrite, t, env, key, i);
    SlotDropped(tcp[key], i);
    TcpTracks(tcp, udp, t.groups, env.input, key, RemoveAt(tcp[key], i), item.bufsIndex,
              t.groups[item.bufsIndex].(tracking := Loose));
  }

  /** An item whose checksum was found to be wrong stands for one packet. */
  lemma ItemCorrupt(own: Buf, m: TcpMeta, item: TcpItem, bufs: seq<Buf>, offset: nat)
    requires Outcome(own, m, item, bufs, offset) == Some(ItemInvalidCSum)
    ensures item.numMerged == 0 && item.bufsIndex < |bufs|
    ensures !ChecksumValid(bufs[item.bufsIndex].pkt, item.iphLen, IPPROTO_TCP, m.key.isV6)
  {
    hide ChecksumValid, TcpCanCoalesce;
  }

  lemma UdpInsertTracks(tcp: TcpTable, udp: UdpTable, groups: Groups, input: seq<seq<Byte>>, k: nat, m: UdpMeta,
                        invalid: bool)
    requires Tracks(tcp, udp, groups, input) && k !in groups
    ensures var groups' := groups[k := Group(InUdp(m.key), m.iphLen + 8, [k])];
            && Tracks(tcp, udp[m.key := Datagrams(udp, m.key) + [NewUdpItem(k, m, invalid)]], groups', input)
            && Plains(groups') == Plains(groups)
  {
    UdpSlotAdded(Datagrams(udp, m.key), NewUdpItem(k, m, invalid));
    UdpTracks(tcp, udp, groups, input, m.key, Datagrams(udp, m.key) + [NewUdpItem(k, m, invalid)], k,
              Group(InUdp(m.key), m.iphLen + 8, [k]));
  }

  lemma UdpMergeTracks(bufs: seq<Buf>, tcp: TcpTable, udp: UdpTable, toWrite: seq<nat>, t: Trace, env: Env, key: UdpKey)
    requires Inv(bufs, tcp, udp, toWrite, t, env) && Tracks(tcp, udp, t.groups, env.input)
    requires key in udp && udp[key] != []
    ensures var last := |udp[key]| - 1;
            var groups' := UdpMergedTrace(t, udp[key][last].bufsIndex, key).groups;
            && Tracks(tcp, udp[key := udp[key][last := Extended(udp[key][last])]], groups', env.input)
            && Plains(groups') == Plains(t.groups)
  {
    hide Tracks, UdpSlots, GroupOk;
    var last := |udp[key]| - 1;
    UdpItemFacts(bufs, udp, toWrite, t, env, key);
    UdpSlotKept(udp[key], last, Extended(udp[key][last]));
    var w := udp[key][last].bufsIndex;
    UdpTracks(tcp, udp, t.groups, env.input, key, udp[key][last := Extended(udp[key][last])], w,
              Joined(t.groups[w], |t.owner|));
  }

  lemma NothingListed(bufs: seq<Buf>, tcp: TcpTable, udp: UdpTable, toWrite: seq<nat>, t: Trace, env: Env)
    requires Inv(bufs, tcp, udp, toWrite, t, env) && t.owner == []
    ensures OnlyPlain(map[], t.groups) && forall w :: w !in toWrite
  {
    assert t.groups.Keys == {};
  }

  /** An item's buffer is tracked by the item's flow. */
  lemma SlotTracked(bufs: seq<Buf>, tcp: TcpTable, udp: UdpTable, toWrite: seq<nat>, t: Trace, env: Env, w: nat)
    requires Inv(bufs, tcp, udp, toWrite, t, env)
    ensures forall key :: key in tcp && w in TcpSlots(tcp[key]) ==> w in t.groups && t.groups[w].tracking == InTcp(key)
    ensures forall key :: key in udp && w in UdpSlots(udp[key]) ==> w in t.groups && t.groups[w].tracking == InUdp(key)
  {
    hide Inv;
    Tracked(bufs, tcp, udp, toWrite, t, env);
    forall key | key in tcp && w in TcpSlots(tcp[key]) ensures w in t.groups && t.groups[w].tracking == InTcp(key) {
      var j :| 0 <= j < |tcp[key]| && tcp[key][j].bufsIndex == w;
      assert JobsTracked(JobsFor(tcp, udp, InTcp(key)), t.groups, InTcp(key), |bufs|);
      assert TcpJobs(tcp[key])[j].w == w;
    }
    forall key | key in udp && w in UdpSlots(udp[key]) ensures w in t.groups && t.groups[w].tracking == InUdp(key) {
      var j :| 0 <= j < |udp[key]| && udp[key][j].bufsIndex == w;
      assert JobsTracked(JobsFor(tcp, udp, InUdp(key)), t.groups, InUdp(key), |bufs|);
      assert UdpJobs(udp[key])[j].w == w;
    }
  }

  // ----- after the accounting pass

  /** Before the accounting pass exactly the packets left alone have a header, an empty one. */
  ghost predicate OnlyPlain(hdrs: map<nat, Written>, groups: Groups) {
    hdrs.Keys == Plains(groups) && forall w :: w in hdrs ==> hdrs[w] == Plain
  }

  /** Of the first n buffers, exactly the listed ones whose item was not dropped have a header. */
  ghost predicate Headed(hdrs: map<nat, Written>, toWrite: seq<nat>, groups: Groups, n: nat) {
    && (forall w: nat {:trigger w in hdrs} {:trigger w in toWrite} :: w < n ==>
          (w in hdrs <==> w in toWrite && w in groups && !WasDropped(groups[w])))
    && (forall w: nat :: w in groups && LeftAlone(groups[w]) && w in hdrs ==> hdrs[w] == Plain)
  }

  lemma ItemAccounted(w: nat, g: Group, tcp: TcpTable, udp: UdpTable, before: seq<Buf>, after: seq<Buf>,
                      hdrs: map<nat, Written>)
    requires Covered(w, g, tcp, udp) && g.tracking != Loose
    requires AccountedFor(tcp, udp, TcpFlows(tcp) + UdpFlows(udp), before, after, hdrs)
    ensures w in hdrs
  {
    hide HeadersFixed;
    assert AllDone(JobsFor(tcp, udp, g.tracking), before, after, hdrs);
    match g.tracking
    case InTcp(key) =>
      var j :| 0 <= j < |tcp[key]| && tcp[key][j].bufsIndex == w;
      assert Done(TcpJobs(tcp[key])[j], before, after, hdrs);
    case InUdp(key) =>
      var j :| 0 <= j < |udp[key]| && udp[key][j].bufsIndex == w;
      assert Done(UdpJobs(udp[key])[j], before, after, hdrs);
  }

  /** A buffer that no flow tracks is not touched by the accounting pass. */
  lemma LooseUntouched(w: nat, tcp: TcpTable, udp: UdpTable, groups: Groups, before: seq<Buf>, mid: seq<Buf>,
                       after: seq<Buf>,
                       hdrs0: map<nat, Written>, hdrs1: map<nat, Written>, hdrs: map<nat, Written>)
    requires Pending(groups, TcpFlows(tcp), before, mid, hdrs0, hdrs1)
    requires Pending(groups, UdpFlows(udp), mid, after, hdrs1, hdrs)
    requires w < |before| && (w in groups ==> groups[w].tracking == Loose)
    ensures SameSlot(w, before, after, hdrs0, hdrs)
  {
    assert SameSlot(w, before, mid, hdrs0, hdrs1);
    assert SameSlot(w, mid, after, hdrs1, hdrs);
  }

  lemma AllHeaded(tcp: TcpTable, udp: UdpTable, toWrite: seq<nat>, groups: Groups, input: seq<seq<Byte>>,
                  before: seq<Buf>, mid: seq<Buf>, after: seq<Buf>,
                  hdrs0: map<nat, Written>, hdrs1: map<nat, Written>, hdrs: map<nat, Written>)
    requires Tracks(tcp, udp, groups, input) && OnlyPlain(hdrs0, groups)
    requires (forall w :: w in toWrite <==> w in groups) && forall w :: w in groups ==> w < |before|
    requires Pending(groups, TcpFlows(tcp), before, mid, hdrs0, hdrs1)
    requires Pending(groups, UdpFlows(udp), mid, after, hdrs1, hdrs)
    requires AccountedFor(tcp, udp, TcpFlows(tcp) + UdpFlows(udp), before, after, hdrs)
    ensures Headed(hdrs, toWrite, groups, |before|)
  {
    hide AccountedFor, Pending, Covered, DroppedCorrupt;
    forall w: nat | w < |before|
      ensures w in hdrs <==> w in toWrite && w in groups && !WasDropped(groups[w])
      ensures w in groups && LeftAlone(groups[w]) && w in hdrs ==> hdrs[w] == Plain
    {
      if w in groups && groups[w].tracking != Loose {
        ItemAccounted(w, groups[w], tcp, udp, before, after, hdrs);
      } else {
        LooseUntouched(w, tcp, udp, groups, before, mid, after, hdrs0, hdrs1, hdrs);
      }
    }
  }

  /** Accounting touches only buffers of items. */
  ghost predicate LooseKept(groups: Groups, before: seq<Buf>, after: seq<Buf>) {
    && |before| == |after|
    && forall w: nat {:trigger after[w]} :: w < |before| && (w in groups ==> groups[w].tracking == Loose) ==>
      after[w] == before[w]
  }

  lemma AllLooseKept(tcp: TcpTable, udp: UdpTable, groups: Groups, before: seq<Buf>, mid: seq<Buf>, after: seq<Buf>,
                     hdrs0: map<nat, Written>, hdrs1: map<nat, Written>, hdrs: map<nat, Written>)
    requires Pending(groups, TcpFlows(tcp), before, mid, hdrs0, hdrs1)
    requires Pending(groups, UdpFlows(udp), mid, after, hdrs1, hdrs)
    ensures LooseKept(groups, before, after)
  {
    assert |before| == |mid| == |after|;
    hide Pending;
    forall w: nat | w < |before| && (w in groups ==> groups[w].tracking == Loose) ensures after[w] == before[w] {
      LooseUntouched(w, tcp, udp, groups, before, mid, after, hdrs0, hdrs1, hdrs);
    }
  }

  /**
    A listed buffer without a header holds a single corrupt TCP packet;
    so without corrupt packets every one has its header.
   */
  lemma NoHeaderIsCorrupt(tcp: TcpTable, udp: UdpTable, toWrite: seq<nat>, t: Trace, env: Env, bufs: seq<Buf>,
                          hdrs: map<nat, Written>, w: nat)
    requires Inv(bufs, tcp, udp, toWrite, t, env) && Tracks(tcp, udp, t.groups, env.input)
    requires Headed(hdrs, toWrite, t.groups, |bufs|) && w in toWrite && w !in hdrs
    ensures w in t.groups && |t.groups[w].members| == 1 && w < |bufs|
    ensures t.groups[w].members[0] < |env.input| && bufs[w].pkt == env.input[t.groups[w].members[0]]
    ensures Corrupt(bufs[w].pkt)
  {
    hide Corrupt, TcpTableOk, UdpTableOk, GroupsVerified, TraceTrue;
    NextIsNew(bufs, tcp, udp, toWrite, t, env);
    assert WasDropped(t.groups[w]);
    assert GroupOk(w, t.groups[w], bufs[w].pkt, env.input, t.owner);
  }

  lemma EveryBufferHeaded(tcp: TcpTable, udp: UdpTable, toWrite: seq<nat>, t: Trace, env: Env, bufs: seq<Buf>,
                          hdrs: map<nat, Written>)
    requires Inv(bufs, tcp, udp, toWrite, t, env) && Tracks(tcp, udp, t.groups, env.input)
    requires Headed(hdrs, toWrite, t.groups, |bufs|)
    requires forall k :: 0 <= k < |env.input| ==> !Corrupt(env.input[k])
    ensures forall w :: w in toWrite ==> w in hdrs
  {
    hide Inv, Tracks, Headed, Corrupt;
    forall w | w in toWrite ensures w in hdrs {
      if w !in hdrs { NoHeaderIsCorrupt(tcp, udp, toWrite, t, env, bufs, hdrs, w); }
    }
  }
}

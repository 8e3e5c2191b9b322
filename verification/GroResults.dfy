/** What a pass of receive offload promises about the packets it was given. */
module GroResults {
  import opened Bytes
  import opened Gso
  import opened GroState
  import opened GroRuns
  import opened GroTables
  import opened GroSteps
  import opened GroTcpSteps
  import opened GroOutcomes

  /** Packet k belongs to the flow and starts n payload bytes, modulo 2^32, after sequence number `from`. */
  ghost predicate Follows(k: nat, input: seq<seq<Byte>>, key: TcpKey, from: Uint32, n: nat) {
    && k < |input| && TcpMetaOf(input[k]).Some?
    && TcpMetaOf(input[k]).value.key == key && TcpMetaOf(input[k]).value.sentSeq == (from + n) % TWO32
  }

  /**
    Cutting a TCP item's payload at its gsoSize gives back the payloads of its packets, in sequence order:
    each packet starts where the bytes of those before it end.
   */
  lemma TcpItemCut(bufs: seq<Buf>, tcp: TcpTable, udp: UdpTable, toWrite: seq<nat>, t: Trace, env: Env, key: TcpKey,
                   j: nat)
    requires Inv(bufs, tcp, udp, toWrite, t, env) && key in tcp && j < |tcp[key]|
    ensures var item := tcp[key][j];
            && item.bufsIndex in toWrite && item.bufsIndex in t.groups && item.gsoSize > 0
            && var g, pkt := t.groups[item.bufsIndex], bufs[item.bufsIndex].pkt;
            && g.h == item.iphLen + item.tcphLen <= |pkt| && |g.members| == item.numMerged + 1
            && MembersFit(g, env.input) && Cut(pkt[g.h..], item.gsoSize) == Pieces(g, env.input)
            && forall i {:trigger g.members[i]} :: 0 <= i < |g.members| ==>
                 Follows(g.members[i], env.input, key, item.sentSeq, |Flatten(Pieces(g, env.input)[..i])|)
  {
    hide TcpMetaOf, TcpTableOk, UdpTableOk, GroupsVerified, BufsFit, Recorded, InSequence;
    var item := tcp[key][j];
    ItemFacts(bufs, tcp, toWrite, t, env, key, j);
    var g := t.groups[item.bufsIndex];
    CutOfRun(Pieces(g, env.input), item.gsoSize);
    forall i | 0 <= i < |g.members|
      ensures Follows(g.members[i], env.input, key, item.sentSeq, |Flatten(Pieces(g, env.input)[..i])|)
    {
      MemberMeta(item, g, t, env, i);
      PiecesBefore(Pieces(g, env.input), item.gsoSize, i);
    }
  }

  /** The bytes of packet k behind its h header bytes. */
  function Payload(k: nat, h: nat, input: seq<seq<Byte>>): seq<Byte> {
    if k < |input| && h <= |input[k]| then input[k][h..] else []
  }

  /** The payloads of a flow's datagrams among the first n packets, in arrival order. */
  function FlowPayloads(input: seq<seq<Byte>>, canUdp: bool, key: UdpKey, n: nat): seq<seq<Byte>>
    requires n <= |input|
  {
    if n == 0 then []
    else
      FlowPayloads(input, canUdp, key, n - 1) +
      match UdpMetaOf(input[n - 1], canUdp)
      case Some(m) => if m.key == key then [Payload(n - 1, m.iphLen + 8, input)] else []
      case None => []
  }

  /** The pieces that the written buffers of a flow are cut into, buffer after buffer. */
  function CutFlow(items: seq<UdpItem>, bufs: seq<Buf>): seq<seq<Byte>> {
    if items == [] then []
    else CutFlow(items[..|items| - 1], bufs) + CutItem(Last(items), bufs)
  }

  function CutItem(item: UdpItem, bufs: seq<Buf>): seq<seq<Byte>> {
    if item.bufsIndex < |bufs| && item.iphLen + 8 <= |bufs[item.bufsIndex].pkt| && item.gsoSize > 0
    then Cut(bufs[item.bufsIndex].pkt[item.iphLen + 8..], item.gsoSize)
    else []
  }

  function PayloadsOf(members: seq<nat>, h: nat, input: seq<seq<Byte>>): seq<seq<Byte>> {
    seq(|members|, i requires 0 <= i < |members| => Payload(members[i], h, input))
  }

  lemma PayloadsConcat(a: seq<nat>, b: seq<nat>, h: nat, input: seq<seq<Byte>>)
    ensures PayloadsOf(a + b, h, input) == PayloadsOf(a, h, input) + PayloadsOf(b, h, input)
  {}

  lemma CutOneItem(item: UdpItem, g: Group, bufs: seq<Buf>, input: seq<seq<Byte>>, owner: seq<nat>)
    requires UdpItemOk(item, g, input) && item.bufsIndex < |bufs|
    requires GroupOk(item.bufsIndex, g, bufs[item.bufsIndex].pkt, input, owner)
    ensures CutItem(item, bufs) == PayloadsOf(g.members, g.h, input)
  {
    CutOfRun(Pieces(g, input), item.gsoSize);
    assert PayloadsOf(g.members, g.h, input) == Pieces(g, input);
  }

  function HeaderLen(key: UdpKey): nat { if key.isV6 then 48 else 28 }

  lemma {:induction false} CutItems(key: UdpKey, items: seq<UdpItem>, groups: Groups, bufs: seq<Buf>,
                                    input: seq<seq<Byte>>, owner: seq<nat>)
    requires forall j {:trigger items[j]} :: 0 <= j < |items| ==>
      && items[j].key == key && items[j].bufsIndex in groups && items[j].bufsIndex < |bufs|
      && UdpItemOk(items[j], groups[items[j].bufsIndex], input)
      && GroupOk(items[j].bufsIndex, groups[items[j].bufsIndex], bufs[items[j].bufsIndex].pkt, input, owner)
    ensures CutFlow(items, bufs) == PayloadsOf(Held(items, groups), HeaderLen(key), input)
  {
    if items != [] {
      var last := Last(items);
      assert last == items[|items| - 1];
      CutItems(key, items[..|items| - 1], groups, bufs, input, owner);
      CutOneItem(last, groups[last.bufsIndex], bufs, input, owner);
      PayloadsConcat(Held(items[..|items| - 1], groups), groups[last.bufsIndex].members, HeaderLen(key), input);
    }
  }

  lemma {:induction false} ArrivedPayloads(t: Trace, env: Env, key: UdpKey, n: nat)
    requires TraceTrue(t, env) && n <= |t.owner|
    ensures PayloadsOf(Arrivals(t.entered, key, n), HeaderLen(key), env.input)
            == FlowPayloads(env.input, env.canUdp, key, n)
  {
    if n > 0 {
      ArrivedPayloads(t, env, key, n - 1);
      OneArrival(t, env, key, n - 1);
      PayloadsConcat(Arrivals(t.entered, key, n - 1), Arriving(t.entered, key, n - 1), HeaderLen(key), env.input);
    }
  }

  function Arriving(entered: map<nat, UdpKey>, key: UdpKey, k: nat): seq<nat> {
    if k in entered && entered[k] == key then [k] else []
  }

  lemma OneArrival(t: Trace, env: Env, key: UdpKey, k: nat)
    requires TraceTrue(t, env) && k < |t.owner|
    ensures PayloadsOf(Arriving(t.entered, key, k), HeaderLen(key), env.input)
            == match UdpMetaOf(env.input[k], env.canUdp)
               case Some(m) => if m.key == key then [Payload(k, m.iphLen + 8, env.input)] else []
               case None => []
  {
    assert Recorded(k, t, env);
    match UdpMetaOf(env.input[k], env.canUdp)
    case None =>
    case Some(m) => UdpMetaFacts(env.input[k], env.canUdp, m);
  }

  /**
    Cutting the written buffers of a UDP flow at their gsoSizes gives back the payloads of all the flow's
    datagrams, in the order in which they came in.
   */
  lemma UdpFlowCut(bufs: seq<Buf>, tcp: TcpTable, udp: UdpTable, toWrite: seq<nat>, t: Trace, env: Env, key: UdpKey)
    requires Inv(bufs, tcp, udp, toWrite, t, env) && key in udp && |t.owner| == |env.input|
    ensures CutFlow(udp[key], bufs) == FlowPayloads(env.input, env.canUdp, key, |env.input|)
    ensures forall j {:trigger udp[key][j]} :: 0 <= j < |udp[key]| ==> udp[key][j].bufsIndex in toWrite
  {
    hide TcpTableOk, GroupsVerified, UdpItemOk, GroupOk, TraceTrue;
    var items := udp[key];
    assert UdpFlowOk(key, items, t.groups, env.input, t.entered, |t.owner|);
    CutItems(key, items, t.groups, bufs, env.input, t.owner);
    ArrivedPayloads(t, env, key, |env.input|);
  }

  /** A flow has a place in the table exactly when some datagram of it came in. */
  lemma FlowsAreThere(bufs: seq<Buf>, tcp: TcpTable, udp: UdpTable, toWrite: seq<nat>, t: Trace, env: Env, k: nat)
    requires Inv(bufs, tcp, udp, toWrite, t, env) && k < |t.owner|
    requires UdpMetaOf(env.input[k], env.canUdp).Some?
    ensures UdpMetaOf(env.input[k], env.canUdp).value.key in udp
  {
    assert Recorded(k, t, env);
  }

  /** A packet whose transport checksum does not verify is never merged with another. */
  lemma CorruptStaysAlone(bufs: seq<Buf>, tcp: TcpTable, udp: UdpTable, toWrite: seq<nat>, t: Trace, env: Env,
                          k: nat, isV6: bool, proto: Byte)
    requires Inv(bufs, tcp, udp, toWrite, t, env) && k < |t.owner|
    requires t.owner[k] in t.groups ==>
      match t.groups[t.owner[k]].tracking
      case InTcp(key) => proto == IPPROTO_TCP && isV6 == key.isV6
      case InUdp(key) => proto == IPPROTO_UDP && isV6 == key.isV6
      case Loose => true
    requires !ChecksumValid(env.input[k], if isV6 then 40 else 20, proto, isV6)
    ensures t.owner[k] in t.groups && t.owner[k] < |bufs|
    ensures t.groups[t.owner[k]].members == [k] && bufs[t.owner[k]].pkt == env.input[k]
  {
    var w := t.owner[k];
    assert OwnerHolds(k, t.groups, t.owner);
    var g := t.groups[w];
    assert GroupVerified(g, env.input) && GroupOk(w, g, bufs[w].pkt, env.input, t.owner);
    VerifiedUnlessAlone(g, env.input, k, isV6, proto);
  }

  lemma VerifiedUnlessAlone(g: Group, input: seq<seq<Byte>>, k: nat, isV6: bool, proto: Byte)
    requires GroupVerified(g, input) && k in g.members && k < |input|
    requires match g.tracking
             case InTcp(key) => proto == IPPROTO_TCP && isV6 == key.isV6
             case InUdp(key) => proto == IPPROTO_UDP && isV6 == key.isV6
             case Loose => true
    ensures |g.members| > 1 ==> ChecksumValid(input[k], if isV6 then 40 else 20, proto, isV6)
  {
    var j :| 0 <= j < |g.members| && g.members[j] == k;
    assert |g.members| > 1 ==> MemberVerified(g.members[j], input, isV6, proto);
  }
}

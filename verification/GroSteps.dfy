/** The invariant of a receive-offload pass, and why each kind of step keeps it. */
module GroSteps {
  import opened Wrappers
  import opened Bytes
  import opened Gso
  import opened GroState
  import opened GroRules
  import opened GroRuns
  import opened GroTables

  /** The packets of one pass, as they came in, and what the pass was called with. */
  datatype Env = Env(input: seq<seq<Byte>>, offset: nat, canUdp: bool)

  /** What the pass has done so far with the packets it has looked at. */
  datatype Trace = Trace(groups: Groups, owner: seq<nat>, metas: TcpMetas, entered: map<nat, UdpKey>)

  function TcpMetaOf(pkt: seq<Byte>): Option<TcpMeta> {
    match Classify(pkt, false)
    case Tcp4 => ParseTcp(pkt, false)
    case Tcp6 => ParseTcp(pkt, true)
    case _ => None
  }

  function UdpMetaOf(pkt: seq<Byte>, canUdp: bool): Option<UdpMeta> {
    match Classify(pkt, canUdp)
    case Udp4 => ParseUdp(pkt, false)
    case Udp6 => ParseUdp(pkt, true)
    case _ => None
  }

  /** The sizes and the version of a packet are those of what was read from it. */
  predicate Shaped(pkt: seq<Byte>, m: TcpMeta) {
    && m.iphLen == (if m.key.isV6 then 40 else 20) && 20 <= m.tcphLen <= 60 && m.gsoSize > 0
    && |pkt| == m.iphLen + m.tcphLen + m.gsoSize <= MAX_PACKET && (m.key.isV6 <==> HighNibble(pkt[0]) == 6)
  }

  lemma TcpShaped(pkt: seq<Byte>, m: TcpMeta)
    requires TcpMetaOf(pkt) == Some(m)
    ensures Shaped(pkt, m)
  {}

  lemma TcpMetaFacts(pkt: seq<Byte>, m: TcpMeta)
    requires TcpMetaOf(pkt) == Some(m)
    ensures m.iphLen == (if m.key.isV6 then 40 else 20) && 20 <= m.tcphLen <= 60
    ensures m.gsoSize > 0 && |pkt| == m.iphLen + m.tcphLen + m.gsoSize <= MAX_PACKET
    ensures forall canUdp :: UdpMetaOf(pkt, canUdp) == None
  {}

  lemma UdpMetaFacts(pkt: seq<Byte>, canUdp: bool, m: UdpMeta)
    requires UdpMetaOf(pkt, canUdp) == Some(m)
    ensures m.iphLen == (if m.key.isV6 then 40 else 20)
    ensures m.gsoSize > 0 && |pkt| == m.iphLen + 8 + m.gsoSize <= MAX_PACKET
    ensures TcpMetaOf(pkt) == None
  {}

  ghost predicate BufsFit(bufs: seq<Buf>, offset: nat) {
    forall i {:trigger bufs[i]} :: 0 <= i < |bufs| ==> |bufs[i].pkt| + offset <= bufs[i].cap <= MAX_PACKET
  }

  lemma BufsFitSet(bufs: seq<Buf>, offset: nat, i: nat, b: Buf)
    requires BufsFit(bufs, offset) && i < |bufs| && |b.pkt| + offset <= b.cap <= MAX_PACKET
    ensures BufsFit(bufs[i := b], offset)
  {}

  /** Exactly the packets that parse have been recorded, with what parsing gives. */
  ghost predicate Recorded(k: nat, t: Trace, env: Env)
    requires k < |env.input|
  {
    && (k in t.metas <==> TcpMetaOf(env.input[k]).Some?)
    && (k in t.metas ==> TcpMetaOf(env.input[k]) == Some(t.metas[k]))
    && (k in t.entered <==> UdpMetaOf(env.input[k], env.canUdp).Some?)
    && (k in t.entered ==> UdpMetaOf(env.input[k], env.canUdp).value.key == t.entered[k])
  }

  ghost predicate TraceTrue(t: Trace, env: Env) {
    && |t.owner| <= |env.input|
    && (forall k {:trigger Recorded(k, t, env)} :: 0 <= k < |t.owner| ==> Recorded(k, t, env))
    && (forall k :: k in t.metas ==> k < |t.owner|)
    && (forall k :: k in t.entered ==> k < |t.owner|)
  }

  ghost predicate MemberVerified(k: nat, input: seq<seq<Byte>>, isV6: bool, proto: Byte) {
    k < |input| && ChecksumValid(input[k], if isV6 then 40 else 20, proto, isV6)
  }

  ghost predicate AllMembersVerified(members: seq<nat>, input: seq<seq<Byte>>, isV6: bool, proto: Byte) {
    forall j {:trigger members[j]} :: 0 <= j < |members| ==> MemberVerified(members[j], input, isV6, proto)
  }

  /** Only packets whose transport checksums verify have been merged. */
  ghost predicate GroupVerified(g: Group, input: seq<seq<Byte>>) {
    |g.members| > 1 ==>
      match g.tracking
      case Loose => false
      case InTcp(key) => AllMembersVerified(g.members, input, key.isV6, IPPROTO_TCP)
      case InUdp(key) => AllMembersVerified(g.members, input, key.isV6, IPPROTO_UDP)
  }

  ghost predicate GroupsVerified(groups: Groups, input: seq<seq<Byte>>) {
    forall w {:trigger groups[w]} :: w in groups ==> GroupVerified(groups[w], input)
  }

  ghost predicate Inv(bufs: seq<Buf>, tcp: TcpTable, udp: UdpTable, toWrite: seq<nat>, t: Trace, env: Env) {
    && BufsFit(bufs, env.offset)
    && Conserved(bufs, env.input, toWrite, t.groups, t.owner)
    && TcpTableOk(tcp, t.groups, env.input, t.metas)
    && UdpTableOk(udp, t.groups, env.input, t.entered, |t.owner|)
    && TraceTrue(t, env)
    && GroupsVerified(t.groups, env.input)
  }

  /** The trace after one more packet, whose payload is now in buffer w. */
  function Record(t: Trace, env: Env, groups: Groups, w: nat): Trace
    requires |t.owner| < |env.input|
  {
    var k := |t.owner|;
    Trace(groups, t.owner + [w],
          match TcpMetaOf(env.input[k]) case Some(m) => t.metas[k := m] case None => t.metas,
          match UdpMetaOf(env.input[k], env.canUdp) case Some(m) => t.entered[k := m.key] case None => t.entered)
  }

  lemma RecordTrue(t: Trace, env: Env, groups: Groups, w: nat)
    requires TraceTrue(t, env) && |t.owner| < |env.input|
    ensures TraceTrue(Record(t, env, groups, w), env)
  {
    var t' := Record(t, env, groups, w);
    forall k | 0 <= k < |t'.owner| ensures Recorded(k, t', env) {
      if k < |t.owner| { assert Recorded(k, t, env); }
    }
  }

  /** The trace after a TCP packet. */
  function TcpTrace(t: Trace, groups: Groups, w: nat, m: TcpMeta): Trace {
    Trace(groups, t.owner + [w], t.metas[|t.owner| := m], t.entered)
  }

  lemma TcpTraceTrue(t: Trace, env: Env, groups: Groups, w: nat, m: TcpMeta)
    requires TraceTrue(t, env) && |t.owner| < |env.input| && TcpMetaOf(env.input[|t.owner|]) == Some(m)
    ensures TraceTrue(TcpTrace(t, groups, w, m), env)
  {
    TcpMetaFacts(env.input[|t.owner|], m);
    RecordTrue(t, env, groups, w);
  }

  /** A packet that is written on its own. */
  lemma StepNoop(bufs: seq<Buf>, tcp: TcpTable, udp: UdpTable, toWrite: seq<nat>, t: Trace, env: Env)
    requires Inv(bufs, tcp, udp, toWrite, t, env) && |t.owner| < |env.input|
    requires UdpMetaOf(env.input[|t.owner|], env.canUdp) == None
    ensures var k := |t.owner|;
            Inv(bufs, tcp, udp, toWrite + [k],
                Record(t, env, t.groups[k := Group(Loose, 0, [k])], k), env)
  {
    var k := |t.owner|;
    var groups' := t.groups[k := Group(Loose, 0, [k])];
    RecordTrue(t, env, groups', k);
    NewGroupAside(t, env, k, groups'[k]);
    TcpTableRecorded(tcp, t, env, groups', Loose, k);
    AloneInv(bufs, tcp, udp, toWrite, t, env, Record(t, env, groups', k));
  }

  lemma AloneInv(bufs: seq<Buf>, tcp: TcpTable, udp: UdpTable, toWrite: seq<nat>, t: Trace, env: Env, t': Trace)
    requires Inv(bufs, tcp, udp, toWrite, t, env) && |t.owner| < |env.input|
    requires t'.owner == t.owner + [|t.owner|] && t'.entered == t.entered
    requires t'.groups == t.groups[|t.owner| := Group(Loose, 0, [|t.owner|])]
    requires TraceTrue(t', env) && TcpTableOk(tcp, t'.groups, env.input, t'.metas)
    ensures Inv(bufs, tcp, udp, toWrite + [|t.owner|], t', env)
  {
    AddGroup(bufs, env.input, toWrite, t.groups, t.owner, Loose, 0);
    NewGroupAside(t, env, |t.owner|, Group(Loose, 0, [|t.owner|]));
    UdpTableKept(udp, t.groups, t'.groups, Loose, env.input, t.entered, |t.owner|);
  }

  lemma NewGroupAside(t: Trace, env: Env, k: nat, g: Group)
    requires GroupsVerified(t.groups, env.input) && k !in t.groups && |g.members| == 1
    ensures OnlyTracking(t.groups, t.groups[k := g], g.tracking)
    ensures GroupsVerified(t.groups[k := g], env.input)
  {}

  lemma TcpTableRecorded(tcp: TcpTable, t: Trace, env: Env, groups': Groups, tr: Tracking, w: nat)
    requires TcpTableOk(tcp, t.groups, env.input, t.metas) && TraceTrue(t, env) && |t.owner| < |env.input|
    requires OnlyTracking(t.groups, groups', tr) && !tr.InTcp?
    ensures TcpTableOk(tcp, groups', env.input, Record(t, env, groups', w).metas)
  {
    TcpTableKept(tcp, t.groups, groups', tr, env.input, t.metas);
    TcpTableMore(tcp, t, env, groups', w);
  }

  lemma TcpTableMore(tcp: TcpTable, t: Trace, env: Env, groups': Groups, w: nat)
    requires TcpTableOk(tcp, groups', env.input, t.metas) && TraceTrue(t, env) && |t.owner| < |env.input|
    ensures TcpTableOk(tcp, groups', env.input, Record(t, env, groups', w).metas)
  {
    var k := |t.owner|;
    match TcpMetaOf(env.input[k])
    case None =>
    case Some(m) => TcpTableMetas(tcp, groups', env.input, t.metas, k, m);
  }
}

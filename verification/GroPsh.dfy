/** When a PSH flag survives receive offload, in terms of the packets that came in. */
module GroPsh {
  import opened Wrappers
  import opened Bytes
  import opened InternetChecksum
  import opened Gso
  import opened GroState
  import opened GroRules
  import opened GroRuns
  import opened GroTables
  import opened GroSteps
  import opened GroTcpSteps
  import opened GroTcpMerge
  import opened GroAccount
  import opened GroFlows
  import opened GroOutcomes
  import opened GroHeaders
  import opened GroFronts
  import opened GroDropped
  import opened GroRoundTrip

  predicate HasPsh(pkt: seq<Byte>, isV6: bool) {
    FlagsAt(isV6) < |pkt| && pkt[FlagsAt(isV6)] == FLAG_ACK_PSH
  }

  // ----- two packets

  /** The second packet is merged into the first one's item. */
  ghost predicate Joins(bufs: seq<Buf>, m: TcpMeta, offset: nat)
    requires |bufs| == 2
  {
    match TcpMetaOf(bufs[1].pkt)
    case Some(own) => own.key == m.key && Outcome(bufs[1], own, NewTcpItem(0, m), bufs, offset) == Some(Success)
    case None => false
  }

  /** A merge into an item with PSH puts a packet without PSH in front. */
  lemma JoinedInFront(bufs: seq<Buf>, own: TcpMeta, m: TcpMeta, offset: nat)
    requires |bufs| == 2 && TcpMetaOf(bufs[1].pkt) == Some(own) && own.key == m.key && m.pshSet
    requires Outcome(bufs[1], own, NewTcpItem(0, m), bufs, offset) == Some(Success)
    ensures var after := BufsAfter(bufs, 1, own, NewTcpItem(0, m));
            |after| == 2 && !HasPsh(after[0].pkt, m.key.isV6)
  {
    hide TcpMetaOf, Outcome, Mode;
    ModeFacts(bufs[1], own, NewTcpItem(0, m), bufs, offset);
    TcpFlags(bufs[1].pkt, own);
  }

  /** The second of two packets takes the first one's PSH exactly when it joins it. */
  lemma SecondTakesPsh(s1: Snapshot, s2: Snapshot, offset: nat, canUdp: bool, m: TcpMeta)
    requires Taken(1, s1, s2, offset, canUdp) && |s1.bufs| == 2 && s1.udp == map[]
    requires s1.tcp == map[m.key := [NewTcpItem(0, m)]] && TcpMetaOf(s1.bufs[0].pkt) == Some(m) && m.pshSet
    ensures |s2.bufs| == 2 && (!HasPsh(s2.bufs[0].pkt, m.key.isV6) <==> Joins(s1.bufs, m, offset))
  {
    hide BufsAfter, ParseTcp, ParseUdp, Outcome, UdpOutcome, Mode, Scanned, AfterScan, TcpMetaOf;
    var r, scan, at :| TakenAs(1, s1, s2, offset, canUdp, r, scan, at);
    Kinds(s1.bufs[1].pkt, canUdp);
    SameKind(s1.bufs[1].pkt, canUdp);
    OnlyTcpParses(s1.bufs[1].pkt, canUdp);
    TcpFlags(s1.bufs[0].pkt, m);
    match TcpMetaOf(s1.bufs[1].pkt)
    case None =>
    case Some(own) =>
      if own.key == m.key {
        ScanOfOne(s1.bufs[1], own, NewTcpItem(0, m), s1.bufs, offset, scan, at);
        if scan == Some(Success) { JoinedInFront(s1.bufs, own, m, offset); }
      } else {
        EmptyScanned(s1.bufs[1], own, s1.bufs, offset, scan, at);
      }
  }

  lemma OnlyTcpParses(pkt: seq<Byte>, canUdp: bool)
    ensures Classify(pkt, canUdp) !in {Tcp4, Tcp6} ==> TcpMetaOf(pkt) == None
  {}

  lemma EmptyScanned(own: Buf, m: TcpMeta, bufs: seq<Buf>, offset: nat, scan: Option<CoalesceResult>, at: nat)
    requires Scanned(own, m, [], bufs, offset, scan, at)
    ensures scan == None
  {}

  /** Accounting leaves the flags of a buffer alone. */
  lemma FlagsSurvive(bufs: seq<Buf>, tcp: TcpTable, udp: UdpTable, toWrite: seq<nat>, t: Trace, env: Env,
                     coalesced: seq<Buf>, hdrs: map<nat, Written>, w: nat, key: TcpKey)
    requires Inv(bufs, tcp, udp, toWrite, t, env) && Tracks(tcp, udp, t.groups, env.input)
    requires AccountedFor(tcp, udp, TcpFlows(tcp) + UdpFlows(udp), coalesced, bufs, hdrs)
    requires LooseKept(t.groups, coalesced, bufs) && w < |bufs| && w in t.groups
    requires t.groups[w].tracking == Loose || t.groups[w].tracking == InTcp(key)
    ensures |coalesced| == |bufs|
    ensures HasPsh(bufs[w].pkt, key.isV6) <==> HasPsh(coalesced[w].pkt, key.isV6)
  {
    hide Inv, Norm, Sum, PseudoSum, DroppedCorrupt;
    assert Covered(w, t.groups[w], tcp, udp);
    if t.groups[w].tracking == InTcp(key) {
      var j :| 0 <= j < |tcp[key]| && tcp[key][j].bufsIndex == w;
      assert AllDone(JobsFor(tcp, udp, InTcp(key)), coalesced, bufs, hdrs);
      assert Done(TcpJobs(tcp[key])[j], coalesced, bufs, hdrs);
      ItemHeaderLen(bufs, tcp, udp, toWrite, t, env, key, j);
      JobKeepsFlags(TcpJob(tcp[key][j]), coalesced, bufs, hdrs);
    }
  }

  lemma ItemHeaderLen(bufs: seq<Buf>, tcp: TcpTable, udp: UdpTable, toWrite: seq<nat>, t: Trace, env: Env, key: TcpKey,
                      j: nat)
    requires Inv(bufs, tcp, udp, toWrite, t, env) && key in tcp && j < |tcp[key]|
    ensures tcp[key][j].key == key && tcp[key][j].iphLen == (if key.isV6 then 40 else 20)
  {
    ItemFacts(bufs, tcp, toWrite, t, env, key, j);
  }

  lemma JobKeepsFlags(job: Job, before: seq<Buf>, after: seq<Buf>, hdrs: map<nat, Written>)
    requires Done(job, before, after, hdrs) && job.hdr.tcp && job.hdr.csumStart == if job.isV6 then 40 else 20
    ensures HasPsh(after[job.w].pkt, job.isV6) <==> HasPsh(before[job.w].pkt, job.isV6)
  {
    hide Norm, Sum, PseudoSum, Read16;
    var at := FlagsAt(job.isV6);
    assert !Accounted(job.hdr, job.isV6, at);
  }

  /**
    The first of two packets has PSH: its buffer ends up without if and only if the second packet is of its flow and
    is merged with it, which can only be in front.
   */
  lemma PshLostIff(s: Snapshot, s1: Snapshot, s2: Snapshot, offset: nat, canUdp: bool, m: TcpMeta,
                   t: Trace, env: Env, bufs: seq<Buf>, hdrs: map<nat, Written>)
    requires PassOfTwo(s, s1, s2, offset, canUdp) && TcpMetaOf(s.bufs[0].pkt) == Some(m) && m.pshSet
    requires Inv(bufs, s2.tcp, s2.udp, s2.toWrite, t, env) && |bufs| == 2 && Tracks(s2.tcp, s2.udp, t.groups, env.input)
    requires AccountedFor(s2.tcp, s2.udp, TcpFlows(s2.tcp) + UdpFlows(s2.udp), s2.bufs, bufs, hdrs)
    requires LooseKept(t.groups, s2.bufs, bufs)
    ensures !HasPsh(bufs[0].pkt, m.key.isV6) <==> Joins(s.bufs, m, offset)
  {
    hide Inv, Tracks, Taken, Joins, TcpMetaOf, AccountedFor, LooseKept, FindsCorrupt;
    FirstIsTcp(s, s1, offset, canUdp, m);
    SecondTakesPsh(s1, s2, offset, canUdp, m);
    SecondTaken(s1, s2, offset, canUdp, m);
    assert 0 in s1.toWrite;
    assert 0 in s2.toWrite;
    NextIsNew(bufs, s2.tcp, s2.udp, s2.toWrite, t, env);
    FirstTracked(s1, s2, offset, canUdp, m, t, env, bufs);
    FlagsSurvive(bufs, s2.tcp, s2.udp, s2.toWrite, t, env, s2.bufs, hdrs, 0, m.key);
  }

  /** The first packet's buffer is still its item's, unless the item was dropped. */
  lemma FirstTracked(s1: Snapshot, s2: Snapshot, offset: nat, canUdp: bool, m: TcpMeta, t: Trace, env: Env,
                     bufs: seq<Buf>)
    requires Taken(1, s1, s2, offset, canUdp) && |s1.bufs| == 2 && s1.udp == map[]
    requires s1.tcp == map[m.key := [NewTcpItem(0, m)]] && 0 in t.groups
    requires Inv(bufs, s2.tcp, s2.udp, s2.toWrite, t, env) && Tracks(s2.tcp, s2.udp, t.groups, env.input)
    ensures t.groups[0].tracking == Loose || t.groups[0].tracking == InTcp(m.key)
  {
    hide Inv, Tracks, Taken, FindsCorrupt, TcpSlots, UdpSlots;
    SecondTaken(s1, s2, offset, canUdp, m);
    SlotTracked(bufs, s2.tcp, s2.udp, s2.toWrite, t, env, 0);
    if FindsCorrupt(s1.bufs, m, offset) { ZeroIsLoose(s2, m.key, t, env); }
  }

  /** The first packet has PSH, and the second one makes it go. */
  ghost predicate LosesPsh(bufs: seq<Buf>, offset: nat)
    requires |bufs| == 2
  {
    match TcpMetaOf(bufs[0].pkt)
    case Some(m) => m.pshSet && Joins(bufs, m, offset)
    case None => false
  }

  /** The first packet has PSH, and its buffer, as it was written, still has it. */
  ghost predicate StillPsh(first: seq<Byte>, written: seq<Byte>) {
    match TcpMetaOf(first)
    case Some(m) => m.pshSet && HasPsh(written, m.key.isV6)
    case None => false
  }

  // ----- any number of packets

  /** A packet's PSH is on the buffer that holds it as long as no later packet of its flow comes in. */
  lemma PshKept(bufs: seq<Buf>, tcp: TcpTable, udp: UdpTable, toWrite: seq<nat>, t: Trace, env: Env,
                coalesced: seq<Buf>, hdrs: map<nat, Written>, k: nat, m: TcpMeta)
    requires Inv(bufs, tcp, udp, toWrite, t, env) && Tracks(tcp, udp, t.groups, env.input)
    requires Fronts(t.groups, coalesced, env.input) && LooseKept(t.groups, coalesced, bufs)
    requires AccountedFor(tcp, udp, TcpFlows(tcp) + UdpFlows(udp), coalesced, bufs, hdrs)
    requires k < |t.owner| == |env.input| && TcpMetaOf(env.input[k]) == Some(m) && m.pshSet
    requires forall l {:trigger env.input[l]} :: k < l < |env.input| && TcpMetaOf(env.input[l]).Some? ==>
               TcpMetaOf(env.input[l]).value.key != m.key
    ensures t.owner[k] < |bufs| && HasPsh(bufs[t.owner[k]].pkt, m.key.isV6)
  {
    hide TcpMetaOf, UdpMetaOf, TcpTableOk, UdpTableOk, GroupsVerified, TraceTrue, AccountedFor, LooseKept, Fronts,
      HasPsh, Tracks;
    var w := t.owner[k];
    assert OwnerHolds(k, t.groups, t.owner);
    var g := t.groups[w];
    assert GroupOk(w, g, bufs[w].pkt, env.input, t.owner);
    var i :| 0 <= i < |g.members| && g.members[i] == k;
    TrackedByTcp(bufs, tcp, udp, toWrite, t, env, w, i, m);
    if g.tracking == Loose {
      TcpFlags(env.input[k], m);
      assert HasPsh(bufs[w].pkt, m.key.isV6) by { SinglePsh(env.input[k], bufs[w].pkt, m); }
    } else {
      PshInFront(bufs, tcp, udp, toWrite, t, env, coalesced, w, i, m);
      FlagsSurvive(bufs, tcp, udp, toWrite, t, env, coalesced, hdrs, w, m.key);
    }
  }

  lemma SinglePsh(own: seq<Byte>, pkt: seq<Byte>, m: TcpMeta)
    requires TcpMetaOf(own) == Some(m) && m.pshSet && pkt == own
    ensures HasPsh(pkt, m.key.isV6)
  {
    hide TcpMetaOf;
    TcpFlags(own, m);
  }

  /** A TCP packet sits alone in a buffer that no flow tracks, or in one of its own flow. */
  lemma TrackedByTcp(bufs: seq<Buf>, tcp: TcpTable, udp: UdpTable, toWrite: seq<nat>, t: Trace, env: Env,
                     w: nat, i: nat, m: TcpMeta)
    requires Inv(bufs, tcp, udp, toWrite, t, env) && Tracks(tcp, udp, t.groups, env.input)
    requires w in t.groups && i < |t.groups[w].members| && t.groups[w].members[i] < |env.input|
    requires TcpMetaOf(env.input[t.groups[w].members[i]]) == Some(m)
    ensures w < |bufs|
    ensures t.groups[w].tracking == Loose ==> |t.groups[w].members| == 1
    ensures t.groups[w].tracking != Loose ==> t.groups[w].tracking == InTcp(m.key)
  {
    hide TcpMetaOf, UdpMetaOf, TcpItemOk, UdpItemOk, TcpTableOk, UdpTableOk, TraceTrue, GroupOk, DroppedCorrupt;
    var g := t.groups[w];
    assert GroupVerified(g, env.input) && Covered(w, g, tcp, udp);
    match g.tracking
    case Loose =>
    case InTcp(key) =>
      var j :| 0 <= j < |tcp[key]| && tcp[key][j].bufsIndex == w;
      ItemFacts(bufs, tcp, toWrite, t, env, key, j);
      MembersBefore(w, g, bufs[w].pkt, env.input, t.owner);
      MemberMeta(tcp[key][j], g, t, env, i);
    case InUdp(key) =>
      var j :| 0 <= j < |udp[key]| && udp[key][j].bufsIndex == w;
      UdpMember(bufs, tcp, udp, toWrite, t, env, key, j, i);
      UdpMetaFacts(env.input[g.members[i]], env.canUdp, UdpMetaOf(env.input[g.members[i]], env.canUdp).value);
  }

  /** The first packet of the buffer came in no later than this last packet of its flow. */
  lemma PshInFront(bufs: seq<Buf>, tcp: TcpTable, udp: UdpTable, toWrite: seq<nat>, t: Trace, env: Env,
                   coalesced: seq<Buf>, w: nat, i: nat, m: TcpMeta)
    requires Inv(bufs, tcp, udp, toWrite, t, env) && Tracks(tcp, udp, t.groups, env.input)
    requires Fronts(t.groups, coalesced, env.input)
    requires w in t.groups && w < |bufs| && i < |t.groups[w].members| && t.groups[w].members[i] < |env.input|
    requires TcpMetaOf(env.input[t.groups[w].members[i]]) == Some(m) && m.pshSet && t.groups[w].tracking == InTcp(m.key)
    requires forall l {:trigger env.input[l]} ::
               t.groups[w].members[i] < l < |env.input| && TcpMetaOf(env.input[l]).Some? ==>
                 TcpMetaOf(env.input[l]).value.key != m.key
    ensures w < |coalesced| && HasPsh(coalesced[w].pkt, m.key.isV6)
  {
    hide TcpMetaOf, TcpItemOk, TcpTableOk, UdpTableOk, TraceTrue, GroupOk, FrontOk, Fronts, DroppedCorrupt, Compared,
      GroupsVerified;
    var g := t.groups[w];
    assert Covered(w, g, tcp, udp);
    var j :| 0 <= j < |tcp[m.key]| && tcp[m.key][j].bufsIndex == w;
    ItemFacts(bufs, tcp, toWrite, t, env, m.key, j);
    MembersBefore(w, g, bufs[w].pkt, env.input, t.owner);
    MemberMeta(tcp[m.key][j], g, t, env, i);
    MemberMeta(tcp[m.key][j], g, t, env, 0);
    FrontOf(t.groups, coalesced, env.input, w);
    FrontOfTcp(g, coalesced[w].pkt, env.input, m.key, i);
    TcpFlags(env.input[g.members[i]], m);
    assert g.members[0] <= g.members[i];
  }
}

/** One pass of receive offload over a batch of packets: handleGRO and what it calls. */
module Gro {
  import opened Wrappers
  import opened Bytes
  import opened Gso
  import opened GroState
  import opened GroRules
  import opened GroTables
  import opened GroSteps
  import opened GroTcpSteps
  import opened GroTcpMerge
  import opened GroUdpSteps
  import opened GroAccount
  import opened GroFlows
  import opened GroOutcomes
  import opened GroHeaders
  import opened GroFronts
  import opened GroJoins
  import opened GroLosses

  class Pass {
    const offset: nat
    const canUdp: bool
    const big: bool
    ghost const env: Env
    var bufs: seq<Buf>
    var tcp: TcpTable
    var udp: UdpTable
    var toWrite: seq<nat>
    var hdrs: map<nat, Written>
    ghost var t: Trace

    ghost predicate Valid()
      reads this
    {
      && env.offset == offset && env.canUdp == canUdp
      && Inv(bufs, tcp, udp, toWrite, t, env) && Tracks(tcp, udp, t.groups, env.input)
    }

    /** Before the accounting pass every buffer also has the headers of its first packet. */
    ghost predicate Running()
      reads this
    {
      Valid() && Fronts(t.groups, bufs, env.input)
    }

    ghost function Now(): Snapshot
      reads this
    {
      Snapshot(bufs, tcp, udp, toWrite, hdrs)
    }

    /** The packets left alone so far. */
    ghost function Alone(): set<nat>
      reads this
    {
      Plains(t.groups)
    }

    constructor (bufs: seq<Buf>, offset: nat, canUdp: bool, big: bool)
      requires BufsFit(bufs, offset)
      ensures Valid() && this.bufs == bufs && this.offset == offset && this.canUdp == canUdp && this.big == big
      ensures tcp == map[] && udp == map[] && toWrite == [] && hdrs == map[] && t == Trace(map[], [], map[], map[])
      ensures |env.input| == |bufs| && forall i :: 0 <= i < |bufs| ==> env.input[i] == bufs[i].pkt
    {
      this.bufs, this.offset, this.canUdp, this.big := bufs, offset, canUdp, big;
      tcp, udp, toWrite, hdrs := map[], map[], [], map[];
      t := Trace(map[], [], map[], map[]);
      env := Env(seq(|bufs|, i requires 0 <= i < |bufs| => bufs[i].pkt), offset, canUdp);
    }

    /** coalesceTCPPackets */
    method CoalesceTcp(mode: CanCoalesce, k: nat, m: TcpMeta, item: TcpItem)
      returns (r: CoalesceResult, item': TcpItem)
      requires k < |bufs| && item.bufsIndex != k && mode != Unavailable
      requires Comparable(bufs[k].pkt, m, item, bufs) && m.tcphLen == item.tcphLen
      requires mode == Append ==> m.gsoSize <= item.gsoSize
      requires |bufs[k].pkt| <= MAX_PACKET && |bufs[item.bufsIndex].pkt| <= MAX_PACKET
      requires item.iphLen == if m.key.isV6 then 40 else 20
      modifies this`bufs
      ensures r == TcpAttempt(mode, old(bufs)[k], m, item, old(bufs)[item.bufsIndex], offset)
      ensures r != Success ==> bufs == old(bufs) && item' == item
      ensures r == Success ==>
        bufs == MergedBufs(mode, old(bufs), k, m, item) && item' == MergedItem(mode, item, m)
    {
      var pkt, w := bufs[k].pkt, item.bufsIndex;
      var headersLen := item.iphLen + item.tcphLen;
      var coalescedLen := |bufs[w].pkt| + |pkt| - headersLen;
      item' := item;
      if mode == Prepend {
        if bufs[k].cap - offset - offset < coalescedLen { return InsufficientCap, item; }
        if m.pshSet { return PshEnding, item; }
        var verdict := CheckBoth(pkt, bufs[w].pkt, item.iphLen, IPPROTO_TCP, m.key.isV6, item.numMerged == 0, false);
        if verdict != Success { return verdict, item; }
        item' := item'.(sentSeq := m.sentSeq);
        var extended := Buf(pkt + bufs[w].pkt[headersLen..], bufs[k].cap);
        // the slice headers change places: the item's index is the one that is written
        bufs := bufs[w := extended][k := bufs[w]];
      } else {
        if bufs[w].cap - offset - offset < coalescedLen { return InsufficientCap, item; }
        var verdict := CheckBoth(pkt, bufs[w].pkt, item.iphLen, IPPROTO_TCP, m.key.isV6, item.numMerged == 0, false);
        if verdict != Success { return verdict, item; }
        var head: seq<Byte> := WithPsh(bufs[w].pkt, item, m);
        if m.pshSet {
          item' := item'.(pshSet := true);
        }
        bufs := bufs[w := Buf(head + pkt[headersLen..], bufs[w].cap)];
      }
      if m.gsoSize > item'.gsoSize {
        item' := item'.(gsoSize := m.gsoSize);
      }
      item' := item'.(numMerged := item'.numMerged + 1);
      r := Success;
    }

    /** The checksum checks shared by every merge: an item that stands for one packet, then the packet. */
    method CheckBoth(own: seq<Byte>, target: seq<Byte>, iphLen: nat, proto: Byte, isV6: bool, single: bool,
                     knownInvalid: bool)
      returns (r: CoalesceResult)
      requires iphLen == (if isV6 then 40 else 20) && iphLen <= |own| <= MAX_PACKET && iphLen <= |target| <= MAX_PACKET
      ensures r == if single && (knownInvalid || !ChecksumValid(target, iphLen, proto, isV6)) then ItemInvalidCSum
                   else if !ChecksumValid(own, iphLen, proto, isV6) then PktInvalidCSum
                   else Success
    {
      if single {
        if knownInvalid { return ItemInvalidCSum; }
        var ok := CheckChecksum(target, iphLen, proto, isV6, big);
        if !ok { return ItemInvalidCSum; }
      }
      var ok := CheckChecksum(own, iphLen, proto, isV6, big);
      r := if ok then Success else PktInvalidCSum;
    }

    /** insert: the packet becomes an item of its own; handleGRO then lists its buffer. */
    method InsertTcp(k: nat, m: TcpMeta)
      requires Running() && k == |t.owner| < |bufs| && TcpMetaOf(bufs[k].pkt) == Some(m)
      modifies this`tcp, this`t
      ensures Inv(bufs, tcp, udp, toWrite + [k], t, env)
      ensures tcp == old(tcp)[m.key := ItemsOf(old(tcp), m.key) + [NewTcpItem(k, m)]]
      ensures t == TcpTrace(old(t), old(t).groups[k := Group(InTcp(m.key), m.iphLen + m.tcphLen, [k])], k, m)
      ensures Tracks(tcp, udp, t.groups, env.input) && Fronts(t.groups, bufs, env.input) && Alone() == old(Alone())
    {
      hide Inv, Tracks, Plains, Fronts, TcpMetaOf;
      Untouched(bufs, tcp, udp, toWrite, t, env);
      NextIsNew(bufs, tcp, udp, toWrite, t, env);
      StepTcpInsert(bufs, tcp, udp, toWrite, t, env, m);
      InsertTracks(tcp, udp, t.groups, env.input, k, m);
      NewTcpFront(t.groups, bufs, env.input, k, m);
      var items := if m.key in tcp then tcp[m.key] else [];
      tcp := tcp[m.key := items + [NewTcpItem(k, m)]];
      t := TcpTrace(t, t.groups[k := Group(InTcp(m.key), m.iphLen + m.tcphLen, [k])], k, m);
    }

    /** deleteAt, for an item that stands for one packet. */
    method DeleteTcp(key: TcpKey, i: nat)
      requires Running() && key in tcp && i < |tcp[key]| && tcp[key][i].numMerged == 0 && tcp[key][i].bufsIndex < |bufs|
      requires !ChecksumValid(bufs[tcp[key][i].bufsIndex].pkt, tcp[key][i].iphLen, IPPROTO_TCP, key.isV6)
      modifies this`tcp, this`t
      ensures Running() && tcp == old(tcp)[key := RemoveAt(old(tcp)[key], i)]
      ensures t.owner == old(t).owner && Alone() == old(Alone())
    {
      hide Inv, Tracks, Plains, Fronts, ChecksumValid;
      var tcp' := tcp[key := RemoveAt(tcp[key], i)];
      ghost var t' := Dropped(t, tcp[key][i].bufsIndex);
      DropTracks(bufs, tcp, udp, toWrite, t, env, key, i);
      DroppedFront(bufs, t, env.input, tcp[key][i].bufsIndex);
      StepTcpDelete(bufs, tcp, udp, toWrite, t, env, key, i, tcp', t');
      tcp, t := tcp', t';
    }

    /** Compares packet k with an item, and merges the two in the buffers when it can. */
    method TryTcp(k: nat, m: TcpMeta, item: TcpItem) returns (r: Option<CoalesceResult>, item': TcpItem)
      requires k < |bufs| && item.bufsIndex < k && Comparable(bufs[k].pkt, m, item, bufs)
      requires |bufs[k].pkt| <= MAX_PACKET && |bufs[item.bufsIndex].pkt| <= MAX_PACKET
      requires item.iphLen == if m.key.isV6 then 40 else 20
      modifies this`bufs
      ensures r == Outcome(old(bufs)[k], m, item, old(bufs), offset)
      ensures r != Some(Success) ==> bufs == old(bufs)
      ensures r == Some(Success) ==> m.tcphLen == item.tcphLen
      ensures r == Some(Success) ==>
        var mode := Mode(old(bufs)[k].pkt, m, item, old(bufs));
        && bufs == MergedBufs(mode, old(bufs), k, m, item) == BufsAfter(old(bufs), k, m, item)
        && item' == MergedItem(mode, item, m)
    {
      var can := TcpCanCoalesce(bufs[k].pkt, m, item, bufs[item.bufsIndex].pkt);
      if can == Unavailable { return None, item; }
      CanFacts(bufs[k].pkt, m, item, bufs[item.bufsIndex].pkt);
      var result;
      result, item' := CoalesceTcp(can, k, m, item);
      r := Some(result);
    }

    /** Compares packet k with item i of its flow, and merges the two when it can. */
    method MergeTcp(k: nat, m: TcpMeta, i: nat) returns (r: Option<CoalesceResult>)
      requires Running() && k == |t.owner| < |bufs| && TcpMetaOf(bufs[k].pkt) == Some(m)
      requires m.key in tcp && i < |tcp[m.key]|
      modifies this`bufs, this`tcp, this`t
      ensures r == Outcome(old(bufs)[k], m, old(tcp)[m.key][i], old(bufs), offset)
      ensures Running() && Alone() == old(Alone())
      ensures r != Some(Success) ==> bufs == old(bufs) && tcp == old(tcp) && t == old(t)
      ensures r == Some(Success) ==>
        var item := old(tcp)[m.key][i];
        && t.owner == old(t).owner + [item.bufsIndex] && bufs == BufsAfter(old(bufs), k, m, item)
        && tcp ==
           old(tcp)[m.key := old(tcp)[m.key][i := MergedItem(Mode(old(bufs)[k].pkt, m, item, old(bufs)), item, m)]]
    {
      hide Inv, Outcome, Comparable, TcpMetaOf, Mode, MergedItem, MergedBufs, MergedTrace, BufsAfter, Tracks, Plains,
        Fronts;
      var item := tcp[m.key][i];
      ItemComparable(bufs, tcp, udp, toWrite, t, env, m, i);
      ghost var bufs0, tcp0, t0, mode := bufs, tcp, t, Mode(bufs[k].pkt, m, item, bufs);
      var item';
      r, item' := TryTcp(k, m, item);
      if r == Some(Success) {
        tcp := tcp[m.key := tcp[m.key][i := item']];
        t := MergedTrace(mode, t, m, item.bufsIndex);
        MergedTcpOwner(mode, t0, m, item.bufsIndex);
        StepTcpMerge(mode, bufs0, tcp0, udp, toWrite, t0, env, m, i, item', bufs, tcp, t);
        MergeTracks(bufs0, tcp0, udp, toWrite, t0, env, mode, m, i);
        MergedFront(mode, bufs0, tcp0, udp, toWrite, t0, env, m, i, bufs);
      }
    }

    /** MergeTcp; an item whose own checksum does not verify leaves the table. */
    method VisitTcp(k: nat, m: TcpMeta, i: nat) returns (r: Option<CoalesceResult>)
      requires Running() && k == |t.owner| < |bufs| && TcpMetaOf(bufs[k].pkt) == Some(m)
      requires m.key in tcp && i < |tcp[m.key]|
      modifies this`bufs, this`tcp, this`t
      ensures r == Outcome(old(bufs)[k], m, old(tcp)[m.key][i], old(bufs), offset)
      ensures Running() && Alone() == old(Alone())
      ensures t.owner == old(t).owner + if r == Some(Success) then [old(tcp)[m.key][i].bufsIndex] else []
      ensures bufs == if r == Some(Success) then BufsAfter(old(bufs), k, m, old(tcp)[m.key][i]) else old(bufs)
      ensures tcp == AfterVisit(old(tcp), m, i, r, Mode(old(bufs)[k].pkt, m, old(tcp)[m.key][i], old(bufs)))
    {
      hide Inv, BufsAfter, Tracks, Plains, Fronts, Outcome, ChecksumValid;
      r := MergeTcp(k, m, i);
      if r == Some(ItemInvalidCSum) {
        ItemCorrupt(bufs[k], m, tcp[m.key][i], bufs, offset);
        DeleteTcp(m.key, i);
      }
    }

    /** One turn of the loop of tcpGRO: item i of those the flow had before the scan. */
    method ScanTurn(k: nat, m: TcpMeta, i: nat, ghost items: seq<TcpItem>, ghost r0: Option<CoalesceResult>)
      returns (r: Option<CoalesceResult>)
      requires Running() && k == |t.owner| < |bufs| && TcpMetaOf(bufs[k].pkt) == Some(m)
      requires i < |items| && r0 != Some(Success) && r0 != Some(PktInvalidCSum)
      requires Scanning(bufs[k], m, items, bufs, offset, r0, i + 1)
      requires m.key in tcp && tcp[m.key] == AfterScan(bufs[k], m, items, bufs, offset, r0, i + 1)
      modifies this`bufs, this`tcp, this`t
      ensures Running() && Alone() == old(Alone())
      ensures t.owner == old(t).owner + if r == Some(Success) then [items[i].bufsIndex] else []
      ensures bufs == if r == Some(Success) then BufsAfter(old(bufs), k, m, items[i]) else old(bufs)
      ensures Scanning(old(bufs)[k], m, items, old(bufs), offset, r, i)
      ensures tcp == old(tcp)[m.key := AfterScan(old(bufs)[k], m, items, old(bufs), offset, r, i)]
    {
      hide Inv, Outcome, Mode, Scanning, AfterScan, BufsAfter, Tracks, Plains, Fronts, TcpMetaOf;
      ScanNext(bufs[k], m, items, bufs, offset, r0, i + 1);
      r := VisitTcp(k, m, i);
      ScanStep(old(bufs)[k], m, items, old(bufs), offset, r0, r, i);
    }

    /**
      The loop of tcpGRO over the items of the packet's flow, from the last to the first:
      it stops at the first item that takes the packet, or when the packet turns out to be corrupt.
     */
    method ScanFlow(k: nat, m: TcpMeta) returns (r: Option<CoalesceResult>, ghost at: nat)
      requires Running() && k == |t.owner| < |bufs| && TcpMetaOf(bufs[k].pkt) == Some(m) && m.key in tcp
      modifies this`bufs, this`tcp, this`t
      ensures Running() && Alone() == old(Alone())
      ensures r != Some(Success) ==> bufs == old(bufs) && t.owner == old(t).owner
      ensures r == Some(Success) ==> at < |old(tcp)[m.key]| && t.owner == old(t).owner + [old(tcp)[m.key][at].bufsIndex]
      ensures r == Some(Success) ==> bufs == BufsAfter(old(bufs), k, m, old(tcp)[m.key][at])
      ensures Scanned(old(bufs)[k], m, old(tcp)[m.key], old(bufs), offset, r, at) && at <= |old(tcp)[m.key]|
      ensures tcp == old(tcp)[m.key := AfterScan(old(bufs)[k], m, old(tcp)[m.key], old(bufs), offset, r, at)]
    {
      hide Inv, Outcome, Mode, Scanning, AfterScan, BufsAfter, Tracks, Plains, Fronts;
      ghost var items := tcp[m.key];
      r := None;
      var i := |tcp[m.key]|;
      at := i;
      ScanStart(bufs[k], m, items, bufs, offset);
      assert tcp[m.key := items] == tcp;
      while i > 0 && r != Some(Success) && r != Some(PktInvalidCSum)
        invariant Running() && Alone() == old(Alone())
        invariant r != Some(Success) ==> bufs == old(bufs) && t.owner == old(t).owner
        invariant r == Some(Success) ==> at < |items| && bufs == BufsAfter(old(bufs), k, m, items[at])
        invariant r == Some(Success) ==> t.owner == old(t).owner + [items[at].bufsIndex]
        invariant at == i <= |items|
        invariant Scanning(old(bufs)[k], m, items, old(bufs), offset, r, at)
        invariant tcp == old(tcp)[m.key := AfterScan(old(bufs)[k], m, items, old(bufs), offset, r, at)]
        decreases i
      {
        i := i - 1;
        at := i;
        r := ScanTurn(k, m, i, items, r);
      }
    }

    /** tcpGRO; handleGRO lists buffer k when the packet was inserted. */
    method TcpGro(k: nat, isV6: bool) returns (r: GroResult, ghost scan: Option<CoalesceResult>, ghost at: nat)
      requires Running() && k == |t.owner| < |bufs|
      requires Classify(bufs[k].pkt, false) == if isV6 then Tcp6 else Tcp4
      modifies this`bufs, this`tcp, this`t
      ensures Inv(bufs, tcp, udp, if r == TableInsert then toWrite + [k] else toWrite, t, env)
      ensures Tracks(tcp, udp, t.groups, env.input) && Fronts(t.groups, bufs, env.input) && Alone() == old(Alone())
      ensures t.owner == old(t).owner + if r == Noop then [] else [OwnerOf(k, old(Now()), canUdp, r, at)]
      ensures r == Noop ==> bufs == old(bufs)
      ensures TcpDone(k, old(bufs), bufs, old(tcp), tcp, offset, r, scan, at)
    {
      hide Inv, Outcome, Mode, ParseTcp, Scanned, AfterScan, BufsAfter, Tracks, Plains, Fronts;
      scan, at := None, 0;
      var parsed := ParseTcp(bufs[k].pkt, isV6);
      if parsed == None { return Noop, scan, at; }
      var m := parsed.value;
      if m.key in tcp {
        var s, a := ScanFlow(k, m);
        scan, at := s, a;
        if s == Some(Success) { return Coalesced, scan, at; }
        if s == Some(PktInvalidCSum) { return Noop, scan, at; }
      }
      EmptyScan(old(bufs)[k], m, old(bufs), offset);
      ghost var left := AfterScan(old(bufs)[k], m, ItemsOf(old(tcp), m.key), old(bufs), offset, scan, at);
      assert ItemsOf(tcp, m.key) == left;
      InsertTcp(k, m);
      assert tcp == old(tcp)[m.key := left + [NewTcpItem(k, m)]];
      r := TableInsert;
    }

    /** coalesceUDPPackets, for packet k and an item of its flow. */
    method CoalesceUdp(k: nat, m: UdpMeta, item: UdpItem) returns (r: CoalesceResult, item': UdpItem)
      requires k < |bufs| && item.bufsIndex != k && UdpComparable(bufs[k].pkt, m, item, bufs)
      requires |bufs[k].pkt| <= MAX_PACKET && |bufs[item.bufsIndex].pkt| <= MAX_PACKET
      requires item.iphLen == if m.key.isV6 then 40 else 20
      modifies this`bufs
      ensures r == UdpAttempt(old(bufs)[k].pkt, m, item, old(bufs)[item.bufsIndex], offset)
      ensures r != Success ==> bufs == old(bufs) && item' == item
      ensures r == Success ==> bufs == UdpMergedBufs(old(bufs), k, item) && item' == Extended(item)
    {
      var pkt, w := bufs[k].pkt, item.bufsIndex;
      var headersLen := item.iphLen + 8;
      var coalescedLen := |bufs[w].pkt| + |pkt| - headersLen;
      if bufs[w].cap - offset - offset < coalescedLen { return InsufficientCap, item; }
      var verdict := CheckBoth(pkt, bufs[w].pkt, item.iphLen, IPPROTO_UDP, m.key.isV6, item.numMerged == 0,
                               item.cSumKnownInvalid);
      if verdict != Success { return verdict, item; }
      bufs := bufs[w := Buf(bufs[w].pkt + pkt[headersLen..], bufs[w].cap)];
      return Success, item.(numMerged := item.numMerged + 1);
    }

    /** insert: the datagram becomes the last item of its flow; handleGRO then lists its buffer. */
    method InsertUdp(k: nat, m: UdpMeta, invalid: bool)
      requires Running() && k == |t.owner| < |bufs| && UdpMetaOf(bufs[k].pkt, canUdp) == Some(m)
      requires invalid ==> !ChecksumValid(bufs[k].pkt, m.iphLen, IPPROTO_UDP, m.key.isV6)
      modifies this`udp, this`t
      ensures Inv(bufs, tcp, udp, toWrite + [k], t, env) && t.owner == old(t).owner + [k]
      ensures udp == old(udp)[m.key := Datagrams(old(udp), m.key) + [NewUdpItem(k, m, invalid)]]
      ensures Tracks(tcp, udp, t.groups, env.input) && Fronts(t.groups, bufs, env.input) && Alone() == old(Alone())
    {
      hide Inv, Tracks, Plains, Fronts, UdpMetaOf;
      Untouched(bufs, tcp, udp, toWrite, t, env);
      NextIsNew(bufs, tcp, udp, toWrite, t, env);
      UdpInsertTracks(tcp, udp, t.groups, env.input, k, m, invalid);
      NewUdpFront(t.groups, bufs, env.input, k, m, canUdp);
      StepUdpInsert(bufs, tcp, udp, toWrite, t, env, m, invalid);
      var items := if m.key in udp then udp[m.key] else [];
      udp := udp[m.key := items + [NewUdpItem(k, m, invalid)]];
      t := UdpInsertTrace(t, m);
    }

    /** Only the last item of the flow may take the datagram, so that datagrams keep their order. */
    method MergeUdp(k: nat, m: UdpMeta) returns (r: Option<CoalesceResult>)
      requires Running() && k == |t.owner| < |bufs| && UdpMetaOf(bufs[k].pkt, canUdp) == Some(m)
      requires m.key in udp
      modifies this`bufs, this`udp, this`t
      ensures Running() && Alone() == old(Alone()) && old(udp)[m.key] != []
      ensures t.owner == old(t).owner + if r == Some(Success) then [Last(old(udp)[m.key]).bufsIndex] else []
      ensures r == UdpOutcome(old(bufs)[k].pkt, m, Last(old(udp)[m.key]), old(bufs), offset)
      ensures r != Some(Success) ==> bufs == old(bufs) && udp == old(udp)
      ensures r == Some(Success) ==> udp == old(udp)[m.key := LastExtended(old(udp)[m.key])]
      ensures r == Some(Success) ==> bufs == UdpBufsAfter(old(bufs), k, m, Last(old(udp)[m.key]))
    {
      hide Inv, UdpMetaOf, UdpMergedBufs, UdpMergedTrace, UdpAttempt, Tracks, Plains, Fronts;
      LastComparable(bufs, tcp, udp, toWrite, t, env, m);
      var items := udp[m.key];
      var item := Last(items);
      var can := UdpCanCoalesce(bufs[k].pkt, m.iphLen, m.gsoSize, item, bufs[item.bufsIndex].pkt);
      if can != Append { return None; }
      ghost var bufs0, udp0, t0 := bufs, udp, t;
      var result, item' := CoalesceUdp(k, m, item);
      r := Some(result);
      if result == Success {
        udp := udp[m.key := items[|items| - 1 := item']];
        t := UdpMergedTrace(t, item.bufsIndex, m.key);
        MergedUdpOwner(t0, item.bufsIndex, m.key);
        StepUdpMerge(bufs0, tcp, udp0, toWrite, t0, env, m, bufs, udp, t);
        UdpMergeTracks(bufs0, tcp, udp0, toWrite, t0, env, m.key);
        UdpMergedFront(bufs0, tcp, udp0, toWrite, t0, env, m);
      }
    }

    /** udpGRO; handleGRO lists buffer k when the datagram was inserted. */
    method UdpGro(k: nat, isV6: bool) returns (r: GroResult)
      requires Running() && k == |t.owner| < |bufs|
      requires canUdp && Classify(bufs[k].pkt, canUdp) == if isV6 then Udp6 else Udp4
      modifies this`bufs, this`udp, this`t
      ensures Inv(bufs, tcp, udp, if r == TableInsert then toWrite + [k] else toWrite, t, env)
      ensures Tracks(tcp, udp, t.groups, env.input) && Fronts(t.groups, bufs, env.input) && Alone() == old(Alone())
      ensures t.owner == old(t).owner + if r == Noop then [] else [OwnerOf(k, old(Now()), canUdp, r, 0)]
      ensures r == Noop ==> bufs == old(bufs) && UdpMetaOf(old(bufs)[k].pkt, canUdp) == None
      ensures UdpDone(k, old(bufs), bufs, old(udp), udp, canUdp, offset, r)
    {
      hide Inv, UdpOutcome, ParseUdp, UdpBufsAfter, Tracks, Plains, Fronts, ChecksumValid;
      var parsed := ParseUdp(bufs[k].pkt, isV6);
      if parsed == None { return Noop; }
      var m := parsed.value;
      var pktCSumKnownInvalid := false;
      if m.key in udp {
        var merge := MergeUdp(k, m);
        if merge == Some(Success) { return Coalesced; }
        pktCSumKnownInvalid := merge == Some(PktInvalidCSum);
        if pktCSumKnownInvalid { PktCorrupt(bufs[k].pkt, m, Last(udp[m.key]), bufs, offset); }
      }
      InsertUdp(k, m, pktCSumKnownInvalid);
      r := TableInsert;
    }

    /** What handleGRO tries with packet k. */
    method Dispatch(k: nat) returns (r: GroResult, ghost scan: Option<CoalesceResult>, ghost at: nat)
      requires Running() && k == |t.owner| < |bufs|
      modifies this`bufs, this`tcp, this`udp, this`t
      ensures Inv(bufs, tcp, udp, if r == TableInsert then toWrite + [k] else toWrite, t, env)
      ensures Tracks(tcp, udp, t.groups, env.input) && Fronts(t.groups, bufs, env.input) && Alone() == old(Alone())
      ensures t.owner == old(t).owner + if r == Noop then [] else [OwnerOf(k, old(Now()), canUdp, r, at)]
      ensures r == Noop ==> bufs == old(bufs) && UdpMetaOf(bufs[k].pkt, canUdp) == None
      ensures Dispatched(k, old(Now()), Now(), offset, canUdp, r, scan, at)
    {
      hide Inv, TcpDone, UdpDone, TcpMetaOf, UdpMetaOf, Tracks, Plains, Fronts;
      r, scan, at := Noop, None, 0;
      Kinds(bufs[k].pkt, canUdp);
      match Classify(bufs[k].pkt, canUdp) {
        case NotCandidate =>
        case Tcp4 => r, scan, at := TcpGro(k, false);
        case Tcp6 => r, scan, at := TcpGro(k, true);
        case Udp4 => r := UdpGro(k, false);
        case Udp6 => r := UdpGro(k, true);
      }
    }

    /** One turn of handleGRO's loop. */
    method Take(k: nat)
      requires Running() && k == |t.owner| < |bufs| && OnlyPlain(hdrs, t.groups)
      modifies this
      ensures Running() && |t.owner| == k + 1 && |bufs| == |old(bufs)| && OnlyPlain(hdrs, t.groups)
      ensures t.owner[..k] == old(t).owner && Told(k, old(Now()), old(t), env, t.owner[k])
      ensures toWrite == if t.owner[k] == k then old(toWrite) + [k] else old(toWrite)
      ensures Taken(k, old(Now()), Now(), offset, canUdp)
    {
      hide Inv, TcpMetaOf, UdpMetaOf, Classify, Dispatched, Tracks, Plains, Fronts, Told, OwnerOf, Taken;
      SameSize(bufs, tcp, udp, toWrite, t, env);
      ghost var before := Now();
      var r, scan, at := Dispatch(k);
      ghost var after := Now();
      if r == Noop {
        hdrs := hdrs[k := Plain];
        Untouched(bufs, tcp, udp, toWrite, t, env);
        StepNoop(bufs, tcp, udp, toWrite, t, env);
        NextIsNew(bufs, tcp, udp, toWrite, t, env);
        AloneTracks(tcp, udp, t.groups, env.input, k);
        LooseFront(t.groups, bufs, env.input, k, Group(Loose, 0, [k]));
        t := Record(t, env, t.groups[k := Group(Loose, 0, [k])], k);
      }
      if r != Coalesced {
        toWrite := toWrite + [k];
      }
      SameSize(bufs, tcp, udp, toWrite, t, env);
      Listed(k, before, after, offset, canUdp, r, scan, at);
      DispatchPlaces(k, before, after, old(t), env, r, scan, at);
    }

    /** The common part of applyTCPCoalesceAccounting and applyUDPCoalesceAccounting, for one item. */
    method Account(job: Job, ghost tr: Tracking)
      requires Valid() && JobOk(job, t.groups, bufs, tr)
      modifies this`bufs, this`hdrs
      ensures Valid() && Done(job, old(bufs), bufs, hdrs)
      ensures OnlySlot(job.w, old(bufs), bufs, old(hdrs), hdrs)
    {
      hide Inv, HeadersFixed, Tracks;
      if job.merged {
        var fixed := FixHeaders(bufs[job.w].pkt, job.hdr, job.isV6, big);
        FixedSize(bufs[job.w].pkt, fixed, job.hdr, job.isV6);
        StepAccount(bufs, tcp, udp, toWrite, t, env, job.w, fixed);
        hdrs := hdrs[job.w := Offload(job.hdr, job.isV6)];
        bufs := bufs[job.w := Buf(fixed, bufs[job.w].cap)];
      } else {
        hdrs := hdrs[job.w := Plain];
      }
    }

    /** Accounting for the items of one flow. */
    method AccountFlow(jobs: seq<Job>, ghost tr: Tracking)
      requires Valid() && JobsOk(jobs, t.groups, bufs, tr)
      modifies this`bufs, this`hdrs
      ensures Valid() && |bufs| == |old(bufs)| && AllDone(jobs, old(bufs), bufs, hdrs)
      ensures OthersKept(t.groups, tr, old(bufs), bufs, old(hdrs), hdrs)
    {
      hide Inv, Done, Tracks;
      for i := 0 to |jobs|
        invariant Valid() && |bufs| == |old(bufs)|
        invariant AllDone(jobs[..i], old(bufs), bufs, hdrs)
        invariant forall j :: i <= j < |jobs| ==> bufs[jobs[j].w] == old(bufs)[jobs[j].w]
        invariant OthersKept(t.groups, tr, old(bufs), bufs, old(hdrs), hdrs)
      {
        ghost var bufs1, hdrs1 := bufs, hdrs;
        assert JobOk(jobs[i], t.groups, old(bufs), tr);
        Account(jobs[i], tr);
        FlowStep(jobs, i, t.groups, tr, old(bufs), bufs1, bufs, old(hdrs), hdrs1, hdrs);
      }
      assert jobs[..|jobs|] == jobs;
    }

    /** applyTCPCoalesceAccounting; the flows come in any order. */
    method AccountTcp()
      requires Valid()
      modifies this`bufs, this`hdrs
      ensures Valid() && |bufs| == |old(bufs)|
      ensures AccountedFor(tcp, udp, TcpFlows(tcp), old(bufs), bufs, hdrs)
      ensures Pending(t.groups, TcpFlows(tcp), old(bufs), bufs, old(hdrs), hdrs)
    {
      hide Inv, AllDone, JobsOk, OthersKept, AccountedFor, Pending, Tracks;
      var todo := tcp.Keys;
      ghost var done: set<Tracking> := {};
      AccountStart(tcp, udp, t.groups, bufs, hdrs);
      Tracked(bufs, tcp, udp, toWrite, t, env);
      while todo != {}
        invariant Valid() && |bufs| == |old(bufs)| && todo <= tcp.Keys
        invariant done == set key | key in tcp && key !in todo :: InTcp(key)
        invariant AccountedFor(tcp, udp, done, old(bufs), bufs, hdrs)
        invariant Pending(t.groups, done, old(bufs), bufs, old(hdrs), hdrs)
        decreases |todo|
      {
        var key :| key in todo;
        ghost var bufs1, hdrs1 := bufs, hdrs;
        TcpJobsOk(bufs, tcp, udp, toWrite, t, env, key);
        AccountFlow(TcpJobs(tcp[key]), InTcp(key));
        FlowAccounted(tcp, udp, InTcp(key), done, t.groups, old(bufs), bufs1, bufs, old(hdrs), hdrs1, hdrs);
        done := done + {InTcp(key)};
        todo := todo - {key};
      }
      assert done == TcpFlows(tcp);
    }

    /** applyUDPCoalesceAccounting; the flows come in any order. */
    method AccountUdp()
      requires Valid()
      modifies this`bufs, this`hdrs
      ensures Valid() && |bufs| == |old(bufs)|
      ensures AccountedFor(tcp, udp, UdpFlows(udp), old(bufs), bufs, hdrs)
      ensures Pending(t.groups, UdpFlows(udp), old(bufs), bufs, old(hdrs), hdrs)
    {
      hide Inv, AllDone, JobsOk, OthersKept, AccountedFor, Pending, Tracks;
      var todo := udp.Keys;
      ghost var done: set<Tracking> := {};
      AccountStart(tcp, udp, t.groups, bufs, hdrs);
      Tracked(bufs, tcp, udp, toWrite, t, env);
      while todo != {}
        invariant Valid() && |bufs| == |old(bufs)| && todo <= udp.Keys
        invariant done == set key | key in udp && key !in todo :: InUdp(key)
        invariant AccountedFor(tcp, udp, done, old(bufs), bufs, hdrs)
        invariant Pending(t.groups, done, old(bufs), bufs, old(hdrs), hdrs)
        decreases |todo|
      {
        var key :| key in todo;
        ghost var bufs1, hdrs1 := bufs, hdrs;
        UdpJobsOk(bufs, tcp, udp, toWrite, t, env, key);
        AccountFlow(UdpJobs(udp[key]), InUdp(key));
        FlowAccounted(tcp, udp, InUdp(key), done, t.groups, old(bufs), bufs1, bufs, old(hdrs), hdrs1, hdrs);
        done := done + {InUdp(key)};
        todo := todo - {key};
      }
      assert done == UdpFlows(udp);
    }

    /** handleGRO; `coalesced` are the buffers before the accounting pass. */
    method HandleGro()
      returns (ok: bool, ghost coalesced: seq<Buf>, ghost states: seq<Snapshot>, ghost traces: seq<Trace>)
      requires Valid() && t.owner == [] && hdrs == map[]
      modifies this
      ensures ok <==>
        || env.input == []
        || (offset >= VIRTIO_NET_HDR_LEN && forall i :: 0 <= i < |env.input| ==> env.input[i] != [])
      ensures Valid()
      ensures ok ==> |t.owner| == |env.input| && Inv(coalesced, tcp, udp, toWrite, t, env)
      ensures ok ==> AccountedFor(tcp, udp, TcpFlows(tcp) + UdpFlows(udp), coalesced, bufs, hdrs)
      ensures ok ==>
        && |states| == |env.input| + 1 && states[0] == old(Now()) && PassOver(states, offset, canUdp)
        && states[|env.input|] == Snapshot(coalesced, tcp, udp, toWrite, states[|env.input|].hdrs)
        && OnlyPlain(states[|env.input|].hdrs, t.groups)
      ensures ok ==> AllTold(states, traces, t.owner, env) && ListedInOrder(toWrite, t.owner)
      ensures ok ==> Fronts(t.groups, coalesced, env.input)
      ensures ok ==> |bufs| == |env.input| && Headed(hdrs, toWrite, t.groups, |bufs|)
      ensures ok ==> LooseKept(t.groups, coalesced, bufs)
      ensures ok ==> HeadersTold(states, |env.input|, toWrite, hdrs, offset)
    {
      hide Inv, AccountedFor, Pending, FlowsTracked, Taken, PassOver, Tracks, OnlyPlain, Headed, LooseKept, Fronts,
        LossesTold, HeadersTold, ItemsApart, Told, ListedInOrder;
      coalesced := bufs;
      states, traces := [Now()], [t];
      PassStart(states, offset, canUdp);
      ok := false;
      SameSize(bufs, tcp, udp, toWrite, t, env);
      NothingListed(bufs, tcp, udp, toWrite, t, env);
      NoFronts(bufs, tcp, udp, toWrite, t, env);
      NothingLost(states, Now(), offset);
      NothingListedYet(toWrite);
      for i := 0 to |bufs|
        invariant Running() && |t.owner| == i && |bufs| == |env.input| && OnlyPlain(hdrs, t.groups)
        invariant forall j :: 0 <= j < i ==> env.input[j] != []
        invariant i > 0 ==> offset >= VIRTIO_NET_HDR_LEN
        invariant |states| == i + 1 && states[0] == old(Now()) && states[i] == Now() && PassOver(states, offset, canUdp)
        invariant LossesTold(states, i, Now(), offset)
        invariant AllTold(states, traces, t.owner, env) && traces[i] == t && ListedInOrder(toWrite, t.owner)
      {
        Untouched(bufs, tcp, udp, toWrite, t, env);
        if offset < VIRTIO_NET_HDR_LEN || |bufs[i].pkt| < 1 { return; }
        NextIsNew(bufs, tcp, udp, toWrite, t, env);
        ItemsAreApart(Now(), t, env);
        ghost var owner0, listed0 := t.owner, toWrite;
        Take(i);
        ToldMore(states, traces, owner0, env, Now(), t);
        ListedMore(listed0, owner0, t.owner[i]);
        assert t.owner == owner0 + [t.owner[i]];
        LossesTurn(states, i, Now(), offset, canUdp);
        PassOn(states, Now(), offset, canUdp);
        states, traces := states + [Now()], traces + [t];
      }
      ok := true;
      coalesced := bufs;
      ghost var hdrs0, end := hdrs, Now();
      AccountTcp();
      ghost var bufs1, hdrs1 := bufs, hdrs;
      AccountUdp();
      Tracked(bufs, tcp, udp, toWrite, t, env);
      BothAccounted(tcp, udp, t.groups, coalesced, bufs1, bufs, hdrs1, hdrs);
      NextIsNew(bufs, tcp, udp, toWrite, t, env);
      AllHeaded(tcp, udp, toWrite, t.groups, env.input, coalesced, bufs1, bufs, hdrs0, hdrs1, hdrs);
      AllLooseKept(tcp, udp, t.groups, coalesced, bufs1, bufs, hdrs0, hdrs1, hdrs);
      PassTold(states, |env.input|, end, hdrs, t, env);
    }
  }
}

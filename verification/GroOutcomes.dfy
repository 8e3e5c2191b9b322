/** What receive offload does with one packet: decisions, outcomes, and the whole of a pass, packet by packet. */
module GroOutcomes {
  import opened Wrappers
  import opened Bytes
  import opened Gso
  import opened GroState
  import opened GroRules
  import opened GroTables
  import opened GroSteps
  import opened GroTcpSteps
  import opened GroTcpMerge
  import opened GroUdpSteps
  import opened GroAccount

  const VIRTIO_NET_HDR_LEN := 10

  datatype GroResult = Noop | TableInsert | Coalesced

  /** Whether and how a packet goes together with an item. */
  function Mode(pkt: seq<Byte>, m: TcpMeta, item: TcpItem, bufs: seq<Buf>): CanCoalesce {
    if Comparable(pkt, m, item, bufs) then TcpCanCoalesce(pkt, m, item, bufs[item.bufsIndex].pkt) else Unavailable
  }

  /** The buffers after a packet has been merged into the item's. */
  function BufsAfter(bufs: seq<Buf>, k: nat, m: TcpMeta, item: TcpItem): seq<Buf>
    requires k < |bufs|
  {
    if Comparable(bufs[k].pkt, m, item, bufs) && m.tcphLen == item.tcphLen
    then MergedBufs(Mode(bufs[k].pkt, m, item, bufs), bufs, k, m, item)
    else bufs
  }

  /** What comes of comparing a packet with an item; None when the two do not go together. */
  ghost function Outcome(own: Buf, m: TcpMeta, item: TcpItem, bufs: seq<Buf>, offset: nat): Option<CoalesceResult> {
    if Mode(own.pkt, m, item, bufs) == Unavailable then None
    else Some(TcpAttempt(Mode(own.pkt, m, item, bufs), own, m, item, bufs[item.bufsIndex], offset))
  }

  lemma SameSize(bufs: seq<Buf>, tcp: TcpTable, udp: UdpTable, toWrite: seq<nat>, t: Trace, env: Env)
    requires Inv(bufs, tcp, udp, toWrite, t, env)
    ensures |bufs| == |env.input|
  {}

  lemma Untouched(bufs: seq<Buf>, tcp: TcpTable, udp: UdpTable, toWrite: seq<nat>, t: Trace, env: Env)
    requires Inv(bufs, tcp, udp, toWrite, t, env) && |t.owner| < |bufs|
    ensures |env.input| == |bufs| && env.input[|t.owner|] == bufs[|t.owner|].pkt
  {}

  /** The candidate kinds go with the protocols. */
  lemma Kinds(pkt: seq<Byte>, canUdp: bool)
    ensures Classify(pkt, canUdp) in {Tcp4, Tcp6} ==> Classify(pkt, false) == Classify(pkt, canUdp)
    ensures Classify(pkt, canUdp) in {Udp4, Udp6} ==> canUdp
    ensures Classify(pkt, canUdp) !in {Udp4, Udp6} ==> UdpMetaOf(pkt, canUdp) == None
  {}

  function Last(items: seq<UdpItem>): UdpItem
    requires items != []
  {
    items[|items| - 1]
  }

  function LastExtended(items: seq<UdpItem>): seq<UdpItem>
    requires items != []
  {
    items[|items| - 1 := Extended(Last(items))]
  }

  predicate UdpComparable(pkt: seq<Byte>, m: UdpMeta, item: UdpItem, bufs: seq<Buf>) {
    && item.bufsIndex < |bufs| && item.iphLen == m.iphLen && item.gsoSize > 0
    && item.iphLen + 8 <= |pkt| && item.iphLen + 8 <= |bufs[item.bufsIndex].pkt|
  }

  /** What comes of comparing a datagram with the last item of its flow; None when the two do not go together. */
  ghost function UdpOutcome(pkt: seq<Byte>, m: UdpMeta, item: UdpItem, bufs: seq<Buf>,
                            offset: nat): Option<CoalesceResult>
  {
    if !UdpComparable(pkt, m, item, bufs) then None
    else if UdpCanCoalesce(pkt, m.iphLen, m.gsoSize, item, bufs[item.bufsIndex].pkt) != Append then None
    else Some(UdpAttempt(pkt, m, item, bufs[item.bufsIndex], offset))
  }

  lemma PktCorrupt(pkt: seq<Byte>, m: UdpMeta, item: UdpItem, bufs: seq<Buf>, offset: nat)
    requires UdpOutcome(pkt, m, item, bufs, offset) == Some(PktInvalidCSum)
    ensures !ChecksumValid(pkt, m.iphLen, IPPROTO_UDP, m.key.isV6)
  {
    hide ChecksumValid;
  }

  /** The buffers after the datagram has been appended to the item's. */
  function UdpBufsAfter(bufs: seq<Buf>, k: nat, m: UdpMeta, item: UdpItem): seq<Buf>
    requires k < |bufs|
  {
    if UdpComparable(bufs[k].pkt, m, item, bufs) then UdpMergedBufs(bufs, k, item) else bufs
  }

  /** What udpGRO answers and does to buffers and table. */
  ghost predicate UdpDone(k: nat, bufs: seq<Buf>, bufs': seq<Buf>, udp: UdpTable, udp': UdpTable, canUdp: bool,
                          offset: nat, r: GroResult)
    requires k < |bufs|
  {
    match UdpMetaOf(bufs[k].pkt, canUdp)
    case None => r == Noop && udp' == udp && bufs' == bufs
    case Some(m) =>
      var items := Datagrams(udp, m.key);
      var outcome := if items == [] then None else UdpOutcome(bufs[k].pkt, m, Last(items), bufs, offset);
      if outcome == Some(Success) then
        && r == Coalesced && udp' == udp[m.key := LastExtended(items)]
        && bufs' == UdpBufsAfter(bufs, k, m, Last(items))
      else
        && r == TableInsert && bufs' == bufs
        && udp' == udp[m.key := items + [NewUdpItem(k, m, outcome == Some(PktInvalidCSum))]]
  }

  lemma LastComparable(bufs: seq<Buf>, tcp: TcpTable, udp: UdpTable, toWrite: seq<nat>, t: Trace, env: Env, m: UdpMeta)
    requires Inv(bufs, tcp, udp, toWrite, t, env) && m.key in udp
    requires |t.owner| < |bufs| && UdpMetaOf(bufs[|t.owner|].pkt, env.canUdp) == Some(m)
    ensures udp[m.key] != []
    ensures UdpComparable(bufs[|t.owner|].pkt, m, Last(udp[m.key]), bufs)
    ensures var item := Last(udp[m.key]);
            item.bufsIndex in t.groups && item.bufsIndex < |t.owner| && |bufs[item.bufsIndex].pkt| <= MAX_PACKET
            && item.iphLen == if m.key.isV6 then 40 else 20
    ensures |bufs[|t.owner|].pkt| <= MAX_PACKET
  {
    UdpItemFacts(bufs, udp, toWrite, t, env, m.key);
    UdpMetaFacts(bufs[|t.owner|].pkt, env.canUdp, m);
  }

  lemma StepUdpMerge(bufs: seq<Buf>, tcp: TcpTable, udp: UdpTable, toWrite: seq<nat>, t: Trace, env: Env, m: UdpMeta,
                     bufs': seq<Buf>, udp': UdpTable, t': Trace)
    requires Inv(bufs, tcp, udp, toWrite, t, env) && |t.owner| < |bufs| && m.key in udp && udp[m.key] != []
    requires UdpMetaOf(bufs[|t.owner|].pkt, env.canUdp) == Some(m)
    requires UdpComparable(bufs[|t.owner|].pkt, m, Last(udp[m.key]), bufs)
    requires UdpOutcome(bufs[|t.owner|].pkt, m, Last(udp[m.key]), bufs, env.offset) == Some(Success)
    requires bufs' == UdpMergedBufs(bufs, |t.owner|, Last(udp[m.key]))
    requires udp' == udp[m.key := LastExtended(udp[m.key])]
    requires t' == UdpMergedTrace(t, Last(udp[m.key]).bufsIndex, m.key)
    ensures Inv(bufs', tcp, udp', toWrite, t', env) && |t'.owner| == |t.owner| + 1
  {
    StepUdpAppend(bufs, tcp, udp, toWrite, t, env, m, bufs', udp', t');
    UdpItemFacts(bufs, udp, toWrite, t, env, m.key);
  }

  /** The fields of a pass at one moment. */
  datatype Snapshot = Snapshot(bufs: seq<Buf>, tcp: TcpTable, udp: UdpTable, toWrite: seq<nat>, hdrs: map<nat, Written>)

  /** What trying packet k answers and does to buffers and tables. */
  ghost predicate Dispatched(k: nat, s: Snapshot, s': Snapshot, offset: nat, canUdp: bool,
                             r: GroResult, scan: Option<CoalesceResult>, at: nat) {
    && k < |s.bufs| && s'.toWrite == s.toWrite && s'.hdrs == s.hdrs
    && match Classify(s.bufs[k].pkt, canUdp)
       case NotCandidate => r == Noop && s' == s
       case Tcp4 => TcpDone(k, s.bufs, s'.bufs, s.tcp, s'.tcp, offset, r, scan, at) && s'.udp == s.udp
       case Tcp6 => TcpDone(k, s.bufs, s'.bufs, s.tcp, s'.tcp, offset, r, scan, at) && s'.udp == s.udp
       case Udp4 => UdpDone(k, s.bufs, s'.bufs, s.udp, s'.udp, canUdp, offset, r) && s'.tcp == s.tcp
       case Udp6 => UdpDone(k, s.bufs, s'.bufs, s.udp, s'.udp, canUdp, offset, r) && s'.tcp == s.tcp
  }

  /**
    What one turn of handleGRO's loop does: packets that were not merged are listed,
    those left alone get a plain header.
   */
  ghost predicate Taken(k: nat, s: Snapshot, s': Snapshot, offset: nat, canUdp: bool) {
    exists r, scan, at {:trigger TakenAs(k, s, s', offset, canUdp, r, scan, at)} ::
      TakenAs(k, s, s', offset, canUdp, r, scan, at)
  }

  ghost predicate TakenAs(k: nat, s: Snapshot, s': Snapshot, offset: nat, canUdp: bool,
                          r: GroResult, scan: Option<CoalesceResult>, at: nat) {
    && s'.toWrite == (if r == Coalesced then s.toWrite else s.toWrite + [k])
    && s'.hdrs == (if r == Noop then s.hdrs[k := Plain] else s.hdrs)
    && Dispatched(k, s, s'.(toWrite := s.toWrite, hdrs := s.hdrs), offset, canUdp, r, scan, at)
  }

  lemma Listed(k: nat, s: Snapshot, m: Snapshot, offset: nat, canUdp: bool, r: GroResult, scan: Option<CoalesceResult>,
               at: nat)
    requires Dispatched(k, s, m, offset, canUdp, r, scan, at)
    ensures Taken(k, s, m.(toWrite := if r == Coalesced then s.toWrite else s.toWrite + [k],
                           hdrs := if r == Noop then s.hdrs[k := Plain] else s.hdrs), offset, canUdp)
  {
    hide TcpDone, UdpDone, Classify;
    var s' := m.(toWrite := if r == Coalesced then s.toWrite else s.toWrite + [k],
                 hdrs := if r == Noop then s.hdrs[k := Plain] else s.hdrs);
    assert s'.(toWrite := s.toWrite, hdrs := s.hdrs) == m;
    assert TakenAs(k, s, s', offset, canUdp, r, scan, at);
  }

  /** The moments of a pass, one after each packet. */
  ghost predicate PassOver(states: seq<Snapshot>, offset: nat, canUdp: bool) {
    forall k {:trigger states[k]} :: 0 <= k < |states| - 1 ==> Taken(k, states[k], states[k + 1], offset, canUdp)
  }

  /** What tcpGRO answers and does to buffers and table, given how the scan of the flow ended. */
  ghost predicate TcpDone(k: nat, bufs: seq<Buf>, bufs': seq<Buf>, tcp: TcpTable, tcp': TcpTable, offset: nat,
                          r: GroResult, scan: Option<CoalesceResult>, at: nat)
    requires k < |bufs|
  {
    match TcpMetaOf(bufs[k].pkt)
    case None => r == Noop && tcp' == tcp && bufs' == bufs
    case Some(m) =>
      && Scanned(bufs[k], m, ItemsOf(tcp, m.key), bufs, offset, scan, at) && at <= |ItemsOf(tcp, m.key)|
      && (if scan == Some(Success) then
            at < |ItemsOf(tcp, m.key)| && bufs' == BufsAfter(bufs, k, m, ItemsOf(tcp, m.key)[at])
          else bufs' == bufs)
      && var left := AfterScan(bufs[k], m, ItemsOf(tcp, m.key), bufs, offset, scan, at);
      && match scan
         case Some(Success) => r == Coalesced && tcp' == tcp[m.key := left]
         case Some(PktInvalidCSum) => r == Noop && tcp' == tcp[m.key := left]
         case _ => r == TableInsert && tcp' == tcp[m.key := left + [NewTcpItem(k, m)]]
  }

  /** The scan goes on after this outcome. */
  predicate GoesOn(o: Option<CoalesceResult>) {
    o != Some(Success) && o != Some(PktInvalidCSum)
  }

  /** Items from `at` on have been visited, the last of them with outcome r; the scan went on before that. */
  ghost predicate Scanning(own: Buf, m: TcpMeta, items: seq<TcpItem>, bufs: seq<Buf>, offset: nat,
                           r: Option<CoalesceResult>, at: nat) {
    && at <= |items|
    && (forall i {:trigger items[i]} :: at < i < |items| ==> GoesOn(Outcome(own, m, items[i], bufs, offset)))
    && r == if at < |items| then Outcome(own, m, items[at], bufs, offset) else None
  }

  /** The scan is over: it was stopped at item `at`, or has visited all items. */
  ghost predicate Scanned(own: Buf, m: TcpMeta, items: seq<TcpItem>, bufs: seq<Buf>, offset: nat,
                          r: Option<CoalesceResult>, at: nat) {
    Scanning(own, m, items, bufs, offset, r, at) && (GoesOn(r) ==> at == 0)
  }

  /** The items whose own checksum was not found to be wrong. */
  ghost function Remaining(own: Buf, m: TcpMeta, items: seq<TcpItem>, bufs: seq<Buf>, offset: nat): seq<TcpItem> {
    if items == [] then []
    else (if Outcome(own, m, items[0], bufs, offset) == Some(ItemInvalidCSum) then [] else [items[0]])
         + Remaining(own, m, items[1..], bufs, offset)
  }

  /** What is left of the flow's items after a scan. */
  ghost function AfterScan(own: Buf, m: TcpMeta, items: seq<TcpItem>, bufs: seq<Buf>, offset: nat,
                           r: Option<CoalesceResult>, at: nat): seq<TcpItem>
    requires at <= |items|
  {
    if r == Some(Success) && at < |items| then
      items[..at] + [MergedItem(Mode(own.pkt, m, items[at], bufs), items[at], m)]
      + Remaining(own, m, items[at + 1..], bufs, offset)
    else
      items[..at] + Remaining(own, m, items[at..], bufs, offset)
  }

  lemma ScanStep(own: Buf, m: TcpMeta, items: seq<TcpItem>, bufs: seq<Buf>, offset: nat,
                 r0: Option<CoalesceResult>, r: Option<CoalesceResult>, at: nat)
    requires at < |items| && Scanning(own, m, items, bufs, offset, r0, at + 1) && GoesOn(r0)
    requires r == Outcome(own, m, items[at], bufs, offset)
    ensures Scanning(own, m, items, bufs, offset, r, at)
    ensures var before := AfterScan(own, m, items, bufs, offset, r0, at + 1);
            && at < |before| && before[at] == items[at]
            && AfterScan(own, m, items, bufs, offset, r, at)
               == match r
                  case Some(Success) => before[at := MergedItem(Mode(own.pkt, m, items[at], bufs), items[at], m)]
                  case Some(ItemInvalidCSum) => RemoveAt(before, at)
                  case _ => before
  {
    hide Outcome, Mode, MergedItem;
    var rest := Remaining(own, m, items[at + 1..], bufs, offset);
    assert items[at..][1..] == items[at + 1..];
    assert items[..at + 1] == items[..at] + [items[at]];
    Middle(items[..at], items[at], rest, MergedItem(Mode(own.pkt, m, items[at], bufs), items[at], m));
  }

  lemma ScanStart(own: Buf, m: TcpMeta, items: seq<TcpItem>, bufs: seq<Buf>, offset: nat)
    ensures Scanning(own, m, items, bufs, offset, None, |items|)
    ensures AfterScan(own, m, items, bufs, offset, None, |items|) == items
  {
    assert items[..|items|] + [] == items;
  }

  /** The item that the scan visits next is still where it was. */
  lemma ScanNext(own: Buf, m: TcpMeta, items: seq<TcpItem>, bufs: seq<Buf>, offset: nat,
                 r: Option<CoalesceResult>, at: nat)
    requires 0 < at <= |items| && GoesOn(r)
    ensures |AfterScan(own, m, items, bufs, offset, r, at)| >= at
    ensures AfterScan(own, m, items, bufs, offset, r, at)[at - 1] == items[at - 1]
  {}

  lemma Middle<T>(a: seq<T>, y: T, r: seq<T>, x: T)
    ensures (a + [y] + r)[|a|] == y && (a + [y] + r)[|a| := x] == a + [x] + r
    ensures RemoveAt(a + [y] + r, |a|) == a + r && a + ([y] + r) == a + [y] + r
  {}

  lemma EmptyScan(own: Buf, m: TcpMeta, bufs: seq<Buf>, offset: nat)
    ensures Scanned(own, m, [], bufs, offset, None, 0) && AfterScan(own, m, [], bufs, offset, None, 0) == []
  {}

  /** The table after the packet has been compared with item i. */
  function AfterVisit(tcp: TcpTable, m: TcpMeta, i: nat, r: Option<CoalesceResult>, mode: CanCoalesce): TcpTable
    requires m.key in tcp && i < |tcp[m.key]|
  {
    var items := tcp[m.key];
    match r
    case Some(Success) => tcp[m.key := items[i := MergedItem(mode, items[i], m)]]
    case Some(ItemInvalidCSum) => tcp[m.key := RemoveAt(items, i)]
    case _ => tcp
  }

  /** Either kind of merge keeps the invariant. */
  lemma StepTcpMerge(mode: CanCoalesce, bufs: seq<Buf>, tcp: TcpTable, udp: UdpTable, toWrite: seq<nat>, t: Trace,
                     env: Env, m: TcpMeta, i: nat, item': TcpItem, bufs': seq<Buf>, tcp': TcpTable, t': Trace)
    requires Inv(bufs, tcp, udp, toWrite, t, env) && |t.owner| < |bufs| && m.key in tcp && i < |tcp[m.key]|
    requires TcpMetaOf(bufs[|t.owner|].pkt) == Some(m)
    requires Comparable(bufs[|t.owner|].pkt, m, tcp[m.key][i], bufs) && m.tcphLen == tcp[m.key][i].tcphLen
    requires mode == Mode(bufs[|t.owner|].pkt, m, tcp[m.key][i], bufs)
    requires Outcome(bufs[|t.owner|], m, tcp[m.key][i], bufs, env.offset) == Some(Success)
    requires bufs' == MergedBufs(mode, bufs, |t.owner|, m, tcp[m.key][i])
    requires item' == MergedItem(mode, tcp[m.key][i], m) && tcp' == tcp[m.key := tcp[m.key][i := item']]
    requires t' == MergedTrace(mode, t, m, tcp[m.key][i].bufsIndex)
    ensures Inv(bufs', tcp', udp, toWrite, t', env) && |t'.owner| == |t.owner| + 1
  {
    if mode == Append {
      StepTcpAppend(bufs, tcp, udp, toWrite, t, env, m, i, bufs', tcp', t');
    } else {
      StepTcpPrepend(bufs, tcp, udp, toWrite, t, env, m, i, bufs', tcp', t');
    }
  }

  /** Items of the packet's flow can be compared with it. */
  lemma ItemComparable(bufs: seq<Buf>, tcp: TcpTable, udp: UdpTable, toWrite: seq<nat>, t: Trace, env: Env,
                       m: TcpMeta, i: nat)
    requires Inv(bufs, tcp, udp, toWrite, t, env) && m.key in tcp && i < |tcp[m.key]|
    requires |t.owner| < |bufs| && TcpMetaOf(bufs[|t.owner|].pkt) == Some(m)
    ensures Comparable(bufs[|t.owner|].pkt, m, tcp[m.key][i], bufs)
    ensures tcp[m.key][i].bufsIndex in t.groups
    ensures tcp[m.key][i].bufsIndex < |t.owner| && |bufs[tcp[m.key][i].bufsIndex].pkt| <= MAX_PACKET
    ensures tcp[m.key][i].iphLen == if m.key.isV6 then 40 else 20
    ensures |bufs[|t.owner|].pkt| <= MAX_PACKET
  {
    ItemFacts(bufs, tcp, toWrite, t, env, m.key, i);
    TcpMetaFacts(bufs[|t.owner|].pkt, m);
  }

  lemma CanFacts(pkt: seq<Byte>, m: TcpMeta, item: TcpItem, target: seq<Byte>)
    requires m.iphLen + m.tcphLen <= |pkt| && item.iphLen == m.iphLen
    requires item.iphLen + item.tcphLen <= |target| && item.gsoSize > 0
    requires TcpCanCoalesce(pkt, m, item, target) != Unavailable
    ensures m.tcphLen == item.tcphLen
    ensures TcpCanCoalesce(pkt, m, item, target) == Append ==> m.gsoSize <= item.gsoSize
  {}

  lemma MergedTcpOwner(mode: CanCoalesce, t: Trace, m: TcpMeta, w: nat)
    requires w in t.groups
    ensures MergedTrace(mode, t, m, w).owner == t.owner + [w]
  {}

  lemma MergedUdpOwner(t: Trace, w: nat, key: UdpKey)
    requires w in t.groups
    ensures UdpMergedTrace(t, w, key).owner == t.owner + [w]
  {}

  lemma PassStart(states: seq<Snapshot>, offset: nat, canUdp: bool)
    requires |states| == 1
    ensures PassOver(states, offset, canUdp)
  {}

  lemma PassOn(states: seq<Snapshot>, s: Snapshot, offset: nat, canUdp: bool)
    requires states != [] && PassOver(states, offset, canUdp)
    requires Taken(|states| - 1, states[|states| - 1], s, offset, canUdp)
    ensures PassOver(states + [s], offset, canUdp)
  {
    hide Taken;
    var more := states + [s];
    forall k | 0 <= k < |more| - 1 ensures Taken(k, more[k], more[k + 1], offset, canUdp) {
      if k < |states| - 1 { assert more[k] == states[k] && more[k + 1] == states[k + 1]; }
    }
  }
}

/** Which turn of a pass drops which item, so that its packet is written without a virtio header. */
module GroLosses {
  import opened Wrappers
  import opened Bytes
  import opened GroState
  import opened GroRules
  import opened GroTables
  import opened GroSteps
  import opened GroTcpSteps
  import opened GroTcpMerge
  import opened GroUdpSteps
  import opened GroAccount
  import opened GroOutcomes
  import opened GroHeaders

  /** The scan for a packet gets as far as item j of its flow, and finds that item corrupt. */
  ghost predicate FindsItem(own: Buf, m: TcpMeta, items: seq<TcpItem>, j: nat, bufs: seq<Buf>, offset: nat) {
    && j < |items| && Outcome(own, m, items[j], bufs, offset) == Some(ItemInvalidCSum)
    && forall l {:trigger items[l]} :: j < l < |items| ==> GoesOn(Outcome(own, m, items[l], bufs, offset))
  }

  /** In turn k the item of buffer w is found corrupt. */
  ghost predicate DropsAt(s: Snapshot, k: nat, w: nat, offset: nat) {
    && k < |s.bufs|
    && match TcpMetaOf(s.bufs[k].pkt)
       case None => false
       case Some(m) => m.key in s.tcp && FoundIn(s.bufs[k], m, s.tcp[m.key], w, s.bufs, offset)
  }

  ghost predicate FoundIn(own: Buf, m: TcpMeta, items: seq<TcpItem>, w: nat, bufs: seq<Buf>, offset: nat) {
    exists j: nat :: j < |items| && FindsItem(own, m, items, j, bufs, offset) && items[j].bufsIndex == w
  }

  // ----- one scan

  lemma SlotsConcat(a: seq<TcpItem>, b: seq<TcpItem>)
    ensures TcpSlots(a + b) == TcpSlots(a) + TcpSlots(b)
  {
    forall w | w in TcpSlots(a) + TcpSlots(b) ensures w in TcpSlots(a + b) {
      if w in TcpSlots(a) {
        var j :| 0 <= j < |a| && a[j].bufsIndex == w;
        assert (a + b)[j].bufsIndex == w;
      } else {
        var j :| 0 <= j < |b| && b[j].bufsIndex == w;
        assert (a + b)[|a| + j].bufsIndex == w;
      }
    }
  }

  lemma {:induction false} RemainingHas(own: Buf, m: TcpMeta, items: seq<TcpItem>, bufs: seq<Buf>, offset: nat, j: nat)
    requires j < |items| && Outcome(own, m, items[j], bufs, offset) != Some(ItemInvalidCSum)
    ensures items[j].bufsIndex in TcpSlots(Remaining(own, m, items, bufs, offset))
  {
    hide Outcome, TcpSlots;
    var head := if Outcome(own, m, items[0], bufs, offset) == Some(ItemInvalidCSum) then [] else [items[0]];
    SlotsConcat(head, Remaining(own, m, items[1..], bufs, offset));
    if j == 0 {
      ItemSlot(head, 0);
    } else {
      RemainingHas(own, m, items[1..], bufs, offset, j - 1);
    }
  }

  lemma {:induction false} RemainingFrom(own: Buf, m: TcpMeta, items: seq<TcpItem>, bufs: seq<Buf>, offset: nat, w: nat)
    returns (j: nat)
    requires w in TcpSlots(Remaining(own, m, items, bufs, offset))
    ensures j < |items| && items[j].bufsIndex == w && Outcome(own, m, items[j], bufs, offset) != Some(ItemInvalidCSum)
  {
    hide Outcome;
    var rest := Remaining(own, m, items[1..], bufs, offset);
    var head := if Outcome(own, m, items[0], bufs, offset) == Some(ItemInvalidCSum) then [] else [items[0]];
    SlotsConcat(head, rest);
    if w in TcpSlots(rest) {
      j := RemainingFrom(own, m, items[1..], bufs, offset, w);
      j := j + 1;
    } else {
      j := 0;
    }
  }

  ghost predicate Apart(items: seq<TcpItem>) {
    forall i, j :: 0 <= i < j < |items| ==> items[i].bufsIndex != items[j].bufsIndex
  }

  /** An item is gone after the scan exactly when the scan found it corrupt. */
  lemma ItemFate(own: Buf, m: TcpMeta, items: seq<TcpItem>, bufs: seq<Buf>, offset: nat,
                 r: Option<CoalesceResult>, at: nat, j: nat)
    requires Scanned(own, m, items, bufs, offset, r, at) && at <= |items| && j < |items| && Apart(items)
    ensures items[j].bufsIndex in TcpSlots(AfterScan(own, m, items, bufs, offset, r, at))
            <==> !FindsItem(own, m, items, j, bufs, offset)
  {
    hide Outcome, TcpSlots, Remaining, Mode, MergedItem;
    if FindsItem(own, m, items, j, bufs, offset) {
      FoundGoes(own, m, items, bufs, offset, r, at, j);
    } else {
      OtherStays(own, m, items, bufs, offset, r, at, j);
    }
  }

  lemma OtherStays(own: Buf, m: TcpMeta, items: seq<TcpItem>, bufs: seq<Buf>, offset: nat,
                   r: Option<CoalesceResult>, at: nat, j: nat)
    requires Scanned(own, m, items, bufs, offset, r, at) && at <= |items| && j < |items|
    requires !FindsItem(own, m, items, j, bufs, offset)
    ensures items[j].bufsIndex in TcpSlots(AfterScan(own, m, items, bufs, offset, r, at))
  {
    hide Outcome, TcpSlots, Remaining, Mode;
    AfterParts(own, m, items, bufs, offset, r, at);
    if j < at {
      ItemSlot(items[..at], j);
    } else if r == Some(Success) && j == at {
      ItemSlot([MergedItem(Mode(own.pkt, m, items[at], bufs), items[at], m)], 0);
    } else if r == Some(Success) {
      RemainingHas(own, m, items[at + 1..], bufs, offset, j - at - 1);
    } else {
      RemainingHas(own, m, items[at..], bufs, offset, j - at);
    }
  }

  /** The slots of what is left, part by part. */
  lemma AfterParts(own: Buf, m: TcpMeta, items: seq<TcpItem>, bufs: seq<Buf>, offset: nat,
                   r: Option<CoalesceResult>, at: nat)
    requires at <= |items|
    ensures var slots := TcpSlots(AfterScan(own, m, items, bufs, offset, r, at));
            if r == Some(Success) && at < |items| then
              slots == TcpSlots(items[..at]) + TcpSlots([MergedItem(Mode(own.pkt, m, items[at], bufs), items[at], m)])
                       + TcpSlots(Remaining(own, m, items[at + 1..], bufs, offset))
            else
              slots == TcpSlots(items[..at]) + TcpSlots(Remaining(own, m, items[at..], bufs, offset))
  {
    hide TcpSlots, Remaining, Mode, MergedItem;
    if r == Some(Success) && at < |items| {
      var merged := [MergedItem(Mode(own.pkt, m, items[at], bufs), items[at], m)];
      SlotsConcat(items[..at] + merged, Remaining(own, m, items[at + 1..], bufs, offset));
      SlotsConcat(items[..at], merged);
    } else {
      SlotsConcat(items[..at], Remaining(own, m, items[at..], bufs, offset));
    }
  }

  lemma FoundGoes(own: Buf, m: TcpMeta, items: seq<TcpItem>, bufs: seq<Buf>, offset: nat,
                  r: Option<CoalesceResult>, at: nat, j: nat)
    requires Scanned(own, m, items, bufs, offset, r, at) && at <= |items| && Apart(items)
    requires FindsItem(own, m, items, j, bufs, offset)
    ensures items[j].bufsIndex !in TcpSlots(AfterScan(own, m, items, bufs, offset, r, at))
  {
    hide Outcome, Remaining, Mode;
    var w := items[j].bufsIndex;
    AfterParts(own, m, items, bufs, offset, r, at);
    assert j >= at;
    if r == Some(Success) && at < |items| {
      NotRemaining(own, m, items, bufs, offset, at + 1, j);
    } else {
      NotRemaining(own, m, items, bufs, offset, at, j);
    }
  }

  lemma RemainingWithin(own: Buf, m: TcpMeta, items: seq<TcpItem>, bufs: seq<Buf>, offset: nat, from: nat, w: nat)
    requires from <= |items|
    ensures w in TcpSlots(Remaining(own, m, items[from..], bufs, offset)) ==>
      exists l {:trigger items[l]} :: from <= l < |items| && items[l].bufsIndex == w
                                      && Outcome(own, m, items[l], bufs, offset) != Some(ItemInvalidCSum)
  {
    hide Outcome, Remaining, TcpSlots;
    if w in TcpSlots(Remaining(own, m, items[from..], bufs, offset)) {
      var l := RemainingFrom(own, m, items[from..], bufs, offset, w);
      assert items[from..][l] == items[from + l];
    }
  }

  lemma NotRemaining(own: Buf, m: TcpMeta, items: seq<TcpItem>, bufs: seq<Buf>, offset: nat, from: nat, j: nat)
    requires from <= |items| && j < |items| && Apart(items)
    requires Outcome(own, m, items[j], bufs, offset) == Some(ItemInvalidCSum)
    ensures items[j].bufsIndex !in TcpSlots(Remaining(own, m, items[from..], bufs, offset))
  {
    hide Outcome, Remaining, TcpSlots;
    RemainingWithin(own, m, items, bufs, offset, from, items[j].bufsIndex);
  }

  // ----- one turn

  ghost predicate InTcpTable(tcp: TcpTable, w: nat) { exists key :: key in tcp && w in TcpSlots(tcp[key]) }

  ghost predicate InUdpTable(udp: UdpTable, w: nat) { exists key :: key in udp && w in UdpSlots(udp[key]) }

  /** The buffer is listed, but it has neither a header nor an item that would get it one. */
  ghost predicate Lost(s: Snapshot, w: nat) {
    w in s.toWrite && w !in s.hdrs && !InTcpTable(s.tcp, w) && !InUdpTable(s.udp, w)
  }

  ghost predicate OneFlow(tcp: TcpTable, w: nat) {
    forall key, other :: key in tcp && other in tcp && w in TcpSlots(tcp[key]) && w in TcpSlots(tcp[other]) ==>
      key == other
  }

  /** An item's buffer is listed without a header, and no item of another flow has it. */
  ghost predicate SlotApart(s: Snapshot, w: nat) {
    && OneFlow(s.tcp, w)
    && (InTcpTable(s.tcp, w) ==> w in s.toWrite && w !in s.hdrs && !InUdpTable(s.udp, w))
    && (InUdpTable(s.udp, w) ==> w in s.toWrite)
  }

  ghost predicate ItemsApart(s: Snapshot) {
    && (forall key :: key in s.tcp ==> Apart(s.tcp[key]))
    && (forall w: nat :: SlotApart(s, w))
  }

  lemma ItemsAreApart(s: Snapshot, t: Trace, env: Env)
    requires Inv(s.bufs, s.tcp, s.udp, s.toWrite, t, env) && OnlyPlain(s.hdrs, t.groups)
    ensures ItemsApart(s)
  {
    hide Inv, OnlyPlain, Apart, SlotApart;
    forall w: nat ensures SlotApart(s, w) { SlotIsApart(s, t, env, w); }
    forall key | key in s.tcp ensures Apart(s.tcp[key]) { FlowApart(s, t, env, key); }
  }

  lemma SlotIsApart(s: Snapshot, t: Trace, env: Env, w: nat)
    requires Inv(s.bufs, s.tcp, s.udp, s.toWrite, t, env) && OnlyPlain(s.hdrs, t.groups)
    ensures SlotApart(s, w)
  {
    hide Inv, OnlyPlain, TcpSlots, UdpSlots;
    NextIsNew(s.bufs, s.tcp, s.udp, s.toWrite, t, env);
    SlotTracked(s.bufs, s.tcp, s.udp, s.toWrite, t, env, w);
    PlainIsLoose(s.hdrs, t.groups, w);
  }

  lemma PlainIsLoose(hdrs: map<nat, Written>, groups: Groups, w: nat)
    requires OnlyPlain(hdrs, groups)
    ensures w in hdrs ==> w in groups && groups[w].tracking == Loose
  {}

  lemma FlowApart(s: Snapshot, t: Trace, env: Env, key: TcpKey)
    requires Inv(s.bufs, s.tcp, s.udp, s.toWrite, t, env) && key in s.tcp
    ensures Apart(s.tcp[key])
  {
    hide UdpTableOk, TraceTrue, GroupsVerified, Conserved;
    assert TcpItemsOk(key, s.tcp[key], t.groups, env.input, t.metas);
  }

  /** The lost buffers are those whose groups the trace has as dropped. */
  lemma LostIffDropped(s: Snapshot, t: Trace, env: Env, w: nat)
    requires Inv(s.bufs, s.tcp, s.udp, s.toWrite, t, env) && OnlyPlain(s.hdrs, t.groups)
    requires Tracks(s.tcp, s.udp, t.groups, env.input)
    ensures Lost(s, w) <==> w in t.groups && WasDropped(t.groups[w])
  {
    hide Inv, TcpSlots, UdpSlots, DroppedCorrupt;
    NextIsNew(s.bufs, s.tcp, s.udp, s.toWrite, t, env);
    SlotTracked(s.bufs, s.tcp, s.udp, s.toWrite, t, env, w);
    if w in t.groups { assert Covered(w, t.groups[w], s.tcp, s.udp); }
  }

  /** What a turn does to the items that were there before. */
  lemma TcpTurn(k: nat, s: Snapshot, s': Snapshot, offset: nat, canUdp: bool, w: nat)
    requires Taken(k, s, s', offset, canUdp) && ItemsApart(s) && k < |s.bufs| && w != k
    ensures InTcpTable(s'.tcp, w) <==> InTcpTable(s.tcp, w) && !DropsAt(s, k, w, offset)
  {
    hide Outcome, BufsAfter, ParseTcp, ParseUdp, UdpDone, Mode, Scanned, AfterScan, TcpSlots, FindsItem;
    var r, scan, at :| TakenAs(k, s, s', offset, canUdp, r, scan, at);
    Kinds(s.bufs[k].pkt, canUdp);
    TcpKinds(s.bufs[k].pkt, canUdp);
    match TcpMetaOf(s.bufs[k].pkt)
    case None =>
    case Some(m) =>
      var left := AfterScan(s.bufs[k], m, ItemsOf(s.tcp, m.key), s.bufs, offset, scan, at);
      FlowTurn(s.bufs[k], m, ItemsOf(s.tcp, m.key), s.bufs, offset, scan, at, w);
      SlotAdded(left, NewTcpItem(k, m));
      NoSlots();
      FlowChanged(s, s'.tcp, m.key, w, FoundIn(s.bufs[k], m, ItemsOf(s.tcp, m.key), w, s.bufs, offset));
      NothingFound(s.bufs[k], m, w, s.bufs, offset);
  }

  lemma TcpKinds(pkt: seq<Byte>, canUdp: bool)
    ensures Classify(pkt, canUdp) in {Tcp4, Tcp6} <==> Classify(pkt, false) in {Tcp4, Tcp6}
    ensures Classify(pkt, false) !in {Tcp4, Tcp6} ==> TcpMetaOf(pkt) == None
  {}

  lemma NoSlots()
    ensures TcpSlots([]) == {}
  {}

  lemma NothingFound(own: Buf, m: TcpMeta, w: nat, bufs: seq<Buf>, offset: nat)
    ensures !FoundIn(own, m, [], w, bufs, offset)
  {}

  /** Only the items of one flow change, and there w stays unless it was found. */
  lemma FlowChanged(s: Snapshot, tcp': TcpTable, key: TcpKey, w: nat, found: bool)
    requires ItemsApart(s) && key in tcp' && tcp' == s.tcp[key := tcp'[key]]
    requires w in TcpSlots(tcp'[key]) <==> w in TcpSlots(ItemsOf(s.tcp, key)) && !found
    requires found ==> w in TcpSlots(ItemsOf(s.tcp, key))
    requires TcpSlots([]) == {}
    ensures InTcpTable(tcp', w) <==> InTcpTable(s.tcp, w) && !(key in s.tcp && found)
  {
    hide TcpSlots, Apart;
    assert SlotApart(s, w);
    if w in TcpSlots(tcp'[key]) { assert key in s.tcp && InTcpTable(s.tcp, w); }
    if InTcpTable(s.tcp, w) && !found {
      var other :| other in s.tcp && w in TcpSlots(s.tcp[other]);
      if other != key { assert other in tcp' && tcp'[other] == s.tcp[other]; }
    }
  }

  lemma FlowTurn(own: Buf, m: TcpMeta, items: seq<TcpItem>, bufs: seq<Buf>, offset: nat,
                 r: Option<CoalesceResult>, at: nat, w: nat)
    requires Scanned(own, m, items, bufs, offset, r, at) && at <= |items| && Apart(items)
    ensures w in TcpSlots(AfterScan(own, m, items, bufs, offset, r, at))
            <==> w in TcpSlots(items) && !FoundIn(own, m, items, w, bufs, offset)
    ensures FoundIn(own, m, items, w, bufs, offset) ==> w in TcpSlots(items)
  {
    hide Outcome, Scanned, AfterScan, FindsItem;
    if w in TcpSlots(items) {
      var j :| 0 <= j < |items| && items[j].bufsIndex == w;
      ItemFate(own, m, items, bufs, offset, r, at, j);
      if FoundIn(own, m, items, w, bufs, offset) {
        var l: nat :| l < |items| && FindsItem(own, m, items, l, bufs, offset) && items[l].bufsIndex == w;
        assert l == j;
      }
    } else {
      AfterWithin(own, m, items, bufs, offset, r, at);
    }
  }

  /** A scan adds no buffers. */
  lemma AfterWithin(own: Buf, m: TcpMeta, items: seq<TcpItem>, bufs: seq<Buf>, offset: nat, r: Option<CoalesceResult>,
                    at: nat)
    requires at <= |items|
    ensures TcpSlots(AfterScan(own, m, items, bufs, offset, r, at)) <= TcpSlots(items)
  {
    hide Outcome, Remaining, Mode;
    AfterParts(own, m, items, bufs, offset, r, at);
    var from := if r == Some(Success) && at < |items| then at + 1 else at;
    forall w | w in TcpSlots(Remaining(own, m, items[from..], bufs, offset)) ensures w in TcpSlots(items) {
      RemainingWithin(own, m, items, bufs, offset, from, w);
    }
  }

  lemma UdpTurn(k: nat, s: Snapshot, s': Snapshot, offset: nat, canUdp: bool, w: nat)
    requires Taken(k, s, s', offset, canUdp) && k < |s.bufs| && w != k
    ensures InUdpTable(s'.udp, w) <==> InUdpTable(s.udp, w)
  {
    hide UdpOutcome, UdpBufsAfter, ParseTcp, ParseUdp, TcpDone, UdpSlots;
    var r, scan, at :| TakenAs(k, s, s', offset, canUdp, r, scan, at);
    match UdpMetaOf(s.bufs[k].pkt, canUdp)
    case None => Kinds(s.bufs[k].pkt, canUdp);
    case Some(m) =>
      var items := Datagrams(s.udp, m.key);
      UdpSlotAdded(items, NewUdpItem(k, m, true));
      UdpSlotAdded(items, NewUdpItem(k, m, false));
      if items != [] { UdpSlotKept(items, |items| - 1, Extended(Last(items))); }
      NoUdpSlots();
      UdpFlowChanged(s.udp, s'.udp, m.key, w);
  }

  lemma NoUdpSlots()
    ensures UdpSlots([]) == {}
  {}

  lemma UdpFlowChanged(udp: UdpTable, udp': UdpTable, key: UdpKey, w: nat)
    requires udp' == udp || (key in udp' && udp' == udp[key := udp'[key]]
                             && (w in UdpSlots(udp'[key]) <==> w in UdpSlots(Datagrams(udp, key))))
    requires UdpSlots([]) == {}
    ensures InUdpTable(udp', w) <==> InUdpTable(udp, w)
  {
    hide UdpSlots;
    if InUdpTable(udp, w) {
      var other :| other in udp && w in UdpSlots(udp[other]);
      assert other in udp' && w in UdpSlots(udp'[other]);
    }
    if InUdpTable(udp', w) {
      var other :| other in udp' && w in UdpSlots(udp'[other]);
      assert other in udp && w in UdpSlots(udp[other]);
    }
  }

  /** Packet k itself is merged, gets its header, or has an item. */
  lemma OwnTurn(k: nat, s: Snapshot, s': Snapshot, offset: nat, canUdp: bool)
    requires Taken(k, s, s', offset, canUdp) && k < |s.bufs| && k !in s.toWrite
    ensures !Lost(s', k)
  {
    hide Outcome, BufsAfter, UdpOutcome, UdpBufsAfter, ParseTcp, ParseUdp, Mode, Scanned, AfterScan, TcpSlots, UdpSlots;
    var r, scan, at :| TakenAs(k, s, s', offset, canUdp, r, scan, at);
    Kinds(s.bufs[k].pkt, canUdp);
    TcpKinds(s.bufs[k].pkt, canUdp);
    if r == TableInsert && Classify(s.bufs[k].pkt, canUdp) in {Tcp4, Tcp6} {
      var m := TcpMetaOf(s.bufs[k].pkt).value;
      SlotAdded(AfterScan(s.bufs[k], m, ItemsOf(s.tcp, m.key), s.bufs, offset, scan, at), NewTcpItem(k, m));
      assert k in TcpSlots(s'.tcp[m.key]);
    } else if r == TableInsert {
      var m := UdpMetaOf(s.bufs[k].pkt, canUdp).value;
      UdpSlotAdded(Datagrams(s.udp, m.key), NewUdpItem(k, m, true));
      UdpSlotAdded(Datagrams(s.udp, m.key), NewUdpItem(k, m, false));
      assert k in UdpSlots(s'.udp[m.key]);
    }
  }

  lemma Listing(k: nat, s: Snapshot, s': Snapshot, offset: nat, canUdp: bool, w: nat)
    requires Taken(k, s, s', offset, canUdp) && w != k
    ensures w in s'.toWrite <==> w in s.toWrite
    ensures w in s'.hdrs <==> w in s.hdrs
  {
    hide Dispatched;
  }

  /** A turn loses exactly the buffers whose items it finds corrupt. */
  lemma TurnLoses(k: nat, s: Snapshot, s': Snapshot, offset: nat, canUdp: bool, w: nat)
    requires Taken(k, s, s', offset, canUdp) && ItemsApart(s) && k < |s.bufs| && k !in s.toWrite
    ensures Lost(s', w) <==> Lost(s, w) || DropsAt(s, k, w, offset)
  {
    hide Taken, ItemsApart, DropsAt, InTcpTable, InUdpTable, OneFlow;
    DropsOnlyItems(s, k, w, offset);
    SlotOf(s, w);
    if w == k {
      OwnTurn(k, s, s', offset, canUdp);
    } else {
      TcpTurn(k, s, s', offset, canUdp, w);
      UdpTurn(k, s, s', offset, canUdp, w);
      Listing(k, s, s', offset, canUdp, w);
    }
  }

  lemma SlotOf(s: Snapshot, w: nat)
    requires ItemsApart(s)
    ensures SlotApart(s, w)
  {}

  lemma DropsOnlyItems(s: Snapshot, k: nat, w: nat, offset: nat)
    ensures DropsAt(s, k, w, offset) ==> InTcpTable(s.tcp, w)
  {
    hide Outcome, TcpMetaOf;
  }

  // ----- the whole pass

  /** Some turn so far has found the item of buffer w corrupt. */
  ghost predicate DroppedBy(states: seq<Snapshot>, n: nat, w: nat, offset: nat) {
    n <= |states| && exists k {:trigger states[k]} :: 0 <= k < n && DropsAt(states[k], k, w, offset)
  }

  /** The buffers that are lost are those dropped in some turn. */
  ghost predicate LossesTold(states: seq<Snapshot>, n: nat, s: Snapshot, offset: nat) {
    forall w: nat :: Lost(s, w) <==> DroppedBy(states, n, w, offset)
  }

  lemma NothingLost(states: seq<Snapshot>, s: Snapshot, offset: nat)
    requires forall w :: w !in s.toWrite
    ensures LossesTold(states, 0, s, offset)
  {}

  lemma LossesTurn(states: seq<Snapshot>, k: nat, s': Snapshot, offset: nat, canUdp: bool)
    requires |states| == k + 1 && LossesTold(states, k, states[k], offset)
    requires Taken(k, states[k], s', offset, canUdp) && ItemsApart(states[k]) && k < |states[k].bufs|
    requires k !in states[k].toWrite
    ensures LossesTold(states + [s'], k + 1, s', offset)
  {
    hide Taken, ItemsApart, Lost, DropsAt;
    var more := states + [s'];
    forall w: nat ensures Lost(s', w) <==> DroppedBy(more, k + 1, w, offset) {
      TurnLoses(k, states[k], s', offset, canUdp, w);
      assert Lost(states[k], w) <==> DroppedBy(states, k, w, offset);
      if DroppedBy(states, k, w, offset) {
        var l :| 0 <= l < k && DropsAt(states[l], l, w, offset);
        assert more[l] == states[l];
      }
      if DropsAt(states[k], k, w, offset) { assert more[k] == states[k]; }
      if DroppedBy(more, k + 1, w, offset) {
        var l :| 0 <= l < k + 1 && DropsAt(more[l], l, w, offset);
        assert more[l] == states[l];
      }
    }
  }

  /** A listed buffer has no header after the pass exactly when some turn found its item corrupt. */
  ghost predicate HeadersTold(states: seq<Snapshot>, n: nat, toWrite: seq<nat>, hdrs: map<nat, Written>, offset: nat) {
    forall w: nat {:trigger w in toWrite} :: w in toWrite && w !in hdrs <==> DroppedBy(states, n, w, offset)
  }

  lemma PassTold(states: seq<Snapshot>, n: nat, s: Snapshot, hdrs: map<nat, Written>, t: Trace, env: Env)
    requires LossesTold(states, n, s, env.offset) && Headed(hdrs, s.toWrite, t.groups, |s.bufs|)
    requires Inv(s.bufs, s.tcp, s.udp, s.toWrite, t, env) && OnlyPlain(s.hdrs, t.groups)
    requires Tracks(s.tcp, s.udp, t.groups, env.input)
    ensures HeadersTold(states, n, s.toWrite, hdrs, env.offset)
  {
    hide Inv, OnlyPlain, Tracks, Lost, DroppedBy;
    NextIsNew(s.bufs, s.tcp, s.udp, s.toWrite, t, env);
    forall w: nat ensures w in s.toWrite && w !in hdrs <==> DroppedBy(states, n, w, env.offset) {
      LostIffDropped(s, t, env, w);
      assert Lost(s, w) <==> DroppedBy(states, n, w, env.offset);
    }
  }
}

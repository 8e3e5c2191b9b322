/** UDP segmentation offload on the socket side: coalescing datagrams into messages, and splitting messages in place. */
module UdpBatch {
  import opened Wrappers
  import opened Bytes
  import opened Gso
  import opened GroState

  const MAX_IPV4_PAYLOAD: nat := TWO16 - 1 - 20 - 8
  const MAX_IPV6_PAYLOAD: nat := TWO16 - 1 - 8
  const MAX_DATAGRAMS := 64
  const MAX_SEGMENT_SIZE := 65535

  function MaxPayload(is6: bool): (r: nat)
    ensures r < TWO16
  {
    if is6 then MAX_IPV6_PAYLOAD else MAX_IPV4_PAYLOAD
  }

  /** An outgoing message: Buffers[0], its capacity, and the segment size in its control data. */
  datatype Message = Message(data: seq<Byte>, cap: nat, gso: Option<Uint16>)

  /** The datagrams that a message stands for. */
  function Datagrams(data: seq<Byte>, gso: Option<Uint16>): seq<seq<Byte>> {
    if gso.Some? && gso.value > 0 then Cut(data, gso.value) else [data]
  }

  function Sent(msgs: seq<Message>): seq<seq<Byte>> {
    if msgs == [] then []
    else Sent(msgs[..|msgs| - 1]) + Datagrams(msgs[|msgs| - 1].data, msgs[|msgs| - 1].gso)
  }

  function Contents(bufs: seq<Buf>): (r: seq<seq<Byte>>)
    ensures |r| == |bufs|
  {
    seq(|bufs|, i requires 0 <= i < |bufs| => bufs[i].pkt)
  }

  lemma ContentsMore(bufs: seq<Buf>, i: nat)
    requires i < |bufs|
    ensures Contents(bufs[..i + 1]) == Contents(bufs[..i]) + [bufs[i].pkt]
  {}

  /**
    A message the kernel takes: at most 64 datagrams, within the payload limit when there are several,
    and a segment size that is no longer than the message.
   */
  ghost predicate Sendable(m: Message, maxPayload: nat) {
    var n := |Datagrams(m.data, m.gso)|;
    && 1 <= n <= MAX_DATAGRAMS && (n > 1 ==> |m.data| <= maxPayload && |m.data| <= m.cap)
    && 0 < |m.data| < TWO16 && (m.gso.Some? ==> 0 < m.gso.value <= |m.data|)
  }

  /** The first datagram of a message. */
  ghost predicate First(m: Message, p: seq<Byte>) {
    Datagrams(m.data, m.gso) != [] && Datagrams(m.data, m.gso)[0] == p
  }

  /** Datagram p could have gone into message m as well. */
  ghost predicate Joinable(m: Message, p: seq<Byte>, maxPayload: nat) {
    var ds := Datagrams(m.data, m.gso);
    && ds != [] && |ds| < MAX_DATAGRAMS && |ds[|ds| - 1]| == |ds[0]|
    && |p| <= |ds[0]| && |m.data| + |p| <= maxPayload && |m.data| + |p| <= m.cap
  }

  /** Every message but the first was begun because its first datagram did not fit into the one before. */
  ghost predicate Greedy(msgs: seq<Message>, maxPayload: nat) {
    forall j {:trigger msgs[j]} :: 0 < j < |msgs| ==>
      Datagrams(msgs[j].data, msgs[j].gso) != []
      && !Joinable(msgs[j - 1], Datagrams(msgs[j].data, msgs[j].gso)[0], maxPayload)
  }

  lemma GreedyMore(msgs: seq<Message>, m: Message, p: seq<Byte>, maxPayload: nat)
    requires Greedy(msgs, maxPayload) && First(m, p)
    requires msgs != [] ==> !Joinable(msgs[|msgs| - 1], p, maxPayload)
    ensures Greedy(msgs + [m], maxPayload)
  {
    var all := msgs + [m];
    forall j | 0 < j < |all| ensures Datagrams(all[j].data, all[j].gso) != []
        && !Joinable(all[j - 1], Datagrams(all[j].data, all[j].gso)[0], maxPayload) {
      if j < |msgs| { assert all[j] == msgs[j]; }
    }
  }

  /** A datagram that was not appended could not have been. */
  lemma NotJoinable(m: Message, ps: seq<seq<Byte>>, g: nat, count: nat, endBatch: bool, maxPayload: nat, p: seq<Byte>)
    requires Filling(m.data, m.cap, ps, g, count, endBatch, maxPayload)
    requires Datagrams(m.data, m.gso) == ps
    requires !(|p| + |m.data| <= maxPayload && |p| <= g && |p| <= m.cap - |m.data|
               && count < MAX_DATAGRAMS && !endBatch)
    ensures !Joinable(m, p, maxPayload)
  {}

  /** The batch being filled: pieces of size g, the last one shorter only when nothing may follow. */
  ghost predicate Filling(data: seq<Byte>, cap: nat, ps: seq<seq<Byte>>, g: nat, count: nat, endBatch: bool,
                          maxPayload: nat)
  {
    && 1 <= |ps| == count <= MAX_DATAGRAMS && 0 < g < TWO16
    && data == Flatten(ps) && IsRun(ps, g)
    && |ps[0]| == g && (endBatch <==> |ps[|ps| - 1]| < g)
    && (count > 1 ==> |data| <= maxPayload && |data| <= cap)
    && (count == 1 ==> data == ps[0])
  }

  /** A closed batch stands for its pieces. */
  lemma Closed(m: Message, ps: seq<seq<Byte>>, g: nat, count: nat, endBatch: bool, maxPayload: nat)
    requires Filling(m.data, m.cap, ps, g, count, endBatch, maxPayload)
    requires m.gso == (if count > 1 then Some(g) else None) && maxPayload < TWO16
    ensures Datagrams(m.data, m.gso) == ps && Sendable(m, maxPayload) && First(m, ps[0])
  {
    CutOfRun(ps, g);
    assert ps == [ps[0]] + ps[1..];
    FlattenConcat([ps[0]], ps[1..]);
    FlattenOne(ps[0]);
  }

  lemma Filled(m: Message, ps: seq<seq<Byte>>, g: nat, count: nat, maxPayload: nat, p: seq<Byte>)
    requires Filling(m.data, m.cap, ps, g, count, false, maxPayload)
    requires 0 < |p| <= g && count < MAX_DATAGRAMS && |m.data| + |p| <= maxPayload && |m.data| + |p| <= m.cap
    ensures Filling(m.data + p, m.cap, ps + [p], g, count + 1, |p| < g, maxPayload)
  {
    FlattenConcat(ps, [p]);
    FlattenOne(p);
  }

  lemma Started(p: seq<Byte>, cap: nat, maxPayload: nat)
    requires 0 < |p| < TWO16
    ensures Filling(p, cap, [p], |p|, 1, false, maxPayload)
  {
    FlattenOne(p);
  }

  lemma NothingSent(maxPayload: nat)
    ensures Sent([]) == [] && Greedy([], maxPayload)
  {}

  lemma SentMore(msgs: seq<Message>, m: Message)
    ensures Sent(msgs + [m]) == Sent(msgs) + Datagrams(m.data, m.gso)
  {
    assert (msgs + [m])[..|msgs|] == msgs;
  }

  /** The segment size is stored when a batch holds several datagrams. */
  method CloseBatch(msgs: array<Message>, base: nat, gsoSize: Uint16, dgramCnt: nat,
                    ghost ps: seq<seq<Byte>>, ghost endBatch: bool, ghost maxPayload: nat)
    requires base < msgs.Length && msgs[base].gso == None && maxPayload < TWO16
    requires Filling(msgs[base].data, msgs[base].cap, ps, gsoSize, dgramCnt, endBatch, maxPayload) && ps != []
    modifies msgs
    ensures Sendable(msgs[base], maxPayload) && Datagrams(msgs[base].data, msgs[base].gso) == ps && ps != []
    ensures msgs[base].data == old(msgs[base].data) && msgs[base].cap == old(msgs[base].cap)
    ensures
      Greedy(old(msgs[..base]), maxPayload) && (base > 0 ==> !Joinable(old(msgs[base - 1]), ps[0], maxPayload)) ==>
      Greedy(msgs[..base + 1], maxPayload)
    ensures Sent(msgs[..base + 1]) == Sent(old(msgs[..base])) + ps
    ensures forall j :: 0 <= j < msgs.Length && j != base ==> msgs[j] == old(msgs[j])
  {
    hide Filling, Sendable, Sent, Datagrams, Joinable, Greedy, First;
    ghost var before := msgs[..base];
    if dgramCnt > 1 {
      msgs[base] := msgs[base].(gso := Some(gsoSize));
    }
    Closed(msgs[base], ps, gsoSize, dgramCnt, endBatch, maxPayload);
    SentMore(before, msgs[base]);
    assert msgs[..base + 1] == before + [msgs[base]];
    if Greedy(before, maxPayload) && (base > 0 ==> !Joinable(before[base - 1], ps[0], maxPayload)) {
      GreedyMore(before, msgs[base], ps[0], maxPayload);
    }
  }

  /** A datagram joins the batch; the last one of all also stores the segment size. */
  method AppendDatagram(msgs: array<Message>, base: nat, p: seq<Byte>, gsoSize: Uint16, ghost dgramCnt: nat,
                        ghost ps: seq<seq<Byte>>, ghost maxPayload: nat, last: bool)
    requires base < msgs.Length && msgs[base].gso == None && ps != []
    requires Filling(msgs[base].data, msgs[base].cap, ps, gsoSize, dgramCnt, false, maxPayload)
    requires 0 < |p| <= gsoSize && dgramCnt < MAX_DATAGRAMS
    requires |msgs[base].data| + |p| <= maxPayload && |msgs[base].data| + |p| <= msgs[base].cap
    modifies msgs
    ensures Filling(msgs[base].data, msgs[base].cap, ps + [p], gsoSize, dgramCnt + 1, |p| < gsoSize, maxPayload)
    ensures msgs[base].gso == (if last then Some(gsoSize) else None)
    ensures msgs[..base] == old(msgs[..base]) && (ps + [p])[0] == ps[0]
    ensures forall j :: 0 <= j < msgs.Length && j != base ==> msgs[j] == old(msgs[j])
  {
    Filled(msgs[base], ps, gsoSize, dgramCnt, maxPayload, p);
    msgs[base] := msgs[base].(data := msgs[base].data + p);
    if last {
      msgs[base] := msgs[base].(gso := Some(gsoSize));
    }
  }

  /** coalesceMessages */
  method CoalesceMessages(is6: bool, bufs: seq<Buf>, msgs: array<Message>) returns (n: nat)
    requires |bufs| <= msgs.Length
    requires forall i :: 0 <= i < |bufs| ==> 0 < |bufs[i].pkt| < TWO16 && |bufs[i].pkt| <= bufs[i].cap
    requires forall i :: 0 <= i < msgs.Length ==> msgs[i].gso == None
    modifies msgs
    ensures n <= |bufs|
    ensures Sent(msgs[..n]) == Contents(bufs)
    ensures forall j :: 0 <= j < n ==> Sendable(msgs[j], MaxPayload(is6))
    ensures Greedy(msgs[..n], MaxPayload(is6))
    ensures forall j :: n <= j < msgs.Length ==> msgs[j] == old(msgs[j])
  {
    hide *;
    var maxPayloadLen := MaxPayload(is6);
    var base: int := -1;
    var gsoSize: Uint16 := 0;
    var dgramCnt, endBatch := 0, false;
    ghost var ps: seq<seq<Byte>> := [];
    NothingSent(maxPayloadLen);
    for i := 0 to |bufs|
      invariant -1 <= base < i && (base == -1 <==> i == 0)
      invariant (if base == -1 then dgramCnt == 0 && ps == [] else dgramCnt >= 1 && ps != [])
      invariant base >= 0 ==> Filling(msgs[base].data, msgs[base].cap, ps, gsoSize, dgramCnt, endBatch, maxPayloadLen)
      invariant base >= 0 ==> msgs[base].gso == if dgramCnt > 1 && i == |bufs| then Some(gsoSize) else None
      invariant forall j :: 0 <= j < base ==> Sendable(msgs[j], maxPayloadLen)
      invariant base >= 0 ==> Greedy(msgs[..base], maxPayloadLen)
      invariant base > 0 ==> !Joinable(msgs[base - 1], ps[0], maxPayloadLen)
      invariant (if base >= 0 then Sent(msgs[..base]) + ps else []) == Contents(bufs[..i])
      invariant forall j :: base < j < msgs.Length ==> msgs[j] == old(msgs[j])
    {
      var buf := bufs[i];
      ContentsMore(bufs, i);
      var append := false;
      if i > 0 {
        var baseLenBefore := |msgs[base].data|;
        var freeBaseCap := msgs[base].cap - baseLenBefore;
        append := |buf.pkt| + baseLenBefore <= maxPayloadLen && |buf.pkt| <= gsoSize && |buf.pkt| <= freeBaseCap
                  && dgramCnt < MAX_DATAGRAMS && !endBatch;
      }
      if append {
        AppendDatagram(msgs, base, buf.pkt, gsoSize, dgramCnt, ps, maxPayloadLen, i == |bufs| - 1);
        dgramCnt := dgramCnt + 1;
        endBatch := |buf.pkt| < gsoSize;
        ps := ps + [buf.pkt];
      } else {
        if base >= 0 {
          CloseBatch(msgs, base, gsoSize, dgramCnt, ps, endBatch, maxPayloadLen);
          NotJoinable(msgs[base], ps, gsoSize, dgramCnt, endBatch, maxPayloadLen, buf.pkt);
        }
        ghost var closed := msgs[..base + 1];
        endBatch := false;
        base := base + 1;
        gsoSize := |buf.pkt|;
        msgs[base] := Message(buf.pkt, buf.cap, msgs[base].gso);
        dgramCnt := 1;
        ps := [buf.pkt];
        Started(buf.pkt, buf.cap, maxPayloadLen);
        assert msgs[..base] == closed;
      }
    }
    assert bufs[..|bufs|] == bufs && Contents([]) == [];
    n := base + 1;
    if base >= 0 {
      Closed(msgs[base], ps, gsoSize, dgramCnt, endBatch, maxPayloadLen);
      SentMore(msgs[..base], msgs[base]);
      assert msgs[..n] == msgs[..base] + [msgs[base]];
      GreedyMore(msgs[..base], msgs[base], ps[0], maxPayloadLen);
    }
  }

  // ----- the receiving side

  /** A received message: N, Buffers[0], what getGSO finds in the control data (None is an error), and the sender. */
  datatype Received = Received(n: nat, buf: seq<Byte>, gso: Option<nat>, addr: nat)

  /** A datagram as it is handed on. */
  datatype Datagram = Datagram(data: seq<Byte>, addr: nat)

  datatype SplitError = ControlError | Overflow

  function Data(m: Received): seq<Byte>
    requires m.n <= |m.buf|
  {
    m.buf[..m.n]
  }

  /** What a message is split into. A segment size beyond N is not cut back: bytes behind N come along. */
  function PiecesOf(m: Received): seq<seq<Byte>> {
    if m.gso == None || m.n > |m.buf| || m.gso.value > |m.buf| then []
    else if m.gso.value > m.n then [m.buf[..m.gso.value]]
    else if m.gso.value > 0 then Cut(Data(m), m.gso.value)
    else [Data(m)]
  }

  /**
    The datagrams that the received bytes stand for are what they are split into
    just when the segment size is at most N.
   */
  lemma PiecesIff(m: Received)
    requires m.gso.Some? && 0 < m.n <= |m.buf| && m.gso.value <= |m.buf|
    ensures PiecesOf(m) == (if m.gso.value > 0 then Cut(Data(m), m.gso.value) else [Data(m)]) <==> m.gso.value <= m.n
  {
    if m.gso.value > m.n {
      assert Cut(Data(m), m.gso.value) == [Data(m)];
      assert |PiecesOf(m)[0]| != |Data(m)|;
    }
  }

  /** For instance: one byte received with a segment size of two is handed on as two bytes. */
  lemma StaleByteHandedOn()
    ensures PiecesOf(Received(1, [7, 9], Some(2), 0)) == [[7, 9]] != [Data(Received(1, [7, 9], Some(2), 0))]
  {
    assert [7, 9][..2] == [7, 9];
    assert |[7, 9][..1]| != |[7, 9]|;
  }

  function Addressed(ps: seq<seq<Byte>>, addr: nat): seq<Datagram> {
    seq(|ps|, i requires 0 <= i < |ps| => Datagram(ps[i], addr))
  }

  /** All datagrams of these messages, in order. */
  function AllPieces(ms: seq<Received>): seq<Datagram> {
    if ms == [] then []
    else AllPieces(ms[..|ms| - 1]) + Addressed(PiecesOf(ms[|ms| - 1]), ms[|ms| - 1].addr)
  }

  /** The messages that were actually received: those before the first empty one. */
  function Leading(ms: seq<Received>): (r: seq<Received>)
    ensures |r| <= |ms| && r == ms[..|r|]
    ensures forall i :: 0 <= i < |r| ==> ms[i].n > 0
    ensures |r| < |ms| ==> ms[|r|].n == 0
  {
    if ms == [] || ms[0].n == 0 then [] else [ms[0]] + Leading(ms[1..])
  }

  /** Some message has no room for all its datagrams: only slots up to its own are free by then. */
  ghost predicate Overflows(ms: seq<Received>, firstMsgAt: nat) {
    exists k :: 0 < k <= |ms| && |AllPieces(ms[..k])| > firstMsgAt + k
  }

  lemma {:induction false} CutCount(p: seq<Byte>, g: nat)
    requires g > 0
    ensures |Cut(p, g)| == (|p| + g - 1) / g
  {
    if p == [] {
      DivBetween(g - 1, g, 0);
    } else if |p| <= g {
      DivBetween(|p| + g - 1, g, 1);
    } else {
      CutCount(p[g..], g);
      DivStep(|p| - 1, g);
    }
  }

  lemma DivBetween(x: nat, g: nat, q: nat)
    requires g > 0 && q * g <= x < q * g + g
    ensures x / g == q
  {
    var d := x / g;
    if d < q { Scaled(d + 1, q, g); } else if d > q { Scaled(q + 1, d, g); }
  }

  lemma Scaled(a: nat, b: nat, g: nat)
    requires a <= b
    ensures a * g <= b * g
  {}

  lemma DivStep(x: nat, g: nat)
    requires g > 0
    ensures (x + g) / g == x / g + 1
  {
    var q := x / g;
    assert (q + 1) * g == q * g + g;
    DivBetween(x + g, g, q + 1);
  }

  lemma PiecesMore(ms: seq<Received>, k: nat)
    requires k < |ms|
    ensures AllPieces(ms[..k + 1]) == AllPieces(ms[..k]) + Addressed(PiecesOf(ms[k]), ms[k].addr)
  {
    assert ms[..k + 1][..k] == ms[..k];
  }

  /** Slot m now holds this datagram, or as much of it as its buffer takes. */
  predicate Holds(m: Received, d: Datagram) {
    && m.n == (if |d.data| <= |m.buf| then |d.data| else |m.buf|)
    && Data(m) == d.data[..m.n] && m.addr == d.addr
  }

  /** All of it, when the buffer is long enough. */
  lemma HoldsWhole(m: Received, d: Datagram)
    requires Holds(m, d)
    ensures m.n <= |m.buf| && (|d.data| <= |m.buf| <==> Data(m) == d.data)
  {
    assert d.data[..|d.data|] == d.data;
  }

  /** copy(msgs[n].Buffers[0], ...), and the new length and sender. */
  function Stored(slot: Received, data: seq<Byte>, addr: nat): (r: Received)
    ensures Holds(r, Datagram(data, addr)) && |r.buf| == |slot.buf|
  {
    var copied := if |data| <= |slot.buf| then |data| else |slot.buf|;
    slot.(buf := data[..copied] + slot.buf[copied..], n := copied, addr := addr)
  }

  /** Splits message i into the slots from n0 on, as far as slot i. */
  method SplitOne(msgs: array<Received>, i: nat, n0: nat) returns (n: nat, err: Option<SplitError>)
    requires n0 <= i < msgs.Length && 0 < msgs[i].n <= |msgs[i].buf|
    requires msgs[i].gso.Some? ==> msgs[i].gso.value <= |msgs[i].buf|
    modifies msgs
    ensures forall j :: 0 <= j < msgs.Length ==> |msgs[j].buf| == |old(msgs[j]).buf|
    ensures forall j :: 0 <= j < msgs.Length && (j < n0 || j > i) ==> msgs[j] == old(msgs[j])
    ensures var ps := Addressed(PiecesOf(old(msgs[i])), old(msgs[i]).addr);
            && (err == Some(ControlError) <==> old(msgs[i]).gso == None)
            && (err == Some(Overflow) <==> old(msgs[i]).gso != None && n0 + |ps| > i + 1)
            && (err == None ==>
                  && n == n0 + |ps|
                  && (forall j :: 0 <= j < |ps| ==> Holds(msgs[n0 + j], ps[j]))
                  && (forall j :: n <= j < i ==> msgs[j] == old(msgs[j]))
                  && (n != i + 1 ==> msgs[i].n == 0))
  {
    n, err := n0, None;
    if msgs[i].gso == None { return n, Some(ControlError); }
    ghost var m0 := msgs[i];
    ghost var ps := PiecesOf(m0);
    var gsoSize := msgs[i].gso.value;
    var start, end, numToSplit := 0, msgs[i].n, 1;
    if gsoSize > 0 {
      numToSplit := (msgs[i].n + gsoSize - 1) / gsoSize;
      end := gsoSize;
    }
    SplitStart(m0);
    for j := 0 to numToSplit
      invariant n == n0 + j <= i + 1
      invariant n <= i && j < |ps| ==> msgs[i] == m0 && 0 <= start <= end <= |m0.buf| && Progress(m0, ps, start, end, j)
      invariant forall l :: 0 <= l < msgs.Length ==> |msgs[l].buf| == |old(msgs[l]).buf|
      invariant forall l :: 0 <= l < msgs.Length && (l < n0 || l > i || n <= l < i) ==> msgs[l] == old(msgs[l])
      invariant forall l :: 0 <= l < j ==> Holds(msgs[n0 + l], Datagram(ps[l], m0.addr))
    {
      if n > i {
        return n, Some(Overflow);
      }
      NextSegment(m0, ps, start, end, j);
      msgs[n] := Stored(msgs[n], msgs[i].buf[start..end], msgs[i].addr);
      start := end;
      end := end + gsoSize;
      if end > msgs[i].n { end := msgs[i].n; }
      n := n + 1;
    }
    if i != n - 1 {
      msgs[i] := msgs[i].(n := 0);
    }
  }

  /** Segment j is buf[start..end], and the rest follows. */
  ghost predicate Progress(m: Received, ps: seq<seq<Byte>>, start: nat, end: nat, j: nat) {
    && start <= end <= |m.buf| && m.n <= |m.buf| && j <= |ps| && m.gso.Some?
    && if 0 < m.gso.value <= m.n then
         && start <= m.n && end == (if start + m.gso.value > m.n then m.n else start + m.gso.value)
         && ps[j..] == Cut(Data(m)[start..], m.gso.value)
       else
         |ps| == 1 && (j == 0 ==> start == 0 && ps[0] == m.buf[..end])
  }

  lemma SplitStart(m: Received)
    requires m.gso.Some? && 0 < m.n <= |m.buf| && m.gso.value <= |m.buf|
    ensures var g := m.gso.value;
            && |PiecesOf(m)| == (if g > 0 then (m.n + g - 1) / g else 1)
            && Progress(m, PiecesOf(m), 0, if g > 0 then g else m.n, 0)
  {
    var g := m.gso.value;
    assert Data(m)[0..] == Data(m);
    if g > m.n { DivBetween(m.n + g - 1, g, 1); } else if g > 0 { CutCount(Data(m), g); }
  }

  lemma NextSegment(m: Received, ps: seq<seq<Byte>>, start: nat, end: nat, j: nat)
    requires Progress(m, ps, start, end, j) && j < |ps| && ps == PiecesOf(m) && m.n > 0
    ensures ps[j] == m.buf[start..end]
    ensures var e := if end + m.gso.value > m.n then m.n else end + m.gso.value;
            j + 1 < |ps| ==> Progress(m, ps, end, e, j + 1)
  {
    var g := m.gso.value;
    if 0 < g <= m.n {
      assert ps[j..] != [];
      NextPiece(Data(m), start, end, g, ps, j);
      assert Data(m)[start..end] == m.buf[start..end];
    }
  }

  /** Every message of at most `limit` pieces adds at most that many. */
  lemma {:induction false} PiecesBounded(ms: seq<Received>, limit: nat)
    requires forall i :: 0 <= i < |ms| ==> |PiecesOf(ms[i])| <= limit
    ensures |AllPieces(ms)| <= limit * |ms|
  {
    if ms != [] {
      PiecesBounded(ms[..|ms| - 1], limit);
      assert limit * |ms| == limit * (|ms| - 1) + limit;
    }
  }

  /** With the last len / 64 slots holding messages of at most 64 datagrams, splitting never overflows. */
  lemma LastSlotsNeverOverflow(ms: seq<Received>, length: nat)
    requires |ms| <= length / MAX_DATAGRAMS
    requires forall i :: 0 <= i < |ms| ==> |PiecesOf(ms[i])| <= MAX_DATAGRAMS
    ensures !Overflows(ms, length - length / MAX_DATAGRAMS)
  {
    forall k | 0 < k <= |ms| ensures |AllPieces(ms[..k])| <= length - length / MAX_DATAGRAMS + k {
      assert forall i :: 0 <= i < k ==> ms[..k][i] == ms[i];
      PiecesBounded(ms[..k], MAX_DATAGRAMS);
    }
  }

  /** The first slots hold these datagrams. */
  ghost predicate HoldsAll(msgs: seq<Received>, ds: seq<Datagram>) {
    |ds| <= |msgs| && forall j {:trigger ds[j]} :: 0 <= j < |ds| ==> Holds(msgs[j], ds[j])
  }

  /** Lengths and segment sizes lie within the messages' buffers. */
  ghost predicate Splittable(msgs: seq<Received>) {
    forall j {:trigger msgs[j]} :: 0 <= j < |msgs| ==>
      msgs[j].n <= |msgs[j].buf| && (msgs[j].gso.Some? ==> msgs[j].gso.value <= |msgs[j].buf|)
  }

  /**
    splitCoalescedMessages: the datagrams of all received messages end up in the first n slots, in order;
    the only failures are an unreadable segment size and running out of slots.
   */
  method SplitCoalescedMessages(msgs: array<Received>, firstMsgAt: nat) returns (n: nat, err: Option<SplitError>)
    requires firstMsgAt <= msgs.Length && Splittable(msgs[..])
    modifies msgs
    ensures var ms := Leading(old(msgs[firstMsgAt..]));
            && (err == None <==> (forall k :: 0 <= k < |ms| ==> ms[k].gso.Some?) && !Overflows(ms, firstMsgAt))
            && (err == None ==> n == |AllPieces(ms)| && HoldsAll(msgs[..], AllPieces(ms)))
            && (forall j :: 0 <= j < msgs.Length ==> |msgs[j].buf| == |old(msgs[..])[j].buf|)
            && (err == None ==> forall i :: n <= i < firstMsgAt + |ms| && firstMsgAt <= i ==> msgs[i].n == 0)
  {
    hide *;
    n, err := 0, None;
    ghost var before, ms := msgs[..], Leading(msgs[firstMsgAt..]);
    NothingSplit(ms, msgs[..]);
    for i := firstMsgAt to msgs.Length
      invariant i <= firstMsgAt + |ms| && n <= i && n == |AllPieces(ms[..i - firstMsgAt])|
      invariant forall j :: 0 <= j < msgs.Length ==> |msgs[j].buf| == |before[j].buf|
      invariant forall j :: i <= j < msgs.Length ==> msgs[j] == before[j]
      invariant HoldsAll(msgs[..], AllPieces(ms[..i - firstMsgAt]))
      invariant RoomSoFar(ms, firstMsgAt, i - firstMsgAt) && err == None
      invariant forall j :: n <= j < i && firstMsgAt <= j ==> msgs[j].n == 0
    {
      ghost var k := i - firstMsgAt;
      assert old(msgs[firstMsgAt..])[k] == msgs[i];
      if msgs[i].n == 0 {
        AllRoom(ms, firstMsgAt, k);
        return n, None;
      }
      Slotted(before, i);
      ghost var mid := msgs[..];
      assert k < |ms| && ms[k] == mid[i];
      PiecesMore(ms, k);
      n, err := SplitOne(msgs, i, n);
      ghost var ps := Addressed(PiecesOf(mid[i]), mid[i].addr);
      SplitFurther(ms, firstMsgAt, k, |AllPieces(ms[..k])| + |ps|);
      if err != None {
        assert err.value == ControlError || err.value == Overflow;
        assert err == Some(ControlError) ==> !ms[k].gso.Some?;
        return n, err;
      }
      HoldsMore(mid, msgs[..], AllPieces(ms[..k]), ps);
    }
    AllRoom(ms, firstMsgAt, msgs.Length - firstMsgAt);
  }

  /** The first k messages could be read, and found room. */
  ghost predicate RoomSoFar(ms: seq<Received>, firstMsgAt: nat, k: nat) {
    && k <= |ms| && (forall j :: 0 <= j < k ==> ms[j].gso.Some?)
    && forall j :: 0 < j <= k ==> |AllPieces(ms[..j])| <= firstMsgAt + j
  }

  lemma NothingSplit(ms: seq<Received>, msgs: seq<Received>)
    ensures AllPieces(ms[..0]) == [] && HoldsAll(msgs, []) && forall first :: RoomSoFar(ms, first, 0)
  {}

  lemma AllRoom(ms: seq<Received>, firstMsgAt: nat, k: nat)
    requires RoomSoFar(ms, firstMsgAt, k) && k == |ms|
    ensures ms[..k] == ms && !Overflows(ms, firstMsgAt) && forall j :: 0 <= j < |ms| ==> ms[j].gso.Some?
  {}

  lemma Slotted(msgs: seq<Received>, i: nat)
    requires Splittable(msgs) && i < |msgs|
    ensures msgs[i].n <= |msgs[i].buf| && (msgs[i].gso.Some? ==> msgs[i].gso.value <= |msgs[i].buf|)
  {}

  /** Message k decides whether there is still room. */
  lemma SplitFurther(ms: seq<Received>, firstMsgAt: nat, k: nat, total: nat)
    requires RoomSoFar(ms, firstMsgAt, k) && k < |ms| && total == |AllPieces(ms[..k + 1])|
    ensures ms[k].gso.Some? && total <= firstMsgAt + k + 1 ==> RoomSoFar(ms, firstMsgAt, k + 1)
    ensures total > firstMsgAt + k + 1 ==> Overflows(ms, firstMsgAt)
  {}

  lemma HoldsMore(before: seq<Received>, after: seq<Received>, ds: seq<Datagram>, ps: seq<Datagram>)
    requires HoldsAll(before, ds) && |before| == |after| && |ds| + |ps| <= |after|
    requires forall j :: 0 <= j < |ds| ==> after[j] == before[j]
    requires forall j :: 0 <= j < |ps| ==> Holds(after[|ds| + j], ps[j])
    ensures HoldsAll(after, ds + ps)
  {
    hide Holds;
    forall j | 0 <= j < |ds + ps| ensures Holds(after[j], (ds + ps)[j]) {
      if j < |ds| { assert (ds + ps)[j] == ds[j]; } else { assert after[|ds| + (j - |ds|)] == after[j]; }
    }
  }

  /** The message arrives with its bytes and its segment size. */
  ghost predicate Arrives(m: Message, r: Received) {
    && 0 < |m.data| == r.n <= |r.buf| && r.buf[..r.n] == m.data
    && r.gso == Some(if m.gso.Some? then m.gso.value else 0) && r.gso.value <= r.n
  }

  /** What coalesceMessages makes of datagrams, when it arrives, is split into the same datagrams again. */
  lemma {:induction false} SplitUndoesCoalesce(sent: seq<Message>, got: seq<Received>)
    requires |sent| == |got| && forall i :: 0 <= i < |sent| ==> Arrives(sent[i], got[i])
    ensures |AllPieces(got)| == |Sent(sent)|
    ensures forall j :: 0 <= j < |Sent(sent)| ==> AllPieces(got)[j].data == Sent(sent)[j]
  {
    if sent != [] {
      var n := |sent| - 1;
      SplitUndoesCoalesce(sent[..n], got[..n]);
      assert Arrives(sent[n], got[n]);
      assert PiecesOf(got[n]) == Datagrams(sent[n].data, sent[n].gso);
    }
  }
  lemma {:induction false} SameSender(ms: seq<Received>, addr: nat)
    requires forall i :: 0 <= i < |ms| ==> ms[i].addr == addr
    ensures forall j :: 0 <= j < |AllPieces(ms)| ==> AllPieces(ms)[j].addr == addr
  {
    if ms != [] {
      SameSender(ms[..|ms| - 1], addr);
    }
  }

  /** A free slot with a buffer that every message fits into. */
  predicate Free(slot: Received) {
    slot.n == 0 && |slot.buf| >= MAX_SEGMENT_SIZE && (slot.gso.Some? ==> slot.gso.value <= |slot.buf|)
  }

  /** The slot after a message has been read into it. */
  function ReadInto(slot: Received, m: Message, addr: nat): (r: Received)
    requires |m.data| <= |slot.buf|
    ensures r.addr == addr && |r.buf| == |slot.buf|
    ensures 0 < |m.data| && (m.gso.Some? ==> m.gso.value <= |m.data|) ==> Arrives(m, r)
  {
    Received(|m.data|, m.data + slot.buf[|m.data|..], Some(if m.gso.Some? then m.gso.value else 0), addr)
  }

  /** The messages before the first empty slot are those that were read. */
  lemma {:induction false} LeadingRead(slots: seq<Received>, k: nat)
    requires k <= |slots| && forall j :: 0 <= j < |slots| ==> (slots[j].n > 0 <==> j < k)
    ensures Leading(slots) == slots[..k]
  {
    if slots != [] && k > 0 {
      LeadingRead(slots[1..], k - 1);
    }
  }

  lemma {:induction false} SentPrefix(msgs: seq<Message>, k: nat)
    requires k <= |msgs| && forall j :: 0 <= j < |msgs| ==> Datagrams(msgs[j].data, msgs[j].gso) != []
    ensures Sent(msgs[..k]) <= Sent(msgs) && (k == |msgs| <==> |Sent(msgs[..k])| == |Sent(msgs)|)
  {
    if k == |msgs| {
      assert msgs[..k] == msgs;
    } else {
      SentPrefix(msgs[..|msgs| - 1], k);
      assert msgs[..|msgs| - 1][..k] == msgs[..k];
    }
  }

  /** Messages that were read, with at most 64 datagrams each, can all be split. */
  lemma ReadCanSplit(sent: seq<Message>, got: seq<Received>, maxPayload: nat, length: nat)
    requires |sent| == |got| <= length / MAX_DATAGRAMS
    requires forall i :: 0 <= i < |sent| ==> Sendable(sent[i], maxPayload) && Arrives(sent[i], got[i])
    ensures forall i :: 0 <= i < |got| ==> got[i].gso.Some?
    ensures !Overflows(got, length - length / MAX_DATAGRAMS)
  {
    hide Overflows;
    forall i | 0 <= i < |got| ensures got[i].gso.Some? && |PiecesOf(got[i])| <= MAX_DATAGRAMS {
      assert Sendable(sent[i], maxPayload) && Arrives(sent[i], got[i]);
      assert PiecesOf(got[i]) == Datagrams(sent[i].data, sent[i].gso);
    }
    LastSlotsNeverOverflow(got, length);
  }

  /** ReadBatch: the messages are read into consecutive slots. */
  method ReadBatch(sent: seq<Message>, slots: array<Received>, readAt: nat, addr: nat)
    requires readAt + |sent| <= slots.Length
    requires forall j :: 0 <= j < |sent| ==> |sent[j].data| <= |slots[readAt + j].buf|
    modifies slots
    ensures forall j :: 0 <= j < |sent| ==> slots[readAt + j] == ReadInto(old(slots[readAt + j]), sent[j], addr)
    ensures forall j :: 0 <= j < slots.Length && !(readAt <= j < readAt + |sent|) ==> slots[j] == old(slots[j])
  {
    for i := 0 to |sent|
      invariant forall j :: 0 <= j < i ==> slots[readAt + j] == ReadInto(old(slots[readAt + j]), sent[j], addr)
      invariant forall j :: 0 <= j < slots.Length && !(readAt <= j < readAt + i) ==> slots[j] == old(slots[j])
    {
      slots[readAt + i] := ReadInto(slots[readAt + i], sent[i], addr);
    }
  }

  /** The first slots hold these datagrams, whole and in order, all from this sender. */
  ghost predicate Delivered(slots: seq<Received>, bufs: seq<Buf>, addr: nat) {
    |bufs| <= |slots| && forall j {:trigger bufs[j]} :: 0 <= j < |bufs| ==>
      slots[j].n == |bufs[j].pkt| <= |slots[j].buf| && Data(slots[j]) == bufs[j].pkt && slots[j].addr == addr
  }

  lemma AllDelivered(slots: seq<Received>, ds: seq<Datagram>, bufs: seq<Buf>, addr: nat)
    requires HoldsAll(slots, ds) && |ds| <= |bufs|
    requires forall j :: 0 <= j < |slots| ==> |slots[j].buf| >= MAX_SEGMENT_SIZE
    requires forall j :: 0 <= j < |ds| ==> ds[j].data == bufs[j].pkt && ds[j].addr == addr && |bufs[j].pkt| < TWO16
    ensures Delivered(slots, bufs[..|ds|], addr)
  {
    forall j | 0 <= j < |ds| ensures slots[j].n == |bufs[j].pkt| <= |slots[j].buf| && Data(slots[j]) == bufs[j].pkt
                                     && slots[j].addr == addr {
      assert ds[j].data == bufs[j].pkt;
      HoldsWhole(slots[j], ds[j]);
      assert |Data(slots[j])| == slots[j].n;
    }
  }

  /** Splitting messages that were read into the last slots gives their datagrams, from the first slot on. */
  method SplitRead(sent: seq<Message>, slots: array<Received>, addr: nat, ghost maxPayload: nat)
    returns (n: nat, err: Option<SplitError>)
    requires |sent| <= slots.Length / MAX_DATAGRAMS
    requires forall j :: 0 <= j < |sent| ==> Sendable(sent[j], maxPayload)
    requires forall j :: 0 <= j < slots.Length ==> Free(slots[j])
    modifies slots
    ensures err == None && n == |Sent(sent)|
    ensures forall j :: 0 <= j < slots.Length ==> |slots[j].buf| >= MAX_SEGMENT_SIZE
    ensures exists ds :: HoldsAll(slots[..], ds) && FromAll(ds, Sent(sent), addr)
  {
    hide Sendable, Arrives, Overflows, Leading, Splittable, AllPieces, Sent, HoldsAll, ReadInto, FromAll;
    var readAt := slots.Length - slots.Length / MAX_DATAGRAMS;
    ghost var before := slots[..];
    forall j | 0 <= j < |sent| ensures |sent[j].data| <= MAX_SEGMENT_SIZE { ShortEnough(sent[j], maxPayload); }
    ReadBatch(sent, slots, readAt, addr);
    ghost var got := slots[readAt..][..|sent|];
    AfterRead(before, slots[..], sent, readAt, addr, maxPayload);
    ReadCanSplit(sent, got, maxPayload, slots.Length);
    AllFrom(sent, got, addr);
    n, err := SplitCoalescedMessages(slots, readAt);
    assert FromAll(AllPieces(got), Sent(sent), addr);
  }

  lemma AfterRead(before: seq<Received>, after: seq<Received>, sent: seq<Message>, readAt: nat, addr: nat,
                  maxPayload: nat)
    requires readAt + |sent| <= |before| == |after|
    requires forall j :: 0 <= j < |before| ==> Free(before[j])
    requires forall j :: 0 <= j < |sent| ==>
      Sendable(sent[j], maxPayload) && |sent[j].data| <= |before[readAt + j].buf|
    requires forall j :: 0 <= j < |sent| ==> after[readAt + j] == ReadInto(before[readAt + j], sent[j], addr)
    requires forall j :: 0 <= j < |before| && !(readAt <= j < readAt + |sent|) ==> after[j] == before[j]
    ensures Splittable(after) && forall j :: 0 <= j < |after| ==> |after[j].buf| >= MAX_SEGMENT_SIZE
    ensures var got := after[readAt..][..|sent|];
            && Leading(after[readAt..]) == got
            && forall j :: 0 <= j < |sent| ==> Arrives(sent[j], got[j]) && got[j].addr == addr
  {
    hide Leading, Splittable;
    forall j | 0 <= j < |after|
      ensures after[j].n <= |after[j].buf| && (after[j].gso.Some? ==> after[j].gso.value <= |after[j].buf|)
      ensures |after[j].buf| >= MAX_SEGMENT_SIZE && (readAt <= j ==> (after[j].n > 0 <==> j < readAt + |sent|))
      ensures readAt <= j < readAt + |sent| ==> Arrives(sent[j - readAt], after[j]) && after[j].addr == addr
    {
      assert Free(before[j]);
      if readAt <= j < readAt + |sent| {
        assert Sendable(sent[j - readAt], maxPayload);
        assert after[readAt + (j - readAt)] == ReadInto(before[j], sent[j - readAt], addr);
      }
    }
    LeadingRead(after[readAt..], |sent|);
    AllSplittable(after);
  }

  lemma ShortEnough(m: Message, maxPayload: nat)
    requires Sendable(m, maxPayload)
    ensures |m.data| <= MAX_SEGMENT_SIZE
  {}

  lemma AllSplittable(msgs: seq<Received>)
    requires forall j :: 0 <= j < |msgs| ==>
      msgs[j].n <= |msgs[j].buf| && (msgs[j].gso.Some? ==> msgs[j].gso.value <= |msgs[j].buf|)
    ensures Splittable(msgs)
  {}

  lemma AllFrom(sent: seq<Message>, got: seq<Received>, addr: nat)
    requires |sent| == |got| && forall i :: 0 <= i < |sent| ==> Arrives(sent[i], got[i]) && got[i].addr == addr
    ensures FromAll(AllPieces(got), Sent(sent), addr) && |AllPieces(got)| == |Sent(sent)|
  {
    hide Arrives, AllPieces, Sent;
    SplitUndoesCoalesce(sent, got);
    SameSender(got, addr);
  }

  ghost predicate FromAll(ds: seq<Datagram>, ps: seq<seq<Byte>>, addr: nat) {
    |ds| == |ps| && forall j {:trigger ds[j]} :: 0 <= j < |ds| ==> ds[j] == Datagram(ps[j], addr)
  }

  /**
    A batch that is coalesced, read into the last len / 64 slots and split again: nothing fails, and the first slots
    hold the first datagrams of the batch, whole and in order. They are all of them exactly when the slots
    suffice for the messages.
   */
  method SendAndReceive(is6: bool, bufs: seq<Buf>, msgs: array<Message>, slots: array<Received>, addr: nat)
    returns (sent: nat, n: nat, err: Option<SplitError>)
    requires |bufs| <= msgs.Length
    requires forall i :: 0 <= i < |bufs| ==> 0 < |bufs[i].pkt| < TWO16 && |bufs[i].pkt| <= bufs[i].cap
    requires forall i :: 0 <= i < msgs.Length ==> msgs[i].gso == None
    requires forall j :: 0 <= j < slots.Length ==> Free(slots[j])
    modifies msgs, slots
    ensures err == None && n <= |bufs| && Delivered(slots[..], bufs[..n], addr)
    ensures n == |bufs| <==> sent <= slots.Length / MAX_DATAGRAMS
  {
    hide Sendable, Sent, Datagrams, Greedy, HoldsAll, Delivered;
    sent := CoalesceMessages(is6, bufs, msgs);
    var read := if sent <= slots.Length / MAX_DATAGRAMS then sent else slots.Length / MAX_DATAGRAMS;
    ghost var all := msgs[..sent];
    assert msgs[..read] == all[..read];
    forall j | 0 <= j < |all|
      ensures Datagrams(all[j].data, all[j].gso) != []
    {
      SomeDatagrams(all[j], MaxPayload(is6));
    }
    SentPrefix(all, read);
    n, err := SplitRead(msgs[..read], slots, addr, MaxPayload(is6));
    ghost var ds :| HoldsAll(slots[..], ds) && FromAll(ds, Sent(all[..read]), addr);
    AllDelivered(slots[..], ds, bufs, addr);
  }

  lemma SomeDatagrams(m: Message, maxPayload: nat)
    requires Sendable(m, maxPayload)
    ensures Datagrams(m.data, m.gso) != []
  {}
}

/**
  The bookkeeping of generic receive offload, and what it promises about the
  packets that came in: which buffer each packet's payload has ended up in.
 */
module GroState {
  import opened Sequences
  import opened Bytes
  import opened Gso

  /** bufs[i][offset:], with the capacity of bufs[i]. */
  datatype Buf = Buf(pkt: seq<Byte>, cap: nat)

  datatype TcpKey = TcpKey(src: seq<Byte>, dst: seq<Byte>, srcPort: Uint16, dstPort: Uint16, rxAck: Uint32, isV6: bool)

  datatype UdpKey = UdpKey(src: seq<Byte>, dst: seq<Byte>, srcPort: Uint16, dstPort: Uint16, isV6: bool)

  datatype TcpItem = TcpItem(key: TcpKey, sentSeq: Uint32, bufsIndex: nat, numMerged: nat, gsoSize: Uint16,
                             iphLen: nat, tcphLen: nat, pshSet: bool)

  datatype UdpItem = UdpItem(key: UdpKey, bufsIndex: nat, numMerged: nat, gsoSize: Uint16,
                             iphLen: nat, cSumKnownInvalid: bool)

  /** Whether some table item still refers to a written buffer. */
  datatype Tracking = Loose | InTcp(tcpKey: TcpKey) | InUdp(udpKey: UdpKey)

  /** A written buffer: the packets whose payloads it holds, in order, after h header bytes. */
  datatype Group = Group(tracking: Tracking, h: nat, members: seq<nat>)

  /** The group with one more packet, at its end or at its front. */
  function Joined(g: Group, k: nat): Group { g.(members := g.members + [k]) }

  function Led(g: Group, k: nat): Group { g.(members := [k] + g.members) }

  /** The two agree from position h on. */
  ghost predicate SameBehind(a: seq<Byte>, b: seq<Byte>, h: nat) {
    |a| == |b| && h <= |a| && a[h..] == b[h..]
  }

  /** Every member has h header bytes. */
  ghost predicate MembersFit(g: Group, input: seq<seq<Byte>>) {
    forall j :: 0 <= j < |g.members| ==> g.members[j] < |input| && g.h <= |input[g.members[j]]|
  }

  /** The payload pieces of a group. */
  function Pieces(g: Group, input: seq<seq<Byte>>): (ps: seq<seq<Byte>>)
    requires MembersFit(g, input)
    ensures |ps| == |g.members|
    ensures forall j :: 0 <= j < |ps| ==> ps[j] == input[g.members[j]][g.h..]
  {
    seq(|g.members|, j requires 0 <= j < |g.members| => input[g.members[j]][g.h..])
  }

  /** The group's packets are its own, and their payloads fill its buffer; a packet alone is as it came. */
  ghost predicate GroupOk(w: nat, g: Group, pkt: seq<Byte>, input: seq<seq<Byte>>, owner: seq<nat>) {
    && g.members != [] && Distinct(g.members) && MembersFit(g, input)
    && (forall j :: 0 <= j < |g.members| ==> g.members[j] < |owner| && owner[g.members[j]] == w)
    && g.h <= |pkt| && pkt[g.h..] == Flatten(Pieces(g, input))
    && (|g.members| == 1 ==> pkt == input[g.members[0]])
  }

  /** Packet k is a member of the group that it is said to be in. */
  ghost predicate OwnerHolds(k: nat, groups: map<nat, Group>, owner: seq<nat>) {
    k < |owner| && owner[k] in groups && k in groups[owner[k]].members
  }

  /**
    Traffic is conserved: among the first |owner| packets, each one's payload lies in
    exactly one written buffer, and no buffer is written twice.
   */
  ghost predicate Conserved(bufs: seq<Buf>, input: seq<seq<Byte>>, toWrite: seq<nat>,
                            groups: map<nat, Group>, owner: seq<nat>) {
    && |bufs| == |input| && |owner| <= |input|
    && Distinct(toWrite)
    && (forall w :: w in toWrite <==> w in groups)
    && (forall w :: w in groups ==> w < |owner|)
    && (forall w {:trigger groups[w]} :: w in groups ==> GroupOk(w, groups[w], bufs[w].pkt, input, owner))
    && (forall k {:trigger OwnerHolds(k, groups, owner)} :: 0 <= k < |owner| ==> OwnerHolds(k, groups, owner))
    && (forall k :: |owner| <= k < |input| ==> bufs[k].pkt == input[k])
  }

  lemma FlattenOne(p: seq<Byte>)
    ensures Flatten([p]) == p
  {
    assert Flatten([p]) == p + Flatten([]);
  }

  lemma FlattenStep(ps: seq<seq<Byte>>)
    ensures Flatten(ps) == if ps == [] then [] else ps[0] + Flatten(ps[1..])
  {}

  lemma {:induction false} FlattenConcat(ps: seq<seq<Byte>>, qs: seq<seq<Byte>>)
    ensures Flatten(ps + qs) == Flatten(ps) + Flatten(qs)
  {
    hide Flatten;
    FlattenStep(ps);
    FlattenStep(ps + qs);
    if ps == [] {
      assert ps + qs == qs;
    } else {
      FlattenConcat(ps[1..], qs);
      assert (ps + qs)[1..] == ps[1..] + qs;
    }
  }

  /** Groups of other buffers are untouched by what happens to one more packet. */
  lemma GroupKept(w: nat, g: Group, pkt: seq<Byte>, input: seq<seq<Byte>>, owner: seq<nat>, to: nat)
    requires GroupOk(w, g, pkt, input, owner)
    ensures GroupOk(w, g, pkt, input, owner + [to])
  {}

  lemma DistinctMore(s: seq<nat>, x: nat)
    requires Distinct(s) && x !in s
    ensures Distinct(s + [x])
  {}

  /** A packet on its own. */
  lemma AddGroup(bufs: seq<Buf>, input: seq<seq<Byte>>, toWrite: seq<nat>,
                 groups: map<nat, Group>, owner: seq<nat>, t: Tracking, h: nat)
    requires Conserved(bufs, input, toWrite, groups, owner) && |owner| < |input|
    requires h <= |input[|owner|]|
    ensures var k := |owner|;
            Conserved(bufs, input, toWrite + [k], groups[k := Group(t, h, [k])], owner + [k])
  {
    var k := |owner|;
    var g := Group(t, h, [k]);
    var groups', owner' := groups[k := g], owner + [k];
    assert Pieces(g, input) == [input[k][h..]];
    FlattenOne(input[k][h..]);
    assert GroupOk(k, g, bufs[k].pkt, input, owner');
    forall w | w in groups' ensures GroupOk(w, groups'[w], bufs[w].pkt, input, owner') {
      if w != k { GroupKept(w, groups[w], bufs[w].pkt, input, owner, k); }
    }
    forall j | 0 <= j < |owner'| ensures OwnerHolds(j, groups', owner') {
      assert j < k ==> OwnerHolds(j, groups, owner);
    }
    assert k !in toWrite;
    DistinctMore(toWrite, k);
  }

  /** A packet's payload goes behind those of a group; bytes of the header may be set. */
  lemma AppendedGroup(w: nat, g: Group, pkt: seq<Byte>, front: seq<Byte>, input: seq<seq<Byte>>, owner: seq<nat>)
    requires GroupOk(w, g, pkt, input, owner) && |owner| < |input| && g.h <= |input[|owner|]|
    requires SameBehind(front, pkt, g.h)
    ensures var k := |owner|;
            var g' := Joined(g, k);
            MembersFit(g', input) && Pieces(g', input) == Pieces(g, input) + [input[k][g.h..]]
            && GroupOk(w, g', front + input[k][g.h..], input, owner + [w])
  {
    hide Flatten;
    var k := |owner|;
    var g' := Joined(g, k);
    assert Pieces(g', input) == Pieces(g, input) + [input[k][g.h..]];
    FlattenConcat(Pieces(g, input), [input[k][g.h..]]);
    FlattenOne(input[k][g.h..]);
    assert (front + input[k][g.h..])[g.h..] == front[g.h..] + input[k][g.h..];
  }

  /** A packet goes in front of a group, whose payloads are copied behind it. */
  lemma PrependedGroup(w: nat, g: Group, pkt: seq<Byte>, input: seq<seq<Byte>>, owner: seq<nat>)
    requires GroupOk(w, g, pkt, input, owner) && |owner| < |input| && g.h <= |input[|owner|]|
    ensures var k := |owner|;
            var g' := Led(g, k);
            MembersFit(g', input) && Pieces(g', input) == [input[k][g.h..]] + Pieces(g, input)
            && GroupOk(w, g', input[k] + pkt[g.h..], input, owner + [w])
  {
    hide Flatten;
    var k := |owner|;
    var g' := Led(g, k);
    assert Pieces(g', input) == [input[k][g.h..]] + Pieces(g, input);
    FlattenConcat([input[k][g.h..]], Pieces(g, input));
    FlattenOne(input[k][g.h..]);
    assert (input[k] + pkt[g.h..])[g.h..] == input[k][g.h..] + pkt[g.h..];
  }

  /** Merging packet k into the group of buffer w conserves traffic; buffer k is no longer of interest. */
  lemma MergeInto(bufs: seq<Buf>, input: seq<seq<Byte>>, toWrite: seq<nat>,
                  groups: map<nat, Group>, owner: seq<nat>, w: nat, g: Group, bufs': seq<Buf>)
    requires Conserved(bufs, input, toWrite, groups, owner) && |owner| < |input|
    requires w in groups && |bufs'| == |bufs|
    requires GroupOk(w, g, bufs'[w].pkt, input, owner + [w])
    requires |owner| in g.members && forall m :: m in groups[w].members ==> m in g.members
    requires forall i :: 0 <= i < |bufs| && i != w && i != |owner| ==> bufs'[i] == bufs[i]
    ensures Conserved(bufs', input, toWrite, groups[w := g], owner + [w])
  {
    hide GroupOk;
    var groups' := groups[w := g];
    forall v | v in groups'
      ensures GroupOk(v, groups'[v], bufs'[v].pkt, input, owner + [w])
    {
      if v != w { GroupKept(v, groups[v], bufs[v].pkt, input, owner, w); }
    }
    MergeOwned(groups, owner, w, g);
  }

  lemma MergeOwned(groups: map<nat, Group>, owner: seq<nat>, w: nat, g: Group)
    requires forall k {:trigger OwnerHolds(k, groups, owner)} :: 0 <= k < |owner| ==> OwnerHolds(k, groups, owner)
    requires w in groups && |owner| in g.members && forall m :: m in groups[w].members ==> m in g.members
    ensures var groups', owner' := groups[w := g], owner + [w];
            forall k {:trigger OwnerHolds(k, groups', owner')} :: 0 <= k < |owner'| ==> OwnerHolds(k, groups', owner')
  {
    var groups', owner' := groups[w := g], owner + [w];
    forall k | 0 <= k < |owner'| ensures OwnerHolds(k, groups', owner') {
      assert k < |owner| ==> OwnerHolds(k, groups, owner);
    }
  }
}

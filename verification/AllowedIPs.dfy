/**
  The allowed-IPs table: one path-compressed binary trie per address family.
  A live entry is named by its prefix, the first cidr bits of its masked address;
  that no two live entries share a prefix is proved at every allocation. The
  pointer fields of all entries of a family are its outline.
 */
module AllowedIPs {
  import opened Wrappers
  import opened Sequences
  import opened IpBits
  import opened Outlines

  /** A list element: the family's address width and the entry. */
  datatype Entry = Entry(width: nat, key: Bits)

  /** Peers are known by identity; the nil peer is None. */
  type Peer = nat

  /** The list of trie entries that each peer carries. */
  class PeerLists {
    var lists: map<Peer, seq<Entry>>

    constructor ()
      ensures lists == map[]
    {
      lists := map[];
    }

    function Of(p: Peer): seq<Entry>
      reads this
    {
      if p in lists then lists[p] else []
    }

    method PushBack(p: Peer, e: Entry)
      modifies this
      ensures forall q :: Of(q) == if q == p then old(Of(q)) + [e] else old(Of(q))
    {
      lists := lists[p := Of(p) + [e]];
    }

    method Remove(p: Peer, e: Entry)
      modifies this
      ensures forall q :: Of(q) == if q == p then Without(old(Of(q)), e) else old(Of(q))
    {
      lists := lists[p := Without(Of(p), e)];
    }
  }

  /** The entry's stored address: its prefix, masked to the family's width. */
  function Address(k: Bits, width: nat): (r: Bits)
    requires |k| <= width
    ensures |r| == width && r[..|k|] == k
  {
    k + seq(width - |k|, _ => false)
  }

  /** maskSelf leaves the address that the entry's name stands for. */
  lemma MaskedAddress(ip: Bits, cidr: nat)
    requires cidr <= |ip|
    ensures Mask(ip, cidr) == Address(ip[..cidr], |ip|)
  {}

  /** The loop test of nodePlacement and lookup: the entry's prefix is a prefix of ip. */
  lemma CommonBitsTest(k: Bits, ip: Bits)
    requires IsAddress(ip) && |k| <= |ip|
    ensures CommonBits(Address(k, |ip|), ip) >= |k| <==> k <= ip
  {
    PrefixTest(Address(k, |ip|), |k|, ip);
  }

  /** Masked addresses agree up to where the shorter prefix ends or where the prefixes fork. */
  lemma ForkPoint(d: Bits, key: Bits, width: nat)
    requires width == IPV4_BITS || width == IPV6_BITS
    requires |d| <= width && |key| <= width && !(d <= key)
    ensures var common := CommonBits(Address(d, width), Address(key, width));
            if common >= |key| then key < d
            else common < |d| && key[..common] < d && key[..common] < key && d[common] != key[common]
  {
    var a, b := Address(d, width), Address(key, width);
    var common := CommonBits(a, b);
    CommonBitsSpec(a, b);
    assert forall i :: 0 <= i < common ==> a[i] == a[..common][i] == b[..common][i] == b[i];
    assert forall i :: 0 <= i < |d| ==> a[i] == a[..|d|][i] == d[i];
    assert forall i :: 0 <= i < |key| ==> b[i] == b[..|key|][i] == key[i];
  }

  /** Removing the (only) list element e. */
  function Without(l: seq<Entry>, e: Entry): seq<Entry> {
    if l == [] then [] else if l[0] == e then l[1..] else [l[0]] + Without(l[1..], e)
  }

  /** The list of q after the prefix of e has been given to p; m maps prefixes to peers before. */
  function ListAfterInsert(l: seq<Entry>, m: map<Bits, Peer>, e: Entry, p: Peer, q: Peer): seq<Entry> {
    var kept := ListAfterRemove(l, m, e, q);
    if p == q then kept + [e] else kept
  }

  /** The list of q after the entry e has lost its peer. */
  function ListAfterRemove(l: seq<Entry>, m: map<Bits, Peer>, e: Entry, q: Peer): seq<Entry> {
    if e.key in m && m[e.key] == q then Without(l, e) else l
  }

  class Trie {
    const width: nat
    const peers: PeerLists
    var shape: Outline           // child and parent pointers of every entry
    var peer: map<Bits, Peer>    // peer pointers that are not nil

    constructor (width: nat, peers: PeerLists)
      requires width == IPV4_BITS || width == IPV6_BITS
      ensures Valid() && this.width == width && this.peers == peers && peer == map[]
    {
      this.width, this.peers, peer := width, peers, map[];
      shape := Outline(None, map[], map[]);
    }

    ghost predicate Valid()
      reads this
    {
      && (width == IPV4_BITS || width == IPV6_BITS)
      && shape.Valid()
      && (forall k :: k in shape.kids ==> |k| <= width)
      && Canonical(shape, peer.Keys)
    }

    /** No entry named c has a prefix of ip of at most cidr bits. */
    ghost predicate Misses(c: Option<Bits>, ip: Bits, cidr: nat) {
      c.Some? ==> cidr < |c.value| || !(c.value <= ip)
    }

    /** `parent` is the deepest entry on the path of ip whose prefix has at most cidr bits. */
    ghost predicate Placed(parent: Option<Bits>, ip: Bits, cidr: nat)
      reads this
      requires |ip| == width && cidr <= width
    {
      match parent
      case None => Misses(shape.top, ip, cidr)
      case Some(p) =>
        && p in shape.kids && p <= ip && |p| <= cidr
        && (|p| < cidr ==> Misses(shape.kids[p].At(ip[|p|]), ip, cidr))
    }

    /** A placement short of cidr means the prefix has no entry yet. */
    lemma NotPlaced(parent: Option<Bits>, ip: Bits, cidr: nat)
      requires Valid() && |ip| == width && cidr <= width
      requires Placed(parent, ip, cidr) && (parent.Some? ==> |parent.value| < cidr)
      ensures ip[..cidr] !in shape.kids
    {
      var key := ip[..cidr];
      match parent
      case None => assert key in shape.kids ==> shape.Rooted(key);
      case Some(p) => assert Below(p, ip[|p|], key);
    }

    method NodePlacement(ip: Bits, cidr: nat) returns (parent: Option<Bits>, exact: bool)
      requires Valid() && |ip| == width && cidr <= width
      ensures Placed(parent, ip, cidr)
      ensures exact <==> parent.Some? && |parent.value| == cidr
    {
      parent, exact := None, false;
      var node := shape.top;
      if node.Some? { CommonBitsTest(node.value, ip); }
      while node.Some? && |node.value| <= cidr && CommonBits(Address(node.value, width), ip) >= |node.value|
        invariant node.Some? ==> node.value in shape.kids
        invariant node.Some? ==> (CommonBits(Address(node.value, width), ip) >= |node.value| <==> node.value <= ip)
        invariant parent.None? ==> node == shape.top
        invariant parent.Some? ==>
          var p := parent.value;
          && p in shape.kids && p <= ip && |p| < cidr
          && node == shape.kids[p].At(ip[|p|])
          && (node.Some? ==> |p| < |node.value|)
        invariant !exact
        decreases if node.None? then 0 else width + 1 - |node.value|
      {
        parent := node;
        if |node.value| == cidr {
          exact := true;
          return;
        }
        var bit := ip[|node.value|];
        node := shape.kids[node.value].At(bit);
        if node.Some? { CommonBitsTest(node.value, ip); }
      }
    }

    /** The longest prefix of ip in m belongs to r; r is None when no prefix matches. */
    static ghost predicate LongestMatch(m: map<Bits, Peer>, ip: Bits, r: Option<Peer>) {
      if r.None? then forall k :: k in m ==> !(k <= ip)
      else exists k :: k in m && k <= ip && m[k] == r.value && forall j :: j in m && j <= ip ==> |j| <= |k|
    }

    /** From an entry above k on the way to ip, ip's next bit leads to an entry above k. */
    lemma StepDown(n: Bits, ip: Bits, k: Bits)
      requires shape.Valid() && n in shape.kids && k in shape.kids && n <= k && k <= ip && k != n
      ensures |n| < |ip| && var c := shape.kids[n].At(ip[|n|]); c.Some? && c.value <= k
    {
      StrictPrefix(n, k);
      assert Below(n, ip[|n|], k);
    }

    /** What remains of the search: k is no longer than the best match or below the current entry. */
    static ghost predicate Settled(k: Bits, best: Option<Bits>, node: Option<Bits>) {
      (best.Some? && |k| <= |best.value|) || (node.Some? && node.value <= k)
    }

    method Lookup(ip: Bits) returns (found: Option<Peer>)
      requires Valid() && |ip| == width
      ensures LongestMatch(peer, ip, found)
    {
      found := None;
      ghost var best: Option<Bits> := None;
      var node := shape.top;
      if node.Some? { CommonBitsTest(node.value, ip); }
      forall k | k in peer ensures Settled(k, None, node) {
        assert shape.Rooted(k);
      }
      while node.Some? && CommonBits(Address(node.value, width), ip) >= |node.value|
        invariant node.Some? ==> node.value in shape.kids
        invariant node.Some? ==> (CommonBits(Address(node.value, width), ip) >= |node.value| <==> node.value <= ip)
        invariant found.None? <==> best.None?
        invariant best.Some? ==> best.value in peer && best.value <= ip && Some(peer[best.value]) == found
        invariant best.Some? && node.Some? ==> |best.value| < |node.value|
        invariant forall k {:trigger Settled(k, best, node)} :: k in peer && k <= ip ==> Settled(k, best, node)
        decreases if node.None? then 0 else width + 1 - |node.value|
      {
        var n := node.value;
        ghost var before := best;
        if n in peer {
          found := Some(peer[n]);
          best := node;
        }
        if |n| / 8 == width / 8 {
          forall k | k in peer && k <= ip ensures Settled(k, best, None) {
            assert Settled(k, before, Some(n));
            if n <= k { SamePrefix(n, k); }
          }
          node := None;
        } else {
          node := shape.kids[n].At(ip[|n|]);
          forall k | k in peer && k <= ip ensures Settled(k, best, node) {
            assert Settled(k, before, Some(n));
            if n <= k && k != n { StepDown(n, ip, k); }
          }
          if node.Some? { CommonBitsTest(node.value, ip); }
        }
      }
      forall k | k in peer && k <= ip ensures best.Some? && |k| <= |best.value| {
        assert Settled(k, best, node);
      }
    }

    /** Hangs the new entry x in slot s, above the entry (if any) that was there. */
    method Hang(x: Bits, s: Slot)
      requires shape.Valid() && shape.Fits(s, x) && x !in shape.kids
      requires shape.Get(s).Some? ==> x < shape.Get(s).value
      modifies this`shape
      ensures Inserted(old(shape), s, x, shape)
    {
      var down := shape.Get(s);
      shape := shape.New(x, s);
      if down.Some? {
        var bit := down.value[|x|];
        shape := shape.SetParent(down.value, In(x, bit));
        shape := shape.SetChild(x, bit, down);
      }
      shape := shape.Store(s, Some(x));
    }

    /** Hang, which leaves the outline valid. */
    method Link(x: Bits, s: Slot)
      requires shape.Valid() && shape.Fits(s, x) && x !in shape.kids
      requires shape.Get(s).Some? ==> x < shape.Get(s).value
      modifies this`shape
      ensures Inserted(old(shape), s, x, shape) && shape.Valid()
    {
      ghost var was := shape;
      Hang(x, s);
      InsertValid(was, s, x, shape);
    }

    /** Replaces the entry x by its only child, if it has one. */
    method Unlink(x: Bits)
      requires shape.Valid() && x in shape.kids
      requires shape.kids[x].zero.None? || shape.kids[x].one.None?
      modifies this`shape
      ensures Removed(old(shape), old(shape).up[x], x, shape) && shape.Valid()
      ensures old(shape).HasSlot(old(shape).up[x]) && old(shape).Get(old(shape).up[x]) == Some(x)
    {
      var s := shape.up[x];
      OnlyChild(shape, s, x);
      var child := shape.kids[x].At(shape.kids[x].zero.None?);
      if child.Some? {
        shape := shape.SetParent(child.value, s);
      }
      shape := shape.Store(s, child);
      shape := shape.Free(x);
      assert Removed(old(shape), s, x, shape);
      RemoveValid(old(shape), s, x, shape);
    }

    method AddToPeerEntries(k: Bits)
      requires k in peer
      modifies peers
      ensures forall q :: (peers.Of(q) ==
        if q == peer[k] then old(peers.Of(q)) + [Entry(width, k)] else old(peers.Of(q)))
    {
      peers.PushBack(peer[k], Entry(width, k));
    }

    method RemoveFromPeerEntries(k: Bits)
      modifies peers
      ensures forall q :: (peers.Of(q) ==
        if k in peer && q == peer[k] then Without(old(peers.Of(q)), Entry(width, k)) else old(peers.Of(q)))
    {
      if k in peer {
        peers.Remove(peer[k], Entry(width, k));
      }
    }

    /** An insertion that misses its exact entry: where the path leaves the trie. */
    ghost predicate Missing(key: Bits, s: Slot)
      reads this
    {
      && |key| <= width && key !in shape.kids
      && shape.Fits(s, key)
      && (shape.Get(s).Some? ==> !(shape.Get(s).value <= key))
    }

    /** The entry in the way either extends the new prefix or forks off from it further down. */
    lemma DownFork(key: Bits, s: Slot)
      requires shape.Valid() && Missing(key, s) && shape.Get(s).Some?
      requires width == IPV4_BITS || width == IPV6_BITS
      requires |shape.Get(s).value| <= width
      ensures var d := shape.Get(s).value;
              var common := CommonBits(Address(d, width), Address(key, width));
              if common >= |key| then key < d
              else
                var g := key[..common];
                && g < d && g < key && d[common] != key[common]
                && g !in shape.kids && shape.Fits(s, g)
    {
      var d := shape.Get(s).value;
      ForkPoint(d, key, width);
      var common := CommonBits(Address(d, width), Address(key, width));
      if common < |key| {
        ForkIsNew(key, s, key[..common]);
      }
    }

    lemma ForkIsNew(key: Bits, s: Slot, g: Bits)
      requires shape.Valid() && Missing(key, s) && shape.Get(s).Some?
      requires var d := shape.Get(s).value; g < d && g < key && d[|g|] != key[|g|]
      ensures g !in shape.kids && shape.Fits(s, g)
    {
      var d := shape.Get(s).value;
      assert s.In? ==> Below(s.k, s.b, d) && Below(s.k, s.b, key);
      assert s.In? ==> |s.k| < |g|;
      if s.In? { assert Below(s.k, s.b, g); }
      assert g in shape.kids ==> shape.Rooted(g);
    }

    /** Sets the peer of the entry k, new or already there, and threads it on the peer's list. */
    method SetPeer(k: Bits, p: Peer)
      modifies this`peer, peers
      ensures peer == old(peer)[k := p]
      ensures forall q :: (peers.Of(q) ==
        if q == p then old(peers.Of(q)) + [Entry(width, k)] else old(peers.Of(q)))
    {
      peer := peer[k := p];
      AddToPeerEntries(k);
    }

    /** The second half of insert: key, whose address is bits, has no entry and belongs in slot s. */
    method InsertMissing(key: Bits, bits: Bits, s: Slot, ghost keyed: set<Bits>)
      requires shape.Valid() && Canonical(shape, keyed)
      requires width == IPV4_BITS || width == IPV6_BITS
      requires forall k :: k in shape.kids ==> |k| <= width
      requires Missing(key, s) && bits == Address(key, width)
      modifies this`shape
      ensures shape.Valid() && Canonical(shape, keyed + {key})
      ensures forall k :: k in shape.kids ==> |k| <= width
    {
      ghost var was := shape;
      var down := shape.Get(s);
      if down.None? {
        Link(key, s);
        InsertCanonical(was, s, key, shape, keyed);
        return;
      }
      DownFork(key, s);
      var common := CommonBits(Address(down.value, width), bits);
      var cidr := if common < |key| then common else |key|;
      if |key| == cidr {
        Link(key, s);
        InsertCanonical(was, s, key, shape, keyed);
        return;
      }
      var branch := MaskedPrefix(bits, key, cidr);
      LinkBranch(branch, key, s, keyed);
    }

    /** maskSelf of the branching entry. */
    method MaskedPrefix(bits: Bits, key: Bits, cidr: nat) returns (branch: Bits)
      requires |key| <= width && bits == Address(key, width) && cidr <= |key|
      ensures branch == key[..cidr]
    {
      MaskedAddress(bits, cidr);
      branch := Mask(bits, cidr)[..cidr];
    }

    /** A branching entry takes slot s, with the displaced entry on one side... */
    method LinkFork(branch: Bits, s: Slot, bit: bool, ghost keyed: set<Bits>)
      requires shape.Valid() && Canonical(shape, keyed)
      requires branch !in shape.kids && shape.Fits(s, branch)
      requires shape.Get(s).Some? && branch < shape.Get(s).value && shape.Get(s).value[|branch|] != bit
      modifies this`shape
      ensures shape.Valid() && CanonicalBut(shape, keyed, branch, bit)
      ensures forall k :: k in shape.kids ==> k in old(shape).kids || k == branch
    {
      ghost var was := shape;
      Link(branch, s);
      HalfBranch(was, s, branch, shape, bit, keyed);
    }

    /** ...and key on the other. */
    method LinkBranch(branch: Bits, key: Bits, s: Slot, ghost keyed: set<Bits>)
      requires shape.Valid() && Canonical(shape, keyed)
      requires key !in shape.kids && branch !in shape.kids && shape.Fits(s, branch)
      requires shape.Get(s).Some? && branch < key && branch < shape.Get(s).value
      requires shape.Get(s).value[|branch|] != key[|branch|]
      modifies this`shape
      ensures shape.Valid() && Canonical(shape, keyed + {key})
      ensures forall k :: k in shape.kids ==> k in old(shape).kids || k == branch || k == key
    {
      var bit := key[|branch|];
      LinkFork(branch, s, bit, keyed);
      ghost var mid := shape;
      Link(key, In(branch, bit));
      WholeBranch(mid, branch, bit, key, shape, keyed);
    }

    /** The first half of insert: the prefix already has an entry. */
    method Reassign(key: Bits, p: Peer)
      requires Valid() && key in shape.kids
      modifies this`peer, peers
      ensures Valid() && peer == old(peer)[key := p]
      ensures forall q :: peers.Of(q) == ListAfterInsert(old(peers.Of(q)), old(peer), Entry(width, key), p, q)
    {
      RemoveFromPeerEntries(key);
      SetPeer(key, p);
    }

    lemma PlacedMissing(node: Option<Bits>, ip: Bits, cidr: nat)
      requires Valid() && |ip| == width && cidr <= width
      requires Placed(node, ip, cidr) && (node.Some? ==> |node.value| < cidr)
      ensures Missing(ip[..cidr], if node.None? then Top else In(node.value, ip[|node.value|]))
    {
      NotPlaced(node, ip, cidr);
      var s := if node.None? then Top else In(node.value, ip[|node.value|]);
      if node.Some? { PrefixOfPrefix(node.value, ip, cidr); }
      if shape.Get(s).Some? { PrefixOfPrefix(shape.Get(s).value, ip, cidr); }
    }

    method Insert(ip: Bits, cidr: nat, p: Peer)
      requires Valid() && |ip| == width && cidr <= width
      modifies this, peers
      ensures Valid()
      ensures peer == old(peer)[ip[..cidr] := p]
      ensures forall q :: (peers.Of(q) ==
        ListAfterInsert(old(peers.Of(q)), old(peer), Entry(width, ip[..cidr]), p, q))
    {
      var key := ip[..cidr];
      var slot := Top;
      if shape.top.Some? {
        var node, exact := NodePlacement(ip, cidr);
        if exact {
          assert node.value == key;
          Reassign(key, p);
          return;
        }
        if node.Some? {
          slot := In(node.value, ip[|node.value|]);
        }
        PlacedMissing(node, ip, cidr);
      }
      var bits := Mask(ip, cidr);
      MaskedAddress(ip, cidr);
      SetPeer(key, p);
      InsertMissing(key, bits, slot, old(peer).Keys);
    }

    /** The entry k has lost its peer: it goes, unless it still branches. */
    method Detach(k: Bits)
      requires shape.Valid() && Canonical(shape, peer.Keys + {k}) && k in shape.kids && k !in peer
      modifies this`shape
      ensures shape.Valid() && Canonical(shape, peer.Keys) && shape.kids.Keys <= old(shape).kids.Keys
    {
      var own := shape.kids[k];
      if own.zero.Some? && own.one.Some? {
        return;
      }
      var s := shape.up[k];
      ghost var was := shape;
      Unlink(k);
      assert peer.Keys + {k} - {k} == peer.Keys;
      if own.zero.Some? || own.one.Some? {
        SpliceCanonical(was, s, k, shape, peer.Keys + {k});
        return;
      }
      if s.Top? || s.k in peer {
        LeafCanonical(was, s, k, shape, peer.Keys + {k});
        return;
      }
      UnlinkOrphan(was, s, k);
    }

    /** The parent of a removed leaf has no peer and no other use. */
    method UnlinkOrphan(ghost was: Outline, s: Slot, k: Bits)
      requires was.Valid() && Canonical(was, peer.Keys + {k}) && k in was.kids && k !in peer
      requires was.HasSlot(s) && was.Get(s) == Some(k) && Removed(was, s, k, shape) && shape.Valid()
      requires was.kids[k] == Kids(None, None) && s.In? && s.k !in peer
      modifies this`shape
      ensures shape.Valid() && Canonical(shape, peer.Keys) && shape.kids.Keys <= was.kids.Keys
    {
      assert Below(s.k, s.b, k);
      OrphanedBranch(was, s, k, shape, peer.Keys + {k});
      assert peer.Keys + {k} - {k} + {s.k} == peer.Keys + {s.k};
      ghost var mid := shape;
      Unlink(s.k);
      SpliceCanonical(mid, mid.up[s.k], s.k, shape, peer.Keys + {s.k});
      assert peer.Keys + {s.k} - {s.k} == peer.Keys;
    }

    /** trieEntry.remove */
    method RemoveEntry(k: Bits)
      requires Valid() && k in shape.kids
      modifies this`peer, this`shape, peers
      ensures Valid() && peer == old(peer) - {k}
      ensures forall q :: (peers.Of(q) ==
        ListAfterRemove(old(peers.Of(q)), old(peer), Entry(width, k), q))
    {
      RemoveFromPeerEntries(k);
      peer := peer - {k};
      assert Canonical(shape, peer.Keys + {k});
      Detach(k);
    }

    /** Only an exact entry of this very peer is removed. */
    method Remove(ip: Bits, cidr: nat, p: Option<Peer>)
      requires Valid() && |ip| == width && cidr <= width
      modifies this`peer, this`shape, peers
      ensures Valid()
      ensures var key := ip[..cidr];
        if key in old(peer) && p == Some(old(peer)[key]) then
          && peer == old(peer) - {key}
          && forall q :: peers.Of(q) == ListAfterRemove(old(peers.Of(q)), old(peer), Entry(width, key), q)
        else
          peer == old(peer) && forall q :: peers.Of(q) == old(peers.Of(q))
    {
      var node, exact := NodePlacement(ip, cidr);
      if !exact {
        NotPlaced(node, ip, cidr);
        return;
      }
      assert node.value == ip[..cidr];
      if p != (if node.value in peer then Some(peer[node.value]) else None) {
        return;
      }
      RemoveEntry(node.value);
    }
  }

  lemma {:induction false} WithoutMembers(l: seq<Entry>, e: Entry)
    requires Distinct(l)
    ensures Distinct(Without(l, e))
    ensures forall x :: x in Without(l, e) <==> x in l && x != e
  {
    if l != [] {
      assert l == [l[0]] + l[1..];
      if l[0] != e {
        WithoutMembers(l[1..], e);
        assert l[0] !in Without(l[1..], e);
      }
    }
  }

  /** The prefix-to-peer maps of the two families. */
  datatype Routes = Routes(v4: map<Bits, Peer>, v6: map<Bits, Peer>) {

    function Of(width: nat): map<Bits, Peer> {
      if width == IPV4_BITS then v4 else v6
    }

    function With(width: nat, m: map<Bits, Peer>): Routes {
      if width == IPV4_BITS then this.(v4 := m) else this.(v6 := m)
    }

    predicate Owns(p: Peer, e: Entry) {
      (e.width == IPV4_BITS || e.width == IPV6_BITS) && e.key in Of(e.width) && Of(e.width)[e.key] == p
    }
  }

  /** The history of a table, and what it should amount to. */
  datatype Op =
    | OpInsert(ip: Bits, cidr: nat, peer: Peer)
    | OpRemove(ip: Bits, cidr: nat, peer: Peer)
    | OpRemoveByPeer(peer: Peer)
  {
    predicate WellFormed() {
      !OpRemoveByPeer? ==> IsAddress(ip) && cidr <= |ip|
    }
  }

  function WithoutPeer(m: map<Bits, Peer>, p: Peer): map<Bits, Peer> {
    map k | k in m && m[k] != p :: m[k]
  }

  function Apply(r: Routes, op: Op): Routes
    requires op.WellFormed()
  {
    match op
    case OpInsert(ip, cidr, p) => r.With(|ip|, r.Of(|ip|)[ip[..cidr] := p])
    case OpRemove(ip, cidr, p) =>
      var m := r.Of(|ip|);
      if ip[..cidr] in m && m[ip[..cidr]] == p then r.With(|ip|, m - {ip[..cidr]}) else r
    case OpRemoveByPeer(p) => Routes(WithoutPeer(r.v4, p), WithoutPeer(r.v6, p))
  }

  /** A peer's list holds each of its prefixes exactly once and nothing else. */
  ghost predicate ListOf(l: seq<Entry>, r: Routes, p: Peer) {
    Distinct(l) && forall e :: e in l <==> r.Owns(p, e)
  }

  lemma InsertKeepsList(l: seq<Entry>, r: Routes, ip: Bits, cidr: nat, p: Peer, q: Peer)
    requires ListOf(l, r, q) && IsAddress(ip) && cidr <= |ip|
    ensures ListOf(ListAfterInsert(l, r.Of(|ip|), Entry(|ip|, ip[..cidr]), p, q), Apply(r, OpInsert(ip, cidr, p)), q)
  {
    var e := Entry(|ip|, ip[..cidr]);
    var kept := ListAfterRemove(l, r.Of(|ip|), e, q);
    KeptMembers(l, r, e, q);
    OwnsAfterInsert(r, ip, cidr, p, q);
    AppendMember(kept, e);
  }

  lemma AppendMember(l: seq<Entry>, e: Entry)
    requires Distinct(l) && e !in l
    ensures Distinct(l + [e]) && forall x :: x in l + [e] <==> x in l || x == e
  {}

  lemma KeptMembers(l: seq<Entry>, r: Routes, e: Entry, q: Peer)
    requires ListOf(l, r, q) && (e.width == IPV4_BITS || e.width == IPV6_BITS)
    ensures var kept := ListAfterRemove(l, r.Of(e.width), e, q);
            Distinct(kept) && forall x :: x in kept <==> r.Owns(q, x) && x != e
  {
    WithoutMembers(l, e);
    assert e in l <==> r.Owns(q, e);
  }

  lemma OwnsAfterInsert(r: Routes, ip: Bits, cidr: nat, p: Peer, q: Peer)
    requires IsAddress(ip) && cidr <= |ip|
    ensures var e := Entry(|ip|, ip[..cidr]);
            forall x :: Apply(r, OpInsert(ip, cidr, p)).Owns(q, x) <==> if x == e then p == q else r.Owns(q, x)
  {}

  lemma RemoveKeepsList(l: seq<Entry>, r: Routes, w: nat, k: Bits, q: Peer)
    requires ListOf(l, r, q) && (w == IPV4_BITS || w == IPV6_BITS)
    ensures ListOf(ListAfterRemove(l, r.Of(w), Entry(w, k), q), r.With(w, r.Of(w) - {k}), q)
  {
    WithoutMembers(l, Entry(w, k));
  }

  function First(l: seq<Entry>): Option<Entry> {
    if l == [] then None else Some(l[0])
  }

  /** The element after e in a list that holds e. */
  function Next(l: seq<Entry>, e: Entry): Option<Entry> {
    if l == [] then None
    else if l[0] == e then (if |l| == 1 then None else Some(l[1]))
    else Next(l[1..], e)
  }

  /** The maps without the prefixes listed in l. */
  function Dropped(r: Routes, l: seq<Entry>): Routes {
    Routes(map k | k in r.v4 && Entry(IPV4_BITS, k) !in l :: r.v4[k],
           map k | k in r.v6 && Entry(IPV6_BITS, k) !in l :: r.v6[k])
  }

  lemma DroppedNone(r: Routes)
    ensures Dropped(r, []) == r
  {}

  lemma MoveFront(done: seq<Entry>, l: seq<Entry>)
    requires l != []
    ensures done + [l[0]] + l[1..] == done + l
  {}

  lemma DroppedStep(r: Routes, l: seq<Entry>, e: Entry)
    requires e.width == IPV4_BITS || e.width == IPV6_BITS
    ensures var d := Dropped(r, l); Dropped(r, l + [e]) == d.With(e.width, d.Of(e.width) - {e.key})
  {}

  /** The front of a peer's list: its entry, its successor, and the list without it. */
  lemma FrontOwned(l: seq<Entry>, r: Routes, p: Peer)
    requires ListOf(l, r, p) && l != []
    ensures r.Owns(p, l[0])
    ensures Next(l, l[0]) == First(l[1..])
    ensures ListAfterRemove(l, r.Of(l[0].width), l[0], p) == l[1..]
  {
    assert l[0] in l;
  }

  lemma DroppedList(r: Routes, l: seq<Entry>, p: Peer)
    requires ListOf(l, r, p)
    ensures Dropped(r, l) == Routes(WithoutPeer(r.v4, p), WithoutPeer(r.v6, p))
  {
    forall k | k in r.v4 ensures r.v4[k] == p <==> Entry(IPV4_BITS, k) in l {
      assert r.Owns(p, Entry(IPV4_BITS, k)) <==> r.v4[k] == p;
    }
    forall k | k in r.v6 ensures r.v6[k] == p <==> Entry(IPV6_BITS, k) in l {
      assert r.Owns(p, Entry(IPV6_BITS, k)) <==> r.v6[k] == p;
    }
  }

  function ApplyAll(r: Routes, history: seq<Op>): Routes
    requires forall op :: op in history ==> op.WellFormed()
  {
    if history == [] then r
    else Apply(ApplyAll(r, history[..|history| - 1]), history[|history| - 1])
  }

  /** The operation gives the prefix k of the family to p. */
  predicate Gives(op: Op, width: nat, k: Bits, p: Peer)
    requires op.WellFormed()
  {
    op.OpInsert? && |op.ip| == width && op.ip[..op.cidr] == k && op.peer == p
  }

  /** The operation takes the prefix k away from p: it goes to some peer, or is removed from p, or all of p's are. */
  predicate Takes(op: Op, width: nat, k: Bits, p: Peer)
    requires op.WellFormed()
  {
    match op
    case OpInsert(ip, cidr, _) => |ip| == width && ip[..cidr] == k
    case OpRemove(ip, cidr, q) => |ip| == width && ip[..cidr] == k && q == p
    case OpRemoveByPeer(q) => q == p
  }

  /** k is p's after the operation just when it was given to p, or was p's and was not taken away. */
  lemma OneOp(r: Routes, op: Op, width: nat, k: Bits, p: Peer)
    requires op.WellFormed() && (width == IPV4_BITS || width == IPV6_BITS)
    ensures Apply(r, op).Owns(p, Entry(width, k)) <==>
              Gives(op, width, k, p) || (r.Owns(p, Entry(width, k)) && !Takes(op, width, k, p))
  {
    match op
    case OpInsert(ip, cidr, q) => OwnsAfterInsert(r, ip, cidr, q, p);
    case OpRemove(ip, cidr, q) =>
    case OpRemoveByPeer(q) =>
  }

  /** The i-th operation gives k to p and none after it takes it away. */
  ghost predicate GivenLast(history: seq<Op>, i: nat, width: nat, k: Bits, p: Peer)
    requires i < |history| && forall op :: op in history ==> op.WellFormed()
  {
    && Gives(history[i], width, k, p)
    && forall j :: i < j < |history| ==> !Takes(history[j], width, k, p)
  }

  lemma GivenJustNow(history: seq<Op>, width: nat, k: Bits, p: Peer)
    requires history != [] && forall op :: op in history ==> op.WellFormed()
    ensures GivenLast(history, |history| - 1, width, k, p) <==> Gives(history[|history| - 1], width, k, p)
  {}

  lemma GivenLastStep(history: seq<Op>, i: nat, width: nat, k: Bits, p: Peer)
    requires i + 1 < |history| && forall op :: op in history ==> op.WellFormed()
    ensures var n := |history| - 1;
            GivenLast(history, i, width, k, p) <==>
              GivenLast(history[..n], i, width, k, p) && !Takes(history[n], width, k, p)
  {
    var before := history[..|history| - 1];
    assert forall j :: 0 <= j < |before| ==> before[j] == history[j];
  }

  /** A history that starts with nothing ends with k at p just when it was given to p and not taken away since. */
  lemma {:induction false} LastGivenStays(history: seq<Op>, width: nat, k: Bits, p: Peer)
    requires forall op :: op in history ==> op.WellFormed()
    requires width == IPV4_BITS || width == IPV6_BITS
    ensures ApplyAll(Routes(map[], map[]), history).Owns(p, Entry(width, k)) <==>
              exists i: nat :: i < |history| && GivenLast(history, i, width, k, p)
  {
    hide Gives, Takes, GivenLast, Apply;
    if history != [] {
      var n := |history| - 1;
      var before := history[..n];
      LastGivenStays(before, width, k, p);
      OneOp(ApplyAll(Routes(map[], map[]), before), history[n], width, k, p);
      GivenJustNow(history, width, k, p);
      forall i: nat | i < n
        ensures GivenLast(history, i, width, k, p) <==>
                  GivenLast(before, i, width, k, p) && !Takes(history[n], width, k, p)
      {
        GivenLastStep(history, i, width, k, p);
      }
    }
  }

  class Table {
    const v4: Trie
    const v6: Trie
    const peers: PeerLists

    constructor ()
      ensures Valid() && fresh(Repr()) && Contents() == Routes(map[], map[])
    {
      var lists := new PeerLists();
      peers := lists;
      v4 := new Trie(IPV4_BITS, lists);
      v6 := new Trie(IPV6_BITS, lists);
    }

    ghost function Repr(): set<object> {
      {v4, v6, peers}
    }

    ghost function Contents(): Routes
      reads Repr()
    {
      Routes(v4.peer, v6.peer)
    }

    ghost predicate Valid()
      reads Repr()
    {
      && v4 != v6 && v4.peers == v6.peers == peers
      && v4.Valid() && v6.Valid() && v4.width == IPV4_BITS && v6.width == IPV6_BITS
      && (forall p {:trigger peers.Of(p)} :: ListOf(peers.Of(p), Contents(), p))
    }

    method Insert(ip: Bits, cidr: nat, p: Peer)
      requires Valid() && IsAddress(ip) && cidr <= |ip|
      modifies Repr()
      ensures Valid()
      ensures Contents() == Apply(old(Contents()), OpInsert(ip, cidr, p))
    {
      if |ip| == IPV6_BITS {
        v6.Insert(ip, cidr, p);
      } else {
        v4.Insert(ip, cidr, p);
      }
      forall q ensures ListOf(peers.Of(q), Contents(), q) {
        InsertKeepsList(old(peers.Of(q)), old(Contents()), ip, cidr, p, q);
      }
    }

    /** entry.remove() in the trie of the entry's family. */
    method RemoveEntry(e: Entry)
      requires Valid() && (e.width == IPV4_BITS || e.width == IPV6_BITS) && e.key in Contents().Of(e.width)
      modifies Repr()
      ensures Valid()
      ensures Contents() == old(Contents()).With(e.width, old(Contents()).Of(e.width) - {e.key})
      ensures forall q :: peers.Of(q) == ListAfterRemove(old(peers.Of(q)), old(Contents()).Of(e.width), e, q)
    {
      if e.width == IPV6_BITS {
        v6.RemoveEntry(e.key);
      } else {
        v4.RemoveEntry(e.key);
      }
      forall q ensures ListOf(peers.Of(q), Contents(), q) {
        RemoveKeepsList(old(peers.Of(q)), old(Contents()), e.width, e.key, q);
      }
    }

    method Remove(ip: Bits, cidr: nat, p: Peer)
      requires Valid() && IsAddress(ip) && cidr <= |ip|
      modifies Repr()
      ensures Valid()
      ensures Contents() == Apply(old(Contents()), OpRemove(ip, cidr, p))
    {
      if |ip| == IPV6_BITS {
        v6.Remove(ip, cidr, Some(p));
      } else {
        v4.Remove(ip, cidr, Some(p));
      }
      forall q ensures ListOf(peers.Of(q), Contents(), q) {
        RemoveKeepsList(old(peers.Of(q)), old(Contents()), |ip|, ip[..cidr], q);
      }
    }

    /** Walks the peer's list, taking the next element before each removal. */
    method RemoveByPeer(p: Peer)
      requires Valid()
      modifies Repr()
      ensures Valid()
      ensures Contents() == Apply(old(Contents()), OpRemoveByPeer(p))
      ensures peers.Of(p) == [] && forall q :: q != p ==> peers.Of(q) == old(peers.Of(q))
    {
      ghost var all := peers.Of(p);
      ghost var done: seq<Entry> := [];
      DroppedNone(old(Contents()));
      var elem := First(peers.Of(p));
      while elem.Some?
        invariant Valid()
        invariant done + peers.Of(p) == all
        invariant elem == First(peers.Of(p))
        invariant forall q :: q != p ==> peers.Of(q) == old(peers.Of(q))
        invariant Contents() == Dropped(old(Contents()), done)
        decreases |peers.Of(p)|
      {
        var e := elem.value;
        var next := Next(peers.Of(p), e);
        FrontOwned(peers.Of(p), Contents(), p);
        DroppedStep(old(Contents()), done, e);
        MoveFront(done, peers.Of(p));
        RemoveEntry(e);
        done := done + [e];
        elem := next;
      }
      assert peers.Of(p) == [];
      assert done + [] == done;
      DroppedList(old(Contents()), all, p);
    }

    /** Calls cb on the peer's prefixes until it declines; the result is what cb has seen. */
    method EntriesForPeer(p: Peer, cb: Entry -> bool) returns (seen: seq<Entry>)
      requires Valid()
      ensures seen <= peers.Of(p)
      ensures forall i :: 0 <= i < |seen| - 1 ==> cb(seen[i])
      ensures seen == peers.Of(p) || (seen != [] && !cb(seen[|seen| - 1]))
      ensures Distinct(seen) && forall e :: e in seen ==> Contents().Owns(p, e)
      ensures (forall e :: cb(e)) ==> forall e :: Contents().Owns(p, e) ==> e in seen
    {
      seen := [];
      var l := peers.Of(p);
      for i := 0 to |l|
        invariant seen == l[..i]
        invariant forall j :: 0 <= j < i ==> cb(l[j])
      {
        seen := seen + [l[i]];
        if !cb(l[i]) {
          return;
        }
      }
    }

    method Lookup(ip: Bits) returns (found: Option<Peer>)
      requires Valid() && IsAddress(ip)
      ensures Trie.LongestMatch(Contents().Of(|ip|), ip, found)
    {
      if |ip| == IPV6_BITS {
        found := v6.Lookup(ip);
      } else {
        found := v4.Lookup(ip);
      }
    }

    /** Any history leaves the table with exactly the prefix-to-peer maps the history spells out. */
    method Replay(history: seq<Op>)
      requires Valid()
      requires forall op :: op in history ==> op.WellFormed()
      modifies Repr()
      ensures Valid()
      ensures Contents() == ApplyAll(old(Contents()), history)
    {
      for i := 0 to |history|
        invariant Valid()
        invariant Contents() == ApplyAll(old(Contents()), history[..i])
      {
        assert history[..i + 1][..i] == history[..i];
        assert history[i] in history;
        match history[i]
        case OpInsert(ip, cidr, p) => Insert(ip, cidr, p);
        case OpRemove(ip, cidr, p) => Remove(ip, cidr, p);
        case OpRemoveByPeer(p) => RemoveByPeer(p);
      }
      assert history[..|history|] == history;
    }

    /** Tables with equal contents have equal shapes, of at most 2n - 1 entries for n prefixes. */
    lemma ShapeDetermined(other: Table)
      requires Valid() && other.Valid() && Contents() == other.Contents()
      ensures v4.shape == other.v4.shape && v6.shape == other.v6.shape
      ensures v4.peer != map[] ==> |v4.shape.kids.Keys| <= 2 * |v4.peer.Keys| - 1
      ensures v6.peer != map[] ==> |v6.shape.kids.Keys| <= 2 * |v6.peer.Keys| - 1
    {
      ShapeUnique(v4.shape, other.v4.shape, v4.peer.Keys, IPV4_BITS);
      ShapeUnique(v6.shape, other.v6.shape, v6.peer.Keys, IPV6_BITS);
      if v4.peer != map[] {
        assert v4.peer.Keys != {};
        SizeBound(v4.shape, v4.peer.Keys, IPV4_BITS);
      }
      if v6.peer != map[] {
        assert v6.peer.Keys != {};
        SizeBound(v6.shape, v6.peer.Keys, IPV6_BITS);
      }
    }
  }
}

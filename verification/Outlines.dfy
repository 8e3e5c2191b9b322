/**
  The outline of a path-compressed binary trie: which prefixes have an entry and
  which entry hangs in each child slot. Pure counterpart of the linked entries.
 */
module Outlines {
  import opened Wrappers
  import opened IpBits

  datatype Kids = Kids(zero: Option<Bits>, one: Option<Bits>) {
    function At(b: bool): Option<Bits> {
      if b then one else zero
    }

    function With(b: bool, c: Option<Bits>): (r: Kids)
      ensures r.At(b) == c && r.At(!b) == At(!b)
    {
      if b then this.(one := c) else this.(zero := c)
    }
  }

  /** m lies below the b-slot of k. */
  predicate Below(k: Bits, b: bool, m: Bits) {
    k < m && m[|k|] == b
  }

  /** A child slot of an entry, or the slot of the family's root. */
  datatype Slot = Top | In(k: Bits, b: bool)

  /** `up` gives the slot each entry hangs in. */
  datatype Outline = Outline(top: Option<Bits>, kids: map<Bits, Kids>, up: map<Bits, Slot>) {

    ghost predicate Valid() {
      Linked() && Reaching()
    }

    /** Every entry is on the path of its own prefix, from the top and from any entry above it. */
    ghost predicate Reaching() {
      && (forall k {:trigger Rooted(k)} :: k in kids ==> Rooted(k))
      && (forall k, b, m {:trigger Below(k, b, m)} :: k in kids && m in kids && Below(k, b, m) ==>
            kids[k].At(b).Some? && kids[k].At(b).value <= m)
    }

    predicate Rooted(k: Bits) {
      top.Some? && top.value <= k
    }

    /** Links stay inside the trie, go down to longer prefixes, and are inverted by `up`. */
    ghost predicate Linked() {
      && (top.None? ==> kids.Keys == {})
      && up.Keys == kids.Keys
      && (top.Some? ==> top.value in kids && up[top.value] == Top)
      && (forall k, b {:trigger kids[k].At(b)} :: k in kids && kids[k].At(b).Some? ==>
            var c := kids[k].At(b).value;
            c in kids && Below(k, b, c) && up[c] == In(k, b))
      && (forall k {:trigger up[k]} :: k in up ==> HasSlot(up[k]) && Get(up[k]) == Some(k))
    }

    predicate HasSlot(s: Slot) {
      s.In? ==> s.k in kids
    }

    /** What hangs in a slot. */
    function Get(s: Slot): Option<Bits>
      requires HasSlot(s)
    {
      match s
      case Top => top
      case In(k, b) => kids[k].At(b)
    }

    /** Writes an entry's child pointer. */
    function SetChild(k: Bits, b: bool, c: Option<Bits>): Outline
      requires k in kids
    {
      this.(kids := kids[k := kids[k].With(b, c)])
    }

    /** Writes an entry's parent link. */
    function SetParent(k: Bits, s: Slot): Outline {
      this.(up := up[k := s])
    }

    /** Writes through a parent link. */
    function Store(s: Slot, c: Option<Bits>): Outline
      requires HasSlot(s)
    {
      match s
      case Top => this.(top := c)
      case In(k, b) => SetChild(k, b, c)
    }

    /** A new entry without children. */
    function New(k: Bits, s: Slot): Outline {
      this.(kids := kids[k := Kids(None, None)], up := up[k := s])
    }

    /** An entry's pointers are zeroed; nothing points to it any more. */
    function Free(k: Bits): Outline {
      this.(kids := kids - {k}, up := up - {k})
    }

    /** x may hang in slot s. */
    predicate Fits(s: Slot, x: Bits) {
      s.In? ==> s.k in kids && Below(s.k, s.b, x)
    }
  }

  /** r is o with the new entry x in slot s, above what hung there. */
  ghost predicate Inserted(o: Outline, s: Slot, x: Bits, r: Outline)
    requires o.HasSlot(s)
  {
    var d := o.Get(s);
    && r.kids.Keys == o.kids.Keys + {x} && r.up.Keys == o.up.Keys + {x}
    && r.top == (if s.Top? then Some(x) else o.top)
    && (forall k, b :: k in o.kids ==>
          r.kids[k].At(b) == if s == In(k, b) then Some(x) else o.kids[k].At(b))
    && (forall b :: r.kids[x].At(b) == if d.Some? && |x| < |d.value| && d.value[|x|] == b then d else None)
    && (forall k :: k in o.up ==>
          r.up[k] == if d == Some(k) && |x| < |k| then In(x, k[|x|]) else o.up[k])
    && r.up[x] == s
  }

  lemma InsertKid(o: Outline, s: Slot, x: Bits, r: Outline, k: Bits, b: bool)
    requires o.Linked() && o.Fits(s, x) && x !in o.kids && Inserted(o, s, x, r)
    requires o.Get(s).Some? ==> x < o.Get(s).value
    requires k in r.kids && r.kids[k].At(b).Some?
    ensures var c := r.kids[k].At(b).value; c in r.kids && Below(k, b, c) && r.up[c] == In(k, b)
  {
    if k != x && s != In(k, b) {
      assert r.kids[k].At(b) == o.kids[k].At(b);
    }
  }

  lemma InsertLinked(o: Outline, s: Slot, x: Bits, r: Outline)
    requires o.Linked() && o.Fits(s, x) && x !in o.kids && Inserted(o, s, x, r)
    requires o.Get(s).Some? ==> x < o.Get(s).value
    ensures r.Linked()
  {
    forall k, b | k in r.kids && r.kids[k].At(b).Some?
      ensures var c := r.kids[k].At(b).value; c in r.kids && Below(k, b, c) && r.up[c] == In(k, b)
    {
      InsertKid(o, s, x, r, k, b);
    }
    forall k | k in r.up
      ensures r.HasSlot(r.up[k]) && r.Get(r.up[k]) == Some(k)
    {
      if k != x { assert o.Get(o.up[k]) == Some(k); }
    }
  }

  /** What lies below a new entry lies below the entry it displaced. */
  lemma InsertAbove(o: Outline, s: Slot, x: Bits, m: Bits)
    requires o.Valid() && o.Fits(s, x) && m in o.kids && x < m
    requires o.Get(s).Some? ==> x < o.Get(s).value
    ensures var d := o.Get(s); d.Some? && d.value <= m && d.value[|x|] == m[|x|]
  {
    if s.In? { assert Below(s.k, s.b, m); } else { assert o.Rooted(m); }
  }

  lemma InsertPath(o: Outline, s: Slot, x: Bits, r: Outline, k: Bits, b: bool, m: Bits)
    requires o.Valid() && o.Fits(s, x) && x !in o.kids && Inserted(o, s, x, r)
    requires o.Get(s).Some? ==> x < o.Get(s).value
    requires k in r.kids && m in r.kids && Below(k, b, m)
    ensures r.kids[k].At(b).Some? && r.kids[k].At(b).value <= m
  {
    assert k in o.kids ==> o.Rooted(k);
    if k == x {
      InsertAbove(o, s, x, m);
    } else if m == x {
      if s.In? && k != s.k {
        if |k| < |s.k| { assert Below(k, b, s.k); } else { assert Below(s.k, s.b, k); }
      }
    } else if s == In(k, b) {
      assert x < o.kids[k].At(b).value <= m;
    }
  }

  /** Inserting an entry in a slot that fits keeps the trie a trie. */
  lemma InsertValid(o: Outline, s: Slot, x: Bits, r: Outline)
    requires o.Valid() && o.Fits(s, x) && x !in o.kids && Inserted(o, s, x, r)
    requires o.Get(s).Some? ==> x < o.Get(s).value
    ensures r.Valid()
  {
    InsertLinked(o, s, x, r);
    forall k, b, m | k in r.kids && m in r.kids && Below(k, b, m)
      ensures r.kids[k].At(b).Some? && r.kids[k].At(b).value <= m
    {
      InsertPath(o, s, x, r, k, b, m);
    }
    forall k | k in r.kids
      ensures r.Rooted(k)
    {
      if k != x { assert o.Rooted(k); }
      if s.In? { assert o.Rooted(s.k); }
    }
  }

  /** r is o with entry x of slot s replaced by its only child, if any. */
  ghost predicate Removed(o: Outline, s: Slot, x: Bits, r: Outline)
    requires x in o.kids
  {
    var c := o.kids[x].At(o.kids[x].zero.None?);
    && r.kids.Keys == o.kids.Keys - {x} && r.up.Keys == o.up.Keys - {x}
    && r.top == (if s.Top? then c else o.top)
    && (forall k, b :: k in r.kids ==>
          r.kids[k].At(b) == if s == In(k, b) then c else o.kids[k].At(b))
    && (forall k :: k in r.up ==> r.up[k] == if c == Some(k) then s else o.up[k])
  }

  lemma OnlyChild(o: Outline, s: Slot, x: Bits)
    requires o.Linked() && o.HasSlot(s) && o.Get(s) == Some(x)
    requires o.kids[x].zero.None? || o.kids[x].one.None?
    ensures var c := o.kids[x].At(o.kids[x].zero.None?);
            && (c.Some? ==> c.value in o.kids && x < c.value && (exists b :: o.up[c.value] == In(x, b)))
            && (forall b :: o.kids[x].At(b).Some? ==> o.kids[x].At(b) == c)
  {}

  /** Everything below x is below its only child. */
  lemma RemoveLeadsDown(o: Outline, s: Slot, x: Bits, m: Bits)
    requires o.Valid() && o.HasSlot(s) && o.Get(s) == Some(x) && m in o.kids
    requires o.kids[x].zero.None? || o.kids[x].one.None?
    ensures x < m ==> var c := o.kids[x].At(o.kids[x].zero.None?); c.Some? && c.value <= m
    ensures x <= m <==> x == m || x < m
  {
    if x < m {
      assert Below(x, m[|x|], m);
      assert o.kids[x].At(m[|x|]).Some?;
    } else if x <= m {
      SamePrefix(m, x);
    }
  }

  lemma RemoveKid(o: Outline, s: Slot, x: Bits, r: Outline, k: Bits, b: bool)
    requires o.Linked() && o.HasSlot(s) && o.Get(s) == Some(x) && Removed(o, s, x, r)
    requires o.kids[x].zero.None? || o.kids[x].one.None?
    requires k in r.kids && r.kids[k].At(b).Some?
    ensures var d := r.kids[k].At(b).value;
            d in r.kids && Below(k, b, d) && r.up[d] == In(k, b)
  {
    OnlyChild(o, s, x);
    if s == In(k, b) {
      assert Below(k, b, x);
    } else {
      assert o.up[x] == s;
    }
  }

  lemma RemoveUp(o: Outline, s: Slot, x: Bits, r: Outline, k: Bits)
    requires o.Linked() && o.HasSlot(s) && o.Get(s) == Some(x) && Removed(o, s, x, r)
    requires o.kids[x].zero.None? || o.kids[x].one.None?
    requires k in r.up
    ensures r.HasSlot(r.up[k]) && r.Get(r.up[k]) == Some(k)
  {
    OnlyChild(o, s, x);
    assert o.Get(o.up[k]) == Some(k);
  }

  lemma RemoveTop(o: Outline, s: Slot, x: Bits, r: Outline)
    requires o.Linked() && o.HasSlot(s) && o.Get(s) == Some(x) && Removed(o, s, x, r)
    requires o.kids[x].zero.None? || o.kids[x].one.None?
    ensures r.top.Some? ==> r.top.value in r.kids && r.up[r.top.value] == Top
  {
    OnlyChild(o, s, x);
  }

  lemma RemoveLinked(o: Outline, s: Slot, x: Bits, r: Outline)
    requires o.Linked() && o.HasSlot(s) && o.Get(s) == Some(x) && Removed(o, s, x, r)
    requires o.kids[x].zero.None? || o.kids[x].one.None?
    requires r.top.None? ==> o.kids.Keys == {x}
    ensures r.Linked()
  {
    assert r.up.Keys == r.kids.Keys && (r.top.None? ==> r.kids.Keys == {});
    RemoveTop(o, s, x, r);
    forall k, b | k in r.kids && r.kids[k].At(b).Some?
      ensures var d := r.kids[k].At(b).value; d in r.kids && Below(k, b, d) && r.up[d] == In(k, b)
    {
      RemoveKid(o, s, x, r, k, b);
    }
    forall k | k in r.up
      ensures r.HasSlot(r.up[k]) && r.Get(r.up[k]) == Some(k)
    {
      RemoveUp(o, s, x, r, k);
    }
  }

  /** Splicing out an entry with at most one child keeps the trie a trie. */
  lemma RemoveValid(o: Outline, s: Slot, x: Bits, r: Outline)
    requires o.Valid() && o.HasSlot(s) && o.Get(s) == Some(x) && Removed(o, s, x, r)
    requires o.kids[x].zero.None? || o.kids[x].one.None?
    ensures r.Valid()
  {
    OnlyChild(o, s, x);
    if r.top.None? {
      forall m | m in o.kids ensures m == x {
        assert o.Rooted(m);
        RemoveLeadsDown(o, s, x, m);
      }
    }
    RemoveLinked(o, s, x, r);
    forall k, b, m | k in r.kids && m in r.kids && Below(k, b, m)
      ensures r.kids[k].At(b).Some? && r.kids[k].At(b).value <= m
    {
      assert o.kids[k].At(b).value <= m;
      RemoveLeadsDown(o, s, x, m);
    }
    forall m | m in r.kids ensures r.Rooted(m) {
      assert o.Rooted(m);
      RemoveLeadsDown(o, s, x, m);
    }
  }

  /** Every entry without a value branches; `keyed` are the prefixes with a value. */
  ghost predicate Canonical(o: Outline, keyed: set<Bits>) {
    && keyed <= o.kids.Keys
    && forall k :: k in o.kids && k !in keyed ==> o.kids[k].zero.Some? && o.kids[k].one.Some?
  }

  /** The prefix x of an inserted entry has a value. */
  lemma InsertCanonical(o: Outline, s: Slot, x: Bits, r: Outline, keyed: set<Bits>)
    requires o.Linked() && Canonical(o, keyed) && o.HasSlot(s) && Inserted(o, s, x, r)
    ensures Canonical(r, keyed + {x})
  {
    forall k | k in r.kids && k !in keyed + {x}
      ensures r.kids[k].At(false).Some? && r.kids[k].At(true).Some?
    {
      assert o.kids[k].At(false).Some? && o.kids[k].At(true).Some?;
    }
  }

  /** Every entry without a value branches, except that g still lacks its b-child. */
  ghost predicate CanonicalBut(o: Outline, keyed: set<Bits>, g: Bits, b: bool) {
    && keyed <= o.kids.Keys
    && g in o.kids && o.kids[g].At(b).None? && o.kids[g].At(!b).Some?
    && forall k :: k in o.kids && k !in keyed && k != g ==> o.kids[k].zero.Some? && o.kids[k].one.Some?
  }

  /** A branching entry g takes slot s, with the displaced entry on one side. */
  lemma HalfBranch(o: Outline, s: Slot, g: Bits, m: Outline, b: bool, keyed: set<Bits>)
    requires o.Linked() && Canonical(o, keyed) && o.HasSlot(s) && Inserted(o, s, g, m)
    requires o.Get(s).Some? && g < o.Get(s).value && o.Get(s).value[|g|] != b
    ensures CanonicalBut(m, keyed, g, b)
  {
    forall k | k in m.kids && k !in keyed && k != g
      ensures m.kids[k].At(false).Some? && m.kids[k].At(true).Some?
    {
      assert o.kids[k].At(false).Some? && o.kids[k].At(true).Some?;
    }
  }

  /** The new prefix x completes the branch on the other side. */
  lemma WholeBranch(m: Outline, g: Bits, b: bool, x: Bits, r: Outline, keyed: set<Bits>)
    requires CanonicalBut(m, keyed, g, b) && Inserted(m, In(g, b), x, r)
    ensures Canonical(r, keyed + {x})
  {
    forall k | k in r.kids && k !in keyed + {x}
      ensures r.kids[k].At(false).Some? && r.kids[k].At(true).Some?
    {
      assert k != g ==> m.kids[k].At(false).Some? && m.kids[k].At(true).Some?;
    }
  }

  /** Losing its value, an entry with one child is spliced out. */
  lemma SpliceCanonical(o: Outline, s: Slot, x: Bits, r: Outline, keyed: set<Bits>)
    requires o.Linked() && Canonical(o, keyed) && o.HasSlot(s) && o.Get(s) == Some(x) && Removed(o, s, x, r)
    requires o.kids[x].zero.Some? != o.kids[x].one.Some?
    ensures Canonical(r, keyed - {x})
  {
    forall k | k in r.kids && k !in keyed - {x}
      ensures r.kids[k].At(false).Some? && r.kids[k].At(true).Some?
    {
      assert o.kids[k].At(false).Some? && o.kids[k].At(true).Some?;
    }
  }

  /** Losing its value, a leaf leaves an empty slot: harmless below an entry with a value. */
  lemma LeafCanonical(o: Outline, s: Slot, x: Bits, r: Outline, keyed: set<Bits>)
    requires o.Linked() && Canonical(o, keyed) && o.HasSlot(s) && o.Get(s) == Some(x) && Removed(o, s, x, r)
    requires s.In? ==> s.k in keyed
    ensures Canonical(r, keyed - {x})
  {
    if s.In? { assert Below(s.k, s.b, x); }
    forall k | k in r.kids && k !in keyed - {x}
      ensures r.kids[k].At(false).Some? && r.kids[k].At(true).Some?
    {
      assert o.kids[k].At(false).Some? && o.kids[k].At(true).Some?;
    }
  }

  lemma OrphanHalf(o: Outline, s: Slot, x: Bits, r: Outline)
    requires o.Linked() && o.HasSlot(s) && o.Get(s) == Some(x) && Removed(o, s, x, r)
    requires o.kids[x].zero.None? && o.kids[x].one.None? && s.In?
    ensures s.k in r.kids && r.kids[s.k].At(s.b).None? && r.kids[s.k].At(!s.b) == o.kids[s.k].At(!s.b)
  {
    assert Below(s.k, s.b, x);
  }

  /** An entry above without a value is left with one child, and is the only one to be. */
  lemma OrphanedBranch(o: Outline, s: Slot, x: Bits, r: Outline, keyed: set<Bits>)
    requires o.Linked() && Canonical(o, keyed) && o.HasSlot(s) && o.Get(s) == Some(x) && Removed(o, s, x, r)
    requires o.kids[x].zero.None? && o.kids[x].one.None?
    requires s.In? && s.k !in keyed
    ensures s.k in r.kids && r.kids[s.k].zero.Some? != r.kids[s.k].one.Some?
    ensures Canonical(r, keyed - {x} + {s.k})
  {
    OrphanHalf(o, s, x, r);
    assert o.kids[s.k].At(false).Some? && o.kids[s.k].At(true).Some?;
    forall k | k in r.kids && k !in keyed - {x} && k != s.k
      ensures r.kids[k].At(false).Some? && r.kids[k].At(true).Some?
    {
      assert o.kids[k].At(false).Some? && o.kids[k].At(true).Some?;
    }
  }

  /** Two prefixes that agree on exactly the bits of k. */
  ghost predicate Fork(k: Bits, p: Bits, q: Bits) {
    Below(k, false, p) && Below(k, true, q)
  }

  /** Where the entries of a canonical trie must be: at the valued prefixes and at their forks. */
  ghost predicate Needed(k: Bits, keyed: set<Bits>) {
    k in keyed || exists p, q :: p in keyed && q in keyed && Fork(k, p, q)
  }

  lemma {:induction false} KeyedBelow(o: Outline, keyed: set<Bits>, c: Bits, width: nat) returns (p: Bits)
    requires o.Valid() && Canonical(o, keyed) && c in o.kids
    requires forall k :: k in o.kids ==> |k| <= width
    ensures p in keyed && c <= p
    decreases width - |c|
  {
    if c in keyed {
      p := c;
    } else {
      p := KeyedBelow(o, keyed, o.kids[c].At(false).value, width);
    }
  }

  lemma AboveFork(c: Bits, k: Bits, p: Bits, q: Bits)
    requires Fork(k, p, q) && c <= p && c <= q
    ensures c <= k
  {
    assert p[|k|] != q[|k|];
    assert forall i :: 0 <= i < |c| ==> p[i] == c[i] == q[i];
  }

  /** From an entry on the way to a fork, the path leads to an entry at the fork. */
  lemma {:induction false} ForkReached(o: Outline, n: Bits, k: Bits, p: Bits, q: Bits)
    requires o.Valid() && n in o.kids && p in o.kids && q in o.kids && Fork(k, p, q) && n <= k
    ensures k in o.kids
    decreases |k| - |n|
  {
    if n != k {
      var b := k[|n|];
      assert Below(n, b, p) && Below(n, b, q);
      var c := o.kids[n].At(b).value;
      AboveFork(c, k, p, q);
      ForkReached(o, c, k, p, q);
    }
  }

  lemma {:induction false} TopAboveFork(o: Outline, k: Bits, p: Bits, q: Bits)
    requires o.Valid() && p in o.kids && q in o.kids && Fork(k, p, q)
    ensures o.top.Some? && o.top.value <= k
  {
    assert o.Rooted(p) && o.Rooted(q);
    AboveFork(o.top.value, k, p, q);
  }

  /** The entries of a canonical trie are exactly the needed ones. */
  lemma {:induction false} EntriesAreNeeded(o: Outline, keyed: set<Bits>, k: Bits, width: nat)
    requires o.Valid() && Canonical(o, keyed)
    requires forall m :: m in o.kids ==> |m| <= width
    ensures k in o.kids <==> Needed(k, keyed)
  {
    if k in o.kids && k !in keyed {
      var p := KeyedBelow(o, keyed, o.kids[k].At(false).value, width);
      var q := KeyedBelow(o, keyed, o.kids[k].At(true).value, width);
      assert Fork(k, p, q);
    }
    if Needed(k, keyed) && k !in keyed {
      var p, q :| p in keyed && q in keyed && Fork(k, p, q);
      TopAboveFork(o, k, p, q);
      ForkReached(o, o.top.value, k, p, q);
    }
  }

  /** The valued prefixes alone determine a canonical trie. */
  lemma {:induction false} ShapeUnique(o1: Outline, o2: Outline, keyed: set<Bits>, width: nat)
    requires o1.Valid() && Canonical(o1, keyed) && o2.Valid() && Canonical(o2, keyed)
    requires forall m :: m in o1.kids || m in o2.kids ==> |m| <= width
    ensures o1 == o2
  {
    forall k ensures k in o1.kids <==> k in o2.kids {
      EntriesAreNeeded(o1, keyed, k, width);
      EntriesAreNeeded(o2, keyed, k, width);
    }
    forall k, b | k in o1.kids ensures o1.kids[k].At(b) == o2.kids[k].At(b) {
      SameKid(o1, o2, k, b);
    }
    forall k | k in o1.kids ensures o1.kids[k] == o2.kids[k] {
      assert o1.kids[k].At(false) == o2.kids[k].At(false) && o1.kids[k].At(true) == o2.kids[k].At(true);
    }
    assert o1.kids == o2.kids;
    if o1.top.Some? {
      assert o2.Rooted(o1.top.value) && o1.Rooted(o2.top.value);
      SamePrefix(o1.top.value, o2.top.value);
    }
    forall k | k in o1.up ensures o1.up[k] == o2.up[k] {
      assert o1.Get(o1.up[k]) == o2.Get(o1.up[k]) == Some(k);
    }
    assert o1.up == o2.up;
  }

  lemma SameKid(o1: Outline, o2: Outline, k: Bits, b: bool)
    requires o1.Valid() && o2.Valid() && k in o1.kids
    requires forall m :: m in o1.kids <==> m in o2.kids
    ensures o1.kids[k].At(b) == o2.kids[k].At(b)
  {
    var c1, c2 := o1.kids[k].At(b), o2.kids[k].At(b);
    if c1.Some? { assert Below(k, b, c1.value); }
    if c2.Some? { assert Below(k, b, c2.value); }
    if c1.Some? && c2.Some? { SamePrefix(c1.value, c2.value); }
  }

  /** The entries at or below k. */
  function Under(o: Outline, k: Bits): set<Bits> {
    set m | m in o.kids && k <= m
  }

  /** The entries at or below whatever hangs in a slot. */
  function Hanging(o: Outline, c: Option<Bits>): set<Bits> {
    if c.Some? then Under(o, c.value) else {}
  }

  lemma HangingIsBelow(o: Outline, k: Bits, b: bool, m: Bits)
    requires o.Valid() && k in o.kids
    ensures m in Hanging(o, o.kids[k].At(b)) <==> m in o.kids && Below(k, b, m)
  {}

  lemma UnderSplits(o: Outline, k: Bits)
    requires o.Valid() && k in o.kids
    ensures var l, r := Hanging(o, o.kids[k].At(false)), Hanging(o, o.kids[k].At(true));
            Under(o, k) == {k} + l + r && l !! r && k !in l + r
  {
    var l, r := Hanging(o, o.kids[k].At(false)), Hanging(o, o.kids[k].At(true));
    forall m
      ensures m in l <==> m in o.kids && Below(k, false, m)
      ensures m in r <==> m in o.kids && Below(k, true, m)
    {
      HangingIsBelow(o, k, false, m);
      HangingIsBelow(o, k, true, m);
    }
    forall m | m in o.kids
      ensures k <= m <==> m == k || Below(k, false, m) || Below(k, true, m)
    {
      if k <= m && m != k { assert k < m; }
    }
  }

  lemma {:induction false} UnderSize(o: Outline, keyed: set<Bits>, k: Bits, width: nat)
    requires o.Valid() && Canonical(o, keyed) && k in o.kids
    requires forall m :: m in o.kids ==> |m| <= width
    ensures |Under(o, k)| <= 2 * |Under(o, k) * keyed| - 1
    decreases width - |k|
  {
    UnderSplits(o, k);
    var cl, cr := o.kids[k].At(false), o.kids[k].At(true);
    if cl.Some? { UnderSize(o, keyed, cl.value, width); }
    if cr.Some? { UnderSize(o, keyed, cr.value, width); }
    CountSplit(Under(o, k), k, Hanging(o, cl), Hanging(o, cr), keyed);
  }

  lemma CountSplit(u: set<Bits>, k: Bits, l: set<Bits>, r: set<Bits>, keyed: set<Bits>)
    requires u == {k} + l + r && l !! r && k !in l + r
    ensures |u| == 1 + |l| + |r|
    ensures |u * keyed| == (if k in keyed then 1 else 0) + |l * keyed| + |r * keyed|
  {
    var own := if k in keyed then {k} else {};
    assert u * keyed == own + l * keyed + r * keyed;
  }

  /** n valued prefixes need at most 2n - 1 entries. */
  lemma {:induction false} SizeBound(o: Outline, keyed: set<Bits>, width: nat)
    requires o.Valid() && Canonical(o, keyed) && o.kids != map[]
    requires forall m :: m in o.kids ==> |m| <= width
    ensures |o.kids.Keys| <= 2 * |keyed| - 1
  {
    var t := o.top.value;
    UnderSize(o, keyed, t, width);
    assert forall m :: m in o.kids ==> o.Rooted(m);
    assert Under(o, t) == o.kids.Keys;
    assert Under(o, t) * keyed == keyed;
  }
}

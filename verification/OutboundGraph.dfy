/** Outbounds that name each other by tag, as a graph over their positions. */
module OutboundGraph {
  import opened Sequences

  /** The parts of an outbound that matter here; an empty proxy tag stands for an absent setting. */
  datatype Outbound = Outbound(tag: string, dialerProxy: string, proxyTag: string, body: nat)

  function DependencyTags(o: Outbound): seq<string> {
    (if o.dialerProxy != "" then [o.dialerProxy] else []) + (if o.proxyTag != "" then [o.proxyTag] else [])
  }

  /** Outbound j is the only one with this tag. */
  predicate Resolves(outbounds: seq<Outbound>, tag: string, j: nat) {
    && j < |outbounds| && outbounds[j].tag == tag
    && forall i :: 0 <= i < |outbounds| && outbounds[i].tag == tag ==> i == j
  }

  ghost predicate Edge(outbounds: seq<Outbound>, i: nat, j: nat) {
    i < |outbounds| && exists tag :: tag in DependencyTags(outbounds[i]) && Resolves(outbounds, tag, j)
  }

  /** A dependency of i is missing, or its tag is not unique. */
  ghost predicate Broken(outbounds: seq<Outbound>, i: nat) {
    i < |outbounds| && exists tag :: tag in DependencyTags(outbounds[i]) && Unresolved(outbounds, tag)
  }

  ghost predicate Unresolved(outbounds: seq<Outbound>, tag: string) {
    forall j :: 0 <= j < |outbounds| ==> !Resolves(outbounds, tag, j)
  }

  ghost predicate IsPath(outbounds: seq<Outbound>, p: seq<nat>) {
    && p != []
    && (forall k :: 0 <= k < |p| ==> p[k] < |outbounds|)
    && forall k :: 0 <= k < |p| - 1 ==> Edge(outbounds, p[k], p[k + 1])
  }

  ghost predicate PathTo(outbounds: seq<Outbound>, p: seq<nat>, from: nat, to: nat) {
    IsPath(outbounds, p) && p[0] == from && p[|p| - 1] == to
  }

  ghost predicate Reaches(outbounds: seq<Outbound>, from: nat, to: nat) {
    exists p :: PathTo(outbounds, p, from, to)
  }

  /** A path of at least one edge leads from i back to i. */
  ghost predicate OnCycle(outbounds: seq<Outbound>, i: nat) {
    exists p :: |p| > 1 && PathTo(outbounds, p, i, i)
  }

  /** Nothing reachable from the target is broken or on a cycle. */
  ghost predicate Sound(outbounds: seq<Outbound>, target: nat) {
    forall i {:trigger Reaches(outbounds, target, i)} ::
      Reaches(outbounds, target, i) ==> !Broken(outbounds, i) && !OnCycle(outbounds, i)
  }

  /** Nodes in the order in which their visits ended: dependencies come first and none is broken. */
  ghost predicate Ordered(outbounds: seq<Outbound>, finish: seq<nat>) {
    && Distinct(finish)
    && forall k {:trigger finish[k]} :: 0 <= k < |finish| ==>
         finish[k] < |outbounds| && Settled(outbounds, finish[k], finish[..k])
  }

  ghost predicate Settled(outbounds: seq<Outbound>, i: nat, before: seq<nat>) {
    !Broken(outbounds, i) && forall j {:trigger Edge(outbounds, i, j)} :: Edge(outbounds, i, j) ==> j in before
  }

  lemma OrderedMore(outbounds: seq<Outbound>, finish: seq<nat>, i: nat)
    requires Ordered(outbounds, finish) && i < |outbounds| && i !in finish && Settled(outbounds, i, finish)
    ensures Ordered(outbounds, finish + [i])
  {
    var f := finish + [i];
    forall k | 0 <= k < |f| ensures f[k] < |outbounds| && Settled(outbounds, f[k], f[..k]) {
      if k < |finish| { assert f[..k] == finish[..k] && f[k] == finish[k]; } else { assert f[..k] == finish; }
    }
  }

  /** A path that starts among the finished nodes stays there, ever earlier in their order. */
  lemma {:induction false} PathDescends(outbounds: seq<Outbound>, finish: seq<nat>, p: seq<nat>, k: nat)
    returns (m: nat)
    requires Ordered(outbounds, finish) && IsPath(outbounds, p) && k < |finish| && finish[k] == p[0]
    ensures m <= k && finish[m] == p[|p| - 1] && (|p| > 1 ==> m < k)
  {
    if |p| == 1 {
      m := k;
    } else {
      assert Edge(outbounds, p[0], p[1]) && Settled(outbounds, finish[k], finish[..k]);
      var n :| 0 <= n < k && finish[..k][n] == p[1];
      var q := p[1..];
      forall j | 0 <= j < |q| - 1
        ensures Edge(outbounds, q[j], q[j + 1])
      {
        assert Edge(outbounds, p[j + 1], p[j + 2]);
      }
      m := PathDescends(outbounds, finish, q, n);
    }
  }

  /** Once the target is finished, everything reachable from it is finished, unbroken and on no cycle. */
  lemma FinishedIsSound(outbounds: seq<Outbound>, finish: seq<nat>, target: nat)
    requires Ordered(outbounds, finish) && target in finish
    ensures Sound(outbounds, target)
    ensures forall i {:trigger Reaches(outbounds, target, i)} :: Reaches(outbounds, target, i) ==> i in finish
  {
    var t :| 0 <= t < |finish| && finish[t] == target;
    forall i | Reaches(outbounds, target, i) ensures i in finish && !Broken(outbounds, i) && !OnCycle(outbounds, i) {
      var p :| PathTo(outbounds, p, target, i);
      var k := PathDescends(outbounds, finish, p, t);
      assert Settled(outbounds, finish[k], finish[..k]);
      NoCycleThrough(outbounds, finish, k);
    }
  }

  lemma NoCycleThrough(outbounds: seq<Outbound>, finish: seq<nat>, k: nat)
    requires Ordered(outbounds, finish) && k < |finish|
    ensures !OnCycle(outbounds, finish[k])
  {
    forall p | |p| > 1 && IsPath(outbounds, p) && p[0] == finish[k] ensures p[|p| - 1] != finish[k] {
      var m := PathDescends(outbounds, finish, p, k);
    }
  }

  lemma PathExtended(outbounds: seq<Outbound>, p: seq<nat>, j: nat)
    requires IsPath(outbounds, p) && j < |outbounds| && Edge(outbounds, p[|p| - 1], j)
    ensures IsPath(outbounds, p + [j])
  {
    var q := p + [j];
    forall k | 0 <= k < |q| - 1 ensures Edge(outbounds, q[k], q[k + 1]) {
      if k < |p| - 1 { assert Edge(outbounds, p[k], p[k + 1]); }
    }
  }

  /** The last node of a path from the target is broken. */
  lemma BrokenEnd(outbounds: seq<Outbound>, p: seq<nat>, tag: string)
    requires IsPath(outbounds, p) && tag in DependencyTags(outbounds[p[|p| - 1]]) && Unresolved(outbounds, tag)
    ensures Reaches(outbounds, p[0], p[|p| - 1]) && Broken(outbounds, p[|p| - 1]) && !Sound(outbounds, p[0])
  {
    assert PathTo(outbounds, p, p[0], p[|p| - 1]);
  }

  /** A path from the target leads back to one of its own nodes. */
  lemma CycleClosed(outbounds: seq<Outbound>, p: seq<nat>, k: nat)
    requires IsPath(outbounds, p) && k < |p| && Edge(outbounds, p[|p| - 1], p[k])
    ensures Reaches(outbounds, p[0], p[k]) && OnCycle(outbounds, p[k]) && !Sound(outbounds, p[0])
  {
    PathExtended(outbounds, p, p[k]);
    var q := p + [p[k]];
    var c := q[k..];
    forall j | 0 <= j < |c| - 1
      ensures Edge(outbounds, c[j], c[j + 1])
    {
      assert Edge(outbounds, q[k + j], q[k + j + 1]);
    }
    assert |c| > 1 && PathTo(outbounds, c, p[k], p[k]);
    assert PathTo(outbounds, p[..k + 1], p[0], p[k]);
    assert Reaches(outbounds, p[0], p[k]) && OnCycle(outbounds, p[k]);
  }

  // ----- the order of a depth-first search

  /** Outbound i comes next after those seen: the first unseen dependency of the last outbound that has one. */
  ghost predicate ComesNext(outbounds: seq<Outbound>, seen: seq<nat>, i: nat) {
    i !in seen && exists j :: LeadsOn(outbounds, seen, i, j)
  }

  /**
    The j-th outbound seen depends on i, by its proxy tag only when its dialer proxy has been seen;
    and so has everything that those seen after it depend on.
   */
  ghost predicate LeadsOn(outbounds: seq<Outbound>, seen: seq<nat>, i: nat, j: nat) {
    && j < |seen| && seen[j] < |outbounds|
    && var o := outbounds[seen[j]];
    && ((o.dialerProxy != "" && Resolves(outbounds, o.dialerProxy, i))
        || (o.proxyTag != "" && Resolves(outbounds, o.proxyTag, i)
            && forall x :: o.dialerProxy != "" && Resolves(outbounds, o.dialerProxy, x) ==> x in seen))
    && forall l, x :: j < l < |seen| && Edge(outbounds, seen[l], x) ==> x in seen
  }

  ghost predicate DepthFirst(outbounds: seq<Outbound>, selected: seq<nat>) {
    forall k :: 0 < k < |selected| ==> ComesNext(outbounds, selected[..k], selected[k])
  }

  lemma DepthFirstMore(outbounds: seq<Outbound>, selected: seq<nat>, i: nat)
    requires DepthFirst(outbounds, selected) && (selected == [] || ComesNext(outbounds, selected, i))
    ensures DepthFirst(outbounds, selected + [i])
  {
    hide ComesNext;
    var more := selected + [i];
    forall k | 0 < k < |more| ensures ComesNext(outbounds, more[..k], more[k]) {
      if k < |selected| { assert more[..k] == selected[..k]; } else { assert more[..k] == selected; }
    }
  }
}

/** Collecting the outbounds that a ping needs, and giving them names of their own. */
module PingBatch {
  import opened Wrappers
  import opened Sequences
  import opened OutboundGraph

  datatype Mark = Unvisited | Visiting | Visited

  datatype Error =
    | CycleAt(tag: string)
    | DependsOnDuplicate(tag: string, dependency: string)
    | DependsOnMissing(tag: string, dependency: string)
    | DuplicateTag(tag: string)
    | TagNotFound(tag: string)

  datatype PrepareError = Unsound(error: Error) | BuildFailed(tag: string)

  /** What an error that ends the search says is so, of something reachable from the target. */
  ghost predicate ErrorTrue(outbounds: seq<Outbound>, target: nat, e: Error) {
    exists i: nat {:trigger Reaches(outbounds, target, i)} ::
      i < |outbounds| && Reaches(outbounds, target, i) && ErrorAt(outbounds, i, e)
  }

  ghost predicate ErrorAt(outbounds: seq<Outbound>, i: nat, e: Error)
    requires i < |outbounds|
  {
    && e.tag == outbounds[i].tag
    && match e
       case CycleAt(_) => OnCycle(outbounds, i)
       case DependsOnDuplicate(_, tag) =>
         tag in DependencyTags(outbounds[i]) && exists a, b :: Repeated(outbounds, tag, a, b)
       case DependsOnMissing(_, tag) =>
         tag in DependencyTags(outbounds[i]) && forall j :: 0 <= j < |outbounds| ==> outbounds[j].tag != tag
       case _ => false
  }

  lemma ErrorIsUnsound(outbounds: seq<Outbound>, target: nat, e: Error)
    requires ErrorTrue(outbounds, target, e)
    ensures !Sound(outbounds, target)
  {
    var i: nat :| i < |outbounds| && Reaches(outbounds, target, i) && ErrorAt(outbounds, i, e);
    if !e.CycleAt? {
      assert e.dependency in DependencyTags(outbounds[i]) && Unresolved(outbounds, e.dependency);
      assert Broken(outbounds, i);
    }
  }

  /** The lookup tables of preparePingOutbounds: the first position of every nonempty tag, and the repeated tags. */
  ghost predicate TablesRight(outbounds: seq<Outbound>, tagIndexes: map<string, nat>, duplicateTags: set<string>) {
    && (forall tag {:trigger tagIndexes[tag]} :: tag in tagIndexes ==>
          tagIndexes[tag] < |outbounds| && outbounds[tagIndexes[tag]].tag == tag)
    && (forall i {:trigger outbounds[i]} :: 0 <= i < |outbounds| && outbounds[i].tag != "" ==>
          outbounds[i].tag in tagIndexes)
    && (forall tag {:trigger tag in duplicateTags} :: tag in duplicateTags ==>
          exists i, j :: Repeated(outbounds, tag, i, j))
    && (forall i {:trigger outbounds[i]} ::
          0 <= i < |outbounds| && outbounds[i].tag != "" && outbounds[i].tag !in duplicateTags ==>
          tagIndexes[outbounds[i].tag] == i)
  }

  ghost predicate Repeated(outbounds: seq<Outbound>, tag: string, i: nat, j: nat) {
    i < j < |outbounds| && outbounds[i].tag == tag && outbounds[j].tag == tag
  }

  method BuildTables(outbounds: seq<Outbound>) returns (tagIndexes: map<string, nat>, duplicateTags: set<string>)
    ensures TablesRight(outbounds, tagIndexes, duplicateTags)
    ensures "" !in tagIndexes
  {
    tagIndexes, duplicateTags := map[], {};
    for index := 0 to |outbounds|
      invariant TablesRight(outbounds[..index], tagIndexes, duplicateTags) && "" !in tagIndexes
    {
      TablesStep(outbounds, index, tagIndexes, duplicateTags);
      var tag := outbounds[index].tag;
      if tag == "" {
      } else if tag in tagIndexes {
        duplicateTags := duplicateTags + {tag};
      } else {
        tagIndexes := tagIndexes[tag := index];
      }
    }
    assert outbounds[..|outbounds|] == outbounds;
  }

  lemma TablesStep(outbounds: seq<Outbound>, index: nat, tagIndexes: map<string, nat>, duplicateTags: set<string>)
    requires index < |outbounds| && TablesRight(outbounds[..index], tagIndexes, duplicateTags)
    ensures var tag := outbounds[index].tag;
            if tag == "" then TablesRight(outbounds[..index + 1], tagIndexes, duplicateTags)
            else if tag in tagIndexes then TablesRight(outbounds[..index + 1], tagIndexes, duplicateTags + {tag})
            else TablesRight(outbounds[..index + 1], tagIndexes[tag := index], duplicateTags)
  {
    var before, after := outbounds[..index], outbounds[..index + 1];
    assert forall i :: 0 <= i < index ==> after[i] == before[i];
    forall tag, i, j | Repeated(before, tag, i, j) ensures Repeated(after, tag, i, j) {}
    var tag := outbounds[index].tag;
    if tag in tagIndexes { assert Repeated(after, tag, tagIndexes[tag], index); }
  }

  /** A tag that is in the table and not repeated resolves; any other does not. */
  lemma TablesResolve(outbounds: seq<Outbound>, tagIndexes: map<string, nat>, duplicateTags: set<string>, tag: string)
    requires TablesRight(outbounds, tagIndexes, duplicateTags) && tag != ""
    ensures tag in tagIndexes && tag !in duplicateTags ==> Resolves(outbounds, tag, tagIndexes[tag])
    ensures tag in duplicateTags ==> exists i, j :: Repeated(outbounds, tag, i, j)
    ensures tag !in tagIndexes ==> forall i :: 0 <= i < |outbounds| ==> outbounds[i].tag != tag
    ensures tag !in tagIndexes || tag in duplicateTags ==> Unresolved(outbounds, tag)
  {
    if tag in duplicateTags {
      var i, j :| Repeated(outbounds, tag, i, j);
    } else if tag in tagIndexes {
      forall i | 0 <= i < |outbounds| && outbounds[i].tag == tag ensures i == tagIndexes[tag] {}
    }
  }

  predicate Within(s: seq<nat>, n: nat) {
    forall i :: i in s ==> i < n
  }

  class Collector {
    const outbounds: seq<Outbound>
    const tagIndexes: map<string, nat>
    const duplicateTags: set<string>
    const states: array<Mark>
    var selected: seq<nat>
    /** The path from the target to the node being visited, and the visited nodes in the order they were finished. */
    ghost var stack: seq<nat>
    ghost var finish: seq<nat>

    ghost predicate Valid()
      reads this, states
    {
      && states.Length == |outbounds| && TablesRight(outbounds, tagIndexes, duplicateTags)
      && (forall i {:trigger states[i]} :: 0 <= i < |outbounds| ==>
            && (states[i] == Visiting <==> i in stack) && (states[i] == Visited <==> i in finish)
            && (states[i] != Unvisited <==> i in selected))
      && Within(stack, |outbounds|) && Within(finish, |outbounds|) && Within(selected, |outbounds|)
      && Distinct(stack) && Distinct(selected) && Ordered(outbounds, finish)
      && (stack != [] ==> IsPath(outbounds, stack))
    }

    ghost function Unseen(): set<nat>
      reads this, states
    {
      set i: nat | i < |outbounds| && i < states.Length && states[i] == Unvisited
    }

    constructor (outbounds: seq<Outbound>, tagIndexes: map<string, nat>, duplicateTags: set<string>)
      requires TablesRight(outbounds, tagIndexes, duplicateTags)
      ensures Valid() && this.outbounds == outbounds && stack == [] && finish == [] && selected == [] && fresh(states)
    {
      this.outbounds, this.tagIndexes, this.duplicateTags := outbounds, tagIndexes, duplicateTags;
      states := new Mark[|outbounds|](_ => Unvisited);
      selected, stack, finish := [], [], [];
    }

    /** The visit of an unvisited node begins. */
    method Enter(index: nat)
      requires Valid() && index < |outbounds| && states[index] == Unvisited
      requires stack == [] || Edge(outbounds, stack[|stack| - 1], index)
      modifies this, states
      ensures Valid() && stack == old(stack) + [index] && finish == old(finish) && selected == old(selected) + [index]
      ensures Unseen() < old(Unseen())
    {
      hide Ordered, Edge, TablesRight;
      StackGrows(outbounds, stack, index);
      assert index in Unseen();
      states[index] := Visiting;
      selected := selected + [index];
      stack := stack + [index];
      assert Unseen() < old(Unseen()) by { assert index !in Unseen(); }
    }

    /** The visit of the node on top of the stack ends. */
    method Leave(index: nat, ghost below: seq<nat>)
      requires Valid() && index < |outbounds| && stack == below + [index]
      requires Settled(outbounds, index, finish)
      modifies this`stack, this`finish, states
      ensures Valid() && stack == below && finish == old(finish) + [index]
      ensures Unseen() <= old(Unseen())
    {
      hide Ordered, Edge, Settled, TablesRight;
      assert stack[|below|] == index && forall k :: 0 <= k < |below| ==> stack[k] == below[k];
      assert index in stack && index !in below && states[index] == Visiting;
      StackShrinks(outbounds, below, index);
      OrderedMore(outbounds, finish, index);
      states[index] := Visited;
      finish := finish + [index];
      stack := below;
    }

    /**
      visit: a depth-first search. It fails only on the way to a broken outbound or around a cycle, and
      otherwise finishes the node and all that it depends on.
     */
    method Visit(index: nat, ghost target: nat) returns (err: Option<Error>)
      requires Valid() && index < |outbounds| && Leads(outbounds, stack, index, target)
      requires AllReached(outbounds, selected, target) && DepthFirst(outbounds, selected)
      requires selected != [] && states[index] == Unvisited ==> ComesNext(outbounds, selected, index)
      modifies this, states
      ensures err == None ==>
        && Valid() && stack == old(stack) && index in finish && Grown(old(finish), finish)
        && Grown(old(selected), selected) && selected != [] && (old(selected) == [] ==> selected[0] == index)
        && AllReached(outbounds, selected, target) && Unseen() <= old(Unseen())
        && DepthFirst(outbounds, selected) && forall l :: |old(selected)| <= l < |selected| ==> selected[l] in finish
      ensures err.Some? ==> ErrorTrue(outbounds, target, err.value)
      decreases Unseen(), 0
    {
      hide Ordered, Edge, Settled, TablesRight, Resolves, Unresolved, Reaches, IsPath, AllReached, ErrorTrue;
      hide DepthFirst, ComesNext, Distinct, Within;
      match states[index] {
        case Visiting =>
          ghost var k :| 0 <= k < |stack| && stack[k] == index;
          BackOnStack(outbounds, stack, index, target, k);
          return Some(CycleAt(outbounds[index].tag));
        case Visited =>
          assert index in selected;
          return None;
        case Unvisited =>
      }
      NowReached(outbounds, stack, index, target, selected);
      DepthFirstMore(outbounds, selected, index);
      ghost var path, finish0, selected0 := stack + [index], finish, selected;
      Enter(index);
      var dependencies := DependencyTags(outbounds[index]);
      for d := 0 to |dependencies|
        invariant Midway(index, target, |selected0|, d) && stack == path && Unseen() < old(Unseen())
        invariant Grown(finish0, finish) && Grown(selected0 + [index], selected)
      {
        err := VisitDependency(index, target, |selected0|, d);
        if err.Some? { return; }
      }
      assert dependencies[..|dependencies|] == dependencies;
      NodeSettled(outbounds, tagIndexes, duplicateTags, index, finish);
      Leave(index, old(stack));
      err := None;
    }

    /** The node on top of the stack was the at-th to be selected, and its first d dependencies have been finished. */
    ghost predicate Midway(index: nat, target: nat, at: nat, d: nat)
      reads this, states
    {
      && Valid() && stack != [] && stack[|stack| - 1] == index && stack[0] == target && index < |outbounds|
      && AllReached(outbounds, selected, target) && DepthFirst(outbounds, selected)
      && at < |selected| && selected[at] == index && (forall l :: at < l < |selected| ==> selected[l] in finish)
      && d <= |DependencyTags(outbounds[index])|
      && AllFinished(DependencyTags(outbounds[index])[..d], tagIndexes, duplicateTags, finish)
    }

    lemma FinishedAreSelected()
      requires Valid()
      ensures forall i :: i in finish ==> i in selected
    {
      hide Ordered, TablesRight, IsPath;
      forall i | i in finish ensures i in selected { assert states[i] == Visited; }
    }

    /** One turn of the loop over the dependencies of the node being visited. */
    method VisitDependency(index: nat, ghost target: nat, ghost at: nat, d: nat) returns (err: Option<Error>)
      requires index < |outbounds| && d < |DependencyTags(outbounds[index])| && Midway(index, target, at, d)
      modifies this, states
      ensures err == None ==>
        && Midway(index, target, at, d + 1) && stack == old(stack) && Unseen() <= old(Unseen())
        && Grown(old(finish), finish) && Grown(old(selected), selected)
      ensures err.Some? ==> ErrorTrue(outbounds, target, err.value)
      decreases Unseen(), 1
    {
      hide Ordered, Edge, Settled, TablesRight, Resolves, Unresolved, Reaches, IsPath, AllReached, ErrorTrue;
      hide DepthFirst, ComesNext, Distinct, Within;
      var dependencyTag := DependencyTags(outbounds[index])[d];
      Dependency(outbounds, tagIndexes, duplicateTags, stack, index, target, d);
      if dependencyTag in duplicateTags {
        return Some(DependsOnDuplicate(outbounds[index].tag, dependencyTag));
      }
      if dependencyTag !in tagIndexes {
        return Some(DependsOnMissing(outbounds[index].tag, dependencyTag));
      }
      ghost var finish1, selected1 := finish, selected;
      FinishedAreSelected();
      if states[tagIndexes[dependencyTag]] == Unvisited {
        NextDependency(outbounds, tagIndexes, duplicateTags, finish, selected, at, index, d);
      }
      err := Visit(tagIndexes[dependencyTag], target);
      if err.Some? { return; }
      StillFinished(DependencyTags(outbounds[index]), d, tagIndexes, duplicateTags, finish1, finish);
      GrownHas(finish1, finish);
      GrownAt(selected1, selected);
    }
  }

  ghost predicate Grown(before: seq<nat>, after: seq<nat>) {
    |before| <= |after| && after[..|before|] == before
  }

  ghost predicate AllReached(outbounds: seq<Outbound>, selected: seq<nat>, target: nat) {
    forall i :: i in selected ==> Reaches(outbounds, target, i)
  }

  /** The stack is a path from the target, and leads on to the node. */
  ghost predicate Leads(outbounds: seq<Outbound>, stack: seq<nat>, index: nat, target: nat) {
    if stack == [] then index == target
    else IsPath(outbounds, stack) && stack[0] == target && Edge(outbounds, stack[|stack| - 1], index)
  }

  ghost predicate AllFinished(tags: seq<string>, tagIndexes: map<string, nat>, duplicateTags: set<string>,
                              finish: seq<nat>)
  {
    forall tag :: tag in tags ==> tag in tagIndexes && tag !in duplicateTags && tagIndexes[tag] in finish
  }

  lemma StillFinished(tags: seq<string>, d: nat, tagIndexes: map<string, nat>, duplicateTags: set<string>,
                      finish: seq<nat>, finish': seq<nat>)
    requires d < |tags| && AllFinished(tags[..d], tagIndexes, duplicateTags, finish) && Grown(finish, finish')
    requires tags[d] in tagIndexes && tags[d] !in duplicateTags && tagIndexes[tags[d]] in finish'
    ensures AllFinished(tags[..d + 1], tagIndexes, duplicateTags, finish')
  {
    assert tags[..d + 1] == tags[..d] + [tags[d]];
    forall i | i in finish ensures i in finish' {
      var k :| 0 <= k < |finish| && finish[k] == i;
      assert finish'[..|finish|][k] == i;
    }
  }

  lemma StackGrows(outbounds: seq<Outbound>, stack: seq<nat>, index: nat)
    requires index < |outbounds|
    requires stack == [] || (IsPath(outbounds, stack) && Edge(outbounds, stack[|stack| - 1], index))
    ensures IsPath(outbounds, stack + [index])
  {
    if stack != [] { PathExtended(outbounds, stack, index); }
  }

  /** A node is on the stack only once: without it the others are still those that are being visited. */
  lemma StackShrinks(outbounds: seq<Outbound>, below: seq<nat>, index: nat)
    requires IsPath(outbounds, below + [index])
    ensures below != [] ==> IsPath(outbounds, below)
  {
    var p := below + [index];
    assert forall k :: 0 <= k < |below| ==> below[k] == p[k];
    forall k | 0 <= k < |below| - 1
      ensures Edge(outbounds, below[k], below[k + 1])
    {
      assert Edge(outbounds, p[k], p[k + 1]);
    }
  }

  lemma BackOnStack(outbounds: seq<Outbound>, stack: seq<nat>, index: nat, target: nat, k: nat)
    requires stack != [] && Leads(outbounds, stack, index, target) && k < |stack| && stack[k] == index
    ensures index < |outbounds| && ErrorTrue(outbounds, target, CycleAt(outbounds[index].tag))
  {
    CycleClosed(outbounds, stack, k);
    assert ErrorAt(outbounds, index, CycleAt(outbounds[index].tag));
  }

  /** A dependency of the node on top of the stack either leads on or spoils the target. */
  lemma Dependency(outbounds: seq<Outbound>, tagIndexes: map<string, nat>, duplicateTags: set<string>, path: seq<nat>,
                   index: nat, target: nat, d: nat)
    requires TablesRight(outbounds, tagIndexes, duplicateTags) && IsPath(outbounds, path)
    requires path[0] == target && path[|path| - 1] == index < |outbounds| && d < |DependencyTags(outbounds[index])|
    ensures var tag := DependencyTags(outbounds[index])[d];
            if tag in tagIndexes && tag !in duplicateTags then
              tagIndexes[tag] < |outbounds| && Leads(outbounds, path, tagIndexes[tag], target)
            else if tag in duplicateTags then
              ErrorTrue(outbounds, target, DependsOnDuplicate(outbounds[index].tag, tag))
            else ErrorTrue(outbounds, target, DependsOnMissing(outbounds[index].tag, tag))
  {
    var tag := DependencyTags(outbounds[index])[d];
    TablesResolve(outbounds, tagIndexes, duplicateTags, tag);
    if tag !in tagIndexes || tag in duplicateTags {
      BrokenEnd(outbounds, path, tag);
      var own := outbounds[index].tag;
      var e := if tag in duplicateTags then DependsOnDuplicate(own, tag) else DependsOnMissing(own, tag);
      assert ErrorAt(outbounds, index, e);
    }
  }

  lemma GrownHas(before: seq<nat>, after: seq<nat>)
    requires Grown(before, after)
    ensures forall i :: i in before ==> i in after
  {
    assert after == before + after[|before|..];
  }

  lemma GrownAt(before: seq<nat>, after: seq<nat>)
    requires Grown(before, after)
    ensures forall l :: 0 <= l < |before| ==> after[l] == before[l]
  {
    assert after == before + after[|before|..];
  }

  /** The dependency at hand comes next: those before it, and all of what was entered since, have been finished. */
  lemma NextDependency(outbounds: seq<Outbound>, tagIndexes: map<string, nat>, duplicateTags: set<string>,
                       finish: seq<nat>, selected: seq<nat>, at: nat, index: nat, d: nat)
    requires TablesRight(outbounds, tagIndexes, duplicateTags) && Ordered(outbounds, finish)
    requires at < |selected| && selected[at] == index < |outbounds| && d < |DependencyTags(outbounds[index])|
    requires forall i :: i in finish ==> i in selected
    requires forall l :: at < l < |selected| ==> selected[l] in finish
    requires AllFinished(DependencyTags(outbounds[index])[..d], tagIndexes, duplicateTags, finish)
    requires var tag := DependencyTags(outbounds[index])[d];
             tag in tagIndexes && tag !in duplicateTags && tagIndexes[tag] !in selected
    ensures ComesNext(outbounds, selected, tagIndexes[DependencyTags(outbounds[index])[d]])
  {
    var tags := DependencyTags(outbounds[index]);
    TablesResolve(outbounds, tagIndexes, duplicateTags, tags[d]);
    if d == 1 {
      assert tags[..d][0] == tags[0] && tags[0] in tags[..d];
      TablesResolve(outbounds, tagIndexes, duplicateTags, tags[0]);
    }
    forall l, x | at < l < |selected| && Edge(outbounds, selected[l], x) ensures x in selected {
      FinishedEdge(outbounds, finish, selected[l], x);
    }
    assert LeadsOn(outbounds, selected, tagIndexes[tags[d]], at);
  }

  lemma FinishedEdge(outbounds: seq<Outbound>, finish: seq<nat>, i: nat, x: nat)
    requires Ordered(outbounds, finish) && i in finish && Edge(outbounds, i, x)
    ensures x in finish
  {
    var k :| 0 <= k < |finish| && finish[k] == i;
    assert Settled(outbounds, finish[k], finish[..k]);
  }

  lemma NowReached(outbounds: seq<Outbound>, stack: seq<nat>, index: nat, target: nat, selected: seq<nat>)
    requires index < |outbounds| && Leads(outbounds, stack, index, target) && AllReached(outbounds, selected, target)
    ensures IsPath(outbounds, stack + [index]) && (stack + [index])[0] == target
    ensures stack == [] || Edge(outbounds, stack[|stack| - 1], index)
    ensures AllReached(outbounds, selected + [index], target)
  {
    if stack != [] { PathExtended(outbounds, stack, index); }
    assert PathTo(outbounds, stack + [index], target, index);
  }

  /** A node whose dependencies have all been finished. */
  lemma NodeSettled(outbounds: seq<Outbound>, tagIndexes: map<string, nat>, duplicateTags: set<string>, index: nat,
                    finish: seq<nat>)
    requires TablesRight(outbounds, tagIndexes, duplicateTags) && index < |outbounds|
    requires AllFinished(DependencyTags(outbounds[index]), tagIndexes, duplicateTags, finish)
    ensures Settled(outbounds, index, finish)
  {
    forall tag | tag in DependencyTags(outbounds[index]) ensures Resolves(outbounds, tag, tagIndexes[tag]) {
      TablesResolve(outbounds, tagIndexes, duplicateTags, tag);
    }
  }

  /**
    collectPingOutboundDependencies: every outbound reachable from the target exactly once, the target first;
    it fails exactly when something reachable is broken or on a cycle.
   */
  method Collect(outbounds: seq<Outbound>, tagIndexes: map<string, nat>, duplicateTags: set<string>, target: nat)
    returns (err: Option<Error>, selected: seq<nat>)
    requires TablesRight(outbounds, tagIndexes, duplicateTags) && target < |outbounds|
    ensures err == None <==> Sound(outbounds, target)
    ensures err == None ==> Collected(outbounds, target, selected) && DepthFirst(outbounds, selected)
    ensures err.Some? ==> ErrorTrue(outbounds, target, err.value)
  {
    hide Sound, Ordered, ErrorTrue, ComesNext, Reaches, TablesRight, Collected, AllReached;
    var c := new Collector(outbounds, tagIndexes, duplicateTags);
    assert AllReached(outbounds, c.selected, target) by { NoneReached(outbounds, target); }
    err := c.Visit(target, target);
    selected := if err == None then c.selected else [];
    if err.Some? { ErrorIsUnsound(outbounds, target, err.value); }
    if err == None {
      forall i | i in c.finish ensures i in c.selected { assert c.states[i] == Visited; }
      SelectedAreReached(outbounds, c.finish, c.selected, target);
    }
  }

  lemma NoneReached(outbounds: seq<Outbound>, target: nat)
    ensures AllReached(outbounds, [], target)
  {}

  lemma SelectedAreReached(outbounds: seq<Outbound>, finish: seq<nat>, selected: seq<nat>, target: nat)
    requires Ordered(outbounds, finish) && target in finish && Distinct(selected) && Within(selected, |outbounds|)
    requires selected != [] && selected[0] == target && AllReached(outbounds, selected, target)
    requires forall i :: i in finish ==> i in selected
    ensures Sound(outbounds, target) && Collected(outbounds, target, selected)
  {
    hide Sound, Ordered, Reaches;
    FinishedIsSound(outbounds, finish, target);
    forall k | 0 <= k < |selected| ensures selected[k] < |outbounds| { assert selected[k] in selected; }
  }

  ghost predicate Collected(outbounds: seq<Outbound>, target: nat, selected: seq<nat>) {
    && Distinct(selected) && selected != [] && selected[0] == target
    && (forall k :: 0 <= k < |selected| ==> selected[k] < |outbounds|)
    && forall i: nat {:trigger Reaches(outbounds, target, i)} :: i in selected <==> Reaches(outbounds, target, i)
  }

  // ----- names

  function Digit(n: nat): char
    requires n < 10
  {
    '0' + n as char
  }

  /** %d of a nonnegative number */
  function Decimal(n: nat): (s: string)
    ensures s != [] && (|s| == 1 <==> n < 10) && forall i :: 0 <= i < |s| ==> s[i] != '_'
  {
    if n < 10 then [Digit(n)] else Decimal(n / 10) + [Digit(n % 10)]
  }

  lemma {:induction false} DecimalInjective(m: nat, n: nat)
    requires Decimal(m) == Decimal(n)
    ensures m == n
  {
    var s := Decimal(m);
    assert s[|s| - 1] == Digit(m % 10) == Digit(n % 10);
    if m >= 10 {
      assert s[..|s| - 1] == Decimal(m / 10) == Decimal(n / 10);
      DecimalInjective(m / 10, n / 10);
    }
  }

  const PREFIX := "__libxray_ping_"

  function Namespaced(item: nat, order: nat): string { PREFIX + Decimal(item) + "_" + Decimal(order) }

  /** Names never clash, within an item or across items. */
  lemma NamespacedInjective(item: nat, order: nat, item': nat, order': nat)
    requires Namespaced(item, order) == Namespaced(item', order')
    ensures item == item' && order == order'
  {
    var a, b, a', b' := Decimal(item), Decimal(order), Decimal(item'), Decimal(order');
    assert a + "_" + b == Namespaced(item, order)[|PREFIX|..];
    assert a' + "_" + b' == Namespaced(item', order')[|PREFIX|..];
    SplitAtUnderscore(a, b, a', b');
    DecimalInjective(item, item');
    DecimalInjective(order, order');
  }

  lemma SplitAtUnderscore(a: string, b: string, a': string, b': string)
    requires a + "_" + b == a' + "_" + b'
    requires (forall i :: 0 <= i < |a| ==> a[i] != '_') && (forall i :: 0 <= i < |a'| ==> a'[i] != '_')
    ensures a == a' && b == b'
  {
    var s := a + "_" + b;
    assert s[|a|] == '_' && s[|a'|] == '_' by { assert s == a' + "_" + b'; }
    assert forall i :: 0 <= i < |a| ==> s[i] == a[i];
    assert forall i :: 0 <= i < |a'| ==> (a' + "_" + b')[i] == a'[i];
    assert |a| == |a'|;
    assert a == s[..|a|] && a' == (a' + "_" + b')[..|a'|];
    assert b == s[|a| + 1..] && b' == (a' + "_" + b')[|a'| + 1..];
  }

  // ----- preparation

  /** The outbound a ping goes through. */
  ghost predicate Chosen(outbounds: seq<Outbound>, requested: string, target: nat) {
    && target < |outbounds|
    && if requested != "" then Resolves(outbounds, requested, target)
       else if exists i :: 0 <= i < |outbounds| && outbounds[i].tag == "proxy" then Resolves(outbounds, "proxy", target)
       else target == 0
  }

  /** A reference is renamed to the name of the outbound that it refers to. */
  ghost predicate RefRenamed(outbounds: seq<Outbound>, selected: seq<nat>, item: nat, from: string, to: string) {
    if from == "" then to == ""
    else exists j :: 0 <= j < |selected| && Resolves(outbounds, from, selected[j]) && to == Namespaced(item, j)
  }

  ghost predicate Renamed(outbounds: seq<Outbound>, selected: seq<nat>, item: nat, k: nat, o: Outbound)
    requires k < |selected| && selected[k] < |outbounds|
  {
    var from := outbounds[selected[k]];
    && o.tag == Namespaced(item, k) && o.body == from.body
    && RefRenamed(outbounds, selected, item, from.dialerProxy, o.dialerProxy)
    && RefRenamed(outbounds, selected, item, from.proxyTag, o.proxyTag)
  }

  /** The renamed outbounds, in the order in which they were selected. */
  ghost predicate Prepared(outbounds: seq<Outbound>, target: nat, item: nat, selected: seq<nat>,
                           prepared: seq<Outbound>)
  {
    && Collected(outbounds, target, selected) && |prepared| == |selected|
    && forall k {:trigger prepared[k]} :: 0 <= k < |selected| ==> Renamed(outbounds, selected, item, k, prepared[k])
  }

  /** Why there is no target: the tag that was asked for, or "proxy", is repeated, or no outbound has it. */
  ghost predicate NoTarget(outbounds: seq<Outbound>, requested: string, e: Error) {
    && e.tag == (if requested != "" then requested else "proxy")
    && match e
       case DuplicateTag(tag) => exists i, j :: Repeated(outbounds, tag, i, j)
       case TagNotFound(tag) => requested != "" && forall i :: 0 <= i < |outbounds| ==> outbounds[i].tag != tag
       case _ => false
  }

  method ChooseTarget(outbounds: seq<Outbound>, tagIndexes: map<string, nat>, duplicateTags: set<string>,
                      requested: string)
    returns (err: Option<Error>, target: nat)
    requires TablesRight(outbounds, tagIndexes, duplicateTags) && "" !in tagIndexes && outbounds != []
    ensures err == None ==> Chosen(outbounds, requested, target)
    ensures err.Some? ==> NoTarget(outbounds, requested, err.value) && forall t :: !Chosen(outbounds, requested, t)
  {
    target := 0;
    if requested != "" {
      TablesResolve(outbounds, tagIndexes, duplicateTags, requested);
      if requested in duplicateTags { return Some(DuplicateTag(requested)), 0; }
      if requested !in tagIndexes { return Some(TagNotFound(requested)), 0; }
      target := tagIndexes[requested];
    } else if "proxy" in tagIndexes {
      TablesResolve(outbounds, tagIndexes, duplicateTags, "proxy");
      assert outbounds[tagIndexes["proxy"]].tag == "proxy";
      if "proxy" in duplicateTags { return Some(DuplicateTag("proxy")), 0; }
      target := tagIndexes["proxy"];
    }
    err := None;
  }

  /** The name for a dependency, which is among the selected. */
  lemma RefSelected(outbounds: seq<Outbound>, target: nat, selected: seq<nat>, k: nat, tag: string, i: nat)
    returns (j: nat)
    requires Collected(outbounds, target, selected) && k < |selected| && selected[k] < |outbounds|
    requires tag in DependencyTags(outbounds[selected[k]]) && Resolves(outbounds, tag, i)
    ensures j < |selected| && selected[j] == i
  {
    assert Reaches(outbounds, target, selected[k]) && Edge(outbounds, selected[k], i);
    var p :| PathTo(outbounds, p, target, selected[k]);
    PathExtended(outbounds, p, i);
    assert PathTo(outbounds, p + [i], target, i);
    assert Reaches(outbounds, target, i) && i in selected;
    j :| 0 <= j < |selected| && selected[j] == i;
  }

  /** In a sound graph every dependency of something selected is in the tables, without a duplicate. */
  lemma RefFound(outbounds: seq<Outbound>, tagIndexes: map<string, nat>, duplicateTags: set<string>, target: nat,
                 selected: seq<nat>, k: nat, tag: string)
    requires TablesRight(outbounds, tagIndexes, duplicateTags) && Sound(outbounds, target)
    requires Collected(outbounds, target, selected) && k < |selected| && selected[k] < |outbounds|
    requires tag in DependencyTags(outbounds[selected[k]])
    ensures tag in tagIndexes && Resolves(outbounds, tag, tagIndexes[tag])
  {
    assert Reaches(outbounds, target, selected[k]) && !Broken(outbounds, selected[k]);
    TablesResolve(outbounds, tagIndexes, duplicateTags, tag);
  }

  /** One reference after renaming. */
  method RenameRef(outbounds: seq<Outbound>, tagIndexes: map<string, nat>, ghost duplicateTags: set<string>,
                   ghost target: nat, selected: seq<nat>, namespaced: map<nat, string>, item: nat, ghost k: nat,
                   from: string)
    returns (to: string)
    requires TablesRight(outbounds, tagIndexes, duplicateTags) && Sound(outbounds, target)
    requires Collected(outbounds, target, selected) && k < |selected| && selected[k] < |outbounds|
    requires from != "" ==> from in DependencyTags(outbounds[selected[k]])
    requires forall j :: 0 <= j < |selected| ==>
      selected[j] in namespaced && namespaced[selected[j]] == Namespaced(item, j)
    ensures RefRenamed(outbounds, selected, item, from, to)
  {
    if from == "" { return ""; }
    RefFound(outbounds, tagIndexes, duplicateTags, target, selected, k, from);
    var dependencyIndex := tagIndexes[from];
    ghost var j := RefSelected(outbounds, target, selected, k, from, dependencyIndex);
    to := namespaced[dependencyIndex];
  }

  /** The k-th selected outbound, renamed, cannot be built. */
  ghost predicate FailsToBuild(outbounds: seq<Outbound>, target: nat, item: nat, selected: seq<nat>, k: nat,
                               bad: Outbound,
                               builds: Outbound -> bool, err: PrepareError) {
    && Collected(outbounds, target, selected) && k < |selected| && selected[k] < |outbounds|
    && Renamed(outbounds, selected, item, k, bad) && !builds(bad)
    && err == BuildFailed(outbounds[selected[k]].tag)
  }

  /** One selected outbound with its new names. */
  method RenameOutbound(outbounds: seq<Outbound>, tagIndexes: map<string, nat>, ghost duplicateTags: set<string>,
                        ghost target: nat,
                        selected: seq<nat>, namespaced: map<nat, string>, item: nat, k: nat) returns (o: Outbound)
    requires TablesRight(outbounds, tagIndexes, duplicateTags) && Sound(outbounds, target)
    requires Collected(outbounds, target, selected) && k < |selected| && selected[k] < |outbounds|
    requires forall j :: 0 <= j < |selected| ==>
      selected[j] in namespaced && namespaced[selected[j]] == Namespaced(item, j)
    ensures Renamed(outbounds, selected, item, k, o)
  {
    hide TablesRight, Collected, Namespaced, Sound;
    o := outbounds[selected[k]];
    var dialer := RenameRef(outbounds, tagIndexes, duplicateTags, target, selected, namespaced, item, k, o.dialerProxy);
    var proxy := RenameRef(outbounds, tagIndexes, duplicateTags, target, selected, namespaced, item, k, o.proxyTag);
    o := o.(tag := namespaced[selected[k]], dialerProxy := dialer, proxyTag := proxy);
  }

  /** preparePingOutbounds; `builds` tells which outbounds Xray can build. */
  method Prepare(outbounds: seq<Outbound>, requestedTag: string, itemIndex: nat, builds: Outbound -> bool)
    returns (err: Option<PrepareError>, prepared: seq<Outbound>, tag: string,
             ghost target: nat, ghost selected: seq<nat>, ghost bad: Outbound)
    requires outbounds != []
    ensures err == None ==>
      Chosen(outbounds, requestedTag, target) && Prepared(outbounds, target, itemIndex, selected, prepared)
    ensures err == None ==>
      prepared != [] && tag == prepared[0].tag && forall k :: 0 <= k < |prepared| ==> builds(prepared[k])
    ensures err == None ==> DepthFirst(outbounds, selected) && tag == "__libxray_ping_" + Decimal(itemIndex) + "_0"
    ensures err.Some? && err.value.Unsound? ==>
      || NoTarget(outbounds, requestedTag, err.value.error)
      || (Chosen(outbounds, requestedTag, target) && ErrorTrue(outbounds, target, err.value.error))
    ensures err.Some? && err.value.BuildFailed? ==>
      Chosen(outbounds, requestedTag, target)
      && exists k :: FailsToBuild(outbounds, target, itemIndex, selected, k, bad, builds, err.value)
    ensures err == None || err.value.BuildFailed?
      <==> exists t :: Chosen(outbounds, requestedTag, t) && Sound(outbounds, t)
  {
    hide TablesRight, Sound, Namespaced, Chosen, Renamed, NoTarget, ErrorTrue, DepthFirst;
    prepared, tag, target, selected, bad := [], "", 0, [], outbounds[0];
    var tagIndexes, duplicateTags := BuildTables(outbounds);
    var e, t := ChooseTarget(outbounds, tagIndexes, duplicateTags, requestedTag);
    if e.Some? { return Some(Unsound(e.value)), [], "", 0, [], outbounds[0]; }
    OneTarget(outbounds, requestedTag, t);
    var e', indexes := Collect(outbounds, tagIndexes, duplicateTags, t);
    if e'.Some? { return Some(Unsound(e'.value)), [], "", t, [], outbounds[0]; }
    target, selected := t, indexes;
    var namespaced: map<nat, string> := map[];
    for order := 0 to |indexes|
      invariant forall j :: 0 <= j < order ==>
        indexes[j] in namespaced && namespaced[indexes[j]] == Namespaced(itemIndex, j)
    {
      namespaced := namespaced[indexes[order] := Namespaced(itemIndex, order)];
    }
    for k := 0 to |indexes|
      invariant |prepared| == k && forall j :: 0 <= j < k ==> builds(prepared[j])
      invariant forall j {:trigger prepared[j]} :: 0 <= j < k ==> Renamed(outbounds, indexes, itemIndex, j, prepared[j])
    {
      var o := RenameOutbound(outbounds, tagIndexes, duplicateTags, t, indexes, namespaced, itemIndex, k);
      if !builds(o) {
        bad := o;
        err := Some(BuildFailed(outbounds[indexes[k]].tag));
        assert FailsToBuild(outbounds, target, itemIndex, selected, k, bad, builds, err.value);
        return err, [], "", target, selected, bad;
      }
      prepared := prepared + [o];
    }
    FirstName(outbounds, indexes, itemIndex, prepared[0]);
    err, tag := None, namespaced[t];
  }

  lemma FirstName(outbounds: seq<Outbound>, selected: seq<nat>, item: nat, o: Outbound)
    requires selected != [] && selected[0] < |outbounds| && Renamed(outbounds, selected, item, 0, o)
    ensures o.tag == Namespaced(item, 0) == "__libxray_ping_" + Decimal(item) + "_0"
  {
    assert Decimal(0) == "0";
    assert "_" + "0" == "_0";
  }

  lemma OneTarget(outbounds: seq<Outbound>, requested: string, t: nat)
    requires Chosen(outbounds, requested, t)
    ensures forall u :: Chosen(outbounds, requested, u) ==> u == t
  {}

  /** Names of prepared outbounds resolve to their positions. */
  lemma PreparedResolves(outbounds: seq<Outbound>, target: nat, item: nat, selected: seq<nat>, prepared: seq<Outbound>,
                         j: nat)
    requires Prepared(outbounds, target, item, selected, prepared) && j < |prepared|
    ensures Resolves(prepared, Namespaced(item, j), j)
  {
    forall i | 0 <= i < |prepared| && prepared[i].tag == Namespaced(item, j) ensures i == j {
      NamespacedInjective(item, i, item, j);
    }
  }

  /** Renaming preserves the graph: the prepared outbounds depend on each other exactly as the originals do. */
  lemma EdgesPreserved(outbounds: seq<Outbound>, target: nat, item: nat, selected: seq<nat>, prepared: seq<Outbound>,
                       k: nat, j: nat)
    requires Prepared(outbounds, target, item, selected, prepared) && k < |prepared| && j < |prepared|
    ensures Edge(prepared, k, j) <==> Edge(outbounds, selected[k], selected[j])
  {
    PreparedResolves(outbounds, target, item, selected, prepared, j);
    if Edge(prepared, k, j) { EdgeBack(outbounds, target, item, selected, prepared, k, j); }
    if Edge(outbounds, selected[k], selected[j]) { EdgeForth(outbounds, target, item, selected, prepared, k, j); }
  }

  lemma EdgeBack(outbounds: seq<Outbound>, target: nat, item: nat, selected: seq<nat>, prepared: seq<Outbound>, k: nat,
                 j: nat)
    requires Prepared(outbounds, target, item, selected, prepared) && k < |prepared| && j < |prepared|
    requires Edge(prepared, k, j)
    ensures Edge(outbounds, selected[k], selected[j])
  {
    var o := outbounds[selected[k]];
    var tag :| tag in DependencyTags(prepared[k]) && Resolves(prepared, tag, j);
    var from := if tag == prepared[k].dialerProxy && o.dialerProxy != "" then o.dialerProxy else o.proxyTag;
    var n :| 0 <= n < |selected| && Resolves(outbounds, from, selected[n]) && tag == Namespaced(item, n);
    PreparedResolves(outbounds, target, item, selected, prepared, n);
  }

  lemma EdgeForth(outbounds: seq<Outbound>, target: nat, item: nat, selected: seq<nat>, prepared: seq<Outbound>, k: nat,
                  j: nat)
    requires Prepared(outbounds, target, item, selected, prepared) && k < |prepared| && j < |prepared|
    requires Edge(outbounds, selected[k], selected[j])
    ensures Edge(prepared, k, j)
  {
    var o := outbounds[selected[k]];
    var tag :| tag in DependencyTags(o) && Resolves(outbounds, tag, selected[j]);
    var to := if tag == o.dialerProxy then prepared[k].dialerProxy else prepared[k].proxyTag;
    assert RefRenamed(outbounds, selected, item, tag, to);
    var n :| 0 <= n < |selected| && Resolves(outbounds, tag, selected[n]) && to == Namespaced(item, n);
    assert n == j;
    PreparedResolves(outbounds, target, item, selected, prepared, j);
    assert to in DependencyTags(prepared[k]);
  }
}

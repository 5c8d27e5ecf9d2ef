/**
 The dependency order of a rollout: transitive expansion of the targets followed by Kahn's algorithm.
 Go iterates its maps in an unspecified order; every such loop picks an arbitrary remaining element here.
 */
module DependencyOrder {
  import opened Text

  /** The compose services: each name with the names its `depends_on` lists. */
  type Graph = map<string, set<string>>

  datatype Order = Ordered(names: seq<string>) | Circular

  /** A name missing from the compose file has no dependencies. */
  function Deps(g: Graph, name: string): set<string> {
    if name in g then g[name] else {}
  }

  // ---------------------------------------------------------------------------------------------
  // What the order means
  // ---------------------------------------------------------------------------------------------

  ghost predicate EdgeAt(g: Graph, p: seq<string>, i: nat)
    requires i + 1 < |p|
  {
    p[i + 1] in Deps(g, p[i])
  }

  ghost predicate IsPath(g: Graph, p: seq<string>) {
    forall i: nat :: i + 1 < |p| ==> EdgeAt(g, p, i)
  }

  ghost predicate PathFromTo(g: Graph, p: seq<string>, from: string, to: string) {
    |p| > 0 && p[0] == from && p[|p| - 1] == to && IsPath(g, p)
  }

  ghost predicate ReachableFrom(g: Graph, from: string, name: string) {
    exists p :: PathFromTo(g, p, from, name)
  }

  ghost predicate Reachable(g: Graph, targets: seq<string>, name: string) {
    exists t :: t in targets && ReachableFrom(g, t, name)
  }

  /** A path that comes back to where it started after at least one edge. */
  ghost predicate IsCycle(g: Graph, p: seq<string>) {
    |p| >= 2 && p[0] == p[|p| - 1] && IsPath(g, p)
  }

  ghost predicate HasReachableCycle(g: Graph, targets: seq<string>) {
    exists p :: IsCycle(g, p) && Reachable(g, targets, p[0])
  }

  /** Closed under dependencies. */
  ghost predicate Closed(g: Graph, s: set<string>) {
    forall n {:trigger Deps(g, n)} :: n in s ==> Deps(g, n) <= s
  }

  /** Every dependency of an entry stands before it. */
  ghost predicate DependenciesFirst(g: Graph, order: seq<string>) {
    forall i, d :: 0 <= i < |order| && d in Deps(g, order[i]) ==> d in order[..i]
  }

  // ---------------------------------------------------------------------------------------------
  // Names: in-place insertion sort
  // ---------------------------------------------------------------------------------------------

  method InsertionSort(names: array<string>)
    modifies names
    ensures Sorted(names[..])
    ensures multiset(names[..]) == old(multiset(names[..]))
  {
    var i := 1;
    while i < names.Length
      invariant 1 <= i
      invariant forall p, q :: 0 <= p < q < i && q < names.Length ==> AtMost(names[p], names[q])
      invariant multiset(names[..]) == old(multiset(names[..]))
    {
      var j := i;
      while j > 0 && Less(names[j], names[j - 1])
        invariant 0 <= j <= i
        invariant forall p, q :: 0 <= p < q <= i && q != j ==> AtMost(names[p], names[q])
        invariant multiset(names[..]) == old(multiset(names[..]))
      {
        names[j - 1], names[j] := names[j], names[j - 1];
        j := j - 1;
      }
      forall p | 0 <= p < j ensures AtMost(names[p], names[j]) {
        LessTotal(names[j - 1], names[j]);
        if p < j - 1 {
          AtMostTransitive(names[p], names[j - 1], names[j]);
        }
      }
      i := i + 1;
    }
  }

  /** Dependencies.Names: the keys in sorted order. */
  method Names(deps: set<string>) returns (names: seq<string>)
    ensures Sorted(names) && Distinct(names) && Elements(names) == deps
  {
    var keys: seq<string> := [];
    var remaining := deps;
    while remaining != {}
      invariant Distinct(keys) && Elements(keys) !! remaining && Elements(keys) + remaining == deps
      decreases remaining
    {
      var name :| name in remaining;
      ElementsAppend(keys, name);
      DistinctAppend(keys, name);
      keys := keys + [name];
      remaining := remaining - {name};
    }
    var buffer := new string[|keys|](i requires 0 <= i < |keys| => keys[i]);
    assert buffer[..] == keys;
    InsertionSort(buffer);
    names := buffer[..];
    SameMultisetSameElements(keys, names);
  }

  /** The list Names returns does not depend on the order the map was iterated in. */
  lemma NamesDeterministic(a: seq<string>, b: seq<string>)
    requires Sorted(a) && Distinct(a) && Sorted(b) && Distinct(b) && Elements(a) == Elements(b)
    ensures a == b
  {
    DistinctMultiset(a);
    DistinctMultiset(b);
    SortedUnique(a, b);
  }

  // ---------------------------------------------------------------------------------------------
  // Transitive expansion
  // ---------------------------------------------------------------------------------------------

  /** Every name the expansion can meet. */
  ghost function Universe(g: Graph, targets: seq<string>): set<string> {
    Elements(targets) + g.Keys + set n, d | n in g && d in g[n] :: d
  }

  /** The recursive closure `expand`: depth-first, marking before descending. */
  method Expand(g: Graph, name: string, expanded: set<string>, ghost universe: set<string>)
      returns (result: set<string>)
    requires name in universe && expanded <= universe
    requires Closed(g, universe)
    ensures expanded + {name} <= result <= universe
    ensures forall n :: n in result - expanded ==> ReachableFrom(g, name, n)
    ensures forall n {:trigger Deps(g, n)} :: n in result - expanded ==> Deps(g, n) <= result
    decreases universe - expanded
  {
    if name in expanded {
      return expanded;
    }
    result := expanded + {name};
    assert PathFromTo(g, [name], name, name);
    if name !in g {
      return;
    }
    var names := Names(g[name]);
    for i := 0 to |names|
      invariant expanded + {name} <= result <= universe
      invariant forall n :: n in result - expanded ==> ReachableFrom(g, name, n)
      invariant forall n {:trigger Deps(g, n)} :: n in result - expanded && n != name ==> Deps(g, n) <= result
      invariant forall k :: 0 <= k < i ==> names[k] in result
    {
      assert names[i] in Elements(names) && names[i] in Deps(g, name);
      var before := result;
      result := Expand(g, names[i], before, universe);
      forall n | n in result - before ensures ReachableFrom(g, name, n) {
        PrependEdge(g, name, names[i], n);
      }
    }
    assert Deps(g, name) == Elements(names);
  }

  lemma PrependEdge(g: Graph, from: string, mid: string, to: string)
    requires mid in Deps(g, from) && ReachableFrom(g, mid, to)
    ensures ReachableFrom(g, from, to)
  {
    var p :| PathFromTo(g, p, mid, to);
    var q := [from] + p;
    forall i: nat | i + 1 < |q| ensures EdgeAt(g, q, i) {
      if i > 0 { assert EdgeAt(g, p, i - 1); }
    }
    assert PathFromTo(g, q, from, to);
  }

  /** The loop over the targets: the marked set is exactly what the targets reach. */
  method ExpandAll(g: Graph, targets: seq<string>) returns (expanded: set<string>)
    ensures forall n :: n in expanded <==> Reachable(g, targets, n)
    ensures Closed(g, expanded)
  {
    ghost var universe := Universe(g, targets);
    expanded := {};
    for i := 0 to |targets|
      invariant expanded <= universe
      invariant forall n :: n in expanded ==> Reachable(g, targets, n)
      invariant Closed(g, expanded)
      invariant forall k :: 0 <= k < i ==> targets[k] in expanded
    {
      assert targets[i] in Elements(targets);
      expanded := Expand(g, targets[i], expanded, universe);
    }
    forall n | Reachable(g, targets, n) ensures n in expanded {
      var t :| t in targets && ReachableFrom(g, t, n);
      var p :| PathFromTo(g, p, t, n);
      ClosedUnderPaths(g, expanded, p);
    }
  }

  lemma PathTail(g: Graph, p: seq<string>, k: nat)
    requires IsPath(g, p) && k <= |p|
    ensures IsPath(g, p[k..])
  {
    forall i: nat | i + 1 < |p[k..]| ensures EdgeAt(g, p[k..], i) {
      assert EdgeAt(g, p, k + i);
    }
  }

  lemma PathExtend(g: Graph, p: seq<string>, d: string)
    requires IsPath(g, p) && |p| > 0 && d in Deps(g, p[|p| - 1])
    ensures IsPath(g, p + [d])
  {
    forall i: nat | i + 1 < |p + [d]| ensures EdgeAt(g, p + [d], i) {
      if i + 1 < |p| { assert EdgeAt(g, p, i); }
    }
  }

  lemma {:induction false} ClosedUnderPaths(g: Graph, s: set<string>, p: seq<string>)
    requires Closed(g, s)
    requires IsPath(g, p) && |p| > 0 && p[0] in s
    ensures p[|p| - 1] in s
  {
    if |p| > 1 {
      assert EdgeAt(g, p, 0);
      PathTail(g, p, 1);
      ClosedUnderPaths(g, s, p[1..]);
    }
  }

  // ---------------------------------------------------------------------------------------------
  // Kahn's algorithm
  // ---------------------------------------------------------------------------------------------

  function DependentsOf(dependents: map<string, seq<string>>, name: string): seq<string> {
    if name in dependents then dependents[name] else []
  }

  /** `dependents` lists, once each, exactly the members of `names` that depend on `d`. */
  ghost predicate EdgesInto(g: Graph, names: set<string>, dependents: map<string, seq<string>>, d: string) {
    && Distinct(DependentsOf(dependents, d))
    && (forall n :: n in DependentsOf(dependents, d) <==> n in names && d in Deps(g, n))
  }

  ghost predicate EdgesOf(g: Graph, names: set<string>, dependents: map<string, seq<string>>) {
    forall d :: EdgesInto(g, names, dependents, d)
  }

  /** The edges of one service: `graph[dep]` gains it and its own degree grows, once per dependency. */
  method AddService(g: Graph, name: string, expanded: set<string>, dependents0: map<string, seq<string>>)
      returns (degree: int, dependents: map<string, seq<string>>)
    requires name in g && Deps(g, name) <= expanded
    ensures degree == |Deps(g, name)|
    ensures forall d ::
              DependentsOf(dependents, d) == DependentsOf(dependents0, d) + (if d in Deps(g, name) then [name] else [])
  {
    var names := Names(g[name]);
    DistinctCardinality(names);
    degree, dependents := 0, dependents0;
    for i := 0 to |names|
      invariant degree == i
      invariant forall d ::
                  DependentsOf(dependents, d) == DependentsOf(dependents0, d) + (if d in names[..i] then [name] else [])
    {
      assert names[i] in Elements(names);
      DistinctPrefix(names, i);
      if names[i] in expanded {
        dependents := dependents[names[i] := DependentsOf(dependents, names[i]) + [name]];
        degree := degree + 1;
      }
    }
    assert names[..|names|] == names;
    assert forall d :: d in names <==> d in Elements(names);
  }

  lemma EdgesGrow(g: Graph, done: set<string>, name: string, before: map<string, seq<string>>,
                  after: map<string, seq<string>>)
    requires EdgesOf(g, done, before) && name !in done
    requires forall d :: DependentsOf(after, d) == DependentsOf(before, d) + (if d in Deps(g, name) then [name] else [])
    ensures EdgesOf(g, done + {name}, after)
  {
    forall d ensures EdgesInto(g, done + {name}, after, d) {
      assert EdgesInto(g, done, before, d);
    }
  }

  method BuildEdges(g: Graph, expanded: set<string>)
      returns (inDegree: map<string, int>, dependents: map<string, seq<string>>)
    requires Closed(g, expanded)
    ensures inDegree.Keys == expanded
    ensures forall n {:trigger inDegree[n]} :: n in expanded ==> inDegree[n] == |Deps(g, n)|
    ensures EdgesOf(g, expanded, dependents)
  {
    inDegree, dependents := map[], map[];
    var remaining := expanded;
    assert EdgesOf(g, inDegree.Keys, dependents) by {
      forall d ensures EdgesInto(g, inDegree.Keys, dependents, d) {}
    }
    while remaining != {}
      invariant forall n :: n in expanded <==> n in remaining || n in inDegree
      invariant forall n :: n in remaining ==> n !in inDegree
      invariant forall n {:trigger inDegree[n]} :: n in inDegree ==> inDegree[n] == |Deps(g, n)|
      invariant EdgesOf(g, inDegree.Keys, dependents)
      decreases remaining
    {
      var name :| name in remaining;
      ghost var before, done := dependents, inDegree.Keys;
      var degree := 0;
      if name in g {
        degree, dependents := AddService(g, name, expanded, dependents);
      }
      EdgesGrow(g, done, name, before, dependents);
      inDegree := inDegree[name := degree];
      assert inDegree.Keys == done + {name};
      remaining := remaining - {name};
    }
  }

  method Seed(inDegree: map<string, int>) returns (queue: seq<string>)
    ensures Distinct(queue)
    ensures forall n :: n in queue <==> n in inDegree && inDegree[n] == 0
  {
    queue := [];
    var remaining := inDegree.Keys;
    while remaining != {}
      invariant remaining <= inDegree.Keys && Distinct(queue)
      invariant forall n :: n in queue <==> n in inDegree.Keys - remaining && inDegree[n] == 0
      decreases remaining
    {
      var name :| name in remaining;
      if inDegree[name] == 0 {
        queue := queue + [name];
      }
      remaining := remaining - {name};
    }
  }

  /** The dependencies of `name` not emitted yet. */
  ghost function Unmet(g: Graph, name: string, done: set<string>): set<string> {
    set d | d in Deps(g, name) && d !in done
  }

  lemma UnmetEmpty(g: Graph, name: string, done: set<string>)
    ensures |Unmet(g, name, done)| == 0 <==> Deps(g, name) <= done
  {
    if |Unmet(g, name, done)| == 0 {
      forall d | d in Deps(g, name) ensures d in done {
        assert d !in Unmet(g, name, done);
      }
    } else {
      var d :| d in Unmet(g, name, done);
    }
  }

  lemma OneFewer(g: Graph, name: string, done: set<string>, node: string)
    requires node !in done
    ensures |Unmet(g, name, done + {node})| == |Unmet(g, name, done)| - (if node in Deps(g, name) then 1 else 0)
  {
    assert Unmet(g, name, done + {node}) == Unmet(g, name, done) - {node};
    assert node in Unmet(g, name, done) <==> node in Deps(g, name);
  }

  /** Degrees count the dependencies not yet emitted; the queue holds the released names, each once. */
  ghost predicate Draining(g: Graph, expanded: set<string>, inDegree: map<string, int>, done: set<string>,
                           queue: seq<string>) {
    && inDegree.Keys == expanded && done <= expanded
    && Distinct(queue) && Elements(queue) <= expanded - done
    && (forall n {:trigger inDegree[n]} :: n in expanded ==> inDegree[n] == |Unmet(g, n, done)|)
    && (forall n {:trigger inDegree[n]} :: n in expanded ==> (n in done || n in queue <==> inDegree[n] == 0))
  }

  /** Half-way through releasing the dependents of `node`: the first k have been lowered. */
  ghost predicate Releasing(g: Graph, expanded: set<string>, inDegree: map<string, int>, dependents: seq<string>,
                            k: nat, done: set<string>, node: string, queue: seq<string>)
    requires k <= |dependents|
  {
    && inDegree.Keys == expanded && done + {node} <= expanded
    && Distinct(queue) && Elements(queue) <= expanded - (done + {node})
    && (forall n {:trigger inDegree[n]} :: n in expanded ==>
          inDegree[n] == |Unmet(g, n, done)| - (if n in dependents[..k] then 1 else 0))
    && (forall n {:trigger inDegree[n]} :: n in expanded ==> (n in done + {node} || n in queue <==> inDegree[n] == 0))
  }

  /** `dependents` is the list of names depending on `node`. */
  ghost predicate DependOn(g: Graph, expanded: set<string>, dependents: seq<string>, node: string) {
    Distinct(dependents) && forall n :: n in dependents <==> n in expanded && node in Deps(g, n)
  }

  lemma ReleaseOne(g: Graph, expanded: set<string>, inDegree: map<string, int>, dependents: seq<string>, k: nat,
                   done: set<string>, node: string, queue: seq<string>)
    requires DependOn(g, expanded, dependents, node) && node !in done
    requires k < |dependents| && Releasing(g, expanded, inDegree, dependents, k, done, node, queue)
    ensures dependents[k] in inDegree
    ensures var degree := inDegree[dependents[k]] - 1;
            Releasing(g, expanded, inDegree[dependents[k] := degree], dependents, k + 1, done, node,
                      if degree == 0 then queue + [dependents[k]] else queue)
  {
    var dependent := dependents[k];
    DistinctPrefix(dependents, k);
    assert dependent in dependents;
    OneFewer(g, dependent, done, node);
    assert inDegree[dependent] > 0;
    ElementsAppend(queue, dependent);
    assert dependent !in queue && dependent !in done + {node};
    assert dependent !in Elements(queue);
    DistinctAppend(queue, dependent);
  }

  /** Emits `node`: lowers the degree of each dependent and queues those that reach zero. */
  method Release(ghost g: Graph, ghost expanded: set<string>, inDegree0: map<string, int>, dependents: seq<string>,
                 ghost done: set<string>, node: string, queue0: seq<string>)
      returns (inDegree: map<string, int>, queue: seq<string>)
    requires Draining(g, expanded, inDegree0, done, [node] + queue0)
    requires DependOn(g, expanded, dependents, node)
    ensures Draining(g, expanded, inDegree, done + {node}, queue)
  {
    inDegree, queue := inDegree0, queue0;
    HeadOff(node, queue0);
    for k := 0 to |dependents|
      invariant Releasing(g, expanded, inDegree, dependents, k, done, node, queue)
    {
      ReleaseOne(g, expanded, inDegree, dependents, k, done, node, queue);
      inDegree := inDegree[dependents[k] := inDegree[dependents[k]] - 1];
      if inDegree[dependents[k]] == 0 {
        queue := queue + [dependents[k]];
      }
    }
    AllReleased(g, expanded, inDegree, dependents, done, node, queue);
  }

  lemma AllReleased(g: Graph, expanded: set<string>, inDegree: map<string, int>, dependents: seq<string>,
                    done: set<string>, node: string, queue: seq<string>)
    requires DependOn(g, expanded, dependents, node) && node !in done
    requires Releasing(g, expanded, inDegree, dependents, |dependents|, done, node, queue)
    ensures Draining(g, expanded, inDegree, done + {node}, queue)
  {
    assert dependents[..|dependents|] == dependents;
    forall n | n in expanded ensures inDegree[n] == |Unmet(g, n, done + {node})| {
      OneFewer(g, n, done, node);
    }
  }

  lemma HeadOff(node: string, queue: seq<string>)
    requires Distinct([node] + queue)
    ensures Distinct(queue) && node !in queue && Elements([node] + queue) == {node} + Elements(queue)
  {
    var whole := [node] + queue;
    forall i, j | 0 <= i < j < |queue| ensures queue[i] != queue[j] {
      assert whole[i + 1] != whole[j + 1];
    }
    forall i | 0 <= i < |queue| ensures queue[i] != node {
      assert whole[0] != whole[i + 1];
    }
  }

  /** Appending a name whose dependencies are all emitted keeps the order. */
  lemma EmitKeepsOrder(g: Graph, sorted: seq<string>, node: string)
    requires DependenciesFirst(g, sorted)
    requires Deps(g, node) <= Elements(sorted)
    ensures DependenciesFirst(g, sorted + [node])
  {
    var order := sorted + [node];
    forall i, d | 0 <= i < |order| && d in Deps(g, order[i]) ensures d in order[..i] {
      if i < |sorted| {
        assert order[..i] == sorted[..i];
      } else {
        assert d in Elements(sorted);
        assert order[..i] == sorted;
      }
    }
  }

  /** What holds of the output so far. */
  ghost predicate Emitted(g: Graph, expanded: set<string>, sorted: seq<string>) {
    Distinct(sorted) && Elements(sorted) <= expanded && DependenciesFirst(g, sorted)
  }

  lemma Emit(g: Graph, expanded: set<string>, inDegree: map<string, int>, sorted: seq<string>, node: string,
             rest: seq<string>)
    requires Draining(g, expanded, inDegree, Elements(sorted), [node] + rest) && Emitted(g, expanded, sorted)
    ensures node in expanded - Elements(sorted)
    ensures Emitted(g, expanded, sorted + [node]) && Elements(sorted + [node]) == Elements(sorted) + {node}
  {
    HeadOff(node, rest);
    assert inDegree[node] == 0;
    UnmetEmpty(g, node, Elements(sorted));
    EmitKeepsOrder(g, sorted, node);
    ElementsAppend(sorted, node);
    DistinctAppend(sorted, node);
  }

  method Drain(ghost g: Graph, ghost expanded: set<string>, inDegree0: map<string, int>,
               dependents: map<string, seq<string>>, queue0: seq<string>)
      returns (sorted: seq<string>)
    requires Draining(g, expanded, inDegree0, {}, queue0)
    requires EdgesOf(g, expanded, dependents)
    ensures Emitted(g, expanded, sorted)
    ensures forall n {:trigger Deps(g, n)} :: n in expanded && Deps(g, n) <= Elements(sorted) ==> n in sorted
  {
    var inDegree, queue := inDegree0, queue0;
    sorted := [];
    assert Elements(sorted) == {};
    while |queue| > 0
      invariant Draining(g, expanded, inDegree, Elements(sorted), queue)
      invariant Emitted(g, expanded, sorted)
      decreases expanded - Elements(sorted)
    {
      var node, rest := queue[0], queue[1..];
      assert queue == [node] + rest;
      Emit(g, expanded, inDegree, sorted, node, rest);
      assert EdgesInto(g, expanded, dependents, node);
      inDegree, queue := Release(g, expanded, inDegree, DependentsOf(dependents, node), Elements(sorted), node, rest);
      sorted := sorted + [node];
    }
    forall n {:trigger Deps(g, n)} | n in expanded && Deps(g, n) <= Elements(sorted) ensures n in sorted {
      UnmetEmpty(g, n, Elements(sorted));
      assert inDegree[n] == 0;
    }
  }

  /**
   topologicalSort. For every graph, target list and iteration order: it fails exactly when the part the
   targets reach has a cycle, and otherwise lists each reachable name once, dependencies first.
   */
  method TopologicalSort(targets: seq<string>, g: Graph) returns (result: Order)
    ensures result.Circular? <==> HasReachableCycle(g, targets)
    ensures result.Ordered? ==>
              && Distinct(result.names)
              && (forall n :: n in result.names <==> Reachable(g, targets, n))
              && DependenciesFirst(g, result.names)
  {
    var expanded := ExpandAll(g, targets);
    var inDegree, dependents := BuildEdges(g, expanded);
    var queue := Seed(inDegree);
    assert forall n :: Unmet(g, n, {}) == Deps(g, n);
    var sorted := Drain(g, expanded, inDegree, dependents, queue);
    DistinctCardinality(sorted);
    if |sorted| != |expanded| {
      ghost var cycle := LeftoverHasCycle(g, expanded, Elements(sorted));
      return Circular;
    }
    SubsetSameSize(Elements(sorted), expanded);
    assert forall n :: n in sorted <==> n in Elements(sorted);
    OrderedHasNoCycle(g, targets, sorted);
    return Ordered(sorted);
  }

  /** Every member has a dependency inside the set. */
  ghost predicate Stuck(g: Graph, left: set<string>) {
    forall n {:trigger Deps(g, n)} :: n in left ==> Deps(g, n) * left != {}
  }

  /** Whatever Kahn leaves over depends on something else left over, so it contains a cycle. */
  lemma LeftoverHasCycle(g: Graph, expanded: set<string>, done: set<string>) returns (cycle: seq<string>)
    requires Closed(g, expanded)
    requires forall n {:trigger Deps(g, n)} :: n in expanded && Deps(g, n) <= done ==> n in done
    requires done <= expanded && |done| != |expanded|
    ensures IsCycle(g, cycle) && cycle[0] in expanded
  {
    var left := expanded - done;
    SubsetSameSize(done, expanded);
    forall n | n in left ensures Deps(g, n) * left != {} {
      var d :| d in Deps(g, n) && d !in done;
      assert d in Deps(g, n) * left;
    }
    var start :| start in left;
    ElementsSingle(start);
    cycle := Walk(g, left, [start]);
  }

  /** Follow unresolved dependencies inside a finite set until a name repeats. */
  lemma {:induction false} Walk(g: Graph, left: set<string>, p: seq<string>) returns (cycle: seq<string>)
    requires Stuck(g, left)
    requires |p| > 0 && IsPath(g, p) && Elements(p) <= left
    ensures IsCycle(g, cycle) && cycle[0] in left
    decreases left - Elements(p)
  {
    var last := p[|p| - 1];
    assert last in Elements(p);
    var d :| d in Deps(g, last) * left;
    var q := p + [d];
    PathExtend(g, p, d);
    if d in p {
      var k :| 0 <= k < |p| && p[k] == d;
      PathTail(g, q, k);
      cycle := q[k..];
    } else {
      ElementsAppend(p, d);
      cycle := Walk(g, left, q);
    }
  }

  /** Positions strictly fall along dependencies, so an ordered set has no cycle. */
  lemma OrderedHasNoCycle(g: Graph, targets: seq<string>, order: seq<string>)
    requires DependenciesFirst(g, order) && Distinct(order)
    requires forall n :: Reachable(g, targets, n) ==> n in order
    ensures !HasReachableCycle(g, targets)
  {
    forall p | IsCycle(g, p) ensures !Reachable(g, targets, p[0]) {
      if p[0] in order {
        var i :| 0 <= i < |order| && order[i] == p[0];
        PositionsFall(g, order, p, i);
        assert false;
      }
    }
  }

  lemma {:induction false} PositionsFall(g: Graph, order: seq<string>, p: seq<string>, i: nat)
    requires DependenciesFirst(g, order)
    requires |p| >= 2 && IsPath(g, p)
    requires i < |order| && order[i] == p[0]
    ensures p[|p| - 1] in order[..i]
    decreases |p|
  {
    assert EdgeAt(g, p, 0);
    var j :| 0 <= j < i && order[..i][j] == p[1];
    if |p| > 2 {
      PathTail(g, p, 1);
      PositionsFall(g, order, p[1..], j);
      assert order[..j] == order[..i][..j];
    }
  }
}

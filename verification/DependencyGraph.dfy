/** The dependency graph object and Kahn's algorithm on it. Map iteration, which Go
    randomises, is an arbitrary choice here, so every contract holds for every order. */
module DependencyGraph {
  import opened Ordering
  import opened Digraphs
  import opened Wrappers

  datatype SortError = CycleDetected(resolved: nat, total: nat)

  class Graph {
    var nodes: set<string>
    var edges: map<string, seq<string>>

    ghost predicate Valid()
      reads this
    {
      View().WellFormed()
    }

    function View(): Digraph
      reads this
    {
      Digraph(nodes, edges)
    }

    constructor ()
      ensures Valid() && nodes == {} && edges == map[]
    {
      nodes := {};
      edges := map[];
    }

    method AddImage(name: string)
      requires Valid()
      modifies this`nodes
      ensures Valid() && nodes == old(nodes) + {name}
    {
      nodes := nodes + {name};
    }

    method AddDependency(from: string, to: string)
      requires Valid()
      modifies this`edges
      ensures Valid()
      ensures edges.Keys == old(edges).Keys + {from}
      ensures forall a :: View().Deps(a) == old(View()).Deps(a) + if a == from then {to} else {}
    {
      if from in edges && to in edges[from] {
        return;
      }
      var before := if from in edges then edges[from] else [];
      Append(before, to);
      edges := edges[from := before + [to]];
    }

    /** Every node that lists name among its dependencies, each once, in some order. */
    method Dependents(name: string) returns (result: seq<string>)
      requires Valid()
      ensures NoDup(result)
      ensures Elems(result) == View().Dependents(name)
    {
      result := [];
      var g := View();
      var todo := g.edges.Keys;
      while todo != {}
        invariant todo <= g.edges.Keys
        invariant NoDup(result)
        invariant Elems(result) == SourcesAmong(g, g.edges.Keys - todo, name)
        decreases |todo|
      {
        var from :| from in todo;
        var found := Contains(g.edges[from], name);
        assert from !in Elems(result);
        todo := todo - {from};
        if found {
          Append(result, from);
          result := result + [from];
        }
      }
    }

    method TopologicalSort() returns (r: Result<seq<string>, SortError>)
      requires Valid()
      ensures r.Success? <==> |BuildOrder(View())| == |nodes|
      ensures r.Success? ==> r.value == BuildOrder(View())
      ensures r.Failure? ==> r.error == CycleDetected(|BuildOrder(View())|, |nodes|)
    {
      var order := Kahn(View());
      if |order| != |nodes| {
        return Failure(CycleDetected(|order|, |nodes|));
      }
      return Success(order);
    }
  }

  method Contains(s: seq<string>, x: string) returns (found: bool)
    ensures found <==> x in s
  {
    for i := 0 to |s|
      invariant x !in s[..i]
    {
      if s[i] == x {
        return true;
      }
    }
    assert s[..|s|] == s;
    return false;
  }

  // ---------- the parts of TopologicalSort ----------

  /** The queue holds what is ready, sorted, each name once. */
  ghost predicate IsQueue(g: Digraph, done: set<string>, queue: seq<string>) {
    NoDup(queue) && SortedBy(queue, LessEq) && Elems(queue) == Ready(g, done)
  }

  /** The in-degree of a name counts its unbuilt dependencies. */
  ghost predicate CountsMissing(g: Digraph, done: set<string>, inDegree: map<string, int>) {
    inDegree.Keys == g.Names() && forall n :: n in inDegree ==> inDegree[n] == |Missing(g, n, done)|
  }

  ghost function SourcesAmong(g: Digraph, from: set<string>, to: string): set<string> {
    set f | f in from && f in g.edges && to in g.edges[f]
  }

  /** dependents lists, for every name, exactly the sources in from that depend on it. */
  ghost predicate IsReverse(g: Digraph, from: set<string>, dependents: map<string, seq<string>>) {
    forall to :: NoDup(Get(dependents, to)) && Elems(Get(dependents, to)) == SourcesAmong(g, from, to)
  }

  /** inDegree after the dependency lists of the names in seen have been counted. */
  ghost predicate CountsLists(g: Digraph, seen: set<string>, inDegree: map<string, int>) {
    && inDegree.Keys == g.nodes + seen
    && forall n :: n in inDegree ==> inDegree[n] == if n in seen && n in g.edges then |g.edges[n]| else 0
  }

  lemma AllCounted(g: Digraph, inDegree: map<string, int>)
    requires g.WellFormed() && CountsLists(g, g.edges.Keys, inDegree)
    ensures CountsMissing(g, {}, inDegree)
  {
    FirstReady(g);
  }

  lemma NothingCounted(g: Digraph)
    ensures CountsLists(g, {}, map n | n in g.nodes :: 0) && IsReverse(g, {}, map[])
  {
  }

  lemma CountOneMore(g: Digraph, seen: set<string>, from: string, inDegree: map<string, int>)
    requires CountsLists(g, seen, inDegree) && from in g.edges && from !in seen
    ensures CountsLists(g, seen + {from}, inDegree[from := (if from in inDegree then inDegree[from] else 0) + |g.edges[from]|])
  {
  }

  method CountDependencies(g: Digraph) returns (dependents: map<string, seq<string>>, inDegree: map<string, int>)
    requires g.WellFormed()
    ensures IsReverse(g, g.edges.Keys, dependents)
    ensures CountsMissing(g, {}, inDegree)
  {
    hide CountsLists, IsReverse, CountsMissing;
    inDegree := map n | n in g.nodes :: 0;
    dependents := map[];
    NothingCounted(g);
    var todo := g.edges.Keys;
    ghost var seen := {};
    while todo != {}
      invariant seen <= g.edges.Keys && todo == g.edges.Keys - seen
      invariant CountsLists(g, seen, inDegree)
      invariant IsReverse(g, seen, dependents)
      decreases |todo|
    {
      var from :| from in todo;
      CountOneMore(g, seen, from, inDegree);
      inDegree := inDegree[from := (if from in inDegree then inDegree[from] else 0) + |g.edges[from]|];
      dependents := AddSource(g, seen, from, dependents);
      todo, seen := todo - {from}, seen + {from};
    }
    assert seen == g.edges.Keys;
    AllCounted(g, inDegree);
  }

  method AddSource(g: Digraph, ghost seen: set<string>, from: string, dependents0: map<string, seq<string>>)
    returns (dependents: map<string, seq<string>>)
    requires g.WellFormed() && from in g.edges && from !in seen
    requires IsReverse(g, seen, dependents0)
    ensures IsReverse(g, seen + {from}, dependents)
  {
    var deps := g.edges[from];
    dependents := dependents0;
    for i := 0 to |deps|
      invariant forall to :: if to in deps[..i]
                             then Get(dependents, to) == Get(dependents0, to) + [from]
                             else Get(dependents, to) == Get(dependents0, to)
    {
      var to := deps[i];
      PrefixStep(deps, i);
      dependents := dependents[to := Get(dependents, to) + [from]];
    }
    assert deps[..|deps|] == deps;
    forall to
      ensures NoDup(Get(dependents, to)) && Elems(Get(dependents, to)) == SourcesAmong(g, seen + {from}, to)
    {
      var before := Get(dependents0, to);
      assert from !in Elems(before);
      Append(before, from);
    }
  }

  method FirstQueue(g: Digraph, inDegree: map<string, int>) returns (queue: seq<string>)
    requires g.WellFormed() && CountsMissing(g, {}, inDegree)
    ensures IsQueue(g, {}, queue)
  {
    queue := ZeroDegree(g.nodes, inDegree);
    FirstReady(g);
    queue := Sorted(queue);
  }

  method ZeroDegree(nodes: set<string>, inDegree: map<string, int>) returns (queue: seq<string>)
    requires nodes <= inDegree.Keys
    ensures NoDup(queue)
    ensures Elems(queue) == set n | n in nodes && inDegree[n] == 0
  {
    queue := [];
    var todo := nodes;
    while todo != {}
      invariant todo <= nodes && NoDup(queue)
      invariant forall n :: n in queue <==> n in nodes && n !in todo && inDegree[n] == 0
      decreases |todo|
    {
      var node :| node in todo;
      todo := todo - {node};
      if inDegree[node] == 0 {
        Append(queue, node);
        queue := queue + [node];
      }
    }
  }

  method Kahn(g: Digraph) returns (order: seq<string>)
    requires g.WellFormed()
    ensures order == BuildOrder(g)
  {
    hide *;
    var dependents, inDegree := CountDependencies(g);
    var queue := FirstQueue(g, inDegree);
    order := [];
    GreedyStart(g);
    while |queue| > 0
      invariant IsPartialOrder(g, order) && Greedy(g, order) == BuildOrder(g)
      invariant IsQueue(g, Elems(order), queue)
      invariant CountsMissing(g, Elems(order), inDegree)
      decreases |g.Names()| - |order|
    {
      var node := queue[0];
      ghost var done := Elems(order);
      TakeHead(g, done, queue);
      PartialIsClosed(g, order);
      GreedyStep(g, order, node);
      ReverseOf(g, dependents, node);
      order := order + [node];
      queue, inDegree := Release(g, done, node, queue[1..], inDegree, Get(dependents, node));
    }
    NothingQueued(g, Elems(order), queue);
    GreedyEnd(g, order);
  }

  lemma ReverseOf(g: Digraph, dependents: map<string, seq<string>>, node: string)
    requires IsReverse(g, g.edges.Keys, dependents)
    ensures NoDup(Get(dependents, node)) && Elems(Get(dependents, node)) == g.Dependents(node)
  {
    assert SourcesAmong(g, g.edges.Keys, node) == g.Dependents(node);
  }

  lemma NothingQueued(g: Digraph, done: set<string>, queue: seq<string>)
    requires IsQueue(g, done, queue) && queue == []
    ensures Ready(g, done) == {}
  {
  }

  lemma TakeHead(g: Digraph, done: set<string>, queue: seq<string>)
    requires IsQueue(g, done, queue) && queue != []
    ensures Ready(g, done) != {} && queue[0] == Min(Ready(g, done))
    ensures NoDup(queue[1..]) && SortedBy(queue[1..], LessEq)
    ensures Elems(queue[1..]) == Ready(g, done) - {queue[0]}
  {
    HeadIsMin(queue);
    assert queue == [queue[0]] + queue[1..];
  }

  /** node is built; of the names that wait for it, those in told have heard so, and are
      queued when they waited for nothing else. */
  ghost predicate Releasing(g: Digraph, done: set<string>, node: string, told: set<string>,
                            queue: seq<string>, inDegree: map<string, int>)
  {
    && NoDup(queue) && SortedBy(queue, LessEq)
    && Elems(queue) == (Ready(g, done) - {node}) + NewlyReady(g, done + {node}, told)
    && CountsAfter(g, done, node, told, inDegree)
  }

  ghost predicate CountsAfter(g: Digraph, done: set<string>, node: string, told: set<string>, inDegree: map<string, int>) {
    && inDegree.Keys == g.Names()
    && forall n :: n in inDegree ==> inDegree[n] == |Missing(g, n, if n in told then done + {node} else done)|
  }

  /** One round of Kahn's loop: node is built, and what only waited for it is queued. */
  method Release(g: Digraph, ghost done: set<string>, ghost node: string, queue0: seq<string>,
                 inDegree0: map<string, int>, dependents: seq<string>)
    returns (queue: seq<string>, inDegree: map<string, int>)
    requires DepsClosed(g, done) && node in Ready(g, done)
    requires NoDup(queue0) && SortedBy(queue0, LessEq) && Elems(queue0) == Ready(g, done) - {node}
    requires CountsMissing(g, done, inDegree0)
    requires NoDup(dependents) && Elems(dependents) == g.Dependents(node)
    ensures IsQueue(g, done + {node}, queue)
    ensures CountsMissing(g, done + {node}, inDegree)
  {
    hide *;
    queue, inDegree := queue0, inDegree0;
    NoneTold(g, done, node, queue, inDegree);
    for i := 0 to |dependents|
      invariant Releasing(g, done, node, Elems(dependents[..i]), queue, inDegree)
    {
      var dependent := dependents[i];
      assert dependent in Elems(dependents);
      PrefixStep(dependents, i);
      TellOne(g, done, node, Elems(dependents[..i]), dependent, queue, inDegree);
      inDegree := inDegree[dependent := inDegree[dependent] - 1];
      if inDegree[dependent] == 0 {
        queue := Sorted(queue + [dependent]);
      }
    }
    assert dependents[..|dependents|] == dependents;
    AllTold(g, done, node, queue, inDegree);
  }

  lemma NoneTold(g: Digraph, done: set<string>, node: string, queue: seq<string>, inDegree: map<string, int>)
    requires NoDup(queue) && SortedBy(queue, LessEq) && Elems(queue) == Ready(g, done) - {node}
    requires CountsMissing(g, done, inDegree)
    ensures Releasing(g, done, node, Elems([]), queue, inDegree)
  {
    assert NewlyReady(g, done + {node}, Elems([])) == {};
  }

  lemma TellOne(g: Digraph, done: set<string>, node: string, told: set<string>, n: string,
                queue: seq<string>, inDegree: map<string, int>)
    requires Releasing(g, done, node, told, queue, inDegree)
    requires node in Ready(g, done) && DepsClosed(g, done)
    requires n in g.Dependents(node) && n !in told
    ensures n in inDegree
    ensures var d := inDegree[n := inDegree[n] - 1];
      if d[n] == 0 then NoDup(queue + [n]) && Releasing(g, done, node, told + {n}, Sorted(queue + [n]), d)
      else Releasing(g, done, node, told + {n}, queue, d)
  {
    hide Ready, NewlyReady, Missing, DepsClosed, NoDup, SortedBy, Elems;
    IsDependent(g, done, node, n);
    MissingShrinks(g, n, done, node);
    TellCounts(g, done, node, told, n, inDegree);
    NewlyReadyStep(g, done + {node}, told, n);
    TellQueue(g, done, node, told, n, queue);
  }

  lemma IsDependent(g: Digraph, done: set<string>, node: string, n: string)
    requires node in Ready(g, done) && n in g.Dependents(node)
    ensures n in g.Names() && node in g.Deps(n) && node !in done
  {
  }

  lemma TellQueue(g: Digraph, done: set<string>, node: string, told: set<string>, n: string, queue: seq<string>)
    requires node in Ready(g, done) && DepsClosed(g, done)
    requires n in g.Dependents(node) && n !in told
    requires NoDup(queue) && Elems(queue) == (Ready(g, done) - {node}) + NewlyReady(g, done + {node}, told)
    ensures NoDup(queue + [n])
    ensures Elems(queue + [n]) == (Ready(g, done) - {node}) + (NewlyReady(g, done + {node}, told) + {n})
  {
    hide NoDup, Missing;
    assert n !in Elems(queue);
    Append(queue, n);
  }

  lemma TellCounts(g: Digraph, done: set<string>, node: string, told: set<string>, n: string, inDegree: map<string, int>)
    requires CountsAfter(g, done, node, told, inDegree)
    requires n in g.Names() && n !in told
    requires |Missing(g, n, done + {node})| == |Missing(g, n, done)| - 1
    ensures CountsAfter(g, done, node, told + {n}, inDegree[n := inDegree[n] - 1])
  {
    hide Missing, Digraph.Names;
    var more := inDegree[n := inDegree[n] - 1];
    forall m | m in more ensures more[m] == |Missing(g, m, if m in told + {n} then done + {node} else done)| {
      assert inDegree[m] == |Missing(g, m, if m in told then done + {node} else done)|;
    }
  }

  lemma AllTold(g: Digraph, done: set<string>, node: string, queue: seq<string>, inDegree: map<string, int>)
    requires DepsClosed(g, done) && node in Ready(g, done)
    requires Releasing(g, done, node, g.Dependents(node), queue, inDegree)
    ensures IsQueue(g, done + {node}, queue)
    ensures CountsMissing(g, done + {node}, inDegree)
  {
    hide Ready, NewlyReady, Missing, NoDup, SortedBy, DepsClosed;
    ReadyAfter(g, done, node);
    AllCounts(g, done, node, inDegree);
  }

  lemma AllCounts(g: Digraph, done: set<string>, node: string, inDegree: map<string, int>)
    requires CountsAfter(g, done, node, g.Dependents(node), inDegree)
    ensures CountsMissing(g, done + {node}, inDegree)
  {
    forall n | n in g.Names() && n !in g.Dependents(node)
      ensures Missing(g, n, done + {node}) == Missing(g, n, done)
    {
      assert node !in g.Deps(n);
    }
  }
}

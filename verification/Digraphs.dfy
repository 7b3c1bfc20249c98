/** The mathematics of a build graph: what a build order is, which names can be
    built at all, and the build order that always takes the alphabetically smallest
    name that is ready. Everything here is about values; DependencyGraph.dfy holds the class. */
module Digraphs {
  import opened Ordering

  /** An edge list reads "key depends on each value". */
  datatype Digraph = Digraph(nodes: set<string>, edges: map<string, seq<string>>) {

    /** Dependencies of a name, as a set. */
    function Deps(n: string): set<string> {
      if n in edges then Elems(edges[n]) else {}
    }

    /** The registered nodes and the names that only occur as a source of an edge. */
    function Names(): set<string> {
      nodes + edges.Keys
    }

    /** Every name that lists n among its dependencies. */
    function Dependents(n: string): set<string> {
      set f | f in edges && n in edges[f]
    }

    /** What AddDependency maintains: no empty and no repeating dependency list. */
    ghost predicate WellFormed() {
      forall n :: n in edges ==> edges[n] != [] && NoDup(edges[n])
    }

    /** Every source of an edge is a registered node. */
    predicate SourcesRegistered() {
      edges.Keys <= nodes
    }

    /** Every target of an edge is a registered node. */
    ghost predicate TargetsRegistered() {
      forall n :: n in edges ==> Deps(n) <= nodes
    }
  }

  /** The list of a name; a name without an entry has the empty one. */
  function Get(m: map<string, seq<string>>, n: string): seq<string> {
    if n in m then m[n] else []
  }

  // ---------- paths ----------

  ghost predicate IsPath(g: Digraph, p: seq<string>) {
    |p| > 0 && forall i, j :: 0 <= i && j == i + 1 && j < |p| ==> p[j] in g.Deps(p[i])
  }

  ghost predicate IsPathFromTo(g: Digraph, p: seq<string>, a: string, b: string) {
    IsPath(g, p) && p[0] == a && p[|p|-1] == b
  }

  /** a is b, or depends on b directly or through others. */
  ghost predicate Reaches(g: Digraph, a: string, b: string) {
    exists p :: IsPathFromTo(g, p, a, b)
  }

  ghost predicate OnCycle(g: Digraph, a: string) {
    exists p :: IsPathFromTo(g, p, a, a) && |p| > 1
  }

  ghost predicate Acyclic(g: Digraph) {
    forall a :: !OnCycle(g, a)
  }

  /** A name that can never be built: it reaches an unknown name or a cycle. */
  ghost predicate Doomed(g: Digraph, n: string) {
    exists m :: Reaches(g, n, m) && (m !in g.Names() || OnCycle(g, m))
  }

  lemma PathConcat(g: Digraph, p: seq<string>, q: seq<string>)
    requires IsPath(g, p) && IsPath(g, q) && p[|p|-1] == q[0]
    ensures IsPathFromTo(g, p + q[1..], p[0], q[|q|-1])
  {
    var r := p + q[1..];
    forall i, j | 0 <= i && j == i + 1 && j < |r| ensures r[j] in g.Deps(r[i]) {
      if j < |p| {
        assert r[i] == p[i] && r[j] == p[j];
      } else {
        assert r[j] == q[j - |p| + 1];
        assert r[i] == q[i - |p| + 1];
      }
    }
  }

  lemma ReachesTransitive(g: Digraph, a: string, b: string, c: string)
    requires Reaches(g, a, b) && Reaches(g, b, c)
    ensures Reaches(g, a, c)
  {
    var p :| IsPathFromTo(g, p, a, b);
    var q :| IsPathFromTo(g, q, b, c);
    PathConcat(g, p, q);
    assert IsPathFromTo(g, p + q[1..], a, c);
  }

  lemma ReachesStep(g: Digraph, a: string, b: string)
    requires b in g.Deps(a)
    ensures Reaches(g, a, b)
  {
    assert IsPathFromTo(g, [a, b], a, b);
  }

  lemma ReachesSelf(g: Digraph, a: string)
    ensures Reaches(g, a, a)
  {
    assert IsPathFromTo(g, [a], a, a);
  }

  lemma SubPath(g: Digraph, p: seq<string>, i: nat, j: nat)
    requires IsPath(g, p) && i <= j < |p|
    ensures IsPathFromTo(g, p[i..j+1], p[i], p[j])
  {
    var q := p[i..j+1];
    forall a, b | 0 <= a && b == a + 1 && b < |q| ensures q[b] in g.Deps(q[a]) {
      assert q[a] == p[i + a] && q[b] == p[i + b];
    }
  }

  /** A path longer than the set it stays in visits some name twice. */
  lemma {:induction false} Pigeonhole(p: seq<string>, u: set<string>)
    requires forall x :: x in p ==> x in u
    requires |p| > |u|
    ensures exists i, j :: 0 <= i < j < |p| && p[i] == p[j]
  {
    var last := p[|p|-1];
    var front := p[..|p|-1];
    assert p == front + [last];
    if last in front {
      var i :| 0 <= i < |front| && front[i] == last;
      assert p[i] == p[|p|-1];
    } else {
      forall x | x in front ensures x in u - {last} {
        assert x in p;
      }
      assert |u - {last}| == |u| - 1;
      Pigeonhole(front, u - {last});
      var i, j :| 0 <= i < j < |front| && front[i] == front[j];
      assert p[i] == p[j];
    }
  }

  lemma DoomedThrough(g: Digraph, a: string, b: string)
    requires Reaches(g, a, b) && Doomed(g, b)
    ensures Doomed(g, a)
  {
    var m :| Reaches(g, b, m) && (m !in g.Names() || OnCycle(g, m));
    ReachesTransitive(g, a, b, m);
  }

  /** A path that comes back to a name leads to a cycle. */
  lemma RepeatIsDoomed(g: Digraph, p: seq<string>, i: nat, j: nat)
    requires IsPath(g, p) && i < j < |p| && p[i] == p[j]
    ensures Doomed(g, p[0])
  {
    SubPath(g, p, 0, i);
    SubPath(g, p, i, j);
    assert Reaches(g, p[0], p[i]) && OnCycle(g, p[i]);
  }

  /** When every member of u depends on something outside the names or inside u,
      no member of u can be built: walking on either leaves the names or repeats. */
  lemma StuckIsDoomed(g: Digraph, u: set<string>, n: string)
    requires u <= g.Names() && n in u
    requires forall x :: x in u ==> exists d :: d in g.Deps(x) && (d in u || d !in g.Names())
    ensures Doomed(g, n)
  {
    if !Doomed(g, n) {
      var p := StuckWalk(g, u, n, |u|);
      forall x | x in p ensures x in u {
        var i :| 0 <= i < |p| && p[i] == x;
      }
      Pigeonhole(p, u);
      var i, j :| 0 <= i < j < |p| && p[i] == p[j];
      RepeatIsDoomed(g, p, i, j);
    }
  }

  lemma {:induction false} StuckWalk(g: Digraph, u: set<string>, n: string, k: nat) returns (p: seq<string>)
    requires u <= g.Names() && n in u
    requires forall x :: x in u ==> exists d :: d in g.Deps(x) && (d in u || d !in g.Names())
    requires !Doomed(g, n)
    ensures IsPath(g, p) && p[0] == n && |p| == k + 1
    ensures forall i :: 0 <= i < |p| ==> p[i] in u
  {
    if k == 0 {
      p := [n];
    } else {
      var q := StuckWalk(g, u, n, k - 1);
      var x := q[|q|-1];
      var d :| d in g.Deps(x) && (d in u || d !in g.Names());
      p := q + [d];
      assert IsPathFromTo(g, [x, d], x, d);
      PathConcat(g, q, [x, d]);
      assert q + [x, d][1..] == p;
      assert Reaches(g, n, d);
    }
  }

  // ---------- build orders ----------

  /** Duplicate-free, over known names, and every dependency of an entry stands before it. */
  ghost predicate IsPartialOrder(g: Digraph, o: seq<string>) {
    && NoDup(o)
    && Elems(o) <= g.Names()
    && forall i :: 0 <= i < |o| ==> g.Deps(o[i]) <= Elems(o[..i])
  }

  /** A build order: every node exactly once, dependencies first. */
  ghost predicate IsBuildOrder(g: Digraph, o: seq<string>) {
    IsPartialOrder(g, o) && Elems(o) == g.nodes
  }

  /** The unbuilt names whose dependencies are all built. */
  ghost function Ready(g: Digraph, done: set<string>): set<string> {
    set n | n in g.Names() && n !in done && g.Deps(n) <= done
  }

  lemma PartialAppend(g: Digraph, o: seq<string>, x: string)
    requires IsPartialOrder(g, o) && x in Ready(g, Elems(o))
    ensures IsPartialOrder(g, o + [x])
  {
    var o' := o + [x];
    Append(o, x);
    forall i | 0 <= i < |o'| ensures g.Deps(o'[i]) <= Elems(o'[..i]) {
      if i < |o| {
        assert o'[..i] == o[..i];
      } else {
        assert o'[..i] == o;
      }
    }
  }

  /** Extend o by the smallest ready name until nothing is ready. */
  ghost function Greedy(g: Digraph, o: seq<string>): seq<string>
    decreases |g.Names() - Elems(o)|
  {
    var ready := Ready(g, Elems(o));
    if ready == {} then o else
      var m := Min(ready);
      Append(o, m);
      assert g.Names() - Elems(o + [m]) == (g.Names() - Elems(o)) - {m};
      assert m in g.Names() - Elems(o);
      Greedy(g, o + [m])
  }

  ghost function BuildOrder(g: Digraph): seq<string> {
    Greedy(g, [])
  }

  /** One more entry leaves less to build. */
  lemma GreedyShrinks(g: Digraph, o: seq<string>)
    requires Ready(g, Elems(o)) != {}
    ensures var m := Min(Ready(g, Elems(o)));
      Greedy(g, o) == Greedy(g, o + [m]) && |g.Names() - Elems(o + [m])| < |g.Names() - Elems(o)|
  {
    var m := Min(Ready(g, Elems(o)));
    Append(o, m);
    assert g.Names() - Elems(o + [m]) == (g.Names() - Elems(o)) - {m};
    assert m in g.Names() - Elems(o);
  }

  lemma {:induction false} GreedyExtends(g: Digraph, o: seq<string>)
    requires IsPartialOrder(g, o)
    ensures IsPartialOrder(g, Greedy(g, o))
    ensures o <= Greedy(g, o)
    ensures Ready(g, Elems(Greedy(g, o))) == {}
    decreases |g.Names() - Elems(o)|
  {
    hide Ready, IsPartialOrder;
    if Ready(g, Elems(o)) != {} {
      hide Greedy;
      var m := Min(Ready(g, Elems(o)));
      GreedyShrinks(g, o);
      PartialAppend(g, o, m);
      GreedyExtends(g, o + [m]);
    }
  }

  lemma GreedyStart(g: Digraph)
    ensures IsPartialOrder(g, []) && Greedy(g, []) == BuildOrder(g) && Elems<string>([]) == {}
  {
  }

  lemma GreedyEnd(g: Digraph, o: seq<string>)
    requires Ready(g, Elems(o)) == {}
    ensures Greedy(g, o) == o
  {
  }

  /** Taking the smallest ready name is one step of the greedy order, and leaves less to build. */
  lemma GreedyStep(g: Digraph, o: seq<string>, node: string)
    requires IsPartialOrder(g, o)
    requires Ready(g, Elems(o)) != {} && node == Min(Ready(g, Elems(o)))
    ensures IsPartialOrder(g, o + [node])
    ensures Greedy(g, o + [node]) == Greedy(g, o)
    ensures Elems(o + [node]) == Elems(o) + {node}
    ensures |o| < |g.Names()|
  {
    PartialAppend(g, o, node);
    Append(o, node);
    NoDupMultiset(o + [node]);
    SubsetSize(Elems(o + [node]), g.Names());
  }

  lemma BuildOrderPartial(g: Digraph)
    ensures IsPartialOrder(g, BuildOrder(g))
    ensures Ready(g, Elems(BuildOrder(g))) == {}
  {
    GreedyExtends(g, []);
  }

  /** Along a path inside a partial order the positions fall. */
  lemma {:induction false} PathFalls(g: Digraph, o: seq<string>, p: seq<string>)
    requires IsPartialOrder(g, o) && IsPath(g, p) && p[0] in o
    ensures forall i :: 0 <= i < |p| ==> p[i] in o
    ensures forall a, b :: 0 <= a < |o| && 0 <= b < |o| && o[a] == p[0] && o[b] == p[|p|-1] ==> b <= a && (|p| > 1 ==> b < a)
    decreases |p|
  {
    if |p| > 1 {
      var a :| 0 <= a < |o| && o[a] == p[0];
      assert p[1] in g.Deps(p[0]);
      assert p[1] in Elems(o[..a]);
      var c :| 0 <= c < a && o[c] == p[1];
      SubPath(g, p, 1, |p| - 1);
      assert p[1..|p|-1+1] == p[1..];
      PathFalls(g, o, p[1..]);
      forall i | 0 <= i < |p| ensures p[i] in o {
        if i > 0 { assert p[i] == p[1..][i-1]; }
      }
    }
  }

  lemma OrderedIsNotDoomed(g: Digraph, o: seq<string>, n: string)
    requires IsPartialOrder(g, o) && n in o
    ensures !Doomed(g, n)
  {
    if Doomed(g, n) {
      var m :| Reaches(g, n, m) && (m !in g.Names() || OnCycle(g, m));
      var p :| IsPathFromTo(g, p, n, m);
      PathFalls(g, o, p);
      assert m in Elems(o);
      var a :| 0 <= a < |o| && o[a] == m;
      var q :| IsPathFromTo(g, q, m, m) && |q| > 1;
      PathFalls(g, o, q);
      assert false;
    }
  }

  /** The names the greedy order builds are exactly those that reach neither a cycle nor an unknown name. */
  lemma BuildOrderComplete(g: Digraph, n: string)
    ensures n in BuildOrder(g) <==> n in g.Names() && !Doomed(g, n)
  {
    var o := BuildOrder(g);
    BuildOrderPartial(g);
    if n in o {
      assert n in Elems(o);
      OrderedIsNotDoomed(g, o, n);
    } else if n in g.Names() {
      var u := g.Names() - Elems(o);
      forall x | x in u ensures exists d :: d in g.Deps(x) && (d in u || d !in g.Names()) {
        assert x !in Ready(g, Elems(o));
        var d :| d in g.Deps(x) && d !in Elems(o);
      }
      StuckIsDoomed(g, u, n);
    }
  }

  /** o comes before q at the first place where they differ. */
  ghost predicate LexBefore(o: seq<string>, q: seq<string>) {
    exists k :: 0 <= k < |o| && k < |q| && o[..k] == q[..k] && Less(o[k], q[k])
  }

  /** The entry after a prefix of a build order is ready once the prefix is built. */
  lemma NextIsReady(g: Digraph, q: seq<string>, k: nat)
    requires IsPartialOrder(g, q) && k < |q|
    ensures IsPartialOrder(g, q[..k])
    ensures q[k] in Ready(g, Elems(q[..k]))
  {
    PartialPrefix(g, q, k);
    assert q[k] !in q[..k];
    assert q[k] in Elems(q);
  }

  /** Where q first departs from the greedy choice, it takes a larger name. */
  lemma GreedyDeparts(g: Digraph, q: seq<string>, k: nat)
    requires IsPartialOrder(g, q) && k < |q|
    requires Ready(g, Elems(q[..k])) != {} && q[k] in Ready(g, Elems(q[..k])) && q[k] != Min(Ready(g, Elems(q[..k])))
    requires IsPartialOrder(g, q[..k])
    ensures LexBefore(Greedy(g, q[..k]), q)
  {
    hide IsPartialOrder, Ready;
    var o := q[..k];
    var m := Min(Ready(g, Elems(o)));
    PartialAppend(g, o, m);
    GreedyShrinks(g, o);
    GreedyExtends(g, o + [m]);
    hide Greedy;
    var r := Greedy(g, o);
    assert o + [m] <= r;
    assert r[..k] == o && r[k] == (o + [m])[k];
  }

  lemma {:induction false} GreedyLeast(g: Digraph, q: seq<string>, k: nat)
    requires IsPartialOrder(g, q) && Ready(g, Elems(q)) == {}
    requires k <= |q|
    ensures Greedy(g, q[..k]) == q || LexBefore(Greedy(g, q[..k]), q)
    decreases |q| - k
  {
    hide IsPartialOrder, Ready, LexBefore;
    if k == |q| {
      assert q[..k] == q;
    } else {
      hide Greedy;
      var o := q[..k];
      NextIsReady(g, q, k);
      if q[k] == Min(Ready(g, Elems(o))) {
        assert q[..k+1] == o + [q[k]];
        GreedyShrinks(g, o);
        GreedyLeast(g, q, k + 1);
      } else {
        GreedyDeparts(g, q, k);
      }
    }
  }

  lemma PartialPrefix(g: Digraph, q: seq<string>, k: nat)
    requires IsPartialOrder(g, q) && k <= |q|
    ensures IsPartialOrder(g, q[..k])
  {
    forall i | 0 <= i < k ensures g.Deps(q[..k][i]) <= Elems(q[..k][..i]) {
      assert q[..k][..i] == q[..i];
    }
    forall x | x in Elems(q[..k]) ensures x in g.Names() {
      assert x in Elems(q);
    }
  }

  lemma BuildOrderHasNothingReady(g: Digraph, q: seq<string>)
    requires g.SourcesRegistered() && IsBuildOrder(g, q)
    ensures Ready(g, Elems(q)) == {}
  {
    assert g.Names() == g.nodes;
  }

  /** Of all build orders the greedy one comes first in lexicographic order. */
  lemma BuildOrderLexLeast(g: Digraph, q: seq<string>)
    requires g.SourcesRegistered() && IsBuildOrder(g, q)
    ensures BuildOrder(g) == q || LexBefore(BuildOrder(g), q)
    ensures IsBuildOrder(g, BuildOrder(g))
  {
    BuildOrderHasNothingReady(g, q);
    GreedyLeast(g, q, 0);
    assert q[..0] == [];
    BuildOrderPartial(g);
    forall n ensures n in g.nodes <==> n in BuildOrder(g) {
      if n in g.nodes {
        assert n in Elems(q);
        OrderedIsNotDoomed(g, q, n);
      }
      BuildOrderComplete(g, n);
      assert g.Names() == g.nodes;
    }
    assert Elems(BuildOrder(g)) == g.nodes;
  }

  lemma BuildOrderSize(g: Digraph)
    requires g.SourcesRegistered()
    ensures |BuildOrder(g)| == |g.nodes| <==> IsBuildOrder(g, BuildOrder(g))
  {
    var o := BuildOrder(g);
    BuildOrderPartial(g);
    NoDupMultiset(o);
    assert g.Names() == g.nodes;
    if |o| == |g.nodes| {
      SubsetSameSize(Elems(o), g.nodes);
    }
  }

  /** With registered sources the greedy order has all nodes, and is a build order, exactly
      when no name is unknown and none is circular. */
  lemma BuildOrderSucceeds(g: Digraph)
    requires g.SourcesRegistered()
    ensures |BuildOrder(g)| == |g.nodes| <==> g.TargetsRegistered() && Acyclic(g)
    ensures |BuildOrder(g)| == |g.nodes| <==> IsBuildOrder(g, BuildOrder(g))
    ensures |BuildOrder(g)| == |g.nodes| <==> forall n :: n in g.nodes ==> !Doomed(g, n)
  {
    BuildOrderSize(g);
    BuildOrderAll(g);
    if forall n :: n in g.nodes ==> !Doomed(g, n) {
      NothingDoomed(g);
    }
    if g.TargetsRegistered() && Acyclic(g) {
      forall n | n in g.nodes ensures !Doomed(g, n) { HealthyHasNoDoomed(g, n); }
    }
  }

  /** Without registered sources the greedy order has as many entries as there are buildable names,
      sources included. */
  lemma BuildOrderCount(g: Digraph)
    ensures |BuildOrder(g)| == |set n | n in g.Names() && !Doomed(g, n)|
  {
    var o := BuildOrder(g);
    BuildOrderPartial(g);
    NoDupMultiset(o);
    forall n ensures n in o <==> n in g.Names() && !Doomed(g, n) { BuildOrderComplete(g, n); }
    hide Doomed;
    assert Elems(o) == set n | n in g.Names() && !Doomed(g, n);
  }

  /** When the count is right, the order is a build order if and only if no unregistered source
      could be built. */
  lemma CountDecides(g: Digraph)
    requires |BuildOrder(g)| == |g.nodes|
    ensures IsBuildOrder(g, BuildOrder(g)) <==> forall n :: n in g.edges && n !in g.nodes ==> Doomed(g, n)
  {
    var o := BuildOrder(g);
    BuildOrderPartial(g);
    NoDupMultiset(o);
    forall n ensures n in o <==> n in g.Names() && !Doomed(g, n) { BuildOrderComplete(g, n); }
    hide Doomed, BuildOrder;
    if forall n :: n in g.edges && n !in g.nodes ==> Doomed(g, n) {
      assert Elems(o) <= g.nodes;
      SubsetSameSize(Elems(o), g.nodes);
    }
  }

  const LOOSE_GRAPH := Digraph({"a", "b"}, map["b" := ["zz"], "x" := ["a"]])

  /** So the count can be right by accident: an unregistered source stands in for a node that
      depends on an unknown name, and the order of the right length is no build order. */
  lemma UnregisteredSourceFoolsTheCount()
    ensures !LOOSE_GRAPH.SourcesRegistered() && LOOSE_GRAPH.WellFormed()
    ensures |BuildOrder(LOOSE_GRAPH)| == |LOOSE_GRAPH.nodes| && !IsBuildOrder(LOOSE_GRAPH, BuildOrder(LOOSE_GRAPH))
  {
    var g := LOOSE_GRAPH;
    assert "x" in g.edges && "x" !in g.nodes;
    assert g.Names() == {"a", "b", "x"};
    var o := ["a", "x"];
    assert o[..1] == ["a"] && "a" in o[..1];
    assert g.Deps("a") == {} && g.Deps("x") == {"a"};
    assert IsPartialOrder(g, o);
    OrderedIsNotDoomed(g, o, "a");
    OrderedIsNotDoomed(g, o, "x");
    ReachesStep(g, "b", "zz");
    assert Doomed(g, "b");
    BuildOrderCount(g);
    hide Doomed, BuildOrder;
    assert (set n | n in g.Names() && !Doomed(g, n)) == {"a", "x"};
    CountDecides(g);
  }

  lemma BuildOrderAll(g: Digraph)
    requires g.SourcesRegistered()
    ensures IsBuildOrder(g, BuildOrder(g)) <==> forall n :: n in g.nodes ==> !Doomed(g, n)
  {
    var o := BuildOrder(g);
    BuildOrderPartial(g);
    assert g.Names() == g.nodes;
    forall n ensures n in o <==> n in g.nodes && !Doomed(g, n) { BuildOrderComplete(g, n); }
    assert (forall n :: n in g.nodes ==> n in o) <==> g.nodes <= Elems(o);
  }

  lemma NothingDoomed(g: Digraph)
    requires g.SourcesRegistered()
    requires forall n :: n in g.nodes ==> !Doomed(g, n)
    ensures g.TargetsRegistered() && Acyclic(g)
  {
    forall n, d | n in g.edges && d in g.Deps(n) ensures d in g.nodes {
      ReachesStep(g, n, d);
      assert !Doomed(g, n);
    }
    forall a ensures !OnCycle(g, a) {
      if OnCycle(g, a) {
        var p :| IsPathFromTo(g, p, a, a) && |p| > 1;
        assert p[1] in g.Deps(p[0]);
        ReachesSelf(g, a);
        assert Doomed(g, a);
        assert false;
      }
    }
  }

  lemma HealthyHasNoDoomed(g: Digraph, n: string)
    requires g.SourcesRegistered() && g.TargetsRegistered() && Acyclic(g) && n in g.nodes
    ensures !Doomed(g, n)
  {
    if Doomed(g, n) {
      var m :| Reaches(g, n, m) && (m !in g.Names() || OnCycle(g, m));
      var p :| IsPathFromTo(g, p, n, m);
      PathStaysRegistered(g, p);
      assert false;
    }
  }

  lemma {:induction false} PathStaysRegistered(g: Digraph, p: seq<string>)
    requires g.TargetsRegistered() && IsPath(g, p) && p[0] in g.nodes
    ensures p[|p|-1] in g.nodes
  {
    if |p| > 1 {
      assert p[|p|-1] in g.Deps(p[|p|-2]);
    }
  }

  lemma SubsetSameSize<T>(a: set<T>, b: set<T>)
    requires a <= b && |a| == |b|
    ensures a == b
  {
    if x :| x in b && x !in a {
      assert a <= b - {x};
      SubsetSize(a, b - {x});
      assert false;
    }
  }

  lemma {:induction false} SubsetSize<T>(a: set<T>, b: set<T>)
    requires a <= b
    ensures |a| <= |b|
  {
    if x :| x in a {
      SubsetSize(a - {x}, b - {x});
    }
  }

  lemma SubsetSizeStrict<T>(a: set<T>, b: set<T>)
    requires a < b
    ensures |a| < |b|
  {
    var x :| x in b && x !in a;
    assert a <= b - {x};
    SubsetSize(a, b - {x});
  }

  // ---------- graphs that differ only in the order of their lists ----------

  ghost predicate SameEdges(g: Digraph, h: Digraph) {
    g.nodes == h.nodes && g.Names() == h.Names() && forall n :: g.Deps(n) == h.Deps(n)
  }

  lemma SamePaths(g: Digraph, h: Digraph)
    requires SameEdges(g, h)
    ensures forall p :: IsPath(g, p) <==> IsPath(h, p)
    ensures forall n :: Doomed(g, n) <==> Doomed(h, n)
  {
    hide Digraph.Deps, Digraph.Names;
    forall p ensures IsPath(g, p) <==> IsPath(h, p) {}
    forall a, b ensures Reaches(g, a, b) <==> Reaches(h, a, b) {
      assert forall p :: IsPathFromTo(g, p, a, b) <==> IsPathFromTo(h, p, a, b);
    }
    forall a ensures OnCycle(g, a) <==> OnCycle(h, a) {
      assert forall p :: IsPathFromTo(g, p, a, a) <==> IsPathFromTo(h, p, a, a);
    }
    hide IsPath, Reaches, OnCycle;
    forall n ensures Doomed(g, n) <==> Doomed(h, n) {
      assert forall m :: (Reaches(g, n, m) && (m !in g.Names() || OnCycle(g, m))) <==> (Reaches(h, n, m) && (m !in h.Names() || OnCycle(h, m)));
    }
  }

  lemma SameReady(g: Digraph, h: Digraph, done: set<string>)
    requires SameEdges(g, h)
    ensures Ready(g, done) == Ready(h, done)
  {
    hide Digraph.Deps, Digraph.Names;
  }

  lemma {:induction false} SameGreedy(g: Digraph, h: Digraph, o: seq<string>)
    requires SameEdges(g, h)
    ensures Greedy(g, o) == Greedy(h, o)
    decreases |g.Names() - Elems(o)|
  {
    SameReady(g, h, Elems(o));
    hide Ready, SameEdges, Digraph.Deps, Digraph.Names;
    if Ready(g, Elems(o)) != {} {
      GreedyShrinks(g, o);
      GreedyShrinks(h, o);
      hide Greedy;
      SameGreedy(g, h, o + [Min(Ready(g, Elems(o)))]);
    }
  }

  /** They have the same build orders, the same greedy one, and the same unbuildable names. */
  lemma SameOrders(g: Digraph, h: Digraph)
    requires SameEdges(g, h)
    ensures BuildOrder(g) == BuildOrder(h)
    ensures forall o :: IsBuildOrder(g, o) <==> IsBuildOrder(h, o)
    ensures forall n :: Doomed(g, n) <==> Doomed(h, n)
  {
    SameGreedy(g, h, []);
    SamePaths(g, h);
    hide Digraph.Deps, Digraph.Names, Greedy, Doomed;
  }

  // ---------- counting unmet dependencies ----------

  /** The dependencies of n that are not built yet. */
  ghost function Missing(g: Digraph, n: string, done: set<string>): set<string> {
    g.Deps(n) - done
  }

  ghost function NewlyReady(g: Digraph, done: set<string>, among: set<string>): set<string> {
    set n | n in among && Missing(g, n, done) == {}
  }

  lemma NewlyReadyStep(g: Digraph, done: set<string>, among: set<string>, n: string)
    ensures NewlyReady(g, done, among + {n}) == NewlyReady(g, done, among) + if |Missing(g, n, done)| == 0 then {n} else {}
  {
    assert |Missing(g, n, done)| == 0 <==> Missing(g, n, done) == {};
  }

  lemma MissingShrinks(g: Digraph, n: string, done: set<string>, node: string)
    requires node in g.Deps(n) && node !in done
    ensures |Missing(g, n, done + {node})| == |Missing(g, n, done)| - 1
  {
    assert Missing(g, n, done + {node}) == Missing(g, n, done) - {node};
  }

  /** Whatever is built, so are its dependencies. */
  ghost predicate DepsClosed(g: Digraph, done: set<string>) {
    forall n :: n in done ==> g.Deps(n) <= done
  }

  lemma PartialIsClosed(g: Digraph, o: seq<string>)
    requires IsPartialOrder(g, o)
    ensures DepsClosed(g, Elems(o))
  {
    forall n, d | n in Elems(o) && d in g.Deps(n) ensures d in Elems(o) {
      var i :| 0 <= i < |o| && o[i] == n;
      assert d in Elems(o[..i]);
    }
  }

  lemma ReadyAfter(g: Digraph, done: set<string>, node: string)
    requires node in Ready(g, done) && DepsClosed(g, done)
    ensures Ready(g, done + {node}) == (Ready(g, done) - {node}) + NewlyReady(g, done + {node}, g.Dependents(node))
  {
    forall n ensures n in Ready(g, done + {node}) <==>
      n in Ready(g, done) - {node} || n in NewlyReady(g, done + {node}, g.Dependents(node))
    {
      assert n in g.Dependents(node) <==> node in g.Deps(n);
      assert g.Deps(n) <= done + {node} <==> Missing(g, n, done + {node}) == {};
    }
  }

  lemma FirstReady(g: Digraph)
    requires g.WellFormed()
    ensures forall n :: |Missing(g, n, {})| == if n in g.edges then |g.edges[n]| else 0
    ensures Ready(g, {}) == set n | n in g.nodes && |Missing(g, n, {})| == 0
  {
    hide Missing;
    forall n ensures |Missing(g, n, {})| == if n in g.edges then |g.edges[n]| else 0 {
      MissingAtFirst(g, n);
    }
    forall n ensures g.Deps(n) <= {} <==> |Missing(g, n, {})| == 0 {
      MissingAtFirst(g, n);
    }
    forall n | n in g.edges ensures |Missing(g, n, {})| > 0 {
      assert |g.edges[n]| > 0;
    }
  }

  lemma MissingAtFirst(g: Digraph, n: string)
    requires g.WellFormed()
    ensures |Missing(g, n, {})| == if n in g.edges then |g.edges[n]| else 0
    ensures g.Deps(n) <= {} <==> |Missing(g, n, {})| == 0
  {
    assert Missing(g, n, {}) == g.Deps(n);
    if n in g.edges {
      NoDupMultiset(g.edges[n]);
    }
  }
}

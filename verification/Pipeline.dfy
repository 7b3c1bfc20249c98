/** The order of the images in the generated pipeline, from the project to the sorted list. */
module Pipeline {
  import opened Wrappers
  import opened Ordering
  import opened Digraphs
  import opened DependencyGraph
  import opened Project
  import opened ImageGraph
  import Depths

  /** The dependency lists that the layering gets: those of the merged graph, sorted, without the
      empty ones. */
  ghost predicate AreLists(g: Digraph, names: set<string>, dependencies: map<string, seq<string>>) {
    && dependencies.Keys <= names
    && forall n :: n in names ==> (if n in dependencies then Elems(dependencies[n]) else {}) == g.Deps(n)
  }

  method DependencyLists(graph: Graph, names: set<string>) returns (dependencies: map<string, seq<string>>)
    ensures AreLists(graph.View(), names, dependencies)
  {
    dependencies := map[];
    var todo := names;
    while todo != {}
      invariant todo <= names
      invariant AreLists(graph.View(), names - todo, dependencies)
      decreases todo
    {
      var n :| n in todo;
      var deps := if n in graph.edges then graph.edges[n] else [];
      assert graph.View().Deps(n) == Elems(deps);
      if |deps| > 0 {
        dependencies := dependencies[n := SortStrings(deps)];
      }
      todo := todo - {n};
    }
    assert names - todo == names;
  }

  lemma LayerDeps(names: set<string>, dependencies: map<string, seq<string>>, n: string)
    ensures Depths.ImageGraph(names, dependencies).Deps(n) == if n in names && n in dependencies then Elems(dependencies[n]) else {}
    ensures Depths.ImageGraph(names, dependencies).Names() == names
  {
  }

  lemma ImageGraphNames(project: Project, g: Digraph, n: string)
    requires IsImageGraph(project, g)
    ensures g.nodes == project.Keys && g.Names() == project.Keys
    ensures n !in project ==> g.Deps(n) == {}
  {
    hide MergedEdges;
  }

  lemma SameDeps(project: Project, g: Digraph, h: Digraph, n: string)
    requires IsImageGraph(project, g) && IsImageGraph(project, h)
    ensures g.Deps(n) == h.Deps(n)
  {
    hide MergedEdges, Digraph.Deps;
    assert forall m :: m in g.Deps(n) <==> m in h.Deps(n);
  }

  /** The layering looks at the image graph, whatever order the dependency lists have. */
  lemma LayeredGraphIsImageGraph(project: Project, g: Digraph, h: Digraph, dependencies: map<string, seq<string>>)
    requires IsImageGraph(project, g) && AreLists(g, project.Keys, dependencies) && IsImageGraph(project, h)
    ensures SameEdges(Depths.ImageGraph(project.Keys, dependencies), h)
  {
    var l := Depths.ImageGraph(project.Keys, dependencies);
    ImageGraphNames(project, h, "");
    LayerDeps(project.Keys, dependencies, "");
    assert l.nodes == project.Keys;
    hide IsImageGraph, Depths.ImageGraph, Digraph.Deps, Digraph.Names;
    forall n ensures l.Deps(n) == h.Deps(n) {
      LayerDeps(project.Keys, dependencies, n);
      ImageGraphNames(project, h, n);
      SameDeps(project, g, h, n);
    }
  }

  /** Every image once, by depth and name; a build order of the image graph exactly where its
      topological sort succeeds, and otherwise with an image that cannot be built. */
  ghost predicate IsPipelineOrder(project: Project, images: seq<Depths.CIImage>) {
    && Depths.IsLayered(images) && NoDup(Depths.Names(images)) && Elems(Depths.Names(images)) == project.Keys
    && forall g :: IsImageGraph(project, g) ==> OrdersGraph(g, images)
  }

  ghost predicate OrdersGraph(g: Digraph, images: seq<Depths.CIImage>) {
    && HasDepths(g, images)
    && if |BuildOrder(g)| == |g.nodes| then IsBuildOrder(g, Depths.Names(images))
       else exists n, k :: Depths.CIImage(n, k) in images && Doomed(g, n)
  }

  /** The depth of an image that can be built is the length of its longest chain of dependencies. */
  ghost predicate HasDepths(g: Digraph, images: seq<Depths.CIImage>) {
    forall i :: 0 <= i < |images| && !Doomed(g, images[i].name) ==> Depths.LongestChain(g, images[i].name, images[i].depth)
  }

  lemma OrderedHasDepths(names: set<string>, dependencies: map<string, seq<string>>, images: seq<Depths.CIImage>)
    requires exists depths :: Depths.AreDepths(Depths.ImageGraph(names, dependencies), depths) && Depths.ListsAll(names, depths, images)
    ensures HasDepths(Depths.ImageGraph(names, dependencies), images)
  {
    var g := Depths.ImageGraph(names, dependencies);
    hide Depths.ImageGraph, Doomed, Depths.LongestChain;
    var depths :| Depths.AreDepths(g, depths) && Depths.ListsAll(names, depths, images);
    forall i | 0 <= i < |images| && !Doomed(g, images[i].name) ensures Depths.LongestChain(g, images[i].name, images[i].depth) {
      assert images[i] in images;
    }
  }

  lemma SameDepths(g: Digraph, h: Digraph, images: seq<Depths.CIImage>)
    requires SameEdges(g, h) && HasDepths(g, images)
    ensures HasDepths(h, images)
  {
    SamePaths(g, h);
    SameOrders(g, h);
    hide SameEdges, IsPath, Doomed;
  }

  method PipelineImages(project: Project) returns (r: Result<seq<Depths.CIImage>, GraphError>)
    ensures r.Success? <==> Accepted(project)
    ensures r.Failure? ==> Problem(project, r.error)
    ensures r.Success? ==> IsPipelineOrder(project, r.value)
  {
    hide Accepted, Problem, IsImageGraph, AreLists, Depths.ImageGraph, IsBuildOrder, Doomed, BuildOrder;
    var built := ScanAndBuild(project);
    if built.Failure? {
      return Failure(built.error);
    }
    var graph := built.value;
    var dependencies := DependencyLists(graph, project.Keys);
    var images := Depths.OrderImages(project.Keys, dependencies);
    assert HasDepths(Depths.ImageGraph(project.Keys, dependencies), images) by { OrderedHasDepths(project.Keys, dependencies, images); }
    forall h | IsImageGraph(project, h) ensures OrdersGraph(h, images) {
      LayeredGraphIsImageGraph(project, graph.View(), h, dependencies);
      SameOrders(Depths.ImageGraph(project.Keys, dependencies), h);
      SameDepths(Depths.ImageGraph(project.Keys, dependencies), h, images);
    }
    return Success(images);
  }
}

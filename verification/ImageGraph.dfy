/** The image-level dependency graph: the edges read from Dockerfiles and backend parents,
    merged with the declared ones. */
module ImageGraph {
  import opened Wrappers
  import opened Ordering
  import opened Digraphs
  import opened DependencyGraph
  import opened Project

  type Edge = (string, string)

  /** g has the edges of g0 and the edges e. */
  ghost predicate Added(g0: Digraph, g: Digraph, e: set<Edge>) {
    && g.edges.Keys <= g0.edges.Keys + Sources(e)
    && forall a, b :: b in g.Deps(a) <==> b in g0.Deps(a) || (a, b) in e
  }

  function Sources(e: set<Edge>): set<string> {
    set p | p in e :: p.0
  }

  lemma AddedNothing(g: Digraph)
    ensures Added(g, g, {})
  {
  }

  lemma AddedSameEdges(g0: Digraph, g1: Digraph, g2: Digraph, e: set<Edge>)
    requires Added(g0, g1, e) && g2.edges == g1.edges
    ensures Added(g0, g2, e)
  {
  }

  lemma AddedThen(g0: Digraph, g1: Digraph, g2: Digraph, d: set<Edge>, e: set<Edge>)
    requires Added(g0, g1, d) && Added(g1, g2, e)
    ensures Added(g0, g2, d + e)
  {
    assert Sources(d + e) == Sources(d) + Sources(e);
  }

  method AddEdge(graph: Graph, from: string, to: string)
    requires graph.Valid()
    modifies graph`edges
    ensures graph.Valid() && Added(old(graph.View()), graph.View(), {(from, to)})
  {
    graph.AddDependency(from, to);
    assert (from, to) in {(from, to)};
  }

  // ---------- edges of a whole project ----------

  function OverImages(f: (string, Image) -> set<Edge>, name: string, images: seq<Image>): set<Edge> {
    set i, e | 0 <= i < |images| && e in f(name, images[i]) :: e
  }

  /** All the edges f draws for the images of the given names. */
  function OverNames(f: (string, Image) -> set<Edge>, project: Project, names: set<string>): set<Edge> {
    set n, e | n in names && n in project && e in OverImages(f, n, project[n]) :: e
  }

  lemma OneMoreImage(f: (string, Image) -> set<Edge>, name: string, images: seq<Image>, i: nat)
    requires i < |images|
    ensures OverImages(f, name, images[..i+1]) == OverImages(f, name, images[..i]) + f(name, images[i])
  {
    var more := images[..i+1];
    assert more[i] == images[i];
    forall e ensures e in OverImages(f, name, more) <==> e in OverImages(f, name, images[..i]) + f(name, images[i]) {
      if e in OverImages(f, name, images[..i]) {
        var k :| 0 <= k < i && e in f(name, images[..i][k]);
        assert more[k] == images[..i][k];
      }
      if e in OverImages(f, name, more) {
        var k :| 0 <= k < |more| && e in f(name, more[k]);
        assert k < i ==> more[k] == images[..i][k];
      }
    }
  }

  lemma OneMoreName(f: (string, Image) -> set<Edge>, project: Project, names: set<string>, n: string)
    requires n in project
    ensures OverNames(f, project, names + {n}) == OverNames(f, project, names) + OverImages(f, n, project[n])
  {
  }

  // ---------- ScanProjectSource ----------

  function RefEdges(imageName: string, refs: seq<HiveRef>): set<Edge> {
    set r | r in refs && r.imageName != imageName :: (imageName, r.imageName)
  }

  function VariantEntryEdges(name: string, img: Image, among: set<string>): set<Edge> {
    set v, e | v in among && v in img.variants && e in RefEdges(name, Refs(img.variants[v].entryPoint)) :: e
  }

  /** The Dockerfiles of an image and of its variants make it depend on every other image they build from. */
  function ImageEntryEdges(name: string, img: Image): set<Edge> {
    RefEdges(name, Refs(img.entryPoint)) + VariantEntryEdges(name, img, img.variants.Keys)
  }

  /** The edge of a backend parent, drawn only to a known image other than the one it is set on. */
  function ParentEdges(nodes: set<string>, from: string, parent: string): set<Edge> {
    match ParseParent(parent)
    case None => {}
    case Some(ref) => if ref.imageName in nodes && ref.imageName != from then {(from, ref.imageName)} else {}
  }

  function AllParentEdges(nodes: set<string>, from: string, parents: set<string>): set<Edge> {
    set p, e | p in parents && e in ParentEdges(nodes, from, p) :: e
  }

  function ImageParentEdges(nodes: set<string>): (string, Image) -> set<Edge> {
    (name, img) => AllParentEdges(nodes, name, ParentRefs(img))
  }

  function ScannedEdges(project: Project): set<Edge> {
    OverNames(ImageEntryEdges, project, project.Keys) + OverNames(ImageParentEdges(project.Keys), project, project.Keys)
  }

  method ScanEntryPoint(graph: Graph, imageName: string, entryPoint: EntryPoint)
    requires graph.Valid()
    modifies graph`edges
    ensures graph.Valid() && Added(old(graph.View()), graph.View(), RefEdges(imageName, Refs(entryPoint)))
  {
    ghost var g0 := graph.View();
    AddedNothing(g0);
    if !entryPoint.Dockerfile? {
      return;
    }
    var refs := entryPoint.refs;
    for i := 0 to |refs|
      invariant graph.Valid() && Added(g0, graph.View(), RefEdges(imageName, refs[..i]))
    {
      PrefixStep(refs, i);
      if refs[i].imageName != imageName {
        ghost var g1 := graph.View();
        AddEdge(graph, imageName, refs[i].imageName);
        AddedThen(g0, g1, graph.View(), RefEdges(imageName, refs[..i]), {(imageName, refs[i].imageName)});
        assert RefEdges(imageName, refs[..i+1]) == RefEdges(imageName, refs[..i]) + {(imageName, refs[i].imageName)};
      } else {
        assert RefEdges(imageName, refs[..i+1]) == RefEdges(imageName, refs[..i]);
      }
    }
    assert refs[..|refs|] == refs;
  }

  method ScanImageEntryPoints(graph: Graph, name: string, img: Image)
    requires graph.Valid()
    modifies graph`edges
    ensures graph.Valid() && Added(old(graph.View()), graph.View(), ImageEntryEdges(name, img))
  {
    hide *;
    ghost var g0 := graph.View();
    ScanEntryPoint(graph, name, img.entryPoint);
    ghost var own := RefEdges(name, Refs(img.entryPoint));
    ghost var done: set<string> := {};
    var todo := img.variants.Keys;
    NoVariantEdges(name, img);
    assert own + VariantEntryEdges(name, img, done) == own;
    while todo != {}
      invariant todo <= img.variants.Keys && todo == img.variants.Keys - done && done <= img.variants.Keys
      invariant graph.Valid() && Added(g0, graph.View(), own + VariantEntryEdges(name, img, done))
      decreases todo
    {
      var v :| v in todo;
      ghost var g1 := graph.View();
      ScanEntryPoint(graph, name, img.variants[v].entryPoint);
      AddedThen(g0, g1, graph.View(), own + VariantEntryEdges(name, img, done), RefEdges(name, Refs(img.variants[v].entryPoint)));
      OneMoreVariant(name, img, done, v);
      assert own + VariantEntryEdges(name, img, done + {v})
          == own + VariantEntryEdges(name, img, done) + RefEdges(name, Refs(img.variants[v].entryPoint));
      todo, done := todo - {v}, done + {v};
    }
    assert done == img.variants.Keys;
    ImageEntryEdgesDef(name, img);
  }

  lemma NoVariantEdges(name: string, img: Image)
    ensures VariantEntryEdges(name, img, {}) == {}
  {
  }

  lemma OneMoreVariant(name: string, img: Image, done: set<string>, v: string)
    requires v in img.variants
    ensures VariantEntryEdges(name, img, done + {v})
         == VariantEntryEdges(name, img, done) + RefEdges(name, Refs(img.variants[v].entryPoint))
  {
  }

  lemma ImageEntryEdgesDef(name: string, img: Image)
    ensures ImageEntryEdges(name, img) == RefEdges(name, Refs(img.entryPoint)) + VariantEntryEdges(name, img, img.variants.Keys)
  {
  }

  method DependOnBackendParent(graph: Graph, from: string, parent: string)
    requires graph.Valid()
    modifies graph`edges
    ensures graph.Valid() && Added(old(graph.View()), graph.View(), ParentEdges(graph.nodes, from, parent))
  {
    AddedNothing(graph.View());
    match ParseParent(parent) {
      case None =>
      case Some(ref) =>
        if ref.imageName !in graph.nodes || ref.imageName == from {
          return;
        }
        AddEdge(graph, from, ref.imageName);
    }
  }

  method ScanImageParents(graph: Graph, name: string, img: Image)
    requires graph.Valid()
    modifies graph`edges
    ensures graph.Valid() && Added(old(graph.View()), graph.View(), AllParentEdges(graph.nodes, name, ParentRefs(img)))
  {
    ghost var g0 := graph.View();
    AddedNothing(g0);
    var parents := BackendParentRefs(img);
    for i := 0 to |parents|
      invariant graph.Valid()
      invariant Added(g0, graph.View(), AllParentEdges(graph.nodes, name, Elems(parents[..i])))
    {
      ghost var g1 := graph.View();
      DependOnBackendParent(graph, name, parents[i]);
      AddedThen(g0, g1, graph.View(), AllParentEdges(graph.nodes, name, Elems(parents[..i])), ParentEdges(graph.nodes, name, parents[i]));
      PrefixStep(parents, i);
    }
    assert parents[..|parents|] == parents;
  }

  method ScanEntries(graph: Graph, project: Project)
    requires graph.Valid()
    modifies graph`edges
    ensures graph.Valid()
    ensures Added(old(graph.View()), graph.View(), OverNames(ImageEntryEdges, project, project.Keys))
  {
    hide *;
    ghost var g0 := graph.View();
    AddedNothing(g0);
    var todo := project.Keys;
    ghost var done: set<string> := {};
    NoNames(ImageEntryEdges, project);
    while todo != {}
      invariant todo == project.Keys - done && done <= project.Keys
      invariant graph.Valid() && Added(g0, graph.View(), OverNames(ImageEntryEdges, project, done))
      decreases todo
    {
      var name :| name in todo;
      var images := project[name];
      NoImages(ImageEntryEdges, name, images);
      ghost var g1 := graph.View();
      AddedNothing(g1);
      for i := 0 to |images|
        invariant graph.Valid() && Added(g1, graph.View(), OverImages(ImageEntryEdges, name, images[..i]))
      {
        ghost var g2 := graph.View();
        ScanImageEntryPoints(graph, name, images[i]);
        AddedThen(g1, g2, graph.View(), OverImages(ImageEntryEdges, name, images[..i]), ImageEntryEdges(name, images[i]));
        OneMoreImage(ImageEntryEdges, name, images, i);
      }
      assert images[..|images|] == images;
      AddedThen(g0, g1, graph.View(), OverNames(ImageEntryEdges, project, done), OverImages(ImageEntryEdges, name, images));
      OneMoreName(ImageEntryEdges, project, done, name);
      todo, done := todo - {name}, done + {name};
    }
    assert done == project.Keys;
  }

  method ScanParents(graph: Graph, project: Project)
    requires graph.Valid()
    modifies graph`edges
    ensures graph.Valid()
    ensures Added(old(graph.View()), graph.View(), OverNames(ImageParentEdges(graph.nodes), project, project.Keys))
  {
    hide *;
    ghost var g0 := graph.View();
    ghost var f := ImageParentEdges(graph.nodes);
    AddedNothing(g0);
    var todo := project.Keys;
    ghost var done: set<string> := {};
    NoNames(f, project);
    while todo != {}
      invariant todo == project.Keys - done && done <= project.Keys
      invariant graph.Valid() && Added(g0, graph.View(), OverNames(f, project, done))
      decreases todo
    {
      var name :| name in todo;
      var images := project[name];
      NoImages(f, name, images);
      ghost var g1 := graph.View();
      AddedNothing(g1);
      for i := 0 to |images|
        invariant graph.Valid() && Added(g1, graph.View(), OverImages(f, name, images[..i]))
      {
        ghost var g2 := graph.View();
        ScanImageParents(graph, name, images[i]);
        ParentEdgesOf(graph.nodes, name, images[i]);
        AddedThen(g1, g2, graph.View(), OverImages(f, name, images[..i]), f(name, images[i]));
        OneMoreImage(f, name, images, i);
      }
      assert images[..|images|] == images;
      AddedThen(g0, g1, graph.View(), OverNames(f, project, done), OverImages(f, name, images));
      OneMoreName(f, project, done, name);
      todo, done := todo - {name}, done + {name};
    }
    assert done == project.Keys;
  }

  lemma NoNames(f: (string, Image) -> set<Edge>, project: Project)
    ensures OverNames(f, project, {}) == {}
  {
  }

  lemma NoImages(f: (string, Image) -> set<Edge>, name: string, images: seq<Image>)
    ensures OverImages(f, name, images[..0]) == {}
  {
  }

  lemma ParentEdgesOf(nodes: set<string>, name: string, img: Image)
    ensures ImageParentEdges(nodes)(name, img) == AllParentEdges(nodes, name, ParentRefs(img))
  {
  }

  method ScanProjectSource(project: Project) returns (graph: Graph)
    ensures fresh(graph) && graph.Valid()
    ensures graph.nodes == project.Keys
    ensures Added(Digraph(project.Keys, map[]), graph.View(), ScannedEdges(project))
  {
    graph := new Graph();
    var todo := project.Keys;
    while todo != {}
      invariant todo <= project.Keys && graph.Valid()
      invariant graph.nodes == project.Keys - todo && graph.edges == map[]
      decreases todo
    {
      var name :| name in todo;
      graph.AddImage(name);
      todo := todo - {name};
    }
    assert graph.nodes == project.Keys;
    ghost var g0 := graph.View();
    ScanEntries(graph, project);
    ghost var g1 := graph.View();
    ScanParents(graph, project);
    AddedThen(g0, g1, graph.View(), OverNames(ImageEntryEdges, project, project.Keys), OverNames(ImageParentEdges(project.Keys), project, project.Keys));
  }

  // ---------- BuildDependencyGraph ----------

  datatype GraphError =
    | UnknownDependency(image: string, dep: string)
    | MalformedParent(image: string, parent: string)
    | UnknownParent(image: string, parent: string)

  datatype ParentDecl = NoReference | Malformed | Reference(name: string)

  /** How addParentDependency reads a backend parent. */
  function DeclaredParent(parent: string): ParentDecl {
    if parent == "" || parent == HIVE_PARENT_PLACEHOLDER || !(HIVE_PREFIX <= parent) then NoReference
    else
      var rest := parent[|HIVE_PREFIX|..];
      var idx := LastColon(rest);
      var (name, tag) := if rest != "" && idx > -1 then (rest[..idx], rest[idx+1..]) else (parent, "");
      if name == "" || tag == "" then Malformed else Reference(name)
  }

  predicate BadDependency(project: Project, name: string, dep: string, e: GraphError) {
    dep !in project && e == UnknownDependency(name, dep)
  }

  predicate BadParent(project: Project, name: string, parent: string, e: GraphError) {
    match DeclaredParent(parent)
    case NoReference => false
    case Malformed => e == MalformedParent(name, parent)
    case Reference(n) => n !in project && e == UnknownParent(name, parent)
  }

  /** e names something wrong with this image. */
  ghost predicate ImageProblem(project: Project, name: string, img: Image, e: GraphError) {
    || (exists d :: d in img.dependsOn && BadDependency(project, name, d, e))
    || (exists p :: p in ParentRefs(img) && BadParent(project, name, p, e))
  }

  ghost predicate Problem(project: Project, e: GraphError) {
    exists n, i :: n in project && 0 <= i < |project[n]| && ImageProblem(project, n, project[n][i], e)
  }

  /** Every depends_on names an image, and every hive parent is well-formed and names one. */
  ghost predicate Accepted(project: Project) {
    forall e :: !Problem(project, e)
  }

  function DependsOnEdges(name: string, deps: seq<string>): set<Edge> {
    set d | d in deps :: (name, d)
  }

  function DeclaredParentEdges(name: string, parent: string): set<Edge> {
    var p := DeclaredParent(parent);
    if p.Reference? && p.name != name then {(name, p.name)} else {}
  }

  function AllDeclaredParentEdges(name: string, parents: set<string>): set<Edge> {
    set p, e | p in parents && e in DeclaredParentEdges(name, p) :: e
  }

  function ImageDeclaredEdges(name: string, img: Image): set<Edge> {
    DependsOnEdges(name, img.dependsOn) + AllDeclaredParentEdges(name, ParentRefs(img))
  }

  function DeclaredEdges(project: Project): set<Edge> {
    OverNames(ImageDeclaredEdges, project, project.Keys)
  }

  method AddParentDependency(graph: Graph, project: Project, from: string, parent: string) returns (r: Option<GraphError>)
    requires graph.Valid()
    modifies graph`edges
    ensures graph.Valid()
    ensures r.Some? ==> BadParent(project, from, parent, r.value)
    ensures r.None? ==> forall e :: !BadParent(project, from, parent, e)
    ensures r.None? ==> Added(old(graph.View()), graph.View(), DeclaredParentEdges(from, parent))
  {
    AddedNothing(graph.View());
    match DeclaredParent(parent) {
      case NoReference => return None;
      case Malformed => return Some(MalformedParent(from, parent));
      case Reference(name) =>
        if name !in project {
          return Some(UnknownParent(from, parent));
        }
        if name != from {
          AddEdge(graph, from, name);
        }
        return None;
    }
  }

  method AddDependsOn(graph: Graph, project: Project, name: string, deps: seq<string>) returns (r: Option<GraphError>)
    requires graph.Valid()
    modifies graph`edges
    ensures graph.Valid()
    ensures r.Some? ==> exists d :: d in deps && BadDependency(project, name, d, r.value)
    ensures r.None? ==> forall d, e :: d in deps ==> !BadDependency(project, name, d, e)
    ensures r.None? ==> Added(old(graph.View()), graph.View(), DependsOnEdges(name, deps))
  {
    ghost var g0 := graph.View();
    AddedNothing(g0);
    for i := 0 to |deps|
      invariant graph.Valid() && Added(g0, graph.View(), DependsOnEdges(name, deps[..i]))
      invariant forall d :: d in deps[..i] ==> d in project
    {
      PrefixStep(deps, i);
      if deps[i] !in project {
        assert BadDependency(project, name, deps[i], UnknownDependency(name, deps[i]));
        return Some(UnknownDependency(name, deps[i]));
      }
      ghost var g1 := graph.View();
      AddEdge(graph, name, deps[i]);
      AddedThen(g0, g1, graph.View(), DependsOnEdges(name, deps[..i]), {(name, deps[i])});
      assert DependsOnEdges(name, deps[..i+1]) == DependsOnEdges(name, deps[..i]) + {(name, deps[i])};
    }
    assert deps[..|deps|] == deps;
    return None;
  }

  method AddParents(graph: Graph, project: Project, name: string, img: Image) returns (r: Option<GraphError>)
    requires graph.Valid()
    modifies graph`edges
    ensures graph.Valid()
    ensures r.Some? ==> exists p :: p in ParentRefs(img) && BadParent(project, name, p, r.value)
    ensures r.None? ==> forall p, e :: p in ParentRefs(img) ==> !BadParent(project, name, p, e)
    ensures r.None? ==> Added(old(graph.View()), graph.View(), AllDeclaredParentEdges(name, ParentRefs(img)))
  {
    hide DeclaredParent, BadParent, DeclaredParentEdges, ParentRefs, Added;
    ghost var g0 := graph.View();
    AddedNothing(g0);
    var parents := BackendParentRefs(img);
    assert AllDeclaredParentEdges(name, Elems(parents[..0])) == {};
    for i := 0 to |parents|
      invariant graph.Valid()
      invariant Added(g0, graph.View(), AllDeclaredParentEdges(name, Elems(parents[..i])))
      invariant forall p, e :: p in parents[..i] ==> !BadParent(project, name, p, e)
    {
      ghost var g1 := graph.View();
      PrefixStep(parents, i);
      r := AddParentDependency(graph, project, name, parents[i]);
      if r.Some? {
        assert parents[i] in Elems(parents);
        return;
      }
      AddedThen(g0, g1, graph.View(), AllDeclaredParentEdges(name, Elems(parents[..i])), DeclaredParentEdges(name, parents[i]));
      OneMoreDeclaredParent(name, Elems(parents[..i]), parents[i]);
    }
    assert parents[..|parents|] == parents;
    return None;
  }

  lemma OneMoreDeclaredParent(name: string, done: set<string>, p: string)
    ensures AllDeclaredParentEdges(name, done + {p}) == AllDeclaredParentEdges(name, done) + DeclaredParentEdges(name, p)
  {
  }

  /** The loop body for one image definition. */
  method AddDeclared(graph: Graph, project: Project, name: string, img: Image) returns (r: Option<GraphError>)
    requires graph.Valid()
    modifies graph`edges
    ensures graph.Valid()
    ensures r.Some? ==> ImageProblem(project, name, img, r.value)
    ensures r.None? ==> forall e :: !ImageProblem(project, name, img, e)
    ensures r.None? ==> Added(old(graph.View()), graph.View(), ImageDeclaredEdges(name, img))
  {
    hide BadDependency, BadParent, DeclaredParentEdges, DependsOnEdges, ParentRefs, Added, AllDeclaredParentEdges;
    ghost var g0 := graph.View();
    r := AddDependsOn(graph, project, name, img.dependsOn);
    if r.Some? {
      return;
    }
    ghost var g1 := graph.View();
    r := AddParents(graph, project, name, img);
    if r.None? {
      AddedThen(g0, g1, graph.View(), DependsOnEdges(name, img.dependsOn), AllDeclaredParentEdges(name, ParentRefs(img)));
    }
  }

  ghost predicate CleanImages(project: Project, name: string, images: seq<Image>) {
    forall i, e :: 0 <= i < |images| ==> !ImageProblem(project, name, images[i], e)
  }

  ghost predicate CleanNames(project: Project, names: set<string>) {
    forall n :: n in names && n in project ==> CleanImages(project, n, project[n])
  }

  lemma CleanIsAccepted(project: Project)
    ensures CleanNames(project, project.Keys) <==> Accepted(project)
  {
    if Accepted(project) {
      forall n, i, e | n in project && 0 <= i < |project[n]| ensures !ImageProblem(project, n, project[n][i], e) {
        assert !Problem(project, e);
      }
    }
  }

  lemma OneMoreClean(project: Project, name: string, images: seq<Image>, i: nat)
    requires i < |images| && CleanImages(project, name, images[..i])
    requires forall e :: !ImageProblem(project, name, images[i], e)
    ensures CleanImages(project, name, images[..i+1])
  {
    hide ImageProblem;
    assert images[..i+1] == images[..i] + [images[i]];
  }

  lemma OneMoreCleanName(project: Project, names: set<string>, n: string)
    requires CleanNames(project, names) && n in project && CleanImages(project, n, project[n])
    ensures CleanNames(project, names + {n})
  {
  }

  lemma NothingClean(project: Project, name: string, images: seq<Image>)
    ensures CleanNames(project, {}) && CleanImages(project, name, images[..0])
  {
  }

  lemma ProblemAt(project: Project, name: string, i: nat, e: GraphError)
    requires name in project && i < |project[name]| && ImageProblem(project, name, project[name][i], e)
    ensures Problem(project, e) && !Accepted(project)
  {
  }

  /** Adds the dependency list of one node. */
  method AddRow(graph: Graph, from: string, deps: seq<string>)
    requires graph.Valid()
    modifies graph`edges
    ensures graph.Valid() && Added(old(graph.View()), graph.View(), DependsOnEdges(from, deps))
  {
    ghost var g0 := graph.View();
    AddedNothing(g0);
    for i := 0 to |deps|
      invariant graph.Valid() && Added(g0, graph.View(), DependsOnEdges(from, deps[..i]))
    {
      PrefixStep(deps, i);
      ghost var g1 := graph.View();
      AddEdge(graph, from, deps[i]);
      AddedThen(g0, g1, graph.View(), DependsOnEdges(from, deps[..i]), {(from, deps[i])});
      assert DependsOnEdges(from, deps[..i+1]) == DependsOnEdges(from, deps[..i]) + {(from, deps[i])};
    }
    assert deps[..|deps|] == deps;
  }

  function EdgesFrom(edges: map<string, seq<string>>, sources: set<string>): set<Edge> {
    set f, e | f in sources && f in edges && e in DependsOnEdges(f, edges[f]) :: e
  }

  /** A fresh graph with the nodes and edges of another. */
  method CopyGraph(scanned: Graph) returns (graph: Graph)
    requires scanned.Valid()
    ensures fresh(graph) && graph.Valid() && graph.nodes == scanned.nodes
    ensures Added(scanned.View(), graph.View(), {})
  {
    graph := new Graph();
    var todo := scanned.nodes;
    while todo != {}
      invariant todo <= scanned.nodes && graph.Valid()
      invariant graph.nodes == scanned.nodes - todo && graph.edges == map[]
      decreases todo
    {
      var node :| node in todo;
      graph.AddImage(node);
      todo := todo - {node};
    }
    assert graph.nodes == scanned.nodes;
    CopyEdges(scanned, graph);
    CopiedAll(scanned.View(), graph.View());
  }

  method CopyEdges(scanned: Graph, graph: Graph)
    requires scanned.Valid() && graph.Valid() && graph != scanned && graph.edges == map[]
    modifies graph`edges
    ensures graph.Valid() && Added(Digraph({}, map[]), graph.View(), EdgesFrom(scanned.edges, scanned.edges.Keys))
  {
    hide *;
    ghost var empty := Digraph({}, map[]);
    var edges := scanned.edges;
    ghost var done: set<string> := {};
    var todo := edges.Keys;
    NoEdges(graph.View(), edges) by { assert graph.View().edges == map[] by { ViewEdges(graph); } }
    while todo != {}
      invariant todo == edges.Keys - done && done <= edges.Keys
      invariant graph.Valid() && Added(empty, graph.View(), EdgesFrom(edges, done))
      decreases todo
    {
      var from :| from in todo;
      ghost var g1 := graph.View();
      AddRow(graph, from, edges[from]);
      AddedThen(empty, g1, graph.View(), EdgesFrom(edges, done), DependsOnEdges(from, edges[from]));
      OneMoreRow(edges, done, from);
      todo, done := todo - {from}, done + {from};
    }
    assert done == edges.Keys;
  }

  lemma ViewEdges(graph: Graph)
    ensures graph.View().edges == graph.edges
  {
  }

  lemma NoEdges(g: Digraph, edges: map<string, seq<string>>)
    requires g.edges == map[]
    ensures Added(Digraph({}, map[]), g, EdgesFrom(edges, {}))
  {
  }

  lemma OneMoreRow(edges: map<string, seq<string>>, done: set<string>, from: string)
    requires from in edges
    ensures EdgesFrom(edges, done + {from}) == EdgesFrom(edges, done) + DependsOnEdges(from, edges[from])
  {
  }

  lemma CopiedAll(g0: Digraph, g: Digraph)
    requires Added(Digraph({}, map[]), g, EdgesFrom(g0.edges, g0.edges.Keys))
    ensures Added(g0, g, {})
  {
    forall a, b ensures b in g0.Deps(a) <==> (a, b) in EdgesFrom(g0.edges, g0.edges.Keys) {
      if b in g0.Deps(a) {
        assert (a, b) in DependsOnEdges(a, g0.edges[a]);
      }
    }
  }

  /** The merged graph, or some problem of the project. */
  method BuildDependencyGraph(scanned: Graph, project: Project) returns (r: Result<Graph, GraphError>)
    requires scanned.Valid()
    ensures r.Success? <==> Accepted(project)
    ensures r.Failure? ==> Problem(project, r.error)
    ensures r.Success? ==>
      && fresh(r.value) && r.value.Valid()
      && r.value.nodes == scanned.nodes + project.Keys
      && Added(scanned.View(), r.value.View(), DeclaredEdges(project))
  {
    hide *;
    var graph := CopyGraph(scanned);
    ghost var g0 := scanned.View();
    var todo := project.Keys;
    ghost var done: set<string> := {};
    NoNames(ImageDeclaredEdges, project);
    NothingClean(project, "", []);
    while todo != {}
      invariant todo == project.Keys - done && done <= project.Keys
      invariant fresh(graph) && graph.Valid() && graph.nodes == scanned.nodes + done
      invariant Added(g0, graph.View(), OverNames(ImageDeclaredEdges, project, done))
      invariant CleanNames(project, done)
      decreases todo
    {
      var name :| name in todo;
      var images := project[name];
      ghost var g1 := graph.View();
      ViewEdges(graph);
      graph.AddImage(name);
      ghost var g2 := graph.View();
      ViewEdges(graph);
      AddedSameEdges(g0, g1, g2, OverNames(ImageDeclaredEdges, project, done));
      NoImages(ImageDeclaredEdges, name, images);
      NothingClean(project, name, images);
      AddedNothing(g2);
      for i := 0 to |images|
        invariant fresh(graph) && graph.Valid() && graph.nodes == scanned.nodes + done + {name}
        invariant Added(g2, graph.View(), OverImages(ImageDeclaredEdges, name, images[..i]))
        invariant CleanImages(project, name, images[..i])
      {
        ghost var g3 := graph.View();
        var e := AddDeclared(graph, project, name, images[i]);
        if e.Some? {
          ProblemAt(project, name, i, e.value);
          return Failure(e.value);
        }
        AddedThen(g2, g3, graph.View(), OverImages(ImageDeclaredEdges, name, images[..i]), ImageDeclaredEdges(name, images[i]));
        OneMoreImage(ImageDeclaredEdges, name, images, i);
        OneMoreClean(project, name, images, i);
      }
      assert images[..|images|] == images;
      AddedThen(g0, g2, graph.View(), OverNames(ImageDeclaredEdges, project, done), OverImages(ImageDeclaredEdges, name, images));
      OneMoreName(ImageDeclaredEdges, project, done, name);
      OneMoreCleanName(project, done, name);
      todo, done := todo - {name}, done + {name};
    }
    assert done == project.Keys;
    CleanIsAccepted(project);
    DeclaredEdgesDef(project);
    return Success(graph);
  }

  lemma DeclaredEdgesDef(project: Project)
    ensures DeclaredEdges(project) == OverNames(ImageDeclaredEdges, project, project.Keys)
  {
  }

  // ---------- both steps together ----------

  function MergedEdges(project: Project): set<Edge> {
    ScannedEdges(project) + DeclaredEdges(project)
  }

  /** The image graph of an accepted project: its images, and exactly the scanned and declared edges. */
  ghost predicate IsImageGraph(project: Project, g: Digraph) {
    && g.nodes == project.Keys
    && g.edges.Keys <= project.Keys
    && forall a, b :: b in g.Deps(a) <==> (a, b) in MergedEdges(project)
  }

  /** The scan followed by the merge, as the callers run them. */
  method ScanAndBuild(project: Project) returns (r: Result<Graph, GraphError>)
    ensures r.Success? <==> Accepted(project)
    ensures r.Failure? ==> Problem(project, r.error)
    ensures r.Success? ==> fresh(r.value) && r.value.Valid() && IsImageGraph(project, r.value.View())
  {
    hide ScannedEdges, DeclaredEdges, Accepted, Problem;
    var scanned := ScanProjectSource(project);
    r := BuildDependencyGraph(scanned, project);
    if r.Success? {
      var empty := Digraph(project.Keys, map[]);
      AddedThen(empty, scanned.View(), r.value.View(), ScannedEdges(project), DeclaredEdges(project));
      MergedSources(project);
    }
  }

  lemma MergedSources(project: Project)
    ensures Sources(MergedEdges(project)) <= project.Keys
  {
    hide ImageEntryEdges, ImageDeclaredEdges, ImageParentEdges;
    forall e | e in MergedEdges(project) ensures e.0 in project {
      SourceIsOwner(project, e);
    }
  }

  lemma SourceIsOwner(project: Project, e: Edge)
    requires e in MergedEdges(project)
    ensures e.0 in project
  {
    hide ImageEntryEdges, ImageParentEdges, ImageDeclaredEdges, OverNames, OverImages;
    if e in OverNames(ImageEntryEdges, project, project.Keys) {
      forall n, img, x | x in ImageEntryEdges(n, img) ensures x.0 == n { EntryStartsAt(n, img, x); }
      SourceAmong(ImageEntryEdges, project, e);
    } else if e in OverNames(ImageParentEdges(project.Keys), project, project.Keys) {
      forall n, img, x | x in ImageParentEdges(project.Keys)(n, img) ensures x.0 == n { ParentStartsAt(project.Keys, n, img, x); }
      SourceAmong(ImageParentEdges(project.Keys), project, e);
    } else {
      forall n, img, x | x in ImageDeclaredEdges(n, img) ensures x.0 == n { DeclaredStartsAt(n, img, x); }
      SourceAmong(ImageDeclaredEdges, project, e);
    }
  }

  lemma EntryStartsAt(n: string, img: Image, x: Edge)
    requires x in ImageEntryEdges(n, img)
    ensures x.0 == n
  {
    hide Refs;
  }

  lemma ParentStartsAt(nodes: set<string>, n: string, img: Image, x: Edge)
    requires x in ImageParentEdges(nodes)(n, img)
    ensures x.0 == n
  {
    hide ParentRefs, ParseParent;
  }

  lemma DeclaredStartsAt(n: string, img: Image, x: Edge)
    requires x in ImageDeclaredEdges(n, img)
    ensures x.0 == n
  {
    hide ParentRefs, DeclaredParent;
  }

  lemma SourceAmong(f: (string, Image) -> set<Edge>, project: Project, e: Edge)
    requires e in OverNames(f, project, project.Keys)
    requires forall n, img, x :: x in f(n, img) ==> x.0 == n
    ensures e.0 in project
  {
    var n :| n in project && e in OverImages(f, n, project[n]);
  }
}

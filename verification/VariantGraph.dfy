/** The dependency graph on image and variant level, and why it refines the image graph. */
module VariantGraph {
  import opened Ordering
  import opened Digraphs
  import opened DependencyGraph
  import opened Project
  import opened ImageGraph

  // ---------- what a project asks for ----------

  /** A request of one node: the image some tag is built by, or a node given by name. */
  datatype Demand = OnTag(image: string, tag: string) | OnNode(name: string)

  /** node belongs to image, and makes the demand. */
  datatype Claim = Claim(image: string, node: string, demand: Demand)

  function NodeIDs(name: string, images: seq<Image>): set<string> {
    {name} + set i, v | 0 <= i < |images| && v in images[i].variants :: VariantNodeID(name, v)
  }

  function AllNodes(project: Project): set<string> {
    set n, u | n in project && u in NodeIDs(n, project[n]) :: u
  }

  // ---------- resolveVariantTarget ----------

  /** The tag suffix selects this variant. */
  predicate Selects(images: seq<Image>, tag: string, i: int, v: string) {
    && 0 <= i < |images| && v in images[i].variants
    && images[i].variants[v].tagSuffix != ""
    && HasSuffix(tag, images[i].variants[v].tagSuffix)
  }

  /** target is the base image when no variant is selected, and otherwise a selected variant with
      the longest suffix. */
  ghost predicate IsTarget(imageName: string, images: seq<Image>, tag: string, target: string) {
    if forall i, v :: !Selects(images, tag, i, v) then target == imageName
    else exists i, v :: SelectsLongest(images, tag, i, v) && target == VariantNodeID(imageName, v)
  }

  ghost predicate SelectsLongest(images: seq<Image>, tag: string, i: int, v: string) {
    && Selects(images, tag, i, v)
    && forall j, w :: Selects(images, tag, j, w) ==> |images[j].variants[w].tagSuffix| <= |images[i].variants[v].tagSuffix|
  }

  /** What the search has found among the variants seen so far. */
  ghost predicate BestSoFar(imageName: string, images: seq<Image>, tag: string, seen: set<(int, string)>, target: string, longest: nat) {
    && (forall i, v :: (i, v) in seen && Selects(images, tag, i, v) ==> |images[i].variants[v].tagSuffix| <= longest)
    && (if longest == 0 then target == imageName
        else exists i, v :: Selects(images, tag, i, v) && target == VariantNodeID(imageName, v) && longest == |images[i].variants[v].tagSuffix|)
  }

  method ResolveVariantTarget(imageName: string, images: seq<Image>, tag: string) returns (target: string)
    ensures IsTarget(imageName, images, tag, target)
    ensures target in NodeIDs(imageName, images)
  {
    var longest: nat := 0;
    target := imageName;
    ghost var seen: set<(int, string)> := {};
    for i := 0 to |images|
      invariant forall j, v :: 0 <= j < i && v in images[j].variants ==> (j, v) in seen
      invariant BestSoFar(imageName, images, tag, seen, target, longest)
    {
      var variants := images[i].variants;
      var todo := variants.Keys;
      while todo != {}
        invariant todo <= variants.Keys
        invariant forall j, v :: 0 <= j < i && v in images[j].variants ==> (j, v) in seen
        invariant forall v :: v in variants && v !in todo ==> (i, v) in seen
        invariant BestSoFar(imageName, images, tag, seen, target, longest)
        decreases todo
      {
        var v :| v in todo;
        var suffix := variants[v].tagSuffix;
        todo := todo - {v};
        seen := seen + {(i, v)};
        if |suffix| <= longest || !HasSuffix(tag, suffix) {
          continue;
        }
        assert Selects(images, tag, i, v);
        target, longest := VariantNodeID(imageName, v), |suffix|;
      }
    }
    BestIsTarget(imageName, images, tag, seen, target, longest);
  }

  lemma BestIsTarget(imageName: string, images: seq<Image>, tag: string, seen: set<(int, string)>, target: string, longest: nat)
    requires BestSoFar(imageName, images, tag, seen, target, longest)
    requires forall i, v :: 0 <= i < |images| && v in images[i].variants ==> (i, v) in seen
    ensures IsTarget(imageName, images, tag, target)
    ensures target in NodeIDs(imageName, images)
  {
    forall i, v | Selects(images, tag, i, v) ensures 0 < |images[i].variants[v].tagSuffix| <= longest {
      assert (i, v) in seen;
    }
    if longest > 0 {
      var i, v :| Selects(images, tag, i, v) && target == VariantNodeID(imageName, v) && longest == |images[i].variants[v].tagSuffix|;
      assert SelectsLongest(images, tag, i, v);
    }
  }

  ghost predicate SameSuffix(images: seq<Image>, i: int, v: string, j: int, w: string) {
    && 0 <= i < |images| && v in images[i].variants
    && 0 <= j < |images| && w in images[j].variants
    && images[i].variants[v].tagSuffix == images[j].variants[w].tagSuffix != ""
  }

  /** Whatever the tag and the map order, there is one target. */
  ghost predicate TargetsAreUnique(imageName: string, images: seq<Image>) {
    forall tag, s, t :: IsTarget(imageName, images, tag, s) && IsTarget(imageName, images, tag, t) ==> s == t
  }

  /** Only a suffix that variants of different names share leaves the choice of target to the map order. */
  lemma TargetUniqueIff(imageName: string, images: seq<Image>)
    ensures TargetsAreUnique(imageName, images) <==> forall i, v, j, w :: SameSuffix(images, i, v, j, w) ==> v == w
  {
    if forall i, v, j, w :: SameSuffix(images, i, v, j, w) ==> v == w {
      forall tag, s, t | IsTarget(imageName, images, tag, s) && IsTarget(imageName, images, tag, t) ensures s == t {
        TargetUnique(imageName, images, tag, s, t);
      }
    } else {
      var i, v, j, w :| SameSuffix(images, i, v, j, w) && v != w;
      SharedSuffixTargets(imageName, images, i, v, j, w);
      var s, t := VariantNodeID(imageName, v), VariantNodeID(imageName, w);
      assert s[|imageName| + 1..] == v && t[|imageName| + 1..] == w;
    }
  }

  /** The shared suffix as a tag can be answered by either variant. */
  lemma SharedSuffixTargets(imageName: string, images: seq<Image>, i: int, v: string, j: int, w: string)
    requires SameSuffix(images, i, v, j, w)
    ensures var tag := images[i].variants[v].tagSuffix;
      IsTarget(imageName, images, tag, VariantNodeID(imageName, v)) && IsTarget(imageName, images, tag, VariantNodeID(imageName, w))
  {
    var tag := images[i].variants[v].tagSuffix;
    assert tag[0..] == tag;
    assert Selects(images, tag, i, v) && Selects(images, tag, j, w);
    assert SelectsLongest(images, tag, i, v) && SelectsLongest(images, tag, j, w);
  }

  lemma TargetUnique(imageName: string, images: seq<Image>, tag: string, s: string, t: string)
    requires IsTarget(imageName, images, tag, s) && IsTarget(imageName, images, tag, t)
    requires forall i, v, j, w :: SameSuffix(images, i, v, j, w) ==> v == w
    ensures s == t
  {
    if i, v :| Selects(images, tag, i, v) {
      var a, x :| SelectsLongest(images, tag, a, x) && s == VariantNodeID(imageName, x);
      var b, y :| SelectsLongest(images, tag, b, y) && t == VariantNodeID(imageName, y);
      EquallyLong(images, tag, a, x, b, y);
    }
  }

  lemma EquallyLong(images: seq<Image>, tag: string, i: int, v: string, j: int, w: string)
    requires SelectsLongest(images, tag, i, v) && SelectsLongest(images, tag, j, w)
    ensures SameSuffix(images, i, v, j, w)
  {
    assert Selects(images, tag, i, v) && Selects(images, tag, j, w);
  }

  // ---------- demands ----------

  function RefDemands(refs: seq<HiveRef>): set<Demand> {
    set r | r in refs :: OnTag(r.imageName, r.tag)
  }

  function ParentDemands(parent: string): set<Demand> {
    match ParseParent(parent)
    case None => {}
    case Some(ref) => {OnTag(ref.imageName, ref.tag)}
  }

  /** baseNode is the base image of a variant node, and empty for a base image. */
  function BaseDemands(baseNode: string, entryPoint: EntryPoint, parent: string): set<Demand> {
    if baseNode != "" && ((entryPoint.Dockerfile? && entryPoint.usesHiveParent) || parent == HIVE_PARENT_PLACEHOLDER)
    then {OnNode(baseNode)} else {}
  }

  function NodeDemands(baseNode: string, entryPoint: EntryPoint, parent: string): set<Demand> {
    RefDemands(Refs(entryPoint)) + BaseDemands(baseNode, entryPoint, parent) + ParentDemands(parent)
  }

  function DependsOnDemands(deps: seq<string>): set<Demand> {
    set d | d in deps :: OnNode(d)
  }

  function Claims(image: string, node: string, demands: set<Demand>): set<Claim> {
    set d | d in demands :: Claim(image, node, d)
  }

  function BaseClaims(name: string, img: Image): set<Claim> {
    Claims(name, name, NodeDemands("", img.entryPoint, ImageParentRef(img)) + DependsOnDemands(img.dependsOn))
  }

  function VariantClaims(name: string, img: Image, v: string): set<Claim>
    requires v in img.variants
  {
    Claims(name, VariantNodeID(name, v),
           NodeDemands(name, img.variants[v].entryPoint, VariantParentRef(img, img.variants[v])) + DependsOnDemands(img.dependsOn))
  }

  function VariantsClaims(name: string, img: Image, among: set<string>): set<Claim> {
    set v, c | v in among && v in img.variants && c in VariantClaims(name, img, v) :: c
  }

  function ImageClaims(name: string, img: Image): set<Claim> {
    BaseClaims(name, img) + VariantsClaims(name, img, img.variants.Keys)
  }

  function ImagesClaims(name: string, images: seq<Image>): set<Claim> {
    set i, c | 0 <= i < |images| && c in ImageClaims(name, images[i]) :: c
  }

  function ProjectClaims(project: Project, names: set<string>): set<Claim> {
    set n, c | n in names && n in project && c in ImagesClaims(n, project[n]) :: c
  }

  // ---------- what the graph answers ----------

  /** to is a node the claim can be met by. A reference to the image itself or to an unknown image is skipped. */
  ghost predicate Answers(project: Project, c: Claim, to: string) {
    match c.demand
    case OnNode(name) => to == name
    case OnTag(t, tag) => t != c.image && t in project && IsTarget(t, project[t], tag, to)
  }

  /** If anything can meet the claim, then the node depends on something that does; nodes that
      do not exist, and the node itself, are skipped. */
  ghost predicate Met(project: Project, g: Digraph, c: Claim) {
    (exists to :: Answers(project, c, to)) ==>
      exists to :: Answers(project, c, to) && (to in g.Deps(c.node) || to == c.node || to !in g.nodes)
  }

  ghost predicate Justified(project: Project, g: Digraph, claims: set<Claim>, from: string, to: string) {
    from != to && to in g.nodes && exists c :: c in claims && c.node == from && Answers(project, c, to)
  }

  /** g is g0 after the claims: all of them are met, and nothing else was added. */
  ghost predicate Serves(project: Project, g0: Digraph, g: Digraph, claims: set<Claim>) {
    && g.nodes == g0.nodes
    && (forall a :: a in g.edges ==> a in g0.edges || exists c :: c in claims && c.node == a)
    && (forall a, b :: b in g0.Deps(a) ==> b in g.Deps(a))
    && (forall a, b :: b in g.Deps(a) && b !in g0.Deps(a) ==> Justified(project, g, claims, a, b))
    && (forall c :: c in claims ==> Met(project, g, c))
  }

  lemma ServesNothing(project: Project, g: Digraph)
    ensures Serves(project, g, g, {})
  {
  }

  lemma StillMet(project: Project, g0: Digraph, g: Digraph, c: Claim)
    requires Met(project, g0, c) && g.nodes == g0.nodes
    requires forall b :: b in g0.Deps(c.node) ==> b in g.Deps(c.node)
    ensures Met(project, g, c)
  {
  }

  lemma StillJustified(project: Project, g0: Digraph, g: Digraph, c: set<Claim>, d: set<Claim>, from: string, to: string)
    requires Justified(project, g0, c, from, to) && g.nodes == g0.nodes && c <= d
    ensures Justified(project, g, d, from, to)
  {
  }

  lemma ServesThen(project: Project, g0: Digraph, g1: Digraph, g2: Digraph, c: set<Claim>, d: set<Claim>)
    requires Serves(project, g0, g1, c) && Serves(project, g1, g2, d)
    ensures Serves(project, g0, g2, c + d)
  {
    hide Met, Justified, Answers;
    forall x | x in c ensures Met(project, g2, x) {
      StillMet(project, g1, g2, x);
    }
    forall a, b | b in g2.Deps(a) && b !in g0.Deps(a) ensures Justified(project, g2, c + d, a, b) {
      if b in g1.Deps(a) {
        StillJustified(project, g1, g2, c, c + d, a, b);
      } else {
        StillJustified(project, g2, g2, d, c + d, a, b);
      }
    }
  }

  // ---------- the scan ----------

  method AddVariantEdge(graph: Graph, from: string, to: string)
    requires graph.Valid()
    modifies graph`edges
    ensures graph.Valid()
    ensures graph.edges.Keys <= old(graph.edges).Keys + {from}
    ensures forall a, b :: b in graph.View().Deps(a) <==>
      (b in old(graph.View()).Deps(a) || (a == from && b == to && from != to && to in graph.nodes))
  {
    if from == to || to !in graph.nodes {
      return;
    }
    graph.AddDependency(from, to);
  }

  /** An edge to an answer serves the claim; no edge is drawn to the node itself or an unknown node. */
  lemma EdgeServes(project: Project, g0: Digraph, g: Digraph, c: Claim, to: string)
    requires g.nodes == g0.nodes && g.edges.Keys <= g0.edges.Keys + {c.node} && Answers(project, c, to)
    requires forall a, b :: b in g.Deps(a) <==> (b in g0.Deps(a) || (a == c.node && b == to && c.node != to && to in g.nodes))
    ensures Serves(project, g0, g, {c})
  {
    hide Answers, Digraph.Deps;
    assert Met(project, g, c);
    forall a, b | b in g.Deps(a) && b !in g0.Deps(a) ensures Justified(project, g, {c}, a, b) {
      assert c in {c};
    }
  }

  lemma NothingAnswers(project: Project, g: Digraph, c: Claim)
    requires forall to :: !Answers(project, c, to)
    ensures Serves(project, g, g, {c})
  {
    hide Answers;
    assert Met(project, g, c);
  }

  method AddTaggedEdge(graph: Graph, project: Project, imageName: string, node: string, targetImage: string, tag: string)
    requires graph.Valid()
    modifies graph`edges
    ensures graph.Valid()
    ensures Serves(project, old(graph.View()), graph.View(), {Claim(imageName, node, OnTag(targetImage, tag))})
  {
    hide Serves, IsTarget, Digraph.Deps;
    ghost var c := Claim(imageName, node, OnTag(targetImage, tag));
    if targetImage == imageName || targetImage !in project {
      NothingAnswers(project, graph.View(), c);
      return;
    }
    var target := ResolveVariantTarget(targetImage, project[targetImage], tag);
    ghost var g0 := graph.View();
    AddVariantEdge(graph, node, target);
    EdgeServes(project, g0, graph.View(), c, target);
  }

  method AddNodeEdge(graph: Graph, project: Project, imageName: string, node: string, to: string)
    requires graph.Valid()
    modifies graph`edges
    ensures graph.Valid()
    ensures Serves(project, old(graph.View()), graph.View(), {Claim(imageName, node, OnNode(to))})
  {
    hide Serves, Digraph.Deps;
    ghost var g0 := graph.View();
    AddVariantEdge(graph, node, to);
    EdgeServes(project, g0, graph.View(), Claim(imageName, node, OnNode(to)), to);
  }

  lemma MoreClaims(image: string, node: string, done: set<Demand>, d: Demand)
    ensures Claims(image, node, done + {d}) == Claims(image, node, done) + {Claim(image, node, d)}
    ensures Claims(image, node, {}) == {}
  {
  }

  lemma JoinClaims(image: string, node: string, a: set<Demand>, b: set<Demand>)
    ensures Claims(image, node, a + b) == Claims(image, node, a) + Claims(image, node, b)
  {
  }

  method ScanRefs(graph: Graph, project: Project, imageName: string, node: string, refs: seq<HiveRef>)
    requires graph.Valid()
    modifies graph`edges
    ensures graph.Valid()
    ensures Serves(project, old(graph.View()), graph.View(), Claims(imageName, node, RefDemands(refs)))
  {
    hide Serves;
    ghost var g0 := graph.View();
    ServesNothing(project, g0);
    MoreClaims(imageName, node, {}, OnNode(""));
    assert RefDemands(refs[..0]) == {};
    for i := 0 to |refs|
      invariant graph.Valid()
      invariant Serves(project, g0, graph.View(), Claims(imageName, node, RefDemands(refs[..i])))
    {
      PrefixStep(refs, i);
      ghost var g1 := graph.View();
      ghost var d := OnTag(refs[i].imageName, refs[i].tag);
      AddTaggedEdge(graph, project, imageName, node, refs[i].imageName, refs[i].tag);
      ServesThen(project, g0, g1, graph.View(), Claims(imageName, node, RefDemands(refs[..i])), {Claim(imageName, node, d)});
      MoreClaims(imageName, node, RefDemands(refs[..i]), d);
      assert RefDemands(refs[..i+1]) == RefDemands(refs[..i]) + {d};
    }
    assert refs[..|refs|] == refs;
  }

  method ScanVariantNode(graph: Graph, project: Project, imageName: string, node: string, baseNode: string,
                         entryPoint: EntryPoint, parent: string)
    requires graph.Valid()
    modifies graph`edges
    ensures graph.Valid()
    ensures Serves(project, old(graph.View()), graph.View(), Claims(imageName, node, NodeDemands(baseNode, entryPoint, parent)))
  {
    hide Serves;
    ghost var g0 := graph.View();
    ServesNothing(project, g0);
    ScanRefs(graph, project, imageName, node, Refs(entryPoint));
    ghost var served := RefDemands(Refs(entryPoint));
    MoreClaims(imageName, node, served, OnNode(baseNode));

    if baseNode != "" && entryPoint.Dockerfile? && entryPoint.usesHiveParent {
      ghost var g1 := graph.View();
      AddNodeEdge(graph, project, imageName, node, baseNode);
      ServesThen(project, g0, g1, graph.View(), Claims(imageName, node, served), {Claim(imageName, node, OnNode(baseNode))});
      served := served + {OnNode(baseNode)};
    }
    MoreClaims(imageName, node, served, OnNode(baseNode));

    if baseNode != "" && parent == HIVE_PARENT_PLACEHOLDER {
      ghost var g1 := graph.View();
      AddNodeEdge(graph, project, imageName, node, baseNode);
      ServesThen(project, g0, g1, graph.View(), Claims(imageName, node, served), {Claim(imageName, node, OnNode(baseNode))});
      served := served + {OnNode(baseNode)};
    }
    assert served == RefDemands(Refs(entryPoint)) + BaseDemands(baseNode, entryPoint, parent);

    match ParseParent(parent) {
      case None =>
        assert served == NodeDemands(baseNode, entryPoint, parent);
      case Some(ref) =>
        ghost var g1 := graph.View();
        ghost var d := OnTag(ref.imageName, ref.tag);
        MoreClaims(imageName, node, served, d);
        AddTaggedEdge(graph, project, imageName, node, ref.imageName, ref.tag);
        ServesThen(project, g0, g1, graph.View(), Claims(imageName, node, served), {Claim(imageName, node, d)});
        assert served + {d} == NodeDemands(baseNode, entryPoint, parent);
    }
  }

  method AddDependsOnEdges(graph: Graph, project: Project, imageName: string, node: string, deps: seq<string>)
    requires graph.Valid()
    modifies graph`edges
    ensures graph.Valid()
    ensures Serves(project, old(graph.View()), graph.View(), Claims(imageName, node, DependsOnDemands(deps)))
  {
    hide Serves;
    ghost var g0 := graph.View();
    ServesNothing(project, g0);
    MoreClaims(imageName, node, {}, OnNode(""));
    assert DependsOnDemands(deps[..0]) == {};
    for i := 0 to |deps|
      invariant graph.Valid()
      invariant Serves(project, g0, graph.View(), Claims(imageName, node, DependsOnDemands(deps[..i])))
    {
      PrefixStep(deps, i);
      ghost var g1 := graph.View();
      AddNodeEdge(graph, project, imageName, node, deps[i]);
      ServesThen(project, g0, g1, graph.View(), Claims(imageName, node, DependsOnDemands(deps[..i])), {Claim(imageName, node, OnNode(deps[i]))});
      MoreClaims(imageName, node, DependsOnDemands(deps[..i]), OnNode(deps[i]));
      assert DependsOnDemands(deps[..i+1]) == DependsOnDemands(deps[..i]) + {OnNode(deps[i])};
    }
    assert deps[..|deps|] == deps;
  }

  method ScanBaseNode(graph: Graph, project: Project, name: string, img: Image)
    requires graph.Valid()
    modifies graph`edges
    ensures graph.Valid() && Serves(project, old(graph.View()), graph.View(), BaseClaims(name, img))
  {
    hide Serves, NodeDemands, DependsOnDemands, Claims;
    ghost var g0 := graph.View();
    ScanVariantNode(graph, project, name, name, "", img.entryPoint, ImageParentRef(img));
    ghost var g1 := graph.View();
    AddDependsOnEdges(graph, project, name, name, img.dependsOn);
    ghost var a, b := NodeDemands("", img.entryPoint, ImageParentRef(img)), DependsOnDemands(img.dependsOn);
    ServesThen(project, g0, g1, graph.View(), Claims(name, name, a), Claims(name, name, b));
    JoinClaims(name, name, a, b);
  }

  method ScanOneVariant(graph: Graph, project: Project, name: string, img: Image, v: string)
    requires graph.Valid() && v in img.variants
    modifies graph`edges
    ensures graph.Valid() && Serves(project, old(graph.View()), graph.View(), VariantClaims(name, img, v))
  {
    hide Serves, NodeDemands, DependsOnDemands, Claims;
    var node, variant := VariantNodeID(name, v), img.variants[v];
    ghost var g0 := graph.View();
    ScanVariantNode(graph, project, name, node, name, variant.entryPoint, VariantParentRef(img, variant));
    ghost var g1 := graph.View();
    AddDependsOnEdges(graph, project, name, node, img.dependsOn);
    ghost var a, b := NodeDemands(name, variant.entryPoint, VariantParentRef(img, variant)), DependsOnDemands(img.dependsOn);
    ServesThen(project, g0, g1, graph.View(), Claims(name, node, a), Claims(name, node, b));
    JoinClaims(name, node, a, b);
  }

  method ScanImage(graph: Graph, project: Project, name: string, img: Image)
    requires graph.Valid()
    modifies graph`edges
    ensures graph.Valid() && Serves(project, old(graph.View()), graph.View(), ImageClaims(name, img))
  {
    hide *;
    ghost var g0 := graph.View();
    ScanBaseNode(graph, project, name, img);
    ghost var done: set<string> := {};
    var todo := img.variants.Keys;
    NoVariantClaims(name, img);
    assert BaseClaims(name, img) + VariantsClaims(name, img, done) == BaseClaims(name, img);
    while todo != {}
      invariant todo == img.variants.Keys - done && done <= img.variants.Keys
      invariant graph.Valid()
      invariant Serves(project, g0, graph.View(), BaseClaims(name, img) + VariantsClaims(name, img, done))
      decreases todo
    {
      var v :| v in todo;
      ghost var g1 := graph.View();
      ScanOneVariant(graph, project, name, img, v);
      ServesThen(project, g0, g1, graph.View(), BaseClaims(name, img) + VariantsClaims(name, img, done), VariantClaims(name, img, v));
      OneMoreVariantClaims(name, img, done, v);
      assert BaseClaims(name, img) + VariantsClaims(name, img, done) + VariantClaims(name, img, v)
          == BaseClaims(name, img) + VariantsClaims(name, img, done + {v});
      todo, done := todo - {v}, done + {v};
    }
    assert done == img.variants.Keys;
    ImageClaimsDef(name, img);
  }

  lemma NoVariantClaims(name: string, img: Image)
    ensures VariantsClaims(name, img, {}) == {}
  {
  }

  lemma OneMoreVariantClaims(name: string, img: Image, done: set<string>, v: string)
    requires v in img.variants
    ensures VariantsClaims(name, img, done + {v}) == VariantsClaims(name, img, done) + VariantClaims(name, img, v)
  {
    hide VariantClaims;
  }

  lemma ImageClaimsDef(name: string, img: Image)
    ensures ImageClaims(name, img) == BaseClaims(name, img) + VariantsClaims(name, img, img.variants.Keys)
  {
  }

  lemma OneMoreImageClaims(name: string, images: seq<Image>, i: nat)
    requires i < |images|
    ensures ImagesClaims(name, images[..i+1]) == ImagesClaims(name, images[..i]) + ImageClaims(name, images[i])
  {
    hide ImageClaims;
    var more := images[..i+1];
    assert more[i] == images[i];
    forall c ensures c in ImagesClaims(name, more) <==> c in ImagesClaims(name, images[..i]) + ImageClaims(name, images[i]) {
      if c in ImagesClaims(name, images[..i]) {
        var k :| 0 <= k < i && c in ImageClaims(name, images[..i][k]);
        assert more[k] == images[..i][k];
      }
      if c in ImagesClaims(name, more) {
        var k :| 0 <= k < |more| && c in ImageClaims(name, more[k]);
        assert k < i ==> more[k] == images[..i][k];
      }
    }
  }

  lemma NoClaims(project: Project, name: string, images: seq<Image>)
    ensures ProjectClaims(project, {}) == {} && ImagesClaims(name, images[..0]) == {}
  {
  }

  lemma OneMoreNameClaims(project: Project, names: set<string>, n: string)
    requires n in project
    ensures ProjectClaims(project, names + {n}) == ProjectClaims(project, names) + ImagesClaims(n, project[n])
  {
    hide ImagesClaims;
  }

  method RegisterNodes(project: Project) returns (graph: Graph)
    ensures fresh(graph) && graph.Valid()
    ensures graph.nodes == AllNodes(project) && graph.edges == map[]
  {
    graph := new Graph();
    var todo := project.Keys;
    while todo != {}
      invariant todo <= project.Keys && graph.Valid() && graph.edges == map[]
      invariant graph.nodes == set n, u | n in project.Keys - todo && u in NodeIDs(n, project[n]) :: u
      decreases todo
    {
      var name :| name in todo;
      RegisterImages(graph, name, project[name]);
      todo := todo - {name};
    }
    assert project.Keys - todo == project.Keys;
  }

  method RegisterImages(graph: Graph, name: string, images: seq<Image>)
    requires graph.Valid()
    modifies graph`nodes
    ensures graph.Valid() && graph.nodes == old(graph.nodes) + NodeIDs(name, images)
  {
    ghost var n0 := graph.nodes;
    graph.AddImage(name);
    for i := 0 to |images|
      invariant graph.Valid()
      invariant forall u :: u in graph.nodes <==>
        (u in n0 || u == name || exists j, v :: 0 <= j < i && v in images[j].variants && u == VariantNodeID(name, v))
    {
      ghost var n1 := graph.nodes;
      var todo := images[i].variants.Keys;
      while todo != {}
        invariant todo <= images[i].variants.Keys && graph.Valid()
        invariant forall u :: u in graph.nodes <==>
          (u in n1 || exists v :: v in images[i].variants && v !in todo && u == VariantNodeID(name, v))
        decreases todo
      {
        var v :| v in todo;
        graph.AddImage(VariantNodeID(name, v));
        todo := todo - {v};
      }
    }
  }

  method ScanProjectVariants(project: Project) returns (graph: Graph)
    ensures fresh(graph) && graph.Valid()
    ensures Serves(project, Digraph(AllNodes(project), map[]), graph.View(), ProjectClaims(project, project.Keys))
  {
    hide *;
    graph := RegisterNodes(project);
    ghost var g0 := graph.View();
    assert g0 == Digraph(AllNodes(project), map[]) by { ViewDef(graph); }
    ServesNothing(project, g0);
    var todo := project.Keys;
    ghost var done: set<string> := {};
    NoClaims(project, "", []);
    while todo != {}
      invariant todo == project.Keys - done && done <= project.Keys
      invariant fresh(graph) && graph.Valid()
      invariant Serves(project, g0, graph.View(), ProjectClaims(project, done))
      decreases todo
    {
      var name :| name in todo;
      var images := project[name];
      NoClaims(project, name, images);
      ghost var g1 := graph.View();
      ServesNothing(project, g1);
      for i := 0 to |images|
        invariant fresh(graph) && graph.Valid()
        invariant Serves(project, g1, graph.View(), ImagesClaims(name, images[..i]))
      {
        ghost var g2 := graph.View();
        ScanImage(graph, project, name, images[i]);
        ServesThen(project, g1, g2, graph.View(), ImagesClaims(name, images[..i]), ImageClaims(name, images[i]));
        OneMoreImageClaims(name, images, i);
      }
      assert images[..|images|] == images;
      ServesThen(project, g0, g1, graph.View(), ProjectClaims(project, done), ImagesClaims(name, images));
      OneMoreNameClaims(project, done, name);
      todo, done := todo - {name}, done + {name};
    }
    assert done == project.Keys;
  }

  lemma ViewDef(graph: Graph)
    ensures graph.View() == Digraph(graph.nodes, graph.edges)
  {
  }

  // ---------- projection onto the image graph ----------

  /** The node is the image itself or one of its variants. */
  ghost predicate Owns(project: Project, image: string, node: string) {
    image in project && node in NodeIDs(image, project[image])
  }

  /** No two images share a node name. */
  ghost predicate Unambiguous(project: Project) {
    forall i, j, u :: Owns(project, i, u) && Owns(project, j, u) ==> i == j
  }

  ghost predicate IsVariantGraph(project: Project, g: Digraph) {
    Serves(project, Digraph(AllNodes(project), map[]), g, ProjectClaims(project, project.Keys))
  }

  /** from is a variant of image i and to its base image, or the edge lies over an edge of the image graph. */
  ghost predicate Projects(project: Project, ig: Digraph, i: string, from: string, to: string) {
    && Owns(project, i, from)
    && ((to == i && from != i) || exists j :: Owns(project, j, to) && j in ig.Deps(i))
  }

  lemma EntryEdgeIsMerged(project: Project, n: string, k: nat, e: Edge)
    requires n in project && k < |project[n]|
    requires e in ImageEntryEdges(n, project[n][k]) || e in AllParentEdges(project.Keys, n, ParentRefs(project[n][k]))
      || e in ImageDeclaredEdges(n, project[n][k])
    ensures e in MergedEdges(project)
  {
    hide ImageEntryEdges, ImageDeclaredEdges, AllParentEdges, ParentRefs;
    if e in ImageEntryEdges(n, project[n][k]) {
      assert e in OverImages(ImageEntryEdges, n, project[n]);
      assert e in OverNames(ImageEntryEdges, project, project.Keys);
    } else if e in AllParentEdges(project.Keys, n, ParentRefs(project[n][k])) {
      var f := ImageParentEdges(project.Keys);
      assert e in f(n, project[n][k]);
      assert e in OverImages(f, n, project[n]);
      assert e in OverNames(f, project, project.Keys);
    } else {
      assert e in OverImages(ImageDeclaredEdges, n, project[n]);
      assert e in OverNames(ImageDeclaredEdges, project, project.Keys);
    }
  }

  lemma TargetOwned(project: Project, t: string, tag: string, to: string)
    requires t in project && IsTarget(t, project[t], tag, to)
    ensures Owns(project, t, to)
  {
    if i, v :| Selects(project[t], tag, i, v) {
      var a, x :| SelectsLongest(project[t], tag, a, x) && to == VariantNodeID(t, x);
    }
  }

  /** A reference of an image, in a Dockerfile or as backend parent, is an image edge as well. */
  lemma TagDemandMerged(project: Project, n: string, k: nat, entryPoint: EntryPoint, parent: string, t: string, tag: string)
    requires n in project && k < |project[n]| && t in project && t != n
    requires OnTag(t, tag) in RefDemands(Refs(entryPoint)) || OnTag(t, tag) in ParentDemands(parent)
    requires var img := project[n][k];
      || (entryPoint == img.entryPoint && parent == ImageParentRef(img))
      || exists v :: v in img.variants && entryPoint == img.variants[v].entryPoint && parent == VariantParentRef(img, img.variants[v])
    ensures (n, t) in MergedEdges(project)
  {
    hide MergedEdges;
    var img := project[n][k];
    if OnTag(t, tag) in RefDemands(Refs(entryPoint)) {
      assert (n, t) in RefEdges(n, Refs(entryPoint));
      assert (n, t) in ImageEntryEdges(n, img);
    } else {
      assert parent in ParentRefs(img);
      assert (n, t) in ParentEdges(project.Keys, n, parent);
      assert (n, t) in AllParentEdges(project.Keys, n, ParentRefs(img));
    }
    EntryEdgeIsMerged(project, n, k, (n, t));
  }

  lemma UnknownDependencyIsProblem(project: Project, n: string, k: nat, d: string)
    requires n in project && k < |project[n]| && d in project[n][k].dependsOn && d !in project
    ensures !Accepted(project)
  {
    hide ParentRefs, BadParent;
    var e := UnknownDependency(n, d);
    assert BadDependency(project, n, d, e);
    assert ImageProblem(project, n, project[n][k], e);
    assert Problem(project, e);
  }

  lemma DependsOnMerged(project: Project, n: string, k: nat, d: string)
    requires n in project && k < |project[n]| && d in project[n][k].dependsOn && Accepted(project)
    ensures d in project && (n, d) in MergedEdges(project)
  {
    hide MergedEdges, AllDeclaredParentEdges, ParentRefs, Accepted;
    var img := project[n][k];
    if d !in project {
      UnknownDependencyIsProblem(project, n, k, d);
    }
    assert (n, d) in ImageDeclaredEdges(n, img);
    EntryEdgeIsMerged(project, n, k, (n, d));
  }

  /** The demands of one node of image n lead to the base image or over an image edge. */
  lemma DemandProjects(project: Project, ig: Digraph, n: string, k: nat, node: string, baseNode: string,
                       entryPoint: EntryPoint, parent: string, d: Demand, to: string)
    requires Accepted(project) && IsImageGraph(project, ig)
    requires n in project && k < |project[n]| && Owns(project, n, node)
    requires baseNode == "" || (baseNode == n && node != n)
    requires var img := project[n][k];
      || (entryPoint == img.entryPoint && parent == ImageParentRef(img))
      || exists v :: v in img.variants && entryPoint == img.variants[v].entryPoint && parent == VariantParentRef(img, img.variants[v])
    requires d in NodeDemands(baseNode, entryPoint, parent) + DependsOnDemands(project[n][k].dependsOn)
    requires Answers(project, Claim(n, node, d), to)
    ensures Projects(project, ig, n, node, to)
  {
    hide MergedEdges, Accepted, IsTarget, ParseParent, ImageParentRef, VariantParentRef, Refs;
    if d in DependsOnDemands(project[n][k].dependsOn) {
      DependsOnMerged(project, n, k, to);
      assert Owns(project, to, to);
      assert to in ig.Deps(n);
    } else if d.OnTag? {
      TagDemandMerged(project, n, k, entryPoint, parent, d.image, d.tag);
      TargetOwned(project, d.image, d.tag, to);
      assert d.image in ig.Deps(n);
    } else {
      assert d in BaseDemands(baseNode, entryPoint, parent);
    }
  }

  lemma ClaimProjects(project: Project, ig: Digraph, c: Claim, to: string)
    requires Accepted(project) && IsImageGraph(project, ig)
    requires c in ProjectClaims(project, project.Keys) && Answers(project, c, to)
    ensures Projects(project, ig, c.image, c.node, to)
  {
    hide Accepted, IsImageGraph, Answers, Projects, NodeDemands, DependsOnDemands, ImageParentRef, VariantParentRef;
    var n :| n in project && c in ImagesClaims(n, project[n]);
    var k :| 0 <= k < |project[n]| && c in ImageClaims(n, project[n][k]);
    var img := project[n][k];
    if c in BaseClaims(n, img) {
      DemandProjects(project, ig, n, k, n, "", img.entryPoint, ImageParentRef(img), c.demand, to);
    } else {
      var v :| v in img.variants && c in VariantClaims(n, img, v);
      assert Owns(project, n, VariantNodeID(n, v));
      DemandProjects(project, ig, n, k, VariantNodeID(n, v), n, img.variants[v].entryPoint,
                     VariantParentRef(img, img.variants[v]), c.demand, to);
    }
  }

  /** Every edge of the variant graph projects. */
  lemma EdgeProjects(project: Project, ig: Digraph, vg: Digraph, from: string, to: string)
    requires Accepted(project) && IsImageGraph(project, ig) && IsVariantGraph(project, vg)
    requires to in vg.Deps(from)
    ensures exists i :: Projects(project, ig, i, from, to)
  {
    hide Accepted, IsImageGraph, Answers, Projects, ProjectClaims, Met, AllNodes;
    assert Justified(project, vg, ProjectClaims(project, project.Keys), from, to);
    var c :| c in ProjectClaims(project, project.Keys) && c.node == from && Answers(project, c, to);
    ClaimProjects(project, ig, c, to);
  }

  /** A path of the variant graph lies over a path of the image graph; it stands still there only
      for the one step from a variant to its base image. */
  lemma {:induction false} PathProjects(project: Project, ig: Digraph, vg: Digraph, p: seq<string>, i: string)
    returns (q: seq<string>, j: string)
    requires Accepted(project) && IsImageGraph(project, ig) && IsVariantGraph(project, vg) && Unambiguous(project)
    requires IsPath(vg, p) && Owns(project, i, p[0])
    ensures Owns(project, j, p[|p|-1]) && IsPathFromTo(ig, q, i, j)
    ensures |q| > 1 || |p| == 1 || (|p| == 2 && p[0] != i && p[1] == i)
    decreases |p|
  {
    hide Accepted, IsImageGraph, IsVariantGraph, NodeIDs;
    if |p| == 1 {
      q, j := [i], i;
    } else {
      var front, x, y := p[..|p|-1], p[|p|-2], p[|p|-1];
      assert IsPath(vg, front) by { SubPath(vg, p, 0, |p| - 2); assert p[0..|p|-2+1] == front; }
      var q1, j1 := PathProjects(project, ig, vg, front, i);
      EdgeProjects(project, ig, vg, x, y);
      var k :| Projects(project, ig, k, x, y);
      assert k == j1;
      if y == k && x != k {
        OwnsSelf(project, k);
        OwnsSelf(project, i);
        q, j := q1, k;
      } else {
        j :| Owns(project, j, y) && j in ig.Deps(k);
        PathConcat(ig, q1, [k, j]);
        q := q1 + [k, j][1..];
      }
    }
  }

  lemma OwnsSelf(project: Project, i: string)
    ensures i in project ==> Owns(project, i, i)
  {
  }

  lemma CycleProjects(project: Project, ig: Digraph, vg: Digraph, p: seq<string>, a: string)
    requires Accepted(project) && IsImageGraph(project, ig) && IsVariantGraph(project, vg) && Unambiguous(project)
    requires IsPathFromTo(vg, p, a, a) && |p| > 1
    ensures !Acyclic(ig)
  {
    hide Accepted, IsImageGraph, IsVariantGraph, NodeIDs, Unambiguous;
    assert p[1] in vg.Deps(p[0]);
    EdgeProjects(project, ig, vg, a, p[1]);
    var i :| Projects(project, ig, i, a, p[1]);
    var q, j := PathProjects(project, ig, vg, p, i);
    SameOwner(project, i, j, a);
    assert OnCycle(ig, i);
  }

  /** An acyclic image graph gives an acyclic variant graph when no two images share a node name. */
  lemma VariantGraphAcyclic(project: Project, ig: Digraph, vg: Digraph)
    requires Accepted(project) && IsImageGraph(project, ig) && IsVariantGraph(project, vg) && Unambiguous(project)
    requires Acyclic(ig)
    ensures Acyclic(vg)
  {
    hide Accepted, IsImageGraph, IsVariantGraph, Unambiguous;
    forall a ensures !OnCycle(vg, a) {
      if OnCycle(vg, a) {
        var p :| IsPathFromTo(vg, p, a, a) && |p| > 1;
        CycleProjects(project, ig, vg, p, a);
      }
    }
  }

  lemma SameOwner(project: Project, i: string, j: string, u: string)
    requires Unambiguous(project) && Owns(project, i, u) && Owns(project, j, u)
    ensures i == j
  {
  }

  lemma VariantGraphRegistered(project: Project, vg: Digraph)
    requires IsVariantGraph(project, vg)
    ensures vg.nodes == AllNodes(project) && vg.SourcesRegistered() && vg.TargetsRegistered()
  {
    hide ImageClaims, AllNodes, Met, Answers;
    forall a | a in vg.edges ensures a in vg.nodes {
      var c :| c in ProjectClaims(project, project.Keys) && c.node == a;
      ClaimNodeKnown(project, c);
    }
    forall a, b | a in vg.edges && b in vg.Deps(a) ensures b in vg.nodes {
      assert Justified(project, vg, ProjectClaims(project, project.Keys), a, b);
    }
  }

  lemma ClaimNodeKnown(project: Project, c: Claim)
    requires c in ProjectClaims(project, project.Keys)
    ensures c.node in AllNodes(project)
  {
    hide NodeDemands, DependsOnDemands, ImageParentRef, VariantParentRef;
    var n :| n in project && c in ImagesClaims(n, project[n]);
    var k :| 0 <= k < |project[n]| && c in ImageClaims(n, project[n][k]);
    assert c.node in NodeIDs(n, project[n]);
  }

  /** If the images can be sorted, so can the images and variants together. */
  lemma VariantsSortWhenImagesSort(project: Project, ig: Digraph, vg: Digraph)
    requires Accepted(project) && IsImageGraph(project, ig) && IsVariantGraph(project, vg) && Unambiguous(project)
    requires |BuildOrder(ig)| == |ig.nodes|
    ensures |BuildOrder(vg)| == |vg.nodes| && IsBuildOrder(vg, BuildOrder(vg))
  {
    hide Accepted, IsVariantGraph, MergedEdges, Unambiguous;
    assert ig.SourcesRegistered();
    BuildOrderSucceeds(ig);
    VariantGraphAcyclic(project, ig, vg);
    VariantGraphRegistered(project, vg);
    BuildOrderSucceeds(vg);
  }

  // ---------- when node names are unambiguous ----------

  ghost predicate VariantNamesSlashFree(project: Project) {
    forall n, i, v :: n in project && 0 <= i < |project[n]| && v in project[n][i].variants ==> '/' !in v
  }

  /** No image is named like a variant node of another image. */
  ghost predicate NoImageNamedLikeVariant(project: Project) {
    forall n, m :: n in project && m in project && n != m ==> n !in NodeIDs(m, project[m])
  }

  lemma SlashSplit(n: string, v: string, m: string, w: string)
    requires n + "/" + v == m + "/" + w && '/' !in v && '/' !in w
    ensures n == m && v == w
  {
    var u := n + "/" + v;
    assert u[|n|] == '/' && u[|m|] == '/';
    assert forall k :: |n| < k < |u| ==> u[k] == v[k - |n| - 1];
    assert forall k :: |m| < k < |u| ==> u[k] == w[k - |m| - 1];
    assert |n| == |m|;
    assert n == u[..|n|] && m == u[..|m|];
    assert v == u[|n|+1..] && w == u[|m|+1..];
  }

  /** For variant names without a slash the image names decide. */
  lemma UnambiguousIff(project: Project)
    requires VariantNamesSlashFree(project)
    ensures Unambiguous(project) <==> NoImageNamedLikeVariant(project)
  {
    if NoImageNamedLikeVariant(project) {
      forall i, j, u | Owns(project, i, u) && Owns(project, j, u) ensures i == j {
        if u != i && u != j {
          var a, v :| 0 <= a < |project[i]| && v in project[i][a].variants && u == VariantNodeID(i, v);
          var b, w :| 0 <= b < |project[j]| && w in project[j][b].variants && u == VariantNodeID(j, w);
          SlashSplit(i, v, j, w);
        }
      }
    } else {
      var n, m :| n in project && m in project && n != m && n in NodeIDs(m, project[m]);
      assert Owns(project, n, n) && Owns(project, m, n);
    }
  }
}

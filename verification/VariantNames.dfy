/** Which names of images and variants keep the variant graph acyclic: exactly those under which no
    node belongs to two images. */
module VariantNames {
  import opened Wrappers
  import opened Digraphs
  import opened Project
  import opened ImageGraph
  import opened VariantGraph

  /** The same image and variant names; everything else may differ. */
  ghost predicate SameNames(p: Project, q: Project) {
    p.Keys == q.Keys && forall n :: n in p ==> SameVariants(p[n], q[n])
  }

  ghost predicate SameVariants(a: seq<Image>, b: seq<Image>) {
    |a| == |b| && forall k :: 0 <= k < |a| ==> a[k].variants.Keys == b[k].variants.Keys
  }

  /** Whatever a project of these names contains, an acyclic image graph means an acyclic variant graph. */
  ghost predicate NamesAreSafe(p: Project) {
    forall q, ig, vg :: SameNames(p, q) && Accepted(q) && IsImageGraph(q, ig) && IsVariantGraph(q, vg) && Acyclic(ig) ==> Acyclic(vg)
  }

  lemma SameNodes(p: Project, q: Project, n: string)
    requires SameNames(p, q) && n in p
    ensures NodeIDs(n, p[n]) == NodeIDs(n, q[n])
  {
    assert SameVariants(p[n], q[n]);
  }

  lemma SameOwners(p: Project, q: Project)
    requires SameNames(p, q)
    ensures forall i, u :: Owns(p, i, u) <==> Owns(q, i, u)
    ensures Unambiguous(p) <==> Unambiguous(q)
  {
    forall i, u ensures Owns(p, i, u) <==> Owns(q, i, u) {
      if i in p { SameNodes(p, q, i); }
    }
  }

  // ---------- a project that closes a cycle ----------

  const TAG := "-x"

  /** Variant v of image i is built on its base, and the base on tag -x of image j, which variant w
      of j answers, or without w the base of j. Everything else is empty. */
  datatype Trap = Trap(i: string, v: string, j: string, w: Option<string>) {

    function ImageEntry(n: string): EntryPoint {
      if n == i then Dockerfile([HiveRef(j, TAG)], false) else NoPath
    }

    function VariantOf(n: string, x: string): Variant {
      Variant(if n == i && x == v then Dockerfile([], true) else NoPath, "", None, None, if n == j && w == Some(x) then TAG else "")
    }

    function ImageOf(n: string, img: Image): Image {
      Image(ImageEntry(n), "dockerfile", "", "", map x | x in img.variants :: VariantOf(n, x), [], img.dir)
    }

    function ImagesOf(n: string, images: seq<Image>): (r: seq<Image>)
      ensures |r| == |images| && forall k :: 0 <= k < |r| ==> r[k] == ImageOf(n, images[k])
    {
      seq(|images|, k requires 0 <= k < |images| => ImageOf(n, images[k]))
    }

    function Set(p: Project): Project {
      map n | n in p :: ImagesOf(n, p[n])
    }

    /** The node that the variant of i and image j share. */
    function Node(): string { VariantNodeID(i, v) }

    /** i has variant v, and j owns its node. */
    ghost predicate Fits(p: Project) {
      && i in p && j in p && i != j && i != "" && Node() != i
      && (exists k :: 0 <= k < |p[i]| && v in p[i][k].variants)
      && match w
         case None => Node() == j
         case Some(x) => Node() == VariantNodeID(j, x) && exists k :: 0 <= k < |p[j]| && x in p[j][k].variants
    }
  }

  lemma TrapNames(t: Trap, p: Project)
    ensures SameNames(p, t.Set(p))
  {
  }

  lemma TrapParents(t: Trap, n: string, img: Image)
    ensures ParentRefs(t.ImageOf(n, img)) == {}
  {
  }

  lemma TrapAccepted(t: Trap, p: Project)
    ensures Accepted(t.Set(p))
  {
    hide ParentRefs;
    var q: Project := t.Set(p);
    forall n, k, e | n in q && 0 <= k < |q[n]| ensures !ImageProblem(q, n, q[n][k], e) {
      TrapParents(t, n, p[n][k]);
    }
  }

  // ---------- its image graph ----------

  lemma TrapEntryEdges(t: Trap, n: string, img: Image)
    requires t.i != t.j
    ensures ImageEntryEdges(n, t.ImageOf(n, img)) == if n == t.i then {(t.i, t.j)} else {}
  {
  }

  lemma NoParents(nodes: set<string>, n: string)
    ensures AllParentEdges(nodes, n, {}) == {} && AllDeclaredParentEdges(n, {}) == {}
  {
  }

  lemma TrapOtherEdges(t: Trap, nodes: set<string>, n: string, img: Image)
    ensures ImageParentEdges(nodes)(n, t.ImageOf(n, img)) == {}
    ensures ImageDeclaredEdges(n, t.ImageOf(n, img)) == {}
  {
    hide ParentRefs, AllParentEdges, AllDeclaredParentEdges;
    TrapParents(t, n, img);
    NoParents(nodes, n);
  }

  lemma TrapEdges(t: Trap, p: Project)
    requires t.Fits(p)
    ensures MergedEdges(t.Set(p)) == {(t.i, t.j)}
  {
    hide ImageEntryEdges, ImageParentEdges, ImageDeclaredEdges, Trap.ImageOf;
    var q: Project := t.Set(p);
    forall e ensures e in OverNames(ImageEntryEdges, q, q.Keys) <==> e == (t.i, t.j) {
      if n :| n in q && e in OverImages(ImageEntryEdges, n, q[n]) {
        var k :| 0 <= k < |q[n]| && e in ImageEntryEdges(n, q[n][k]);
        TrapEntryEdges(t, n, p[n][k]);
      }
      TrapEntryEdges(t, t.i, p[t.i][0]);
      assert q[t.i][0] == t.ImageOf(t.i, p[t.i][0]);
      assert (t.i, t.j) in OverImages(ImageEntryEdges, t.i, q[t.i]);
    }
    forall n, k | n in q && 0 <= k < |q[n]| ensures ImageParentEdges(q.Keys)(n, q[n][k]) == {} && ImageDeclaredEdges(n, q[n][k]) == {} {
      TrapOtherEdges(t, q.Keys, n, p[n][k]);
    }
    assert OverNames(ImageParentEdges(q.Keys), q, q.Keys) == {};
    assert OverNames(ImageDeclaredEdges, q, q.Keys) == {};
  }

  function TrapImages(t: Trap, p: Project): Digraph {
    Digraph(p.Keys, map[t.i := [t.j]])
  }

  lemma TrapImageGraph(t: Trap, p: Project)
    requires t.Fits(p)
    ensures IsImageGraph(t.Set(p), TrapImages(t, p)) && Acyclic(TrapImages(t, p))
  {
    TrapEdges(t, p);
    TrapNames(t, p);
    assert t.i != t.j && t.i in p;
    hide MergedEdges, Acyclic, Trap.Fits, Trap.Set;
    OneEdge(p.Keys, t.i, t.j);
    OneEdgeIsAcyclic(TrapImages(t, p), t.i, t.j);
    hide Digraph.Deps;
  }

  lemma OneEdge(nodes: set<string>, a: string, b: string)
    ensures var g := Digraph(nodes, map[a := [b]]);
      g.Deps(a) == {b} && forall n :: n != a ==> g.Deps(n) == {}
  {
  }

  lemma OneEdgeIsAcyclic(g: Digraph, a: string, b: string)
    requires a != b && g.Deps(a) == {b} && forall n :: n != a ==> g.Deps(n) == {}
    ensures Acyclic(g)
  {
    hide Digraph.Deps;
    forall n ensures !OnCycle(g, n) {
      if c :| IsPathFromTo(g, c, n, n) && |c| > 1 {
        assert c[1] in g.Deps(c[0]);
        assert |c| > 2 ==> c[2] in g.Deps(c[1]);
      }
    }
  }

  // ---------- its variant graph ----------

  /** The base of i asks for tag -x of j, the variant for the base. */
  function TrapClaims(t: Trap): set<Claim> {
    {Claim(t.i, t.i, OnTag(t.j, TAG)), Claim(t.i, t.Node(), OnNode(t.i))}
  }

  lemma TrapBaseClaims(t: Trap, n: string, img: Image)
    ensures BaseClaims(n, t.ImageOf(n, img)) == if n == t.i then {Claim(t.i, t.i, OnTag(t.j, TAG))} else {}
  {
    var trap := t.ImageOf(n, img);
    assert NodeDemands("", trap.entryPoint, ImageParentRef(trap)) + DependsOnDemands(trap.dependsOn)
      == if n == t.i then {OnTag(t.j, TAG)} else {};
  }

  lemma TrapVariantClaims(t: Trap, n: string, img: Image, x: string)
    requires x in img.variants && t.i != ""
    ensures VariantClaims(n, t.ImageOf(n, img), x) == if n == t.i && x == t.v then {Claim(t.i, t.Node(), OnNode(t.i))} else {}
  {
    var trap := t.ImageOf(n, img);
    var variant := t.VariantOf(n, x);
    assert trap.variants[x] == variant;
    assert NodeDemands(n, variant.entryPoint, VariantParentRef(trap, variant)) + DependsOnDemands(trap.dependsOn)
      == if n == t.i && x == t.v then {OnNode(n)} else {};
  }

  lemma TrapImageClaims(t: Trap, n: string, img: Image)
    requires t.i != ""
    ensures ImageClaims(n, t.ImageOf(n, img)) <= TrapClaims(t)
    ensures n == t.i ==> Claim(t.i, t.i, OnTag(t.j, TAG)) in ImageClaims(n, t.ImageOf(n, img))
    ensures n == t.i && t.v in img.variants ==> Claim(t.i, t.Node(), OnNode(t.i)) in ImageClaims(n, t.ImageOf(n, img))
  {
    TrapBaseClaims(t, n, img);
    hide BaseClaims, VariantClaims;
    forall x | x in img.variants
      ensures VariantClaims(n, t.ImageOf(n, img), x) == if n == t.i && x == t.v then {Claim(t.i, t.Node(), OnNode(t.i))} else {}
    {
      TrapVariantClaims(t, n, img, x);
    }
  }

  lemma TrapProjectClaims(t: Trap, p: Project)
    requires t.Fits(p)
    ensures ProjectClaims(t.Set(p), p.Keys) == TrapClaims(t)
  {
    hide ImageClaims, TrapClaims, Trap.ImageOf;
    var q: Project := t.Set(p);
    forall c | c in ProjectClaims(q, p.Keys) ensures c in TrapClaims(t) {
      var n :| n in q && c in ImagesClaims(n, q[n]);
      var k :| 0 <= k < |q[n]| && c in ImageClaims(n, q[n][k]);
      TrapImageClaims(t, n, p[n][k]);
    }
    var k :| 0 <= k < |p[t.i]| && t.v in p[t.i][k].variants;
    TrapImageClaims(t, t.i, p[t.i][k]);
    assert ImageClaims(t.i, q[t.i][k]) <= ImagesClaims(t.i, q[t.i]) <= ProjectClaims(q, p.Keys);
    TwoClaims(t);
  }

  lemma TwoClaims(t: Trap)
    ensures forall c :: c in TrapClaims(t) <==> c == Claim(t.i, t.i, OnTag(t.j, TAG)) || c == Claim(t.i, t.Node(), OnNode(t.i))
  {
  }

  /** The tag selects variant w and no other. */
  lemma TrapSelects(t: Trap, p: Project, k: int, x: string)
    requires t.j in p
    ensures Selects(t.Set(p)[t.j], TAG, k, x) <==> t.w == Some(x) && 0 <= k < |p[t.j]| && x in p[t.j][k].variants
  {
    assert TAG[0..] == TAG;
    if 0 <= k < |p[t.j]| && x in p[t.j][k].variants {
      assert t.Set(p)[t.j][k].variants[x] == t.VariantOf(t.j, x);
    }
  }

  /** Only the shared node answers the tag. */
  lemma TrapTarget(t: Trap, p: Project, to: string)
    requires t.Fits(p)
    ensures IsTarget(t.j, t.Set(p)[t.j], TAG, to) <==> to == t.Node()
  {
    var images := t.Set(p)[t.j];
    forall k, x ensures Selects(images, TAG, k, x) <==> t.w == Some(x) && 0 <= k < |p[t.j]| && x in p[t.j][k].variants {
      TrapSelects(t, p, k, x);
    }
    if t.w.Some? {
      var x := t.w.value;
      var k :| 0 <= k < |p[t.j]| && x in p[t.j][k].variants;
      SameVariantLongest(images, k, x);
      hide Selects, SelectsLongest, IsTarget, Trap.Set;
      OneTarget(t.j, images, TAG, k, x, to);
    } else {
      hide Selects, SelectsLongest, Trap.Set;
      NoTarget(t.j, images, TAG, to);
    }
  }

  lemma NoTarget(imageName: string, images: seq<Image>, tag: string, to: string)
    requires forall k, x :: !Selects(images, tag, k, x)
    ensures IsTarget(imageName, images, tag, to) <==> to == imageName
  {
    hide Selects, SelectsLongest;
  }

  lemma OneTarget(imageName: string, images: seq<Image>, tag: string, k: int, x: string, to: string)
    requires SelectsLongest(images, tag, k, x) && forall l, y :: Selects(images, tag, l, y) ==> y == x
    ensures IsTarget(imageName, images, tag, to) <==> to == VariantNodeID(imageName, x)
  {
    hide Selects, VariantNodeID;
    if IsTarget(imageName, images, tag, to) {
      var l, y :| SelectsLongest(images, tag, l, y) && to == VariantNodeID(imageName, y);
      assert y == x;
    }
  }

  lemma SameVariantLongest(images: seq<Image>, k: int, x: string)
    requires Selects(images, TAG, k, x)
    requires forall l, y :: Selects(images, TAG, l, y) ==> y == x && |images[l].variants[y].tagSuffix| == |images[k].variants[x].tagSuffix|
    ensures SelectsLongest(images, TAG, k, x)
  {
    hide Selects;
  }

  function TrapVariants(t: Trap, p: Project): Digraph {
    Digraph(AllNodes(t.Set(p)), map[t.i := [t.Node()], t.Node() := [t.i]])
  }

  lemma TrapNodes(t: Trap, p: Project)
    requires t.Fits(p)
    ensures t.i in AllNodes(t.Set(p)) && t.Node() in AllNodes(t.Set(p))
  {
    var q: Project := t.Set(p);
    var k :| 0 <= k < |p[t.i]| && t.v in p[t.i][k].variants;
    assert t.v in q[t.i][k].variants;
    assert t.i in NodeIDs(t.i, q[t.i]) && t.Node() in NodeIDs(t.i, q[t.i]);
  }

  /** Either claim is met, and both edges answer one. */
  lemma TrapServes(t: Trap, p: Project)
    requires t.Fits(p)
    ensures Serves(t.Set(p), Digraph(AllNodes(t.Set(p)), map[]), TrapVariants(t, p), TrapClaims(t))
  {
    var q, g, u := t.Set(p), TrapVariants(t, p), t.Node();
    TrapNodes(t, p);
    TrapNames(t, p);
    forall to ensures IsTarget(t.j, q[t.j], TAG, to) <==> to == u {
      TrapTarget(t, p, to);
    }
    TwoClaims(t);
    assert t.i != u && t.i != t.j && t.j in q;
    hide AllNodes, IsTarget, Trap.Fits, Trap.Set, TrapClaims, Trap.Node;
    assert g.Deps(t.i) == {u} && g.Deps(u) == {t.i} && forall n :: n != t.i && n != u ==> g.Deps(n) == {};
    var c, d := Claim(t.i, t.i, OnTag(t.j, TAG)), Claim(t.i, u, OnNode(t.i));
    assert Answers(q, c, u) && Answers(q, d, t.i);
    hide Answers;
    assert Met(q, g, c) && Met(q, g, d);
    assert Justified(q, g, TrapClaims(t), t.i, u) && Justified(q, g, TrapClaims(t), u, t.i);
    hide Met, Justified;
    ServesTwo(q, AllNodes(q), g, TrapClaims(t), c, d);
  }

  /** A graph whose edges are justified by two claims that are met serves them. */
  lemma ServesTwo(project: Project, nodes: set<string>, g: Digraph, claims: set<Claim>, c: Claim, d: Claim)
    requires g.nodes == nodes && c in claims && d in claims && (forall x :: x in claims ==> x == c || x == d)
    requires g.edges.Keys == {c.node, d.node} && Met(project, g, c) && Met(project, g, d)
    requires forall a, b :: b in g.Deps(a) ==> Justified(project, g, claims, a, b)
    ensures Serves(project, Digraph(nodes, map[]), g, claims)
  {
    hide Met, Justified;
  }

  lemma TwoCycle(g: Digraph, a: string, b: string)
    requires b in g.Deps(a) && a in g.Deps(b)
    ensures !Acyclic(g)
  {
    assert IsPathFromTo(g, [a, b, a], a, a);
    assert OnCycle(g, a);
  }

  lemma TrapVariantGraph(t: Trap, p: Project)
    requires t.Fits(p)
    ensures IsVariantGraph(t.Set(p), TrapVariants(t, p)) && !Acyclic(TrapVariants(t, p))
  {
    TrapProjectClaims(t, p);
    TrapServes(t, p);
    TrapNames(t, p);
    assert t.i != t.Node();
    hide ProjectClaims, AllNodes, Trap.Fits, Trap.Set, Trap.Node, Serves, Acyclic, TrapClaims;
    TwoCycle(TrapVariants(t, p), t.i, t.Node());
  }

  // ---------- exactly the unambiguous names are safe ----------

  lemma FindTrap(p: Project, i: string, j: string, u: string) returns (t: Trap)
    requires "" !in p && i != j && u != i && Owns(p, i, u) && Owns(p, j, u)
    ensures t.Fits(p)
  {
    var k, v :| 0 <= k < |p[i]| && v in p[i][k].variants && u == VariantNodeID(i, v);
    if u == j {
      t := Trap(i, v, j, None);
    } else {
      var l, x :| 0 <= l < |p[j]| && x in p[j][l].variants && u == VariantNodeID(j, x);
      t := Trap(i, v, j, Some(x));
    }
  }

  lemma TrapBreaks(p: Project, t: Trap)
    requires t.Fits(p)
    ensures !NamesAreSafe(p)
  {
    TrapNames(t, p);
    TrapAccepted(t, p);
    TrapImageGraph(t, p);
    TrapVariantGraph(t, p);
  }

  /** Names keep every variant graph acyclic over an acyclic image graph if and only if no node name
      belongs to two images. */
  lemma SafeIffUnambiguous(p: Project)
    requires "" !in p
    ensures NamesAreSafe(p) <==> Unambiguous(p)
  {
    if Unambiguous(p) {
      forall q, ig, vg | SameNames(p, q) && Accepted(q) && IsImageGraph(q, ig) && IsVariantGraph(q, vg) && Acyclic(ig) ensures Acyclic(vg) {
        SameOwners(p, q);
        VariantGraphAcyclic(q, ig, vg);
      }
    } else {
      var i, j, u :| Owns(p, i, u) && Owns(p, j, u) && i != j;
      var t: Trap;
      if u != i {
        t := FindTrap(p, i, j, u);
      } else {
        t := FindTrap(p, j, i, u);
      }
      TrapBreaks(p, t);
    }
  }

  // ---------- slashes in variant names ----------

  function Plain(variant: string): Image {
    Image(NoPath, "dockerfile", "", "", map[variant := Variant(NoPath, "", None, None, "")], [], "images")
  }

  /** Image a has the variant b/c, image a/b the variant c: both own the node a/b/c. */
  const SHARED_NODE: Project := map["a" := [Plain("b/c")], "a/b" := [Plain("c")]]

  lemma PlainNodes(n: string, v: string)
    ensures NodeIDs(n, [Plain(v)]) == {n, VariantNodeID(n, v)}
  {
    var images := [Plain(v)];
    assert v in images[0].variants;
  }

  lemma SharedNodes()
    ensures SHARED_NODE.Keys == {"a", "a/b"}
    ensures NodeIDs("a", SHARED_NODE["a"]) == {"a", "a/b/c"} && NodeIDs("a/b", SHARED_NODE["a/b"]) == {"a/b", "a/b/c"}
  {
    PlainNodes("a", "b/c");
    PlainNodes("a/b", "c");
    assert VariantNodeID("a", "b/c") == "a/b/c" == VariantNodeID("a/b", "c");
    hide NodeIDs;
  }

  /** With a slash in a variant name it is not enough that no image is named like a variant node. */
  lemma ImageNamesAreNotEnough()
    ensures NoImageNamedLikeVariant(SHARED_NODE) && !Unambiguous(SHARED_NODE) && !NamesAreSafe(SHARED_NODE)
  {
    SharedNodes();
    NamedApart(SHARED_NODE);
  }

  lemma NamedApart(p: Project)
    requires p.Keys == {"a", "a/b"}
    requires NodeIDs("a", p["a"]) == {"a", "a/b/c"} && NodeIDs("a/b", p["a/b"]) == {"a/b", "a/b/c"}
    ensures NoImageNamedLikeVariant(p) && !Unambiguous(p) && !NamesAreSafe(p)
  {
    hide NodeIDs, NamesAreSafe;
    assert Owns(p, "a", "a/b/c") && Owns(p, "a/b", "a/b/c");
    assert !Unambiguous(p);
    SafeIffUnambiguous(p);
  }
}

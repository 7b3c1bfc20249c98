/** The variant graph refines the image graph: an image depends on another one exactly when one of its
    nodes depends on a node of the other. */
module VariantRefinement {
  import opened Wrappers
  import opened Digraphs
  import opened Project
  import opened ImageGraph
  import opened VariantGraph

  /** Some node of image n depends on some node of image t. */
  ghost predicate LeadsOver(project: Project, vg: Digraph, n: string, t: string) {
    exists u, w :: Owns(project, n, u) && Owns(project, t, w) && w in vg.Deps(u)
  }

  // ---------- every tag has a target ----------

  lemma {:induction false} LongestAmong(images: seq<Image>, tag: string, among: set<(int, string)>) returns (i: int, v: string)
    requires among != {} && forall x :: x in among ==> Selects(images, tag, x.0, x.1)
    ensures Selects(images, tag, i, v)
    ensures forall x :: x in among && Selects(images, tag, x.0, x.1) ==> |images[x.0].variants[x.1].tagSuffix| <= |images[i].variants[v].tagSuffix|
    decreases among
  {
    hide HasSuffix;
    var x :| x in among;
    if among == {x} {
      i, v := x.0, x.1;
    } else {
      assert among - {x} != {} by { assert among == (among - {x}) + {x}; }
      i, v := LongestAmong(images, tag, among - {x});
      if |images[i].variants[v].tagSuffix| < |images[x.0].variants[x.1].tagSuffix| {
        i, v := x.0, x.1;
      }
    }
  }

  lemma TargetExists(imageName: string, images: seq<Image>, tag: string)
    ensures exists to :: IsTarget(imageName, images, tag, to)
  {
    var all := set i, v | 0 <= i < |images| && v in images[i].variants && Selects(images, tag, i, v) :: (i, v);
    if j, w :| Selects(images, tag, j, w) {
      assert (j, w) in all;
      var i, v := LongestAmong(images, tag, all);
      forall k, x | Selects(images, tag, k, x) ensures |images[k].variants[x].tagSuffix| <= |images[i].variants[v].tagSuffix| {
        assert (k, x) in all;
      }
      assert SelectsLongest(images, tag, i, v);
      assert IsTarget(imageName, images, tag, VariantNodeID(imageName, v));
    } else {
      assert IsTarget(imageName, images, tag, imageName);
    }
  }

  // ---------- every image edge comes from a claim ----------

  /** The claim asks for image t, by a tag or for its base. */
  ghost predicate AsksFor(c: Claim, t: string) {
    match c.demand
    case OnNode(name) => name == t
    case OnTag(image, _) => image == t
  }

  ghost predicate IsClaimOn(claims: set<Claim>, n: string, img: Image, t: string) {
    exists c :: c in claims && c.image == n && AsksFor(c, t) && (c.node == n || exists v :: v in img.variants && c.node == VariantNodeID(n, v))
  }

  lemma BaseClaimOn(n: string, img: Image, d: Demand, t: string)
    requires d in NodeDemands("", img.entryPoint, ImageParentRef(img)) + DependsOnDemands(img.dependsOn)
    requires AsksFor(Claim(n, n, d), t)
    ensures IsClaimOn(ImageClaims(n, img), n, img, t)
  {
    hide NodeDemands, DependsOnDemands, ImageParentRef, VariantsClaims;
    assert Claim(n, n, d) in BaseClaims(n, img);
  }

  lemma VariantClaimOn(n: string, img: Image, v: string, d: Demand, t: string)
    requires v in img.variants && d in NodeDemands(n, img.variants[v].entryPoint, VariantParentRef(img, img.variants[v]))
    requires AsksFor(Claim(n, VariantNodeID(n, v), d), t)
    ensures IsClaimOn(ImageClaims(n, img), n, img, t)
  {
    hide NodeDemands, DependsOnDemands, VariantParentRef, BaseClaims;
    assert Claim(n, VariantNodeID(n, v), d) in VariantClaims(n, img, v);
    assert Claim(n, VariantNodeID(n, v), d) in VariantsClaims(n, img, img.variants.Keys);
  }

  /** A reference in a Dockerfile. */
  lemma EntryClaim(n: string, img: Image, t: string)
    requires (n, t) in ImageEntryEdges(n, img)
    ensures IsClaimOn(ImageClaims(n, img), n, img, t)
  {
    hide IsClaimOn, ImageClaims;
    if (n, t) in RefEdges(n, Refs(img.entryPoint)) {
      var r :| r in Refs(img.entryPoint) && r.imageName == t;
      assert OnTag(t, r.tag) in RefDemands(Refs(img.entryPoint));
      BaseClaimOn(n, img, OnTag(t, r.tag), t);
    } else {
      var v :| v in img.variants && (n, t) in RefEdges(n, Refs(img.variants[v].entryPoint));
      var r :| r in Refs(img.variants[v].entryPoint) && r.imageName == t;
      assert OnTag(t, r.tag) in RefDemands(Refs(img.variants[v].entryPoint));
      VariantClaimOn(n, img, v, OnTag(t, r.tag), t);
    }
  }

  /** A backend parent of the image or of a variant. */
  lemma ParentClaim(n: string, img: Image, p: string, t: string)
    requires p in ParentRefs(img) && ParseParent(p).Some? && ParseParent(p).value.imageName == t
    ensures IsClaimOn(ImageClaims(n, img), n, img, t)
  {
    hide IsClaimOn, ImageClaims, ImageParentRef, VariantParentRef, ParseParent;
    var d := OnTag(t, ParseParent(p).value.tag);
    assert d in ParentDemands(p);
    if p == ImageParentRef(img) {
      BaseClaimOn(n, img, d, t);
    } else {
      var v :| v in img.variants && p == VariantParentRef(img, img.variants[v]);
      VariantClaimOn(n, img, v, d, t);
    }
  }

  /** A parent that the merge accepts as a reference is one for the scan. */
  lemma ReferenceParses(p: string)
    requires DeclaredParent(p).Reference?
    ensures ParseParent(p).Some? && ParseParent(p).value.imageName == DeclaredParent(p).name
  {
  }

  lemma DeclaredClaim(n: string, img: Image, t: string)
    requires (n, t) in ImageDeclaredEdges(n, img)
    ensures IsClaimOn(ImageClaims(n, img), n, img, t)
  {
    hide IsClaimOn, ImageClaims, ParentRefs, DeclaredParent, ParseParent, NodeDemands;
    if t in img.dependsOn {
      assert OnNode(t) in DependsOnDemands(img.dependsOn);
      BaseClaimOn(n, img, OnNode(t), t);
    } else {
      var p :| p in ParentRefs(img) && (n, t) in DeclaredParentEdges(n, p);
      ReferenceParses(p);
      ParentClaim(n, img, p, t);
    }
  }

  lemma ScannedParentClaim(nodes: set<string>, n: string, img: Image, t: string)
    requires (n, t) in ImageParentEdges(nodes)(n, img)
    ensures IsClaimOn(ImageClaims(n, img), n, img, t)
  {
    hide IsClaimOn, ImageClaims, ParentRefs, ParseParent;
    var p :| p in ParentRefs(img) && (n, t) in ParentEdges(nodes, n, p);
    ParentClaim(n, img, p, t);
  }

  /** An image definition of n draws the edge, from wherever it comes. */
  ghost predicate Draws(nodes: set<string>, n: string, img: Image, t: string) {
    (n, t) in ImageEntryEdges(n, img) || (n, t) in ImageParentEdges(nodes)(n, img) || (n, t) in ImageDeclaredEdges(n, img)
  }

  lemma DrawnBy(project: Project, n: string, t: string) returns (k: nat)
    requires (n, t) in MergedEdges(project)
    ensures n in project && k < |project[n]| && Draws(project.Keys, n, project[n][k], t)
  {
    hide ImageEntryEdges, ImageParentEdges, ImageDeclaredEdges;
    var e := (n, t);
    if e in OverNames(ImageEntryEdges, project, project.Keys) {
      var m :| m in project && e in OverImages(ImageEntryEdges, m, project[m]);
      k :| 0 <= k < |project[m]| && e in ImageEntryEdges(m, project[m][k]);
      EntryStartsAt(m, project[m][k], e);
    } else if e in OverNames(ImageParentEdges(project.Keys), project, project.Keys) {
      var m :| m in project && e in OverImages(ImageParentEdges(project.Keys), m, project[m]);
      k :| 0 <= k < |project[m]| && e in ImageParentEdges(project.Keys)(m, project[m][k]);
      ParentStartsAt(project.Keys, m, project[m][k], e);
    } else {
      var m :| m in project && e in OverImages(ImageDeclaredEdges, m, project[m]);
      k :| 0 <= k < |project[m]| && e in ImageDeclaredEdges(m, project[m][k]);
      DeclaredStartsAt(m, project[m][k], e);
    }
  }

  lemma EdgeClaim(project: Project, n: string, t: string) returns (c: Claim)
    requires (n, t) in MergedEdges(project)
    ensures c in ProjectClaims(project, project.Keys) && c.image == n && AsksFor(c, t) && Owns(project, n, c.node)
  {
    hide ImageEntryEdges, ImageParentEdges, ImageDeclaredEdges, MergedEdges, ImageClaims;
    var k := DrawnBy(project, n, t);
    var img := project[n][k];
    if (n, t) in ImageEntryEdges(n, img) {
      EntryClaim(n, img, t);
    } else if (n, t) in ImageParentEdges(project.Keys)(n, img) {
      ScannedParentClaim(project.Keys, n, img, t);
    } else {
      DeclaredClaim(n, img, t);
    }
    c :| c in ImageClaims(n, img) && c.image == n && AsksFor(c, t) && (c.node == n || exists v :: v in img.variants && c.node == VariantNodeID(n, v));
    assert c in ImagesClaims(n, project[n]);
  }

  // ---------- and every claim becomes an edge ----------

  /** A claim on another image is met by a node of that image, and never by the node itself. */
  lemma ClaimLeadsOver(project: Project, vg: Digraph, c: Claim, t: string)
    requires IsVariantGraph(project, vg) && Unambiguous(project)
    requires c in ProjectClaims(project, project.Keys) && AsksFor(c, t) && Owns(project, c.image, c.node)
    requires t in project && t != c.image
    ensures LeadsOver(project, vg, c.image, t)
  {
    hide ProjectClaims, Justified, IsTarget;
    assert Met(project, vg, c);
    SomethingAnswers(project, c, t);
    var to :| Answers(project, c, to) && (to in vg.Deps(c.node) || to == c.node || to !in vg.nodes);
    AnswerOwned(project, c, t, to);
    hide Answers, Met, Serves, Digraph.Deps;
    assert to in AllNodes(project);
    assert to != c.node;
  }

  lemma SomethingAnswers(project: Project, c: Claim, t: string)
    requires AsksFor(c, t) && t in project && t != c.image
    ensures exists to :: Answers(project, c, to)
  {
    hide IsTarget;
    match c.demand
    case OnNode(name) => assert Answers(project, c, t);
    case OnTag(image, tag) =>
      TargetExists(t, project[t], tag);
      var to :| IsTarget(t, project[t], tag, to);
      assert Answers(project, c, to);
  }

  lemma AnswerOwned(project: Project, c: Claim, t: string, to: string)
    requires AsksFor(c, t) && t in project && Answers(project, c, to)
    ensures Owns(project, t, to)
  {
    hide IsTarget;
    match c.demand
    case OnNode(name) =>
    case OnTag(image, tag) => TargetOwned(project, t, tag, to);
  }

  /** For an accepted project without shared nodes: one image depends on another in the image graph if
      and only if some node of the one depends on some node of the other in the variant graph. */
  lemma RefinesImageGraph(project: Project, ig: Digraph, vg: Digraph, n: string, t: string)
    requires Accepted(project) && IsImageGraph(project, ig) && IsVariantGraph(project, vg) && Unambiguous(project)
    requires n in project && t in project && n != t
    ensures t in ig.Deps(n) <==> LeadsOver(project, vg, n, t)
  {
    hide Accepted, MergedEdges, Projects;
    if t in ig.Deps(n) {
      var c := EdgeClaim(project, n, t);
      ClaimLeadsOver(project, vg, c, t);
    } else if LeadsOver(project, vg, n, t) {
      var u, w :| Owns(project, n, u) && Owns(project, t, w) && w in vg.Deps(u);
      EdgeProjects(project, ig, vg, u, w);
      var i :| Projects(project, ig, i, u, w);
      ProjectsBetween(project, ig, i, n, t, u, w);
    }
  }

  lemma ProjectsBetween(project: Project, ig: Digraph, i: string, n: string, t: string, u: string, w: string)
    requires Unambiguous(project) && Projects(project, ig, i, u, w)
    requires Owns(project, n, u) && Owns(project, t, w) && n != t
    ensures t in ig.Deps(n)
  {
    hide Digraph.Deps;
    assert i == n;
    if w == i {
      OwnsSelf(project, i);
    }
  }
}

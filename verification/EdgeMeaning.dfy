/** Where the edges of both graphs come from, in terms of the fields of images and variants: Dockerfile
    references, declared dependencies, and the parent of the backend in use. */
module EdgeMeaning {
  import opened Wrappers
  import opened Digraphs
  import opened Project
  import opened ImageGraph
  import opened VariantGraph
  import opened VariantRefinement

  // ---------- parents ----------

  /** The text names tag t of image b: __hive__/b:t, cut at the last colon. */
  ghost predicate Names(p: string, b: string, t: string) {
    b != "" && ':' !in t && p == "__hive__/" + b + ":" + t
  }

  /** The image's own parent: that of its backend. */
  ghost predicate HasParent(img: Image, p: string) {
    (img.backend == "nix" && p == img.nixParent) || (img.backend == "chisel" && p == img.chiselParent)
  }

  /** The variant is on its own backend, or without one on that of the image. */
  ghost predicate OnBackend(img: Image, v: string, backend: string)
    requires v in img.variants
  {
    img.variants[v].backend == backend || (img.variants[v].backend == "" && img.backend == backend)
  }

  /** The variant's parent on its backend: its own, or without one that of the image. */
  ghost predicate VariantHasParent(img: Image, v: string, p: string) {
    && v in img.variants
    && (|| (OnBackend(img, v, "nix") && (img.variants[v].nixParent == Some(p) || (img.variants[v].nixParent == None && img.nixParent == p)))
        || (OnBackend(img, v, "chisel") && (img.variants[v].chiselParent == Some(p) || (img.variants[v].chiselParent == None && img.chiselParent == p))))
  }

  lemma ParentIff(img: Image, p: string)
    requires p != ""
    ensures ImageParentRef(img) == p <==> HasParent(img, p)
    ensures forall v :: v in img.variants ==> (VariantParentRef(img, img.variants[v]) == p <==> VariantHasParent(img, v, p))
  {
  }

  /** An image has a parent if it or one of its variants has. */
  ghost predicate AnyParent(img: Image, p: string) {
    HasParent(img, p) || exists v :: VariantHasParent(img, v, p)
  }

  lemma ParentsIff(img: Image, p: string)
    ensures p in ParentRefs(img) <==> p != "" && AnyParent(img, p)
  {
    if p != "" {
      ParentIff(img, p);
    }
    hide ImageParentRef, VariantParentRef, HasParent;
    if p in ParentRefs(img) {
      if p != ImageParentRef(img) {
        var v :| v in img.variants && p == VariantParentRef(img, img.variants[v]);
        assert VariantHasParent(img, v, p);
      }
    }
    if p != "" && !HasParent(img, p) && AnyParent(img, p) {
      var v :| VariantHasParent(img, v, p);
      assert v in img.variants && VariantParentRef(img, img.variants[v]) == p;
    }
  }

  lemma {:induction false} LastColonAt(b: string, t: string)
    requires ':' !in t
    ensures LastColon(b + ":" + t) == |b|
    decreases |t|
  {
    var s := b + ":" + t;
    if t != "" {
      assert s[|s|-1] == t[|t|-1] && t[|t|-1] in t;
      assert s[..|s|-1] == b + ":" + t[..|t|-1];
      LastColonAt(b, t[..|t|-1]);
    }
  }

  lemma HivePrefix(p: string)
    ensures HIVE_PREFIX == "__hive__/" && HIVE_PARENT_PLACEHOLDER == "__hive_parent__"
    ensures HIVE_PREFIX <= p ==> p != HIVE_PARENT_PLACEHOLDER && p != "" && p == HIVE_PREFIX + p[|HIVE_PREFIX|..]
  {
    assert HIVE_PREFIX[7] != HIVE_PARENT_PLACEHOLDER[7];
  }

  /** The scan reads exactly the texts that name a tag. */
  lemma ParseIff(p: string, b: string, t: string)
    ensures ParseParent(p) == Some(HiveRef(b, t)) <==> Names(p, b, t)
  {
    if Names(p, b, t) {
      ParseNamed(p, b, t);
    }
    if ParseParent(p) == Some(HiveRef(b, t)) {
      NamedParse(p, b, t);
    }
    hide *;
  }

  lemma ParseNamed(p: string, b: string, t: string)
    requires Names(p, b, t)
    ensures ParseParent(p) == Some(HiveRef(b, t))
  {
    HivePrefix(p);
    var rest := b + ":" + t;
    assert p == HIVE_PREFIX + rest;
    assert HIVE_PREFIX <= p && p[|HIVE_PREFIX|..] == rest;
    LastColonAt(b, t);
    assert rest[..|b|] == b && rest[|b|+1..] == t;
  }

  lemma NamedParse(p: string, b: string, t: string)
    requires ParseParent(p) == Some(HiveRef(b, t))
    ensures Names(p, b, t)
  {
    HivePrefix(p);
    var rest := p[|HIVE_PREFIX|..];
    var idx := LastColon(rest);
    assert rest == rest[..idx] + ":" + rest[idx+1..];
    assert p == HIVE_PREFIX + (b + ":" + t);
    assert p == "__hive__/" + b + ":" + t;
    forall i | 0 <= i < |t| ensures t[i] != ':' {
      assert rest[idx + 1 + i] == t[i];
    }
  }

  /** The merge takes a text for a reference exactly if it names a nonempty tag. */
  lemma ReferenceIff(p: string, b: string)
    ensures DeclaredParent(p) == Reference(b) <==> exists t :: t != "" && Names(p, b, t)
  {
    HivePrefix(p);
    if t :| t != "" && Names(p, b, t) {
      ParseIff(p, b, t);
    }
    if DeclaredParent(p) == Reference(b) {
      var rest := p[|HIVE_PREFIX|..];
      var t := rest[LastColon(rest)+1..];
      ParseIff(p, b, t);
      assert t != "" && Names(p, b, t);
    }
  }

  /** It finds fault with exactly the other texts that begin like a reference. */
  lemma MalformedIff(p: string)
    ensures DeclaredParent(p) == Malformed <==> "__hive__/" <= p && forall b, t :: Names(p, b, t) ==> t == ""
  {
    HivePrefix(p);
    forall b ensures DeclaredParent(p) == Reference(b) <==> exists t :: t != "" && Names(p, b, t) {
      ReferenceIff(p, b);
    }
    if DeclaredParent(p).Reference? {
      var t :| t != "" && Names(p, DeclaredParent(p).name, t);
    }
    assert forall b, t :: Names(p, b, t) && t != "" ==> DeclaredParent(p) == Reference(b);
  }

  // ---------- which projects are accepted ----------

  /** A parent the merge has nothing to say against. */
  ghost predicate GoodParent(project: Project, p: string) {
    "__hive__/" <= p ==> exists b, t :: Names(p, b, t) && t != "" && b in project
  }

  ghost predicate GoodImage(project: Project, img: Image) {
    (forall d :: d in img.dependsOn ==> d in project) && forall p :: AnyParent(img, p) ==> GoodParent(project, p)
  }

  lemma NamesUnique(p: string, b: string, t: string, c: string, u: string)
    requires Names(p, b, t) && Names(p, c, u)
    ensures b == c && t == u
  {
    ParseIff(p, b, t);
    ParseIff(p, c, u);
    hide ParseParent, Names;
  }

  lemma GoodParentIff(project: Project, n: string, p: string)
    ensures (forall e :: !BadParent(project, n, p, e)) <==> GoodParent(project, p)
  {
    MalformedIff(p);
    HivePrefix(p);
    match DeclaredParent(p)
    case NoReference =>
    case Malformed => assert BadParent(project, n, p, MalformedParent(n, p));
    case Reference(b) =>
      ReferenceIff(p, b);
      var t :| t != "" && Names(p, b, t);
      if GoodParent(project, p) {
        var c, u :| Names(p, c, u) && u != "" && c in project;
        NamesUnique(p, b, t, c, u);
      }
      if b !in project { assert BadParent(project, n, p, UnknownParent(n, p)); }
  }

  lemma GoodImageIff(project: Project, n: string, img: Image)
    ensures (forall e :: !ImageProblem(project, n, img, e)) <==> GoodImage(project, img)
  {
    forall p ensures (forall e :: !BadParent(project, n, p, e)) <==> GoodParent(project, p) {
      GoodParentIff(project, n, p);
    }
    forall p ensures p in ParentRefs(img) <==> p != "" && AnyParent(img, p) {
      ParentsIff(img, p);
    }
    assert GoodParent(project, "");
    hide BadParent, GoodParent, ParentRefs, AnyParent;
    if forall e :: !ImageProblem(project, n, img, e) {
      forall d | d in img.dependsOn ensures d in project {
        assert !ImageProblem(project, n, img, UnknownDependency(n, d));
        assert d !in project ==> BadDependency(project, n, d, UnknownDependency(n, d));
      }
      forall p | AnyParent(img, p) ensures GoodParent(project, p) {
        if p != "" {
          forall e ensures !BadParent(project, n, p, e) {
            assert !ImageProblem(project, n, img, e);
          }
        }
      }
    }
  }

  /** A project is accepted exactly if every declared dependency is an image, and every parent in use
      that begins like a reference names a nonempty tag of one. */
  lemma AcceptedIff(project: Project)
    ensures Accepted(project) <==> forall n, k :: n in project && 0 <= k < |project[n]| ==> GoodImage(project, project[n][k])
  {
    forall n, k | n in project && 0 <= k < |project[n]|
      ensures (forall e :: !ImageProblem(project, n, project[n][k], e)) <==> GoodImage(project, project[n][k])
    {
      GoodImageIff(project, n, project[n][k]);
    }
    hide ImageProblem, GoodImage;
    if Accepted(project) {
      forall n, k | n in project && 0 <= k < |project[n]| ensures GoodImage(project, project[n][k]) {
        forall e ensures !ImageProblem(project, n, project[n][k], e) {
          assert !Problem(project, e);
        }
      }
    }
  }

  // ---------- the image graph ----------

  ghost predicate RefersTo(entryPoint: EntryPoint, b: string) {
    entryPoint.Dockerfile? && exists r :: r in entryPoint.refs && r.imageName == b
  }

  /** A Dockerfile of the image or of a variant refers to b. */
  ghost predicate AnyReference(img: Image, b: string) {
    RefersTo(img.entryPoint, b) || exists v :: v in img.variants && RefersTo(img.variants[v].entryPoint, b)
  }

  ghost predicate ParentNames(img: Image, b: string) {
    exists p, t :: AnyParent(img, p) && Names(p, b, t)
  }

  /** One definition of image n makes it depend on b. */
  ghost predicate DependsOn(n: string, img: Image, b: string) {
    b in img.dependsOn || (b != n && (AnyReference(img, b) || ParentNames(img, b)))
  }

  lemma EntryEdgeIff(n: string, img: Image, b: string)
    ensures (n, b) in ImageEntryEdges(n, img) <==> b != n && AnyReference(img, b)
  {
    RefEdgeIff(n, img.entryPoint, b);
    forall v | v in img.variants ensures (n, b) in RefEdges(n, Refs(img.variants[v].entryPoint)) <==> b != n && RefersTo(img.variants[v].entryPoint, b) {
      RefEdgeIff(n, img.variants[v].entryPoint, b);
    }
    hide RefEdges, RefersTo, Refs;
    if exists v :: v in img.variants && RefersTo(img.variants[v].entryPoint, b) {
      var v :| v in img.variants && RefersTo(img.variants[v].entryPoint, b);
      assert b != n ==> (n, b) in VariantEntryEdges(n, img, img.variants.Keys);
    }
  }

  lemma RefEdgeIff(n: string, entryPoint: EntryPoint, b: string)
    ensures (n, b) in RefEdges(n, Refs(entryPoint)) <==> b != n && RefersTo(entryPoint, b)
  {
    if RefersTo(entryPoint, b) {
      var r :| r in entryPoint.refs && r.imageName == b;
      assert b != n ==> (n, r.imageName) in RefEdges(n, entryPoint.refs);
    }
  }

  lemma ParentEdgeIff(project: Project, n: string, img: Image, b: string)
    requires b in project
    ensures (n, b) in ImageParentEdges(project.Keys)(n, img) <==> b != n && ParentNames(img, b)
  {
    hide ParentRefs, AnyParent, Names, ParentEdges;
    if (n, b) in ImageParentEdges(project.Keys)(n, img) {
      var p :| p in ParentRefs(img) && (n, b) in ParentEdges(project.Keys, n, p);
      ParentsIff(img, p);
      var t := TagOfEdge(project.Keys, n, p, b);
      assert AnyParent(img, p) && Names(p, b, t);
    }
    if b != n && ParentNames(img, b) {
      var p, t :| AnyParent(img, p) && Names(p, b, t);
      NamesSomething(p, b, t);
      ParentsIff(img, p);
      NamedEdge(project.Keys, n, p, b, t);
      assert (n, b) in AllParentEdges(project.Keys, n, ParentRefs(img));
    }
  }

  lemma TagOfEdge(nodes: set<string>, n: string, p: string, b: string) returns (t: string)
    requires (n, b) in ParentEdges(nodes, n, p)
    ensures Names(p, b, t) && b != n
  {
    hide ParseParent;
    t := ParseParent(p).value.tag;
    ParseIff(p, b, t);
  }

  lemma NamedEdge(nodes: set<string>, n: string, p: string, b: string, t: string)
    requires Names(p, b, t) && b in nodes && b != n
    ensures (n, b) in ParentEdges(nodes, n, p)
  {
    hide ParseParent;
    ParseIff(p, b, t);
  }

  lemma NamesSomething(p: string, b: string, t: string)
    requires Names(p, b, t)
    ensures p != "" && "__hive__/" <= p
  {
    assert p == "__hive__/" + (b + ":" + t);
  }

  lemma DeclaredEdgeIff(project: Project, n: string, img: Image, b: string)
    ensures (n, b) in ImageDeclaredEdges(n, img) ==> b in img.dependsOn || (b != n && ParentNames(img, b))
    ensures b in img.dependsOn ==> (n, b) in ImageDeclaredEdges(n, img)
  {
    forall p ensures p in ParentRefs(img) <==> p != "" && AnyParent(img, p) {
      ParentsIff(img, p);
    }
    forall p ensures DeclaredParent(p) == Reference(b) <==> exists t :: t != "" && Names(p, b, t) {
      ReferenceIff(p, b);
    }
    hide ParentRefs, AnyParent, DeclaredParent, Names;
    if (n, b) in AllDeclaredParentEdges(n, ParentRefs(img)) {
      var p :| p in ParentRefs(img) && (n, b) in DeclaredParentEdges(n, p);
      var t :| t != "" && Names(p, b, t);
      assert ParentNames(img, b);
    }
  }

  /** In an accepted project every parent that is named exists. */
  lemma NamedParentExists(project: Project, n: string, k: nat, b: string)
    requires Accepted(project) && n in project && k < |project[n]| && ParentNames(project[n][k], b)
    ensures b in project
  {
    AcceptedIff(project);
    assert GoodImage(project, project[n][k]);
    hide Accepted, AnyParent;
    var p, t :| AnyParent(project[n][k], p) && Names(p, b, t);
    NamesSomething(p, b, t);
    var c, u :| Names(p, c, u) && u != "" && c in project;
    NamesUnique(p, b, t, c, u);
  }

  /** The dependencies of an image: its declared ones, the other images its Dockerfiles refer to, and
      those that the parents in use name. */
  lemma ImageEdgeIff(project: Project, g: Digraph, n: string, b: string)
    requires Accepted(project) && IsImageGraph(project, g)
    ensures b in g.Deps(n) <==> n in project && exists k :: 0 <= k < |project[n]| && DependsOn(n, project[n][k], b)
  {
    hide Accepted, DependsOn, Draws, Digraph.Deps, MergedEdges;
    if b in g.Deps(n) {
      var k := DrawnBy(project, n, b);
      DrawsDepends(project, n, k, b);
    }
    if n in project {
      if k :| 0 <= k < |project[n]| && DependsOn(n, project[n][k], b) {
        DependsDraws(project, n, k, b);
      }
    }
  }

  lemma DrawsDepends(project: Project, n: string, k: nat, b: string)
    requires n in project && k < |project[n]| && Draws(project.Keys, n, project[n][k], b)
    ensures DependsOn(n, project[n][k], b)
  {
    var img := project[n][k];
    EntryEdgeIff(n, img, b);
    DeclaredEdgeIff(project, n, img, b);
    hide ImageEntryEdges, ImageDeclaredEdges, AnyReference, ParentNames;
    if (n, b) in ImageParentEdges(project.Keys)(n, img) {
      ParentTargetsKnown(project.Keys, n, img, b);
      ParentEdgeIff(project, n, img, b);
    }
  }

  lemma ParentTargetsKnown(nodes: set<string>, n: string, img: Image, b: string)
    requires (n, b) in ImageParentEdges(nodes)(n, img)
    ensures b in nodes
  {
    hide ParentRefs, ParseParent;
  }

  lemma DependsDraws(project: Project, n: string, k: nat, b: string)
    requires Accepted(project) && n in project && k < |project[n]| && DependsOn(n, project[n][k], b)
    ensures (n, b) in MergedEdges(project)
  {
    var img := project[n][k];
    EntryEdgeIff(n, img, b);
    DeclaredEdgeIff(project, n, img, b);
    hide ImageEntryEdges, ImageDeclaredEdges, AllParentEdges, MergedEdges, AnyReference, ParentRefs, Accepted;
    if b !in img.dependsOn && ParentNames(img, b) {
      NamedParentExists(project, n, k, b);
      hide ParentNames;
      ParentEdgeIff(project, n, img, b);
      assert (n, b) in AllParentEdges(project.Keys, n, ParentRefs(img));
    }
    hide ParentNames;
    EntryEdgeIsMerged(project, n, k, (n, b));
  }

  /** In particular, of any project: an image on the nix backend depends on the image its nix parent
      names, and one on the chisel backend on the image its chisel parent names. */
  lemma BackendParentEdge(project: Project, g: Digraph, n: string, k: nat, b: string, t: string)
    requires IsImageGraph(project, g) && n in project && k < |project[n]| && b in project && b != n && b != "" && ':' !in t
    ensures project[n][k].backend == "nix" && project[n][k].nixParent == "__hive__/" + b + ":" + t ==> b in g.Deps(n)
    ensures project[n][k].backend == "chisel" && project[n][k].chiselParent == "__hive__/" + b + ":" + t ==> b in g.Deps(n)
  {
    var img, p := project[n][k], "__hive__/" + b + ":" + t;
    assert Names(p, b, t);
    if HasParent(img, p) {
      NamedParentDraws(project, n, k, p, b, t);
    }
    hide MergedEdges;
  }

  /** The same for the parents of variants, own or inherited, on their own backend or that of the image. */
  lemma VariantParentEdge(project: Project, g: Digraph, n: string, k: nat, v: string, b: string, t: string)
    requires IsImageGraph(project, g) && n in project && k < |project[n]| && b in project && b != n && b != "" && ':' !in t
    requires VariantHasParent(project[n][k], v, "__hive__/" + b + ":" + t)
    ensures b in g.Deps(n)
  {
    var img, p := project[n][k], "__hive__/" + b + ":" + t;
    assert Names(p, b, t) && AnyParent(img, p);
    hide VariantHasParent, Names, AnyParent;
    NamedParentDraws(project, n, k, p, b, t);
    hide MergedEdges;
  }

  lemma NamedParentDraws(project: Project, n: string, k: nat, p: string, b: string, t: string)
    requires n in project && k < |project[n]| && b in project && b != n && AnyParent(project[n][k], p) && Names(p, b, t)
    ensures (n, b) in MergedEdges(project)
  {
    assert ParentNames(project[n][k], b);
    hide AnyParent, Names, ParentNames;
    ParentEdgeIff(project, n, project[n][k], b);
    hide ImageEntryEdges, ImageDeclaredEdges, AllParentEdges, ParentRefs, MergedEdges;
    EntryEdgeIsMerged(project, n, k, (n, b));
  }

  // ---------- the variant graph ----------

  /** A reference of the Dockerfile asks for that tag. */
  ghost predicate FileWants(entryPoint: EntryPoint, d: Demand) {
    entryPoint.Dockerfile? && exists r :: r in entryPoint.refs && d == OnTag(r.imageName, r.tag)
  }

  ghost predicate TextWants(p: string, d: Demand) {
    exists b, t :: Names(p, b, t) && d == OnTag(b, t)
  }

  /** What the base node of an image asks for. */
  ghost predicate BaseWants(img: Image, d: Demand) {
    || FileWants(img.entryPoint, d)
    || (exists p :: HasParent(img, p) && TextWants(p, d))
    || (d.OnNode? && d.name in img.dependsOn)
  }

  /** What the node of a variant asks for: the same of its own, and the base of its image if its
      Dockerfile builds on __hive_parent__ or that is its parent. */
  ghost predicate VariantWants(n: string, img: Image, v: string, d: Demand)
    requires v in img.variants
  {
    || FileWants(img.variants[v].entryPoint, d)
    || (exists p :: VariantHasParent(img, v, p) && TextWants(p, d))
    || (d.OnNode? && d.name in img.dependsOn)
    || (n != "" && d == OnNode(n) && (UsesHiveParent(img.variants[v].entryPoint) || VariantHasParent(img, v, "__hive_parent__")))
  }

  ghost predicate UsesHiveParent(entryPoint: EntryPoint) {
    entryPoint.Dockerfile? && entryPoint.usesHiveParent
  }

  lemma FileWantsIff(entryPoint: EntryPoint, d: Demand)
    ensures d in RefDemands(Refs(entryPoint)) <==> FileWants(entryPoint, d)
  {
  }

  lemma TextWantsIff(p: string, d: Demand)
    ensures d in ParentDemands(p) <==> TextWants(p, d)
  {
    forall b, t ensures ParseParent(p) == Some(HiveRef(b, t)) <==> Names(p, b, t) {
      ParseIff(p, b, t);
    }
    hide ParseParent, Names;
    if d in ParentDemands(p) {
      var ref := ParseParent(p).value;
      assert ParseParent(p) == Some(HiveRef(ref.imageName, ref.tag));
      assert Names(p, ref.imageName, ref.tag);
    }
  }

  lemma NothingNamed(d: Demand)
    ensures !TextWants("", d)
  {
    TextWantsIff("", d);
  }

  lemma BaseWantsIff(img: Image, d: Demand)
    ensures d in NodeDemands("", img.entryPoint, ImageParentRef(img)) + DependsOnDemands(img.dependsOn) <==> BaseWants(img, d)
  {
    var parent := ImageParentRef(img);
    FileWantsIff(img.entryPoint, d);
    TextWantsIff(parent, d);
    NothingNamed(d);
    forall p ensures HasParent(img, p) && TextWants(p, d) <==> p == parent && TextWants(p, d) {
      if p != "" { ParentIff(img, p); }
    }
    hide FileWants, TextWants, HasParent, ImageParentRef, RefDemands, ParentDemands;
  }

  lemma VariantWantsIff(n: string, img: Image, v: string, d: Demand)
    requires v in img.variants
    ensures d in NodeDemands(n, img.variants[v].entryPoint, VariantParentRef(img, img.variants[v])) + DependsOnDemands(img.dependsOn)
      <==> VariantWants(n, img, v, d)
  {
    var parent := VariantParentRef(img, img.variants[v]);
    FileWantsIff(img.variants[v].entryPoint, d);
    TextWantsIff(parent, d);
    NothingNamed(d);
    HivePrefix("");
    ParentIff(img, "__hive_parent__");
    forall p ensures VariantHasParent(img, v, p) && TextWants(p, d) <==> p == parent && TextWants(p, d) {
      if p != "" { ParentIff(img, p); }
    }
    hide FileWants, TextWants, VariantHasParent, VariantParentRef, RefDemands, ParentDemands;
  }

  /** Some definition of image n makes its node u ask for d. */
  ghost predicate Wants(project: Project, n: string, u: string, d: Demand) {
    n in project && exists k :: 0 <= k < |project[n]| && ImageWants(n, project[n][k], u, d)
  }

  ghost predicate ImageWants(n: string, img: Image, u: string, d: Demand) {
    (u == n && BaseWants(img, d)) || exists v :: v in img.variants && u == n + "/" + v && VariantWants(n, img, v, d)
  }

  lemma ImageWantsIff(n: string, img: Image, c: Claim)
    ensures c in ImageClaims(n, img) <==> c.image == n && ImageWants(n, img, c.node, c.demand)
  {
    BaseWantsIff(img, c.demand);
    forall v | v in img.variants
      ensures c in VariantClaims(n, img, v) <==> c.image == n && c.node == n + "/" + v && VariantWants(n, img, v, c.demand)
    {
      VariantWantsIff(n, img, v, c.demand);
      hide NodeDemands, DependsOnDemands, VariantWants, VariantParentRef;
    }
    hide NodeDemands, DependsOnDemands, BaseWants, VariantWants, ImageParentRef, VariantParentRef, VariantClaims;
    assert c in BaseClaims(n, img) <==> c.image == n && c.node == n && BaseWants(img, c.demand);
    if v :| v in img.variants && c in VariantClaims(n, img, v) {
      assert c in VariantsClaims(n, img, img.variants.Keys);
    }
  }

  /** The variant scan asks for exactly what the fields of the project say. */
  lemma ClaimIff(project: Project, c: Claim)
    ensures c in ProjectClaims(project, project.Keys) <==> Wants(project, c.image, c.node, c.demand)
  {
    forall n, k | n in project && 0 <= k < |project[n]| ensures c in ImageClaims(n, project[n][k]) <==> c.image == n && ImageWants(n, project[n][k], c.node, c.demand) {
      ImageWantsIff(n, project[n][k], c);
    }
    hide ImageClaims, ImageWants;
    if c in ProjectClaims(project, project.Keys) {
      var n :| n in project && c in ImagesClaims(n, project[n]);
      var k :| 0 <= k < |project[n]| && c in ImageClaims(n, project[n][k]);
    }
    if Wants(project, c.image, c.node, c.demand) {
      var k :| 0 <= k < |project[c.image]| && ImageWants(c.image, project[c.image][k], c.node, c.demand);
      assert c in ImagesClaims(c.image, project[c.image]);
    }
  }

  /** w is what the demand of a node of n may lead to: the named node, or a node the tag of another
      image may select. */
  ghost predicate LeadsTo(project: Project, n: string, d: Demand, w: string) {
    match d
    case OnNode(name) => w == name
    case OnTag(b, t) => b != n && b in project && IsTarget(b, project[b], t, w)
  }

  /** The node's demand for a tag of another image is answered by an edge to a node it may select. */
  ghost predicate TagAnswered(project: Project, vg: Digraph, u: string, b: string, t: string) {
    b in project && exists w :: w in vg.Deps(u) && IsTarget(b, project[b], t, w)
  }

  /** Every edge of the variant graph answers what its node asks for. What a node asks for is answered
      by an edge: a node by name always, a tag of another image if no node is shared. */
  lemma NodeEdgeMeaning(project: Project, vg: Digraph, u: string)
    requires IsVariantGraph(project, vg)
    ensures forall w :: w in vg.Deps(u) ==> exists n, d :: Wants(project, n, u, d) && LeadsTo(project, n, d, w)
    ensures forall n, name :: Wants(project, n, u, OnNode(name)) && name != u && name in AllNodes(project) ==> name in vg.Deps(u)
    ensures Unambiguous(project) ==>
      forall n, b, t :: Wants(project, n, u, OnTag(b, t)) && Owns(project, n, u) && b != n && b in project ==> TagAnswered(project, vg, u, b, t)
  {
    forall w | w in vg.Deps(u) ensures exists n, d :: Wants(project, n, u, d) && LeadsTo(project, n, d, w) {
      EdgeIsWanted(project, vg, u, w);
    }
    forall n, name | Wants(project, n, u, OnNode(name)) && name != u && name in AllNodes(project) ensures name in vg.Deps(u) {
      NodeIsAnswered(project, vg, n, u, name);
    }
    if Unambiguous(project) {
      forall n, b, t | Wants(project, n, u, OnTag(b, t)) && Owns(project, n, u) && b != n && b in project ensures TagAnswered(project, vg, u, b, t) {
        TagIsAnswered(project, vg, n, u, b, t);
      }
    }
  }

  lemma EdgeIsWanted(project: Project, vg: Digraph, u: string, w: string)
    requires IsVariantGraph(project, vg) && w in vg.Deps(u)
    ensures exists n, d :: Wants(project, n, u, d) && LeadsTo(project, n, d, w)
  {
    hide ProjectClaims, AllNodes, IsTarget, Met, Wants;
    var claims := ProjectClaims(project, project.Keys);
    NoOldEdges(AllNodes(project), u);
    assert Justified(project, vg, claims, u, w);
    var c :| c in claims && c.node == u && Answers(project, c, w);
    ClaimIff(project, c);
    assert LeadsTo(project, c.image, c.demand, w);
  }

  lemma NoOldEdges(nodes: set<string>, u: string)
    ensures Digraph(nodes, map[]).Deps(u) == {}
  {
  }

  lemma TagIsAnswered(project: Project, vg: Digraph, n: string, u: string, b: string, t: string)
    requires IsVariantGraph(project, vg) && Wants(project, n, u, OnTag(b, t)) && b != n && b in project && Unambiguous(project) && Owns(project, n, u)
    ensures exists w :: w in vg.Deps(u) && IsTarget(b, project[b], t, w)
  {
    var c := Claim(n, u, OnTag(b, t));
    ClaimIff(project, c);
    hide ProjectClaims, IsTarget, Justified, Wants;
    assert Met(project, vg, c);
    TargetExists(b, project[b], t);
    var to :| IsTarget(b, project[b], t, to);
    assert Answers(project, c, to);
    var w :| Answers(project, c, w) && (w in vg.Deps(u) || w == u || w !in vg.nodes);
    TargetOwned(project, b, t, w);
    hide Met, Serves, Digraph.Deps;
    assert w in AllNodes(project);
  }

  lemma NodeIsAnswered(project: Project, vg: Digraph, n: string, u: string, name: string)
    requires IsVariantGraph(project, vg) && Wants(project, n, u, OnNode(name)) && name != u && name in AllNodes(project)
    ensures name in vg.Deps(u)
  {
    var c := Claim(n, u, OnNode(name));
    ClaimIff(project, c);
    hide ProjectClaims, Justified, Wants, AllNodes;
    assert Met(project, vg, c);
    assert Answers(project, c, name);
  }

  /** A suffix selects the tags that end in it. */
  lemma SuffixIff(tag: string, suffix: string)
    ensures HasSuffix(tag, suffix) <==> exists a :: tag == a + suffix
  {
    if HasSuffix(tag, suffix) {
      assert tag == tag[..|tag|-|suffix|] + suffix;
    }
    if a :| tag == a + suffix {
      assert tag[|tag|-|suffix|..] == suffix;
    }
  }
}

/** The layering of images by dependency depth, which orders the generated CI pipeline. */
module Depths {
  import opened Ordering
  import opened Digraphs

  /** The graph calculateDepths looks at: the images, and the dependency lists of images. */
  function ImageGraph(imageNames: set<string>, dependencies: map<string, seq<string>>): Digraph {
    Digraph(imageNames, map n | n in imageNames && n in dependencies :: dependencies[n])
  }

  // ---------- layers ----------

  /** What is resolved after k rounds. */
  ghost function Layer(g: Digraph, k: nat): set<string> {
    if k == 0 then {} else Layer(g, k - 1) + Ready(g, Layer(g, k - 1))
  }

  /** n is resolved in round k, counting from 0. */
  ghost predicate ResolvedIn(g: Digraph, n: string, k: nat) {
    n !in Layer(g, k) && n in Layer(g, k + 1)
  }

  /** The longest dependency chain from n has k edges. */
  ghost predicate LongestChain(g: Digraph, n: string, k: nat) {
    && (exists p :: IsPath(g, p) && p[0] == n && |p| == k + 1)
    && (forall p :: IsPath(g, p) && p[0] == n ==> |p| <= k + 1)
  }

  lemma {:induction false} LayerClosed(g: Digraph, k: nat, n: string)
    requires n in Layer(g, k)
    ensures k > 0 && n in g.Names()
    ensures g.Deps(n) <= Layer(g, k - 1)
  {
    hide Digraph.Deps, Digraph.Names;
    if n in Layer(g, k - 1) {
      LayerClosed(g, k - 1, n);
    } else {
      assert n in Ready(g, Layer(g, k - 1));
    }
  }

  /** A path that starts in a layer falls at least one layer at every step. */
  lemma {:induction false} PathBound(g: Digraph, k: nat, p: seq<string>)
    requires IsPath(g, p) && p[0] in Layer(g, k)
    ensures |p| <= k
    ensures p[|p|-1] in Layer(g, k + 1 - |p|)
    decreases |p|
  {
    hide Layer, Digraph.Deps, Digraph.Names;
    LayerClosed(g, k, p[0]);
    if |p| > 1 {
      assert p[1] in g.Deps(p[0]);
      SubPath(g, p, 1, |p| - 1);
      assert p[1..|p|-1+1] == p[1..];
      PathBound(g, k - 1, p[1..]);
    }
  }

  lemma {:induction false} LongestPath(g: Digraph, n: string, k: nat) returns (p: seq<string>)
    requires ResolvedIn(g, n, k)
    ensures IsPath(g, p) && p[0] == n && |p| == k + 1
    decreases k
  {
    if k == 0 {
      p := [n];
    } else {
      assert n !in Ready(g, Layer(g, k - 1)) && n in Ready(g, Layer(g, k));
      var d :| d in g.Deps(n) && d !in Layer(g, k - 1);
      var q := LongestPath(g, d, k - 1);
      PathConcat(g, [n, d], q);
      p := [n, d] + q[1..];
    }
  }

  lemma DepthIsLongestChain(g: Digraph, n: string, k: nat)
    requires ResolvedIn(g, n, k)
    ensures LongestChain(g, n, k)
  {
    var p := LongestPath(g, n, k);
    forall q | IsPath(g, q) && q[0] == n ensures |q| <= k + 1 {
      PathBound(g, k + 1, q);
    }
  }

  lemma {:induction false} NoCycleInLayer(g: Digraph, k: nat, n: string)
    requires n in Layer(g, k)
    ensures !OnCycle(g, n)
    decreases k
  {
    if OnCycle(g, n) {
      var p :| IsPathFromTo(g, p, n, n) && |p| > 1;
      PathBound(g, k, p);
      NoCycleInLayer(g, k + 1 - |p|, n);
    }
  }

  lemma LayerNotDoomed(g: Digraph, k: nat, n: string)
    requires n in Layer(g, k)
    ensures !Doomed(g, n)
  {
    if Doomed(g, n) {
      var m :| Reaches(g, n, m) && (m !in g.Names() || OnCycle(g, m));
      var p :| IsPathFromTo(g, p, n, m);
      PathBound(g, k, p);
      LayerClosed(g, k + 1 - |p|, m);
      NoCycleInLayer(g, k + 1 - |p|, m);
      assert false;
    }
  }

  /** When a round resolves nothing, everything that is left is doomed. */
  lemma LeftoverDoomed(g: Digraph, done: set<string>, n: string)
    requires Ready(g, done) == {} && n in g.Names() && n !in done
    ensures Doomed(g, n)
  {
    var u := g.Names() - done;
    forall x | x in u ensures exists d :: d in g.Deps(x) && (d in u || d !in g.Names()) {
      assert x !in Ready(g, done);
      var d :| d in g.Deps(x) && d !in done;
    }
    StuckIsDoomed(g, u, n);
  }

  // ---------- calculateDepths ----------

  /** Resolved images carry the length of their longest chain; the images that can never be
      resolved share one depth, the first one above every resolved image. */
  ghost predicate AreDepths(g: Digraph, depths: map<string, nat>) {
    && depths.Keys == g.nodes
    && (forall n :: n in depths && !Doomed(g, n) ==> LongestChain(g, n, depths[n]))
    && (forall n :: n in depths && Doomed(g, n) ==> StuckDepth(g, depths, depths[n]))
  }

  ghost predicate StuckDepth(g: Digraph, depths: map<string, nat>, k: nat) {
    && (forall m :: m in depths ==> if Doomed(g, m) then depths[m] == k else depths[m] < k)
    && (k > 0 ==> exists m :: m in depths && !Doomed(g, m) && depths[m] == k - 1)
  }

  method CalculateDepths(imageNames: set<string>, dependencies: map<string, seq<string>>)
    returns (depths: map<string, nat>)
    ensures AreDepths(ImageGraph(imageNames, dependencies), depths)
  {
    hide *;
    ghost var g := ImageGraph(imageNames, dependencies);
    depths := map[];
    var remaining := imageNames;
    var currentDepth := 0;
    NoRounds(g, depths);
    ImageGraphNodes(imageNames, dependencies);
    while remaining != {}
      invariant depths.Keys <= imageNames && remaining == imageNames - depths.Keys
      invariant AfterRounds(g, depths, currentDepth)
      decreases remaining
    {
      var ready := FindReady(imageNames, dependencies, remaining, depths);
      if ready == [] {
        Stuck(g, depths, currentDepth, remaining);
        depths := depths + map n | n in remaining :: currentDepth;
        return;
      }
      ghost var was := depths;
      assert ready[0] in remaining;
      for i := 0 to |ready|
        invariant depths == was + map n | n in ready[..i] :: currentDepth
        invariant remaining == imageNames - depths.Keys
      {
        DepthStep(was, ready[..i], ready[..i+1], ready[i], currentDepth);
        depths := depths[ready[i] := currentDepth];
        remaining := remaining - {ready[i]};
      }
      assert ready[..|ready|] == ready;
      Round(g, was, currentDepth, ready, depths);
      currentDepth := currentDepth + 1;
    }
    NothingLeft(imageNames, depths.Keys);
    AllResolved(g, depths, currentDepth);
  }

  lemma DepthStep(was: map<string, nat>, front: seq<string>, more: seq<string>, name: string, k: nat)
    requires more == front + [name]
    ensures (was + map n | n in front :: k)[name := k] == was + map n | n in more :: k
  {
  }

  /** The images all of whose dependencies have a depth. */
  method FindReady(imageNames: set<string>, dependencies: map<string, seq<string>>, remaining: set<string>, depths: map<string, nat>)
    returns (ready: seq<string>)
    requires depths.Keys <= imageNames && remaining == imageNames - depths.Keys
    ensures forall n :: n in ready ==> n in remaining
    ensures Elems(ready) == Ready(ImageGraph(imageNames, dependencies), depths.Keys)
  {
    ready := [];
    var todo := remaining;
    while todo != {}
      invariant todo <= remaining
      invariant forall n :: n in ready <==> n in remaining && n !in todo && Elems(Get(dependencies, n)) <= depths.Keys
      decreases |todo|
    {
      var name :| name in todo;
      var ok := AllHaveDepth(Get(dependencies, name), depths);
      if ok {
        ready := ready + [name];
      }
      todo := todo - {name};
    }
    ReadyImages(imageNames, dependencies, depths.Keys, ready);
  }

  method AllHaveDepth(deps: seq<string>, depths: map<string, nat>) returns (allResolved: bool)
    ensures allResolved <==> Elems(deps) <= depths.Keys
  {
    for i := 0 to |deps|
      invariant forall d :: d in deps[..i] ==> d in depths
    {
      if deps[i] !in depths {
        assert deps[i] in Elems(deps);
        return false;
      }
      PrefixStep(deps, i);
    }
    assert deps[..|deps|] == deps;
    return true;
  }

  lemma ReadyImages(imageNames: set<string>, dependencies: map<string, seq<string>>, done: set<string>, ready: seq<string>)
    requires forall n :: n in ready <==> n in imageNames - done && Elems(Get(dependencies, n)) <= done
    ensures Elems(ready) == Ready(ImageGraph(imageNames, dependencies), done)
  {
    var g := ImageGraph(imageNames, dependencies);
    assert g.Names() == imageNames;
    forall n | n in imageNames ensures g.Deps(n) == Elems(Get(dependencies, n)) {}
  }

  ghost predicate AfterRounds(g: Digraph, depths: map<string, nat>, k: nat) {
    && depths.Keys == Layer(g, k)
    && (forall n :: n in depths ==> depths[n] < k && ResolvedIn(g, n, depths[n]))
    && (k > 0 ==> exists n :: n in depths && depths[n] == k - 1)
  }

  lemma ImageGraphNodes(imageNames: set<string>, dependencies: map<string, seq<string>>)
    ensures ImageGraph(imageNames, dependencies).nodes == imageNames
    ensures ImageGraph(imageNames, dependencies).SourcesRegistered()
  {
  }

  lemma NothingLeft(all: set<string>, done: set<string>)
    requires done <= all && all - done == {}
    ensures done == all
  {
    assert forall n :: n in all ==> n !in all - done;
  }

  lemma NoRounds(g: Digraph, depths: map<string, nat>)
    requires depths == map[]
    ensures AfterRounds(g, depths, 0)
  {
  }

  lemma Round(g: Digraph, was: map<string, nat>, k: nat, ready: seq<string>, depths: map<string, nat>)
    requires AfterRounds(g, was, k)
    requires Elems(ready) == Ready(g, was.Keys) && ready != []
    requires depths == was + map n | n in ready :: k
    ensures AfterRounds(g, depths, k + 1)
  {
    hide Layer, Ready, ResolvedIn;
    RoundLayer(g, was, k, ready);
    DepthsAfter(was, k, ready, depths);
    assert ready[0] in ready;
    forall n | n in depths ensures depths[n] <= k && ResolvedIn(g, n, depths[n]) {
      assert n !in ready ==> n in was && depths[n] == was[n];
    }
    hide AfterRounds;
    RoundDone(g, depths, k, ready[0]);
  }

  lemma RoundDone(g: Digraph, depths: map<string, nat>, k: nat, last: string)
    requires depths.Keys == Layer(g, k + 1) && last in depths && depths[last] == k
    requires forall n :: n in depths ==> depths[n] <= k && ResolvedIn(g, n, depths[n])
    ensures AfterRounds(g, depths, k + 1)
  {
    hide Layer, ResolvedIn;
  }

  lemma RoundLayer(g: Digraph, was: map<string, nat>, k: nat, ready: seq<string>)
    requires was.Keys == Layer(g, k) && Elems(ready) == Ready(g, was.Keys)
    ensures Layer(g, k + 1) == was.Keys + Elems(ready)
    ensures forall n :: n in ready ==> ResolvedIn(g, n, k)
  {
    assert Layer(g, k + 1) == Layer(g, k) + Ready(g, Layer(g, k));
    hide Layer;
    forall n | n in ready ensures ResolvedIn(g, n, k) {
      assert n in Elems(ready);
    }
  }

  lemma DepthsAfter(was: map<string, nat>, k: nat, ready: seq<string>, depths: map<string, nat>)
    requires depths == was + map n | n in ready :: k
    ensures depths.Keys == was.Keys + Elems(ready)
    ensures forall n :: n in depths ==> if n in ready then depths[n] == k else n in was && depths[n] == was[n]
  {
  }

  lemma Resolved(g: Digraph, depths: map<string, nat>, k: nat, n: string)
    requires AfterRounds(g, depths, k) && n in depths
    ensures !Doomed(g, n) && LongestChain(g, n, depths[n]) && depths[n] < k
  {
    LayerNotDoomed(g, k, n);
    DepthIsLongestChain(g, n, depths[n]);
  }

  lemma AllResolved(g: Digraph, depths: map<string, nat>, k: nat)
    requires AfterRounds(g, depths, k) && depths.Keys == g.nodes
    ensures AreDepths(g, depths)
  {
    hide Doomed, LongestChain, AfterRounds;
    forall n | n in depths ensures !Doomed(g, n) && LongestChain(g, n, depths[n]) {
      Resolved(g, depths, k, n);
    }
  }

  lemma Stuck(g: Digraph, was: map<string, nat>, k: nat, remaining: set<string>)
    requires AfterRounds(g, was, k) && g.SourcesRegistered()
    requires Ready(g, was.Keys) == {} && remaining == g.nodes - was.Keys && was.Keys <= g.nodes
    ensures AreDepths(g, was + map n | n in remaining :: k)
  {
    hide Doomed, LongestChain, Ready, Layer;
    var depths := was + map n | n in remaining :: k;
    forall n | n in was ensures !Doomed(g, n) && LongestChain(g, n, depths[n]) && depths[n] < k {
      Resolved(g, was, k, n);
    }
    forall n | n in remaining ensures Doomed(g, n) && depths[n] == k {
      LeftoverDoomed(g, was.Keys, n);
    }
    if k > 0 {
      var m :| m in was && was[m] == k - 1;
      assert m in depths && depths[m] == k - 1;
    }
  }

  // ---------- the order of the CI images ----------

  datatype CIImage = CIImage(name: string, depth: nat)

  /** The order BuildCIContext sorts by: depth, then name. */
  predicate ByDepthName(a: CIImage, b: CIImage) {
    a.depth < b.depth || (a.depth == b.depth && LessEq(a.name, b.name))
  }

  /** Shallower images come first, and those of one depth in the strict order of their names. */
  ghost predicate IsLayered(images: seq<CIImage>) {
    forall i, j :: 0 <= i < j < |images| ==>
      images[i].depth < images[j].depth || (images[i].depth == images[j].depth && Less(images[i].name, images[j].name))
  }

  lemma SortedIsLayered(images: seq<CIImage>)
    requires NoDup(Names(images))
    ensures SortedBy(images, ByDepthName) <==> IsLayered(images)
  {
    var names := Names(images);
    hide Less;
    forall i, j | 0 <= i < j < |images| ensures images[i].name != images[j].name {
      assert names[i] != names[j];
    }
  }

  lemma ByDepthNameIsOrder()
    ensures TotalPreorder(ByDepthName)
  {
    StringOrder();
  }

  function Names(images: seq<CIImage>): (r: seq<string>)
    ensures |r| == |images| && forall i :: 0 <= i < |r| ==> r[i] == images[i].name
  {
    seq(|images|, i requires 0 <= i < |images| => images[i].name)
  }

  /** The depth and sort steps of BuildCIContext. */
  method OrderImages(imageNames: set<string>, dependencies: map<string, seq<string>>) returns (images: seq<CIImage>)
    ensures var g := ImageGraph(imageNames, dependencies);
      if |BuildOrder(g)| == |g.nodes| then IsBuildOrder(g, Names(images))
      else exists n, k :: CIImage(n, k) in images && Doomed(g, n)
    ensures NoDup(Names(images)) && Elems(Names(images)) == imageNames
    ensures IsLayered(images)
    ensures exists depths :: AreDepths(ImageGraph(imageNames, dependencies), depths) && ListsAll(imageNames, depths, images)
  {
    hide *;
    var depths := CalculateDepths(imageNames, dependencies);
    ghost var g := ImageGraph(imageNames, dependencies);
    ImageGraphNodes(imageNames, dependencies);
    DepthKeys(g, depths);
    var listed := ListImages(imageNames, depths);
    ByDepthNameIsOrder();
    images := SortBy(listed, ByDepthName);
    SortedImages(imageNames, depths, listed, images);
    if |BuildOrder(g)| == |g.nodes| {
      DepthOrderIsBuildOrder(g, depths, images);
    } else {
      SomeDoomed(g, depths, images);
    }
    SortedIsLayered(images);
  }

  method ListImages(imageNames: set<string>, depths: map<string, nat>) returns (images: seq<CIImage>)
    requires depths.Keys == imageNames
    ensures ListsAll(imageNames, depths, images) && NoDup(images)
  {
    images := [];
    var todo := imageNames;
    while todo != {}
      invariant todo <= imageNames && NoDup(images)
      invariant ListsAll(imageNames - todo, depths, images)
      decreases |todo|
    {
      var name :| name in todo;
      assert CIImage(name, depths[name]) !in images;
      images := images + [CIImage(name, depths[name])];
      todo := todo - {name};
    }
    assert imageNames - todo == imageNames;
  }

  ghost predicate ListsAll(names: set<string>, depths: map<string, nat>, images: seq<CIImage>) {
    forall c :: c in images <==> c.name in names && c.name in depths && c.depth == depths[c.name]
  }

  lemma DepthKeys(g: Digraph, depths: map<string, nat>)
    requires AreDepths(g, depths)
    ensures depths.Keys == g.nodes
  {
  }

  lemma SortedImages(imageNames: set<string>, depths: map<string, nat>, listed: seq<CIImage>, images: seq<CIImage>)
    requires depths.Keys == imageNames
    requires ListsAll(imageNames, depths, listed) && NoDup(listed)
    requires multiset(images) == multiset(listed)
    ensures ListsAll(imageNames, depths, images) && NoDup(Names(images)) && Elems(Names(images)) == imageNames
  {
    MultisetMembers(images, listed);
    NoDupMultiset(listed);
    MultisetNoDup(images, Elems(listed));
    var names := Names(images);
    forall i, j | 0 <= i < j < |names| ensures names[i] != names[j] {
      assert images[i] in images && images[j] in images;
    }
    forall n ensures n in names <==> n in imageNames {
      if n in imageNames {
        assert CIImage(n, depths[n]) in images;
        var i :| 0 <= i < |images| && images[i] == CIImage(n, depths[n]);
        assert names[i] == n;
      }
      if n in names {
        var i :| 0 <= i < |names| && names[i] == n;
        assert images[i] in images;
      }
    }
  }

  /** A dependency of a buildable image is strictly less deep. */
  lemma DependencyIsShallower(g: Digraph, depths: map<string, nat>, n: string, d: string)
    requires AreDepths(g, depths) && g.SourcesRegistered()
    requires n in g.nodes && !Doomed(g, n) && d in g.Deps(n)
    ensures d in g.nodes && !Doomed(g, d) && depths[d] < depths[n]
  {
    ReachesStep(g, n, d);
    if Doomed(g, d) { DoomedThrough(g, n, d); }
    ReachesSelf(g, d);
    assert g.Names() == g.nodes;
    assert LongestChain(g, d, depths[d]) && LongestChain(g, n, depths[n]);
    var p :| IsPath(g, p) && p[0] == d && |p| == depths[d] + 1;
    PathConcat(g, [n, d], p);
    assert IsPath(g, [n, d] + p[1..]);
  }

  lemma DepthOrderIsBuildOrder(g: Digraph, depths: map<string, nat>, images: seq<CIImage>)
    requires AreDepths(g, depths) && g.SourcesRegistered()
    requires |BuildOrder(g)| == |g.nodes|
    requires SortedBy(images, ByDepthName) && ListsAll(g.nodes, depths, images)
    requires NoDup(Names(images)) && Elems(Names(images)) == g.nodes
    ensures IsBuildOrder(g, Names(images))
  {
    BuildOrderSucceeds(g);
    var names := Names(images);
    forall i | 0 <= i < |names| ensures g.Deps(names[i]) <= Elems(names[..i]) {
      forall d | d in g.Deps(names[i]) ensures d in Elems(names[..i]) {
        EarlierInOrder(g, depths, images, i, d);
      }
    }
  }

  lemma ListedDepth(names: set<string>, depths: map<string, nat>, images: seq<CIImage>, i: nat)
    requires ListsAll(names, depths, images) && i < |images|
    ensures images[i].name in names && images[i].name in depths && images[i].depth == depths[images[i].name]
  {
    assert images[i] in images;
  }

  lemma EarlierInOrder(g: Digraph, depths: map<string, nat>, images: seq<CIImage>, i: nat, d: string)
    requires AreDepths(g, depths) && g.SourcesRegistered()
    requires forall n :: n in g.nodes ==> !Doomed(g, n)
    requires SortedBy(images, ByDepthName) && ListsAll(g.nodes, depths, images)
    requires Elems(Names(images)) == g.nodes
    requires i < |images| && d in g.Deps(images[i].name)
    ensures d in Elems(Names(images)[..i])
  {
    hide AreDepths, Doomed, ListsAll, Digraph.Deps, Digraph.SourcesRegistered, LessEq;
    ListedDepth(g.nodes, depths, images, i);
    DependencyIsShallower(g, depths, images[i].name, d);
    var names := Names(images);
    assert d in Elems(names);
    var j :| 0 <= j < |names| && names[j] == d;
    ListedDepth(g.nodes, depths, images, j);
    assert i < j ==> ByDepthName(images[i], images[j]);
    assert j < i;
    assert names[..i][j] == d;
  }

  lemma SomeDoomed(g: Digraph, depths: map<string, nat>, images: seq<CIImage>)
    requires depths.Keys == g.nodes && g.SourcesRegistered()
    requires |BuildOrder(g)| != |g.nodes|
    requires ListsAll(g.nodes, depths, images)
    ensures exists n, k :: CIImage(n, k) in images && Doomed(g, n)
  {
    BuildOrderSucceeds(g);
    var n :| n in g.nodes && Doomed(g, n);
    assert CIImage(n, depths[n]) in images;
  }
}

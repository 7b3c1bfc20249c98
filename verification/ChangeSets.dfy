/** Which images a set of changed files affects, the directories that trigger an image, and the
    narrowing of build filters to affected images. */
module ChangeSets {
  import opened Wrappers
  import opened Ordering
  import opened Digraphs
  import opened DependencyGraph
  import opened Project
  import opened ImageGraph
  import opened Changes

  // ---------- dependency in a project ----------

  /** What an image depends on directly, over scanned and declared edges. */
  ghost function DirectNeeds(project: Project): string -> set<string> {
    n => set e | e in MergedEdges(project) && e.0 == n :: e.1
  }

  /** a is b, or depends on b. */
  ghost predicate Needs(project: Project, a: string, b: string) {
    Follows(DirectNeeds(project), a, b)
  }

  /** A path read backwards. */
  function Reverse(p: seq<string>): (r: seq<string>)
    ensures |r| == |p| && forall i :: 0 <= i < |p| ==> r[i] == p[|p| - 1 - i]
  {
    seq(|p|, i requires 0 <= i < |p| => p[|p| - 1 - i])
  }

  lemma ReverseChain(succ: string -> set<string>, pred: string -> set<string>, p: seq<string>)
    requires forall n, m :: m in succ(n) <==> n in pred(m)
    ensures IsChain(succ, p) <==> IsChain(pred, Reverse(p))
  {
    var r := Reverse(p);
    if IsChain(succ, p) {
      forall i, j | 0 <= i && j == i + 1 && j < |r| ensures r[j] in pred(r[i]) {
        assert r[i] == p[|p|-1-i] && r[j] == p[|p|-1-j];
        assert p[|p|-1-i] in succ(p[|p|-1-j]);
      }
    }
    if IsChain(pred, r) {
      forall i, j | 0 <= i && j == i + 1 && j < |p| ensures p[j] in succ(p[i]) {
        assert p[i] == r[|p|-1-i] && p[j] == r[|p|-1-j];
        assert r[|p|-1-i] in pred(r[|p|-1-j]);
      }
    }
  }

  /** Following dependents forward is needing backward. */
  lemma DependentsNeed(project: Project, succ: string -> set<string>, a: string, b: string)
    requires forall n, m :: m in succ(n) <==> (m, n) in MergedEdges(project)
    ensures Follows(succ, a, b) <==> Needs(project, b, a)
  {
    var pred := DirectNeeds(project);
    forall n, m ensures m in succ(n) <==> n in pred(m) {
      DirectlyNeeds(project, m, n);
    }
    hide MergedEdges, DirectNeeds;
    if Follows(succ, a, b) {
      var p :| IsChain(succ, p) && p[0] == a && p[|p|-1] == b;
      ReverseChain(succ, pred, p);
      assert Reverse(p)[0] == b;
    }
    if Needs(project, b, a) {
      var r :| IsChain(pred, r) && r[0] == b && r[|r|-1] == a;
      ReverseChain(succ, pred, Reverse(r));
      assert Reverse(Reverse(r)) == r;
      assert Reverse(r)[0] == a;
    }
  }

  lemma DirectlyNeeds(project: Project, n: string, m: string)
    ensures m in DirectNeeds(project)(n) <==> (n, m) in MergedEdges(project)
  {
    hide MergedEdges;
    if (n, m) in MergedEdges(project) {
      assert (n, m).0 == n && (n, m).1 == m;
    }
  }

  lemma DependenciesNeed(project: Project, succ: string -> set<string>, a: string, b: string)
    requires forall n, m :: m in succ(n) <==> (n, m) in MergedEdges(project)
    ensures Follows(succ, a, b) <==> Needs(project, a, b)
  {
    forall n ensures succ(n) == DirectNeeds(project)(n) {
      forall m ensures m in succ(n) <==> m in DirectNeeds(project)(n) { DirectlyNeeds(project, n, m); }
    }
    hide MergedEdges, DirectNeeds;
    forall p ensures IsChain(succ, p) <==> IsChain(DirectNeeds(project), p) {}
  }

  // ---------- the callbacks of Expand ----------

  function Lookup(table: map<string, seq<string>>): string -> seq<string> {
    n => Get(table, n)
  }

  /** graph.Dependents as a function: the answer for every name that occurs in the graph, in
      whatever order the graph listed it. */
  method DependentsTable(graph: Graph, ghost project: Project) returns (table: map<string, seq<string>>)
    requires graph.Valid() && IsImageGraph(project, graph.View())
    ensures forall n :: Elems(Lookup(table)(n)) <= project.Keys
    ensures forall n, m :: m in Elems(Lookup(table)(n)) <==> (m, n) in MergedEdges(project)
  {
    hide MergedEdges;
    var g := graph.View();
    table := map[];
    var names := g.nodes + set n, d | n in g.edges && d in g.edges[n] :: d;
    var todo := names;
    while todo != {}
      invariant todo <= names && table.Keys == names - todo
      invariant forall n :: n in table ==> Elems(table[n]) == g.Dependents(n)
      decreases todo
    {
      var n :| n in todo;
      var dependents := graph.Dependents(n);
      table := table[n := dependents];
      todo := todo - {n};
    }
    forall n, m ensures m in Elems(Lookup(table)(n)) <==> (m, n) in MergedEdges(project) {
      assert m in g.Dependents(n) <==> n in g.Deps(m);
      assert n in g.Deps(m) ==> n in names;
    }
    forall n, m | m in Elems(Lookup(table)(n)) ensures m in project {
      assert m in g.Dependents(n);
    }
  }

  // ---------- directories ----------

  function DirsOf(images: seq<Image>): (r: seq<string>)
    ensures |r| == |images| && forall i :: 0 <= i < |r| ==> r[i] == images[i].dir
  {
    seq(|images|, i requires 0 <= i < |images| => images[i].dir)
  }

  function ImageDirMap(project: Project): map<string, seq<string>> {
    map n | n in project && project[n] != [] :: SortStrings(DirsOf(project[n]))
  }

  /** The directories of some of the names. */
  function DirMapOf(project: Project, names: set<string>): map<string, seq<string>> {
    map n | n in project && n in names && project[n] != [] :: SortStrings(DirsOf(project[n]))
  }

  lemma DirMapStep(project: Project, names: set<string>, name: string)
    requires name in project
    ensures DirMapOf(project, names + {name}) ==
      if project[name] != [] then DirMapOf(project, names)[name := SortStrings(DirsOf(project[name]))] else DirMapOf(project, names)
  {
  }

  lemma DirMapEnds(project: Project)
    ensures DirMapOf(project, {}) == map[]
    ensures DirMapOf(project, project.Keys) == ImageDirMap(project)
  {
  }

  method ImageDirs(project: Project) returns (dirs: map<string, seq<string>>)
    ensures dirs == ImageDirMap(project)
  {
    hide DirMapOf, ImageDirMap;
    dirs := map[];
    var todo := project.Keys;
    ghost var done: set<string> := {};
    DirMapEnds(project);
    while todo != {}
      invariant todo + done == project.Keys && todo !! done
      invariant dirs == DirMapOf(project, done)
      decreases todo
    {
      var name :| name in todo;
      var images := project[name];
      var own := [];
      for i := 0 to |images|
        invariant own == DirsOf(images[..i])
      {
        assert images[..i+1] == images[..i] + [images[i]];
        own := own + [images[i].dir];
      }
      assert images[..|images|] == images;
      DirMapStep(project, done, name);
      if own != [] {
        dirs := dirs[name := SortStrings(own)];
      }
      todo, done := todo - {name}, done + {name};
    }
    assert done == project.Keys;
  }

  /** slices.Compact on a sorted list. */
  function Compact(s: seq<string>): (r: seq<string>)
    requires SortedBy(s, LessEq)
    ensures Elems(r) == Elems(s)
    ensures SortedBy(r, LessEq) && NoDup(r)
    ensures s != [] ==> r != [] && r[0] == s[0]
  {
    if |s| < 2 then s
    else
      var tail := Compact(s[1..]);
      CompactStep(s, tail);
      if s[0] == s[1] then tail else [s[0]] + tail
  }

  lemma CompactStep(s: seq<string>, tail: seq<string>)
    requires |s| >= 2 && SortedBy(s, LessEq)
    requires Elems(tail) == Elems(s[1..]) && SortedBy(tail, LessEq) && NoDup(tail)
    ensures Elems(s) == {s[0]} + Elems(tail)
    ensures s[0] != s[1] ==> SortedBy([s[0]] + tail, LessEq) && NoDup([s[0]] + tail)
    ensures s[0] == s[1] ==> Elems(s) == Elems(tail)
    ensures Elems([s[0]] + tail) == Elems(s)
  {
    assert s == [s[0]] + s[1..];
    forall y | y in tail ensures LessEq(s[0], y) && (s[0] != s[1] ==> s[0] != y) {
      assert y in Elems(s[1..]);
      var k :| 0 <= k < |s[1..]| && s[1..][k] == y;
      assert LessEq(s[0], s[1]) && LessEq(s[0], s[k+1]);
      assert k > 0 ==> LessEq(s[1], s[k+1]);
      StringOrder();
    }
  }

  /** The directories of everything the image needs. */
  ghost predicate IsTriggerDir(project: Project, name: string, dir: string) {
    exists m :: Needs(project, name, m) && m in ImageDirMap(project) && dir in ImageDirMap(project)[m]
  }

  ghost predicate AreTriggerDirs(project: Project, dirs: map<string, seq<string>>) {
    && dirs.Keys == ImageDirMap(project).Keys
    && forall n :: n in dirs ==> SortedBy(dirs[n], LessEq) && NoDup(dirs[n]) && forall d :: d in dirs[n] <==> IsTriggerDir(project, n, d)
  }

  method TriggerDirs(project: Project) returns (r: Result<map<string, seq<string>>, GraphError>)
    ensures r.Success? <==> Accepted(project)
    ensures r.Success? ==> AreTriggerDirs(project, r.value)
  {
    hide Needs, ImageDirMap, IsImageGraph, Accepted, Problem, FollowsSome, IsTriggerDir;
    var built := ScanAndBuild(project);
    if built.Failure? {
      return Failure(built.error);
    }
    var g := built.value.View();
    var imageDirs := ImageDirs(project);
    ghost var universe := DependencyUniverse(project, g);
    var result: map<string, seq<string>> := map[];
    var todo := imageDirs.Keys;
    while todo != {}
      invariant todo <= imageDirs.Keys && result.Keys == imageDirs.Keys - todo
      invariant forall n :: n in result ==> SortedBy(result[n], LessEq) && NoDup(result[n])
      invariant forall n :: n in result ==> forall d :: d in result[n] <==> IsTriggerDir(project, n, d)
      decreases todo
    {
      var name :| name in todo;
      var deps := Expand([name], Lookup(g.edges), universe + {name});
      var dirs := [];
      for i := 0 to |deps|
        invariant forall d :: d in dirs <==> exists m :: m in deps[..i] && m in imageDirs && d in imageDirs[m]
      {
        PrefixStep(deps, i);
        if deps[i] in imageDirs {
          dirs := dirs + imageDirs[deps[i]];
        }
      }
      assert deps[..|deps|] == deps;
      ExpandedNeeds(project, Lookup(g.edges), g, name, deps);
      TriggerDirDef(project, name, deps, dirs);
      var sorted := SortStrings(dirs);
      var compact := Compact(sorted);
      assert forall d :: d in compact <==> d in Elems(sorted);
      result := result[name := compact];
      todo := todo - {name};
    }
    return Success(result);
  }

  ghost function DependencyUniverse(project: Project, g: Digraph): (u: set<string>)
    requires IsImageGraph(project, g)
    ensures forall n :: Elems(Lookup(g.edges)(n)) <= u
  {
    set n, d | n in g.edges && d in g.edges[n] :: d
  }

  lemma ExpandedNeeds(project: Project, next: string -> seq<string>, g: Digraph, name: string, deps: seq<string>)
    requires IsImageGraph(project, g) && next == Lookup(g.edges)
    requires forall n :: n in deps <==> FollowsSome(x => Elems(next(x)), Elems([name]), n)
    ensures forall n :: n in deps <==> Needs(project, name, n)
  {
    hide MergedEdges, Needs, Follows;
    var succ := (x: string) => Elems(next(x));
    forall n, m ensures m in succ(n) <==> (n, m) in MergedEdges(project) {
      assert next(n) == Lookup(g.edges)(n) == if n in g.edges then g.edges[n] else [];
      assert succ(n) == g.Deps(n);
    }
    forall n ensures n in deps <==> Needs(project, name, n) {
      DependenciesNeed(project, succ, name, n);
      assert Elems([name]) == {name};
      assert FollowsSome(succ, {name}, n) <==> Follows(succ, name, n);
    }
  }

  lemma TriggerDirDef(project: Project, name: string, deps: seq<string>, dirs: seq<string>)
    requires forall n :: n in deps <==> Needs(project, name, n)
    requires forall d :: d in dirs <==> exists m :: m in deps && m in ImageDirMap(project) && d in ImageDirMap(project)[m]
    ensures forall d :: d in dirs <==> IsTriggerDir(project, name, d)
  {
    hide Needs, ImageDirMap;
  }

  // ---------- Detect ----------

  datatype ChangeSet = ChangeSet(global: bool, reason: string, changed: seq<string>, affected: seq<string>) {
    predicate IsAffected(name: string) {
      name in affected
    }
  }

  datatype DetectError = UnknownMode(value: string) | GraphFailed(error: GraphError) | InvalidPattern(pattern: string)

  /** The change_detection block; imagesLink is the images directory when it is a symbolic link, else "". */
  datatype Config = Config(exclude: seq<string>, treatAsGlobal: seq<string>, imagesLink: string, unmatched: string)

  function ParseUnmatched(value: string): Option<Unmatched> {
    if value == "all" then Some(All) else if value == "ignore" then Some(Ignore) else None
  }

  function RulesFor(project: Project, config: Config): Rules
    requires config.unmatched == "" || ParseUnmatched(config.unmatched).Some?
  {
    Rules(config.exclude,
          config.treatAsGlobal + if config.imagesLink != "" then [config.imagesLink] else [],
          ImageDirMap(project),
          if config.unmatched == "" then All else ParseUnmatched(config.unmatched).value)
  }

  /** The file counts towards images: it is not blank, and no pattern makes it global or excludes it. */
  predicate IsImageFile(lib: Paths, rules: Rules, file: string) {
    var f := Normalize(lib, file);
    f != "" && !MatchAny(lib, rules.treatAsGlobal, f) && !MatchAny(lib, rules.exclude, f)
  }

  /** Some changed image file lies under a directory that triggers the image. */
  ghost predicate Triggered(lib: Paths, rules: Rules, project: Project, files: seq<string>, name: string) {
    exists f, d :: f in files && IsImageFile(lib, rules, f) && IsTriggerDir(project, name, d) && Under(d, Normalize(lib, f))
  }

  lemma ChangedIff(lib: Paths, rules: Rules, files: seq<string>, m: string)
    ensures ChangesImage(lib, rules, files, m) <==>
      m in rules.imageDirs && exists f, d :: f in files && IsImageFile(lib, rules, f) && d in rules.imageDirs[m] && Under(d, Normalize(lib, f))
  {
    hide Normalize, MatchAny, Under;
    if ChangesImage(lib, rules, files, m) {
      var f :| f in files && EffectOf(lib, rules, f).Images? && m in EffectOf(lib, rules, f).names;
      assert m in Owners(rules.imageDirs, Normalize(lib, f));
    }
    if m in rules.imageDirs {
      if f, d :| f in files && IsImageFile(lib, rules, f) && d in rules.imageDirs[m] && Under(d, Normalize(lib, f)) {
        assert m in Owners(rules.imageDirs, Normalize(lib, f));
      }
    }
  }

  /** The forward closure over dependents and the backward closure behind the trigger directories agree. */
  lemma AffectedIffTriggered(lib: Paths, rules: Rules, project: Project, files: seq<string>, succ: string -> set<string>,
                             changed: set<string>, name: string)
    requires rules.imageDirs == ImageDirMap(project)
    requires forall m :: m in changed <==> ChangesImage(lib, rules, files, m)
    requires forall n, m :: m in succ(n) <==> (m, n) in MergedEdges(project)
    ensures FollowsSome(succ, changed, name) <==> Triggered(lib, rules, project, files, name)
  {
    hide Needs, Follows, ChangesImage, MergedEdges, IsImageFile, Under, ImageDirMap, Normalize;
    forall m ensures Follows(succ, m, name) <==> Needs(project, name, m) { DependentsNeed(project, succ, m, name); }
    forall m ensures m in changed <==>
      m in rules.imageDirs && exists f, d :: f in files && IsImageFile(lib, rules, f) && d in rules.imageDirs[m] && Under(d, Normalize(lib, f))
    {
      ChangedIff(lib, rules, files, m);
    }
    if FollowsSome(succ, changed, name) {
      var m :| m in changed && Follows(succ, m, name);
      var f, d :| f in files && IsImageFile(lib, rules, f) && d in rules.imageDirs[m] && Under(d, Normalize(lib, f));
      assert IsTriggerDir(project, name, d);
    }
    if Triggered(lib, rules, project, files, name) {
      var f, d :| f in files && IsImageFile(lib, rules, f) && IsTriggerDir(project, name, d) && Under(d, Normalize(lib, f));
      var m :| Needs(project, name, m) && m in ImageDirMap(project) && d in ImageDirMap(project)[m];
      assert m in changed;
    }
  }

  ghost predicate IsDetected(lib: Paths, project: Project, files: seq<string>, config: Config, s: ChangeSet)
    requires config.unmatched == "" || ParseUnmatched(config.unmatched).Some?
  {
    var rules := RulesFor(project, config);
    && (s.global <==> AnyEverything(lib, rules, files))
    && (s.global ==> Elems(s.affected) == project.Keys)
    && (!s.global ==> forall n :: n in s.affected <==> Triggered(lib, rules, project, files, n))
    && Elems(s.affected) <= project.Keys
    && (forall n :: n in s.changed <==> ChangesImage(lib, rules, files, n))
    && SortedBy(s.affected, LessEq) && NoDup(s.affected)
  }

  method Detect(lib: Paths, project: Project, files: seq<string>, config: Config) returns (r: Result<ChangeSet, DetectError>)
    ensures r.Success? <==>
      (config.unmatched == "" || ParseUnmatched(config.unmatched).Some?) && Accepted(project)
      && forall p :: p in config.exclude + RulesFor(project, config).treatAsGlobal ==> lib.validPattern(p)
    ensures r.Success? ==> IsDetected(lib, project, files, config, r.value)
    ensures r.Failure? ==> match r.error
      case UnknownMode(v) => v == config.unmatched
      case GraphFailed(e) => Problem(project, e)
      case InvalidPattern(p) => !lib.validPattern(p)
  {
    hide Accepted, Problem, IsImageGraph, IsDetected, Classified, MergedEdges, FollowsSome, Lookup, ImageDirMap, SortedBy, NoDup, LessEq;
    var unmatched := All;
    if config.unmatched != "" {
      var parsed := ParseUnmatched(config.unmatched);
      if parsed.None? {
        return Failure(UnknownMode(config.unmatched));
      }
      unmatched := parsed.value;
    }
    var built := ScanAndBuild(project);
    if built.Failure? {
      return Failure(GraphFailed(built.error));
    }
    var graph := built.value;
    var table := DependentsTable(graph, project);
    var global := config.treatAsGlobal;
    if config.imagesLink != "" {
      global := global + [config.imagesLink];
    }
    var imageDirs := ImageDirs(project);
    var rules := Rules(config.exclude, global, imageDirs, unmatched);
    assert rules == RulesFor(project, config) by {
      assert config.imagesLink == "" ==> global == config.treatAsGlobal + [];
    }
    assert rules.exclude == config.exclude;
    hide RulesFor;
    var classified := Classify(lib, files, rules);
    if classified.Failure? {
      return Failure(InvalidPattern(classified.error));
    }
    var result := classified.value;
    if result.global {
      var names := ListSet(project.Keys);
      names := Sorted(names);
      r := Success(ChangeSet(true, result.globalFile + " rebuilds all images", result.changed, names));
      DetectedGlobal(lib, rules, project, files, config, result, r.value);
      return;
    }
    ghost var universe := project.Keys + Elems(result.changed);
    var affected := Expand(result.changed, Lookup(table), universe);
    r := Success(ChangeSet(false, "", result.changed, affected));
    DetectedAffected(lib, rules, project, files, config, table, result, r.value);
  }

  lemma DetectedGlobal(lib: Paths, rules: Rules, project: Project, files: seq<string>, config: Config, result: Classification, s: ChangeSet)
    requires config.unmatched == "" || ParseUnmatched(config.unmatched).Some?
    requires rules == RulesFor(project, config)
    requires Classified(lib, rules, files, result.global, result.globalFile, Elems(result.changed))
    requires result.global && s.global && s.changed == result.changed
    requires Elems(s.affected) == project.Keys && SortedBy(s.affected, LessEq) && NoDup(s.affected)
    ensures IsDetected(lib, project, files, config, s)
  {
    hide RulesFor, FirstEverything, ChangesImage, SortedBy, NoDup, AnyEverything;
  }

  lemma DetectedAffected(lib: Paths, rules: Rules, project: Project, files: seq<string>, config: Config, table: map<string, seq<string>>,
                         result: Classification, s: ChangeSet)
    requires config.unmatched == "" || ParseUnmatched(config.unmatched).Some?
    requires rules == RulesFor(project, config) && rules.imageDirs == ImageDirMap(project)
    requires Classified(lib, rules, files, result.global, result.globalFile, Elems(result.changed))
    requires !result.global && !s.global && s.changed == result.changed
    requires forall n, m :: m in Elems(Lookup(table)(n)) <==> (m, n) in MergedEdges(project)
    requires SortedBy(s.affected, LessEq) && NoDup(s.affected)
    requires forall n :: n in s.affected <==> FollowsSome(x => Elems(Lookup(table)(x)), Elems(result.changed), n)
    ensures IsDetected(lib, project, files, config, s)
  {
    hide RulesFor, FollowsSome, Triggered, Lookup, MergedEdges, ChangesImage, FirstEverything, SortedBy, NoDup, AnyEverything;
    var succ := (x: string) => Elems(Lookup(table)(x));
    forall n ensures n in s.affected <==> Triggered(lib, rules, project, files, n) {
      AffectedIffTriggered(lib, rules, project, files, succ, Elems(result.changed), n);
    }
    forall n | n in s.affected ensures n in project {
      TriggeredIsImage(lib, rules, project, files, n);
    }
  }

  /** Only images of the project are triggered. */
  lemma TriggeredIsImage(lib: Paths, rules: Rules, project: Project, files: seq<string>, name: string)
    requires Triggered(lib, rules, project, files, name)
    ensures name in project
  {
    hide IsImageFile, Under, Normalize, MergedEdges;
    var f, d :| f in files && IsImageFile(lib, rules, f) && IsTriggerDir(project, name, d) && Under(d, Normalize(lib, f));
    var m :| Needs(project, name, m) && m in ImageDirMap(project) && d in ImageDirMap(project)[m];
    var p :| IsChain(DirectNeeds(project), p) && p[0] == name && p[|p|-1] == m;
    if |p| > 1 {
      DirectlyNeeds(project, p[0], p[1]);
      SourceIsOwner(project, (p[0], p[1]));
    }
  }

  // ---------- limitToChanges ----------

  datatype Filter = Filter(imageName: string, tagName: string)

  predicate MatchesOne(f: Filter, imageName: string, tagName: string) {
    (f.imageName == "" || f.imageName == imageName) && (f.tagName == "" || f.tagName == tagName)
  }

  predicate MatchesFilter(filters: seq<Filter>, imageName: string, tagName: string) {
    filters == [] || exists f :: f in filters && MatchesOne(f, imageName, tagName)
  }

  /** A filter for an image and a tag, for an image, for a tag, and for everything; no filters
      match everything, and more filters match more. */
  lemma FilterMeaning(filters: seq<Filter>, f: Filter, name: string, tag: string, i: string, t: string)
    requires name != "" && tag != ""
    ensures MatchesFilter([Filter(name, tag)], i, t) <==> i == name && t == tag
    ensures MatchesFilter([Filter(name, "")], i, t) <==> i == name
    ensures MatchesFilter([Filter("", tag)], i, t) <==> t == tag
    ensures MatchesFilter([Filter("", "")], i, t) && MatchesFilter([], i, t)
    ensures filters != [] ==> (MatchesFilter(filters + [f], i, t) <==> MatchesFilter(filters, i, t) || MatchesFilter([f], i, t))
  {
    assert forall g: Filter :: g in [g];
    assert Filter(name, tag) in [Filter(name, tag)] && Filter(name, "") in [Filter(name, "")];
    assert Filter("", tag) in [Filter("", tag)] && Filter("", "") in [Filter("", "")];
    if filters != [] {
      MoreFilters(filters, f, i, t);
    }
  }

  lemma MoreFilters(filters: seq<Filter>, f: Filter, i: string, t: string)
    requires filters != []
    ensures MatchesFilter(filters + [f], i, t) <==> MatchesFilter(filters, i, t) || MatchesFilter([f], i, t)
  {
    hide MatchesOne;
    assert f in [f];
    forall g ensures g in filters + [f] <==> g in filters || g in [f] {}
  }

  /** The filters that replace one filter. */
  function LimitOne(changes: ChangeSet, f: Filter): seq<Filter> {
    if f.imageName != "" then (if changes.IsAffected(f.imageName) then [f] else [])
    else seq(|changes.affected|, i requires 0 <= i < |changes.affected| => Filter(changes.affected[i], f.tagName))
  }

  predicate HasWildcard(filters: seq<Filter>) {
    filters == [] || exists f :: f in filters && f.imageName == ""
  }

  /** The pair is built after the limit: the step is not skipped, and a filter matches. */
  predicate Selected(limited: seq<Filter>, skip: bool, imageName: string, tagName: string) {
    !skip && MatchesFilter(limited, imageName, tagName)
  }

  /** No change set leaves the filters alone; an empty result comes only with skip, since empty
      filters match everything. */
  method LimitToChanges(loaded: Option<ChangeSet>, filters: seq<Filter>) returns (limited: seq<Filter>, skip: bool)
    ensures loaded.None? ==> limited == filters && !skip
    ensures loaded.Some? ==> (skip <==> limited == [])
    ensures loaded.Some? ==> forall i, t :: Selected(limited, skip, i, t) <==> LimitedMatch(loaded.value, filters, i, t)
  {
    if loaded.None? {
      return filters, false;
    }
    var changeSet := loaded.value;
    var wide := if |filters| == 0 then [Filter("", "")] else filters;
    limited := [];
    for k := 0 to |wide|
      invariant forall g :: g in limited <==> exists f :: f in wide[..k] && g in LimitOne(changeSet, f)
    {
      PrefixStep(wide, k);
      var filter := wide[k];
      if filter.imageName != "" {
        if changeSet.IsAffected(filter.imageName) {
          limited := limited + [filter];
        }
        continue;
      }
      ghost var before := limited;
      for j := 0 to |changeSet.affected|
        invariant limited == before + LimitOne(changeSet, filter)[..j]
      {
        PrefixStep(LimitOne(changeSet, filter), j);
        limited := limited + [Filter(changeSet.affected[j], filter.tagName)];
      }
      assert LimitOne(changeSet, filter)[..|changeSet.affected|] == LimitOne(changeSet, filter);
    }
    assert wide[..|wide|] == wide == Widened(filters);
    forall i, t
      ensures Selected(limited, limited == [], i, t) <==> LimitedMatch(changeSet, filters, i, t)
    {
      if Selected(limited, limited == [], i, t) {
        var g :| g in limited && MatchesOne(g, i, t);
        var f :| f in wide && g in LimitOne(changeSet, f);
        assert f in Widened(filters);
      }
      if LimitedMatch(changeSet, filters, i, t) {
        var f, g :| f in Widened(filters) && g in LimitOne(changeSet, f) && MatchesOne(g, i, t);
        assert f in wide && g in limited;
      }
    }
    return limited, |limited| == 0;
  }

  /** What the limited filters should let through. */
  ghost predicate LimitedMatch(changes: ChangeSet, filters: seq<Filter>, imageName: string, tagName: string) {
    exists f, g :: f in Widened(filters) && g in LimitOne(changes, f) && MatchesOne(g, imageName, tagName)
  }

  function Widened(filters: seq<Filter>): seq<Filter> {
    if filters == [] then [Filter("", "")] else filters
  }

  /** A name longer than all the given ones. */
  lemma FreshName(names: seq<string>) returns (name: string)
    ensures name != "" && name !in names
  {
    name := "a";
    for k := 0 to |names|
      invariant name != "" && name !in names[..k]
      invariant forall n :: n in names[..k] ==> |n| < |name|
    {
      PrefixStep(names, k);
      name := seq(|name| + |names[k]| + 1, i => 'a');
    }
    assert names[..|names|] == names;
  }

  /** The rewritten filters mean "matched before and affected" for every named image, unless a
      wildcard filter meets an affected list with an empty name; then they let through too much. */
  lemma LimitPreservesMeaning(changes: ChangeSet, filters: seq<Filter>)
    ensures (forall i, t :: i != "" ==> (LimitedMatch(changes, filters, i, t) <==> MatchesFilter(filters, i, t) && changes.IsAffected(i)))
      <==> !("" in changes.affected && HasWildcard(filters))
  {
    if "" in changes.affected && HasWildcard(filters) {
      var f :| f in Widened(filters) && f.imageName == "";
      var i := FreshName(changes.affected);
      var k :| 0 <= k < |changes.affected| && changes.affected[k] == "";
      assert LimitOne(changes, f)[k] == Filter("", f.tagName);
      assert MatchesOne(Filter("", f.tagName), i, f.tagName);
      assert LimitedMatch(changes, filters, i, f.tagName) && !changes.IsAffected(i);
    } else {
      forall i, t | i != "" ensures LimitedMatch(changes, filters, i, t) <==> MatchesFilter(filters, i, t) && changes.IsAffected(i) {
        LimitKeeps(changes, filters, i, t);
      }
    }
  }

  lemma LimitKeeps(changes: ChangeSet, filters: seq<Filter>, i: string, t: string)
    requires i != "" && !("" in changes.affected && HasWildcard(filters))
    ensures LimitedMatch(changes, filters, i, t) <==> MatchesFilter(filters, i, t) && changes.IsAffected(i)
  {
    if LimitedMatch(changes, filters, i, t) {
      var f, g :| f in Widened(filters) && g in LimitOne(changes, f) && MatchesOne(g, i, t);
      if f.imageName == "" {
        var k :| 0 <= k < |changes.affected| && g == Filter(changes.affected[k], f.tagName);
        assert changes.affected[k] in changes.affected;
      }
      assert MatchesOne(f, i, t);
    }
    if MatchesFilter(filters, i, t) && changes.IsAffected(i) {
      assert MatchesOne(Filter("", ""), i, t) && Filter("", "") in [Filter("", "")];
      var f :| f in Widened(filters) && MatchesOne(f, i, t);
      if f.imageName == "" {
        var k :| 0 <= k < |changes.affected| && changes.affected[k] == i;
        assert LimitOne(changes, f)[k] == Filter(i, f.tagName);
        assert MatchesOne(Filter(i, f.tagName), i, t);
      } else {
        assert f in LimitOne(changes, f);
      }
    }
  }
}

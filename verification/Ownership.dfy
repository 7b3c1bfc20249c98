/** Change detection in terms of path components: a file belongs to an image when the components of one
    of its directories begin the components of the file. */
module Ownership {
  import opened Ordering
  import opened Project
  import opened Changes
  import opened ChangeSets

  // ---------- paths as components ----------

  /** The text between the slashes. */
  function Components(s: string): (r: seq<string>)
    ensures r != []
  {
    if s == "" then [""]
    else if s[0] == '/' then [""] + Components(s[1..])
    else
      var r := Components(s[1..]);
      [[s[0]] + r[0]] + r[1..]
  }

  function Joined(parts: seq<string>): string
    requires parts != []
  {
    if |parts| == 1 then parts[0] else parts[0] + "/" + Joined(parts[1..])
  }

  /** Cutting and joining again gives the path, and no component holds a slash. */
  lemma {:induction false} ComponentsJoin(s: string)
    ensures Joined(Components(s)) == s
    ensures forall c :: c in Components(s) ==> '/' !in c
  {
    if s != "" {
      var r := Components(s[1..]);
      ComponentsJoin(s[1..]);
      assert s == [s[0]] + s[1..];
      if s[0] == '/' {
        assert ([""] + r)[1..] == r;
        assert "" + "/" + Joined(r) == s;
      } else {
        var t := [[s[0]] + r[0]] + r[1..];
        assert Components(s) == t;
        assert forall c :: c in r[1..] ==> c in r;
        assert r[0] in r;
        if |r| > 1 {
          assert t[1..] == r[1..];
          assert [s[0]] + r[0] + "/" + Joined(r[1..]) == [s[0]] + (r[0] + "/" + Joined(r[1..]));
        }
      }
    }
  }

  function Grown(c: char, r: seq<string>): seq<string>
    requires r != []
  {
    if c == '/' then [""] + r else [[c] + r[0]] + r[1..]
  }

  lemma ComponentsGrow(c: char, s: string)
    ensures Components([c] + s) == Grown(c, Components(s))
  {
    assert ([c] + s)[1..] == s;
  }

  lemma GrownConcat(c: char, r: seq<string>, q: seq<string>)
    requires r != []
    ensures Grown(c, r + q) == Grown(c, r) + q
  {
    assert (r + q)[0] == r[0] && (r + q)[1..] == r[1..] + q;
    assert [""] + (r + q) == [""] + r + q;
    assert [[c] + r[0]] + (r[1..] + q) == [[c] + r[0]] + r[1..] + q;
  }

  /** A slash between two paths puts their components in a row. */
  lemma {:induction false} ComponentsConcat(a: string, b: string)
    ensures Components(a + "/" + b) == Components(a) + Components(b)
  {
    if a == "" {
      assert a + "/" + b == ['/'] + b;
      ComponentsGrow('/', b);
    } else {
      var t := a[1..] + "/" + b;
      assert a + "/" + b == [a[0]] + t && a == [a[0]] + a[1..];
      ComponentsConcat(a[1..], b);
      ComponentsGrow(a[0], t);
      ComponentsGrow(a[0], a[1..]);
      GrownConcat(a[0], Components(a[1..]), Components(b));
      hide Components, Grown;
    }
  }

  lemma {:induction false} JoinedConcat(a: seq<string>, b: seq<string>)
    requires a != [] && b != []
    ensures Joined(a + b) == Joined(a) + "/" + Joined(b)
    decreases |a|
  {
    if |a| == 1 {
      assert (a + b)[1..] == b;
    } else {
      assert (a + b)[1..] == a[1..] + b;
      JoinedConcat(a[1..], b);
    }
  }

  /** The components of the directory begin those of the file. */
  predicate Within(dir: string, file: string) {
    Components(dir) <= Components(file)
  }

  lemma UnderIsWithin(dir: string, file: string)
    ensures Under(dir, file) <==> Within(dir, file)
  {
    if Under(dir, file) {
      WithinIfUnder(dir, file);
    }
    if Within(dir, file) {
      UnderIfWithin(dir, file);
    }
    hide *;
  }

  lemma WithinIfUnder(dir: string, file: string)
    requires Under(dir, file)
    ensures Within(dir, file)
  {
    if file != dir {
      var rest := file[|dir| + 1..];
      assert file == dir + "/" + rest;
      ComponentsConcat(dir, rest);
    }
    hide Components;
  }

  lemma UnderIfWithin(dir: string, file: string)
    requires Within(dir, file)
    ensures Under(dir, file)
  {
    var d, f := Components(dir), Components(file);
    ComponentsJoin(dir);
    ComponentsJoin(file);
    hide Components, Joined;
    if |d| == |f| {
      assert d == f;
    } else {
      assert f == d + f[|d|..];
      JoinedConcat(d, f[|d|..]);
      assert file == dir + "/" + Joined(f[|d|..]);
      assert dir + "/" <= file;
    }
  }

  /** A neighbour whose name only begins like the directory is not in it. */
  lemma SiblingIsOutside(dir: string, more: string, rest: string)
    requires more != "" && more[0] != '/'
    ensures !Within(dir, dir + more + rest)
  {
    UnderIsWithin(dir, dir + more + rest);
    assert (dir + more + rest)[|dir|] == more[0];
    assert |dir + more + rest| > |dir|;
    assert (dir + "/")[|dir|] == '/';
  }

  /** ImagesOwning lists an image exactly when the file is within one of its directories. */
  lemma OwnersAreWithin(imageDirs: map<string, seq<string>>, file: string, n: string)
    ensures n in Owners(imageDirs, file) <==> n in imageDirs && exists d :: d in imageDirs[n] && Within(d, file)
  {
    forall d ensures Under(d, file) <==> Within(d, file) {
      UnderIsWithin(d, file);
    }
    hide Under, Within;
  }

  // ---------- what Detect reports ----------

  /** Some definition of the image has the file in its directory. */
  ghost predicate BelongsTo(project: Project, name: string, file: string) {
    name in project && exists k :: 0 <= k < |project[name]| && Within(project[name][k].dir, file)
  }

  ghost predicate MatchesAny(lib: Paths, patterns: seq<string>, file: string) {
    exists p :: p in patterns && lib.matches(p, file)
  }

  /** A pattern of the configuration, or the link to the images, makes the file global. */
  ghost predicate IsGlobalFile(lib: Paths, config: Config, file: string) {
    MatchesAny(lib, config.treatAsGlobal, file) || (config.imagesLink != "" && lib.matches(config.imagesLink, file))
  }

  /** The file counts for images: it is neither blank nor global nor excluded. */
  ghost predicate Counts(lib: Paths, config: Config, file: string) {
    file != "" && !IsGlobalFile(lib, config, file) && !MatchesAny(lib, config.exclude, file)
  }

  /** The file rebuilds everything: as a global one, even if it is excluded as well; or because it
      counts, belongs to no image, is in the project, and unmatched files are not ignored. */
  ghost predicate RebuildsAll(lib: Paths, project: Project, config: Config, file: string) {
    || (file != "" && IsGlobalFile(lib, config, file))
    || (Counts(lib, config, file) && (forall n :: !BelongsTo(project, n, file)) && Components(file)[0] != ".." && config.unmatched != "ignore")
  }

  /** What a line of the file list stands for: nothing if it is blank, else the cleaned path without
      a leading dot component. */
  lemma NormalizeMeaning(lib: Paths, file: string, rest: string)
    ensures lib.trim(file) == "" ==> Normalize(lib, file) == ""
    ensures lib.trim(file) != "" && lib.clean(lib.trim(file)) == "./" + rest ==> Normalize(lib, file) == rest
    ensures lib.trim(file) != "" && Components(lib.clean(lib.trim(file)))[0] != "." ==> Normalize(lib, file) == lib.clean(lib.trim(file))
  {
    var c := lib.clean(lib.trim(file));
    if "./" <= c {
      assert c == "." + "/" + c[2..];
      ComponentsConcat(".", c[2..]);
      assert "." == ['.'] + "";
      ComponentsGrow('.', "");
    }
  }

  /** Besides the empty one there are two modes. */
  lemma Modes(value: string)
    ensures ParseUnmatched(value).Some? <==> value == "all" || value == "ignore"
  {
  }

  lemma GlobalIff(lib: Paths, project: Project, config: Config, file: string)
    requires config.unmatched in {"", "all", "ignore"}
    ensures MatchAny(lib, RulesFor(project, config).treatAsGlobal, file) <==> IsGlobalFile(lib, config, file)
    ensures MatchAny(lib, RulesFor(project, config).exclude, file) <==> MatchesAny(lib, config.exclude, file)
    ensures RulesFor(project, config).unmatched == Ignore <==> config.unmatched == "ignore"
  {
    var global := RulesFor(project, config).treatAsGlobal;
    if config.imagesLink != "" {
      assert global == config.treatAsGlobal + [config.imagesLink];
      assert config.imagesLink in global;
      assert forall p :: p in global <==> p in config.treatAsGlobal || p == config.imagesLink;
    } else {
      assert global == config.treatAsGlobal;
    }
    hide ImageDirMap, RulesFor;
  }

  lemma OwnersIff(project: Project, file: string, n: string)
    ensures n in Owners(ImageDirMap(project), file) <==> BelongsTo(project, n, file)
  {
    OwnersAreWithin(ImageDirMap(project), file, n);
    hide Within, Owners;
    if BelongsTo(project, n, file) {
      var k :| 0 <= k < |project[n]| && Within(project[n][k].dir, file);
      var dirs := DirsOf(project[n]);
      assert dirs[k] in dirs;
      assert project[n][k].dir in ImageDirMap(project)[n];
    }
    if n in ImageDirMap(project) {
      if d :| d in ImageDirMap(project)[n] && Within(d, file) {
        var dirs := DirsOf(project[n]);
        assert d in dirs;
        var k :| 0 <= k < |dirs| && dirs[k] == d;
      }
    }
  }

  /** Files outside the project begin with two dots as their first component. */
  lemma OutsideIff(file: string)
    ensures Outside(file) <==> Components(file)[0] == ".."
  {
    UnderIsWithin("..", file);
    assert ".." + "/" == "../";
    assert Components("..") == [".."] by {
      assert ".."[1..] == "." && "."[1..] == "";
      assert Components("") == [""];
      assert ['.'] + "" == "." && [""][1..] == [];
      assert Components(".") == [['.'] + ""] + [];
      assert ['.'] + "." == ".." && ["."][1..] == [];
      assert Components("..") == [['.'] + "."] + [];
    }
    hide Under;
  }

  lemma EverythingIff(lib: Paths, project: Project, config: Config, f: string)
    requires config.unmatched in {"", "all", "ignore"}
    ensures EffectOf(lib, RulesFor(project, config), f) == Everything <==> RebuildsAll(lib, project, config, Normalize(lib, f))
  {
    var file := Normalize(lib, f);
    GlobalIff(lib, project, config, file);
    OutsideIff(file);
    assert RulesFor(project, config).imageDirs == ImageDirMap(project);
    forall n ensures n in Owners(ImageDirMap(project), file) <==> BelongsTo(project, n, file) {
      OwnersIff(project, file, n);
    }
    hide RulesFor, Owners, BelongsTo, ImageDirMap, MatchAny, MatchesAny, IsGlobalFile, Components, Outside, Normalize;
    if Owners(RulesFor(project, config).imageDirs, file) != {} {
      var n :| n in Owners(RulesFor(project, config).imageDirs, file);
    }
  }

  lemma TriggeredIff(lib: Paths, project: Project, config: Config, files: seq<string>, n: string)
    requires config.unmatched in {"", "all", "ignore"}
    ensures Triggered(lib, RulesFor(project, config), project, files, n)
      <==> exists f, m :: f in files && Counts(lib, config, Normalize(lib, f)) && Needs(project, n, m) && BelongsTo(project, m, Normalize(lib, f))
  {
    var rules := RulesFor(project, config);
    forall f ensures IsImageFile(lib, rules, f) <==> Counts(lib, config, Normalize(lib, f)) {
      GlobalIff(lib, project, config, Normalize(lib, f));
    }
    hide Counts, IsImageFile, RulesFor, Needs, Normalize, BelongsTo, Under, ImageDirMap;
    if Triggered(lib, rules, project, files, n) {
      var f, d :| f in files && IsImageFile(lib, rules, f) && IsTriggerDir(project, n, d) && Under(d, Normalize(lib, f));
      var m :| Needs(project, n, m) && m in ImageDirMap(project) && d in ImageDirMap(project)[m];
      DirectoryOwns(project, m, d, Normalize(lib, f));
    }
    if f, m :| f in files && Counts(lib, config, Normalize(lib, f)) && Needs(project, n, m) && BelongsTo(project, m, Normalize(lib, f)) {
      var d := OwnDirectory(project, m, Normalize(lib, f));
      assert IsTriggerDir(project, n, d);
    }
  }

  lemma DirectoryOwns(project: Project, m: string, d: string, file: string)
    requires m in ImageDirMap(project) && d in ImageDirMap(project)[m] && Under(d, file)
    ensures BelongsTo(project, m, file)
  {
    OwnersIff(project, file, m);
    hide ImageDirMap, Under, BelongsTo;
    assert m in Owners(ImageDirMap(project), file);
  }

  lemma OwnDirectory(project: Project, m: string, file: string) returns (d: string)
    requires BelongsTo(project, m, file)
    ensures m in ImageDirMap(project) && d in ImageDirMap(project)[m] && Under(d, file)
  {
    OwnersIff(project, file, m);
    hide ImageDirMap, Under, BelongsTo;
    d :| d in ImageDirMap(project)[m] && Under(d, file);
  }

  /** The result of Detect in terms of the configuration and of path components: it is global exactly
      when some file rebuilds everything; otherwise an image is affected exactly when a file that
      counts belongs to an image it needs; and the changed images are those that files belong to. */
  lemma DetectedMeaning(lib: Paths, project: Project, files: seq<string>, config: Config, s: ChangeSet)
    requires config.unmatched in {"", "all", "ignore"}
    requires IsDetected(lib, project, files, config, s)
    ensures s.global <==> exists f :: f in files && RebuildsAll(lib, project, config, Normalize(lib, f))
    ensures s.global ==> Elems(s.affected) == project.Keys
    ensures !s.global ==> forall n :: n in s.affected <==> AffectedBy(lib, project, config, files, n)
    ensures forall n :: n in s.changed <==> exists f :: f in files && Counts(lib, config, Normalize(lib, f)) && BelongsTo(project, n, Normalize(lib, f))
  {
    var rules := RulesFor(project, config);
    forall f ensures EffectOf(lib, rules, f) == Everything <==> RebuildsAll(lib, project, config, Normalize(lib, f)) {
      EverythingIff(lib, project, config, f);
    }
    forall n ensures Triggered(lib, rules, project, files, n) <==> AffectedBy(lib, project, config, files, n) {
      TriggeredIff(lib, project, config, files, n);
    }
    forall n ensures ChangesImage(lib, rules, files, n)
      <==> exists f :: f in files && Counts(lib, config, Normalize(lib, f)) && BelongsTo(project, n, Normalize(lib, f))
    {
      ChangedMeaning(lib, project, config, files, n);
    }
    hide EffectOf, RulesFor, Triggered, AffectedBy, ChangesImage, Counts, BelongsTo, RebuildsAll, Normalize;
  }

  ghost predicate AffectedBy(lib: Paths, project: Project, config: Config, files: seq<string>, n: string) {
    exists f, m :: f in files && Counts(lib, config, Normalize(lib, f)) && Needs(project, n, m) && BelongsTo(project, m, Normalize(lib, f))
  }

  lemma ChangedMeaning(lib: Paths, project: Project, config: Config, files: seq<string>, n: string)
    requires config.unmatched in {"", "all", "ignore"}
    ensures ChangesImage(lib, RulesFor(project, config), files, n)
      <==> exists f :: f in files && Counts(lib, config, Normalize(lib, f)) && BelongsTo(project, n, Normalize(lib, f))
  {
    var rules := RulesFor(project, config);
    ChangedIff(lib, rules, files, n);
    assert rules.imageDirs == ImageDirMap(project);
    forall f ensures IsImageFile(lib, rules, f) <==> Counts(lib, config, Normalize(lib, f)) {
      GlobalIff(lib, project, config, Normalize(lib, f));
    }
    hide Counts, IsImageFile, RulesFor, Normalize, BelongsTo, Under, ImageDirMap, ChangesImage;
    if ChangesImage(lib, rules, files, n) {
      var f, d :| f in files && IsImageFile(lib, rules, f) && d in rules.imageDirs[n] && Under(d, Normalize(lib, f));
      DirectoryOwns(project, n, d, Normalize(lib, f));
    }
    if f :| f in files && Counts(lib, config, Normalize(lib, f)) && BelongsTo(project, n, Normalize(lib, f)) {
      var d := OwnDirectory(project, n, Normalize(lib, f));
    }
  }
}

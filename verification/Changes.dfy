/** Change detection: from changed files to affected images, and back from an image to the
    directories that trigger it. */
module Changes {
  import opened Wrappers
  import opened Ordering
  import opened Digraphs

  // ---------- Expand ----------

  ghost predicate IsChain(succ: string -> set<string>, p: seq<string>) {
    |p| > 0 && forall i, j :: 0 <= i && j == i + 1 && j < |p| ==> p[j] in succ(p[i])
  }

  ghost predicate Follows(succ: string -> set<string>, a: string, b: string) {
    exists p :: IsChain(succ, p) && p[0] == a && p[|p|-1] == b
  }

  ghost predicate FollowsSome(succ: string -> set<string>, start: set<string>, b: string) {
    exists a :: a in start && Follows(succ, a, b)
  }

  lemma FollowsSelf(succ: string -> set<string>, start: set<string>, a: string)
    requires a in start
    ensures FollowsSome(succ, start, a)
  {
    assert IsChain(succ, [a]);
    assert Follows(succ, a, a);
  }

  lemma FollowsStep(succ: string -> set<string>, start: set<string>, b: string, c: string)
    requires FollowsSome(succ, start, b) && c in succ(b)
    ensures FollowsSome(succ, start, c)
  {
    var a :| a in start && Follows(succ, a, b);
    var p :| IsChain(succ, p) && p[0] == a && p[|p|-1] == b;
    assert IsChain(succ, p + [c]);
    assert Follows(succ, a, c);
  }

  lemma {:induction false} ClosedUnderChain(succ: string -> set<string>, seen: set<string>, p: seq<string>)
    requires forall n :: n in seen ==> succ(n) <= seen
    requires IsChain(succ, p) && p[0] in seen
    ensures p[|p|-1] in seen
    decreases |p|
  {
    if |p| > 1 {
      var q := p[..|p|-1];
      ClosedUnderChain(succ, seen, q);
      assert p[|p|-1] in succ(p[|p|-2]);
    }
  }

  /** Everything seen is reachable, everything reachable is seen or still waits behind the queue. */
  ghost predicate Exploring(succ: string -> set<string>, start: set<string>, seen: set<string>, queue: seq<string>) {
    && (forall n :: n in seen ==> FollowsSome(succ, start, n))
    && (forall n :: n in queue ==> FollowsSome(succ, start, n))
    && start <= seen + Elems(queue)
    && (forall n :: n in seen ==> succ(n) <= seen + Elems(queue))
  }

  /** The names reachable from start. next is what the callback returns for a name; it is asked
      once per name, so its order does not matter. The worklist ends because the names that can
      be reached lie in a finite set. */
  method Expand(start: seq<string>, next: string -> seq<string>, ghost universe: set<string>) returns (result: seq<string>)
    requires Elems(start) <= universe
    requires forall n :: n in universe ==> Elems(next(n)) <= universe
    ensures SortedBy(result, LessEq) && NoDup(result)
    ensures forall n :: n in result <==> FollowsSome(x => Elems(next(x)), Elems(start), n)
  {
    hide *;
    ghost var succ := (x: string) => Elems(next(x));
    var seen: set<string> := {};
    var queue := start;
    StartExploring(succ, start);
    while |queue| > 0
      invariant seen <= universe && Elems(queue) <= universe
      invariant Exploring(succ, Elems(start), seen, queue)
      decreases |universe - seen|, |queue|
    {
      var name := queue[0];
      assert name in Elems(queue);
      TailElems(queue);
      queue := queue[1..];
      if name in seen {
        SkipSeen(succ, Elems(start), seen, name, queue);
        continue;
      }
      VisitName(succ, Elems(start), seen, name, queue, next(name));
      SubsetSizeStrict(universe - (seen + {name}), universe - seen);
      seen := seen + {name};
      queue := queue + next(name);
    }
    DoneExploring(succ, Elems(start), seen, queue);
    result := ListSet(seen);
    result := Sorted(result);
  }

  lemma TailElems(queue: seq<string>)
    requires |queue| > 0
    ensures queue == [queue[0]] + queue[1..]
    ensures Elems(queue) == {queue[0]} + Elems(queue[1..])
  {
  }

  lemma StartExploring(succ: string -> set<string>, start: seq<string>)
    ensures Exploring(succ, Elems(start), {}, start)
  {
    forall n | n in start ensures FollowsSome(succ, Elems(start), n) { FollowsSelf(succ, Elems(start), n); }
  }

  lemma SkipSeen(succ: string -> set<string>, start: set<string>, seen: set<string>, name: string, queue: seq<string>)
    requires Exploring(succ, start, seen, [name] + queue) && name in seen
    ensures Exploring(succ, start, seen, queue)
  {
    hide FollowsSome;
    TailElems([name] + queue);
  }

  lemma VisitName(succ: string -> set<string>, start: set<string>, seen: set<string>, name: string, queue: seq<string>, more: seq<string>)
    requires Exploring(succ, start, seen, [name] + queue) && Elems(more) == succ(name)
    ensures Exploring(succ, start, seen + {name}, queue + more)
    ensures Elems(queue + more) == Elems(queue) + Elems(more)
  {
    hide FollowsSome;
    TailElems([name] + queue);
    assert FollowsSome(succ, start, name);
    forall n | n in more ensures FollowsSome(succ, start, n) {
      assert n in Elems(more);
      FollowsStep(succ, start, name, n);
    }
  }

  lemma DoneExploring(succ: string -> set<string>, start: set<string>, seen: set<string>, queue: seq<string>)
    requires Exploring(succ, start, seen, queue) && queue == []
    ensures forall n :: n in seen <==> FollowsSome(succ, start, n)
  {
    forall n | FollowsSome(succ, start, n) ensures n in seen {
      var a :| a in start && Follows(succ, a, n);
      var p :| IsChain(succ, p) && p[0] == a && p[|p|-1] == n;
      ClosedUnderChain(succ, seen, p);
    }
  }

  // ---------- Classify ----------

  /** The library functions Classify calls; nothing is assumed about them. */
  datatype Paths = Paths(
    trim: string -> string,
    clean: string -> string,
    validPattern: string -> bool,
    matches: (string, string) -> bool)

  datatype Unmatched = All | Ignore

  datatype Rules = Rules(exclude: seq<string>, treatAsGlobal: seq<string>, imageDirs: map<string, seq<string>>, unmatched: Unmatched)

  datatype Classification = Classification(global: bool, globalFile: string, changed: seq<string>)

  function Normalize(lib: Paths, file: string): string {
    var f := lib.trim(file);
    if f == "" then "" else
      var c := lib.clean(f);
      if "./" <= c then c[2..] else c
  }

  predicate MatchAny(lib: Paths, patterns: seq<string>, file: string) {
    exists p :: p in patterns && lib.matches(p, file)
  }

  /** The file is the directory or lies below it. */
  predicate Under(dir: string, file: string) {
    file == dir || dir + "/" <= file
  }

  predicate UnderAny(dirs: seq<string>, file: string) {
    exists d :: d in dirs && Under(d, file)
  }

  predicate Outside(file: string) {
    file == ".." || "../" <= file
  }

  function Owners(imageDirs: map<string, seq<string>>, file: string): set<string> {
    set n | n in imageDirs && UnderAny(imageDirs[n], file)
  }

  /** What one changed file does: it is skipped, rebuilds everything, or changes images. */
  datatype Effect = Nothing | Everything | Images(names: set<string>)

  function EffectOf(lib: Paths, rules: Rules, file: string): Effect {
    var f := Normalize(lib, file);
    if f == "" then Nothing
    else if MatchAny(lib, rules.treatAsGlobal, f) then Everything
    else if MatchAny(lib, rules.exclude, f) then Nothing
    else if Owners(rules.imageDirs, f) != {} then Images(Owners(rules.imageDirs, f))
    else if Outside(f) || rules.unmatched == Ignore then Nothing
    else Everything
  }

  ghost predicate AnyEverything(lib: Paths, rules: Rules, files: seq<string>) {
    exists f :: f in files && EffectOf(lib, rules, f) == Everything
  }

  ghost predicate FirstEverything(lib: Paths, rules: Rules, files: seq<string>, i: int) {
    0 <= i < |files| && EffectOf(lib, rules, files[i]) == Everything && !AnyEverything(lib, rules, files[..i])
  }

  ghost predicate ChangesImage(lib: Paths, rules: Rules, files: seq<string>, name: string) {
    exists f :: f in files && EffectOf(lib, rules, f).Images? && name in EffectOf(lib, rules, f).names
  }

  method FirstInvalid(lib: Paths, patterns: seq<string>) returns (r: Option<string>)
    ensures r.Some? ==> r.value in patterns && !lib.validPattern(r.value)
    ensures r.None? ==> forall p :: p in patterns ==> lib.validPattern(p)
  {
    for i := 0 to |patterns|
      invariant forall p :: p in patterns[..i] ==> lib.validPattern(p)
    {
      PrefixStep(patterns, i);
      if !lib.validPattern(patterns[i]) {
        return Some(patterns[i]);
      }
    }
    assert patterns[..|patterns|] == patterns;
    return None;
  }

  ghost predicate Classified(lib: Paths, rules: Rules, files: seq<string>, global: bool, globalFile: string, changed: set<string>) {
    && (global <==> AnyEverything(lib, rules, files))
    && (global ==> exists i :: FirstEverything(lib, rules, files, i) && globalFile == Normalize(lib, files[i]))
    && (forall n :: n in changed <==> ChangesImage(lib, rules, files, n))
  }

  /** Only the first file that rebuilds everything is remembered. */
  method MarkGlobal(global0: bool, globalFile0: string, file: string) returns (global: bool, globalFile: string)
    ensures global && globalFile == if global0 then globalFile0 else file
  {
    global, globalFile := global0, globalFile0;
    if !global {
      global, globalFile := true, file;
    }
  }

  method ImagesOwning(imageDirs: map<string, seq<string>>, file: string) returns (names: seq<string>)
    ensures Elems(names) == Owners(imageDirs, file)
  {
    names := [];
    var todo := imageDirs.Keys;
    while todo != {}
      invariant todo <= imageDirs.Keys
      invariant forall n :: n in names <==> n in imageDirs && n !in todo && UnderAny(imageDirs[n], file)
      decreases todo
    {
      var name :| name in todo;
      todo := todo - {name};
      var dirs := imageDirs[name];
      var i := 0;
      while i < |dirs| && !Under(dirs[i], file)
        invariant 0 <= i <= |dirs|
        invariant forall k :: 0 <= k < i ==> !Under(dirs[k], file)
      {
        i := i + 1;
      }
      if i < |dirs| {
        names := names + [name];
      }
    }
  }

  method Classify(lib: Paths, files: seq<string>, rules: Rules) returns (r: Result<Classification, string>)
    ensures r.Success? <==> forall p :: p in rules.exclude + rules.treatAsGlobal ==> lib.validPattern(p)
    ensures r.Failure? ==> r.error in rules.exclude + rules.treatAsGlobal && !lib.validPattern(r.error)
    ensures r.Success? ==>
      && Classified(lib, rules, files, r.value.global, r.value.globalFile, Elems(r.value.changed))
      && SortedBy(r.value.changed, LessEq) && NoDup(r.value.changed)
  {
    var bad := FirstInvalid(lib, rules.exclude);
    if bad.Some? {
      return Failure(bad.value);
    }
    bad := FirstInvalid(lib, rules.treatAsGlobal);
    if bad.Some? {
      return Failure(bad.value);
    }
    hide Classified, MatchAny, Normalize, Owners, AnyEverything, ChangesImage, SortedBy, NoDup;
    var global, globalFile := false, "";
    var changed: set<string> := {};
    for i := 0 to |files|
      invariant Classified(lib, rules, files[..i], global, globalFile, changed)
    {
      OneMoreFile(lib, rules, files, i, global, globalFile, changed);
      var file := Normalize(lib, files[i]);
      if file == "" {
        continue;
      }
      if MatchAny(lib, rules.treatAsGlobal, file) {
        global, globalFile := MarkGlobal(global, globalFile, file);
        continue;
      }
      if MatchAny(lib, rules.exclude, file) {
        continue;
      }
      var names := ImagesOwning(rules.imageDirs, file);
      if |names| > 0 {
        assert names[0] in Owners(rules.imageDirs, file);
        changed := changed + Elems(names);
        continue;
      }
      if Outside(file) {
        continue;
      }
      if rules.unmatched != Ignore {
        global, globalFile := MarkGlobal(global, globalFile, file);
      }
    }
    assert files[..|files|] == files;
    var listed := ListSet(changed);
    listed := Sorted(listed);
    return Success(Classification(global, globalFile, listed));
  }

  lemma OneMoreFile(lib: Paths, rules: Rules, files: seq<string>, i: nat, global: bool, globalFile: string, changed: set<string>)
    requires i < |files| && Classified(lib, rules, files[..i], global, globalFile, changed)
    ensures var e := EffectOf(lib, rules, files[i]);
      && (e == Nothing ==> Classified(lib, rules, files[..i+1], global, globalFile, changed))
      && (e == Everything ==> Classified(lib, rules, files[..i+1], true, if global then globalFile else Normalize(lib, files[i]), changed))
      && (e.Images? ==> Classified(lib, rules, files[..i+1], global, globalFile, changed + e.names))
  {
    hide EffectOf, Normalize;
    var now, more := files[..i], files[..i+1];
    PrefixStep(files, i);
    assert files[i] in more;
    assert AnyEverything(lib, rules, more) <==> AnyEverything(lib, rules, now) || EffectOf(lib, rules, files[i]) == Everything;
    assert forall k :: 0 <= k < i ==> now[k] == more[k] && now[..k] == more[..k];
    assert more[..i] == now;
    assert forall k :: FirstEverything(lib, rules, now, k) ==> FirstEverything(lib, rules, more, k);
    if EffectOf(lib, rules, files[i]) == Everything && !global {
      assert FirstEverything(lib, rules, more, i);
    }
    assert more == now + [files[i]];
  }
}

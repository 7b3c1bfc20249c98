/** GenerateTags: from the raw versions of a source to the tags of a range. */
module TagPipeline {
  import opened Wrappers
  import opened Ordering
  import opened Versions
  import opened TagRanges
  import opened TagGeneration

  datatype RawVersion = RawVersion(raw: string, prerelease: bool, extra: map<string, string>)

  type Values = map<string, string>

  datatype GeneratedTag = GeneratedTag(name: string, versions: Values, buildArgs: Values, labels: Values, isPrerelease: bool, range: string)

  /** The version parser and the template renderers; nothing is assumed about them. */
  datatype Lib = Lib(
    parse: string -> Option<Version>,
    tagName: Candidate -> Option<string>,
    versions: Candidate -> Option<Values>,
    buildArgs: Candidate -> Option<Values>,
    labels: Candidate -> Option<Values>)

  datatype FilterConfig = FilterConfig(
    excludePrerelease: Option<bool>,
    excludeSuffixes: seq<string>,
    minVersion: string,
    maxVersion: string,
    maxMajorIncrement: int)

  datatype TagRange = TagRange(tagName: string, filter: Option<FilterConfig>, select: Option<SelectConfig>, maxTags: int)

  datatype GenError = NoTagName | NothingParsed | BadFilter | NothingLeft | RenderFailed | TooManyTags

  const DEFAULT_MAX_TAGS := 50

  // ---------- parse ----------

  function ParseOne(lib: Lib, v: RawVersion): seq<Candidate> {
    match lib.parse(v.raw)
    case None => []
    case Some(ver) => [Candidate(ver, v.raw, v.prerelease || ver.pre != [], v.extra)]
  }

  function ParseAll(lib: Lib, raw: seq<RawVersion>): seq<Candidate> {
    if raw == [] then [] else ParseAll(lib, raw[..|raw|-1]) + ParseOne(lib, raw[|raw|-1])
  }

  function Unparsed(lib: Lib, raw: seq<RawVersion>): seq<string> {
    if raw == [] then [] else
      var last := raw[|raw|-1].raw;
      Unparsed(lib, raw[..|raw|-1]) + if lib.parse(last).None? then [last] else []
  }

  method ParseCandidates(lib: Lib, raw: seq<RawVersion>) returns (candidates: seq<Candidate>, unparsed: seq<string>)
    ensures candidates == ParseAll(lib, raw) && unparsed == Unparsed(lib, raw)
  {
    candidates, unparsed := [], [];
    for i := 0 to |raw|
      invariant candidates == ParseAll(lib, raw[..i]) && unparsed == Unparsed(lib, raw[..i])
    {
      assert raw[..i+1][..i] == raw[..i];
      var v := raw[i];
      match lib.parse(v.raw) {
        case None => unparsed := unparsed + [v.raw];
        case Some(ver) => candidates := candidates + [Candidate(ver, v.raw, v.prerelease || ver.pre != [], v.extra)];
      }
    }
    assert raw[..|raw|] == raw;
  }

  lemma {:induction false} ParseSplit(lib: Lib, a: seq<RawVersion>, b: seq<RawVersion>)
    ensures ParseAll(lib, a + b) == ParseAll(lib, a) + ParseAll(lib, b)
    decreases |b|
  {
    hide ParseOne;
    var n := |a + b| - 1;
    if b == [] {
      assert a + b == a;
    } else {
      ParseSplit(lib, a, b[..|b|-1]);
      assert (a + b)[..n] == a + b[..|b|-1] && (a + b)[n] == b[|b|-1];
      assert ParseAll(lib, a + b) == ParseAll(lib, (a + b)[..n]) + ParseOne(lib, (a + b)[n]);
    }
  }

  lemma ParseRemove(lib: Lib, b: seq<RawVersion>, k: nat)
    requires k < |b|
    ensures multiset(ParseAll(lib, b)) == multiset(ParseAll(lib, b[..k] + b[k+1..])) + multiset(ParseOne(lib, b[k]))
    ensures multiset(b) == multiset(b[..k] + b[k+1..]) + multiset{b[k]}
  {
    hide ParseOne;
    var l, x, r := b[..k], b[k], b[k+1..];
    assert b == l + [x] + r;
    ParseSplit(lib, l, r);
    ParseSplit(lib, l, [x]);
    ParseSplit(lib, l + [x], r);
  }

  /** Parsing a permutation gives a permutation of the candidates. */
  lemma {:induction false} ParsePermutes(lib: Lib, a: seq<RawVersion>, b: seq<RawVersion>)
    requires multiset(a) == multiset(b)
    ensures multiset(ParseAll(lib, a)) == multiset(ParseAll(lib, b))
    decreases |a|
  {
    hide ParseOne, ParseAll;
    MultisetMembers(a, b);
    if a != [] {
      var x := a[0];
      assert x in a;
      var k :| 0 <= k < |b| && b[k] == x;
      ParseRemove(lib, a, 0);
      ParseRemove(lib, b, k);
      var u, v := a[..0] + a[1..], b[..k] + b[k+1..];
      Cancel(multiset(u), multiset(v), x);
      ParsePermutes(lib, u, v);
    }
  }

  lemma Cancel(u: multiset<RawVersion>, v: multiset<RawVersion>, x: RawVersion)
    requires u + multiset{x} == v + multiset{x}
    ensures u == v
  {
    assert u == (u + multiset{x}) - multiset{x};
    assert v == (v + multiset{x}) - multiset{x};
  }

  /** Every candidate comes from a raw version with its raw string. */
  lemma {:induction false} ParsedFrom(lib: Lib, raw: seq<RawVersion>, c: Candidate)
    requires c in ParseAll(lib, raw)
    ensures exists v :: v in raw && v.raw == c.raw
  {
    var front, last := raw[..|raw|-1], raw[|raw|-1];
    if c in ParseAll(lib, front) {
      ParsedFrom(lib, front, c);
      var v :| v in front && v.raw == c.raw;
      assert v in raw;
    } else {
      assert last in raw && last.raw == c.raw;
    }
  }

  lemma {:induction false} ParsedDistinct(lib: Lib, raw: seq<RawVersion>)
    requires forall i, j :: 0 <= i < j < |raw| ==> raw[i].raw != raw[j].raw
    ensures DistinctRaws(ParseAll(lib, raw))
  {
    if raw != [] {
      var front, last := raw[..|raw|-1], raw[|raw|-1];
      ParsedDistinct(lib, front);
      forall c | c in ParseAll(lib, front) ensures c.raw != last.raw {
        ParsedFrom(lib, front, c);
        var v :| v in front && v.raw == c.raw;
        var i :| 0 <= i < |front| && front[i] == v;
        assert raw[i].raw != raw[|raw|-1].raw;
      }
    }
  }

  // ---------- filter ----------

  /** strings.Contains: despite its name, exclude_suffixes matches anywhere in the raw string. */
  predicate Contains(s: string, part: string) {
    exists i :: 0 <= i <= |s| && part <= s[i..]
  }

  predicate HasAnySuffix(raw: string, suffixes: seq<string>) {
    exists x :: x in suffixes && Contains(raw, x)
  }

  /** What a filter block comes down to; None when a version bound does not parse. */
  datatype Filters = Filters(excludePrerelease: bool, suffixes: seq<string>, min: Option<Version>, max: Option<Version>, maxMajorIncrement: int)

  function ReadBound(lib: Lib, text: string): Option<Option<Version>> {
    if text == "" then Some(None)
    else if lib.parse(text).None? then None
    else Some(lib.parse(text))
  }

  function ReadFilters(lib: Lib, filter: Option<FilterConfig>): Option<Filters> {
    match filter
    case None => Some(Filters(true, [], None, None, 0))
    case Some(f) =>
      var min, max := ReadBound(lib, f.minVersion), ReadBound(lib, f.maxVersion);
      if min.None? || max.None? then None
      else Some(Filters(f.excludePrerelease.GetOr(true), f.excludeSuffixes, min.value, max.value, f.maxMajorIncrement))
  }

  predicate Passes(f: Filters, c: Candidate) {
    && !(f.excludePrerelease && c.prerelease)
    && !HasAnySuffix(c.raw, f.suffixes)
    && (f.min.None? || Compare(c.ver, f.min.value) >= 0)
    && (f.max.None? || Compare(c.ver, f.max.value) <= 0)
  }

  function Passing(f: Filters): Candidate -> bool {
    c => Passes(f, c)
  }

  ghost predicate IsFiltered(lib: Lib, candidates: seq<Candidate>, filter: Option<FilterConfig>, r: Result<seq<Candidate>, GenError>) {
    match ReadFilters(lib, filter)
    case None => r == Failure(BadFilter)
    case Some(f) => if r.Success? then r.value != [] && IsGuarded(Keep(candidates, Passing(f)), f.maxMajorIncrement, r.value)
      else r.error == NothingLeft && Keep(candidates, Passing(f)) == []
  }

  method ApplyFilters(lib: Lib, candidates: seq<Candidate>, filter: Option<FilterConfig>) returns (r: Result<seq<Candidate>, GenError>)
    ensures IsFiltered(lib, candidates, filter, r)
  {
    var read := ReadFilters(lib, filter);
    if read.None? {
      return Failure(BadFilter);
    }
    var f := read.value;
    var filtered := [];
    for i := 0 to |candidates|
      invariant filtered == Keep(candidates[..i], Passing(f))
    {
      assert candidates[..i+1][..i] == candidates[..i];
      var c := candidates[i];
      if f.excludePrerelease && c.prerelease { continue; }
      if HasAnySuffix(c.raw, f.suffixes) { continue; }
      if f.min.Some? && Compare(c.ver, f.min.value) < 0 { continue; }
      if f.max.Some? && Compare(c.ver, f.max.value) > 0 { continue; }
      filtered := filtered + [c];
    }
    assert candidates[..|candidates|] == candidates;
    ghost var passed := filtered;
    filtered := ApplyMaxMajorIncrement(filtered, f.maxMajorIncrement);
    if passed != [] { GuardNeverEmpties(passed, f.maxMajorIncrement, filtered); }
    if |filtered| == 0 {
      return Failure(NothingLeft);
    }
    return Success(filtered);
  }

  // ---------- render ----------

  function RenderOne(lib: Lib, rangeLabel: string, name: string, c: Candidate): Option<GeneratedTag> {
    match (lib.versions(c), lib.buildArgs(c), lib.labels(c))
    case (Some(v), Some(b), Some(l)) => Some(GeneratedTag(name, v, b, l, c.prerelease, rangeLabel))
    case _ => None
  }

  /** The tags of a list of candidates whose earlier neighbours rendered the names in seen. */
  function RenderAll(lib: Lib, rangeLabel: string, s: seq<Candidate>, seen: set<string>): Option<seq<GeneratedTag>> {
    if s == [] then Some([]) else
      match lib.tagName(s[0])
      case None => None
      case Some(name) =>
        if name in seen then RenderAll(lib, rangeLabel, s[1..], seen)
        else match RenderOne(lib, rangeLabel, name, s[0])
          case None => None
          case Some(tag) => Prepend([tag], RenderAll(lib, rangeLabel, s[1..], seen + {name}))
  }

  function Prepend(tags: seq<GeneratedTag>, r: Option<seq<GeneratedTag>>): Option<seq<GeneratedTag>> {
    if r.None? then None else Some(tags + r.value)
  }

  lemma PrependLaws(a: seq<GeneratedTag>, b: seq<GeneratedTag>, r: Option<seq<GeneratedTag>>)
    ensures Prepend(a, Prepend(b, r)) == Prepend(a + b, r)
    ensures Prepend([], r) == r
    ensures Prepend(a, Some([])) == Some(a)
  {
    if r.Some? {
      assert a + (b + r.value) == a + b + r.value;
      assert [] + r.value == r.value;
    }
    assert a + [] == a;
  }

  method RenderTags(lib: Lib, rangeLabel: string, selected: seq<Candidate>) returns (r: Option<seq<GeneratedTag>>)
    ensures r == RenderAll(lib, rangeLabel, selected, {})
  {
    var seen: set<string> := {};
    var tags: seq<GeneratedTag> := [];
    assert selected[0..] == selected;
    PrependLaws([], [], RenderAll(lib, rangeLabel, selected, {}));
    for i := 0 to |selected|
      invariant RenderAll(lib, rangeLabel, selected, {}) == Prepend(tags, RenderAll(lib, rangeLabel, selected[i..], seen))
    {
      var c := selected[i];
      assert selected[i..][0] == c && selected[i..][1..] == selected[i+1..];
      var name := lib.tagName(c);
      if name.None? {
        return None;
      }
      if name.value in seen {
        continue;
      }
      var tag := RenderOne(lib, rangeLabel, name.value, c);
      if tag.None? {
        return None;
      }
      seen := seen + {name.value};
      PrependLaws(tags, [tag.value], RenderAll(lib, rangeLabel, selected[i+1..], seen));
      tags := tags + [tag.value];
    }
    PrependLaws(tags, [], Some([]));
    return Some(tags);
  }

  /** tag is what the first candidate of s with this name renders to. */
  ghost predicate FirstRender(lib: Lib, rangeLabel: string, s: seq<Candidate>, i: int, tag: GeneratedTag) {
    && 0 <= i < |s|
    && lib.tagName(s[i]) == Some(tag.name)
    && RenderOne(lib, rangeLabel, tag.name, s[i]) == Some(tag)
    && forall j :: 0 <= j < i ==> lib.tagName(s[j]) != Some(tag.name)
  }

  ghost predicate DistinctNames(tags: seq<GeneratedTag>) {
    forall i, j :: 0 <= i < j < |tags| ==> tags[i].name != tags[j].name
  }

  /** Every tag is new and the first rendering of its name. */
  ghost predicate AllFirst(lib: Lib, rangeLabel: string, s: seq<Candidate>, seen: set<string>, tags: seq<GeneratedTag>) {
    forall t :: t in tags ==> t.name !in seen && exists i :: FirstRender(lib, rangeLabel, s, i, t)
  }

  /** Every candidate's name was seen before or is among the tags. */
  ghost predicate AllNamed(lib: Lib, s: seq<Candidate>, seen: set<string>, tags: seq<GeneratedTag>) {
    forall c :: c in s ==> lib.tagName(c).Some? && (lib.tagName(c).value in seen || exists t :: t in tags && t.name == lib.tagName(c).value)
  }

  lemma AllFirstShift(lib: Lib, rangeLabel: string, s: seq<Candidate>, seen: set<string>, more: set<string>, tags: seq<GeneratedTag>)
    requires s != [] && lib.tagName(s[0]).Some? && lib.tagName(s[0]).value in more && seen <= more
    requires AllFirst(lib, rangeLabel, s[1..], more, tags)
    ensures AllFirst(lib, rangeLabel, s, seen, tags)
  {
    hide RenderOne;
    forall t | t in tags ensures exists i :: FirstRender(lib, rangeLabel, s, i, t) {
      var i :| FirstRender(lib, rangeLabel, s[1..], i, t);
      forall j | 0 <= j < i + 1 ensures lib.tagName(s[j]) != Some(t.name) {
        if j > 0 { assert s[j] == s[1..][j-1]; }
      }
      assert FirstRender(lib, rangeLabel, s, i + 1, t);
    }
  }

  lemma TakeTag(lib: Lib, rangeLabel: string, s: seq<Candidate>, seen: set<string>, tag: GeneratedTag, rest: seq<GeneratedTag>)
    requires s != [] && lib.tagName(s[0]) == Some(tag.name) && RenderOne(lib, rangeLabel, tag.name, s[0]) == Some(tag) && tag.name !in seen
    requires DistinctNames(rest) && AllFirst(lib, rangeLabel, s[1..], seen + {tag.name}, rest)
    ensures DistinctNames([tag] + rest) && AllFirst(lib, rangeLabel, s, seen, [tag] + rest)
  {
    hide RenderOne;
    AllFirstShift(lib, rangeLabel, s, seen, seen + {tag.name}, rest);
    assert FirstRender(lib, rangeLabel, s, 0, tag);
    forall j | 0 <= j < |rest| ensures rest[j].name != tag.name {
      assert rest[j] in rest;
    }
  }

  lemma {:induction false} RenderedTags(lib: Lib, rangeLabel: string, s: seq<Candidate>, seen: set<string>, tags: seq<GeneratedTag>)
    requires RenderAll(lib, rangeLabel, s, seen) == Some(tags)
    ensures DistinctNames(tags) && AllFirst(lib, rangeLabel, s, seen, tags) && AllNamed(lib, s, seen, tags)
  {
    hide DistinctNames, AllFirst, RenderOne, FirstRender;
    if s == [] {
      NoTags(lib, rangeLabel, seen);
    } else {
      var name := lib.tagName(s[0]).value;
      if name in seen {
        RenderedTags(lib, rangeLabel, s[1..], seen, tags);
        AllFirstShift(lib, rangeLabel, s, seen, seen, tags);
        assert s == [s[0]] + s[1..];
      } else {
        var tag := RenderOne(lib, rangeLabel, name, s[0]).value;
        var rest := tags[1..];
        assert tags == [tag] + rest;
        RenderedTags(lib, rangeLabel, s[1..], seen + {name}, rest);
        RenderedName(lib, rangeLabel, name, s[0], tag);
        TakeTag(lib, rangeLabel, s, seen, tag, rest);
      }
    }
  }

  lemma NoTags(lib: Lib, rangeLabel: string, seen: set<string>)
    ensures DistinctNames([]) && AllFirst(lib, rangeLabel, [], seen, [])
  {
  }

  lemma RenderedName(lib: Lib, rangeLabel: string, name: string, c: Candidate, tag: GeneratedTag)
    requires RenderOne(lib, rangeLabel, name, c) == Some(tag)
    ensures tag.name == name
  {
  }

  // ---------- the pipeline ----------

  /** The outcome of GenerateTags. */
  ghost predicate Generates(lib: Lib, rangeLabel: string, tr: TagRange, raw: seq<RawVersion>, r: Result<seq<GeneratedTag>, GenError>) {
    if tr.tagName == "" then r == Failure(NoTagName)
    else if ParseAll(lib, raw) == [] then r == Failure(NothingParsed)
    else exists filtered :: IsFiltered(lib, ParseAll(lib, raw), tr.filter, filtered) && Finishes(lib, rangeLabel, tr, filtered, r)
  }

  /** The steps after filtering: sort, select, render, cap. */
  ghost predicate Finishes(lib: Lib, rangeLabel: string, tr: TagRange, filtered: Result<seq<Candidate>, GenError>, r: Result<seq<GeneratedTag>, GenError>) {
    if filtered.Failure? then r == Failure(filtered.error)
    else match RenderAll(lib, rangeLabel, Selection(Descending(filtered.value), tr.select), {})
      case None => r == Failure(RenderFailed)
      case Some(tags) => r == if |tags| > MaxTags(tr) then Failure(TooManyTags) else Success(tags)
  }

  function MaxTags(tr: TagRange): int {
    if tr.maxTags <= 0 then DEFAULT_MAX_TAGS else tr.maxTags
  }

  method GenerateTags(lib: Lib, rangeLabel: string, tr: TagRange, raw: seq<RawVersion>) returns (r: Result<seq<GeneratedTag>, GenError>)
    ensures Generates(lib, rangeLabel, tr, raw, r)
  {
    hide IsFiltered, RenderAll, Selection, ParseAll, SortedBy, LevelsDescend;
    if tr.tagName == "" {
      return Failure(NoTagName);
    }
    var candidates, unparsed := ParseCandidates(lib, raw);
    if |candidates| == 0 {
      return Failure(NothingParsed);
    }
    var filtered := ApplyFilters(lib, candidates, tr.filter);
    if filtered.Failure? {
      assert Finishes(lib, rangeLabel, tr, filtered, Failure(filtered.error));
      return Failure(filtered.error);
    }
    var list := new Candidate[|filtered.value|](i requires 0 <= i < |filtered.value| => filtered.value[i]);
    assert list[..] == filtered.value;
    SortDescending(list);
    SortedLevels(list[..]);
    var selected := SelectVersions(list[..], tr.select);
    var tags := RenderTags(lib, rangeLabel, selected);
    if tags.None? {
      r := Failure(RenderFailed);
    } else if |tags.value| > (if tr.maxTags <= 0 then DEFAULT_MAX_TAGS else tr.maxTags) {
      r := Failure(TooManyTags);
    } else {
      r := Success(tags.value);
    }
    assert Finishes(lib, rangeLabel, tr, filtered, r);
  }

  lemma FilteredPermutes(lib: Lib, a: seq<Candidate>, b: seq<Candidate>, filter: Option<FilterConfig>,
                         p: Result<seq<Candidate>, GenError>, q: Result<seq<Candidate>, GenError>)
    requires multiset(a) == multiset(b) && DistinctRaws(a)
    requires IsFiltered(lib, a, filter, p) && IsFiltered(lib, b, filter, q)
    ensures if p.Failure? then q == p else q.Success? && multiset(p.value) == multiset(q.value) && DistinctRaws(p.value)
  {
    var read := ReadFilters(lib, filter);
    if read.Some? {
      var f := read.value;
      var x, y := Keep(a, Passing(f)), Keep(b, Passing(f));
      KeepPermutes(a, b, Passing(f));
      KeepDistinct(a, Passing(f));
      assert |multiset(x)| == |x| && |multiset(y)| == |y|;
      if x != [] {
        GuardPermutes(x, y, f.maxMajorIncrement, p.value, q.value);
      }
    }
  }

  lemma GuardPermutes(x: seq<Candidate>, y: seq<Candidate>, max: int, p: seq<Candidate>, q: seq<Candidate>)
    requires multiset(x) == multiset(y) && DistinctRaws(x)
    requires IsGuarded(x, max, p) && IsGuarded(y, max, q)
    ensures multiset(p) == multiset(q) && DistinctRaws(p)
  {
    MultisetMembers(x, y);
    if max > 0 && x != [] {
      var m :| Ascends(m) && Elems(m) == Majors(x) && p == CutAt(x, FirstGap(m, max, 1));
      assert Majors(x) == Majors(y);
      GuardUnique(y, max, CutAt(y, FirstGap(m, max, 1)), q);
      var below := (c: Candidate) => MajorKey(c) < FirstGap(m, max, 1);
      KeepPermutes(x, y, below);
      KeepDistinct(x, below);
    }
  }

  /** With pairwise distinct raw strings the order in which the source lists its versions does not
      matter: same tags in the same order, or the same failure. */
  lemma GenerationIgnoresOrder(lib: Lib, rangeLabel: string, tr: TagRange, a: seq<RawVersion>, b: seq<RawVersion>,
                               p: Result<seq<GeneratedTag>, GenError>, q: Result<seq<GeneratedTag>, GenError>)
    requires multiset(a) == multiset(b)
    requires forall i, j :: 0 <= i < j < |a| ==> a[i].raw != a[j].raw
    requires Generates(lib, rangeLabel, tr, a, p) && Generates(lib, rangeLabel, tr, b, q)
    ensures p == q
  {
    hide IsFiltered, Finishes, ParseAll, DistinctRaws;
    ParsePermutes(lib, a, b);
    ParsedDistinct(lib, a);
    var x, y := ParseAll(lib, a), ParseAll(lib, b);
    MultisetMembers(x, y);
    if tr.tagName != "" && x != [] {
      var f :| IsFiltered(lib, x, tr.filter, f) && Finishes(lib, rangeLabel, tr, f, p);
      var g :| IsFiltered(lib, y, tr.filter, g) && Finishes(lib, rangeLabel, tr, g, q);
      FilteredPermutes(lib, x, y, tr.filter, f, g);
      FinishesSame(lib, rangeLabel, tr, f, g, p, q);
    }
  }

  lemma FinishesSame(lib: Lib, rangeLabel: string, tr: TagRange, f: Result<seq<Candidate>, GenError>, g: Result<seq<Candidate>, GenError>,
                     p: Result<seq<GeneratedTag>, GenError>, q: Result<seq<GeneratedTag>, GenError>)
    requires if f.Failure? then g == f else g.Success? && multiset(f.value) == multiset(g.value) && DistinctRaws(f.value)
    requires Finishes(lib, rangeLabel, tr, f, p) && Finishes(lib, rangeLabel, tr, g, q)
    ensures p == q
  {
    hide RenderAll, Selection;
    if f.Success? {
      DescendingUnique(f.value, g.value);
    }
  }

  // ---------- which version a tag stands for ----------

  lemma {:induction false} PickIsSorted(s: seq<Candidate>, major: LevelSelect, minor: LevelSelect, patch: LevelSelect, hi: nat)
    requires hi <= |s| && SortedBy(s, Before)
    ensures SortedBy(Pick(s, major, minor, patch, 0, hi), Before)
    ensures forall c :: c in Pick(s, major, minor, patch, 0, hi) ==> c in s[..hi]
    decreases hi
  {
    if hi > 0 {
      PickIsSorted(s, major, minor, patch, hi - 1);
      var front := Pick(s, major, minor, patch, 0, hi - 1);
      assert s[..hi] == s[..hi-1] + [s[hi-1]];
      forall c | c in front ensures Before(c, s[hi-1]) {
        var i :| 0 <= i < hi - 1 && s[..hi-1][i] == c;
        assert s[i] == c;
      }
      var all := Pick(s, major, minor, patch, 0, hi);
      assert all == front || all == front + [s[hi-1]];
      forall i, j | 0 <= i < j < |all| ensures Before(all[i], all[j]) {
        assert all[i] == front[i] && front[i] in front;
      }
    }
  }

  /** c was selected for the range. */
  ghost predicate IsSelectedFor(lib: Lib, tr: TagRange, raw: seq<RawVersion>, s: seq<Candidate>) {
    exists filtered :: IsFiltered(lib, ParseAll(lib, raw), tr.filter, Success(filtered)) && s == Selection(Descending(filtered), tr.select)
  }

  /** t is what c renders to, and c comes before every selected candidate with the same name. */
  ghost predicate IsHighestRender(lib: Lib, rangeLabel: string, s: seq<Candidate>, c: Candidate, t: GeneratedTag) {
    && c in s
    && lib.tagName(c) == Some(t.name) && RenderOne(lib, rangeLabel, t.name, c) == Some(t)
    && forall d :: d in s && lib.tagName(d) == Some(t.name) ==> d == c || Before(c, d)
  }

  /** The names are distinct, every selected version has its name among them, and each tag carries
      the highest selected version that renders to it. */
  lemma TagsAreHighest(lib: Lib, rangeLabel: string, tr: TagRange, raw: seq<RawVersion>, tags: seq<GeneratedTag>) returns (s: seq<Candidate>)
    requires Generates(lib, rangeLabel, tr, raw, Success(tags))
    ensures IsSelectedFor(lib, tr, raw, s)
    ensures |tags| <= MaxTags(tr)
    ensures DistinctNames(tags)
    ensures forall c :: c in s ==> exists t :: t in tags && lib.tagName(c) == Some(t.name)
    ensures forall t :: t in tags ==> exists c :: IsHighestRender(lib, rangeLabel, s, c, t)
  {
    hide IsFiltered, RenderAll, Pick;
    var f :| IsFiltered(lib, ParseAll(lib, raw), tr.filter, f) && Finishes(lib, rangeLabel, tr, f, Success(tags));
    var sorted := Descending(f.value);
    s := Selection(sorted, tr.select);
    var (major, minor, patch) := Effective(tr.select);
    PickIsSorted(sorted, major, minor, patch, |sorted|);
    RenderedTags(lib, rangeLabel, s, {}, tags);
    forall t | t in tags ensures exists c :: IsHighestRender(lib, rangeLabel, s, c, t) {
      var i :| FirstRender(lib, rangeLabel, s, i, t);
      FirstIsHighest(lib, rangeLabel, s, i, t);
    }
  }

  lemma FirstIsHighest(lib: Lib, rangeLabel: string, s: seq<Candidate>, i: int, t: GeneratedTag)
    requires SortedBy(s, Before) && FirstRender(lib, rangeLabel, s, i, t)
    ensures IsHighestRender(lib, rangeLabel, s, s[i], t)
  {
    forall d | d in s && lib.tagName(d) == Some(t.name) ensures d == s[i] || Before(s[i], d) {
      var j :| 0 <= j < |s| && s[j] == d;
    }
  }
}

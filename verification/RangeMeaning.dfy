/** What a tag range means in terms of its configuration: the filters with their defaults, the select
    block with its defaults, and what a generated tag holds. */
module RangeMeaning {
  import opened Wrappers
  import opened Ordering
  import opened Versions
  import opened TagRanges
  import opened TagGeneration
  import opened TagPipeline

  // ---------- filters ----------

  /** The candidate passes a filter block: no prerelease unless they are let in, no excluded text
      anywhere in the raw string, and neither below the minimum nor above the maximum. */
  ghost predicate Meets(lib: Lib, filter: Option<FilterConfig>, c: Candidate) {
    && (c.prerelease ==> filter.Some? && filter.value.excludePrerelease == Some(false))
    && (filter.Some? ==> forall x, a, b :: x in filter.value.excludeSuffixes ==> c.raw != a + x + b)
    && (filter.Some? && filter.value.minVersion != "" ==>
          lib.parse(filter.value.minVersion).Some? && !VersionLess(c.ver, lib.parse(filter.value.minVersion).value))
    && (filter.Some? && filter.value.maxVersion != "" ==>
          lib.parse(filter.value.maxVersion).Some? && !VersionLess(lib.parse(filter.value.maxVersion).value, c.ver))
  }

  ghost predicate BoundsParse(lib: Lib, filter: Option<FilterConfig>) {
    filter.Some? ==>
      && (filter.value.minVersion != "" ==> lib.parse(filter.value.minVersion).Some?)
      && (filter.value.maxVersion != "" ==> lib.parse(filter.value.maxVersion).Some?)
  }

  lemma ContainsIff(s: string, part: string)
    ensures Contains(s, part) <==> exists a, b :: s == a + part + b
  {
    if Contains(s, part) {
      var i :| 0 <= i <= |s| && part <= s[i..];
      assert s == s[..i] + part + s[i + |part|..];
    }
    if a, b :| s == a + part + b {
      assert part <= s[|a|..];
    }
  }

  lemma SuffixesIff(raw: string, suffixes: seq<string>)
    ensures HasAnySuffix(raw, suffixes) <==> exists x, a, b :: x in suffixes && raw == a + x + b
  {
    forall x ensures Contains(raw, x) <==> exists a, b :: raw == a + x + b {
      ContainsIff(raw, x);
    }
    hide Contains;
    if HasAnySuffix(raw, suffixes) {
      var x :| x in suffixes && Contains(raw, x);
      var a, b :| raw == a + x + b;
      assert x in suffixes && raw == a + x + b;
    }
    if x, a, b :| x in suffixes && raw == a + x + b {
      assert Contains(raw, x);
    }
  }

  lemma PassesIffMeets(lib: Lib, filter: Option<FilterConfig>, c: Candidate)
    requires ReadFilters(lib, filter).Some?
    ensures BoundsParse(lib, filter)
    ensures Passes(ReadFilters(lib, filter).value, c) <==> Meets(lib, filter, c)
  {
    var f := ReadFilters(lib, filter).value;
    SuffixesIff(c.raw, f.suffixes);
    hide HasAnySuffix, VersionLess;
    if f.min.Some? { CompareSign(c.ver, f.min.value); }
    if f.max.Some? { CompareSign(c.ver, f.max.value); }
  }

  lemma CompareSign(a: Version, b: Version)
    ensures Compare(a, b) < 0 <==> VersionLess(a, b)
    ensures Compare(a, b) > 0 <==> VersionLess(b, a)
  {
    PrecedenceIsTotal(a, b);
  }

  function Limit(filter: Option<FilterConfig>): int {
    if filter.Some? then filter.value.maxMajorIncrement else 0
  }

  /** Filtering keeps, in order, the candidates that meet the block, but for those the guard drops; it
      fails exactly on an unreadable bound or when no candidate meets the block. */
  lemma FilteredMeaning(lib: Lib, candidates: seq<Candidate>, filter: Option<FilterConfig>, r: Result<seq<Candidate>, GenError>)
    requires IsFiltered(lib, candidates, filter, r)
    ensures r == Failure(BadFilter) <==> !BoundsParse(lib, filter)
    ensures r.Success? <==> BoundsParse(lib, filter) && exists c :: c in candidates && Meets(lib, filter, c)
    ensures r.Success? ==> r.value != [] && IsGuarded(Keep(candidates, c => Meets(lib, filter, c)), Limit(filter), r.value)
    ensures r.Success? && Limit(filter) <= 0 ==> r.value == Keep(candidates, c => Meets(lib, filter, c))
    ensures r.Success? ==> forall c :: c in r.value ==> c in candidates && Meets(lib, filter, c)
  {
    var read := ReadFilters(lib, filter);
    if read.Some? {
      var f := read.value;
      var meets := (c: Candidate) => Meets(lib, filter, c);
      forall c ensures Passing(f)(c) == meets(c) && BoundsParse(lib, filter) { PassesIffMeets(lib, filter, c); }
      hide ReadFilters, Passing, Meets, BoundsParse;
      KeepSame(candidates, Passing(f), meets);
      assert f.maxMajorIncrement == Limit(filter) by { LimitIs(lib, filter, f); }
      if r.Success? {
        GuardedPart(Keep(candidates, meets), f.maxMajorIncrement, r.value);
        var c := r.value[0];
        assert c in r.value && meets(c);
      } else {
        forall c | c in candidates ensures !meets(c) {
          assert meets(c) ==> c in Keep(candidates, meets);
        }
      }
    }
  }

  lemma LimitIs(lib: Lib, filter: Option<FilterConfig>, f: Filters)
    requires ReadFilters(lib, filter) == Some(f)
    ensures f.maxMajorIncrement == Limit(filter)
  {
  }

  lemma GuardedPart(s: seq<Candidate>, max: int, kept: seq<Candidate>)
    requires IsGuarded(s, max, kept)
    ensures forall c :: c in kept ==> c in s
    ensures max <= 0 ==> kept == s
  {
  }

  // ---------- select ----------

  /** A level keeps the highest only unless it is configured; then all, or as many as it says, and
      always one. */
  predicate LevelKeeps(level: Option<LevelSelect>, rank: nat) {
    rank == 0 || (level.Some? && (level.value.all || rank < level.value.last))
  }

  function MajorOf(sel: Option<SelectConfig>): Option<LevelSelect> { if sel.Some? then sel.value.major else None }

  function MinorOf(sel: Option<SelectConfig>): Option<LevelSelect> { if sel.Some? then sel.value.minor else None }

  function PatchOf(sel: Option<SelectConfig>): Option<LevelSelect> { if sel.Some? then sel.value.patch else None }

  ghost predicate SelectedAt(s: seq<Candidate>, sel: Option<SelectConfig>, i: nat)
    requires i < |s|
  {
    var v := s[i].ver;
    && LevelKeeps(MajorOf(sel), |set c | c in s && c.ver.major > v.major :: c.ver.major|)
    && LevelKeeps(MinorOf(sel), |set c | c in s && c.ver.major == v.major && c.ver.minor > v.minor :: c.ver.minor|)
    && LevelKeeps(PatchOf(sel), |set j: nat | j < i && s[j].ver.major == v.major && s[j].ver.minor == v.minor|)
  }

  lemma KeepsIff(level: Option<LevelSelect>, rank: nat)
    ensures KeepsRank(level.GetOr(LATEST_ONLY), rank) <==> LevelKeeps(level, rank)
  {
  }

  /** An entry is selected exactly when each level of the configuration keeps its rank. */
  lemma SelectedIff(s: seq<Candidate>, sel: Option<SelectConfig>, i: nat)
    requires i < |s|
    ensures var (major, minor, patch) := Effective(sel);
      IsSelected(s, major, minor, patch, i) <==> SelectedAt(s, sel, i)
  {
    KeepsIff(MajorOf(sel), |HigherMajors(s, s[i].ver.major)|);
    KeepsIff(MinorOf(sel), |HigherMinors(s, s[i].ver.major, s[i].ver.minor)|);
    KeepsIff(PatchOf(sel), |EarlierPeers(s, i)|);
    var (major, minor, patch) := Effective(sel);
    assert major == MajorOf(sel).GetOr(LATEST_ONLY) && minor == MinorOf(sel).GetOr(LATEST_ONLY) && patch == PatchOf(sel).GetOr(LATEST_ONLY);
    hide KeepsRank, LevelKeeps, Effective;
  }

  /** Without a select block the first of a descending list is selected, and nothing else. */
  lemma OnlyTheHighest(s: seq<Candidate>)
    requires LevelsDescend(s) && s != []
    ensures Selection(s, None) == [s[0]]
  {
    var (major, minor, patch) := Effective(None);
    forall i | 0 <= i < |s| ensures IsSelected(s, major, minor, patch, i) <==> i < 1 {
      SelectedIff(s, None, i);
      RankZero(s, i);
    }
    hide IsSelected, Effective;
    PickPrefix(s, major, minor, patch, 0, |s|, 1);
    assert s[0..1] == [s[0]];
  }

  lemma RankZero(s: seq<Candidate>, i: nat)
    requires LevelsDescend(s) && i < |s|
    ensures SelectedAt(s, None, i) <==> i == 0
  {
    var v := s[i].ver;
    var majors := set c | c in s && c.ver.major > v.major :: c.ver.major;
    var minors := set c | c in s && c.ver.major == v.major && c.ver.minor > v.minor :: c.ver.minor;
    var peers := set j: nat | j < i && s[j].ver.major == v.major && s[j].ver.minor == v.minor;
    if i == 0 {
      forall c | c in s ensures c.ver.major <= v.major && (c.ver.major == v.major ==> c.ver.minor <= v.minor) {
        var k :| 0 <= k < |s| && s[k] == c;
      }
      assert majors == {} && minors == {} && peers == {};
    } else {
      var u := s[0].ver;
      assert s[0] in s;
      if u.major > v.major {
        assert u.major in majors;
      } else if u.minor > v.minor {
        assert u.minor in minors;
      } else {
        assert 0 in peers;
      }
    }
  }

  // ---------- order ----------

  /** Sorted means: no version before a higher one, and equal versions by falling raw string. */
  lemma SortedMeaning(s: seq<Candidate>)
    ensures SortedBy(s, Before) <==> forall i, j :: 0 <= i < j < |s| ==> !VersionLess(s[i].ver, s[j].ver) && (s[i].ver == s[j].ver ==> LessEq(s[j].raw, s[i].raw))
  {
    forall i, j | 0 <= i < j < |s|
      ensures Before(s[i], s[j]) <==> !VersionLess(s[i].ver, s[j].ver) && (s[i].ver == s[j].ver ==> LessEq(s[j].raw, s[i].raw))
    {
      PrecedenceIsTotal(s[i].ver, s[j].ver);
    }
    hide Before, VersionLess, LessEq;
  }

  // ---------- tags ----------

  function CandidateOf(v: RawVersion, ver: Version): Candidate {
    Candidate(ver, v.raw, v.prerelease || ver.pre != [], v.extra)
  }

  /** The tag is what one raw version renders to, piece by piece. */
  ghost predicate IsTagOf(lib: Lib, rangeLabel: string, filter: Option<FilterConfig>, v: RawVersion, t: GeneratedTag) {
    && lib.parse(v.raw).Some?
    && var c := CandidateOf(v, lib.parse(v.raw).value);
    && Meets(lib, filter, c)
    && lib.tagName(c) == Some(t.name) && lib.versions(c) == Some(t.versions)
    && lib.buildArgs(c) == Some(t.buildArgs) && lib.labels(c) == Some(t.labels)
    && t.isPrerelease == (v.prerelease || lib.parse(v.raw).value.pre != []) && t.range == rangeLabel
  }

  lemma {:induction false} ParsedOf(lib: Lib, raw: seq<RawVersion>, c: Candidate)
    requires c in ParseAll(lib, raw)
    ensures exists v :: v in raw && lib.parse(v.raw).Some? && c == CandidateOf(v, lib.parse(v.raw).value)
  {
    var front, last := raw[..|raw|-1], raw[|raw|-1];
    assert raw == front + [last];
    if c in ParseAll(lib, front) {
      ParsedOf(lib, front, c);
      var v :| v in front && lib.parse(v.raw).Some? && c == CandidateOf(v, lib.parse(v.raw).value);
      assert v in raw;
    } else {
      assert last in raw;
    }
  }

  lemma {:induction false} PickedFrom(s: seq<Candidate>, major: LevelSelect, minor: LevelSelect, patch: LevelSelect, hi: nat, c: Candidate)
    requires hi <= |s| && c in Pick(s, major, minor, patch, 0, hi)
    ensures c in s
    decreases hi
  {
    hide IsSelected;
    if c in Pick(s, major, minor, patch, 0, hi - 1) {
      PickedFrom(s, major, minor, patch, hi - 1, c);
    }
  }

  /** Every tag is rendered from a version of the source that meets the filters; there are at most as
      many as configured, or 50. */
  lemma TagMeaning(lib: Lib, rangeLabel: string, tr: TagRange, raw: seq<RawVersion>, tags: seq<GeneratedTag>)
    requires Generates(lib, rangeLabel, tr, raw, Success(tags))
    ensures forall t :: t in tags ==> exists v :: v in raw && IsTagOf(lib, rangeLabel, tr.filter, v, t)
    ensures |tags| <= if tr.maxTags > 0 then tr.maxTags else 50
  {
    var s := TagsAreHighest(lib, rangeLabel, tr, raw, tags);
    forall t | t in tags ensures exists v :: v in raw && IsTagOf(lib, rangeLabel, tr.filter, v, t) {
      var c :| IsHighestRender(lib, rangeLabel, s, c, t);
      var v := SelectedVersion(lib, tr, raw, s, c);
      assert IsTagOf(lib, rangeLabel, tr.filter, v, t) by { RenderedOf(lib, rangeLabel, tr.filter, v, c, t); }
    }
  }

  lemma SelectedVersion(lib: Lib, tr: TagRange, raw: seq<RawVersion>, s: seq<Candidate>, c: Candidate) returns (v: RawVersion)
    requires IsSelectedFor(lib, tr, raw, s) && c in s
    ensures v in raw && lib.parse(v.raw).Some? && c == CandidateOf(v, lib.parse(v.raw).value) && Meets(lib, tr.filter, c)
  {
    hide IsFiltered, Pick, Meets;
    var filtered :| IsFiltered(lib, ParseAll(lib, raw), tr.filter, Success(filtered)) && s == Selection(Descending(filtered), tr.select);
    FilteredMeaning(lib, ParseAll(lib, raw), tr.filter, Success(filtered));
    var (major, minor, patch) := Effective(tr.select);
    PickedFrom(Descending(filtered), major, minor, patch, |Descending(filtered)|, c);
    MultisetMembers(Descending(filtered), filtered);
    ParsedOf(lib, raw, c);
    v :| v in raw && lib.parse(v.raw).Some? && c == CandidateOf(v, lib.parse(v.raw).value);
  }

  lemma RenderedOf(lib: Lib, rangeLabel: string, filter: Option<FilterConfig>, v: RawVersion, c: Candidate, t: GeneratedTag)
    requires lib.parse(v.raw).Some? && c == CandidateOf(v, lib.parse(v.raw).value) && Meets(lib, filter, c)
    requires lib.tagName(c) == Some(t.name) && RenderOne(lib, rangeLabel, t.name, c) == Some(t)
    ensures IsTagOf(lib, rangeLabel, filter, v, t)
  {
    hide Meets;
  }

  /** Unless a filter block lets them in, no prerelease becomes a tag. */
  lemma NoPrereleaseByDefault(lib: Lib, rangeLabel: string, tr: TagRange, raw: seq<RawVersion>, tags: seq<GeneratedTag>)
    requires Generates(lib, rangeLabel, tr, raw, Success(tags))
    requires tr.filter.None? || tr.filter.value.excludePrerelease != Some(false)
    ensures forall t :: t in tags ==> !t.isPrerelease
  {
    hide Generates;
    TagMeaning(lib, rangeLabel, tr, raw, tags);
    forall t | t in tags ensures !t.isPrerelease {
      var v :| v in raw && IsTagOf(lib, rangeLabel, tr.filter, v, t);
    }
  }

  lemma {:induction false} ParsedFrom(lib: Lib, raw: seq<RawVersion>, v: RawVersion)
    requires v in raw && lib.parse(v.raw).Some?
    ensures CandidateOf(v, lib.parse(v.raw).value) in ParseAll(lib, raw)
  {
    var front, last := raw[..|raw|-1], raw[|raw|-1];
    assert raw == front + [last];
    if v in front {
      ParsedFrom(lib, front, v);
    }
  }

  /** No version of the source that meets the filters is higher. */
  ghost predicate IsHighest(lib: Lib, filter: Option<FilterConfig>, raw: seq<RawVersion>, ver: Version) {
    forall w :: w in raw && lib.parse(w.raw).Some? && Meets(lib, filter, CandidateOf(w, lib.parse(w.raw).value)) ==>
      !VersionLess(ver, lib.parse(w.raw).value)
  }

  /** What is first in descending order is highest, unless the guard dropped something. */
  lemma FirstIsHighest(lib: Lib, filter: Option<FilterConfig>, raw: seq<RawVersion>, kept: seq<Candidate>)
    requires kept != [] && forall c :: c in kept <==> c in ParseAll(lib, raw) && Meets(lib, filter, c)
    ensures IsHighest(lib, filter, raw, Descending(kept)[0].ver)
  {
    var s := Descending(kept);
    SortedMeaning(s);
    MultisetMembers(s, kept);
    hide SortedBy, VersionLess, Meets, ParseAll, LessEq, Descending;
    assert forall c :: c in s <==> c in kept;
    forall w | w in raw && lib.parse(w.raw).Some? && Meets(lib, filter, CandidateOf(w, lib.parse(w.raw).value))
      ensures !VersionLess(s[0].ver, lib.parse(w.raw).value)
    {
      ParsedFrom(lib, raw, w);
      var i :| 0 <= i < |s| && s[i] == CandidateOf(w, lib.parse(w.raw).value);
      PrecedenceIsTotal(s[0].ver, s[0].ver);
    }
  }

  ghost predicate IsDefaultTag(lib: Lib, rangeLabel: string, filter: Option<FilterConfig>, raw: seq<RawVersion>, v: RawVersion, t: GeneratedTag) {
    && v in raw && IsTagOf(lib, rangeLabel, filter, v, t)
    && (Limit(filter) <= 0 ==> lib.parse(v.raw).Some? && IsHighest(lib, filter, raw, lib.parse(v.raw).value))
  }

  /** Without a select block there is one tag, rendered from a version that meets the filters; and
      without a limit on major gaps, no such version is higher. */
  lemma OneTagByDefault(lib: Lib, rangeLabel: string, tr: TagRange, raw: seq<RawVersion>, tags: seq<GeneratedTag>)
    requires Generates(lib, rangeLabel, tr, raw, Success(tags)) && tr.select.None?
    ensures |tags| == 1
    ensures exists v :: IsDefaultTag(lib, rangeLabel, tr.filter, raw, v, tags[0])
  {
    var f :| IsFiltered(lib, ParseAll(lib, raw), tr.filter, f) && Finishes(lib, rangeLabel, tr, f, Success(tags));
    hide *;
    RenderedDefault(lib, rangeLabel, tr, raw, f, tags);
  }

  lemma RenderedDefault(lib: Lib, rangeLabel: string, tr: TagRange, raw: seq<RawVersion>, f: Result<seq<Candidate>, GenError>, tags: seq<GeneratedTag>)
    requires IsFiltered(lib, ParseAll(lib, raw), tr.filter, f) && Finishes(lib, rangeLabel, tr, f, Success(tags)) && tr.select.None?
    ensures |tags| == 1
    ensures exists v :: IsDefaultTag(lib, rangeLabel, tr.filter, raw, v, tags[0])
  {
    hide *;
    FinishedAs(lib, rangeLabel, tr, raw, f, tags);
    var s := Descending(f.value);
    SortedLevels(s);
    OnlyTheHighest(s);
    RenderSingle(lib, rangeLabel, s[0], tags);
    var v := DefaultTag(lib, rangeLabel, tr, raw, f.value, tags[0]);
  }

  lemma FinishedAs(lib: Lib, rangeLabel: string, tr: TagRange, raw: seq<RawVersion>, f: Result<seq<Candidate>, GenError>, tags: seq<GeneratedTag>)
    requires IsFiltered(lib, ParseAll(lib, raw), tr.filter, f) && Finishes(lib, rangeLabel, tr, f, Success(tags))
    ensures f.Success? && f.value != []
    ensures RenderAll(lib, rangeLabel, Selection(Descending(f.value), tr.select), {}) == Some(tags)
  {
    hide IsFiltered, ParseAll, RenderAll, Selection, Descending;
    assert f.Success? && RenderAll(lib, rangeLabel, Selection(Descending(f.value), tr.select), {}) == Some(tags);
    hide *;
    KeptIff(lib, ParseAll(lib, raw), tr.filter, f.value);
  }

  lemma KeptIff(lib: Lib, candidates: seq<Candidate>, filter: Option<FilterConfig>, kept: seq<Candidate>)
    requires IsFiltered(lib, candidates, filter, Success(kept))
    ensures kept != []
    ensures Limit(filter) <= 0 ==> forall c :: c in kept <==> c in candidates && Meets(lib, filter, c)
  {
    hide *;
    FilteredMeaning(lib, candidates, filter, Success(kept));
  }

  lemma DefaultTag(lib: Lib, rangeLabel: string, tr: TagRange, raw: seq<RawVersion>, kept: seq<Candidate>, t: GeneratedTag) returns (v: RawVersion)
    requires IsFiltered(lib, ParseAll(lib, raw), tr.filter, Success(kept)) && kept != [] && tr.select.None?
    requires lib.tagName(Descending(kept)[0]) == Some(t.name) && RenderOne(lib, rangeLabel, t.name, Descending(kept)[0]) == Some(t)
    ensures IsDefaultTag(lib, rangeLabel, tr.filter, raw, v, t)
  {
    var c := Descending(kept)[0];
    KeptIff(lib, ParseAll(lib, raw), tr.filter, kept);
    SelectedForDefault(lib, tr, raw, kept);
    hide IsFiltered, ParseAll, RenderOne, Selection, Descending, Meets, IsGuarded, IsSelectedFor, IsHighest, IsTagOf, Limit;
    if Limit(tr.filter) <= 0 {
      FirstIsHighest(lib, tr.filter, raw, kept);
    }
    v := SelectedVersion(lib, tr, raw, [c], c);
    RenderedOf(lib, rangeLabel, tr.filter, v, c, t);
    assert CandidateOf(v, lib.parse(v.raw).value).ver == lib.parse(v.raw).value;
  }

  lemma SelectedForDefault(lib: Lib, tr: TagRange, raw: seq<RawVersion>, kept: seq<Candidate>)
    requires IsFiltered(lib, ParseAll(lib, raw), tr.filter, Success(kept)) && kept != [] && tr.select.None?
    ensures IsSelectedFor(lib, tr, raw, [Descending(kept)[0]])
  {
    hide IsFiltered, ParseAll, Selection, LevelsDescend, SortedBy, Before;
    SortedLevels(Descending(kept));
    OnlyTheHighest(Descending(kept));
  }

  lemma RenderSingle(lib: Lib, rangeLabel: string, c: Candidate, tags: seq<GeneratedTag>)
    requires RenderAll(lib, rangeLabel, [c], {}) == Some(tags)
    ensures |tags| == 1 && lib.tagName(c) == Some(tags[0].name) && RenderOne(lib, rangeLabel, tags[0].name, c) == Some(tags[0])
  {
    assert [c][1..] == [];
  }

  // ---------- precedence ----------

  /** Major, minor and patch decide in this order; at equal numbers a pre-release comes before its
      release. */
  lemma NumbersDecide(a: Version, b: Version)
    ensures a.major < b.major ==> VersionLess(a, b)
    ensures a.major == b.major && a.minor < b.minor ==> VersionLess(a, b)
    ensures a.major == b.major && a.minor == b.minor && a.patch < b.patch ==> VersionLess(a, b)
    ensures a.major == b.major && a.minor == b.minor && a.patch == b.patch && a.pre != [] && b.pre == [] ==> VersionLess(a, b)
  {
  }

  function Pre(pre: seq<Ident>): Version { Version(1, 0, 0, pre) }

  /** The chain of examples in section 11 of Semantic Versioning 2.0.0. */
  lemma PrecedenceExamples()
    ensures VersionLess(Pre([Alphanumeric("alpha")]), Pre([Alphanumeric("alpha"), Numeric(1)]))
    ensures VersionLess(Pre([Alphanumeric("alpha"), Numeric(1)]), Pre([Alphanumeric("alpha"), Alphanumeric("beta")]))
    ensures VersionLess(Pre([Alphanumeric("alpha"), Alphanumeric("beta")]), Pre([Alphanumeric("beta")]))
    ensures VersionLess(Pre([Alphanumeric("beta")]), Pre([Alphanumeric("beta"), Numeric(2)]))
    ensures VersionLess(Pre([Alphanumeric("beta"), Numeric(2)]), Pre([Alphanumeric("beta"), Numeric(11)]))
    ensures VersionLess(Pre([Alphanumeric("beta"), Numeric(11)]), Pre([Alphanumeric("rc"), Numeric(1)]))
    ensures VersionLess(Pre([Alphanumeric("rc"), Numeric(1)]), Pre([]))
  {
    assert Less("alpha", "beta") && Less("beta", "rc");
    SecondDecides(Alphanumeric("alpha"), [], [Numeric(1)]);
    SecondDecides(Alphanumeric("alpha"), [Numeric(1)], [Alphanumeric("beta")]);
    SecondDecides(Alphanumeric("beta"), [], [Numeric(2)]);
    SecondDecides(Alphanumeric("beta"), [Numeric(2)], [Numeric(11)]);
  }

  /** Equal first identifiers leave the decision to the rest. */
  lemma SecondDecides(first: Ident, a: seq<Ident>, b: seq<Ident>)
    requires IdentsLess(a, b)
    ensures VersionLess(Pre([first] + a), Pre([first] + b))
  {
    assert ([first] + a)[1..] == a && ([first] + b)[1..] == b;
    assert IdentsLess([first] + a, [first] + b);
  }
}

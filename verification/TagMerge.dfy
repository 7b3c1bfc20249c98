/** Merging generated tags into the tags of an image. */
module TagMerge {
  import opened Wrappers
  import opened TagPipeline

  /** generatedFrom is empty for a static tag. */
  datatype Tag = Tag(name: string, versions: Values, buildArgs: Values, labels: Values, isPrerelease: bool, generatedFrom: string)

  datatype MergeError =
    | InvalidTag(name: string)
    | TwoRanges(name: string, first: string, second: string)
    | VariantCollision(name: string)

  predicate IsTagStart(c: char) {
    'A' <= c <= 'Z' || 'a' <= c <= 'z' || '0' <= c <= '9' || c == '_'
  }

  /** The OCI tag grammar. */
  predicate IsOciTag(s: string) {
    && 1 <= |s| <= 128 && IsTagStart(s[0])
    && forall i :: 0 < i < |s| ==> IsTagStart(s[i]) || s[i] == '.' || s[i] == '-'
  }

  function ToTag(g: GeneratedTag): Tag {
    Tag(g.name, g.versions, g.buildArgs, g.labels, g.isPrerelease, g.range)
  }

  /** name is some other tag with a variant suffix. */
  predicate Collides(tags: set<string>, suffixes: set<string>, name: string) {
    exists t, s :: t in tags && s in suffixes && t != name && t + s == name
  }

  /** The name can be cut into such a tag and a suffix. */
  lemma CollidesIff(tags: set<string>, suffixes: set<string>, name: string)
    ensures Collides(tags, suffixes, name) <==> exists k :: 0 <= k <= |name| && name[..k] in tags && name[k..] in suffixes && name[..k] != name
  {
    if Collides(tags, suffixes, name) {
      var t, s :| t in tags && s in suffixes && t != name && t + s == name;
      assert name[..|t|] == t && name[|t|..] == s;
    }
    forall k | 0 <= k <= |name| && name[..k] in tags && name[k..] in suffixes && name[..k] != name ensures Collides(tags, suffixes, name) {
      assert name[..k] + name[k..] == name;
    }
  }

  predicate IsStatic(tags: map<string, Tag>, name: string) {
    name in tags && tags[name].generatedFrom == ""
  }

  datatype MergeState = MergeState(tags: map<string, Tag>, seenFrom: map<string, string>)

  /** What one generated tag does to the state. */
  function MergeOne(st: MergeState, suffixes: set<string>, g: GeneratedTag): Result<MergeState, MergeError> {
    if !IsOciTag(g.name) then Failure(InvalidTag(g.name))
    else if IsStatic(st.tags, g.name) then Success(st)
    else if g.name in st.seenFrom && st.seenFrom[g.name] != g.range then Failure(TwoRanges(g.name, st.seenFrom[g.name], g.range))
    else if Collides(st.tags.Keys, suffixes, g.name) then Failure(VariantCollision(g.name))
    else Success(MergeState(st.tags[g.name := ToTag(g)], st.seenFrom[g.name := g.range]))
  }

  /** The state after all generated tags, or the first error. */
  function MergeAll(tags: map<string, Tag>, suffixes: set<string>, generated: seq<GeneratedTag>): Result<MergeState, MergeError> {
    if generated == [] then Success(MergeState(tags, map[]))
    else
      var before := MergeAll(tags, suffixes, generated[..|generated|-1]);
      if before.Failure? then before else MergeOne(before.value, suffixes, generated[|generated|-1])
  }

  /** The tags are those of some successful start of the list. */
  ghost predicate IsPartialMerge(tags: map<string, Tag>, suffixes: set<string>, generated: seq<GeneratedTag>, now: map<string, Tag>) {
    exists k, st :: 0 <= k < |generated| && MergeAll(tags, suffixes, generated[..k]) == Success(st) && now == st.tags
  }

  class ImageTags {
    var tags: map<string, Tag>
    /** variant name to tag suffix */
    const variants: map<string, string>

    constructor (tags: map<string, Tag>, variants: map<string, string>)
      ensures this.tags == tags && this.variants == variants
    {
      this.tags := tags;
      this.variants := variants;
    }

    function Suffixes(): set<string> {
      set v | v in variants :: variants[v]
    }

    method CollidesWithVariantTag(name: string) returns (r: bool)
      ensures r <==> Collides(tags.Keys, Suffixes(), name)
    {
      var todo := tags.Keys;
      while todo != {}
        invariant todo <= tags.Keys
        invariant !Collides(tags.Keys - todo, Suffixes(), name)
        decreases todo
      {
        var t :| t in todo;
        todo := todo - {t};
        if t == name {
          continue;
        }
        var left := variants.Keys;
        while left != {}
          invariant left <= variants.Keys
          invariant forall v :: v in variants && v !in left ==> t + variants[v] != name
          decreases left
        {
          var v :| v in left;
          left := left - {v};
          if t + variants[v] == name {
            assert variants[v] in Suffixes();
            return true;
          }
        }
      }
      return false;
    }

    /** On an error the tags merged before it stay merged. */
    method MergeGeneratedTags(generated: seq<GeneratedTag>) returns (r: Option<MergeError>)
      modifies this`tags
      ensures match MergeAll(old(tags), Suffixes(), generated)
        case Success(st) => r == None && tags == st.tags
        case Failure(e) => r == Some(e) && IsPartialMerge(old(tags), Suffixes(), generated, tags)
    {
      ghost var tags0 := tags;
      var seenFrom: map<string, string> := map[];
      for i := 0 to |generated|
        invariant MergeAll(tags0, Suffixes(), generated[..i]) == Success(MergeState(tags, seenFrom))
      {
        var g := generated[i];
        assert generated[..i+1][..i] == generated[..i];
        FailureStays(tags0, Suffixes(), generated, i + 1);
        if !IsOciTag(g.name) {
          return Some(InvalidTag(g.name));
        }
        if g.name in tags && tags[g.name].generatedFrom == "" {
          continue;
        }
        if g.name in seenFrom && seenFrom[g.name] != g.range {
          return Some(TwoRanges(g.name, seenFrom[g.name], g.range));
        }
        var collides := CollidesWithVariantTag(g.name);
        if collides {
          return Some(VariantCollision(g.name));
        }
        seenFrom := seenFrom[g.name := g.range];
        tags := tags[g.name := ToTag(g)];
      }
      assert generated[..|generated|] == generated;
      return None;
    }
  }

  lemma {:induction false} FailureStays(tags: map<string, Tag>, suffixes: set<string>, generated: seq<GeneratedTag>, k: nat)
    requires k <= |generated|
    ensures MergeAll(tags, suffixes, generated[..k]).Failure? ==>
      MergeAll(tags, suffixes, generated) == MergeAll(tags, suffixes, generated[..k])
    decreases |generated| - k
  {
    if k < |generated| {
      assert generated[..k+1][..k] == generated[..k];
      FailureStays(tags, suffixes, generated, k + 1);
    } else {
      assert generated[..k] == generated;
    }
  }

  // ---------- what a merge guarantees ----------

  function NamesOf(generated: seq<GeneratedTag>): set<string> {
    set g | g in generated :: g.name
  }

  /** The k-th generated tag can be merged after those before it. */
  ghost predicate CleanAt(tags: map<string, Tag>, suffixes: set<string>, generated: seq<GeneratedTag>, k: nat)
    requires k < |generated|
  {
    var name := generated[k].name;
    && IsOciTag(name)
    && (name in tags ||
        ((forall j :: 0 <= j < k && generated[j].name == name ==> generated[j].range == generated[k].range)
         && !Collides(tags.Keys + NamesOf(generated[..k]), suffixes, name)))
  }

  /** The tags after merging some generated ones: the static ones unchanged, one source range for
      every other name, and for it the last tag generated. */
  ghost predicate MergedFrom(tags: map<string, Tag>, generated: seq<GeneratedTag>, st: MergeState) {
    && st.tags.Keys == tags.Keys + NamesOf(generated)
    && (forall n :: n in tags ==> st.tags[n] == tags[n])
    && SeenRanges(tags, generated, st.seenFrom)
    && (forall n :: n in st.seenFrom ==> n in st.tags && st.tags[n].generatedFrom == st.seenFrom[n] && IsLastTag(generated, n, st.tags[n]))
  }

  ghost predicate SeenRanges(tags: map<string, Tag>, generated: seq<GeneratedTag>, seenFrom: map<string, string>) {
    && seenFrom.Keys == NamesOf(generated) - tags.Keys
    && (forall g :: g in generated && g.name !in tags ==> seenFrom[g.name] == g.range)
  }

  ghost predicate IsLastTag(generated: seq<GeneratedTag>, name: string, tag: Tag) {
    exists k :: IsLast(generated, k, name) && Carries(tag, generated[k])
  }

  /** The tag is what was generated, and names its range. */
  predicate Carries(tag: Tag, g: GeneratedTag) {
    && tag.name == g.name && tag.versions == g.versions && tag.buildArgs == g.buildArgs && tag.labels == g.labels
    && tag.isPrerelease == g.isPrerelease && tag.generatedFrom == g.range
  }

  ghost predicate IsLast(generated: seq<GeneratedTag>, k: int, name: string) {
    0 <= k < |generated| && generated[k].name == name && forall j :: k < j < |generated| ==> generated[j].name != name
  }

  ghost predicate StartsStatic(tags: map<string, Tag>, generated: seq<GeneratedTag>) {
    && (forall n :: n in tags ==> tags[n].generatedFrom == "")
    && (forall g :: g in generated ==> g.range != "")
  }

  /** From static tags, merging succeeds exactly when every generated tag is clean; the result is
      the union with one source range per generated name, and no merged name is a static or
      earlier merged tag plus a variant suffix. */
  lemma {:induction false} MergeMeaning(tags: map<string, Tag>, suffixes: set<string>, generated: seq<GeneratedTag>)
    requires StartsStatic(tags, generated)
    ensures MergeAll(tags, suffixes, generated).Success? <==> forall k :: 0 <= k < |generated| ==> CleanAt(tags, suffixes, generated, k)
    ensures MergeAll(tags, suffixes, generated).Success? ==> MergedFrom(tags, generated, MergeAll(tags, suffixes, generated).value)
  {
    hide CleanAt, MergedFrom, MergeOne;
    if generated == [] {
      NothingMerged(tags);
    } else {
      var n := |generated| - 1;
      var front := generated[..n];
      assert generated == front + [generated[n]];
      MergeMeaning(tags, suffixes, front);
      forall k | 0 <= k < n ensures CleanAt(tags, suffixes, generated, k) <==> CleanAt(tags, suffixes, front, k) {
        CleanFront(tags, suffixes, generated, k);
      }
      var before := MergeAll(tags, suffixes, front);
      if before.Success? {
        OneMoreClean(tags, suffixes, front, generated[n], before.value);
        MergeStep(tags, suffixes, front, generated[n], before.value);
      } else {
        var k :| 0 <= k < n && !CleanAt(tags, suffixes, front, k);
        assert !CleanAt(tags, suffixes, generated, k);
      }
    }
  }

  lemma NothingMerged(tags: map<string, Tag>)
    ensures MergedFrom(tags, [], MergeState(tags, map[]))
  {
  }

  lemma CleanFront(tags: map<string, Tag>, suffixes: set<string>, generated: seq<GeneratedTag>, k: nat)
    requires k < |generated| - 1
    ensures CleanAt(tags, suffixes, generated, k) <==> CleanAt(tags, suffixes, generated[..|generated|-1], k)
  {
    hide Collides, IsOciTag;
    assert generated[..|generated|-1][..k] == generated[..k];
  }

  /** Only the original tags stay static. */
  lemma StaticIffOriginal(tags: map<string, Tag>, front: seq<GeneratedTag>, g: GeneratedTag, st: MergeState)
    requires StartsStatic(tags, front + [g]) && MergedFrom(tags, front, st)
    ensures IsStatic(st.tags, g.name) <==> g.name in tags
    ensures g.name in st.tags && g.name !in tags ==> g.name in st.seenFrom
  {
    hide IsLastTag;
    if g.name in st.tags && g.name !in tags {
      var h :| h in front && h.name == g.name;
      assert h in front + [g] && st.seenFrom[g.name] == h.range;
    }
  }

  lemma OneMoreClean(tags: map<string, Tag>, suffixes: set<string>, front: seq<GeneratedTag>, g: GeneratedTag, st: MergeState)
    requires StartsStatic(tags, front + [g]) && MergedFrom(tags, front, st)
    ensures MergeOne(st, suffixes, g).Success? <==> CleanAt(tags, suffixes, front + [g], |front|)
  {
    hide IsOciTag, Collides, IsLastTag;
    StaticIffOriginal(tags, front, g, st);
    assert (front + [g])[..|front|] == front;
    if g.name !in tags {
      SameRangeIff(tags, front, g, st.seenFrom);
    }
  }

  lemma SameRangeIff(tags: map<string, Tag>, front: seq<GeneratedTag>, g: GeneratedTag, seenFrom: map<string, string>)
    requires SeenRanges(tags, front, seenFrom) && g.name !in tags
    ensures !(g.name in seenFrom && seenFrom[g.name] != g.range) <==>
      forall j :: 0 <= j < |front| && (front + [g])[j].name == g.name ==> (front + [g])[j].range == g.range
  {
    if g.name in seenFrom {
      var h :| h in front && h.name == g.name;
      var j :| 0 <= j < |front| && front[j] == h;
      assert (front + [g])[j] == h;
    }
    forall j | 0 <= j < |front| && (front + [g])[j].name == g.name ensures g.name in seenFrom && (front + [g])[j].range == seenFrom[g.name] {
      assert front[j] in front;
    }
  }

  lemma MergeStep(tags: map<string, Tag>, suffixes: set<string>, front: seq<GeneratedTag>, g: GeneratedTag, st: MergeState)
    requires StartsStatic(tags, front + [g]) && MergedFrom(tags, front, st)
    ensures MergeOne(st, suffixes, g).Success? ==> MergedFrom(tags, front + [g], MergeOne(st, suffixes, g).value)
  {
    hide IsOciTag, Collides, IsLast, IsLastTag, StartsStatic, NamesOf, SeenRanges, MergedFrom;
    var r := MergeOne(st, suffixes, g);
    if r.Success? {
      StaticIffOriginal(tags, front, g, st);
      MergedStep(tags, front, g, st, r.value);
    }
  }

  /** The state after a tag that is merged or, for a static name, passed over. */
  lemma MergedStep(tags: map<string, Tag>, front: seq<GeneratedTag>, g: GeneratedTag, st: MergeState, next: MergeState)
    requires MergedFrom(tags, front, st)
    requires if g.name in tags then next == st
      else next == MergeState(st.tags[g.name := ToTag(g)], st.seenFrom[g.name := g.range]) && (g.name in st.seenFrom ==> st.seenFrom[g.name] == g.range)
    ensures MergedFrom(tags, front + [g], next)
  {
    hide IsLast, IsLastTag, NamesOf, SeenRanges;
    SeenAreNew(tags, front, st.seenFrom);
    NamesGrow(front, g);
    SeenGrows(tags, front, g, st.seenFrom, next.seenFrom);
    LastIsNew(front, g);
    forall n | n in next.seenFrom && n != g.name ensures IsLastTag(front + [g], n, next.tags[n]) {
      LastStays(front, g, n, st.tags[n]);
    }
  }

  lemma SeenAreNew(tags: map<string, Tag>, front: seq<GeneratedTag>, seenFrom: map<string, string>)
    requires SeenRanges(tags, front, seenFrom)
    ensures forall n :: n in seenFrom ==> n !in tags
  {
  }

  lemma NamesGrow(front: seq<GeneratedTag>, g: GeneratedTag)
    ensures NamesOf(front + [g]) == NamesOf(front) + {g.name}
  {
    assert g in front + [g];
    assert forall h :: h in front ==> h in front + [g];
  }

  lemma SeenGrows(tags: map<string, Tag>, front: seq<GeneratedTag>, g: GeneratedTag, before: map<string, string>, after: map<string, string>)
    requires SeenRanges(tags, front, before)
    requires g.name !in tags ==> g.name in before ==> before[g.name] == g.range
    requires after == if g.name in tags then before else before[g.name := g.range]
    ensures SeenRanges(tags, front + [g], after)
  {
    NamesGrow(front, g);
  }

  lemma LastIsNew(front: seq<GeneratedTag>, g: GeneratedTag)
    ensures IsLastTag(front + [g], g.name, ToTag(g))
  {
    assert IsLast(front + [g], |front|, g.name);
  }

  lemma LastStays(front: seq<GeneratedTag>, g: GeneratedTag, n: string, tag: Tag)
    requires n != g.name && IsLastTag(front, n, tag)
    ensures IsLastTag(front + [g], n, tag)
  {
    var k :| IsLast(front, k, n) && Carries(tag, front[k]);
    assert IsLast(front + [g], k, n);
  }
}

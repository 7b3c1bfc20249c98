/** Every alias of one image: the series aliases of its tags, and the latest alias for the base
    tags and for each variant. */
module ImageAliases {
  import opened Wrappers
  import opened Ordering
  import opened Aliases

  datatype LatestAlias = LatestAlias(tag: string, onMissing: string)

  /** tags maps a tag to whether it is a prerelease, variants a variant to its tag suffix. */
  datatype TaggedImage = TaggedImage(tags: map<string, bool>, variants: map<string, string>, latest: Option<LatestAlias>) {
    /** The suffixes that get a latest alias; the base tags count as those with the empty one. */
    function Suffixes(): set<string> {
      {""} + variants.Values
    }
  }

  // ---------- sorted keys ----------

  /** slices.Sorted(maps.Keys(m)) */
  ghost function Listing(keys: set<string>): (r: seq<string>)
    ensures SortedBy(r, LessEq) && NoDup(r) && Elems(r) == keys
    decreases |keys|
  {
    if keys == {} then [] else
      StringOrder();
      var m := Min(keys);
      var rest := Listing(keys - {m});
      assert Elems([m] + rest) == keys;
      [m] + rest
  }

  method SortedKeys(keys: set<string>) returns (r: seq<string>)
    ensures r == Listing(keys)
  {
    r := ListSet(keys);
    r := Sorted(r);
    SortedSetUnique(r, Listing(keys));
  }

  // ---------- candidates ----------

  /** The tags with a suffix; with the empty suffix, the base tags. */
  function WithSuffix(img: TaggedImage, tags: seq<string>, suffix: string): (r: seq<AliasCandidate>)
    requires forall t :: t in tags ==> t in img.tags
    ensures |r| == |tags| && forall i :: 0 <= i < |r| ==> r[i] == AliasCandidate(tags[i] + suffix, img.tags[tags[i]])
  {
    seq(|tags|, i requires 0 <= i < |tags| => AliasCandidate(tags[i] + suffix, img.tags[tags[i]]))
  }

  ghost function SuffixCandidates(img: TaggedImage, suffix: string): seq<AliasCandidate> {
    WithSuffix(img, Listing(img.tags.Keys), suffix)
  }

  /** A tag, followed by the tag with each variant's suffix. */
  function Row(img: TaggedImage, tag: string, variants: seq<string>): seq<AliasCandidate>
    requires tag in img.tags && forall v :: v in variants ==> v in img.variants
  {
    if variants == [] then [AliasCandidate(tag, img.tags[tag])]
    else Row(img, tag, variants[..|variants|-1]) + [AliasCandidate(tag + img.variants[variants[|variants|-1]], img.tags[tag])]
  }

  function Rows(img: TaggedImage, tags: seq<string>, variants: seq<string>): seq<AliasCandidate>
    requires (forall t :: t in tags ==> t in img.tags) && (forall v :: v in variants ==> v in img.variants)
  {
    if tags == [] then [] else Rows(img, tags[..|tags|-1], variants) + Row(img, tags[|tags|-1], variants)
  }

  ghost function CandidatesOf(img: TaggedImage): seq<AliasCandidate> {
    Rows(img, Listing(img.tags.Keys), Listing(img.variants.Keys))
  }

  method AliasCandidatesFor(img: TaggedImage) returns (candidates: seq<AliasCandidate>)
    ensures candidates == CandidatesOf(img)
  {
    hide Listing, Row, Rows;
    candidates := [];
    var tags := SortedKeys(img.tags.Keys);
    ghost var all := Listing(img.variants.Keys);
    assert forall v :: v in all ==> v in Elems(all);
    assert forall t :: t in tags ==> t in Elems(tags);
    RowsStep(img, [], all);
    for i := 0 to |tags|
      invariant candidates == Rows(img, tags[..i], all)
    {
      RowsStep(img, tags[..i+1], all);
      assert tags[..i+1][..i] == tags[..i];
      candidates := AppendRow(img, tags[i], candidates);
    }
    assert tags[..|tags|] == tags;
  }

  /** A tag and its variants' tags. */
  method AppendRow(img: TaggedImage, tag: string, before: seq<AliasCandidate>) returns (candidates: seq<AliasCandidate>)
    requires tag in img.tags
    ensures forall v :: v in Listing(img.variants.Keys) ==> v in img.variants
    ensures candidates == before + Row(img, tag, Listing(img.variants.Keys))
  {
    hide Listing, Row;
    candidates := before + [AliasCandidate(tag, img.tags[tag])];
    var variants := SortedKeys(img.variants.Keys);
    assert forall v :: v in variants ==> v in Elems(variants);
    RowStep(img, tag, []);
    for j := 0 to |variants|
      invariant candidates == before + Row(img, tag, variants[..j])
    {
      RowStep(img, tag, variants[..j+1]);
      assert variants[..j+1][..j] == variants[..j];
      candidates := candidates + [AliasCandidate(tag + img.variants[variants[j]], img.tags[tag])];
    }
    assert variants[..|variants|] == variants;
  }

  lemma RowsStep(img: TaggedImage, tags: seq<string>, variants: seq<string>)
    requires (forall t :: t in tags ==> t in img.tags) && (forall v :: v in variants ==> v in img.variants)
    ensures Rows(img, tags, variants) ==
      if tags == [] then [] else Rows(img, tags[..|tags|-1], variants) + Row(img, tags[|tags|-1], variants)
  {
  }

  lemma RowStep(img: TaggedImage, tag: string, variants: seq<string>)
    requires tag in img.tags && (forall v :: v in variants ==> v in img.variants)
    ensures Row(img, tag, variants) ==
      if variants == [] then [AliasCandidate(tag, img.tags[tag])]
      else Row(img, tag, variants[..|variants|-1]) + [AliasCandidate(tag + img.variants[variants[|variants|-1]], img.tags[tag])]
  {
  }

  lemma {:induction false} RowHas(img: TaggedImage, tag: string, variants: seq<string>, v: string)
    requires tag in img.tags && (forall w :: w in variants ==> w in img.variants)
    ensures AliasCandidate(tag, img.tags[tag]) in Row(img, tag, variants)
    ensures v in variants ==> AliasCandidate(tag + img.variants[v], img.tags[tag]) in Row(img, tag, variants)
  {
    if variants != [] {
      RowHas(img, tag, variants[..|variants|-1], v);
      assert v in variants ==> v in variants[..|variants|-1] || v == variants[|variants|-1];
    }
  }

  lemma {:induction false} RowsHave(img: TaggedImage, tags: seq<string>, variants: seq<string>, t: string, c: AliasCandidate)
    requires (forall t :: t in tags ==> t in img.tags) && (forall v :: v in variants ==> v in img.variants)
    requires t in tags && c in Row(img, t, variants)
    ensures c in Rows(img, tags, variants)
  {
    hide Row;
    var front, last := tags[..|tags|-1], tags[|tags|-1];
    if t in front {
      RowsHave(img, front, variants, t, c);
    } else {
      assert t == last;
    }
  }

  /** Every tag of a suffix is among the candidates of the image. */
  lemma SuffixedIsCandidate(img: TaggedImage, suffix: string, i: nat)
    requires suffix in img.Suffixes() && i < |SuffixCandidates(img, suffix)|
    ensures SuffixCandidates(img, suffix)[i] in CandidatesOf(img)
  {
    var tags, variants := Listing(img.tags.Keys), Listing(img.variants.Keys);
    var t := tags[i];
    assert t in Elems(tags);
    var c := SuffixCandidates(img, suffix)[i];
    assert c == AliasCandidate(t + suffix, img.tags[t]);
    if suffix == "" {
      assert t + suffix == t;
      RowHas(img, t, variants, "");
    } else {
      var v :| v in img.variants && img.variants[v] == suffix;
      assert v in Elems(variants);
      RowHas(img, t, variants, v);
    }
    RowsHave(img, tags, variants, t, c);
  }

  lemma {:induction false} RowHolds(img: TaggedImage, tag: string, variants: seq<string>, c: AliasCandidate)
    requires tag in img.tags && (forall w :: w in variants ==> w in img.variants) && c in Row(img, tag, variants)
    ensures c.name == tag || exists v :: v in variants && c.name == tag + img.variants[v]
    ensures c.isPrerelease == img.tags[tag]
  {
    if variants != [] && c in Row(img, tag, variants[..|variants|-1]) {
      RowHolds(img, tag, variants[..|variants|-1], c);
    }
  }

  lemma {:induction false} RowsHold(img: TaggedImage, tags: seq<string>, variants: seq<string>, c: AliasCandidate) returns (t: string)
    requires (forall t :: t in tags ==> t in img.tags) && (forall v :: v in variants ==> v in img.variants)
    requires c in Rows(img, tags, variants)
    ensures t in tags && c in Row(img, t, variants)
  {
    hide Row;
    if c in Row(img, tags[|tags|-1], variants) {
      t := tags[|tags|-1];
    } else {
      t := RowsHold(img, tags[..|tags|-1], variants, c);
    }
  }

  /** The name of a candidate is a tag with the suffix of a variant, or none, behind it; it is marked
      as that tag is. */
  ghost predicate IsCandidateOf(img: TaggedImage, c: AliasCandidate) {
    exists k :: 0 <= k <= |c.name| && c.name[..k] in img.tags && c.name[k..] in img.Suffixes() && c.isPrerelease == img.tags[c.name[..k]]
  }

  lemma CandidatesIff(img: TaggedImage, c: AliasCandidate)
    ensures c in CandidatesOf(img) <==> IsCandidateOf(img, c)
  {
    var tags, variants := Listing(img.tags.Keys), Listing(img.variants.Keys);
    assert forall t :: t in tags <==> t in Elems(tags);
    assert forall v :: v in variants <==> v in Elems(variants);
    hide Listing, Row, Rows;
    if c in CandidatesOf(img) {
      var t := RowsHold(img, tags, variants, c);
      RowHolds(img, t, variants, c);
      var s := c.name[|t|..];
      assert c.name[..|t|] == t && s in img.Suffixes();
    }
    if k :| 0 <= k <= |c.name| && c.name[..k] in img.tags && c.name[k..] in img.Suffixes() && c.isPrerelease == img.tags[c.name[..k]] {
      var t, s := c.name[..k], c.name[k..];
      assert c.name == t + s;
      var i :| 0 <= i < |tags| && tags[i] == t;
      SuffixedIsCandidate(img, s, i);
      assert SuffixCandidates(img, s)[i] == c;
    }
  }

  // ---------- all aliases ----------

  datatype AliasError = LatestMissing(error: LatestError)

  /** Whether the latest alias of a suffix is set at all, which needs a version unless it is empty. */
  ghost predicate Resolves(img: TaggedImage, latest: string, suffix: string) {
    latest == "" || exists i :: IsCandidate(SuffixCandidates(img, suffix), i)
  }

  /** What the latest alias of a suffix points to: its first highest version. */
  ghost predicate IsLatestTarget(img: TaggedImage, latest: string, suffix: string, target: string) {
    if latest == "" then target == "" else IsTop(SuffixCandidates(img, suffix), target)
  }

  ghost predicate IsTop(candidates: seq<AliasCandidate>, target: string) {
    exists w :: IsFirstHighest(candidates, Before(candidates, |candidates|), w) && target == candidates[w].name
  }

  /** An alias is a latest alias of a suffix in done, or else one of the series. */
  ghost predicate Explained(img: TaggedImage, latest: string, series: map<string, string>, done: set<string>, alias: string, target: string) {
    if latest <= alias && alias[|latest|..] in done && Resolves(img, latest, alias[|latest|..])
    then IsLatestTarget(img, latest, alias[|latest|..], target)
    else alias in series && series[alias] == target
  }

  /** The series aliases with the latest aliases of the suffixes in done laid over them. */
  ghost predicate Overlay(img: TaggedImage, latest: string, series: map<string, string>, done: set<string>, aliases: map<string, string>) {
    && series.Keys <= aliases.Keys
    && (forall s :: s in done && Resolves(img, latest, s) ==> latest + s in aliases)
    && (forall a :: a in aliases ==> Explained(img, latest, series, done, a, aliases[a]))
  }

  ghost predicate AllResolve(img: TaggedImage, latest: string) {
    forall s :: s in img.Suffixes() ==> Resolves(img, latest, s)
  }

  ghost predicate Tolerated(onMissing: string) {
    onMissing == "silent" || onMissing == "warning"
  }

  ghost predicate AreAllAliases(img: TaggedImage, series: map<string, string>, aliases: map<string, string>) {
    && AreAliases(CandidatesOf(img), series)
    && match img.latest
       case None => aliases == series
       case Some(l) => Overlay(img, l.tag, series, img.Suffixes(), aliases)
  }

  lemma OverlayStart(img: TaggedImage, latest: string, series: map<string, string>)
    ensures Overlay(img, latest, series, {}, series)
  {
  }

  lemma OverlaySet(img: TaggedImage, latest: string, series: map<string, string>, done: set<string>, aliases: map<string, string>, s: string, target: string)
    requires Overlay(img, latest, series, done, aliases) && Resolves(img, latest, s) && IsLatestTarget(img, latest, s, target)
    ensures Overlay(img, latest, series, done + {s}, aliases[latest + s := target])
  {
    hide Resolves, IsLatestTarget;
    var more := aliases[latest + s := target];
    forall a | a in more ensures Explained(img, latest, series, done + {s}, a, more[a]) {
      if a == latest + s {
        assert a[|latest|..] == s;
      } else {
        assert Explained(img, latest, series, done, a, aliases[a]);
        assert latest <= a ==> a == latest + a[|latest|..];
      }
    }
  }

  lemma OverlaySkip(img: TaggedImage, latest: string, series: map<string, string>, done: set<string>, aliases: map<string, string>, s: string)
    requires Overlay(img, latest, series, done, aliases) && !Resolves(img, latest, s)
    ensures Overlay(img, latest, series, done + {s}, aliases)
  {
    hide Resolves, IsLatestTarget;
    forall a | a in aliases ensures Explained(img, latest, series, done + {s}, a, aliases[a]) {
      assert Explained(img, latest, series, done, a, aliases[a]);
    }
  }

  /** One latest alias: set, skipped, or an error. */
  method SetLatest(img: TaggedImage, candidates: seq<AliasCandidate>, l: LatestAlias, suffix: string,
                   ghost series: map<string, string>, ghost done: set<string>, aliases0: map<string, string>)
    returns (r: Result<map<string, string>, AliasError>)
    requires candidates == SuffixCandidates(img, suffix)
    requires Overlay(img, l.tag, series, done, aliases0)
    ensures r.Success? <==> Tolerated(l.onMissing) || Resolves(img, l.tag, suffix)
    ensures r.Success? ==> Overlay(img, l.tag, series, done + {suffix}, r.value)
  {
    hide Overlay, SuffixCandidates, IsFirstHighest, IsCandidate, Before;
    var target := ResolveLatestAliasFor(candidates, l.tag);
    if target.Success? {
      OverlaySet(img, l.tag, series, done, aliases0, suffix, target.value);
      return Success(aliases0[l.tag + suffix := target.value]);
    }
    if l.onMissing == "silent" || l.onMissing == "warning" {
      OverlaySkip(img, l.tag, series, done, aliases0, suffix);
      return Success(aliases0);
    }
    return Failure(LatestMissing(target.error));
  }

  method ResolveAllAliases(img: TaggedImage) returns (r: Result<map<string, string>, AliasError>)
    ensures r.Success? <==> (img.latest.Some? && !Tolerated(img.latest.value.onMissing) ==> AllResolve(img, img.latest.value.tag))
    ensures r.Success? ==> exists series :: AreAllAliases(img, series, r.value)
  {
    hide Overlay, Resolves, AreAliases, CandidatesOf, Listing;
    var candidates := AliasCandidatesFor(img);
    var series := ResolveAliasesFor(candidates);
    if img.latest.None? {
      assert AreAllAliases(img, series, series);
      return Success(series);
    }
    var l := img.latest.value;
    OverlayStart(img, l.tag, series);
    var tags := SortedKeys(img.tags.Keys);
    r := SetLatest(img, WithSuffix(img, tags, ""), l, "", series, {}, series);
    if r.Failure? {
      return r;
    }
    var variants := SortedKeys(img.variants.Keys);
    ghost var done := {""};
    assert {} + {""} == done;
    for i := 0 to |variants|
      invariant forall v :: v in variants ==> v in img.variants
      invariant done == {""} + (set v | v in variants[..i] :: img.variants[v])
      invariant r.Success? && Overlay(img, l.tag, series, done, r.value)
      invariant Tolerated(l.onMissing) || forall s :: s in done ==> Resolves(img, l.tag, s)
    {
      var suffix := img.variants[variants[i]];
      r := SetLatest(img, WithSuffix(img, tags, suffix), l, suffix, series, done, r.value);
      if r.Failure? {
        assert suffix in img.Suffixes();
        return r;
      }
      PrefixStep(variants, i);
      done := done + {suffix};
    }
    assert variants[..|variants|] == variants;
    assert done == img.Suffixes() by {
      assert forall v :: v in img.variants <==> v in variants;
    }
    assert AreAllAliases(img, series, r.value);
  }

  /** Every alias points to a tag of the image that is a version and no prerelease, unless a latest
      alias with an empty name is configured: that one is an alias for nothing. */
  lemma AliasesPointToTags(img: TaggedImage, series: map<string, string>, aliases: map<string, string>)
    requires AreAllAliases(img, series, aliases)
    ensures (forall a :: a in aliases ==> IsVersionTag(img, aliases[a])) <==> !(img.latest.Some? && img.latest.value.tag == "")
  {
    if img.latest.Some? && img.latest.value.tag == "" {
    } else {
      hide IsVersionTag, AreAliases, Overlay;
      forall a | a in aliases ensures IsVersionTag(img, aliases[a]) {
        AliasPointsToTag(img, series, aliases, a);
      }
    }
  }

  /** A candidate of the image that takes part in aliases. */
  ghost predicate IsVersionTag(img: TaggedImage, target: string) {
    exists c :: c in CandidatesOf(img) && VersionOf(c).Some? && c.name == target
  }

  lemma SeriesPointsToTag(img: TaggedImage, series: map<string, string>, a: string)
    requires AreAliases(CandidatesOf(img), series) && a in series
    ensures IsVersionTag(img, series[a])
  {
    hide CandidatesOf;
    var candidates := CandidatesOf(img);
    var i :| IsFirstHighest(candidates, Claimants(candidates, a), i) && series[a] == candidates[i].name;
    assert candidates[i] in candidates;
  }

  lemma LatestPointsToTag(img: TaggedImage, suffix: string, target: string)
    requires suffix in img.Suffixes() && IsTop(SuffixCandidates(img, suffix), target)
    ensures IsVersionTag(img, target)
  {
    hide CandidatesOf, SuffixCandidates;
    var candidates := SuffixCandidates(img, suffix);
    var w :| IsFirstHighest(candidates, Before(candidates, |candidates|), w) && target == candidates[w].name;
    SuffixedIsCandidate(img, suffix, w);
  }

  lemma AliasPointsToTag(img: TaggedImage, series: map<string, string>, aliases: map<string, string>, a: string)
    requires AreAllAliases(img, series, aliases) && a in aliases
    requires img.latest.Some? ==> img.latest.value.tag != ""
    ensures IsVersionTag(img, aliases[a])
  {
    hide IsVersionTag, AreAliases, IsTop, Resolves;
    if img.latest.Some? {
      var l := img.latest.value.tag;
      assert Explained(img, l, series, img.Suffixes(), a, aliases[a]);
      var s := if l <= a then a[|l|..] else "";
      if l <= a && s in img.Suffixes() && Resolves(img, l, s) {
        LatestPointsToTag(img, s, aliases[a]);
      } else {
        SeriesPointsToTag(img, series, a);
      }
    } else {
      SeriesPointsToTag(img, series, a);
    }
  }
}

/** Splitting the tags of a project over CI shards. */
module Shards {
  import opened Wrappers
  import opened Ordering

  const TWO32: nat := 0x1_0000_0000

  type Hash32 = h: int | 0 <= h < TWO32

  /** FNV-1a over the given text; nothing is assumed about it. */
  type Hash = string -> Hash32

  datatype Unit = Unit(identifier: string, tagName: string)

  /** variants maps a variant name to its tag suffix. */
  datatype ShardedImage = ShardedImage(identifier: string, name: string, tags: set<string>, variants: map<string, string>)

  datatype ShardedProject = ShardedProject(byIdentifier: map<string, ShardedImage>, byName: map<string, seq<ShardedImage>>)

  /** The shard totals the code can work with: the divisor of the hash is the total cut to 32 bits,
      and Go panics on a division by zero. A total of at most one switches sharding off. */
  type Total = m: int | m <= 1 || m % TWO32 != 0

  datatype Shard = Shard(current: int, max: Total) {
    predicate Enabled() { max > 1 }

    /** What Validate accepts. */
    predicate Valid() { 1 <= current <= max }

    predicate Owns(hash: Hash, u: Unit) {
      !Enabled() || hash(u.identifier + "\0" + u.tagName) % (max % TWO32) == current - 1
    }
  }

  /** Owns for any total; None is the panic. */
  function OwnsOrPanics(hash: Hash, current: int, max: int, u: Unit): Option<bool> {
    if max <= 1 then Some(true)
    else if max % TWO32 == 0 then None
    else Some(hash(u.identifier + "\0" + u.tagName) % (max % TWO32) == current - 1)
  }

  /** Owns panics for no unit and no shard exactly on the usable totals, and then is what shards are
      about here. Validate lets unusable totals pass. */
  lemma OwnsDefinedIff(hash: Hash, max: int)
    ensures (forall current, u :: OwnsOrPanics(hash, current, max, u) != None) <==> (max <= 1 || max % TWO32 != 0)
    ensures max <= 1 || max % TWO32 != 0 ==> forall current, u :: OwnsOrPanics(hash, current, max, u) == Some(Shard(current, max).Owns(hash, u))
    ensures TWO32 > 1 && forall u :: OwnsOrPanics(hash, 1, TWO32, u) == None
  {
    if max > 1 && max % TWO32 == 0 {
      assert OwnsOrPanics(hash, 1, max, Unit("", "")) == None;
    }
  }

  /** Whether a shard of an enabled and usable total owns a unit is decided by the hash of the
      identifier, a NUL and the tag name; and of two units whose identifiers have no NUL, some hash
      and some shard tell each from the other. */
  lemma OwnershipTellsUnitsApart(hash: Hash, s: Shard, u: Unit, w: Unit)
    requires '\0' !in u.identifier && '\0' !in w.identifier
    ensures 1 < s.max < TWO32 ==> (s.Owns(hash, u) <==> hash(u.identifier + "\0" + u.tagName) % s.max == s.current - 1)
    ensures u == w <==> forall h: Hash, r: Shard :: r.Owns(h, u) <==> r.Owns(h, w)
  {
    if u != w {
      var text := u.identifier + "\0" + u.tagName;
      var h: Hash := t => if t == text then 0 else 1;
      if w.identifier + "\0" + w.tagName == text {
        UnitTextInjective(u, w);
      }
      assert Shard(1, 2).Owns(h, u) && !Shard(1, 2).Owns(h, w);
    }
  }

  lemma UnitTextInjective(u: Unit, w: Unit)
    requires '\0' !in u.identifier && '\0' !in w.identifier
    requires u.identifier + "\0" + u.tagName == w.identifier + "\0" + w.tagName
    ensures u == w
  {
    var s, m, n := u.identifier + "\0" + u.tagName, |u.identifier|, |w.identifier|;
    assert s[m] == '\0' && s[n] == '\0';
    assert forall k :: 0 <= k < m ==> s[k] == u.identifier[k];
    assert forall k :: 0 <= k < n ==> s[k] == w.identifier[k];
    assert m == n;
    assert s[..m] == u.identifier && s[..m] == w.identifier;
    assert s[m+1..] == u.tagName && s[m+1..] == w.tagName;
  }

  // ---------- the units of a project ----------

  function UnitsOf(img: ShardedImage): set<Unit> {
    (set t | t in img.tags :: Unit(img.identifier, t))
    + set t, v | t in img.tags && v in img.variants :: Unit(img.identifier, t + img.variants[v])
  }

  function UnitsOfAll(images: set<ShardedImage>): set<Unit> {
    set img, u | img in images && u in UnitsOf(img) :: u
  }

  function Units(p: ShardedProject): set<Unit> {
    UnitsOfAll(p.byIdentifier.Values)
  }

  /** The units are the tags of the images, alone and with the suffix of one of their variants behind. */
  lemma UnitsIff(p: ShardedProject, u: Unit)
    ensures u in Units(p) <==> exists id :: id in p.byIdentifier && IsUnitOf(p.byIdentifier[id], u)
  {
    forall img ensures u in UnitsOf(img) <==> IsUnitOf(img, u) {
      UnitsOfIff(img, u);
    }
    hide IsUnitOf, UnitsOf;
    if u in Units(p) {
      var img :| img in p.byIdentifier.Values && u in UnitsOf(img);
      var id :| id in p.byIdentifier && p.byIdentifier[id] == img;
    }
  }

  ghost predicate IsUnitOf(img: ShardedImage, u: Unit) {
    && u.identifier == img.identifier
    && (u.tagName in img.tags
        || exists k, v :: 0 <= k <= |u.tagName| && u.tagName[..k] in img.tags && v in img.variants && u.tagName[k..] == img.variants[v])
  }

  lemma UnitsOfIff(img: ShardedImage, u: Unit)
    ensures u in UnitsOf(img) <==> IsUnitOf(img, u)
  {
    if t, v :| t in img.tags && v in img.variants && u == Unit(img.identifier, t + img.variants[v]) {
      assert u.tagName[..|t|] == t && u.tagName[|t|..] == img.variants[v];
    }
    forall k, v | 0 <= k <= |u.tagName| && u.identifier == img.identifier && u.tagName[..k] in img.tags && v in img.variants && u.tagName[k..] == img.variants[v]
      ensures u in UnitsOf(img)
    {
      assert u.tagName == u.tagName[..k] + img.variants[v];
    }
  }

  /** By identifier, then by tag name. */
  predicate UnitLeq(a: Unit, b: Unit) {
    if a.identifier != b.identifier then Less(a.identifier, b.identifier) else LessEq(a.tagName, b.tagName)
  }

  lemma UnitOrder()
    ensures TotalPreorder(UnitLeq)
    ensures forall s: seq<Unit> :: AntisymmetricOn(s, UnitLeq)
  {
    StringOrder();
  }

  /** The sorted list of a set of units. */
  ghost predicate Lists(s: seq<Unit>, units: set<Unit>) {
    SortedBy(s, UnitLeq) && NoDup(s) && Elems(s) == units
  }

  /** A set of units has one list only, whatever order the maps were visited in. */
  lemma ListUnique(a: seq<Unit>, b: seq<Unit>, units: set<Unit>)
    requires Lists(a, units) && Lists(b, units)
    ensures a == b
  {
    UnitOrder();
    NoDupMultiset(a);
    NoDupMultiset(b);
    SortedUnique(a, b, UnitLeq);
  }

  method CollectImage(img: ShardedImage, before: set<Unit>) returns (seen: set<Unit>)
    ensures seen == before + UnitsOf(img)
  {
    hide UnitsOf;
    seen := before;
    var todo := img.tags;
    ghost var done: set<string> := {};
    UnitsOfTags(img, {}, "");
    while todo != {}
      invariant done + todo == img.tags && done !! todo
      invariant seen == before + UnitsOf(img.(tags := done))
      decreases todo
    {
      var t :| t in todo;
      seen := CollectTag(img, t, seen);
      UnitsOfTags(img, done, t);
      todo, done := todo - {t}, done + {t};
    }
    assert done == img.tags;
  }

  lemma UnitsOfTags(img: ShardedImage, done: set<string>, t: string)
    ensures UnitsOf(img.(tags := done + {t})) == UnitsOf(img.(tags := done)) + UnitsOf(img.(tags := {t}))
    ensures UnitsOf(img.(tags := {})) == {}
  {
  }

  method CollectTag(img: ShardedImage, t: string, before: set<Unit>) returns (seen: set<Unit>)
    ensures seen == before + UnitsOf(img.(tags := {t}))
  {
    seen := before + {Unit(img.identifier, t)};
    var todo := img.variants.Keys;
    while todo != {}
      invariant todo <= img.variants.Keys
      invariant seen == before + {Unit(img.identifier, t)} + (set v | v in img.variants.Keys - todo :: Unit(img.identifier, t + img.variants[v]))
      decreases todo
    {
      var v :| v in todo;
      seen := seen + {Unit(img.identifier, t + img.variants[v])};
      ghost var was := img.variants.Keys - todo;
      todo := todo - {v};
      assert img.variants.Keys - todo == was + {v};
    }
    assert img.variants.Keys - todo == img.variants.Keys;
  }

  method TagIndex(p: ShardedProject) returns (refs: seq<Unit>)
    ensures Lists(refs, Units(p))
  {
    hide UnitsOf;
    var seen: set<Unit> := {};
    var todo := p.byIdentifier.Values;
    while todo != {}
      invariant todo <= p.byIdentifier.Values
      invariant seen == UnitsOfAll(p.byIdentifier.Values - todo)
      decreases todo
    {
      var img :| img in todo;
      ghost var done := p.byIdentifier.Values - todo;
      seen := CollectImage(img, seen);
      todo := todo - {img};
      assert p.byIdentifier.Values - todo == done + {img};
    }
    assert p.byIdentifier.Values - todo == p.byIdentifier.Values;
    var all := ListSet(seen);
    UnitOrder();
    NoDupMultiset(all);
    refs := SortBy(all, UnitLeq);
    MultisetNoDup(refs, Elems(all));
  }

  // ---------- ownership ----------

  ghost function Owned(hash: Hash, p: ShardedProject, s: Shard): set<Unit>
  {
    set u | u in Units(p) && s.Owns(hash, u)
  }

  method OwnedUnits(hash: Hash, p: ShardedProject, s: Shard) returns (owned: seq<Unit>)
    ensures Lists(owned, Owned(hash, p, s))
  {
    hide Units, UnitLeq;
    var refs := TagIndex(p);
    if !s.Enabled() {
      return refs;
    }
    owned := [];
    for i := 0 to |refs|
      invariant NoDup(owned) && SortedBy(owned, UnitLeq)
      invariant forall u :: u in owned <==> u in refs[..i] && s.Owns(hash, u)
    {
      PrefixStep(refs, i);
      if s.Owns(hash, refs[i]) {
        forall u | u in owned ensures UnitLeq(u, refs[i]) {
          var k :| 0 <= k < i && refs[..i][k] == u;
          assert refs[k] == u;
        }
        owned := owned + [refs[i]];
      }
    }
    assert refs[..|refs|] == refs;
    assert Elems(refs) == Units(p);
  }

  /** The one shard that owns a unit. */
  function Owner(hash: Hash, u: Unit, max: Total): int
    requires max > 1
  {
    hash(u.identifier + "\0" + u.tagName) % (max % TWO32) + 1
  }

  /** Every unit has exactly one owner among shards 1 to max, so the lists of the shards are a
      partition of the index. */
  lemma ShardsPartition(hash: Hash, p: ShardedProject, max: Total)
    requires max >= 1
    ensures forall u :: u in Units(p) ==> exists c :: Shard(c, max).Valid() && u in Owned(hash, p, Shard(c, max))
    ensures forall c, d :: Shard(c, max).Valid() && Shard(d, max).Valid() && c != d ==> Owned(hash, p, Shard(c, max)) !! Owned(hash, p, Shard(d, max))
    ensures forall c :: Owned(hash, p, Shard(c, max)) <= Units(p)
  {
    hide Units;
    forall u | u in Units(p) ensures exists c :: Shard(c, max).Valid() && u in Owned(hash, p, Shard(c, max)) {
      var c := if max == 1 then 1 else Owner(hash, u, max);
      assert Shard(c, max).Valid() && u in Owned(hash, p, Shard(c, max));
    }
  }

  /** The lengths of the lists of all shards add up to the length of the index. */
  lemma {:induction false} ShardsCount(hash: Hash, p: ShardedProject, max: Total, upTo: nat)
    requires max >= 1 && upTo <= max
    ensures OwnedTotal(hash, p, max, upTo) == |OwnedUpTo(hash, p, max, upTo)|
    ensures upTo == max ==> OwnedUpTo(hash, p, max, upTo) == Units(p)
  {
    hide Units, Shard.Owns, OwnedUpTo, Owned;
    if upTo == 0 {
      OwnedByNone(hash, p, max);
    } else {
      ShardsCount(hash, p, max, upTo - 1);
      OwnedUpToStep(hash, p, max, upTo);
    }
    if upTo == max {
      OwnedByAll(hash, p, max);
    }
  }

  lemma OwnedByNone(hash: Hash, p: ShardedProject, max: Total)
    ensures OwnedUpTo(hash, p, max, 0) == {}
  {
  }

  lemma OwnedByAll(hash: Hash, p: ShardedProject, max: Total)
    requires max >= 1
    ensures OwnedUpTo(hash, p, max, max) == Units(p)
  {
    ShardsPartition(hash, p, max);
    hide Units, Shard.Owns;
    forall u | u in Units(p) ensures u in OwnedUpTo(hash, p, max, max) {
      var c :| Shard(c, max).Valid() && u in Owned(hash, p, Shard(c, max));
      assert 1 <= c <= max;
    }
  }

  lemma OwnedUpToStep(hash: Hash, p: ShardedProject, max: Total, upTo: nat)
    requires 1 <= upTo <= max
    ensures |OwnedUpTo(hash, p, max, upTo)| == |OwnedUpTo(hash, p, max, upTo - 1)| + |Owned(hash, p, Shard(upTo, max))|
  {
    ShardsPartition(hash, p, max);
    hide Units, Shard.Owns;
    var a, b := OwnedUpTo(hash, p, max, upTo - 1), Owned(hash, p, Shard(upTo, max));
    forall u | u in a ensures u !in b {
      var c :| 1 <= c <= upTo - 1 && Shard(c, max).Owns(hash, u);
      assert u in Owned(hash, p, Shard(c, max));
      assert Shard(c, max).Valid() && Shard(upTo, max).Valid();
    }
    assert OwnedUpTo(hash, p, max, upTo) == a + b;
  }

  ghost function OwnedUpTo(hash: Hash, p: ShardedProject, max: Total, upTo: nat): set<Unit>
  {
    set u | u in Units(p) && exists c :: 1 <= c <= upTo && Shard(c, max).Owns(hash, u)
  }

  ghost function OwnedTotal(hash: Hash, p: ShardedProject, max: Total, upTo: nat): nat
  {
    if upTo == 0 then 0 else OwnedTotal(hash, p, max, upTo - 1) + |Owned(hash, p, Shard(upTo, max))|
  }

  /** Declaring one more tag gives each shard its share of the new units and takes nothing away. */
  lemma AddTag(hash: Hash, p: ShardedProject, s: Shard, id: string, tag: string)
    requires id in p.byIdentifier && WellKeyed(p)
    ensures var img := p.byIdentifier[id];
      var q := p.(byIdentifier := p.byIdentifier[id := img.(tags := img.tags + {tag})]);
      Owned(hash, q, s) == Owned(hash, p, s) + set u | u in UnitsOf(img.(tags := {tag})) && s.Owns(hash, u)
  {
    var img := p.byIdentifier[id];
    var more := img.(tags := img.tags + {tag});
    var q := p.(byIdentifier := p.byIdentifier[id := more]);
    UnitsOfTags(img, img.tags, tag);
    assert img == img.(tags := img.tags);
    hide UnitsOf, Shard.Owns;
    forall u ensures u in Units(q) <==> u in Units(p) || u in UnitsOf(img.(tags := {tag})) {
      if k :| k in p.byIdentifier && u in UnitsOf(p.byIdentifier[k]) {
        assert k in q.byIdentifier && u in UnitsOf(q.byIdentifier[k]);
      }
      if k :| k in q.byIdentifier && u in UnitsOf(q.byIdentifier[k]) && k != id {
        assert k in p.byIdentifier && u in UnitsOf(p.byIdentifier[k]);
      }
      assert q.byIdentifier[id] == more;
    }
  }

  // ---------- the two predicates handed to the commands ----------

  /** Discovery keys every image by its own identifier. */
  predicate WellKeyed(p: ShardedProject) {
    forall id :: id in p.byIdentifier ==> p.byIdentifier[id].identifier == id
  }

  /** Without sharding everything matches; with sharding exactly the owned units of the project do,
      so an unknown pair never does. */
  method NewTagSharder(hash: Hash, p: ShardedProject, s: Shard) returns (owns: (string, string) -> bool)
    ensures forall id, tag :: owns(id, tag) <==> !s.Enabled() || Unit(id, tag) in Owned(hash, p, s)
  {
    if !s.Enabled() {
      return (id: string, tag: string) => true;
    }
    var refs := TagIndex(p);
    var valid := Elems(refs);
    owns := (id: string, tag: string) => Unit(id, tag) in valid && s.Owns(hash, Unit(id, tag));
  }

  /** Identifier, base tag, variant tags. */
  type VariantsOf = map<string, map<string, set<string>>>

  function VariantTags(img: ShardedImage, tag: string): set<string> {
    if tag in img.tags then set v | v in img.variants :: tag + img.variants[v] else {}
  }

  function Lookup(m: VariantsOf, id: string, tag: string): set<string> {
    if id in m && tag in m[id] then m[id][tag] else {}
  }

  method CollectVariants(img: ShardedImage) returns (perBase: map<string, set<string>>)
    ensures forall t :: (if t in perBase then perBase[t] else {}) == VariantTags(img, t)
  {
    perBase := map[];
    var todo := img.tags;
    while todo != {}
      invariant todo <= img.tags
      invariant perBase.Keys == img.tags - todo
      invariant forall t :: t in perBase ==> perBase[t] == VariantTags(img, t)
      decreases todo
    {
      var t :| t in todo;
      var left := img.variants.Keys;
      var tags: set<string> := {};
      while left != {}
        invariant left <= img.variants.Keys
        invariant tags == set v | v in img.variants.Keys - left :: t + img.variants[v]
        decreases left
      {
        var v :| v in left;
        ghost var was := img.variants.Keys - left;
        tags, left := tags + {t + img.variants[v]}, left - {v};
        assert img.variants.Keys - left == was + {v};
      }
      assert img.variants.Keys - left == img.variants.Keys;
      perBase, todo := perBase[t := tags], todo - {t};
    }
  }

  /** A shard builds a base tag when it owns the tag or one of its variants. */
  ghost predicate Builds(hash: Hash, p: ShardedProject, s: Shard, id: string, tag: string)
  {
    || Unit(id, tag) in Owned(hash, p, s)
    || (id in p.byIdentifier && exists v :: v in VariantTags(p.byIdentifier[id], tag) && Unit(id, v) in Owned(hash, p, s))
  }

  method NewBaseTagSharder(hash: Hash, p: ShardedProject, s: Shard) returns (builds: (string, string) -> bool)
    requires WellKeyed(p)
    ensures forall id, tag :: builds(id, tag) <==> !s.Enabled() || Builds(hash, p, s, id, tag)
  {
    if !s.Enabled() {
      return (id: string, tag: string) => true;
    }
    var refs := TagIndex(p);
    var valid := Elems(refs);
    hide Units;
    var variantsOf: VariantsOf := map[];
    var todo := p.byIdentifier.Keys;
    while todo != {}
      invariant todo <= p.byIdentifier.Keys
      invariant variantsOf.Keys <= p.byIdentifier.Keys - todo
      invariant forall id, t :: id in p.byIdentifier && id !in todo ==> Lookup(variantsOf, id, t) == VariantTags(p.byIdentifier[id], t)
      decreases todo
    {
      var id :| id in todo;
      todo := todo - {id};
      var img := p.byIdentifier[id];
      if img.variants == map[] {
        assert forall t :: VariantTags(img, t) == {};
        continue;
      }
      var perBase := CollectVariants(img);
      variantsOf := variantsOf[img.identifier := perBase];
    }
    builds := (id: string, tag: string) =>
      var owns := (t: string) => Unit(id, t) in valid && s.Owns(hash, Unit(id, t));
      owns(tag) || exists v :: v in Lookup(variantsOf, id, tag) && owns(v);
  }

  /** Whoever owns a base tag or one of its variants builds the base. */
  lemma VariantBringsBase(hash: Hash, p: ShardedProject, s: Shard, id: string, tag: string, v: string)
    requires WellKeyed(p)
    requires id in p.byIdentifier && tag in p.byIdentifier[id].tags && v in p.byIdentifier[id].variants
    ensures var variantTag := tag + p.byIdentifier[id].variants[v];
      && Unit(id, variantTag) in Units(p)
      && (s.Owns(hash, Unit(id, variantTag)) ==> Builds(hash, p, s, id, tag))
    ensures s.Owns(hash, Unit(id, tag)) ==> Builds(hash, p, s, id, tag)
  {
    var img := p.byIdentifier[id];
    var variantTag := tag + img.variants[v];
    assert Unit(id, variantTag) in UnitsOf(img);
    assert Unit(id, tag) in UnitsOf(img);
    assert img in p.byIdentifier.Values;
    assert variantTag in VariantTags(img, tag);
  }

  // ---------- counting units by image name ----------

  function ImageUnits(img: ShardedImage): nat {
    |img.tags| * (1 + |img.variants|)
  }

  function SumImages(images: seq<ShardedImage>): nat {
    if images == [] then 0 else SumImages(images[..|images|-1]) + ImageUnits(images[|images|-1])
  }

  lemma SumStep(images: seq<ShardedImage>, i: nat)
    requires i < |images|
    ensures SumImages(images[..i+1]) == SumImages(images[..i]) + ImageUnits(images[i])
    ensures SumImages(images[..0]) == 0 && SumImages(images[..|images|]) == SumImages(images)
  {
    assert images[..i+1][..i] == images[..i];
    assert images[..|images|] == images;
  }

  method UnitCountByName(p: ShardedProject) returns (counts: map<string, nat>)
    ensures forall name :: name in counts <==> name in p.byName && p.byName[name] != []
    ensures forall name :: name in counts ==> counts[name] == SumImages(p.byName[name])
  {
    hide SumImages, ImageUnits;
    counts := map[];
    var todo := p.byName.Keys;
    while todo != {}
      invariant todo <= p.byName.Keys
      invariant forall name :: name in counts <==> name in p.byName && name !in todo && p.byName[name] != []
      invariant forall name :: name in counts ==> counts[name] == SumImages(p.byName[name])
      decreases todo
    {
      var name :| name in todo;
      todo := todo - {name};
      var images := p.byName[name];
      ghost var before := counts;
      for i := 0 to |images|
        invariant counts == if i == 0 then before else before[name := SumImages(images[..i])]
      {
        SumStep(images, i);
        counts := counts[name := (if name in counts then counts[name] else 0) + ImageUnits(images[i])];
      }
      if images != [] {
        SumStep(images, 0);
      }
    }
  }

  /** A tag, or a tag with one variant of its image. */
  datatype Pair = Base(tag: string) | Suffixed(tag: string, variant: string)

  function Pairs(img: ShardedImage): set<Pair> {
    (set t | t in img.tags :: Base(t)) + set t, v | t in img.tags && v in img.variants :: Suffixed(t, v)
  }

  function FullTag(img: ShardedImage, pair: Pair): string
    requires pair in Pairs(img)
  {
    match pair
    case Base(t) => t
    case Suffixed(t, v) => t + img.variants[v]
  }

  /** No two tag and variant pairs of the image concatenate to the same name. */
  ghost predicate NamesDistinct(img: ShardedImage) {
    forall x, y :: x in Pairs(img) && y in Pairs(img) && FullTag(img, x) == FullTag(img, y) ==> x == y
  }

  lemma {:induction false} PairCount(img: ShardedImage)
    ensures |Pairs(img)| == ImageUnits(img)
    decreases img.tags
  {
    hide Pairs;
    if t :| t in img.tags {
      var rest := img.(tags := img.tags - {t});
      PairCount(rest);
      PairStep(img, t);
      assert |img.tags| == |rest.tags| + 1;
      assert ImageUnits(img) == ImageUnits(rest) + (1 + |img.variants|);
    } else {
      NoPairs(img);
    }
  }

  lemma NoPairs(img: ShardedImage)
    requires img.tags == {}
    ensures Pairs(img) == {}
  {
  }

  predicate IsPair(img: ShardedImage, x: Pair) {
    x.tag in img.tags && (x.Suffixed? ==> x.variant in img.variants)
  }

  lemma PairIn(img: ShardedImage, x: Pair)
    ensures x in Pairs(img) <==> IsPair(img, x)
  {
  }

  lemma PairStep(img: ShardedImage, t: string)
    requires t in img.tags
    ensures |Pairs(img)| == |Pairs(img.(tags := img.tags - {t}))| + 1 + |img.variants|
  {
    hide Pairs;
    var rest := img.(tags := img.tags - {t});
    var mine := {Base(t)} + VariantPairs(t, img.variants.Keys);
    VariantPairCount(t, img.variants.Keys);
    forall x ensures x in Pairs(img) <==> x in Pairs(rest) || x in mine {
      PairIn(img, x);
      PairIn(rest, x);
    }
    forall x | x in mine ensures x !in Pairs(rest) {
      PairIn(rest, x);
    }
    assert Pairs(img) == Pairs(rest) + mine;
  }

  function VariantPairs(t: string, variants: set<string>): set<Pair> {
    set v | v in variants :: Suffixed(t, v)
  }

  lemma {:induction false} VariantPairCount(t: string, variants: set<string>)
    ensures |VariantPairs(t, variants)| == |variants|
  {
    if v :| v in variants {
      VariantPairCount(t, variants - {v});
      assert VariantPairs(t, variants) == VariantPairs(t, variants - {v}) + {Suffixed(t, v)};
    }
  }

  /** The units that some of the pairs give. */
  function UnitsOfPairs(img: ShardedImage, pairs: set<Pair>): set<Unit>
    requires pairs <= Pairs(img)
  {
    set x | x in pairs :: Unit(img.identifier, FullTag(img, x))
  }

  lemma {:induction false} PairsCollapse(img: ShardedImage, pairs: set<Pair>)
    requires pairs <= Pairs(img)
    ensures |UnitsOfPairs(img, pairs)| <= |pairs|
    ensures |UnitsOfPairs(img, pairs)| == |pairs| <==> forall x, y :: x in pairs && y in pairs && FullTag(img, x) == FullTag(img, y) ==> x == y
  {
    hide Pairs, FullTag;
    if x :| x in pairs {
      var rest := pairs - {x};
      var u := Unit(img.identifier, FullTag(img, x));
      PairsCollapse(img, rest);
      assert UnitsOfPairs(img, pairs) == UnitsOfPairs(img, rest) + {u};
      if u in UnitsOfPairs(img, rest) {
        var y :| y in rest && Unit(img.identifier, FullTag(img, y)) == u;
        assert y != x;
        assert UnitsOfPairs(img, pairs) == UnitsOfPairs(img, rest);
      }
    }
  }

  lemma ImageCount(img: ShardedImage)
    ensures |UnitsOf(img)| <= ImageUnits(img)
    ensures |UnitsOf(img)| == ImageUnits(img) <==> NamesDistinct(img)
  {
    PairCount(img);
    PairsCollapse(img, Pairs(img));
    UnitsFromPairs(img);
  }

  lemma UnitsFromPairs(img: ShardedImage)
    ensures UnitsOf(img) == UnitsOfPairs(img, Pairs(img))
  {
    forall u | u in UnitsOf(img) ensures u in UnitsOfPairs(img, Pairs(img)) {
      if t :| t in img.tags && u == Unit(img.identifier, t) {
        assert Base(t) in Pairs(img) && FullTag(img, Base(t)) == t;
      } else {
        var t, v :| t in img.tags && v in img.variants && u == Unit(img.identifier, t + img.variants[v]);
        assert Suffixed(t, v) in Pairs(img) && FullTag(img, Suffixed(t, v)) == t + img.variants[v];
      }
    }
  }

  // ---------- the total over all names ----------

  /** The two maps of a discovered project hold the same images. */
  ghost predicate Consistent(p: ShardedProject) {
    && WellKeyed(p)
    && (forall name :: name in p.byName ==> GroupsName(p, name, p.byName[name]))
    && (forall id :: id in p.byIdentifier ==> p.byIdentifier[id].name in p.byName && p.byIdentifier[id] in p.byName[p.byIdentifier[id].name])
  }

  /** Images of the project with that name, each once. */
  ghost predicate GroupsName(p: ShardedProject, name: string, images: seq<ShardedImage>) {
    NoDup(images) && forall img :: img in images ==> img.name == name && img in p.byIdentifier.Values
  }

  ghost function CountTotal(counts: map<string, nat>): nat {
    if counts == map[] then 0 else
      var name := Min(counts.Keys);
      counts[name] + CountTotal(counts - {name})
  }

  /** Images with different identifiers have no unit in common. */
  lemma UnitsApart(p: ShardedProject, images: set<ShardedImage>, img: ShardedImage)
    requires WellKeyed(p) && images <= p.byIdentifier.Values && img in p.byIdentifier.Values && img !in images
    ensures |UnitsOfAll(images + {img})| == |UnitsOfAll(images)| + |UnitsOf(img)|
  {
    forall u | u in UnitsOfAll(images) ensures u !in UnitsOf(img) {
      var other :| other in images && u in UnitsOf(other);
      assert other.identifier == u.identifier && other != img;
      assert other.identifier != img.identifier;
    }
    assert UnitsOfAll(images + {img}) == UnitsOfAll(images) + UnitsOf(img);
  }

  /** The images of one name on top of others. */
  lemma {:induction false} GroupCount(p: ShardedProject, before: set<ShardedImage>, images: seq<ShardedImage>)
    requires WellKeyed(p) && before <= p.byIdentifier.Values && NoDup(images)
    requires forall img :: img in images ==> img in p.byIdentifier.Values && img !in before
    ensures |UnitsOfAll(before + Elems(images))| <= |UnitsOfAll(before)| + SumImages(images)
    ensures |UnitsOfAll(before + Elems(images))| == |UnitsOfAll(before)| + SumImages(images) <==> forall img :: img in images ==> NamesDistinct(img)
  {
    hide UnitsOf, UnitsOfAll, NamesDistinct, ImageUnits, WellKeyed;
    if images == [] {
      assert before + Elems(images) == before;
    } else {
      var front, last := images[..|images|-1], images[|images|-1];
      assert images == front + [last];
      Append(front, last);
      assert last !in front;
      GroupCount(p, before, front);
      UnitsApart(p, before + Elems(front), last);
      assert before + Elems(images) == before + Elems(front) + {last};
      ImageCount(last);
    }
  }

  /** The images that have one of the names. */
  ghost function Named(p: ShardedProject, names: set<string>): set<ShardedImage> {
    set img | img in p.byIdentifier.Values && img.name in names
  }

  lemma NamedStep(p: ShardedProject, names: set<string>, name: string)
    requires Consistent(p) && name in p.byName && name in names
    ensures Named(p, names) == Named(p, names - {name}) + Elems(p.byName[name])
    ensures forall img :: img in p.byName[name] ==> img in p.byIdentifier.Values && img !in Named(p, names - {name})
    ensures NoDup(p.byName[name])
  {
    assert GroupsName(p, name, p.byName[name]);
  }

  lemma {:induction false} NamesCount(p: ShardedProject, counts: map<string, nat>)
    requires Consistent(p) && counts.Keys <= p.byName.Keys
    requires forall name :: name in counts ==> counts[name] == SumImages(p.byName[name])
    ensures |UnitsOfAll(Named(p, counts.Keys))| <= CountTotal(counts)
    ensures |UnitsOfAll(Named(p, counts.Keys))| == CountTotal(counts) <==> forall img :: img in Named(p, counts.Keys) ==> NamesDistinct(img)
    decreases counts.Keys
  {
    if counts == map[] {
      assert Named(p, counts.Keys) == {};
    } else {
      var name := Min(counts.Keys);
      var rest := counts - {name};
      assert rest.Keys == counts.Keys - {name};
      NamesCount(p, rest);
      NamedStep(p, counts.Keys, name);
      hide UnitsOfAll, Named, NamesDistinct, Consistent;
      GroupCountFor(p, Named(p, rest.Keys), name);
    }
  }

  lemma GroupCountFor(p: ShardedProject, before: set<ShardedImage>, name: string)
    requires Consistent(p) && name in p.byName && before <= p.byIdentifier.Values && NoDup(p.byName[name])
    requires forall img :: img in p.byName[name] ==> img in p.byIdentifier.Values && img !in before
    ensures |UnitsOfAll(before + Elems(p.byName[name]))| <= |UnitsOfAll(before)| + SumImages(p.byName[name])
    ensures |UnitsOfAll(before + Elems(p.byName[name]))| == |UnitsOfAll(before)| + SumImages(p.byName[name])
      <==> forall img :: img in p.byName[name] ==> NamesDistinct(img)
  {
    GroupCount(p, before, p.byName[name]);
  }

  /** The counts add up to at least the length of the index, and to exactly that length when and
      only when no image has two tag and variant pairs that concatenate to the same name. */
  lemma CountsCoverIndex(p: ShardedProject, counts: map<string, nat>, refs: seq<Unit>)
    requires Consistent(p) && Lists(refs, Units(p))
    requires forall name :: name in counts <==> name in p.byName && p.byName[name] != []
    requires forall name :: name in counts ==> counts[name] == SumImages(p.byName[name])
    ensures |refs| <= CountTotal(counts)
    ensures |refs| == CountTotal(counts) <==> forall id :: id in p.byIdentifier ==> NamesDistinct(p.byIdentifier[id])
  {
    NamesCount(p, counts);
    NoDupMultiset(refs);
    hide NamesDistinct;
    assert Named(p, counts.Keys) == p.byIdentifier.Values by {
      forall id | id in p.byIdentifier ensures p.byIdentifier[id].name in counts {
        assert p.byIdentifier[id] in p.byName[p.byIdentifier[id].name];
      }
    }
  }
}

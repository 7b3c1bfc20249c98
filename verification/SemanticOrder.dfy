/** The lower variants of a semantic tag and the comparison of semantic tags. */
module SemanticOrder {
  import opened Wrappers
  import opened Ordering
  import opened SemanticTags

  // ---------- lower variants ----------

  /** strings.Join(parts, ".") */
  function JoinDots(parts: seq<string>): string {
    if parts == [] then ""
    else if |parts| == 1 then parts[0]
    else parts[0] + "." + JoinDots(parts[1..])
  }

  function BuildVariant(v: SemTag, parts: seq<string>): string {
    v.prefix + JoinDots(parts) + Dash(v.suffix)
  }

  function LowerVariants(v: SemTag): seq<string> {
    if v.build != "" then
      [BuildVariant(v, [v.major, v.minor, v.patch]), BuildVariant(v, [v.major, v.minor]), BuildVariant(v, [v.major])]
    else if v.patch != "" then [BuildVariant(v, [v.major, v.minor]), BuildVariant(v, [v.major])]
    else if v.minor != "" then [BuildVariant(v, [v.major])]
    else []
  }

  /** v without its last component. */
  function DropLast(v: SemTag): SemTag {
    if v.build != "" then v.(build := "")
    else if v.patch != "" then v.(patch := "")
    else v.(minor := "")
  }

  /** v came out of the parser. */
  ghost predicate IsParsed(v: SemTag) {
    exists tag :: NewSemanticVersion(tag) == Success(v)
  }

  lemma ParsedShape(v: SemTag)
    requires IsParsed(v)
    ensures IsPlain(v.(build := "")) && (v.prefix == "" || !IsSpace(v.prefix[0]))
  {
    var tag :| NewSemanticVersion(tag) == Success(v);
    var t := TrimSpace(tag);
    TrimIsTrimmed(tag);
    MatchSound(t);
    var p := Match(t).value;
    if p.prefix != "" { assert t[0] == p.prefix[0]; }
  }

  lemma PlainIsParsed(v: SemTag)
    requires IsPlain(v) && (v.prefix == "" || !IsSpace(v.prefix[0]))
    ensures NewSemanticVersion(Print(v)) == Success(v) && IsParsed(v)
  {
    ParseAfterPrint(v);
  }

  lemma Join(a: string, b: string, c: string)
    ensures JoinDots([a]) == a
    ensures JoinDots([a, b]) == a + "." + b
    ensures JoinDots([a, b, c]) == a + "." + (b + "." + c)
  {
    assert [a, b][1..] == [b] && [b, c][1..] == [c];
    assert [a, b, c][1..] == [b, c];
    assert JoinDots([b, c]) == b + "." + JoinDots([c]);
    assert JoinDots([a, b, c]) == a + "." + JoinDots([b, c]);
  }

  /** A variant over present components is the print of the record with just these. */
  lemma VariantPrints(v: SemTag, minor: string, patch: string)
    requires minor != ""
    ensures BuildVariant(v, [v.major]) == Print(SemTag(v.prefix, v.major, "", "", "", v.suffix))
    ensures BuildVariant(v, [v.major, minor]) == Print(SemTag(v.prefix, v.major, minor, "", "", v.suffix))
    ensures patch != "" ==> BuildVariant(v, [v.major, minor, patch]) == Print(SemTag(v.prefix, v.major, minor, patch, "", v.suffix))
  {
    hide Dash;
    Join(v.major, minor, patch);
    var p, m, d := v.prefix, v.major, Dash(v.suffix);
    assert p + m + "" + "" + "" + d == p + m + d;
    assert p + m + ("." + minor) + "" + "" + d == p + (m + "." + minor) + d;
    assert p + m + ("." + minor) + ("." + patch) + "" + d == p + (m + "." + (minor + "." + patch)) + d;
  }

  /** The first lower variant is the print of the shortened record, unless metadata replaced a missing patch. */
  lemma FirstVariantPrints(v: SemTag)
    requires IsPlain(v.(build := "")) && LowerVariants(v) != []
    requires v.build == "" || v.patch != ""
    ensures LowerVariants(v)[0] == Print(DropLast(v)) && IsPlain(DropLast(v))
    ensures LowerVariants(DropLast(v)) == LowerVariants(v)[1..]
  {
    hide BuildVariant, Print, All;
    VariantPrints(v, v.minor, v.patch);
    SameVariants(v, DropLast(v));
  }

  lemma SameVariants(v: SemTag, w: SemTag)
    requires v.prefix == w.prefix && v.suffix == w.suffix
    ensures forall parts :: BuildVariant(v, parts) == BuildVariant(w, parts)
  {
  }

  /** Without a patch, metadata leaves empty components behind: the variant ends in dots and does not parse. */
  lemma DottedVariantFails(v: SemTag)
    requires IsPlain(v.(build := "")) && (v.prefix == "" || !IsSpace(v.prefix[0]))
    requires v.build != "" && v.patch == ""
    ensures NewSemanticVersion(LowerVariants(v)[0]).Failure?
  {
    hide Match, TrimSpace, IsSpace, Fits, Dash;
    Join(v.major, v.minor, "");
    var rest := "." + (v.minor + ("." + Dash(v.suffix)));
    var t := v.prefix + (v.major + rest);
    assert LowerVariants(v)[0] == t;
    DottedIsTrimmed(v, t);
    TrimIsTrimmed(t);
    DottedUnmatched(v, rest);
  }

  lemma DottedIsTrimmed(v: SemTag, t: string)
    requires IsPlain(v.(build := "")) && (v.prefix == "" || !IsSpace(v.prefix[0]))
    requires t == v.prefix + (v.major + ("." + (v.minor + ("." + Dash(v.suffix)))))
    ensures IsTrimmed(t)
  {
    hide IsSpace;
    MajorStart(v.(build := ""));
    assert t[0] == if v.prefix == "" then v.major[0] else v.prefix[0];
    var c := if v.suffix == "" then '.' else v.suffix[|v.suffix|-1];
    assert t[|t|-1] == c;
    assert v.suffix != "" ==> SUFFIX_CHAR(c);
    SuffixCharNotSpace(c);
  }

  lemma SuffixCharNotSpace(c: char)
    requires IsSuffixChar(c)
    ensures !IsSpace(c)
  {
  }

  lemma DottedUnmatched(v: SemTag, rest: string)
    requires Fits(PartsOf(v.(build := ""))) && rest == "." + (v.minor + ("." + Dash(v.suffix)))
    ensures Match(v.prefix + (v.major + rest)).None?
  {
    hide Match, TakeDot, TakeSuffix, TakeMetadata, Fits, Dash;
    PlainParts(v);
    MatchHead(v.prefix, v.major, rest);
    var end := "." + Dash(v.suffix);
    NoTake(end) by { DashStart(v.suffix); }
    if v.minor == "" {
      assert rest == "." + end;
      NoTake(rest);
    } else {
      assert rest == Dot(v.minor) + end;
      TakeDotExact(v.minor, end);
    }
  }

  lemma DashStart(s: string)
    ensures var end := "." + Dash(s); |end| > 1 ==> end[1] == '-'
  {
  }

  lemma PlainParts(v: SemTag)
    requires Fits(PartsOf(v.(build := "")))
    ensures All(NON_DIGIT, v.prefix) && v.major != "" && !NON_DIGIT(v.major[0]) && All(DIGIT, v.major) && All(DIGIT, v.minor)
  {
    assert DIGIT(v.major[0]);
  }

  /** A dot that no digit follows belongs to no group. */
  lemma NoTake(s: string)
    requires s != "" && s[0] == '.' && (|s| > 1 ==> !IsDigit(s[1]))
    ensures TakeDot(s) == ("", s) && TakeSuffix(s) == ("", s) && TakeMetadata(s) == ("", s)
  {
  }

  /** The first lower variant of a parsed tag parses exactly when no metadata replaced a missing
      patch; it then parses to the tag without its last component, and its lower variants are the
      remaining ones. */
  lemma LowerVariantsChain(v: SemTag)
    requires IsParsed(v) && LowerVariants(v) != []
    ensures NewSemanticVersion(LowerVariants(v)[0]).Success? <==> (v.build == "" || v.patch != "")
    ensures v.build == "" || v.patch != "" ==>
      && NewSemanticVersion(LowerVariants(v)[0]) == Success(DropLast(v)) && IsParsed(DropLast(v))
      && LowerVariants(DropLast(v)) == LowerVariants(v)[1..]
  {
    hide IsPlain, LowerVariants, NewSemanticVersion, IsSpace;
    ParsedShape(v);
    if v.build == "" || v.patch != "" {
      FirstVariantPrints(v);
      PlainIsParsed(DropLast(v));
    } else {
      DottedVariantFails(v);
    }
  }

  // ---------- Compare ----------

  const MAX_INT: nat := 0x7FFF_FFFF_FFFF_FFFF

  function DigitsValue(s: string): nat
    requires All(DIGIT, s)
  {
    if s == "" then 0
    else
      assert DIGIT(s[|s|-1]);
      DigitsValue(s[..|s|-1]) * 10 + (s[|s|-1] as int - '0' as int)
  }

  /** strconv.Atoi with its error dropped: digits beyond the int range saturate. The parser
      produces nothing but digits. */
  function Atoi(s: string): nat {
    if All(DIGIT, s) then (if DigitsValue(s) > MAX_INT then MAX_INT else DigitsValue(s)) else 0
  }

  function CompareNumeric(a: string, b: string): int {
    if a == "" && b != "" then -1
    else if a != "" && b == "" then 1
    else if a != "" && b != "" && Atoi(a) < Atoi(b) then -1
    else if a != "" && b != "" && Atoi(a) > Atoi(b) then 1
    else 0
  }

  function CompareBuild(a: string, b: string): int {
    if a == "" && b != "" then -1
    else if a != "" && b == "" then 1
    else if Less(a, b) then -1
    else if Less(b, a) then 1
    else 0
  }

  function Compare(v: SemTag, other: SemTag): int {
    var major := CompareNumeric(v.major, other.major);
    if major != 0 then major else
      var minor := CompareNumeric(v.minor, other.minor);
      if minor != 0 then minor else
        var patch := CompareNumeric(v.patch, other.patch);
        if patch != 0 then patch else CompareBuild(v.build, other.build)
  }

  ghost predicate AtMost(v: SemTag, w: SemTag) {
    Compare(v, w) <= 0
  }

  /** A missing component ranks below every number. */
  ghost function Rank(s: string): int {
    if s == "" then -1 else Atoi(s)
  }

  lemma NumericByRank(a: string, b: string)
    ensures CompareNumeric(a, b) < 0 <==> Rank(a) < Rank(b)
    ensures CompareNumeric(a, b) == 0 <==> Rank(a) == Rank(b)
    ensures CompareNumeric(a, b) > 0 <==> Rank(a) > Rank(b)
  {
  }

  lemma BuildByLess(a: string, b: string)
    ensures CompareBuild(a, b) < 0 <==> Less(a, b)
    ensures CompareBuild(a, b) == 0 <==> a == b
    ensures CompareBuild(a, b) > 0 <==> Less(b, a)
  {
    LessTrichotomy(a, b);
  }

  /** Compare decides the first difference of the ranks, and then of the builds. */
  lemma CompareByRanks(v: SemTag, w: SemTag)
    ensures Compare(v, w) < 0 <==> RankLess(v, w)
    ensures Compare(v, w) > 0 <==> RankLess(w, v)
    ensures Compare(v, w) == 0 <==> Rank(v.major) == Rank(w.major) && Rank(v.minor) == Rank(w.minor) && Rank(v.patch) == Rank(w.patch) && v.build == w.build
  {
    hide CompareNumeric, CompareBuild, Rank, Less;
    NumericByRank(v.major, w.major);
    NumericByRank(v.minor, w.minor);
    NumericByRank(v.patch, w.patch);
    BuildByLess(v.build, w.build);
  }

  ghost predicate RankLess(v: SemTag, w: SemTag) {
    || Rank(v.major) < Rank(w.major)
    || (Rank(v.major) == Rank(w.major) && Rank(v.minor) < Rank(w.minor))
    || (Rank(v.major) == Rank(w.major) && Rank(v.minor) == Rank(w.minor) && Rank(v.patch) < Rank(w.patch))
    || (Rank(v.major) == Rank(w.major) && Rank(v.minor) == Rank(w.minor) && Rank(v.patch) == Rank(w.patch) && Less(v.build, w.build))
  }

  lemma AtMostTransitive(a: SemTag, b: SemTag, c: SemTag)
    requires AtMost(a, b) && AtMost(b, c)
    ensures AtMost(a, c)
    ensures Compare(a, b) < 0 || Compare(b, c) < 0 ==> Compare(a, c) < 0
  {
    hide Compare, Rank, Less;
    CompareByRanks(a, b);
    CompareByRanks(b, c);
    CompareByRanks(a, c);
    LessTrichotomy(a.build, b.build);
    LessTrichotomy(b.build, c.build);
    if Less(a.build, b.build) && Less(b.build, c.build) { LessTransitive(a.build, b.build, c.build); }
  }

  /** Comparing the other way round gives the opposite sign. */
  lemma CompareAntisymmetric(a: SemTag, b: SemTag)
    ensures Compare(a, b) < 0 <==> Compare(b, a) > 0
    ensures Compare(a, b) == 0 <==> Compare(b, a) == 0
  {
    hide Compare, Rank, RankLess;
    CompareByRanks(a, b);
    CompareByRanks(b, a);
  }

  lemma CompareIsTotalPreorder()
    ensures TotalPreorder(AtMost)
  {
    hide Compare;
    forall a, b ensures AtMost(a, b) || AtMost(b, a) { CompareAntisymmetric(a, b); }
    forall a, b, c | AtMost(a, b) && AtMost(b, c) ensures AtMost(a, c) { AtMostTransitive(a, b, c); }
  }

  /** Dropping a component makes a tag smaller. */
  lemma DropIsLess(v: SemTag)
    requires LowerVariants(v) != []
    ensures Compare(DropLast(v), v) < 0
  {
  }

  /** The parsed tag w is below v and shares its prefix and suffix. */
  ghost predicate IsLower(w: SemTag, v: SemTag) {
    Compare(w, v) < 0 && w.prefix == v.prefix && w.suffix == v.suffix
  }

  /** Every lower variant parses, below the tag and with its prefix and suffix. */
  lemma {:induction false} LowerVariantsAreLess(v: SemTag, k: nat)
    requires IsParsed(v) && (v.build == "" || v.patch != "") && k < |LowerVariants(v)|
    ensures NewSemanticVersion(LowerVariants(v)[k]).Success?
    ensures IsLower(NewSemanticVersion(LowerVariants(v)[k]).value, v)
    decreases |LowerVariants(v)|
  {
    hide NewSemanticVersion, Compare;
    var w := DropLast(v);
    LowerVariantsChain(v);
    DropIsLess(v);
    if k > 0 {
      LowerVariantsAreLess(w, k - 1);
      assert LowerVariants(v)[k] == LowerVariants(w)[k-1];
      AtMostTransitive(NewSemanticVersion(LowerVariants(v)[k]).value, w, v);
    }
  }
}

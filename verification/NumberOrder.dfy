/** What the comparison of semantic tags means in terms of the digits as written: longer numbers are
    greater, numbers of one length compare digit by digit, leading zeros do not count, and everything
    from 2^63-1 on is the same. */
module NumberOrder {
  import opened Wrappers
  import opened Ordering
  import opened SemanticTags
  import opened SemanticOrder
  import opened Aliases

  /** A nonempty string of digits. */
  predicate IsNumber(s: string) {
    s != "" && forall i :: 0 <= i < |s| ==> '0' <= s[i] <= '9'
  }

  /** The number without its leading zeros. */
  function Trim0(s: string): string {
    if |s| > 1 && s[0] == '0' then Trim0(s[1..]) else s
  }

  /** Fewer digits, or as many and smaller at the first difference. */
  predicate Smaller(a: string, b: string) {
    |a| < |b| || (|a| == |b| && Less(a, b))
  }

  /** 2^63 - 1 */
  const LARGEST := "9223372036854775807"

  // ---------- the value of a digit string ----------

  function Pow10(n: nat): (p: nat)
    ensures p >= 1
  {
    if n == 0 then 1 else 10 * Pow10(n - 1)
  }

  lemma {:induction false} ValueOfFront(c: char, s: string)
    requires IsNumber([c] + s)
    ensures All(DIGIT, s) && All(DIGIT, [c] + s)
    ensures DigitsValue([c] + s) == (c as int - '0' as int) * Pow10(|s|) + DigitsValue(s)
    decreases |s|
  {
    DigitsAll([c] + s);
    forall i | 0 <= i < |s| ensures '0' <= s[i] <= '9' {
      assert ([c] + s)[i+1] == s[i];
    }
    AllDigits(s);
    if s == "" {
      assert [c] + s == [c] && [c][..0] == "";
      assert ([c] + s)[0] == c;
      assert DigitsValue([c]) == DigitsValue([c][..0]) * 10 + (c as int - '0' as int);
    } else {
      var t, d := s[..|s|-1], s[|s|-1];
      var all := [c] + s;
      assert all[..|all|-1] == [c] + t && all[|all|-1] == d;
      forall i | 0 <= i < |[c] + t| ensures '0' <= ([c] + t)[i] <= '9' {
        assert all[i] == ([c] + t)[i];
      }
      ValueOfFront(c, t);
      assert |s| == |t| + 1 && Pow10(|s|) == 10 * Pow10(|t|);
      ValueStep(c as int - '0' as int, Pow10(|t|), DigitsValue(t), d as int - '0' as int);
    }
  }

  lemma ValueStep(c: int, p: int, t: int, d: int)
    ensures (c * p + t) * 10 + d == c * (10 * p) + (t * 10 + d)
  {
  }

  lemma DigitsAll(s: string)
    requires IsNumber(s)
    ensures All(DIGIT, s)
  {
  }

  lemma AllDigits(s: string)
    requires forall i :: 0 <= i < |s| ==> '0' <= s[i] <= '9'
    ensures All(DIGIT, s)
  {
  }

  lemma Tail(s: string)
    requires IsNumber(s) && |s| > 1
    ensures IsNumber(s[1..]) && s == [s[0]] + s[1..]
  {
  }

  /** n digits are a number below 10^n, and without a leading zero at least 10^(n-1). */
  lemma {:induction false} ValueBounds(s: string)
    requires IsNumber(s)
    ensures All(DIGIT, s) && DigitsValue(s) < Pow10(|s|)
    ensures s[0] != '0' ==> DigitsValue(s) >= Pow10(|s| - 1)
    decreases |s|
  {
    var c, t := s[0], s[1..];
    assert s == [c] + t;
    ValueOfFront(c, t);
    var x := c as int - '0' as int;
    assert Pow10(|s|) == 10 * Pow10(|t|);
    if t == "" {
      assert DigitsValue(t) == 0 && Pow10(|t|) == 1;
    } else {
      Tail(s);
      ValueBounds(t);
    }
    FrontBounds(x, Pow10(|t|), DigitsValue(t));
  }

  lemma FrontBounds(x: int, p: int, t: int)
    requires 0 <= x <= 9 && p >= 1 && 0 <= t < p
    ensures x * p + t < 10 * p
    ensures x >= 1 ==> x * p + t >= p
  {
    assert x * p <= 9 * p;
    if x >= 1 {
      assert x * p >= 1 * p;
    }
  }

  /** Numbers of one length compare digit by digit. */
  lemma {:induction false} SameLength(a: string, b: string)
    requires IsNumber(a) && IsNumber(b) && |a| == |b|
    ensures All(DIGIT, a) && All(DIGIT, b)
    ensures DigitsValue(a) < DigitsValue(b) <==> Less(a, b)
    decreases |a|
  {
    var s, t := a[1..], b[1..];
    assert a == [a[0]] + s && b == [b[0]] + t;
    ValueOfFront(a[0], s);
    ValueOfFront(b[0], t);
    var x, y := a[0] as int - '0' as int, b[0] as int - '0' as int;
    if s == "" {
      assert DigitsValue(s) == 0 && DigitsValue(t) == 0 && Pow10(0) == 1;
      assert !Less(s, t);
    } else {
      Tail(a);
      Tail(b);
      ValueBounds(s);
      ValueBounds(t);
      SameLength(s, t);
      FirstDigit(x, y, Pow10(|s|), DigitsValue(s), DigitsValue(t));
    }
  }

  lemma FirstDigit(x: int, y: int, p: int, s: int, t: int)
    requires p >= 1 && 0 <= s < p && 0 <= t < p
    ensures x < y ==> x * p + s < y * p + t
    ensures x > y ==> x * p + s > y * p + t
  {
    if x < y {
      assert (x + 1) * p <= y * p;
    } else if x > y {
      assert (y + 1) * p <= x * p;
    }
  }

  ghost predicate NoLeadingZero(s: string) {
    IsNumber(s) && (|s| > 1 ==> s[0] != '0')
  }

  lemma ValueOrder(a: string, b: string)
    requires NoLeadingZero(a) && NoLeadingZero(b)
    ensures All(DIGIT, a) && All(DIGIT, b)
    ensures DigitsValue(a) < DigitsValue(b) <==> Smaller(a, b)
  {
    ValueBounds(a);
    ValueBounds(b);
    if |a| == |b| {
      SameLength(a, b);
    } else if |a| < |b| {
      MorePowers(|a|, |b| - 1);
    } else {
      MorePowers(|b|, |a| - 1);
    }
  }

  lemma {:induction false} MorePowers(m: nat, n: nat)
    requires m <= n
    ensures Pow10(m) <= Pow10(n)
    decreases n - m
  {
    if m < n {
      MorePowers(m, n - 1);
    }
  }

  lemma {:induction false} TrimKeeps(s: string)
    requires IsNumber(s)
    ensures NoLeadingZero(Trim0(s)) && All(DIGIT, s) && All(DIGIT, Trim0(s)) && DigitsValue(Trim0(s)) == DigitsValue(s)
    decreases |s|
  {
    DigitsAll(s);
    if |s| > 1 && s[0] == '0' {
      Tail(s);
      TrimKeeps(s[1..]);
      ValueOfFront(s[0], s[1..]);
    }
  }

  // ---------- saturation ----------

  /** 18 digits, and the 19 of the largest int64. */
  lemma LargestValue()
    ensures NoLeadingZero(LARGEST) && All(DIGIT, LARGEST) && DigitsValue(LARGEST) == MAX_INT
  {
    assert All(DIGIT, "") && DigitsValue("") == 0;
    assert NoLeadingZero(LARGEST);
    hide DigitsValue, All, NoLeadingZero, IsNumber;
    Append3("", 0, '9', '2', '2');
    assert "" + ['9', '2', '2'] == "922";
    Append3("922", 922, '3', '3', '7');
    assert "922" + ['3', '3', '7'] == "922337";
    Append3("922337", 922337, '2', '0', '3');
    assert "922337" + ['2', '0', '3'] == "922337203";
    Append3("922337203", 922337203, '6', '8', '5');
    assert "922337203" + ['6', '8', '5'] == "922337203685";
    Append3("922337203685", 922337203685, '4', '7', '7');
    assert "922337203685" + ['4', '7', '7'] == "922337203685477";
    Append3("922337203685477", 922337203685477, '5', '8', '0');
    assert "922337203685477" + ['5', '8', '0'] == "922337203685477580";
    AppendDigit("922337203685477580", 922337203685477580, '7');
    assert "922337203685477580" + ['7'] == LARGEST;
  }

  lemma AppendDigit(s: string, value: nat, c: char)
    requires All(DIGIT, s) && DigitsValue(s) == value && '0' <= c <= '9'
    ensures All(DIGIT, s + [c]) && DigitsValue(s + [c]) == value * 10 + (c as int - '0' as int)
  {
    var t := s + [c];
    assert t[..|t|-1] == s && t[|t|-1] == c;
    forall i | 0 <= i < |t| ensures '0' <= t[i] <= '9' {
      if i < |s| { assert DIGIT(s[i]) && t[i] == s[i]; }
    }
    AllDigits(t);
  }

  lemma Append3(s: string, value: nat, c: char, d: char, e: char)
    requires All(DIGIT, s) && DigitsValue(s) == value
    requires '0' <= c <= '9' && '0' <= d <= '9' && '0' <= e <= '9'
    ensures All(DIGIT, s + [c, d, e])
    ensures DigitsValue(s + [c, d, e]) == value * 1000 + (c as int - '0' as int) * 100 + (d as int - '0' as int) * 10 + (e as int - '0' as int)
  {
    AppendDigit(s, value, c);
    AppendDigit(s + [c], DigitsValue(s + [c]), d);
    AppendDigit(s + [c] + [d], DigitsValue(s + [c] + [d]), e);
    assert s + [c] + [d] + [e] == s + [c, d, e];
  }

  // ---------- comparing components and tags ----------

  /** One number is less than another if its digits say so and it is below 2^63 - 1, from which on
      all numbers are equal. */
  lemma NumbersCompare(a: string, b: string)
    requires IsNumber(a) && IsNumber(b)
    ensures CompareNumeric(a, b) < 0 <==> Smaller(Trim0(a), Trim0(b)) && Smaller(Trim0(a), LARGEST)
    ensures CompareNumeric(a, b) > 0 <==> Smaller(Trim0(b), Trim0(a)) && Smaller(Trim0(b), LARGEST)
  {
    TrimKeeps(a);
    TrimKeeps(b);
    LargestValue();
    ValueOrder(Trim0(a), Trim0(b));
    ValueOrder(Trim0(b), Trim0(a));
    ValueOrder(Trim0(a), LARGEST);
    ValueOrder(Trim0(b), LARGEST);
    hide DigitsValue, Trim0, Smaller, Less;
  }

  /** Without leading zeros and with at most 18 digits: shorter is smaller, then the digits decide. */
  lemma ShortNumbersCompare(a: string, b: string)
    requires IsNumber(a) && IsNumber(b) && |a| <= 18 && |b| <= 18
    requires (|a| > 1 ==> a[0] != '0') && (|b| > 1 ==> b[0] != '0')
    ensures CompareNumeric(a, b) < 0 <==> |a| < |b| || (|a| == |b| && Less(a, b))
  {
    NumbersCompare(a, b);
    assert |LARGEST| == 19;
  }

  /** Zeros in front of a number change nothing. */
  lemma LeadingZeroCompares(a: string, b: string)
    requires IsNumber(a)
    ensures CompareNumeric("0" + a, b) == CompareNumeric(a, b) && CompareNumeric(b, "0" + a) == CompareNumeric(b, a)
  {
    var z := "0" + a;
    assert z[1..] == a && z[0] == '0';
    assert IsNumber(z) by {
      forall i | 0 <= i < |z| ensures '0' <= z[i] <= '9' {
        if i > 0 { assert z[i] == a[i-1]; }
      }
    }
    ValueOfFront('0', a);
    assert ['0'] + a == z;
    DigitsAll(a);
  }

  /** A component is below another: missing below any, and a number below a greater one. */
  predicate Below(a: string, b: string) {
    if a == "" || b == "" then a == "" && b != "" else Smaller(Trim0(a), Trim0(b)) && Smaller(Trim0(a), LARGEST)
  }

  predicate Level(a: string, b: string) {
    !Below(a, b) && !Below(b, a)
  }

  ghost predicate IsComponent(s: string) {
    s == "" || IsNumber(s)
  }

  ghost predicate HasComponents(v: SemTag) {
    IsComponent(v.major) && IsComponent(v.minor) && IsComponent(v.patch)
  }

  lemma ComponentsCompare(a: string, b: string)
    requires IsComponent(a) && IsComponent(b)
    ensures CompareNumeric(a, b) < 0 <==> Below(a, b)
    ensures CompareNumeric(a, b) > 0 <==> Below(b, a)
  {
    if a != "" && b != "" {
      NumbersCompare(a, b);
    }
    hide Smaller, Trim0, Atoi;
  }

  /** The first component that differs decides, and after the patch the build as a string. */
  lemma TagsCompare(v: SemTag, w: SemTag)
    requires HasComponents(v) && HasComponents(w)
    ensures Compare(v, w) < 0 <==>
      (|| Below(v.major, w.major)
       || (Level(v.major, w.major) && Below(v.minor, w.minor))
       || (Level(v.major, w.major) && Level(v.minor, w.minor) && Below(v.patch, w.patch))
       || (Level(v.major, w.major) && Level(v.minor, w.minor) && Level(v.patch, w.patch) && Less(v.build, w.build)))
  {
    ComponentsCompare(v.major, w.major);
    ComponentsCompare(v.minor, w.minor);
    ComponentsCompare(v.patch, w.patch);
    BuildByLess(v.build, w.build);
    hide CompareNumeric, CompareBuild, Below, Less;
  }

  /** What the parser gives has number components. */
  lemma ParsedComponents(v: SemTag)
    requires IsParsed(v)
    ensures HasComponents(v)
  {
    ParsedShape(v);
    assert IsPlain(v.(build := ""));
    hide IsParsed;
    DigitsComponent(v.major);
    DigitsComponent(v.minor);
    DigitsComponent(v.patch);
    hide All;
  }

  lemma DigitsComponent(s: string)
    requires All(DIGIT, s)
    ensures IsComponent(s)
  {
    forall i | 0 <= i < |s| ensures '0' <= s[i] <= '9' {
      assert DIGIT(s[i]);
    }
  }

  // ---------- consequences for aliases ----------

  /** The candidate is no prerelease, and its name is a version with this alias. */
  ghost predicate IsReleaseOf(c: AliasCandidate, alias: string) {
    !c.isPrerelease && exists v :: NewSemanticVersion(c.name) == Success(v) && alias in LowerVariants(v)
  }

  /** Whatever an alias points to is a candidate that is no prerelease, parses, and claims it. */
  lemma TargetsAreReleases(candidates: seq<AliasCandidate>, aliases: map<string, string>, alias: string)
    requires AreAliases(candidates, aliases) && alias in aliases
    ensures exists i :: 0 <= i < |candidates| && candidates[i].name == aliases[alias] && IsReleaseOf(candidates[i], alias)
  {
    hide NewSemanticVersion, LowerVariants, Compare;
    var i :| IsFirstHighest(candidates, Claimants(candidates, alias), i) && aliases[alias] == candidates[i].name;
    assert Claims(candidates, i, alias);
    var v := VersionOf(candidates[i]).value;
    assert NewSemanticVersion(candidates[i].name) == Success(v);
  }

  /** The aliases of a tag as text: one for each shorter form, down to the major alone. */
  lemma SeriesOf(v: SemTag)
    ensures var end := if v.suffix == "" then "" else "-" + v.suffix;
      var one, two := v.prefix + v.major + end, v.prefix + v.major + "." + v.minor + end;
      && (v.build != "" ==> LowerVariants(v) == [v.prefix + v.major + "." + v.minor + "." + v.patch + end, two, one])
      && (v.build == "" && v.patch != "" ==> LowerVariants(v) == [two, one])
      && (v.build == "" && v.patch == "" && v.minor != "" ==> LowerVariants(v) == [one])
      && (v.build == "" && v.patch == "" && v.minor == "" ==> LowerVariants(v) == [])
  {
    Join(v.major, v.minor, v.patch);
    var end := if v.suffix == "" then "" else "-" + v.suffix;
    assert Dash(v.suffix) == end;
    assert JoinDots([v.major, v.minor]) == v.major + "." + v.minor;
    assert JoinDots([v.major, v.minor, v.patch]) == v.major + "." + v.minor + "." + v.patch;
    assert v.prefix + (v.major + "." + v.minor) + end == v.prefix + v.major + "." + v.minor + end;
    assert v.prefix + (v.major + "." + v.minor + "." + v.patch) + end == v.prefix + v.major + "." + v.minor + "." + v.patch + end;
  }
}

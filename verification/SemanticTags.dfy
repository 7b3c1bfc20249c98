/** Semantic tags: the tag pattern as a parser, and the printer. */
module SemanticTags {
  import opened Wrappers

  datatype SemTag = SemTag(prefix: string, major: string, minor: string, patch: string, build: string, suffix: string)

  datatype ParseError = EmptyTag | InvalidFormat

  predicate IsDigit(c: char) { '0' <= c <= '9' }

  predicate IsSuffixStart(c: char) { 'a' <= c <= 'z' || 'A' <= c <= 'Z' || IsDigit(c) }

  predicate IsSuffixChar(c: char) { IsSuffixStart(c) || c == '.' || c == '-' }

  /** \s of the regular expression. */
  predicate IsPatternSpace(c: char) { c == '\t' || c == '\n' || c == '\U{000C}' || c == '\r' || c == ' ' }

  /** unicode.IsSpace, which strings.TrimSpace cuts off. */
  predicate IsSpace(c: char) {
    || '\t' <= c <= '\r' || c == ' ' || c == '\U{0085}' || c == '\U{00A0}' || c == '\U{1680}'
    || '\U{2000}' <= c <= '\U{200A}' || c == '\U{2028}' || c == '\U{2029}' || c == '\U{202F}' || c == '\U{205F}' || c == '\U{3000}'
  }

  predicate All(p: char -> bool, s: string) {
    forall i :: 0 <= i < |s| ==> p(s[i])
  }

  /** Length of the longest start of s whose characters satisfy p. */
  function Run(p: char -> bool, s: string): (n: nat)
    ensures n <= |s| && All(p, s[..n]) && (n < |s| ==> !p(s[n]))
  {
    if s == "" || !p(s[0]) then 0
    else
      var n := Run(p, s[1..]);
      assert s[..n+1] == [s[0]] + s[1..][..n];
      n + 1
  }

  lemma {:induction false} RunExact(p: char -> bool, a: string, b: string)
    requires All(p, a) && (b != "" ==> !p(b[0]))
    ensures Run(p, a + b) == |a|
  {
    if a == "" {
      assert a + b == b;
    } else {
      assert (a + b)[1..] == a[1..] + b;
      RunExact(p, a[1..], b);
    }
  }

  function TrimLeft(s: string): string {
    if s != "" && IsSpace(s[0]) then TrimLeft(s[1..]) else s
  }

  function TrimRight(s: string): string {
    if s != "" && IsSpace(s[|s|-1]) then TrimRight(s[..|s|-1]) else s
  }

  function TrimSpace(s: string): string {
    TrimRight(TrimLeft(s))
  }

  predicate IsTrimmed(s: string) {
    s == "" || (!IsSpace(s[0]) && !IsSpace(s[|s|-1]))
  }

  lemma {:induction false} TrimLeftTrims(s: string)
    ensures TrimLeft(s) == "" || !IsSpace(TrimLeft(s)[0])
  {
    if s != "" && IsSpace(s[0]) { TrimLeftTrims(s[1..]); }
  }

  lemma {:induction false} TrimRightTrims(s: string)
    ensures TrimRight(s) == "" || !IsSpace(TrimRight(s)[|TrimRight(s)|-1])
    ensures TrimRight(s) <= s
  {
    if s != "" && IsSpace(s[|s|-1]) { TrimRightTrims(s[..|s|-1]); }
  }

  lemma TrimIsTrimmed(s: string)
    ensures IsTrimmed(TrimSpace(s))
    ensures IsTrimmed(s) ==> TrimSpace(s) == s
  {
    TrimLeftTrims(s);
    TrimRightTrims(TrimLeft(s));
  }

  // ---------- the pattern ----------

  datatype Parts = Parts(prefix: string, major: string, minor: string, patch: string, build: string, suffix: string, metadata: string)

  const DIGIT: char -> bool := c => IsDigit(c)
  const NON_DIGIT: char -> bool := c => !IsDigit(c)
  const SUFFIX_CHAR: char -> bool := c => IsSuffixChar(c)
  const NON_SPACE: char -> bool := c => !IsPatternSpace(c)

  function Dot(s: string): string { if s == "" then "" else "." + s }
  function Dash(s: string): string { if s == "" then "" else "-" + s }
  function Plus(s: string): string { if s == "" then "" else "+" + s }

  /** The pattern as a grammar: what each group may hold. */
  ghost predicate Fits(p: Parts) {
    && All(NON_DIGIT, p.prefix)
    && p.major != "" && All(DIGIT, p.major)
    && All(DIGIT, p.minor) && All(DIGIT, p.patch) && All(DIGIT, p.build)
    && (p.minor == "" ==> p.patch == "") && (p.patch == "" ==> p.build == "")
    && (p.suffix != "" ==> IsSuffixStart(p.suffix[0])) && All(SUFFIX_CHAR, p.suffix)
    && All(NON_SPACE, p.metadata)
  }

  function Tail(p: Parts): string {
    Dash(p.suffix) + Plus(p.metadata)
  }

  function Assemble(p: Parts): string {
    p.prefix + (p.major + (Dot(p.minor) + (Dot(p.patch) + (Dot(p.build) + Tail(p)))))
  }

  /** One optional group of a dot and digits: the digits and the rest. */
  function TakeDot(s: string): (string, string) {
    if |s| > 1 && s[0] == '.' && IsDigit(s[1]) then
      var n := Run(DIGIT, s[1..]);
      (s[1..][..n], s[1..][n..])
    else ("", s)
  }

  function TakeSuffix(s: string): (string, string) {
    if |s| > 1 && s[0] == '-' && IsSuffixStart(s[1]) then
      var n := Run(SUFFIX_CHAR, s[1..]);
      (s[1..][..n], s[1..][n..])
    else ("", s)
  }

  function TakeMetadata(s: string): (string, string) {
    if |s| > 1 && s[0] == '+' then
      var n := Run(NON_SPACE, s[1..]);
      if n > 0 then (s[1..][..n], s[1..][n..]) else ("", s)
    else ("", s)
  }

  /** FindStringSubmatch with the tag pattern. */
  function Match(t: string): Option<Parts> {
    var n := Run(NON_DIGIT, t);
    var afterPrefix := t[n..];
    if afterPrefix == "" then None else
      var m := Run(DIGIT, afterPrefix);
      MatchRest(t[..n], afterPrefix[..m], afterPrefix[m..])
  }

  /** The optional groups after the major version. */
  function MatchRest(prefix: string, major: string, rest: string): Option<Parts> {
    var (minor, a) := TakeDot(rest);
    var (patch, b) := TakeDot(a);
    var (build, c) := TakeDot(b);
    var (suffix, d) := TakeSuffix(c);
    var (metadata, e) := TakeMetadata(d);
    if e != "" then None else Some(Parts(prefix, major, minor, patch, build, suffix, metadata))
  }

  lemma MatchHead(prefix: string, major: string, rest: string)
    requires All(NON_DIGIT, prefix) && major != "" && All(DIGIT, major) && (rest != "" ==> !IsDigit(rest[0]))
    ensures Match(prefix + (major + rest)) == MatchRest(prefix, major, rest)
  {
    hide MatchRest;
    var t := prefix + (major + rest);
    assert DIGIT(major[0]);
    RunExact(NON_DIGIT, prefix, major + rest);
    assert t[|prefix|..] == major + rest;
    RunExact(DIGIT, major, rest);
    assert (major + rest)[|major|..] == rest && (major + rest)[..|major|] == major;
  }

  lemma TakeDotSound(s: string)
    ensures var (x, rest) := TakeDot(s); s == Dot(x) + rest && All(DIGIT, x) && (x == "" ==> TakeDot(rest).0 == "")
  {
    if |s| > 1 && s[0] == '.' && IsDigit(s[1]) {
      var n := Run(DIGIT, s[1..]);
      assert s == "." + (s[1..][..n] + s[1..][n..]);
    }
  }

  lemma TakeSuffixSound(s: string)
    ensures var (x, rest) := TakeSuffix(s); s == Dash(x) + rest && All(SUFFIX_CHAR, x) && (x != "" ==> IsSuffixStart(x[0]))
  {
    if |s| > 1 && s[0] == '-' && IsSuffixStart(s[1]) {
      var n := Run(SUFFIX_CHAR, s[1..]);
      assert s == "-" + (s[1..][..n] + s[1..][n..]);
    }
  }

  lemma TakeMetadataSound(s: string)
    ensures var (x, rest) := TakeMetadata(s); s == Plus(x) + rest && All(NON_SPACE, x)
  {
    if |s| > 1 && s[0] == '+' {
      var n := Run(NON_SPACE, s[1..]);
      assert s == "+" + (s[1..][..n] + s[1..][n..]);
    }
  }

  /** What the parser accepts is in the grammar. */
  lemma MatchSound(t: string)
    requires Match(t).Some?
    ensures Fits(Match(t).value) && Assemble(Match(t).value) == t
  {
    hide Run, TakeDot, TakeSuffix, TakeMetadata, Dot, Dash, Plus;
    var n := Run(NON_DIGIT, t);
    var s := t[n..];
    var m := Run(DIGIT, s);
    var (minor, a) := TakeDot(s[m..]);
    var (patch, b) := TakeDot(a);
    var (build, c) := TakeDot(b);
    var (suffix, d) := TakeSuffix(c);
    var (metadata, e) := TakeMetadata(d);
    TakeDotSound(s[m..]);
    TakeDotSound(a);
    TakeDotSound(b);
    TakeSuffixSound(c);
    TakeMetadataSound(d);
    assert t == t[..n] + (s[..m] + s[m..]);
    assert d == Plus(metadata) by { assert Plus(metadata) + "" == Plus(metadata); }
  }

  /** s cannot be read as one more group of a dot and digits, nor as more digits. */
  ghost predicate EndsNumber(s: string) {
    s == "" || s[0] == '-' || s[0] == '+'
  }

  lemma TakeDotExact(x: string, rest: string)
    requires All(DIGIT, x) && (rest != "" ==> !IsDigit(rest[0])) && (x == "" ==> EndsNumber(rest))
    ensures TakeDot(Dot(x) + rest) == (x, rest)
  {
    if x != "" {
      var s := Dot(x) + rest;
      assert s == "." + (x + rest);
      assert s[1..] == x + rest;
      RunExact(DIGIT, x, rest);
      assert (x + rest)[..|x|] == x && (x + rest)[|x|..] == rest;
    } else {
      assert Dot(x) + rest == rest;
    }
  }

  lemma TakeSuffixExact(x: string, rest: string)
    requires All(SUFFIX_CHAR, x) && (x != "" ==> IsSuffixStart(x[0])) && (rest == "" || rest[0] == '+')
    ensures TakeSuffix(Dash(x) + rest) == (x, rest)
  {
    if x != "" {
      var s := Dash(x) + rest;
      assert s == "-" + (x + rest);
      assert s[1..] == x + rest;
      RunExact(SUFFIX_CHAR, x, rest);
      assert (x + rest)[..|x|] == x && (x + rest)[|x|..] == rest;
    } else {
      assert Dash(x) + rest == rest;
    }
  }

  lemma TakeMetadataExact(x: string)
    requires All(NON_SPACE, x)
    ensures TakeMetadata(Plus(x)) == (x, "")
  {
    if x != "" {
      assert Plus(x)[1..] == x;
      assert x + "" == x;
      RunExact(NON_SPACE, x, "");
    }
  }

  lemma Starts(p: Parts)
    requires Fits(p)
    ensures EndsNumber(Tail(p))
    ensures var c := Dot(p.build) + Tail(p); (c != "" ==> !IsDigit(c[0])) && (p.build == "" ==> c == Tail(p))
    ensures var b := Dot(p.patch) + (Dot(p.build) + Tail(p)); (b != "" ==> !IsDigit(b[0])) && (p.patch == "" ==> b == Tail(p))
    ensures var a := Dot(p.minor) + (Dot(p.patch) + (Dot(p.build) + Tail(p))); (a != "" ==> !IsDigit(a[0]))
  {
  }

  /** The parser accepts everything in the grammar, and reads back the parts it was built from. */
  lemma MatchComplete(p: Parts)
    requires Fits(p)
    ensures Match(Assemble(p)) == Some(p)
  {
    hide Run, TakeDot, TakeSuffix, TakeMetadata, Tail, Dot;
    Starts(p);
    var c := Dot(p.build) + Tail(p);
    var b := Dot(p.patch) + c;
    var a := Dot(p.minor) + b;
    MatchHead(p.prefix, p.major, a);
    TakeDotExact(p.minor, b);
    TakeDotExact(p.patch, c);
    TakeDotExact(p.build, Tail(p));
    TailIs(p);
    TakeSuffixExact(p.suffix, Plus(p.metadata));
    TakeMetadataExact(p.metadata);
  }

  lemma TailIs(p: Parts)
    ensures Tail(p) == Dash(p.suffix) + Plus(p.metadata)
  {
  }

  /** The parser decides the grammar, and the grammar is unambiguous. */
  lemma MatchIsGrammar(t: string, p: Parts)
    ensures Match(t) == Some(p) <==> Fits(p) && Assemble(p) == t
  {
    hide Match, Fits, Assemble;
    if Match(t) == Some(p) { MatchSound(t); }
    if Fits(p) && Assemble(p) == t { MatchComplete(p); }
  }

  // ---------- parse and print ----------

  /** Metadata after a plus wins over a fourth number. */
  function NewSemanticVersion(tag: string): Result<SemTag, ParseError> {
    var t := TrimSpace(tag);
    if t == "" then Failure(EmptyTag) else
      match Match(t)
      case None => Failure(InvalidFormat)
      case Some(p) => Success(SemTag(p.prefix, p.major, p.minor, p.patch, if p.metadata != "" then p.metadata else p.build, p.suffix))
  }

  function Print(v: SemTag): string {
    v.prefix + v.major + Dot(v.minor) + Dot(v.patch) + Dot(v.build) + Dash(v.suffix)
  }

  /** A plus stands after the prefix. */
  predicate HasPlus(tag: string) {
    var t := TrimSpace(tag);
    '+' in t[Run(NON_DIGIT, t)..]
  }

  lemma PlusIsMetadata(t: string)
    requires Match(t).Some?
    ensures '+' in t[Run(NON_DIGIT, t)..] <==> Match(t).value.metadata != ""
  {
    hide Match, Fits;
    MatchSound(t);
    var p := Match(t).value;
    PlusInRest(p);
    PrefixRun(t, p);
    assert t[|p.prefix|..] == Rest(p);
  }

  function Rest(p: Parts): string {
    p.major + (Dot(p.minor) + (Dot(p.patch) + (Dot(p.build) + Tail(p))))
  }

  lemma PrefixRun(t: string, p: Parts)
    requires Fits(p) && Assemble(p) == t
    ensures Run(NON_DIGIT, t) == |p.prefix|
  {
    RunExact(NON_DIGIT, p.prefix, Rest(p));
    assert DIGIT(p.major[0]);
  }

  lemma PlusInRest(p: Parts)
    requires Fits(p)
    ensures '+' in Rest(p) <==> p.metadata != ""
  {
    Excludes(DIGIT, p.major, '+');
    Excludes(DIGIT, p.minor, '+');
    Excludes(DIGIT, p.patch, '+');
    Excludes(DIGIT, p.build, '+');
    Excludes(SUFFIX_CHAR, p.suffix, '+');
    assert '+' !in Dot(p.minor) && '+' !in Dot(p.patch) && '+' !in Dot(p.build) && '+' !in Dash(p.suffix);
    assert '+' in Tail(p) <==> p.metadata != "" by {
      if p.metadata != "" { assert Plus(p.metadata)[0] == '+'; }
    }
  }

  lemma Excludes(p: char -> bool, s: string, c: char)
    requires All(p, s) && !p(c)
    ensures c !in s
  {
  }

  lemma PrintIsAssemble(p: Parts)
    requires p.metadata == ""
    ensures Print(SemTag(p.prefix, p.major, p.minor, p.patch, p.build, p.suffix)) == Assemble(p)
  {
    hide Dot, Dash;
    assert Tail(p) == Dash(p.suffix);
    var a, b, c, d, e, f := p.prefix, p.major, Dot(p.minor), Dot(p.patch), Dot(p.build), Dash(p.suffix);
    assert a + b + c + d + e + f == a + (b + (c + (d + (e + f))));
  }

  lemma PrintDiffers(p: Parts)
    requires p.metadata != ""
    ensures Print(SemTag(p.prefix, p.major, p.minor, p.patch, p.metadata, p.suffix)) != Assemble(p)
  {
    var base := p.prefix + p.major + Dot(p.minor) + Dot(p.patch);
    var printed := Print(SemTag(p.prefix, p.major, p.minor, p.patch, p.metadata, p.suffix));
    assert printed == base + ("." + p.metadata + Dash(p.suffix));
    assert Assemble(p) == base + (Dot(p.build) + Tail(p)) by {
      assert Assemble(p) == p.prefix + (p.major + (Dot(p.minor) + (Dot(p.patch) + (Dot(p.build) + Tail(p)))));
    }
    if p.build == "" {
      assert Dot(p.build) + Tail(p) == Tail(p);
      assert printed[|base|] == '.';
      assert Assemble(p)[|base|] == Tail(p)[0];
    } else {
      assert |Assemble(p)| > |printed|;
    }
  }

  /** Printing a parsed tag gives the trimmed tag back, unless a plus follows its prefix. */
  lemma PrintAfterParse(tag: string)
    requires NewSemanticVersion(tag).Success?
    ensures Print(NewSemanticVersion(tag).value) == TrimSpace(tag) <==> !HasPlus(tag)
    ensures IsTrimmed(tag) && '+' !in tag ==> Print(NewSemanticVersion(tag).value) == tag
  {
    hide Match, TrimSpace, Print, Assemble;
    var t := TrimSpace(tag);
    TrimIsTrimmed(tag);
    MatchSound(t);
    PlusIsMetadata(t);
    var p := Match(t).value;
    if p.metadata == "" { PrintIsAssemble(p); } else { PrintDiffers(p); }
  }

  /** A record as the parser produces it from a tag without metadata. */
  ghost predicate IsPlain(v: SemTag) {
    Fits(PartsOf(v))
  }

  function PartsOf(v: SemTag): Parts {
    Parts(v.prefix, v.major, v.minor, v.patch, v.build, v.suffix, "")
  }

  lemma PlainEnds(v: SemTag)
    requires IsPlain(v)
    ensures Print(v) != "" && !IsSpace(Print(v)[|Print(v)|-1])
    ensures Print(v)[0] == if v.prefix != "" then v.prefix[0] else v.major[0]
  {
    var p := Print(v);
    var last := if v.suffix != "" then v.suffix else if v.build != "" then v.build
      else if v.patch != "" then v.patch else if v.minor != "" then v.minor else v.major;
    assert p[|p|-1] == last[|last|-1];
    var c := last[|last|-1];
    assert DIGIT(c) || SUFFIX_CHAR(c);
    assert IsSuffixChar(c);
  }

  /** Parsing a printed record gives the record back exactly when its prefix does not begin with a space. */
  lemma ParseAfterPrint(v: SemTag)
    requires IsPlain(v)
    ensures NewSemanticVersion(Print(v)) == Success(v) <==> (v.prefix == "" || !IsSpace(v.prefix[0]))
  {
    hide Match, TrimSpace, Print, Assemble, Fits, IsSpace;
    PlainEnds(v);
    PrintIsAssemble(PartsOf(v));
    TrimIsTrimmed(Print(v));
    if v.prefix == "" || !IsSpace(v.prefix[0]) {
      MajorStart(v);
      MatchComplete(PartsOf(v));
    } else if NewSemanticVersion(Print(v)) == Success(v) {
      var t := TrimSpace(Print(v));
      MatchSound(t);
      TrimmedPrefix(v, t, Match(t).value);
    }
  }

  lemma MajorStart(v: SemTag)
    requires IsPlain(v)
    ensures v.major != "" && !IsSpace(v.major[0])
  {
    assert DIGIT(v.major[0]);
  }

  lemma TrimmedPrefix(v: SemTag, t: string, p: Parts)
    requires v.prefix != "" && IsSpace(v.prefix[0])
    requires IsTrimmed(t) && Assemble(p) == t
    ensures p.prefix != v.prefix
  {
    if p.prefix != "" {
      assert t[0] == p.prefix[0];
    }
  }
}

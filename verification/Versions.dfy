/** Version precedence, as section 11 of Semantic Versioning 2.0.0 orders versions. Build metadata
    does not take part and is not kept. */
module Versions {
  import opened Ordering

  const TWO_63: int := 0x8000_0000_0000_0000
  const TWO_64: int := 0x1_0000_0000_0000_0000

  type UInt64 = x: int | 0 <= x < TWO_64

  /** A conversion or an arithmetic result in Go's int64. */
  function Wrap64(x: int): (r: int)
    ensures -TWO_63 <= r < TWO_63
    ensures -TWO_63 <= x < TWO_63 ==> r == x
  {
    (x + TWO_63) % TWO_64 - TWO_63
  }

  lemma WrapInjective(a: UInt64, b: UInt64)
    ensures Wrap64(a) == Wrap64(b) <==> a == b
  {
    assert Wrap64(a) == if a < TWO_63 then a else a - TWO_64;
    assert Wrap64(b) == if b < TWO_63 then b else b - TWO_64;
  }

  datatype Ident = Numeric(value: nat) | Alphanumeric(text: string)

  datatype Version = Version(major: UInt64, minor: UInt64, patch: UInt64, pre: seq<Ident>)

  predicate IdentLess(a: Ident, b: Ident) {
    match (a, b)
    case (Numeric(m), Numeric(n)) => m < n
    case (Numeric(_), Alphanumeric(_)) => true
    case (Alphanumeric(_), Numeric(_)) => false
    case (Alphanumeric(s), Alphanumeric(t)) => Less(s, t)
  }

  predicate IdentsLess(a: seq<Ident>, b: seq<Ident>)
    decreases |a|
  {
    |b| > 0 && (|a| == 0 || IdentLess(a[0], b[0]) || (a[0] == b[0] && IdentsLess(a[1..], b[1..])))
  }

  /** A pre-release comes before its release. */
  predicate PreLess(a: seq<Ident>, b: seq<Ident>) {
    a != [] && (b == [] || IdentsLess(a, b))
  }

  predicate VersionLess(a: Version, b: Version) {
    || a.major < b.major
    || (a.major == b.major && a.minor < b.minor)
    || (a.major == b.major && a.minor == b.minor && a.patch < b.patch)
    || (a.major == b.major && a.minor == b.minor && a.patch == b.patch && PreLess(a.pre, b.pre))
  }

  function Compare(a: Version, b: Version): int {
    if VersionLess(a, b) then -1 else if VersionLess(b, a) then 1 else 0
  }

  lemma {:induction false} IdentsTrichotomy(a: seq<Ident>, b: seq<Ident>)
    ensures IdentsLess(a, b) || a == b || IdentsLess(b, a)
    ensures !(IdentsLess(a, b) && IdentsLess(b, a)) && !(IdentsLess(a, b) && a == b)
    decreases |a|
  {
    if |a| > 0 && |b| > 0 {
      if a[0].Alphanumeric? && b[0].Alphanumeric? { LessTrichotomy(a[0].text, b[0].text); }
      if a[0] == b[0] {
        IdentsTrichotomy(a[1..], b[1..]);
        assert a == [a[0]] + a[1..] && b == [b[0]] + b[1..];
      }
    }
  }

  lemma {:induction false} IdentsTransitive(a: seq<Ident>, b: seq<Ident>, c: seq<Ident>)
    requires IdentsLess(a, b) && IdentsLess(b, c)
    ensures IdentsLess(a, c)
    decreases |a|
  {
    if |a| > 0 {
      if a[0].Alphanumeric? && b[0].Alphanumeric? && c[0].Alphanumeric? && IdentLess(a[0], b[0]) && IdentLess(b[0], c[0]) {
        LessTransitive(a[0].text, b[0].text, c[0].text);
      }
      if a[0].Alphanumeric? { LessTrichotomy(a[0].text, a[0].text); }
      if a[0] == b[0] && b[0] == c[0] {
        IdentsTransitive(a[1..], b[1..], c[1..]);
      }
    }
  }

  /** Precedence is a strict total order on versions without metadata. */
  lemma PrecedenceIsTotal(a: Version, b: Version)
    ensures VersionLess(a, b) || a == b || VersionLess(b, a)
    ensures !(VersionLess(a, b) && VersionLess(b, a)) && !(VersionLess(a, b) && a == b)
    ensures Compare(a, b) == 0 <==> a == b
    ensures Compare(a, b) > 0 <==> VersionLess(b, a)
  {
    IdentsTrichotomy(a.pre, b.pre);
  }

  lemma PrecedenceIsTransitive(a: Version, b: Version, c: Version)
    requires VersionLess(a, b) && VersionLess(b, c)
    ensures VersionLess(a, c)
  {
    if IdentsLess(a.pre, b.pre) && IdentsLess(b.pre, c.pre) {
      IdentsTransitive(a.pre, b.pre, c.pre);
    }
  }
}

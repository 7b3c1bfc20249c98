/** Go's string order, and the sorting routines of the Go library as functions.
    A sort is pinned down by its contract: any two sorted permutations of the same
    elements are equal (SortedUnique), so which algorithm the library runs does not matter. */
module Ordering {

  ghost predicate TotalPreorder<T(!new)>(leq: (T, T) -> bool) {
    && (forall a, b :: leq(a, b) || leq(b, a))
    && (forall a, b, c :: leq(a, b) && leq(b, c) ==> leq(a, c))
  }

  /** No two different elements of s tie. */
  ghost predicate AntisymmetricOn<T(!new)>(s: seq<T>, leq: (T, T) -> bool) {
    forall a, b :: a in s && b in s && leq(a, b) && leq(b, a) ==> a == b
  }

  ghost predicate SortedBy<T(!new)>(s: seq<T>, leq: (T, T) -> bool) {
    forall i, j :: 0 <= i < j < |s| ==> leq(s[i], s[j])
  }

  ghost predicate NoDup<T(!new)>(s: seq<T>) {
    forall i, j :: 0 <= i < j < |s| ==> s[i] != s[j]
  }

  function Elems<T(!new)>(s: seq<T>): (r: set<T>)
    ensures forall x :: x in r <==> x in s
  {
    set x | x in s
  }

  lemma MultisetMembers<T(!new)>(s: seq<T>, t: seq<T>)
    requires multiset(s) == multiset(t)
    ensures |s| == |t|
    ensures forall x :: x in s <==> x in t
  {
    assert |multiset(s)| == |s| && |multiset(t)| == |t|;
    forall x ensures x in s <==> x in t {
      assert x in s <==> x in multiset(s);
      assert x in t <==> x in multiset(t);
    }
  }

  /** A head that is at most x stays at most what x is inserted into. */
  lemma InsertBehind<T(!new)>(x: T, s: seq<T>, tail: seq<T>, leq: (T, T) -> bool)
    requires s != [] && SortedBy(s, leq) && SortedBy(tail, leq) && leq(s[0], x)
    requires multiset(tail) == multiset(s[1..]) + multiset{x}
    ensures SortedBy([s[0]] + tail, leq)
    ensures multiset([s[0]] + tail) == multiset(s) + multiset{x}
  {
    assert s == [s[0]] + s[1..];
    forall y | y in tail ensures leq(s[0], y) {
      assert y in multiset(tail);
      assert y == x || y in s[1..];
    }
  }

  function Insert<T(!new)>(x: T, s: seq<T>, leq: (T, T) -> bool): (r: seq<T>)
    requires TotalPreorder(leq)
    requires SortedBy(s, leq)
    ensures SortedBy(r, leq)
    ensures multiset(r) == multiset(s) + multiset{x}
  {
    if s == [] then [x]
    else if leq(x, s[0]) then
      assert [x] + s == [x] + s;
      [x] + s
    else
      var tail := Insert(x, s[1..], leq);
      InsertBehind(x, s, tail, leq);
      [s[0]] + tail
  }

  /** The stable library sort: sorted, and a permutation of its input. */
  function SortBy<T(!new)>(s: seq<T>, leq: (T, T) -> bool): (r: seq<T>)
    requires TotalPreorder(leq)
    ensures SortedBy(r, leq)
    ensures multiset(r) == multiset(s)
    ensures |r| == |s|
    ensures forall x :: x in r <==> x in s
  {
    if s == [] then [] else
      assert s == [s[0]] + s[1..];
      var r := Insert(s[0], SortBy(s[1..], leq), leq);
      MultisetMembers(s, r);
      r
  }

  lemma {:induction false} SortedUnique<T(!new)>(a: seq<T>, b: seq<T>, leq: (T, T) -> bool)
    requires SortedBy(a, leq) && SortedBy(b, leq)
    requires multiset(a) == multiset(b)
    requires AntisymmetricOn(a, leq)
    requires TotalPreorder(leq)
    ensures a == b
  {
    MultisetMembers(a, b);
    if a != [] {
      FirstIsLeast(a, b[0], leq);
      FirstIsLeast(b, a[0], leq);
      SameTails(a, b);
      TailSorted(a, leq);
      TailSorted(b, leq);
      hide TotalPreorder, SortedBy, AntisymmetricOn;
      SortedUnique(a[1..], b[1..], leq);
    }
  }

  lemma FirstIsLeast<T(!new)>(s: seq<T>, x: T, leq: (T, T) -> bool)
    requires SortedBy(s, leq) && TotalPreorder(leq) && x in s
    ensures leq(s[0], x)
  {
    var i :| 0 <= i < |s| && s[i] == x;
    assert leq(x, x);
  }

  lemma TailSorted<T(!new)>(s: seq<T>, leq: (T, T) -> bool)
    requires SortedBy(s, leq) && s != []
    ensures SortedBy(s[1..], leq)
    ensures AntisymmetricOn(s, leq) ==> AntisymmetricOn(s[1..], leq)
  {
  }

  lemma SameTails<T(!new)>(a: seq<T>, b: seq<T>)
    requires a != [] && b != [] && a[0] == b[0] && multiset(a) == multiset(b)
    ensures multiset(a[1..]) == multiset(b[1..])
    ensures a[1..] == b[1..] ==> a == b
  {
    assert a == [a[0]] + a[1..] && b == [b[0]] + b[1..];
    assert multiset(a[1..]) == multiset(a) - multiset{a[0]};
    assert multiset(b[1..]) == multiset(b) - multiset{b[0]};
  }

  // ---------- strings ----------

  /** Go's `<` on strings: byte order, which for UTF-8 is code point order. */
  predicate Less(a: string, b: string)
    decreases |a|
  {
    |b| > 0 && (|a| == 0 || a[0] < b[0] || (a[0] == b[0] && Less(a[1..], b[1..])))
  }

  predicate LessEq(a: string, b: string) {
    a == b || Less(a, b)
  }

  /** a and b agree before k, and there a ends or has the smaller character. */
  ghost predicate DiffersAt(a: string, b: string, k: nat) {
    k <= |a| && k < |b| && a[..k] == b[..k] && (k == |a| || a[k] < b[k])
  }

  /** The order of Go's strings: the first difference decides, and a prefix comes first. */
  lemma {:induction false} LessIff(a: string, b: string)
    ensures Less(a, b) <==> exists k: nat :: DiffersAt(a, b, k)
    decreases |a|
  {
    forall k: nat | DiffersAt(a, b, k) ensures Less(a, b) {
      if k > 0 {
        DiffersFurther(a, b, k);
        LessIff(a[1..], b[1..]);
      }
    }
    if Less(a, b) {
      if a == [] || a[0] < b[0] {
        assert DiffersAt(a, b, 0);
      } else {
        LessIff(a[1..], b[1..]);
        var k: nat :| DiffersAt(a[1..], b[1..], k);
        assert a[..k+1] == [a[0]] + a[1..][..k] && b[..k+1] == [b[0]] + b[1..][..k];
        assert DiffersAt(a, b, k + 1);
      }
    }
  }

  lemma DiffersFurther(a: string, b: string, k: nat)
    requires DiffersAt(a, b, k) && k > 0
    ensures a[0] == b[0] && DiffersAt(a[1..], b[1..], k - 1)
  {
    assert a[..k][0] == b[..k][0];
    assert a[1..][..k-1] == a[..k][1..] && b[1..][..k-1] == b[..k][1..];
  }

  lemma {:induction false} LessTransitive(a: string, b: string, c: string)
    requires Less(a, b) && Less(b, c)
    ensures Less(a, c)
    decreases |a|
  {
    if |a| > 0 && a[0] == b[0] && b[0] == c[0] {
      LessTransitive(a[1..], b[1..], c[1..]);
    }
  }

  lemma {:induction false} LessTrichotomy(a: string, b: string)
    ensures Less(a, b) || a == b || Less(b, a)
    ensures !(Less(a, b) && Less(b, a))
    ensures !(Less(a, b) && a == b)
    decreases |a|
  {
    if |a| > 0 && |b| > 0 && a[0] == b[0] {
      LessTrichotomy(a[1..], b[1..]);
      assert a == [a[0]] + a[1..] && b == [b[0]] + b[1..];
    }
  }

  lemma StringOrder()
    ensures TotalPreorder(LessEq)
    ensures forall a, b :: Less(a, b) ==> !Less(b, a) && a != b
    ensures forall a, b :: Less(a, b) || a == b || Less(b, a)
    ensures forall a, b, c :: Less(a, b) && Less(b, c) ==> Less(a, c)
  {
    forall a, b ensures (Less(a, b) ==> !Less(b, a) && a != b) && (Less(a, b) || a == b || Less(b, a)) {
      LessTrichotomy(a, b);
    }
    forall a, b, c | Less(a, b) && Less(b, c) ensures Less(a, c) {
      LessTransitive(a, b, c);
    }
  }

  /** slices.Sort and sort.Strings. */
  function SortStrings(s: seq<string>): (r: seq<string>)
    ensures SortedBy(r, LessEq)
    ensures multiset(r) == multiset(s)
    ensures |r| == |s|
    ensures forall x :: x in r <==> x in s
  {
    StringOrder();
    SortBy(s, LessEq)
  }

  /** Two sorted lists without repetitions that hold the same strings are the same list. */
  lemma SortedSetUnique(a: seq<string>, b: seq<string>)
    requires SortedBy(a, LessEq) && SortedBy(b, LessEq)
    requires NoDup(a) && NoDup(b)
    requires Elems(a) == Elems(b)
    ensures a == b
  {
    StringOrder();
    NoDupMultiset(a);
    NoDupMultiset(b);
    assert multiset(a) == multiset(Elems(a)) == multiset(b);
    assert AntisymmetricOn(a, LessEq);
    SortedUnique(a, b, LessEq);
  }

  lemma {:induction false} NoDupMultiset<T(!new)>(s: seq<T>)
    requires NoDup(s)
    ensures multiset(s) == multiset(Elems(s))
    ensures |Elems(s)| == |s|
  {
    if s != [] {
      NoDupMultiset(s[1..]);
      assert s == [s[0]] + s[1..];
      assert s[0] !in s[1..];
      assert Elems(s) == {s[0]} + Elems(s[1..]);
    }
  }

  /** A list whose multiset is a set has no repetitions. */
  lemma {:induction false} MultisetNoDup<T(!new)>(s: seq<T>, t: set<T>)
    requires multiset(s) == multiset(t)
    ensures NoDup(s)
    ensures Elems(s) == t
  {
    forall i, j | 0 <= i < j < |s| ensures s[i] != s[j] {
      assert s == s[..j] + [s[j]] + s[j+1..];
      assert multiset(s)[s[j]] <= 1;
      assert s[j] !in multiset(s[..j]);
      assert s[..j][i] == s[i];
    }
    forall x ensures x in s <==> x in t {
      assert x in s <==> x in multiset(s);
    }
  }

  lemma MinExists(s: set<string>)
    requires s != {}
    ensures exists m :: m in s && forall y :: y in s ==> LessEq(m, y)
    decreases |s|
  {
    StringOrder();
    var x :| x in s;
    if s == {x} {
      assert forall y :: y in s ==> LessEq(x, y);
    } else {
      var rest := s - {x};
      assert rest != {} by { assert s == rest + {x}; }
      MinExists(rest);
      var m :| m in rest && forall y :: y in rest ==> LessEq(m, y);
      var k := if Less(x, m) then x else m;
      assert k in s && forall y :: y in s ==> LessEq(k, y);
    }
  }

  /** The alphabetically smallest name. */
  ghost function Min(s: set<string>): (m: string)
    requires s != {}
    ensures m in s && forall y :: y in s ==> LessEq(m, y)
  {
    MinExists(s);
    var m :| m in s && forall y :: y in s ==> LessEq(m, y);
    m
  }

  /** Sorting a list without repetitions keeps its elements. */
  function Sorted(s: seq<string>): (r: seq<string>)
    requires NoDup(s)
    ensures SortedBy(r, LessEq) && NoDup(r)
    ensures Elems(r) == Elems(s)
  {
    NoDupMultiset(s);
    MultisetNoDup(SortStrings(s), Elems(s));
    SortStrings(s)
  }

  /** The head of a sorted list is its smallest element. */
  lemma HeadIsMin(s: seq<string>)
    requires s != [] && SortedBy(s, LessEq)
    ensures s[0] in Elems(s) && Min(Elems(s)) == s[0]
  {
    StringOrder();
    assert s[0] in Elems(s);
    var m := Min(Elems(s));
    var i :| 0 <= i < |s| && s[i] == m;
  }

  lemma Append<T(!new)>(s: seq<T>, x: T)
    ensures Elems(s + [x]) == Elems(s) + {x}
    ensures NoDup(s) && x !in s ==> NoDup(s + [x])
  {
  }

  /** One more entry of a prefix. */
  lemma PrefixStep<T(!new)>(s: seq<T>, i: nat)
    requires i < |s|
    ensures s[..i+1] == s[..i] + [s[i]]
    ensures Elems(s[..i+1]) == Elems(s[..i]) + {s[i]}
    ensures NoDup(s) ==> s[i] !in s[..i]
  {
    Append(s[..i], s[i]);
  }

  /** Visiting a set or the keys of a map, in any order. */
  method ListSet<T(!new)>(s: set<T>) returns (r: seq<T>)
    ensures NoDup(r) && Elems(r) == s
  {
    r := [];
    var todo := s;
    while todo != {}
      invariant todo <= s
      invariant NoDup(r) && Elems(r) == s - todo
      decreases todo
    {
      var x :| x in todo;
      assert x !in Elems(r);
      Append(r, x);
      r, todo := r + [x], todo - {x};
    }
  }
}

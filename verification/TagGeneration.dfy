/** Keeping a part of the candidates, and the guard against gaps between majors. */
module TagGeneration {
  import opened Ordering
  import opened Versions
  import opened TagRanges

  // ---------- keeping a part of a list ----------

  function Keep(s: seq<Candidate>, p: Candidate -> bool): (r: seq<Candidate>)
    ensures forall c :: c in r <==> c in s && p(c)
    ensures |r| <= |s|
  {
    if s == [] then [] else Keep(s[..|s|-1], p) + if p(s[|s|-1]) then [s[|s|-1]] else []
  }

  lemma {:induction false} KeepCountOf(s: seq<Candidate>, p: Candidate -> bool, x: Candidate)
    ensures multiset(Keep(s, p))[x] == if p(x) then multiset(s)[x] else 0
  {
    if s != [] {
      var front, last := s[..|s|-1], s[|s|-1];
      KeepCountOf(front, p, x);
      assert s == front + [last];
      assert multiset(s)[x] == multiset(front)[x] + multiset([last])[x];
    }
  }

  lemma KeepPermutes(s: seq<Candidate>, t: seq<Candidate>, p: Candidate -> bool)
    requires multiset(s) == multiset(t)
    ensures multiset(Keep(s, p)) == multiset(Keep(t, p))
  {
    forall x ensures multiset(Keep(s, p))[x] == multiset(Keep(t, p))[x] {
      KeepCountOf(s, p, x);
      KeepCountOf(t, p, x);
    }
  }

  lemma {:induction false} KeepAll(s: seq<Candidate>, p: Candidate -> bool)
    requires forall c :: c in s ==> p(c)
    ensures Keep(s, p) == s
  {
    if s != [] {
      var front, last := s[..|s|-1], s[|s|-1];
      assert s == front + [last];
      forall c | c in front ensures p(c) {
        assert c in s;
      }
      assert last in s;
      KeepAll(front, p);
    }
  }

  lemma {:induction false} KeepSame(s: seq<Candidate>, p: Candidate -> bool, q: Candidate -> bool)
    requires forall c :: c in s ==> p(c) == q(c)
    ensures Keep(s, p) == Keep(s, q)
  {
    if s != [] {
      var front, last := s[..|s|-1], s[|s|-1];
      forall c | c in front ensures p(c) == q(c) {
        assert c in s;
      }
      assert last in s;
      KeepSame(front, p, q);
    }
  }

  lemma {:induction false} KeepDistinct(s: seq<Candidate>, p: Candidate -> bool)
    requires DistinctRaws(s)
    ensures DistinctRaws(Keep(s, p))
  {
    if s != [] {
      var front, last := s[..|s|-1], s[|s|-1];
      KeepDistinct(front, p);
      forall c | c in Keep(front, p) ensures c.raw != last.raw {
        var i :| 0 <= i < |front| && front[i] == c;
        assert s[i].raw != s[|s|-1].raw;
      }
    }
  }

  // ---------- applyMaxMajorIncrement ----------

  function Majors(s: seq<Candidate>): set<int> {
    set c | c in s :: MajorKey(c)
  }

  predicate IntLeq(a: int, b: int) { a <= b }

  ghost predicate Ascends(s: seq<int>) {
    forall i, j :: 0 <= i < j < |s| ==> s[i] < s[j]
  }

  lemma {:induction false} AscendingUnique(a: seq<int>, b: seq<int>)
    requires Ascends(a) && Ascends(b) && Elems(a) == Elems(b)
    ensures a == b
  {
    if a != [] {
      assert a[0] in Elems(b);
      assert b[0] in Elems(a);
      assert a == [a[0]] + a[1..] && b == [b[0]] + b[1..];
      assert a[0] == b[0];
      forall x ensures x in Elems(a[1..]) <==> x in Elems(b[1..]) {
        assert x in Elems(a[1..]) <==> x in Elems(a) && x != a[0];
        assert x in Elems(b[1..]) <==> x in Elems(b) && x != b[0];
      }
      AscendingUnique(a[1..], b[1..]);
    } else {
      EmptyElems(b);
    }
  }

  lemma EmptyElems(s: seq<int>)
    ensures Elems(s) == {} <==> s == []
  {
    if s != [] { assert s[0] in Elems(s); }
  }

  function SortInts(s: seq<int>): (r: seq<int>)
    requires NoDup(s)
    ensures Ascends(r) && Elems(r) == Elems(s)
  {
    NoDupMultiset(s);
    MultisetNoDup(SortBy(s, IntLeq), Elems(s));
    SortBy(s, IntLeq)
  }

  method DistinctMajorsAscending(candidates: seq<Candidate>) returns (majors: seq<int>)
    ensures Ascends(majors) && Elems(majors) == Majors(candidates)
  {
    var seen: set<int> := {};
    for i := 0 to |candidates|
      invariant seen == Majors(candidates[..i])
    {
      PrefixStep(candidates, i);
      seen := seen + {MajorKey(candidates[i])};
    }
    assert candidates[..|candidates|] == candidates;
    majors := [];
    var todo := seen;
    while todo != {}
      invariant todo <= seen && NoDup(majors) && Elems(majors) == seen - todo
      decreases todo
    {
      var m :| m in todo;
      Append(majors, m);
      majors := majors + [m];
      todo := todo - {m};
    }
    majors := SortInts(majors);
  }

  /** The first major after a gap wider than max, from position i on; -1 if there is none. */
  function FirstGap(majors: seq<int>, max: int, i: nat): int
    requires i > 0
    decreases |majors| - i
  {
    if i >= |majors| then -1
    else if Wrap64(majors[i] - majors[i-1]) > max then majors[i]
    else FirstGap(majors, max, i + 1)
  }

  /** kept is s without the candidates from the first gap on; a limit of zero or less keeps all. */
  ghost predicate IsGuarded(s: seq<Candidate>, max: int, kept: seq<Candidate>) {
    if max <= 0 || s == [] then kept == s
    else exists majors :: Ascends(majors) && Elems(majors) == Majors(s) && kept == CutAt(s, FirstGap(majors, max, 1))
  }

  function CutAt(s: seq<Candidate>, cutoff: int): seq<Candidate> {
    if cutoff < 0 then s else Keep(s, c => MajorKey(c) < cutoff)
  }

  method ApplyMaxMajorIncrement(candidates: seq<Candidate>, max: int) returns (kept: seq<Candidate>)
    ensures IsGuarded(candidates, max, kept)
  {
    if max <= 0 || |candidates| == 0 {
      return candidates;
    }
    var majors := DistinctMajorsAscending(candidates);
    var cutoff := -1;
    var i := 1;
    while i < |majors|
      invariant i >= 1 && cutoff == -1
      invariant FirstGap(majors, max, i) == FirstGap(majors, max, 1)
      decreases |majors| - i
    {
      if Wrap64(majors[i] - majors[i-1]) > max {
        cutoff := majors[i];
        break;
      }
      i := i + 1;
    }
    assert cutoff == FirstGap(majors, max, 1);
    if cutoff < 0 {
      return candidates;
    }
    kept := [];
    for k := 0 to |candidates|
      invariant kept == Keep(candidates[..k], c => MajorKey(c) < cutoff)
    {
      assert candidates[..k+1][..k] == candidates[..k];
      if MajorKey(candidates[k]) < cutoff {
        kept := kept + [candidates[k]];
      }
    }
    assert candidates[..|candidates|] == candidates;
  }

  lemma GuardUnique(s: seq<Candidate>, max: int, a: seq<Candidate>, b: seq<Candidate>)
    requires IsGuarded(s, max, a) && IsGuarded(s, max, b)
    ensures a == b
  {
    if max > 0 && s != [] {
      var m :| Ascends(m) && Elems(m) == Majors(s) && a == CutAt(s, FirstGap(m, max, 1));
      var n :| Ascends(n) && Elems(n) == Majors(s) && b == CutAt(s, FirstGap(n, max, 1));
      AscendingUnique(m, n);
    }
  }

  /** Where the first gap is, and that everything before it is close together. */
  lemma {:induction false} FirstGapAt(majors: seq<int>, max: int, i: nat) returns (g: nat)
    requires 0 < i <= |majors|
    ensures i <= g <= |majors|
    ensures forall k :: i <= k < g ==> Wrap64(majors[k] - majors[k-1]) <= max
    ensures if g == |majors| then FirstGap(majors, max, i) == -1
            else FirstGap(majors, max, i) == majors[g] && Wrap64(majors[g] - majors[g-1]) > max
    decreases |majors| - i
  {
    if i == |majors| || Wrap64(majors[i] - majors[i-1]) > max {
      g := i;
    } else {
      g := FirstGapAt(majors, max, i + 1);
    }
  }

  lemma {:induction false} NoGapBefore(majors: seq<int>, max: int, i: nat, g: nat)
    requires 0 < i <= g <= |majors|
    requires forall k :: i <= k < g ==> Wrap64(majors[k] - majors[k-1]) <= max
    ensures FirstGap(majors[..g], max, i) == -1
    decreases g - i
  {
    if i < g {
      NoGapBefore(majors, max, i + 1, g);
    }
  }

  // ---------- what the guard means ----------

  /** p climbs through present majors in steps of at most max. */
  ghost predicate Climbs(present: set<int>, max: int, p: seq<int>) {
    && |p| > 0
    && (forall i :: 0 <= i < |p| ==> p[i] in present)
    && (forall i, j :: 0 <= i && j == i + 1 && j < |p| ==> p[i] < p[j] <= p[i] + max)
  }

  ghost predicate IsLowest(present: set<int>, m: int) {
    m in present && forall x :: x in present ==> m <= x
  }

  /** The major can be reached from the lowest one. */
  ghost predicate Reached(present: set<int>, max: int, m: int) {
    exists p :: Climbs(present, max, p) && IsLowest(present, p[0]) && p[|p|-1] == m
  }

  ghost function TrueMajors(s: seq<Candidate>): set<int> {
    set c | c in s :: c.ver.major as int
  }

  lemma {:induction false} ClimbStaysBelow(present: set<int>, max: int, p: seq<int>, top: int, next: int)
    requires Climbs(present, max, p) && p[0] <= top && next > top + max
    requires forall x :: x in present ==> x <= top || x >= next
    ensures p[|p|-1] <= top
    decreases |p|
  {
    if |p| > 1 {
      assert p[1] in present;
      var q := p[1..];
      assert Climbs(present, max, q);
      ClimbStaysBelow(present, max, q, top, next);
    }
  }

  lemma MajorsReached(majors: seq<int>, max: int, g: nat, m: int)
    requires Ascends(majors) && 0 < g <= |majors|
    requires forall k :: 1 <= k < g ==> majors[k] - majors[k-1] <= max
    requires g < |majors| ==> majors[g] - majors[g-1] > max
    requires m in Elems(majors)
    ensures Reached(Elems(majors), max, m) <==> (g < |majors| ==> m < majors[g])
  {
    var present := Elems(majors);
    var k :| 0 <= k < |majors| && majors[k] == m;
    if g < |majors| ==> m < majors[g] {
      assert k < g;
      var p := majors[..k+1];
      assert forall i :: 0 <= i < |p| ==> p[i] == majors[i];
      assert Climbs(present, max, p);
      assert IsLowest(present, p[0]);
    } else if Reached(present, max, m) {
      var p :| Climbs(present, max, p) && IsLowest(present, p[0]) && p[|p|-1] == m;
      assert majors[0] in present;
      forall x | x in present ensures x <= majors[g-1] || x >= majors[g] {
        var j :| 0 <= j < |majors| && majors[j] == x;
        assert j <= g - 1 || j >= g;
      }
      ClimbStaysBelow(present, max, p, majors[g-1], majors[g]);
    }
  }

  /** Below 2^63 the guard keeps exactly the candidates whose major is reached from the lowest. */
  lemma GuardKeepsReached(s: seq<Candidate>, max: int, kept: seq<Candidate>)
    requires max > 0 && IsGuarded(s, max, kept)
    requires forall c :: c in s ==> c.ver.major < TWO_63
    ensures kept == Keep(s, (c: Candidate) => Reached(TrueMajors(s), max, c.ver.major))
  {
    if s != [] {
      var majors :| Ascends(majors) && Elems(majors) == Majors(s) && kept == CutAt(s, FirstGap(majors, max, 1));
      SmallMajors(s);
      assert s[0] in s && MajorKey(s[0]) in Elems(majors);
      var g := FirstGapAt(majors, max, 1);
      forall k | 0 <= k < |majors| ensures 0 <= majors[k] < TWO_63 { assert majors[k] in Elems(majors); }
      var q := (c: Candidate) => Reached(TrueMajors(s), max, c.ver.major);
      forall c | c in s ensures q(c) <==> (g < |majors| ==> MajorKey(c) < majors[g]) {
        assert MajorKey(c) in Majors(s);
        MajorsReached(majors, max, g, c.ver.major);
      }
      if g == |majors| {
        KeepAll(s, q);
      } else {
        KeepSame(s, c => MajorKey(c) < majors[g], q);
      }
    }
  }

  lemma SmallMajors(s: seq<Candidate>)
    requires forall c :: c in s ==> c.ver.major < TWO_63
    ensures Majors(s) == TrueMajors(s)
    ensures forall c :: c in s ==> MajorKey(c) == c.ver.major
    ensures forall m :: m in Majors(s) ==> 0 <= m < TWO_63
  {
  }

  // ---------- majors from 2^63 on ----------

  /** Below a reached major every present one is reached. */
  lemma ReachedBelow(present: set<int>, max: int, m: int, x: int)
    requires Reached(present, max, m) && x in present && x <= m
    ensures Reached(present, max, x)
  {
    var p :| Climbs(present, max, p) && IsLowest(present, p[0]) && p[|p|-1] == m;
    ClimbPasses(present, max, p, x);
  }

  lemma {:induction false} ClimbPasses(present: set<int>, max: int, p: seq<int>, x: int)
    requires Climbs(present, max, p) && IsLowest(present, p[0]) && x in present && x <= p[|p|-1]
    ensures Reached(present, max, x)
    decreases |p|
  {
    assert p[0] <= x;
    if x < p[|p|-1] {
      assert |p| > 1;
      var q := p[..|p|-1];
      assert Climbs(present, max, q);
      if x <= q[|q|-1] {
        ClimbPasses(present, max, q, x);
      } else {
        var r := q + [x];
        assert p[|p|-2] < p[|p|-1] <= p[|p|-2] + max;
        assert Climbs(present, max, r);
      }
    }
  }

  /** A reached major that is not the lowest has a present one at most max below. */
  lemma ReachedFrom(present: set<int>, max: int, m: int) returns (x: int)
    requires Reached(present, max, m) && !IsLowest(present, m)
    ensures x in present && x < m <= x + max
  {
    var p :| Climbs(present, max, p) && IsLowest(present, p[0]) && p[|p|-1] == m;
    x := p[|p|-2];
    assert p[|p|-2] < p[|p|-1] <= p[|p|-2] + max;
  }

  ghost predicate AllReached(present: set<int>, max: int) {
    forall m :: m in present ==> Reached(present, max, m)
  }

  ghost predicate IsLeastSmall(present: set<int>, lo: int) {
    lo in present && lo < TWO_63 && forall x :: x in present && x < TWO_63 ==> lo <= x
  }

  ghost predicate IsGreatestHuge(present: set<int>, hi: int) {
    hi in present && hi >= TWO_63 && forall x :: x in present && x >= TWO_63 ==> x <= hi
  }

  /** As int64 the least small major directly follows the greatest huge one, and the guard sees a
      gap between them. From 2^63 on the difference overflows and the gap is not seen. */
  ghost predicate GapAtZero(present: set<int>, max: int) {
    exists lo, hi :: IsLeastSmall(present, lo) && IsGreatestHuge(present, hi) && max < lo - hi + TWO_64 < TWO_63
  }

  /** An int64 read as the uint64 it came from. */
  function Unwrapped(key: int): int {
    if key < 0 then key + TWO_64 else key
  }

  lemma KeyOf(m: UInt64)
    ensures Unwrapped(Wrap64(m)) == m
    ensures Wrap64(m) == if m < TWO_63 then m else m - TWO_64
  {
    WrapInjective(m, m);
  }

  lemma KeysAndMajors(s: seq<Candidate>, key: int)
    requires key in Majors(s)
    ensures -TWO_63 <= key < TWO_63 && Unwrapped(key) in TrueMajors(s)
  {
    var c :| c in s && MajorKey(c) == key;
    KeyOf(c.ver.major);
  }

  lemma MajorsAndKeys(s: seq<Candidate>, m: int)
    requires m in TrueMajors(s)
    ensures 0 <= m < TWO_64 && Wrap64(m) in Majors(s) && Unwrapped(Wrap64(m)) == m
    ensures Wrap64(m) == if m < TWO_63 then m else m - TWO_64
  {
    var c :| c in s && c.ver.major == m;
    KeyOf(c.ver.major);
  }

  /** Nothing present lies between two neighbours of the ascending list. */
  lemma NothingBetween(s: seq<Candidate>, majors: seq<int>, k: nat, x: int)
    requires Ascends(majors) && Elems(majors) == Majors(s) && 0 < k < |majors| && x in TrueMajors(s)
    ensures Wrap64(x) <= majors[k-1] || majors[k] <= Wrap64(x)
  {
    MajorsAndKeys(s, x);
    assert Wrap64(x) in Elems(majors);
    var j :| 0 <= j < |majors| && majors[j] == Wrap64(x);
    assert j <= k - 1 || k <= j;
  }

  lemma NeighbourKeys(s: seq<Candidate>, majors: seq<int>, k: nat)
    requires Ascends(majors) && Elems(majors) == Majors(s) && 0 < k < |majors|
    ensures -TWO_63 <= majors[k-1] < majors[k] < TWO_63
    ensures Unwrapped(majors[k-1]) in TrueMajors(s) && Unwrapped(majors[k]) in TrueMajors(s)
  {
    assert majors[k-1] in Elems(majors) && majors[k] in Elems(majors);
    KeysAndMajors(s, majors[k-1]);
    KeysAndMajors(s, majors[k]);
  }

  /** When all majors are reached, neighbours of the same sign are close together. */
  lemma SameSignClose(s: seq<Candidate>, majors: seq<int>, max: int, k: nat)
    requires Ascends(majors) && Elems(majors) == Majors(s) && 0 < k < |majors|
    requires AllReached(TrueMajors(s), max) && (majors[k] < 0 || majors[k-1] >= 0)
    ensures Wrap64(majors[k] - majors[k-1]) <= max
  {
    NeighbourKeys(s, majors, k);
    var present, a, b := TrueMajors(s), Unwrapped(majors[k-1]), Unwrapped(majors[k]);
    assert a < b && b - a == majors[k] - majors[k-1];
    var x := ReachedFrom(present, max, b);
    NothingBetween(s, majors, k, x);
    MajorsAndKeys(s, x);
    assert x <= a;
  }

  /** Where the sign changes, the guard sees a gap exactly when there is one at zero. */
  lemma SignChange(s: seq<Candidate>, majors: seq<int>, max: int, k: nat)
    requires Ascends(majors) && Elems(majors) == Majors(s) && 0 < k < |majors|
    requires 0 < max && majors[k-1] < 0 <= majors[k]
    ensures IsLeastSmall(TrueMajors(s), majors[k]) && IsGreatestHuge(TrueMajors(s), majors[k-1] + TWO_64)
    ensures Wrap64(majors[k] - majors[k-1]) > max <==> GapAtZero(TrueMajors(s), max)
  {
    NeighbourKeys(s, majors, k);
    var present, lo, hi := TrueMajors(s), majors[k], majors[k-1] + TWO_64;
    forall x | x in present ensures (x < TWO_63 ==> lo <= x) && (x >= TWO_63 ==> x <= hi) {
      NothingBetween(s, majors, k, x);
      MajorsAndKeys(s, x);
    }
    assert IsLeastSmall(present, lo) && IsGreatestHuge(present, hi);
    GapAtZeroFor(present, max, lo, hi);
    var d := lo - hi + TWO_64;
    assert d == majors[k] - majors[k-1];
    assert Wrap64(d) == if d < TWO_63 then d else d - TWO_64;
  }

  lemma GapAtZeroFor(present: set<int>, max: int, lo: int, hi: int)
    requires IsLeastSmall(present, lo) && IsGreatestHuge(present, hi)
    ensures GapAtZero(present, max) <==> max < lo - hi + TWO_64 < TWO_63
  {
    if GapAtZero(present, max) {
      var l, h :| IsLeastSmall(present, l) && IsGreatestHuge(present, h) && max < l - h + TWO_64 < TWO_63;
      assert l == lo && h == hi;
    }
  }

  /** When all majors are reached, the guard finds a gap exactly when there is one at zero, and then
      drops the lowest major. */
  lemma GapIffAtZero(s: seq<Candidate>, majors: seq<int>, max: int)
    requires Ascends(majors) && Elems(majors) == Majors(s) && s != []
    requires 0 < max && AllReached(TrueMajors(s), max)
    ensures FirstGap(majors, max, 1) == -1 <==> !GapAtZero(TrueMajors(s), max)
    ensures FirstGap(majors, max, 1) != -1 ==> 0 <= FirstGap(majors, max, 1) < TWO_63 && FirstGap(majors, max, 1) in TrueMajors(s)
  {
    assert s[0] in s && MajorKey(s[0]) in Elems(majors);
    var g := FirstGapAt(majors, max, 1);
    if g < |majors| {
      if majors[g] < 0 || majors[g-1] >= 0 {
        SameSignClose(s, majors, max, g);
      }
      SignChange(s, majors, max, g);
      NeighbourKeys(s, majors, g);
    } else if GapAtZero(TrueMajors(s), max) {
      var k := FindSignChange(s, majors);
      SignChange(s, majors, max, k);
    }
  }

  lemma FindSignChange(s: seq<Candidate>, majors: seq<int>) returns (k: nat)
    requires Ascends(majors) && Elems(majors) == Majors(s)
    requires exists lo, hi :: IsLeastSmall(TrueMajors(s), lo) && IsGreatestHuge(TrueMajors(s), hi)
    ensures 0 < k < |majors| && majors[k-1] < 0 <= majors[k]
  {
    var lo, hi :| IsLeastSmall(TrueMajors(s), lo) && IsGreatestHuge(TrueMajors(s), hi);
    MajorsAndKeys(s, lo);
    MajorsAndKeys(s, hi);
    assert Wrap64(lo) in Elems(majors) && Wrap64(hi) in Elems(majors);
    var i :| 0 <= i < |majors| && majors[i] == Wrap64(lo);
    var j :| 0 <= j < |majors| && majors[j] == Wrap64(hi);
    assert j < i;
    k := j + 1;
    while majors[k] < 0
      invariant j < k <= i && majors[k-1] < 0
      decreases i - k
    {
      k := k + 1;
    }
  }

  /** Whatever the guard drops, a huge major stays: as int64 it is negative. */
  lemma HugeStays(s: seq<Candidate>, max: int, kept: seq<Candidate>, c: Candidate)
    requires IsGuarded(s, max, kept) && c in s && c.ver.major >= TWO_63
    ensures c in kept
  {
    KeyOf(c.ver.major);
  }

  lemma {:induction false} GreatestExists(s: seq<Candidate>) returns (top: Candidate)
    requires s != []
    ensures top in s && forall c :: c in s ==> c.ver.major <= top.ver.major
  {
    if |s| == 1 {
      top := s[0];
    } else {
      var front, last := s[..|s|-1], s[|s|-1];
      top := GreatestExists(front);
      assert s == front + [last];
      if last.ver.major > top.ver.major {
        top := last;
      }
    }
  }

  /** With a huge major, keeping exactly the reached ones means that all are reached. */
  lemma HugeNeedsAll(s: seq<Candidate>, max: int, kept: seq<Candidate>)
    requires max > 0 && IsGuarded(s, max, kept) && exists c :: c in s && c.ver.major >= TWO_63
    requires kept == Keep(s, (c: Candidate) => Reached(TrueMajors(s), max, c.ver.major))
    ensures AllReached(TrueMajors(s), max)
  {
    var top := GreatestExists(s);
    HugeStays(s, max, kept, top);
    forall m | m in TrueMajors(s) ensures Reached(TrueMajors(s), max, m) {
      ReachedBelow(TrueMajors(s), max, top.ver.major, m);
    }
  }

  /** The guard keeps exactly the candidates whose major is reached from the lowest if and only if
      no major comes from 2^63 on, or all of them are reached and there is no gap at zero. */
  lemma GuardKeepsReachedIff(s: seq<Candidate>, max: int, kept: seq<Candidate>)
    requires 0 < max < TWO_63 && IsGuarded(s, max, kept)
    ensures kept == Keep(s, (c: Candidate) => Reached(TrueMajors(s), max, c.ver.major))
      <==> ((forall c :: c in s ==> c.ver.major < TWO_63) || (AllReached(TrueMajors(s), max) && !GapAtZero(TrueMajors(s), max)))
  {
    var q := (c: Candidate) => Reached(TrueMajors(s), max, c.ver.major);
    if forall c :: c in s ==> c.ver.major < TWO_63 {
      GuardKeepsReached(s, max, kept);
    } else if AllReached(TrueMajors(s), max) {
      KeepAll(s, q);
      GuardWithAllReached(s, max, kept);
    } else if kept == Keep(s, q) {
      HugeNeedsAll(s, max, kept);
    }
  }

  lemma GuardWithAllReached(s: seq<Candidate>, max: int, kept: seq<Candidate>)
    requires max > 0 && IsGuarded(s, max, kept) && s != [] && AllReached(TrueMajors(s), max)
    ensures kept == s <==> !GapAtZero(TrueMajors(s), max)
  {
    hide AllReached, GapAtZero, TrueMajors, Ascends, FirstGap, CutAt;
    var majors :| Ascends(majors) && Elems(majors) == Majors(s) && kept == CutAt(s, FirstGap(majors, max, 1));
    CutWithAllReached(s, majors, max);
  }

  lemma CutWithAllReached(s: seq<Candidate>, majors: seq<int>, max: int)
    requires Ascends(majors) && Elems(majors) == Majors(s) && s != []
    requires max > 0 && AllReached(TrueMajors(s), max)
    ensures CutAt(s, FirstGap(majors, max, 1)) == s <==> !GapAtZero(TrueMajors(s), max)
  {
    GapIffAtZero(s, majors, max);
    var cutoff := FirstGap(majors, max, 1);
    if cutoff != -1 {
      var c :| c in s && c.ver.major == cutoff;
      NeverDropped(s, cutoff, c);
    }
  }

  lemma NeverDropped(s: seq<Candidate>, cutoff: int, c: Candidate)
    requires 0 <= cutoff < TWO_63 && c in s && c.ver.major == cutoff
    ensures c !in CutAt(s, cutoff)
  {
    KeyOf(c.ver.major);
  }

  /** The guard never empties a list, and a second pass changes nothing. */
  lemma GuardNeverEmpties(s: seq<Candidate>, max: int, kept: seq<Candidate>)
    requires IsGuarded(s, max, kept) && s != []
    ensures kept != [] && IsGuarded(kept, max, kept)
  {
    if max > 0 {
      var majors :| Ascends(majors) && Elems(majors) == Majors(s) && kept == CutAt(s, FirstGap(majors, max, 1));
      assert s[0] in s && MajorKey(s[0]) in Elems(majors);
      var g := FirstGapAt(majors, max, 1);
      if g < |majors| && majors[g] >= 0 {
        hide FirstGap, Majors, Keep;
        CutKeepsLowest(s, majors, g);
        KeptMajors(s, majors, g, kept);
        NoGapBefore(majors, max, 1, g);
        assert kept == CutAt(kept, -1);
      }
    }
  }

  lemma CutKeepsLowest(s: seq<Candidate>, majors: seq<int>, g: nat)
    requires Ascends(majors) && Elems(majors) == Majors(s) && 0 < g < |majors|
    ensures Keep(s, c => MajorKey(c) < majors[g]) != []
  {
    assert majors[0] in Elems(majors);
    var low :| low in s && MajorKey(low) == majors[0];
    assert low in Keep(s, c => MajorKey(c) < majors[g]);
  }

  lemma KeptMajors(s: seq<Candidate>, majors: seq<int>, g: nat, kept: seq<Candidate>)
    requires Ascends(majors) && Elems(majors) == Majors(s) && 0 < g < |majors|
    requires kept == Keep(s, c => MajorKey(c) < majors[g])
    ensures Ascends(majors[..g]) && Elems(majors[..g]) == Majors(kept)
  {
    forall m ensures m in Elems(majors[..g]) <==> m in Majors(kept) {
      if m in Elems(majors[..g]) {
        var i :| 0 <= i < g && majors[i] == m;
        assert m in Elems(majors);
        var c :| c in s && MajorKey(c) == m;
        assert c in kept;
      }
      if m in Majors(kept) {
        var c :| c in kept && MajorKey(c) == m;
        assert m in Elems(majors);
        var i :| 0 <= i < |majors| && majors[i] == m;
        assert i < g;
        assert majors[..g][i] == m;
      }
    }
  }

  function Release(major: UInt64): Candidate {
    Candidate(Version(major, 0, 0, []), "", false, map[])
  }

  const HUGE: UInt64 := TWO_64 - 1

  /** From 2^63 on the conversion to int64 turns a huge major negative: with limit 1 the guard
      keeps the outlier and drops the lowest major. */
  lemma HugeMajorIsLowest()
    ensures var s := [Release(5), Release(HUGE)];
      IsGuarded(s, 1, [Release(HUGE)]) && Reached(TrueMajors(s), 1, 5) && !Reached(TrueMajors(s), 1, HUGE)
  {
    HugeMajorKept(Release(5), Release(HUGE));
    HugeMajorUnreached([Release(5), Release(HUGE)]);
  }

  lemma HugeMajorKept(a: Candidate, b: Candidate)
    requires MajorKey(a) == 5 && MajorKey(b) == -1
    ensures IsGuarded([a, b], 1, [b])
  {
    var s, majors := [a, b], [-1, 5];
    assert s[0] in s && s[1] in s;
    assert Elems(majors) == Majors(s);
    assert FirstGap(majors, 1, 1) == 5;
    var p := (c: Candidate) => MajorKey(c) < 5;
    assert s[..1] == [a] && [a][..0] == [];
    assert Keep([a], p) == Keep([], p) + [];
    assert Keep(s, p) == Keep(s[..1], p) + [b];
    assert CutAt(s, 5) == Keep(s, p);
  }

  lemma HugeMajorUnreached(s: seq<Candidate>)
    requires s == [Release(5), Release(HUGE)]
    ensures Reached(TrueMajors(s), 1, 5) && !Reached(TrueMajors(s), 1, HUGE)
  {
    var present := TrueMajors(s);
    assert s[0] in s && s[1] in s;
    assert present == {5, HUGE};
    assert Climbs(present, 1, [5]);
    if Reached(present, 1, HUGE) {
      var p :| Climbs(present, 1, p) && IsLowest(present, p[0]) && p[|p|-1] == HUGE;
      ClimbStaysBelow(present, 1, p, 5, HUGE);
    }
  }
}

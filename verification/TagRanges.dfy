/** The candidates of a tag range: their descending order, and the select block. */
module TagRanges {
  import opened Wrappers
  import opened Ordering
  import opened Versions

  /** prerelease is set when the source says so or the version has a pre-release part. */
  datatype Candidate = Candidate(ver: Version, raw: string, prerelease: bool, extra: map<string, string>)

  // ---------- sortDescending ----------

  /** The order of sortDescending: higher versions first, equal versions by their raw string. */
  predicate Before(a: Candidate, b: Candidate) {
    Compare(a.ver, b.ver) > 0 || (Compare(a.ver, b.ver) == 0 && LessEq(b.raw, a.raw))
  }

  lemma BeforeTotal(a: Candidate, b: Candidate)
    ensures Before(a, b) || Before(b, a)
    ensures Before(a, b) && Before(b, a) ==> a.ver == b.ver && a.raw == b.raw
  {
    PrecedenceIsTotal(a.ver, b.ver);
    PrecedenceIsTotal(b.ver, a.ver);
    LessTrichotomy(a.raw, b.raw);
  }

  lemma BeforeTransitive(a: Candidate, b: Candidate, c: Candidate)
    requires Before(a, b) && Before(b, c)
    ensures Before(a, c)
  {
    PrecedenceIsTotal(a.ver, b.ver);
    PrecedenceIsTotal(b.ver, c.ver);
    PrecedenceIsTotal(a.ver, c.ver);
    if VersionLess(c.ver, b.ver) && VersionLess(b.ver, a.ver) { PrecedenceIsTransitive(c.ver, b.ver, a.ver); }
    if Less(c.raw, b.raw) && Less(b.raw, a.raw) { LessTransitive(c.raw, b.raw, a.raw); }
  }

  lemma BeforeIsOrder()
    ensures TotalPreorder(Before)
  {
    forall a, b ensures Before(a, b) || Before(b, a) { BeforeTotal(a, b); }
    forall a, b, c | Before(a, b) && Before(b, c) ensures Before(a, c) { BeforeTransitive(a, b, c); }
  }

  function Descending(s: seq<Candidate>): (r: seq<Candidate>)
    ensures SortedBy(r, Before) && multiset(r) == multiset(s) && |r| == |s|
  {
    BeforeIsOrder();
    SortBy(s, Before)
  }

  method SortDescending(candidates: array<Candidate>)
    modifies candidates
    ensures candidates[..] == Descending(old(candidates[..]))
    ensures SortedBy(candidates[..], Before) && multiset(candidates[..]) == multiset(old(candidates[..]))
  {
    var sorted := Descending(candidates[..]);
    for i := 0 to candidates.Length
      invariant candidates[..i] == sorted[..i]
    {
      candidates[i] := sorted[i];
    }
    assert candidates[..] == sorted;
  }

  /** No two candidates carry the same raw string. */
  ghost predicate DistinctRaws(s: seq<Candidate>) {
    forall i, j :: 0 <= i < j < |s| ==> s[i].raw != s[j].raw
  }

  lemma DescendingUnique(s: seq<Candidate>, t: seq<Candidate>)
    requires DistinctRaws(s) && multiset(s) == multiset(t)
    ensures Descending(s) == Descending(t)
  {
    BeforeIsOrder();
    MultisetMembers(s, Descending(s));
    forall a, b | a in Descending(s) && b in Descending(s) && Before(a, b) && Before(b, a) ensures a == b {
      BeforeTotal(a, b);
      assert a in s && b in s;
    }
    SortedUnique(Descending(s), Descending(t), Before);
  }

  // ---------- selectVersions ----------

  datatype LevelSelect = LevelSelect(all: bool, last: int)

  datatype SelectConfig = SelectConfig(major: Option<LevelSelect>, minor: Option<LevelSelect>, patch: Option<LevelSelect>)

  const LATEST_ONLY := LevelSelect(false, 1)

  /** How many entries a level keeps out of n. */
  function KeepCount(sel: LevelSelect, n: nat): (r: nat)
    ensures r <= n
  {
    if sel.all then n
    else
      var last := if sel.last <= 0 then 1 else sel.last;
      if last > n then n else last
  }

  /** A rank, counting from 0, that the level keeps. */
  predicate KeepsRank(sel: LevelSelect, rank: nat) {
    sel.all || rank < (if sel.last <= 0 then 1 else sel.last)
  }

  function HigherMajors(s: seq<Candidate>, major: int): set<int> {
    set c | c in s && c.ver.major > major :: c.ver.major
  }

  function HigherMinors(s: seq<Candidate>, major: int, minor: int): set<int> {
    set c | c in s && c.ver.major == major && c.ver.minor > minor :: c.ver.minor
  }

  function EarlierPeers(s: seq<Candidate>, i: nat): set<nat>
    requires i < |s|
  {
    set j: nat | j < i && s[j].ver.major == s[i].ver.major && s[j].ver.minor == s[i].ver.minor
  }

  /** The declarative meaning of the select block. */
  predicate IsSelected(s: seq<Candidate>, major: LevelSelect, minor: LevelSelect, patch: LevelSelect, i: nat)
    requires i < |s|
  {
    && KeepsRank(major, |HigherMajors(s, s[i].ver.major)|)
    && KeepsRank(minor, |HigherMinors(s, s[i].ver.major, s[i].ver.minor)|)
    && KeepsRank(patch, |EarlierPeers(s, i)|)
  }

  /** The selected entries of s from lo to hi, in order. */
  function Pick(s: seq<Candidate>, major: LevelSelect, minor: LevelSelect, patch: LevelSelect, lo: nat, hi: nat): seq<Candidate>
    requires lo <= hi <= |s|
    decreases hi - lo
  {
    if lo == hi then []
    else Pick(s, major, minor, patch, lo, hi - 1) + if IsSelected(s, major, minor, patch, hi - 1) then [s[hi-1]] else []
  }

  /** Majors do not rise, and within a major minors do not rise. */
  ghost predicate LevelsDescend(s: seq<Candidate>) {
    forall i, j :: 0 <= i < j < |s| ==>
      s[i].ver.major > s[j].ver.major || (s[i].ver.major == s[j].ver.major && s[i].ver.minor >= s[j].ver.minor)
  }

  lemma SortedLevels(s: seq<Candidate>)
    requires SortedBy(s, Before)
    ensures LevelsDescend(s)
  {
    forall i, j | 0 <= i < j < |s|
      ensures s[i].ver.major > s[j].ver.major || (s[i].ver.major == s[j].ver.major && s[i].ver.minor >= s[j].ver.minor)
    {
      assert Before(s[i], s[j]);
      PrecedenceIsTotal(s[i].ver, s[j].ver);
    }
  }

  // ---------- runs of equal keys ----------

  function Flatten(groups: seq<seq<Candidate>>): seq<Candidate> {
    if groups == [] then [] else Flatten(groups[..|groups|-1]) + groups[|groups|-1]
  }

  /** The groups are the maximal runs of s with one key each. */
  ghost predicate AreRuns(s: seq<Candidate>, key: Candidate -> int, groups: seq<seq<Candidate>>) {
    && Flatten(groups) == s
    && (forall g :: 0 <= g < |groups| ==> groups[g] != [])
    && (forall g, k :: 0 <= g < |groups| && 0 <= k < |groups[g]| ==> key(groups[g][k]) == key(groups[g][0]))
    && (forall g, h :: 0 <= g && h == g + 1 && h < |groups| ==> key(groups[g][0]) != key(groups[h][0]))
  }

  method GroupByLevel(s: seq<Candidate>, key: Candidate -> int, sel: LevelSelect)
    returns (kept: seq<seq<Candidate>>, ghost groups: seq<seq<Candidate>>)
    ensures AreRuns(s, key, groups)
    ensures kept == groups[..KeepCount(sel, |groups|)]
  {
    hide AreRuns, Flatten;
    var all: seq<seq<Candidate>> := [];
    var groupKeys: seq<int> := [];
    NoRuns(key);
    for i := 0 to |s|
      invariant AreRuns(s[..i], key, all)
      invariant |groupKeys| == |all| && forall g :: 0 <= g < |all| ==> all[g] != [] && groupKeys[g] == key(all[g][0])
    {
      var c := s[i];
      var k := key(c);
      var n := |all|;
      assert s[..i+1] == s[..i] + [c];
      assert all != [] ==> key(all[n-1][0]) == groupKeys[n-1];
      if n > 0 && groupKeys[n-1] == k {
        GrowRun(s[..i], key, all, c);
        all := all[n-1 := all[n-1] + [c]];
      } else {
        NewRun(s[..i], key, all, c);
        all := all + [[c]];
        groupKeys := groupKeys + [k];
      }
    }
    assert s[..|s|] == s;
    groups := all;
    if sel.all {
      assert all[..|all|] == all;
      return all, all;
    }
    var last := sel.last;
    if last <= 0 {
      last := 1;
    }
    if last > |all| {
      last := |all|;
    }
    return all[..last], all;
  }

  lemma NoRuns(key: Candidate -> int)
    ensures AreRuns([], key, [])
  {
  }

  lemma GrowRun(s: seq<Candidate>, key: Candidate -> int, groups: seq<seq<Candidate>>, c: Candidate)
    requires AreRuns(s, key, groups) && groups != [] && key(groups[|groups|-1][0]) == key(c)
    ensures AreRuns(s + [c], key, groups[|groups|-1 := groups[|groups|-1] + [c]])
  {
    var n := |groups|;
    var more := groups[n-1 := groups[n-1] + [c]];
    assert more[..n-1] == groups[..n-1];
    assert Flatten(more) == Flatten(groups[..n-1]) + (groups[n-1] + [c]);
  }

  lemma NewRun(s: seq<Candidate>, key: Candidate -> int, groups: seq<seq<Candidate>>, c: Candidate)
    requires AreRuns(s, key, groups) && (groups != [] ==> key(groups[|groups|-1][0]) != key(c))
    ensures AreRuns(s + [c], key, groups + [[c]])
  {
    var more := groups + [[c]];
    assert more[..|groups|] == groups;
    assert Flatten(more) == Flatten(groups) + [c];
  }

  lemma {:induction false} FlattenPrefix(groups: seq<seq<Candidate>>, a: nat)
    requires a <= |groups|
    ensures Flatten(groups[..a]) <= Flatten(groups)
    decreases |groups|
  {
    if a < |groups| {
      var n := |groups| - 1;
      FlattenPrefix(groups[..n], a);
      assert groups[..n][..a] == groups[..a];
    } else {
      assert groups[..a] == groups;
    }
  }

  /** Where run a starts in the flattened list. */
  function Offset(groups: seq<seq<Candidate>>, a: nat): nat
    requires a <= |groups|
  {
    |Flatten(groups[..a])|
  }

  lemma RunAt(s: seq<Candidate>, key: Candidate -> int, groups: seq<seq<Candidate>>, a: nat)
    requires AreRuns(s, key, groups) && a < |groups|
    ensures Offset(groups, a + 1) == Offset(groups, a) + |groups[a]| <= |s|
    ensures s[Offset(groups, a)..Offset(groups, a + 1)] == groups[a]
  {
    FlattenPrefix(groups, a);
    FlattenPrefix(groups, a + 1);
    assert groups[..a+1][..a] == groups[..a];
    assert Flatten(groups[..a+1]) == Flatten(groups[..a]) + groups[a];
  }

  ghost predicate Falls(s: seq<Candidate>, level: Candidate -> int) {
    forall i, j :: 0 <= i < j < |s| ==> level(s[i]) >= level(s[j])
  }

  function Higher(s: seq<Candidate>, level: Candidate -> int, v: int): set<int> {
    set c | c in s && level(c) > v :: level(c)
  }

  /** On a falling list the levels of consecutive runs fall strictly. */
  lemma RunsFall(s: seq<Candidate>, level: Candidate -> int, groups: seq<seq<Candidate>>, a: nat)
    requires AreRuns(s, level, groups) && Falls(s, level) && a + 1 < |groups|
    ensures level(groups[a][0]) > level(groups[a+1][0])
  {
    RunAt(s, level, groups, a);
    RunAt(s, level, groups, a + 1);
    assert s[Offset(groups, a)] == groups[a][0];
    assert s[Offset(groups, a + 1)] == groups[a+1][0];
  }

  /** Run a of a falling list has exactly a distinct levels above it. */
  lemma {:induction false} RankOfRun(s: seq<Candidate>, level: Candidate -> int, groups: seq<seq<Candidate>>, a: nat)
    requires AreRuns(s, level, groups) && Falls(s, level) && a < |groups|
    ensures |Higher(s, level, level(groups[a][0]))| == a
    decreases a
  {
    var v := level(groups[a][0]);
    RunAt(s, level, groups, a);
    assert s[Offset(groups, a)] == groups[a][0];
    if a == 0 {
      assert groups[..0] == [];
      forall c | c in s ensures level(c) <= v {
        var i :| 0 <= i < |s| && s[i] == c;
      }
      assert Higher(s, level, v) == {};
    } else {
      var u := level(groups[a-1][0]);
      RankOfRun(s, level, groups, a - 1);
      RunsFall(s, level, groups, a - 1);
      RunAt(s, level, groups, a - 1);
      HigherStep(s, level, groups, a, u, v);
    }
  }

  /** Where one run ends the next begins. */
  lemma RunEdge(s: seq<Candidate>, level: Candidate -> int, groups: seq<seq<Candidate>>, a: nat)
    requires AreRuns(s, level, groups) && 0 < a < |groups|
    ensures var mid := Offset(groups, a);
      0 < mid < |s| && level(s[mid-1]) == level(groups[a-1][0]) && level(s[mid]) == level(groups[a][0])
  {
    RunAt(s, level, groups, a - 1);
    RunAt(s, level, groups, a);
    var lo, mid := Offset(groups, a - 1), Offset(groups, a);
    assert s[mid] == groups[a][0];
    assert s[mid-1] == s[lo..mid][|groups[a-1]|-1] == groups[a-1][|groups[a-1]|-1];
  }

  lemma HigherStep(s: seq<Candidate>, level: Candidate -> int, groups: seq<seq<Candidate>>, a: nat, u: int, v: int)
    requires AreRuns(s, level, groups) && Falls(s, level) && 0 < a < |groups|
    requires u == level(groups[a-1][0]) > v == level(groups[a][0])
    ensures |Higher(s, level, v)| == |Higher(s, level, u)| + 1
  {
    hide AreRuns, Offset;
    RunEdge(s, level, groups, a);
    var mid := Offset(groups, a);
    forall c | c in s && level(c) > v ensures level(c) >= u {
      var i :| 0 <= i < |s| && s[i] == c;
      assert i < mid;
      assert i < mid - 1 ==> level(s[i]) >= level(s[mid-1]);
    }
    assert s[mid-1] in s;
    OneHigher(s, level, u, v, s[mid-1]);
  }

  /** When u is the next level above v, v has one more level above it than u. */
  lemma OneHigher(s: seq<Candidate>, level: Candidate -> int, u: int, v: int, at: Candidate)
    requires v < u && at in s && level(at) == u
    requires forall c :: c in s && level(c) > v ==> level(c) >= u
    ensures |Higher(s, level, v)| == |Higher(s, level, u)| + 1
  {
    assert u in Higher(s, level, v);
    assert Higher(s, level, v) == Higher(s, level, u) + {u};
    assert u !in Higher(s, level, u);
  }

  /** A run of a falling list: one level inside, a higher one just before, a lower one just after. */
  lemma RunBounds(s: seq<Candidate>, level: Candidate -> int, groups: seq<seq<Candidate>>, a: nat)
    requires AreRuns(s, level, groups) && Falls(s, level) && a < |groups|
    ensures var l, h := Offset(groups, a), Offset(groups, a + 1);
      && l < h <= |s| && s[l..h] == groups[a] && s[l] == groups[a][0]
      && (forall i :: l <= i < h ==> level(s[i]) == level(s[l]))
      && (h < |s| ==> level(s[h]) < level(s[l]))
      && (l > 0 ==> level(s[l-1]) > level(s[l]))
      && |Higher(s, level, level(s[l]))| == a
  {
    var l, h := Offset(groups, a), Offset(groups, a + 1);
    RunAt(s, level, groups, a);
    RankOfRun(s, level, groups, a);
    forall i | l <= i < h ensures level(s[i]) == level(s[l]) {
      assert s[i] == groups[a][i - l];
    }
    if a + 1 < |groups| {
      RunsFall(s, level, groups, a);
      RunAt(s, level, groups, a + 1);
      assert s[h] == groups[a+1][0];
    } else {
      assert groups[..a+1] == groups;
    }
    if a > 0 {
      RunsFall(s, level, groups, a - 1);
      RunAt(s, level, groups, a - 1);
      assert s[l-1] == groups[a-1][|groups[a-1]|-1];
    } else {
      assert groups[..0] == [];
    }
  }

  // ---------- picking from runs ----------

  lemma {:induction false} PickSplit(s: seq<Candidate>, major: LevelSelect, minor: LevelSelect, patch: LevelSelect, lo: nat, mid: nat, hi: nat)
    requires lo <= mid <= hi <= |s|
    ensures Pick(s, major, minor, patch, lo, hi) == Pick(s, major, minor, patch, lo, mid) + Pick(s, major, minor, patch, mid, hi)
    decreases hi - mid
  {
    if mid < hi {
      PickSplit(s, major, minor, patch, lo, mid, hi - 1);
    }
  }

  /** When exactly the first n entries of a stretch are selected, they are what Pick returns. */
  lemma {:induction false} PickPrefix(s: seq<Candidate>, major: LevelSelect, minor: LevelSelect, patch: LevelSelect, lo: nat, hi: nat, n: nat)
    requires lo + n <= hi <= |s|
    requires forall i :: lo <= i < hi ==> (IsSelected(s, major, minor, patch, i) <==> i < lo + n)
    ensures Pick(s, major, minor, patch, lo, hi) == s[lo..lo+n]
    decreases hi - lo
  {
    hide IsSelected;
    if lo < hi {
      assert Pick(s, major, minor, patch, lo, hi) == Pick(s, major, minor, patch, lo, hi - 1) + if IsSelected(s, major, minor, patch, hi - 1) then [s[hi-1]] else [];
      if n > 0 && lo + n == hi {
        PickPrefix(s, major, minor, patch, lo, hi - 1, n - 1);
        assert s[lo..lo+n] == s[lo..lo+n-1] + [s[hi-1]];
      } else {
        PickPrefix(s, major, minor, patch, lo, hi - 1, n);
      }
    }
  }

  function Major(c: Candidate): int { c.ver.major }

  function Minor(c: Candidate): int { c.ver.minor }

  function MajorKey(c: Candidate): int { Wrap64(c.ver.major) }

  function MinorKey(c: Candidate): int { Wrap64(c.ver.minor) }

  lemma SameRuns(s: seq<Candidate>, key: Candidate -> int, level: Candidate -> int, groups: seq<seq<Candidate>>)
    requires AreRuns(s, key, groups)
    requires forall c, d :: key(c) == key(d) <==> level(c) == level(d)
    ensures AreRuns(s, level, groups)
  {
    hide Flatten;
    forall g, h | 0 <= g && h == g + 1 && h < |groups| ensures level(groups[g][0]) != level(groups[h][0]) {
      assert key(groups[g][0]) != key(groups[h][0]);
    }
    forall g, k | 0 <= g < |groups| && 0 <= k < |groups[g]| ensures level(groups[g][k]) == level(groups[g][0]) {
      assert key(groups[g][k]) == key(groups[g][0]);
    }
  }

  /** The int64 keys separate the same runs as the unsigned numbers. */
  lemma KeysSeparate(s: seq<Candidate>, groups: seq<seq<Candidate>>)
    ensures AreRuns(s, MajorKey, groups) ==> AreRuns(s, Major, groups)
    ensures AreRuns(s, MinorKey, groups) ==> AreRuns(s, Minor, groups)
  {
    hide AreRuns;
    forall c, d ensures MajorKey(c) == MajorKey(d) <==> Major(c) == Major(d) { WrapInjective(c.ver.major, d.ver.major); }
    forall c, d ensures MinorKey(c) == MinorKey(d) <==> Minor(c) == Minor(d) { WrapInjective(c.ver.minor, d.ver.minor); }
    if AreRuns(s, MajorKey, groups) { SameRuns(s, MajorKey, Major, groups); }
    if AreRuns(s, MinorKey, groups) { SameRuns(s, MinorKey, Minor, groups); }
  }

  /** s[lo..hi] is the run of one major. */
  ghost predicate IsMajorRun(s: seq<Candidate>, lo: nat, hi: nat) {
    && lo < hi <= |s|
    && forall i :: 0 <= i < |s| ==> (s[i].ver.major == s[lo].ver.major <==> lo <= i < hi)
  }

  lemma MajorRun(s: seq<Candidate>, groups: seq<seq<Candidate>>, a: nat)
    requires LevelsDescend(s) && AreRuns(s, Major, groups) && a < |groups|
    ensures IsMajorRun(s, Offset(groups, a), Offset(groups, a + 1))
    ensures |HigherMajors(s, groups[a][0].ver.major)| == a
    ensures s[Offset(groups, a)] == groups[a][0]
  {
    hide AreRuns, Flatten;
    RunBounds(s, Major, groups, a);
    assert Higher(s, Major, Major(groups[a][0])) == HigherMajors(s, groups[a][0].ver.major);
    assert forall i :: 0 <= i < |s| ==> Major(s[i]) == s[i].ver.major;
  }

  lemma MinorRank(s: seq<Candidate>, lo: nat, hi: nat, i: nat)
    requires IsMajorRun(s, lo, hi) && lo <= i < hi
    ensures HigherMinors(s, s[i].ver.major, s[i].ver.minor) == Higher(s[lo..hi], Minor, s[i].ver.minor)
  {
    var g := s[lo..hi];
    forall c ensures c in g <==> c in s && c.ver.major == s[lo].ver.major {
      if c in s && c.ver.major == s[lo].ver.major {
        var k :| 0 <= k < |s| && s[k] == c;
        assert g[k - lo] == c;
      }
    }
  }

  lemma PeerRank(s: seq<Candidate>, lo: nat, hi: nat, i: nat)
    requires lo <= i < hi <= |s|
    requires forall j :: 0 <= j < |s| ==> (s[j].ver.major == s[lo].ver.major && s[j].ver.minor == s[lo].ver.minor <==> lo <= j < hi)
    ensures |EarlierPeers(s, i)| == i - lo
  {
    assert EarlierPeers(s, i) == Range(lo, i);
  }

  function Range(lo: nat, hi: nat): (r: set<nat>)
    requires lo <= hi
    ensures forall j: nat :: j in r <==> lo <= j < hi
    ensures |r| == hi - lo
    decreases hi - lo
  {
    if lo == hi then {} else Range(lo, hi - 1) + {hi - 1}
  }

  /** A level that keeps the first n of k ranks. */
  lemma KeepCountRanks(sel: LevelSelect, n: nat, rank: nat)
    requires rank < n
    ensures rank < KeepCount(sel, n) <==> KeepsRank(sel, rank)
  {
  }

  function KeepLevel(s: seq<Candidate>, sel: LevelSelect): seq<Candidate> {
    s[..KeepCount(sel, |s|)]
  }

  /** The entries of one minor run, lo..hi: the level keeps a prefix of them. */
  lemma PickPeers(s: seq<Candidate>, major: LevelSelect, minor: LevelSelect, patch: LevelSelect, lo: nat, hi: nat)
    requires lo < hi <= |s|
    requires forall j :: 0 <= j < |s| ==> (s[j].ver.major == s[lo].ver.major && s[j].ver.minor == s[lo].ver.minor <==> lo <= j < hi)
    requires KeepsRank(major, |HigherMajors(s, s[lo].ver.major)|)
    requires KeepsRank(minor, |HigherMinors(s, s[lo].ver.major, s[lo].ver.minor)|)
    ensures Pick(s, major, minor, patch, lo, hi) == KeepLevel(s[lo..hi], patch)
  {
    var n := KeepCount(patch, hi - lo);
    forall i | lo <= i < hi ensures IsSelected(s, major, minor, patch, i) <==> i < lo + n {
      PeerRank(s, lo, hi, i);
      KeepCountRanks(patch, hi - lo, i - lo);
    }
    PickPrefix(s, major, minor, patch, lo, hi, n);
    assert s[lo..hi][..n] == s[lo..lo+n];
  }

  /** A minor run inside a major run. */
  lemma MinorRun(s: seq<Candidate>, lo: nat, hi: nat, runs: seq<seq<Candidate>>, b: nat)
    requires LevelsDescend(s) && IsMajorRun(s, lo, hi)
    requires AreRuns(s[lo..hi], Minor, runs) && b < |runs|
    ensures var l, h := lo + Offset(runs, b), lo + Offset(runs, b + 1);
      && lo <= l < h <= hi && s[l..h] == runs[b]
      && |HigherMinors(s, s[l].ver.major, s[l].ver.minor)| == b
      && forall j :: 0 <= j < |s| ==> (s[j].ver.major == s[l].ver.major && s[j].ver.minor == s[l].ver.minor <==> l <= j < h)
  {
    hide AreRuns, Flatten, HigherMinors, Higher;
    var g := s[lo..hi];
    var l, h := Offset(runs, b), Offset(runs, b + 1);
    MinorsFall(s, lo, hi);
    RunBounds(g, Minor, runs, b);
    SliceOfSlice(s, lo, hi, l, h);
    assert g[l] == s[lo + l];
    MinorRank(s, lo, hi, lo + l);
    assert forall i :: 0 <= i < |g| ==> Minor(g[i]) == g[i].ver.minor;
    PeersOfRun(s, lo, hi, l, h);
  }

  lemma MinorsFall(s: seq<Candidate>, lo: nat, hi: nat)
    requires LevelsDescend(s) && IsMajorRun(s, lo, hi)
    ensures Falls(s[lo..hi], Minor)
  {
    forall i, j | 0 <= i < j < hi - lo ensures Minor(s[lo..hi][i]) >= Minor(s[lo..hi][j]) {
      assert s[lo..hi][i] == s[lo + i] && s[lo..hi][j] == s[lo + j];
    }
  }

  lemma SliceOfSlice(s: seq<Candidate>, lo: nat, hi: nat, l: nat, h: nat)
    requires lo <= hi <= |s| && l <= h <= hi - lo
    ensures s[lo..hi][l..h] == s[lo + l..lo + h]
  {
    var a, b := s[lo..hi][l..h], s[lo + l..lo + h];
    assert |a| == |b|;
    forall i | 0 <= i < |a| ensures a[i] == b[i] {
      assert s[lo..hi][l + i] == s[lo + l + i];
    }
    assert a == b;
  }

  lemma PeersOfRun(s: seq<Candidate>, lo: nat, hi: nat, l: nat, h: nat)
    requires LevelsDescend(s) && IsMajorRun(s, lo, hi) && l < h <= hi - lo
    requires forall i :: l <= i < h ==> s[lo..hi][i].ver.minor == s[lo..hi][l].ver.minor
    requires h < hi - lo ==> s[lo..hi][h].ver.minor < s[lo..hi][l].ver.minor
    requires l > 0 ==> s[lo..hi][l-1].ver.minor > s[lo..hi][l].ver.minor
    ensures forall j :: 0 <= j < |s| ==>
      (s[j].ver.major == s[lo + l].ver.major && s[j].ver.minor == s[lo + l].ver.minor <==> lo + l <= j < lo + h)
  {
    forall j | 0 <= j < |s|
      ensures s[j].ver.major == s[lo + l].ver.major && s[j].ver.minor == s[lo + l].ver.minor <==> lo + l <= j < lo + h
    {
      assert s[lo + l].ver.major == s[lo].ver.major;
      if lo <= j < hi {
        assert s[j] == s[lo..hi][j - lo];
        if j < lo + l && j < lo + l - 1 { assert s[j].ver.minor >= s[lo + l - 1].ver.minor; }
        if j > lo + h { assert s[lo + h].ver.minor >= s[j].ver.minor; }
      }
    }
  }

  /** The select block with its defaults: an omitted level keeps the latest only. */
  function Effective(sel: Option<SelectConfig>): (LevelSelect, LevelSelect, LevelSelect) {
    if sel.None? then (LATEST_ONLY, LATEST_ONLY, LATEST_ONLY)
    else (sel.value.major.GetOr(LATEST_ONLY), sel.value.minor.GetOr(LATEST_ONLY), sel.value.patch.GetOr(LATEST_ONLY))
  }

  function Selection(s: seq<Candidate>, sel: Option<SelectConfig>): seq<Candidate> {
    var (major, minor, patch) := Effective(sel);
    Pick(s, major, minor, patch, 0, |s|)
  }

  lemma {:induction false} FindRun(groups: seq<seq<Candidate>>, i: nat) returns (a: nat)
    requires i < |Flatten(groups)|
    ensures a < |groups| && Offset(groups, a) <= i < Offset(groups, a + 1)
    decreases |groups|
  {
    var n := |groups| - 1;
    assert groups[..n+1] == groups;
    if i >= Offset(groups, n) {
      a := n;
    } else {
      a := FindRun(groups[..n], i);
      assert groups[..n][..a] == groups[..a] && groups[..n][..a+1] == groups[..a+1];
    }
  }

  lemma {:induction false} OffsetsGrow(groups: seq<seq<Candidate>>, a: nat, b: nat)
    requires a <= b <= |groups|
    ensures Offset(groups, a) <= Offset(groups, b)
    decreases b - a
  {
    if a < b {
      OffsetsGrow(groups, a, b - 1);
      assert groups[..b][..b-1] == groups[..b-1];
    }
  }

  /** The majors beyond the kept ones contribute nothing. */
  lemma MajorsDropped(s: seq<Candidate>, groups: seq<seq<Candidate>>, major: LevelSelect, minor: LevelSelect, patch: LevelSelect)
    requires LevelsDescend(s) && AreRuns(s, Major, groups)
    ensures var n := KeepCount(major, |groups|);
      Offset(groups, n) <= |s| && Pick(s, major, minor, patch, 0, |s|) == Pick(s, major, minor, patch, 0, Offset(groups, n))
  {
    hide Pick, KeepsRank, LevelsDescend;
    var n := KeepCount(major, |groups|);
    FlattenPrefix(groups, n);
    var lo := Offset(groups, n);
    forall i | lo <= i < |s| ensures !IsSelected(s, major, minor, patch, i) {
      var a := FindRun(groups, i);
      if a < n { OffsetsGrow(groups, a + 1, n); }
      MajorRun(s, groups, a);
      KeepCountRanks(major, |groups|, a);
    }
    PickPrefix(s, major, minor, patch, lo, |s|, 0);
    PickSplit(s, major, minor, patch, 0, lo, |s|);
  }

  lemma MinorsDropped(s: seq<Candidate>, lo: nat, hi: nat, runs: seq<seq<Candidate>>, major: LevelSelect, minor: LevelSelect, patch: LevelSelect)
    requires LevelsDescend(s) && IsMajorRun(s, lo, hi) && AreRuns(s[lo..hi], Minor, runs)
    ensures var n := KeepCount(minor, |runs|);
      && lo + Offset(runs, n) <= hi
      && Pick(s, major, minor, patch, lo, hi) == Pick(s, major, minor, patch, lo, lo + Offset(runs, n))
  {
    hide Pick, KeepsRank, LevelsDescend;
    var n := KeepCount(minor, |runs|);
    FlattenPrefix(runs, n);
    var mid := lo + Offset(runs, n);
    forall i | mid <= i < hi ensures !IsSelected(s, major, minor, patch, i) {
      var b := FindRun(runs, i - lo);
      if b < n { OffsetsGrow(runs, b + 1, n); }
      MinorRun(s, lo, hi, runs, b);
      KeepCountRanks(minor, |runs|, b);
    }
    PickPrefix(s, major, minor, patch, mid, hi, 0);
    PickSplit(s, major, minor, patch, lo, mid, hi);
  }

  method SelectVersions(s: seq<Candidate>, sel: Option<SelectConfig>) returns (result: seq<Candidate>)
    requires LevelsDescend(s)
    ensures result == Selection(s, sel)
  {
    var majorSel, minorSel, patchSel := LATEST_ONLY, LATEST_ONLY, LATEST_ONLY;
    if sel.Some? {
      if sel.value.major.Some? { majorSel := sel.value.major.value; }
      if sel.value.minor.Some? { minorSel := sel.value.minor.value; }
      if sel.value.patch.Some? { patchSel := sel.value.patch.value; }
    }
    hide LevelsDescend, AreRuns, Pick, IsSelected, KeepsRank, Flatten, KeepLevel;
    result := [];
    var majorGroups, all := GroupByLevel(s, MajorKey, majorSel);
    KeysSeparate(s, all);
    StartOfRuns(s, all);
    for a := 0 to |majorGroups|
      invariant Offset(all, a) <= |s|
      invariant result == Pick(s, majorSel, minorSel, patchSel, 0, Offset(all, a))
    {
      ghost var lo, hi := Offset(all, a), Offset(all, a + 1);
      RunAt(s, Major, all, a);
      MajorRun(s, all, a);
      KeepCountRanks(majorSel, |all|, a);
      var more := SelectMinors(s, lo, hi, majorGroups[a], majorSel, minorSel, patchSel);
      PickSplit(s, majorSel, minorSel, patchSel, 0, lo, hi);
      result := result + more;
    }
    MajorsDropped(s, all, majorSel, minorSel, patchSel);
  }

  lemma StartOfRuns(s: seq<Candidate>, groups: seq<seq<Candidate>>)
    ensures Offset(groups, 0) == 0
    ensures forall a, b, c :: Pick(s, a, b, c, 0, 0) == []
  {
    assert groups[..0] == [];
  }

  /** The inner loop: one major run. */
  method SelectMinors(ghost s: seq<Candidate>, ghost lo: nat, ghost hi: nat, majorGroup: seq<Candidate>,
                      ghost majorSel: LevelSelect, minorSel: LevelSelect, patchSel: LevelSelect) returns (result: seq<Candidate>)
    requires LevelsDescend(s) && IsMajorRun(s, lo, hi) && majorGroup == s[lo..hi]
    requires KeepsRank(majorSel, |HigherMajors(s, s[lo].ver.major)|)
    ensures result == Pick(s, majorSel, minorSel, patchSel, lo, hi)
  {
    hide LevelsDescend, AreRuns, IsSelected, KeepsRank, Flatten, KeepLevel;
    var minorGroups, runs := GroupByLevel(majorGroup, MinorKey, minorSel);
    KeysSeparate(majorGroup, runs);
    StartOfRuns(s, runs);
    result := [];
    for b := 0 to |minorGroups|
      invariant lo + Offset(runs, b) <= hi
      invariant result == Pick(s, majorSel, minorSel, patchSel, lo, lo + Offset(runs, b))
    {
      MinorRun(s, lo, hi, runs, b);
      ghost var l, h := lo + Offset(runs, b), lo + Offset(runs, b + 1);
      KeepCountRanks(minorSel, |runs|, b);
      PickPeers(s, majorSel, minorSel, patchSel, l, h);
      PickSplit(s, majorSel, minorSel, patchSel, lo, l, h);
      result := result + KeepLevel(minorGroups[b], patchSel);
    }
    MinorsDropped(s, lo, hi, runs, majorSel, minorSel, patchSel);
  }
}

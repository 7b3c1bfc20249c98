/** Which tag every alias points to. */
module Aliases {
  import opened Wrappers
  import opened Ordering
  import opened SemanticTags
  import opened SemanticOrder

  datatype AliasCandidate = AliasCandidate(name: string, isPrerelease: bool)

  /** The version a candidate takes part with; prereleases and other tags take no part. */
  function VersionOf(c: AliasCandidate): Option<SemTag> {
    if c.isPrerelease then None
    else match NewSemanticVersion(c.name)
      case Failure(_) => None
      case Success(v) => Some(v)
  }

  /** Candidate i claims the alias: it is one of its lower variants. */
  predicate Claims(candidates: seq<AliasCandidate>, i: int, alias: string) {
    0 <= i < |candidates| && VersionOf(candidates[i]).Some? && alias in LowerVariants(VersionOf(candidates[i]).value)
  }

  /** i is the highest among the candidates that satisfy p, and the first of equally high ones. */
  ghost predicate IsFirstHighest(candidates: seq<AliasCandidate>, p: int -> bool, i: int) {
    && IsCandidate(candidates, i) && p(i)
    && forall j :: IsCandidate(candidates, j) && p(j) ==>
      if j < i then Compare(VersionOf(candidates[j]).value, VersionOf(candidates[i]).value) < 0
      else Compare(VersionOf(candidates[j]).value, VersionOf(candidates[i]).value) <= 0
  }

  predicate IsCandidate(candidates: seq<AliasCandidate>, i: int) {
    0 <= i < |candidates| && VersionOf(candidates[i]).Some?
  }

  /** One more candidate, later than all the others, wins only if it is strictly greater. */
  lemma Challenge(candidates: seq<AliasCandidate>, p: int -> bool, q: int -> bool, w: int, i: int)
    requires IsFirstHighest(candidates, p, w) && IsCandidate(candidates, i)
    requires forall j :: p(j) ==> j < i
    requires forall j :: q(j) <==> p(j) || j == i
    ensures var v := Compare(VersionOf(candidates[i]).value, VersionOf(candidates[w]).value);
      if v > 0 then IsFirstHighest(candidates, q, i) else IsFirstHighest(candidates, q, w)
  {
    hide Compare, VersionOf;
    var a, b := VersionOf(candidates[i]).value, VersionOf(candidates[w]).value;
    CompareAntisymmetric(a, b);
    forall j | IsCandidate(candidates, j) && p(j) && Compare(a, b) > 0
      ensures Compare(VersionOf(candidates[j]).value, a) < 0
    {
      AtMostTransitive(VersionOf(candidates[j]).value, b, a);
    }
    CompareSelf(a);
  }

  lemma CompareSelf(a: SemTag)
    ensures Compare(a, a) == 0
  {
    CompareByRanks(a, a);
    LessTrichotomy(a.build, a.build);
  }

  // ---------- ResolveAliasesFor ----------

  ghost function Claimants(candidates: seq<AliasCandidate>, alias: string): int -> bool {
    i => Claims(candidates, i, alias)
  }

  /** The alias map: a key for every claimed alias, pointing to its first highest claimant. */
  ghost predicate AreAliases(candidates: seq<AliasCandidate>, aliases: map<string, string>) {
    && (forall alias :: alias in aliases <==> exists i :: Claims(candidates, i, alias))
    && (forall alias :: alias in aliases ==> PointsToHighest(candidates, alias, aliases[alias]))
  }

  ghost predicate PointsToHighest(candidates: seq<AliasCandidate>, alias: string, target: string) {
    exists i :: IsFirstHighest(candidates, Claimants(candidates, alias), i) && target == candidates[i].name
  }

  /** The claims looked at so far: all of the candidates before i, and of candidate i those in done. */
  ghost function Considered(candidates: seq<AliasCandidate>, i: int, done: set<string>, alias: string): int -> bool {
    j => Claims(candidates, j, alias) && (j < i || (j == i && alias in done))
  }

  ghost predicate Progress(candidates: seq<AliasCandidate>, i: int, done: set<string>,
                           aliases: map<string, string>, versions: map<string, SemTag>) {
    && aliases.Keys == versions.Keys
    && (forall alias :: alias in aliases <==> exists j :: Considered(candidates, i, done, alias)(j))
    && (forall alias :: alias in aliases ==> IsLeader(candidates, i, done, alias, aliases[alias], versions[alias]))
  }

  ghost predicate IsLeader(candidates: seq<AliasCandidate>, i: int, done: set<string>, alias: string, target: string, version: SemTag) {
    exists w :: IsFirstHighest(candidates, Considered(candidates, i, done, alias), w)
      && target == candidates[w].name && VersionOf(candidates[w]) == Some(version)
  }

  method ResolveAliasesFor(candidates: seq<AliasCandidate>) returns (aliases: map<string, string>)
    ensures AreAliases(candidates, aliases)
  {
    hide *;
    aliases := map[];
    var aliasVersions: map<string, SemTag> := map[];
    NoProgress(candidates);
    for i := 0 to |candidates|
      invariant Progress(candidates, i, {}, aliases, aliasVersions)
    {
      var c := candidates[i];
      VersionDef(c);
      if c.isPrerelease {
        NotACandidate(candidates, i, aliases, aliasVersions);
        continue;
      }
      var parsed := NewSemanticVersion(c.name);
      if parsed.Failure? {
        NotACandidate(candidates, i, aliases, aliasVersions);
        continue;
      }
      var ver := parsed.value;
      var variants := LowerVariants(ver);
      assert Elems(variants[..0]) == {} by { PrefixEmpty(variants); }
      for k := 0 to |variants|
        invariant Progress(candidates, i, Elems(variants[..k]), aliases, aliasVersions)
      {
        var alias := variants[k];
        PrefixStep(variants, k);
        ClaimOne(candidates, i, Elems(variants[..k]), alias, aliases, aliasVersions);
        if alias !in aliasVersions || Compare(ver, aliasVersions[alias]) > 0 {
          aliases := aliases[alias := c.name];
          aliasVersions := aliasVersions[alias := ver];
        }
      }
      assert variants[..|variants|] == variants;
      AllClaimed(candidates, i, variants, aliases, aliasVersions);
    }
    AllConsidered(candidates, aliases, aliasVersions);
  }

  lemma PrefixEmpty(s: seq<string>)
    ensures Elems(s[..0]) == {}
  {
  }

  lemma VersionDef(c: AliasCandidate)
    ensures VersionOf(c) == if c.isPrerelease || NewSemanticVersion(c.name).Failure? then None else Some(NewSemanticVersion(c.name).value)
  {
  }

  lemma NoProgress(candidates: seq<AliasCandidate>)
    ensures Progress(candidates, 0, {}, map[], map[])
  {
  }

  /** Two ways to say which claims have been considered. */
  lemma SameProgress(candidates: seq<AliasCandidate>, i: int, done: set<string>, k: int, now: set<string>,
                     aliases: map<string, string>, versions: map<string, SemTag>)
    requires Progress(candidates, i, done, aliases, versions)
    requires forall alias, j :: Considered(candidates, i, done, alias)(j) <==> Considered(candidates, k, now, alias)(j)
    ensures Progress(candidates, k, now, aliases, versions)
  {
    hide Claims, Compare, VersionOf, Considered;
    forall alias | alias in aliases ensures IsLeader(candidates, k, now, alias, aliases[alias], versions[alias]) {
      var w :| IsFirstHighest(candidates, Considered(candidates, i, done, alias), w)
        && aliases[alias] == candidates[w].name && VersionOf(candidates[w]) == Some(versions[alias]);
      assert IsFirstHighest(candidates, Considered(candidates, k, now, alias), w);
    }
  }

  lemma NotACandidate(candidates: seq<AliasCandidate>, i: nat, aliases: map<string, string>, versions: map<string, SemTag>)
    requires i < |candidates| && VersionOf(candidates[i]).None?
    requires Progress(candidates, i, {}, aliases, versions)
    ensures Progress(candidates, i + 1, {}, aliases, versions)
  {
    hide Progress, VersionOf;
    SameProgress(candidates, i, {}, i + 1, {}, aliases, versions);
  }

  lemma AllClaimed(candidates: seq<AliasCandidate>, i: nat, variants: seq<string>, aliases: map<string, string>, versions: map<string, SemTag>)
    requires i < |candidates| && VersionOf(candidates[i]).Some? && variants == LowerVariants(VersionOf(candidates[i]).value)
    requires Progress(candidates, i, Elems(variants), aliases, versions)
    ensures Progress(candidates, i + 1, {}, aliases, versions)
  {
    hide Progress, VersionOf, LowerVariants;
    SameProgress(candidates, i, Elems(variants), i + 1, {}, aliases, versions);
  }

  lemma AllConsidered(candidates: seq<AliasCandidate>, aliases: map<string, string>, versions: map<string, SemTag>)
    requires Progress(candidates, |candidates|, {}, aliases, versions)
    ensures AreAliases(candidates, aliases)
  {
    hide Claims, Compare, VersionOf, IsFirstHighest;
    forall alias ensures alias in aliases <==> exists i :: Claims(candidates, i, alias) {
      AllAreConsidered(candidates, alias);
      var p := Considered(candidates, |candidates|, {}, alias);
      assert alias in aliases <==> exists j :: p(j);
      if j :| p(j) { assert Claims(candidates, j, alias); }
      if i :| Claims(candidates, i, alias) { assert p(i); }
    }
    forall alias | alias in aliases ensures PointsToHighest(candidates, alias, aliases[alias]) {
      LeaderWins(candidates, alias, aliases[alias], versions[alias]);
    }
  }

  lemma AllAreConsidered(candidates: seq<AliasCandidate>, alias: string)
    ensures forall i :: Considered(candidates, |candidates|, {}, alias)(i) <==> Claims(candidates, i, alias)
  {
  }

  lemma LeaderWins(candidates: seq<AliasCandidate>, alias: string, target: string, version: SemTag)
    requires IsLeader(candidates, |candidates|, {}, alias, target, version)
    ensures PointsToHighest(candidates, alias, target)
  {
    hide Claims, Compare, VersionOf, Considered;
    var w :| IsFirstHighest(candidates, Considered(candidates, |candidates|, {}, alias), w) && target == candidates[w].name;
    AllAreConsidered(candidates, alias);
    assert IsFirstHighest(candidates, Claimants(candidates, alias), w);
  }

  /** Candidate i claims one more alias. */
  lemma ClaimOne(candidates: seq<AliasCandidate>, i: nat, done: set<string>, alias: string, aliases: map<string, string>, versions: map<string, SemTag>)
    requires i < |candidates| && VersionOf(candidates[i]).Some? && alias in LowerVariants(VersionOf(candidates[i]).value)
    requires Progress(candidates, i, done, aliases, versions)
    ensures var ver := VersionOf(candidates[i]).value;
      && (alias in versions ==> alias in aliases)
      && (if alias !in versions || Compare(ver, versions[alias]) > 0
          then Progress(candidates, i, done + {alias}, aliases[alias := candidates[i].name], versions[alias := ver])
          else Progress(candidates, i, done + {alias}, aliases, versions))
  {
    hide Claims, Compare, VersionOf, LowerVariants, IsFirstHighest;
    var ver := VersionOf(candidates[i]).value;
    var now := done + {alias};
    forall a | a != alias ensures forall j :: Considered(candidates, i, done, a)(j) <==> Considered(candidates, i, now, a)(j) {}
    assert Considered(candidates, i, now, alias)(i) by { ClaimsDef(candidates, i, alias); }
    forall a, t, v | a != alias && IsLeader(candidates, i, done, a, t, v) ensures IsLeader(candidates, i, now, a, t, v) {
    }
    LeaderChallenged(candidates, i, done, alias, aliases, versions);
  }

  lemma ClaimsDef(candidates: seq<AliasCandidate>, i: nat, alias: string)
    requires i < |candidates| && VersionOf(candidates[i]).Some? && alias in LowerVariants(VersionOf(candidates[i]).value)
    ensures Claims(candidates, i, alias)
  {
  }

  lemma LeaderChallenged(candidates: seq<AliasCandidate>, i: nat, done: set<string>, alias: string, aliases: map<string, string>, versions: map<string, SemTag>)
    requires i < |candidates| && VersionOf(candidates[i]).Some? && Claims(candidates, i, alias)
    requires Progress(candidates, i, done, aliases, versions)
    ensures var ver, now := VersionOf(candidates[i]).value, done + {alias};
      if alias !in versions || Compare(ver, versions[alias]) > 0 then IsLeader(candidates, i, now, alias, candidates[i].name, ver)
      else IsLeader(candidates, i, now, alias, aliases[alias], versions[alias])
  {
    hide Claims, Compare, VersionOf;
    var ver, now := VersionOf(candidates[i]).value, done + {alias};
    var p, q := Considered(candidates, i, done, alias), Considered(candidates, i, now, alias);
    if alias !in versions {
      CompareSelf(ver);
      forall j ensures q(j) <==> j == i {
        assert !p(j);
      }
      assert IsFirstHighest(candidates, q, i);
    } else {
      var w :| IsFirstHighest(candidates, p, w) && aliases[alias] == candidates[w].name && VersionOf(candidates[w]) == Some(versions[alias]);
      if alias in done {
        assert forall j :: p(j) <==> q(j);
      } else {
        Challenge(candidates, p, q, w, i);
      }
    }
  }

  // ---------- ResolveLatestAliasFor ----------

  datatype LatestError = NoSemanticTags(latestAlias: string)

  ghost function Before(candidates: seq<AliasCandidate>, n: int): int -> bool {
    i => IsCandidate(candidates, i) && i < n
  }

  /** target is the first highest candidate before n; there is none only if no candidate takes part. */
  ghost predicate IsLatest(candidates: seq<AliasCandidate>, n: int, highest: Option<SemTag>, target: string) {
    match highest
    case None => target == "" && forall i :: !Before(candidates, n)(i)
    case Some(v) => exists w :: IsFirstHighest(candidates, Before(candidates, n), w) && target == candidates[w].name && VersionOf(candidates[w]) == highest
  }

  lemma LatestStep(candidates: seq<AliasCandidate>, n: nat, highest: Option<SemTag>, target: string)
    requires n < |candidates| && IsLatest(candidates, n, highest, target)
    ensures match VersionOf(candidates[n])
      case None => IsLatest(candidates, n + 1, highest, target)
      case Some(v) => if highest.None? || Compare(v, highest.value) > 0
        then IsLatest(candidates, n + 1, Some(v), candidates[n].name) else IsLatest(candidates, n + 1, highest, target)
  {
    hide Compare, VersionOf;
    var p, q := Before(candidates, n), Before(candidates, n + 1);
    if VersionOf(candidates[n]).None? {
      assert forall j :: p(j) <==> q(j);
      if highest.Some? {
        var w :| IsFirstHighest(candidates, p, w) && target == candidates[w].name && VersionOf(candidates[w]) == highest;
        assert IsFirstHighest(candidates, q, w);
      }
    } else {
      CompareSelf(VersionOf(candidates[n]).value);
      if highest.None? {
        forall j ensures q(j) <==> j == n { assert !p(j); }
        assert IsFirstHighest(candidates, q, n);
      } else {
        var w :| IsFirstHighest(candidates, p, w) && target == candidates[w].name && VersionOf(candidates[w]) == highest;
        Challenge(candidates, p, q, w, n);
      }
    }
  }

  lemma LatestStart(candidates: seq<AliasCandidate>)
    ensures IsLatest(candidates, 0, None, "")
  {
    forall i ensures !Before(candidates, 0)(i) {}
  }

  /** The latest alias points to the highest version; with an alias set and no version it is an error. */
  method ResolveLatestAliasFor(candidates: seq<AliasCandidate>, latestAlias: string) returns (r: Result<string, LatestError>)
    ensures latestAlias == "" ==> r == Success("")
    ensures latestAlias != "" ==> (r.Success? <==> exists i :: IsCandidate(candidates, i))
    ensures latestAlias != "" && r.Success? ==>
      exists w :: IsFirstHighest(candidates, Before(candidates, |candidates|), w) && r.value == candidates[w].name
    ensures r.Failure? ==> r.error == NoSemanticTags(latestAlias)
  {
    if latestAlias == "" {
      return Success("");
    }
    hide *;
    var highest: Option<SemTag> := None;
    var highestTag := "";
    LatestStart(candidates);
    for i := 0 to |candidates|
      invariant IsLatest(candidates, i, highest, highestTag)
    {
      var c := candidates[i];
      LatestStep(candidates, i, highest, highestTag);
      VersionDef(c);
      if c.isPrerelease {
        continue;
      }
      var ver := NewSemanticVersion(c.name);
      if ver.Failure? {
        continue;
      }
      if highest.None? || Compare(ver.value, highest.value) > 0 {
        highest := Some(ver.value);
        highestTag := c.name;
      }
    }
    if highestTag == "" {
      NamedCandidates(candidates, highest);
      return Failure(NoSemanticTags(latestAlias));
    }
    return Success(highestTag);
  }

  /** An empty name is no version, so an empty target means there is no candidate. */
  lemma NamedCandidates(candidates: seq<AliasCandidate>, highest: Option<SemTag>)
    requires IsLatest(candidates, |candidates|, highest, "")
    ensures forall i :: !IsCandidate(candidates, i)
  {
    hide Compare;
    if highest.Some? {
      var w :| IsFirstHighest(candidates, Before(candidates, |candidates|), w) && "" == candidates[w].name && VersionOf(candidates[w]) == highest;
      EmptyNameFails();
    } else {
      forall i ensures !IsCandidate(candidates, i) { assert !Before(candidates, |candidates|)(i); }
    }
  }

  lemma EmptyNameFails()
    ensures NewSemanticVersion("").Failure?
  {
  }

  // ---------- what an alias means for its target ----------

  /** An alias of a target without metadata is read as a version below it with its prefix and suffix. */
  lemma AliasBelowTarget(candidates: seq<AliasCandidate>, i: int, alias: string)
    requires Claims(candidates, i, alias) && !HasPlus(candidates[i].name)
    ensures NewSemanticVersion(alias).Success?
    ensures IsLower(NewSemanticVersion(alias).value, VersionOf(candidates[i]).value)
  {
    hide Compare, TakeDot, TakeSuffix, TakeMetadata, TrimSpace;
    var v := VersionOf(candidates[i]).value;
    var name := candidates[i].name;
    assert NewSemanticVersion(name) == Success(v);
    var t := TrimSpace(name);
    PlusIsMetadata(t);
    MatchSound(t);
    var k :| 0 <= k < |LowerVariants(v)| && LowerVariants(v)[k] == alias;
    LowerVariantsAreLess(v, k);
  }
}

/**
  The store of per-repository dependency summaries: for each repository, how many of its files
  have internal dependencies, which external packages it imports (optionally narrowed to the
  organisation's own packages) and which cross-repository dependencies were found. Reading and
  writing the JSON file behind it is not modelled; the store starts empty, as it does when the
  file does not exist.
 */
module DependencyStorage {
  import opened Base
  import opened Strings
  import opened Sorting
  import opened PyDict
  import opened DependencyAnalysis

  /** The entry stored for one repository. */
  datatype RepoDeps = RepoDeps(
    internalCount: int,
    externalPackages: seq<string>,
    crossRepoDeps: seq<CrossDependency>)

  /** The statistics `get_stats` reports. */
  datatype StorageStats = StorageStats(
    totalReposWithDeps: int,
    totalCrossRepoDeps: int,
    totalUniquePackages: int,
    uniquePackages: seq<string>)

  // ---------------------------------------------------------------- organisation packages

  /** The test of one prefix against a lower-cased package: a leading match or any occurrence. */
  predicate PrefixMatch(packageLower: string, prefix: string) {
    var prefixLower := Lower(prefix);
    prefixLower <= packageLower || Contains(packageLower, prefixLower)
  }

  /** The package belongs to the organisation: some prefix matches it. */
  predicate OrgPackage(prefixes: seq<string>, package: string) {
    exists k | 0 <= k < |prefixes| :: PrefixMatch(Lower(package), prefixes[k])
  }

  /** The packages `_filter_org_packages` keeps, in their original order. */
  function OrgPackages(prefixes: seq<string>, packages: seq<string>): (r: seq<string>)
    ensures |r| <= |packages|
  {
    Filter((p: string) => OrgPackage(prefixes, p), packages)
  }

  /** The leading-match test adds nothing: a package belongs to the organisation exactly when its
      lower-case form contains the lower-case form of some prefix. */
  lemma OrgPackageIsContainment(prefixes: seq<string>, package: string)
    ensures OrgPackage(prefixes, package)
      <==> exists k | 0 <= k < |prefixes| :: Contains(Lower(package), Lower(prefixes[k]))
  {
    forall k | 0 <= k < |prefixes| && Lower(prefixes[k]) <= Lower(package)
      ensures Contains(Lower(package), Lower(prefixes[k]))
    {
      PrefixContained(Lower(package), Lower(prefixes[k]));
    }
  }

  /** Exactly the organisation's packages are kept, and only packages of the input. */
  lemma OrgPackagesMembers(prefixes: seq<string>, packages: seq<string>, p: string)
    ensures p in OrgPackages(prefixes, packages)
      <==> p in packages && exists k | 0 <= k < |prefixes| :: Contains(Lower(p), Lower(prefixes[k]))
  {
    OrgPackageIsContainment(prefixes, p);
  }

  /** With no prefix configured, no package would be kept; this is why `save_repo_dependencies`
      filters only when prefixes are configured. */
  lemma {:induction false} NoPrefixesKeepNothing(packages: seq<string>)
    ensures OrgPackages([], packages) == []
  {
    if |packages| > 0 {
      NoPrefixesKeepNothing(packages[..|packages| - 1]);
    }
  }

  /** `_filter_org_packages`: for each package, try the prefixes in order and stop at the first
      that matches. */
  method FilterOrgPackages(prefixes: seq<string>, packages: seq<string>) returns (org: seq<string>)
    ensures org == OrgPackages(prefixes, packages)
  {
    org := [];
    for i := 0 to |packages|
      invariant org == OrgPackages(prefixes, packages[..i])
    {
      var packageLower := Lower(packages[i]);
      var matched := false;
      var k := 0;
      while k < |prefixes| && !matched
        invariant 0 <= k <= |prefixes|
        invariant matched <==> exists j | 0 <= j < k :: PrefixMatch(packageLower, prefixes[j])
      {
        if PrefixMatch(packageLower, prefixes[k]) {
          matched := true;
        }
        k := k + 1;
      }
      FilterSnoc((p: string) => OrgPackage(prefixes, p), packages, i);
      if matched {
        org := org + [packages[i]];
      }
    }
    assert packages[..|packages|] == packages;
  }

  // ---------------------------------------------------------------- matching packages to repositories

  /** The lower-cased package with every lower-cased organisation prefix deleted, prefix by prefix. */
  function WithoutPrefixes(s: string, prefixes: seq<string>): string {
    if |prefixes| == 0 then s
    else Replace(WithoutPrefixes(s, prefixes[..|prefixes| - 1]), Lower(prefixes[|prefixes| - 1]), "")
  }

  /** The package as `_repos_match` compares it. */
  function NormalizedPackage(prefixes: seq<string>, package: string): string {
    Replace(Replace(Replace(Replace(WithoutPrefixes(Lower(package), prefixes), "@", ""), "/", ""), "-", ""), "_", "")
  }

  /** The repository name as `_repos_match` compares it. */
  function NormalizedRepo(repoName: string): string {
    Replace(Replace(Lower(repoName), "-", ""), "_", "")
  }

  /** One normalised name occurs in the other. */
  predicate ReposMatchSpec(prefixes: seq<string>, package: string, repoName: string) {
    var p := NormalizedPackage(prefixes, package);
    var r := NormalizedRepo(repoName);
    Contains(r, p) || Contains(p, r)
  }

  /** `_repos_match`: delete the prefixes one after another, then the separators, and compare. */
  method ReposMatch(prefixes: seq<string>, package: string, repoName: string) returns (b: bool)
    ensures b <==> ReposMatchSpec(prefixes, package, repoName)
  {
    var packageLower := Lower(package);
    for i := 0 to |prefixes|
      invariant packageLower == WithoutPrefixes(Lower(package), prefixes[..i])
    {
      assert prefixes[..i + 1][..i] == prefixes[..i];
      packageLower := Replace(packageLower, Lower(prefixes[i]), "");
    }
    assert prefixes[..|prefixes|] == prefixes;
    packageLower := Replace(Replace(Replace(Replace(packageLower, "@", ""), "/", ""), "-", ""), "_", "");
    var repoLower := Replace(Replace(Lower(repoName), "-", ""), "_", "");
    b := Contains(repoLower, packageLower) || Contains(packageLower, repoLower);
  }

  /** Deleting a pattern keeps only characters of the input. */
  lemma {:induction false} DeleteKeepsChars(s: string, pat: string, c: char)
    requires c in Replace(s, pat, "")
    ensures c in s
    decreases |s|
  {
    if |pat| > 0 && |s| > 0 {
      if pat <= s {
        assert Replace(s, pat, "") == Replace(s[|pat|..], pat, "");
        DeleteKeepsChars(s[|pat|..], pat, c);
        assert s == s[..|pat|] + s[|pat|..];
      } else {
        assert Replace(s, pat, "") == [s[0]] + Replace(s[1..], pat, "");
        if c != s[0] {
          DeleteKeepsChars(s[1..], pat, c);
          assert s == [s[0]] + s[1..];
        }
      }
    }
  }

  /** Deleting a single character leaves none of it. */
  lemma DeleteCharGone(s: string, c: char)
    ensures c !in Replace(s, [c], "")
  {
    ReplaceCharIsWithout(s, c);
  }

  /** Lower-case strings stay lower-case however many prefixes are deleted. */
  lemma {:induction false} WithoutPrefixesKeepsChars(s: string, prefixes: seq<string>, c: char)
    requires c in WithoutPrefixes(s, prefixes)
    ensures c in s
    decreases |prefixes|
  {
    if |prefixes| > 0 {
      var init := prefixes[..|prefixes| - 1];
      DeleteKeepsChars(WithoutPrefixes(s, init), Lower(prefixes[|prefixes| - 1]), c);
      WithoutPrefixesKeepsChars(s, init, c);
    }
  }

  /** The normalised package holds no upper-case ASCII letter and none of `@`, `/`, `-`, `_`. */
  lemma NormalizedPackageClean(prefixes: seq<string>, package: string, c: char)
    requires c in NormalizedPackage(prefixes, package)
    ensures !('A' <= c <= 'Z') && c != '@' && c != '/' && c != '-' && c != '_'
  {
    var s0 := WithoutPrefixes(Lower(package), prefixes);
    var s1 := Replace(s0, "@", "");
    var s2 := Replace(s1, "/", "");
    var s3 := Replace(s2, "-", "");
    assert NormalizedPackage(prefixes, package) == Replace(s3, "_", "");
    DeleteKeepsChars(s3, "_", c);
    DeleteKeepsChars(s2, "-", c);
    DeleteKeepsChars(s1, "/", c);
    DeleteKeepsChars(s0, "@", c);
    WithoutPrefixesKeepsChars(Lower(package), prefixes, c);
    DeleteCharGone(s3, '_');
    DeleteCharGone(s2, '-');
    DeleteCharGone(s1, '/');
    DeleteCharGone(s0, '@');
    assert "_" == ['_'] && "-" == ['-'] && "/" == ['/'] && "@" == ['@'];
    var k :| 0 <= k < |Lower(package)| && Lower(package)[k] == c;
  }

  /** The normalised repository name holds no upper-case ASCII letter and neither `-` nor `_`. */
  lemma NormalizedRepoClean(repoName: string, c: char)
    requires c in NormalizedRepo(repoName)
    ensures !('A' <= c <= 'Z') && c != '-' && c != '_'
  {
    var s1 := Replace(Lower(repoName), "-", "");
    DeleteKeepsChars(s1, "_", c);
    DeleteKeepsChars(Lower(repoName), "-", c);
    DeleteCharGone(s1, '_');
    DeleteCharGone(Lower(repoName), '-');
    assert "_" == ['_'] && "-" == ['-'];
    var k :| 0 <= k < |Lower(repoName)| && Lower(repoName)[k] == c;
  }

  /** Deleting a character that does not occur changes nothing. */
  lemma DeleteAbsentChar(s: string, c: char)
    requires c !in s
    ensures Replace(s, [c], "") == s
  {
    AbsentCharNotContained(s, [c], c);
    ReplaceAbsent(s, [c], "");
  }

  /** With no organisation prefixes, a package named exactly like a repository, with no `@` or `/`
      in it, matches that repository. */
  lemma SameNameMatches(name: string)
    requires '@' !in name && '/' !in name
    ensures ReposMatchSpec([], name, name)
  {
    var l := Lower(name);
    assert "@" == ['@'] && "/" == ['/'];
    DeleteAbsentChar(l, '@');
    DeleteAbsentChar(l, '/');
    assert NormalizedPackage([], name) == NormalizedRepo(name);
    PrefixContained(NormalizedRepo(name), NormalizedRepo(name));
  }

  /** `any(self._repos_match(package, repo) for repo in indexed_repos)`. */
  method MatchesAnyRepo(prefixes: seq<string>, package: string, indexedRepos: set<string>)
    returns (isIndexed: bool)
    ensures isIndexed <==> exists r :: r in indexedRepos && ReposMatchSpec(prefixes, package, r)
  {
    isIndexed := false;
    var rest := indexedRepos;
    while rest != {} && !isIndexed
      invariant rest <= indexedRepos
      invariant isIndexed ==> exists r :: r in indexedRepos && ReposMatchSpec(prefixes, package, r)
      invariant !isIndexed ==> forall r | r in indexedRepos - rest :: !ReposMatchSpec(prefixes, package, r)
      decreases |rest|
    {
      var repo :| repo in rest;
      isIndexed := ReposMatch(prefixes, package, repo);
      rest := rest - {repo};
    }
  }

  // ---------------------------------------------------------------- reading the stored entries

  /** The cross-repository dependencies of the entries, one entry's list after another. */
  function CrossOf(entries: seq<RepoDeps>): seq<CrossDependency> {
    if |entries| == 0 then []
    else CrossOf(entries[..|entries| - 1]) + entries[|entries| - 1].crossRepoDeps
  }

  /** The concatenation has every entry's dependencies and nothing else. */
  lemma {:induction false} CrossOfMembers(entries: seq<RepoDeps>, c: CrossDependency)
    ensures c in CrossOf(entries) <==> exists i | 0 <= i < |entries| :: c in entries[i].crossRepoDeps
  {
    if |entries| > 0 {
      var init := entries[..|entries| - 1];
      CrossOfMembers(init, c);
      if c in CrossOf(init) {
        var i :| 0 <= i < |init| && c in init[i].crossRepoDeps;
        assert entries[i] == init[i];
      }
      if exists i | 0 <= i < |entries| :: c in entries[i].crossRepoDeps {
        var i :| 0 <= i < |entries| && c in entries[i].crossRepoDeps;
        if i < |init| {
          assert init[i] == entries[i];
        }
      }
    }
  }

  /** The concatenation is as long as all the lists together. */
  function TotalCross(entries: seq<RepoDeps>): int {
    if |entries| == 0 then 0
    else TotalCross(entries[..|entries| - 1]) + |entries[|entries| - 1].crossRepoDeps|
  }

  lemma {:induction false} CrossOfLength(entries: seq<RepoDeps>)
    ensures |CrossOf(entries)| == TotalCross(entries)
  {
    if |entries| > 0 {
      CrossOfLength(entries[..|entries| - 1]);
    }
  }

  /** The loop of `get_all_cross_repo_dependencies` over the stored entries. */
  method ConcatCross(entries: seq<RepoDeps>) returns (all: seq<CrossDependency>)
    ensures all == CrossOf(entries)
  {
    all := [];
    for i := 0 to |entries|
      invariant all == CrossOf(entries[..i])
    {
      assert entries[..i + 1][..i] == entries[..i];
      all := all + entries[i].crossRepoDeps;
    }
    assert entries[..|entries|] == entries;
  }

  /** Some entry lists the package among its external packages. */
  predicate StoredIn(entries: seq<RepoDeps>, p: string) {
    exists i | 0 <= i < |entries| :: p in entries[i].externalPackages
  }

  /** The loop that gathers `all_packages` from the stored entries. */
  method StoredPackages(entries: seq<RepoDeps>) returns (all: set<string>)
    ensures forall p :: p in all <==> StoredIn(entries, p)
  {
    all := {};
    for i := 0 to |entries|
      invariant forall p :: p in all <==> StoredIn(entries[..i], p)
    {
      ghost var before := all;
      all := all + set p | p in entries[i].externalPackages;
      forall p ensures p in all <==> StoredIn(entries[..i + 1], p) {
        if StoredIn(entries[..i + 1], p) {
          var j :| 0 <= j < i + 1 && p in entries[..i + 1][j].externalPackages;
          if j < i {
            assert entries[..i][j] == entries[..i + 1][j];
          }
        }
        if p in before {
          var j :| 0 <= j < i && p in entries[..i][j].externalPackages;
          assert entries[..i + 1][j] == entries[..i][j];
        } else if p in all {
          assert entries[..i + 1][i] == entries[i];
        }
      }
    }
    assert entries[..|entries|] == entries;
  }

  /** The loop of `suggest_missing_repos` that keeps the packages matching no indexed repository. */
  method Unmatched(prefixes: seq<string>, all: set<string>, indexedRepos: set<string>)
    returns (suggestions: set<string>)
    ensures forall p :: p in suggestions <==>
      p in all && forall r | r in indexedRepos :: !ReposMatchSpec(prefixes, p, r)
  {
    suggestions := {};
    var rest := all;
    while rest != {}
      invariant rest <= all
      invariant forall p :: p in suggestions <==>
        p in all - rest && forall r | r in indexedRepos :: !ReposMatchSpec(prefixes, p, r)
      decreases |rest|
    {
      var package :| package in rest;
      var isIndexed := MatchesAnyRepo(prefixes, package, indexedRepos);
      if !isIndexed {
        suggestions := suggestions + {package};
      }
      rest := rest - {package};
    }
  }

  // ---------------------------------------------------------------- the store

  class DependencyStorage {
    /** `org_prefixes or []`. */
    const orgPrefixes: seq<string>
    var dependencies: Dict<string, RepoDeps>

    ghost predicate Valid()
      reads this
    {
      dependencies.Valid()
    }

    /** A store with the given prefixes and no entries. */
    constructor (orgPrefixes: Option<seq<string>>)
      ensures Valid()
      ensures this.orgPrefixes == (if orgPrefixes.Some? then orgPrefixes.value else [])
      ensures dependencies == EmptyDict()
    {
      this.orgPrefixes := if orgPrefixes.Some? then orgPrefixes.value else [];
      dependencies := EmptyDict();
    }

    /** The entry `save_repo_dependencies` stores. */
    function EntryFor(internalDeps: map<string, seq<string>>, externalPackages: seq<string>,
                      crossRepoDeps: seq<CrossDependency>): (e: RepoDeps)
      reads this
      ensures e.internalCount == |internalDeps| && e.crossRepoDeps == crossRepoDeps
      ensures |orgPrefixes| == 0 ==> e.externalPackages == externalPackages
      ensures |orgPrefixes| > 0 ==> e.externalPackages == OrgPackages(orgPrefixes, externalPackages)
    {
      RepoDeps(
        |internalDeps|,
        if |orgPrefixes| > 0 then OrgPackages(orgPrefixes, externalPackages) else externalPackages,
        crossRepoDeps)
    }

    /** `save_repo_dependencies`: replaces that repository's entry and no other. */
    method SaveRepoDependencies(repoName: string, internalDeps: map<string, seq<string>>,
                                externalPackages: seq<string>, crossRepoDeps: seq<CrossDependency>)
      requires Valid()
      modifies this
      ensures Valid()
      ensures dependencies == old(dependencies).Put(repoName, EntryFor(internalDeps, externalPackages, crossRepoDeps))
    {
      var filtered := externalPackages;
      if |orgPrefixes| > 0 {
        filtered := FilterOrgPackages(orgPrefixes, externalPackages);
      }
      dependencies := dependencies.Put(repoName, RepoDeps(|internalDeps|, filtered, crossRepoDeps));
    }

    /** `get_repo_dependencies`: the entry, or nothing for an unknown repository. */
    function GetRepoDependencies(repoName: string): (r: Option<RepoDeps>)
      reads this
      ensures r.None? <==> repoName !in dependencies.entries
      ensures r.Some? ==> r.value == dependencies.entries[repoName]
    {
      dependencies.Get(repoName)
    }

    /** `get_external_packages`: the stored packages, or none for an unknown repository. */
    function GetExternalPackages(repoName: string): (r: seq<string>)
      reads this
      ensures repoName !in dependencies.entries ==> r == []
      ensures repoName in dependencies.entries ==> r == dependencies.entries[repoName].externalPackages
    {
      if repoName in dependencies.entries then dependencies.entries[repoName].externalPackages else []
    }

    /** `get_all_cross_repo_dependencies`: every entry's list, in insertion order. */
    method GetAllCrossRepoDependencies() returns (all: seq<CrossDependency>)
      requires Valid()
      ensures all == CrossOf(dependencies.Values())
    {
      all := ConcatCross(dependencies.Values());
    }

    /** `suggest_missing_repos`: the stored packages that match no indexed repository, sorted. */
    method SuggestMissingRepos(indexedRepos: set<string>) returns (suggestions: seq<string>)
      requires Valid()
      ensures StrictlySorted(suggestions)
      ensures forall p :: p in suggestions <==>
        StoredIn(dependencies.Values(), p)
        && forall r | r in indexedRepos :: !ReposMatchSpec(orgPrefixes, p, r)
    {
      var all := StoredPackages(dependencies.Values());
      var picked := Unmatched(orgPrefixes, all, indexedRepos);
      suggestions := SortSet(picked);
    }

    /** `get_stats`. */
    method GetStats() returns (stats: StorageStats)
      requires Valid()
      ensures stats.totalReposWithDeps == |dependencies.keys|
      ensures stats.totalCrossRepoDeps == TotalCross(dependencies.Values())
      ensures stats.totalUniquePackages == |stats.uniquePackages|
      ensures StrictlySorted(stats.uniquePackages)
      ensures forall p :: p in stats.uniquePackages <==> StoredIn(dependencies.Values(), p)
    {
      var cross := GetAllCrossRepoDependencies();
      CrossOfLength(dependencies.Values());
      var all := StoredPackages(dependencies.Values());
      var unique := SortSet(all);
      stats := StorageStats(|dependencies.keys|, |cross|, |unique|, unique);
    }
  }
}

/**
  Dependency analysis within one repository and across repositories: every import of every
  added file becomes a `Dependency`; external imports are reduced to package names, internal
  ones are resolved to an added file whose path contains the import path.
 */
module DependencyAnalysis {
  import opened Base
  import opened Strings
  import opened Sorting
  import opened PyDict
  import opened Parser

  datatype Dependency = Dependency(
    sourceFile: string, targetModule: string, isExternal: bool, importType: string, symbols: seq<string>)

  /**
    `DependencyGraph`: the dependencies in order; file -> resolved files (a dict in the order of
    first resolution); file -> external packages; every external package.
   */
  datatype DependencyGraph = DependencyGraph(
    dependencies: seq<Dependency>,
    internalDeps: Dict<string, seq<string>>,
    externalDeps: map<string, set<string>>,
    externalPackages: set<string>)

  // ---------------------------------------------------------------- graph queries

  /** Sources of the internal dependencies on `path`, in dependency order. */
  function DependentsOf(deps: seq<Dependency>, path: string): (r: seq<string>)
    ensures forall x :: x in r <==> exists d | d in deps :: !d.isExternal && d.targetModule == path && d.sourceFile == x
  {
    if |deps| == 0 then []
    else
      var init := deps[..|deps| - 1];
      var d := deps[|deps| - 1];
      assert forall e | e in deps :: e in init || e == d;
      DependentsOf(init, path) + (if !d.isExternal && d.targetModule == path then [d.sourceFile] else [])
  }

  /** `DependencyGraph.get_dependents`. */
  method GetDependents(g: DependencyGraph, path: string) returns (dependents: seq<string>)
    ensures dependents == DependentsOf(g.dependencies, path)
  {
    dependents := [];
    for i := 0 to |g.dependencies|
      invariant dependents == DependentsOf(g.dependencies[..i], path)
    {
      var dep := g.dependencies[i];
      assert g.dependencies[..i + 1][..i] == g.dependencies[..i];
      if !dep.isExternal && dep.targetModule == path {
        dependents := dependents + [dep.sourceFile];
      }
    }
    assert g.dependencies[..|g.dependencies|] == g.dependencies;
  }

  /** `DependencyGraph.get_dependencies`: the resolved files of `path`, none for a file without any. */
  function GetDependencies(g: DependencyGraph, path: string): (r: seq<string>)
    ensures path !in g.internalDeps.entries ==> r == []
    ensures path in g.internalDeps.entries ==> r == g.internalDeps.entries[path]
  {
    match g.internalDeps.Get(path)
    case Some(files) => files
    case None => []
  }

  // ---------------------------------------------------------------- per-import helpers

  const ImportTypeLanguages: set<string> := {"python", "javascript", "typescript", "ruby", "go"}

  /** `_detect_import_type`: a five-entry table, `"unknown"` for any other language tag. */
  function DetectImportType(language: string): (t: string)
    ensures t == "unknown" <==> language !in ImportTypeLanguages
    ensures language == "ruby" ==> t == "require"
    ensures language == "javascript" ==> t == "require/import"
    ensures language in {"python", "typescript", "go"} ==> t == "import"
  {
    if language == "python" then "import"
    else if language == "javascript" then "require/import"
    else if language == "typescript" then "import"
    else if language == "ruby" then "require"
    else if language == "go" then "import"
    else "unknown"
  }

  /** TSX files are tagged `"tsx"`, which the table lacks. */
  lemma TsxImportTypeUnknown()
    ensures DetectImportType(LanguageValue(Tsx)) == "unknown"
  {
  }

  /** `_extract_package_name`. */
  function PackageName(m: string): (r: string)
    ensures !("@" <= m) ==> r <= m && !Contains(r, "/")
  {
    if "@" <= m then
      var parts := Split(m, "/");
      if |parts| >= 2 then parts[0] + "/" + parts[1] else m
    else
      SplitFirstIsPrefix(m, "/");
      SplitFirstHasNoSeparator(m, "/");
      Split(m, "/")[0]
  }

  lemma SlashBorderFree()
    ensures BorderFree("/")
  {
    BorderFreeByFirstChar("/");
  }

  /** A plain package path keeps its first segment. */
  lemma PlainPackageName(a: string, rest: string)
    requires '/' !in a && !("@" <= a)
    ensures PackageName(a) == a
    ensures PackageName(a + "/" + rest) == a
  {
    AbsentCharNotContained(a, "/", '/');
    SplitAbsent(a, "/");
    SlashBorderFree();
    SplitAfterFirst(a, "/", rest);
    assert !("@" <= a + "/" + rest) by {
      if |a| > 0 {
        assert (a + "/" + rest)[0] == a[0];
      }
    }
  }

  /** A scoped package path `@scope/name[/...]` keeps its first two segments. */
  lemma ScopedPackageName(scope: string, name: string, rest: string)
    requires '/' !in scope && '/' !in name
    ensures PackageName("@" + scope + "/" + name) == "@" + scope + "/" + name
    ensures PackageName("@" + scope + "/" + name + "/" + rest) == "@" + scope + "/" + name
  {
    var head := "@" + scope;
    assert '/' !in head;
    AbsentCharNotContained(head, "/", '/');
    AbsentCharNotContained(name, "/", '/');
    SlashBorderFree();
    SplitAfterFirst(head, "/", name);
    SplitAbsent(name, "/");
    assert "@" + scope + "/" + name == head + "/" + name;
    SplitAfterFirst(head, "/", name + "/" + rest);
    SplitAfterFirst(name, "/", rest);
    assert "@" + scope + "/" + name + "/" + rest == head + "/" + (name + "/" + rest);
  }

  /** A scoped path with no `/` is its own package. */
  lemma BareScopeName(scope: string)
    requires '/' !in scope
    ensures PackageName("@" + scope) == "@" + scope
  {
    AbsentCharNotContained("@" + scope, "/", '/');
    SplitAbsent("@" + scope, "/");
  }

  /** The first of `files` whose path contains `importPath`. */
  function FirstContaining(files: seq<string>, importPath: string): (r: Option<string>)
    ensures r.Some? ==> r.value in files && Contains(r.value, importPath)
    ensures r.None? <==> forall f | f in files :: !Contains(f, importPath)
  {
    if |files| == 0 then None
    else if Contains(files[0], importPath) then Some(files[0])
    else
      assert forall f | f in files :: f == files[0] || f in files[1..];
      FirstContaining(files[1..], importPath)
  }

  /** The first match wins: no earlier file contains the import path. */
  lemma {:induction false} FirstContainingIsFirst(files: seq<string>, importPath: string)
    requires FirstContaining(files, importPath).Some?
    ensures exists i | 0 <= i < |files| :: files[i] == FirstContaining(files, importPath).value
                                           && forall j | 0 <= j < i :: !Contains(files[j], importPath)
  {
    if !Contains(files[0], importPath) {
      FirstContainingIsFirst(files[1..], importPath);
      var i :| 0 <= i < |files[1..]| && files[1..][i] == FirstContaining(files, importPath).value
                                     && forall j | 0 <= j < i :: !Contains(files[1..][j], importPath);
      assert files[i + 1] == files[1..][i];
      forall j | 0 <= j < i + 1 ensures !Contains(files[j], importPath) {
        if j > 0 {
          assert files[j] == files[1..][j - 1];
        }
      }
    }
  }

  /** `_resolve_internal_import`: the scan over the file map's keys. */
  method ResolveInternalImport(files: seq<string>, importPath: string) returns (r: Option<string>)
    ensures r == FirstContaining(files, importPath)
  {
    for i := 0 to |files|
      invariant FirstContaining(files, importPath) == FirstContaining(files[i..], importPath)
    {
      assert files[i..][1..] == files[i + 1..];
      if Contains(files[i], importPath) {
        return Some(files[i]);
      }
    }
    return None;
  }

  // ---------------------------------------------------------------- analyze

  /** An import of an added file, with the file's path and language. */
  datatype ImportSite = ImportSite(file: string, language: LanguageType, imp: ImportStatement)

  /** The imports of one file, in order. */
  function SitesOfFile(file: string, pf: ParsedFile): seq<ImportSite> {
    seq(|pf.imports|, j requires 0 <= j < |pf.imports| => ImportSite(file, pf.language, pf.imports[j]))
  }

  /** The imports of the first `n` files of the map, file by file: the order `analyze` visits them in. */
  function Sites(fm: Dict<string, ParsedFile>, n: nat): seq<ImportSite>
    requires fm.Valid() && n <= |fm.keys|
  {
    if n == 0 then [] else Sites(fm, n - 1) + SitesOfFile(fm.keys[n - 1], fm.entries[fm.keys[n - 1]])
  }

  function DependencyOf(s: ImportSite): Dependency {
    Dependency(s.file, s.imp.moduleName, s.imp.isExternal, DetectImportType(LanguageValue(s.language)), s.imp.symbols)
  }

  function InternalOf(d: Dict<string, seq<string>>, file: string): seq<string> {
    if file in d.entries then d.entries[file] else []
  }

  function ExternalOf(m: map<string, set<string>>, file: string): set<string> {
    if file in m then m[file] else {}
  }

  /** What one import adds to the graph, internal imports resolved against `files`. */
  function AddSite(g: DependencyGraph, s: ImportSite, files: seq<string>): (r: DependencyGraph)
    requires g.internalDeps.Valid()
    ensures r.internalDeps.Valid()
  {
    var deps := g.dependencies + [DependencyOf(s)];
    if s.imp.isExternal then
      var pkg := PackageName(s.imp.moduleName);
      g.(dependencies := deps,
         externalDeps := g.externalDeps[s.file := ExternalOf(g.externalDeps, s.file) + {pkg}],
         externalPackages := g.externalPackages + {pkg})
    else
      var resolved := FirstContaining(files, s.imp.moduleName);
      if Truthy(resolved) then
        g.(dependencies := deps,
           internalDeps := g.internalDeps.Put(s.file, InternalOf(g.internalDeps, s.file) + [resolved.value]))
      else
        g.(dependencies := deps)
  }

  function EmptyGraph(): (g: DependencyGraph)
    ensures g.internalDeps.Valid()
  {
    DependencyGraph([], EmptyDict(), map[], {})
  }

  /** The graph after visiting `sites` in order. */
  function Fold(sites: seq<ImportSite>, files: seq<string>): (g: DependencyGraph)
    ensures g.internalDeps.Valid()
  {
    if |sites| == 0 then EmptyGraph() else AddSite(Fold(sites[..|sites| - 1], files), sites[|sites| - 1], files)
  }

  lemma FoldSnoc(sites: seq<ImportSite>, s: ImportSite, files: seq<string>)
    ensures Fold(sites + [s], files) == AddSite(Fold(sites, files), s, files)
  {
    assert (sites + [s])[..|sites|] == sites;
  }

  /** `analyze()` of a file map. */
  function Graph(fm: Dict<string, ParsedFile>): DependencyGraph
    requires fm.Valid()
  {
    Fold(Sites(fm, |fm.keys|), fm.keys)
  }

  /** What one import changes, part by part. */
  lemma AddSiteParts(g: DependencyGraph, s: ImportSite, files: seq<string>)
    requires g.internalDeps.Valid()
    ensures var r := AddSite(g, s, files);
      var pkg := PackageName(s.imp.moduleName);
      var resolved := FirstContaining(files, s.imp.moduleName);
      r.dependencies == g.dependencies + [DependencyOf(s)]
      && r.externalPackages == (if s.imp.isExternal then g.externalPackages + {pkg} else g.externalPackages)
      && r.externalDeps == (if s.imp.isExternal then g.externalDeps[s.file := ExternalOf(g.externalDeps, s.file) + {pkg}]
                            else g.externalDeps)
      && r.internalDeps.entries == (if !s.imp.isExternal && Truthy(resolved)
                                    then g.internalDeps.entries[s.file := InternalOf(g.internalDeps, s.file) + [resolved.value]]
                                    else g.internalDeps.entries)
  {
  }

  /** One dependency per import site, in order. */
  lemma {:induction false} FoldDependencies(sites: seq<ImportSite>, files: seq<string>)
    ensures Fold(sites, files).dependencies == Map(DependencyOf, sites)
  {
    if |sites| > 0 {
      var init := sites[..|sites| - 1];
      FoldDependencies(init, files);
      AddSiteParts(Fold(init, files), sites[|sites| - 1], files);
      MapSnoc(DependencyOf, sites, |sites| - 1);
      assert sites[..|sites|] == sites;
    }
  }

  /** Every import of every added file is a site, and there are no others. */
  lemma {:induction false} SitesExact(fm: Dict<string, ParsedFile>, n: nat, s: ImportSite)
    requires fm.Valid() && n <= |fm.keys|
    ensures s in Sites(fm, n) <==> exists i | 0 <= i < n ::
      s.file == fm.keys[i] && s.language == fm.entries[fm.keys[i]].language && s.imp in fm.entries[fm.keys[i]].imports
  {
    if n > 0 {
      SitesExact(fm, n - 1, s);
      var k := fm.keys[n - 1];
      var own := SitesOfFile(k, fm.entries[k]);
      assert s in own <==> s.file == k && s.language == fm.entries[k].language && s.imp in fm.entries[k].imports by {
        if s.file == k && s.language == fm.entries[k].language && s.imp in fm.entries[k].imports {
          var j :| 0 <= j < |fm.entries[k].imports| && fm.entries[k].imports[j] == s.imp;
          assert own[j] == s;
        }
      }
    }
  }

  /** `analyze` emits exactly one dependency per import of every added file, in visiting order. */
  lemma AnalyzeOnePerImport(fm: Dict<string, ParsedFile>)
    requires fm.Valid()
    ensures var sites := Sites(fm, |fm.keys|);
      |Graph(fm).dependencies| == |sites| && forall k | 0 <= k < |sites| :: Graph(fm).dependencies[k] == DependencyOf(sites[k])
  {
    FoldDependencies(Sites(fm, |fm.keys|), fm.keys);
  }

  /** `p` is in some file's package set. */
  predicate InSomeFile(m: map<string, set<string>>, p: string) {
    exists f | f in m :: p in m[f]
  }

  /** The package set is the union of the per-file package sets. */
  lemma {:induction false} FoldPackagesUnion(sites: seq<ImportSite>, files: seq<string>, p: string)
    ensures p in Fold(sites, files).externalPackages <==> InSomeFile(Fold(sites, files).externalDeps, p)
  {
    if |sites| > 0 {
      var init := sites[..|sites| - 1];
      var s := sites[|sites| - 1];
      var g0 := Fold(init, files);
      FoldPackagesUnion(init, files, p);
      AddSiteParts(g0, s, files);
      var g := Fold(sites, files);
      if s.imp.isExternal {
        var pkg := PackageName(s.imp.moduleName);
        if p in g.externalPackages {
          if p == pkg {
            assert p in g.externalDeps[s.file];
          } else {
            var f :| f in g0.externalDeps && p in g0.externalDeps[f];
            assert p in g.externalDeps[f];
          }
        }
        if InSomeFile(g.externalDeps, p) {
          var f :| f in g.externalDeps && p in g.externalDeps[f];
          if f != s.file || p != pkg {
            if f == s.file {
              assert p in ExternalOf(g0.externalDeps, s.file);
            }
            assert InSomeFile(g0.externalDeps, p);
          }
        }
      }
    }
  }

  /** `p` is the package of an external import of `f` among `sites`. */
  predicate PackageFrom(sites: seq<ImportSite>, f: string, p: string) {
    exists s | s in sites :: s.imp.isExternal && s.file == f && PackageName(s.imp.moduleName) == p
  }

  /** Every package recorded for a file comes from an external import of that file. */
  lemma {:induction false} FoldPackagesFromImports(sites: seq<ImportSite>, files: seq<string>, f: string, p: string)
    requires f in Fold(sites, files).externalDeps && p in Fold(sites, files).externalDeps[f]
    ensures PackageFrom(sites, f, p)
  {
    var init := sites[..|sites| - 1];
    var s := sites[|sites| - 1];
    var g0 := Fold(init, files);
    AddSiteParts(g0, s, files);
    if s.imp.isExternal && f == s.file && p == PackageName(s.imp.moduleName) {
      assert s in sites;
    } else {
      assert f in g0.externalDeps && p in g0.externalDeps[f] by {
        if s.imp.isExternal && f == s.file {
          assert p in ExternalOf(g0.externalDeps, s.file);
        }
      }
      FoldPackagesFromImports(init, files, f, p);
      var x :| x in init && x.imp.isExternal && x.file == f && PackageName(x.imp.moduleName) == p;
      assert x in sites;
    }
  }

  /** `t` is what an internal import of `f` among `sites` resolves to. */
  predicate ResolvedFrom(sites: seq<ImportSite>, files: seq<string>, f: string, t: string) {
    exists s | s in sites :: !s.imp.isExternal && s.file == f && FirstContaining(files, s.imp.moduleName) == Some(t)
  }

  /** Every resolved target is an added file that the import path of an internal import of its source resolves to. */
  lemma {:induction false} FoldInternal(sites: seq<ImportSite>, files: seq<string>)
    ensures var g := Fold(sites, files);
      forall f, t | f in g.internalDeps.entries && t in g.internalDeps.entries[f] :: t in files && ResolvedFrom(sites, files, f, t)
  {
    if |sites| > 0 {
      var init := sites[..|sites| - 1];
      var s := sites[|sites| - 1];
      var g0 := Fold(init, files);
      FoldInternal(init, files);
      AddSiteParts(g0, s, files);
      var g := Fold(sites, files);
      var resolved := FirstContaining(files, s.imp.moduleName);
      forall f, t | f in g.internalDeps.entries && t in g.internalDeps.entries[f]
        ensures t in files && ResolvedFrom(sites, files, f, t)
      {
        var added := !s.imp.isExternal && Truthy(resolved) && f == s.file;
        if added && t == resolved.value {
          assert s in sites;
        } else {
          assert f in g0.internalDeps.entries && t in g0.internalDeps.entries[f] by {
            if added {
              assert t in InternalOf(g0.internalDeps, s.file);
            }
          }
          assert t in files && ResolvedFrom(init, files, f, t);
          var x :| x in init && !x.imp.isExternal && x.file == f && FirstContaining(files, x.imp.moduleName) == Some(t);
          assert x in sites;
        }
      }
    }
  }

  // ---------------------------------------------------------------- DependencyAnalyzer

  class DependencyAnalyzer {
    const repoName: string
    /** `file_map`: file path -> parsed file, in insertion order. */
    var fileMap: Dict<string, ParsedFile>

    ghost predicate Valid()
      reads this
    {
      fileMap.Valid()
    }

    constructor (repoName: string)
      ensures Valid() && this.repoName == repoName && fileMap == EmptyDict()
    {
      this.repoName := repoName;
      fileMap := EmptyDict();
    }

    /** `add_file`: stores the parsed file under its path, replacing any earlier one in place. */
    method AddFile(pf: ParsedFile)
      requires Valid()
      modifies this
      ensures Valid()
      ensures fileMap == old(fileMap).Put(pf.filePath, pf)
    {
      fileMap := fileMap.Put(pf.filePath, pf);
    }

    /** `analyze`. */
    method Analyze() returns (g: DependencyGraph)
      requires Valid()
      ensures g == Graph(fileMap)
    {
      g := AnalyzeFiles(fileMap);
    }

    /** `find_external_calls`: the external dependencies whose module contains the package name, in order. */
    method FindExternalCalls(targetPackage: string) returns (calls: seq<Dependency>)
      requires Valid()
      ensures calls == Filter(ExternalCallTo(targetPackage), Graph(fileMap).dependencies)
      ensures forall d :: d in calls <==>
        d in Graph(fileMap).dependencies && d.isExternal && Contains(d.targetModule, targetPackage)
    {
      var g := Analyze();
      calls := Filter(ExternalCallTo(targetPackage), g.dependencies);
    }

    /** `find_circular_dependencies`: every reported cycle is a closed walk along resolved imports. */
    method FindCircularDependencies() returns (cycles: seq<seq<string>>)
      requires Valid()
      ensures forall c | c in cycles :: IsCycle(Graph(fileMap), c)
    {
      var g := Analyze();
      GraphTargetsWithin(fileMap);
      cycles := FindCycles(g, fileMap.keys);
    }

    /** `get_dependency_stats`. */
    method GetDependencyStats() returns (stats: DependencyStats)
      requires Valid()
      ensures var g := Graph(fileMap);
        stats.totalFiles == |fileMap.keys| && stats.totalDependencies == |g.dependencies|
        && stats.externalDependencies == |Filter(IsExternalDependency, g.dependencies)|
        && stats.internalDependencies == |Filter(IsInternalDependency, g.dependencies)|
        && stats.internalDependencies + stats.externalDependencies == stats.totalDependencies
        && stats.externalPackages == |g.externalPackages|
        && stats.mostDependentFiles == MostDependent(Tally(Flatten(g.internalDeps.Values())))
    {
      var g := Analyze();
      var totalDeps := |g.dependencies|;
      var externalCount := |Filter(IsExternalDependency, g.dependencies)|;
      FilterComplement(IsExternalDependency, IsInternalDependency, g.dependencies);
      var counts := CountTargets(g.internalDeps.Values());
      stats := DependencyStats(|fileMap.keys|, totalDeps, totalDeps - externalCount, externalCount,
                               |g.externalPackages|, MostDependent(counts));
    }
  }

  lemma SitesSnoc(fm: Dict<string, ParsedFile>, i: nat)
    requires fm.Valid() && i < |fm.keys|
    ensures Sites(fm, i + 1) == Sites(fm, i) + SitesOfFile(fm.keys[i], fm.entries[fm.keys[i]])
  {
  }

  /** The outer loop of `analyze`, over the files in insertion order. */
  method AnalyzeFiles(fm: Dict<string, ParsedFile>) returns (g: DependencyGraph)
    requires fm.Valid()
    ensures g == Graph(fm)
  {
    g := EmptyGraph();
    assert Sites(fm, 0) == [];
    var i := 0;
    while i < |fm.keys|
      invariant 0 <= i <= |fm.keys|
      invariant FoldedUpTo(fm, i, g)
    {
      g := AnalyzeNext(fm, i, g);
      i := i + 1;
    }
    GraphIsFold(fm);
  }

  ghost predicate FoldedUpTo(fm: Dict<string, ParsedFile>, i: nat, g: DependencyGraph)
    requires fm.Valid() && i <= |fm.keys|
  {
    g == Fold(Sites(fm, i), fm.keys)
  }

  lemma GraphIsFold(fm: Dict<string, ParsedFile>)
    requires fm.Valid()
    ensures Graph(fm) == Fold(Sites(fm, |fm.keys|), fm.keys)
  {
  }

  /** One pass of the outer loop of `analyze`: the imports of the next file in insertion order. */
  method AnalyzeNext(fm: Dict<string, ParsedFile>, i: nat, g0: DependencyGraph) returns (g: DependencyGraph)
    requires fm.Valid() && i < |fm.keys|
    requires FoldedUpTo(fm, i, g0)
    ensures FoldedUpTo(fm, i + 1, g)
  {
    var path := fm.keys[i];
    g := AnalyzeFile(g0, Sites(fm, i), path, fm.entries[path], fm.keys);
    SitesSnoc(fm, i);
  }

  /** The loop over one file's imports, continuing the fold over the sites already visited. */
  method AnalyzeFile(g0: DependencyGraph, ghost before: seq<ImportSite>, path: string, pf: ParsedFile, files: seq<string>)
    returns (g: DependencyGraph)
    requires g0 == Fold(before, files)
    ensures g == Fold(before + SitesOfFile(path, pf), files)
  {
    ghost var own := SitesOfFile(path, pf);
    g := g0;
    assert before + own[..0] == before;
    for j := 0 to |pf.imports|
      invariant g == Fold(before + own[..j], files)
    {
      AppendTakeSnoc(before, own, j);
      FoldSnoc(before + own[..j], own[j], files);
      g := AnalyzeImport(g, path, pf.language, pf.imports[j], files);
    }
    assert own[..|pf.imports|] == own;
  }

  /** The body of the inner loop of `analyze`: one import. */
  method AnalyzeImport(g0: DependencyGraph, path: string, language: LanguageType, imp: ImportStatement, files: seq<string>)
    returns (g: DependencyGraph)
    requires g0.internalDeps.Valid()
    ensures g == AddSite(g0, ImportSite(path, language, imp), files)
  {
    g := g0;
    var dep := Dependency(path, imp.moduleName, imp.isExternal, DetectImportType(LanguageValue(language)), imp.symbols);
    g := g.(dependencies := g.dependencies + [dep]);
    if imp.isExternal {
      var pkg := PackageName(imp.moduleName);
      g := g.(externalDeps := g.externalDeps[path := ExternalOf(g.externalDeps, path) + {pkg}],
              externalPackages := g.externalPackages + {pkg});
    } else {
      var resolved := ResolveInternalImport(files, imp.moduleName);
      if Truthy(resolved) {
        g := g.(internalDeps := g.internalDeps.Put(path, InternalOf(g.internalDeps, path) + [resolved.value]));
      }
    }
  }

  // ---------------------------------------------------------------- find_external_calls

  function ExternalCallTo(targetPackage: string): Dependency -> bool {
    (d: Dependency) => d.isExternal && Contains(d.targetModule, targetPackage)
  }

  // ---------------------------------------------------------------- find_circular_dependencies

  /** Consecutive entries of `path` are resolved imports. */
  predicate IsWalk(g: DependencyGraph, path: seq<string>) {
    forall i | 0 <= i < |path| - 1 :: path[i + 1] in GetDependencies(g, path[i])
  }

  /** A closed walk: it starts and ends at the same file. */
  predicate IsCycle(g: DependencyGraph, c: seq<string>) {
    |c| >= 2 && c[0] == c[|c| - 1] && IsWalk(g, c)
  }

  /** Every resolved target is one of `nodes`. */
  predicate TargetsWithin(g: DependencyGraph, nodes: set<string>) {
    forall f, t | f in g.internalDeps.entries && t in g.internalDeps.entries[f] :: t in nodes
  }

  /** Every resolved target of `analyze()` is one of the analyzed files. */
  lemma GraphTargetsWithin(fm: Dict<string, ParsedFile>)
    requires fm.Valid()
    ensures TargetsWithin(Graph(fm), set f | f in fm.keys)
  {
    var g := Graph(fm);
    assert g == Fold(Sites(fm, |fm.keys|), fm.keys);
    FoldInternal(Sites(fm, |fm.keys|), fm.keys);
    forall f, t | f in g.internalDeps.entries && t in g.internalDeps.entries[f]
      ensures t in set x | x in fm.keys
    {
      assert t in fm.keys;
    }
  }

  /** `path.index(x)`. */
  function IndexIn(path: seq<string>, x: string): (i: nat)
    requires x in path
    ensures i < |path| && path[i] == x
  {
    if path[0] == x then 0 else 1 + IndexIn(path[1..], x)
  }

  /** A walk ending at `node`, continued to its neighbour `nb`, yields a cycle from the first visit of `nb`. */
  lemma CycleFromWalk(g: DependencyGraph, path: seq<string>, nb: string)
    requires IsWalk(g, path) && |path| > 0 && nb in path && nb in GetDependencies(g, path[|path| - 1])
    ensures IsCycle(g, path[IndexIn(path, nb)..] + [nb])
  {
    var start := IndexIn(path, nb);
    var c := path[start..] + [nb];
    forall i | 0 <= i < |c| - 1 ensures c[i + 1] in GetDependencies(g, c[i]) {
      if i + 1 < |c| - 1 {
        assert c[i] == path[start + i] && c[i + 1] == path[start + i + 1];
      } else {
        assert c[i] == path[|path| - 1];
      }
    }
  }

  /**
    The nested `dfs`: marks `node` visited and on the stack, follows each resolved import of it
    that is not yet visited, and records a cycle for each one still on the stack.
   */
  method Dfs(g: DependencyGraph, ghost nodes: set<string>, node: string, path: seq<string>,
             visited: set<string>, recStack: set<string>, cycles: seq<seq<string>>)
    returns (visitedOut: set<string>, recStackOut: set<string>, cyclesOut: seq<seq<string>>)
    requires TargetsWithin(g, nodes) && node in nodes
    requires node !in visited && recStack <= visited
    requires recStack == set x | x in path
    requires IsWalk(g, path) && (|path| > 0 ==> node in GetDependencies(g, path[|path| - 1]))
    requires forall c | c in cycles :: IsCycle(g, c)
    ensures visited + {node} <= visitedOut && recStackOut == recStack
    ensures forall c | c in cyclesOut :: IsCycle(g, c)
    decreases nodes - visited
  {
    var v := visited + {node};
    var rs := recStack + {node};
    var p := path + [node];
    var cs := cycles;
    assert IsWalk(g, p);
    var neighbors := GetDependencies(g, node);
    for k := 0 to |neighbors|
      invariant visited + {node} <= v && rs == recStack + {node} && rs <= v
      invariant forall c | c in cs :: IsCycle(g, c)
    {
      var nb := neighbors[k];
      if nb !in v {
        assert nb in nodes;
        v, rs, cs := Dfs(g, nodes, nb, p, v, rs, cs);
      } else if nb in rs {
        CycleFromWalk(g, p, nb);
        cs := cs + [p[IndexIn(p, nb)..] + [nb]];
      }
    }
    rs := rs - {node};
    return v, rs, cs;
  }

  /** The loop over the files that starts a `dfs` from each one not yet visited. */
  method FindCycles(g: DependencyGraph, files: seq<string>) returns (cycles: seq<seq<string>>)
    requires TargetsWithin(g, set f | f in files)
    ensures forall c | c in cycles :: IsCycle(g, c)
  {
    ghost var nodes := set f | f in files;
    var visited: set<string> := {};
    cycles := [];
    for i := 0 to |files|
      invariant forall c | c in cycles :: IsCycle(g, c)
    {
      if files[i] !in visited {
        var rs;
        visited, rs, cycles := Dfs(g, nodes, files[i], [], visited, {}, cycles);
      }
    }
  }

  // ---------------------------------------------------------------- get_dependency_stats

  datatype DependencyStats = DependencyStats(
    totalFiles: nat, totalDependencies: nat, internalDependencies: int, externalDependencies: nat,
    externalPackages: nat, mostDependentFiles: seq<(string, int)>)

  function IsExternalDependency(d: Dependency): bool {
    d.isExternal
  }

  function IsInternalDependency(d: Dependency): bool {
    !d.isExternal
  }

  /** The lists one after another. */
  function Flatten(lists: seq<seq<string>>): seq<string> {
    if |lists| == 0 then [] else Flatten(lists[..|lists| - 1]) + lists[|lists| - 1]
  }

  /** How many times `x` occurs in `xs`. */
  function Count(xs: seq<string>, x: string): nat {
    if |xs| == 0 then 0 else Count(xs[..|xs| - 1], x) + (if xs[|xs| - 1] == x then 1 else 0)
  }

  /** `counts[x] += 1` on a `defaultdict(int)`. */
  function Bumped(d: Dict<string, int>, x: string): (r: Dict<string, int>)
    requires d.Valid()
    ensures r.Valid()
  {
    d.Put(x, (if x in d.entries then d.entries[x] else 0) + 1)
  }

  /** The `defaultdict(int)` after `counts[x] += 1` for each `x` in turn: keys in order of first occurrence. */
  function Tally(xs: seq<string>): (d: Dict<string, int>)
    ensures d.Valid()
  {
    if |xs| == 0 then EmptyDict() else Bumped(Tally(xs[..|xs| - 1]), xs[|xs| - 1])
  }

  lemma {:induction false} CountAbsent(xs: seq<string>, x: string)
    requires x !in xs
    ensures Count(xs, x) == 0
  {
    if |xs| > 0 {
      assert forall y | y in xs[..|xs| - 1] :: y in xs;
      CountAbsent(xs[..|xs| - 1], x);
    }
  }

  /** The tally has an entry for exactly the files that occur, holding how often each occurs. */
  lemma {:induction false} TallyCounts(xs: seq<string>, x: string)
    ensures x in Tally(xs).entries <==> x in xs
    ensures x in Tally(xs).entries ==> Tally(xs).entries[x] == Count(xs, x)
  {
    if |xs| > 0 {
      var init := xs[..|xs| - 1];
      assert xs == init + [xs[|xs| - 1]];
      TallyCounts(init, x);
      if x !in init {
        CountAbsent(init, x);
      }
    }
  }

  lemma TallySnoc(xs: seq<string>, x: string)
    ensures Tally(xs + [x]) == Bumped(Tally(xs), x)
  {
    assert (xs + [x])[..|xs|] == xs;
  }

  /** The inner loop of the count: one list of resolved files. */
  method CountList(counts0: Dict<string, int>, ghost before: seq<string>, list: seq<string>) returns (counts: Dict<string, int>)
    requires counts0 == Tally(before)
    ensures counts == Tally(before + list)
  {
    counts := counts0;
    assert before + list[..0] == before;
    for j := 0 to |list|
      invariant counts == Tally(before + list[..j])
    {
      var x := list[j];
      AppendTakeSnoc(before, list, j);
      TallySnoc(before + list[..j], x);
      counts := Bumped(counts, x);
    }
    assert list[..|list|] == list;
  }

  /** `dep_counts`: how many times each file is a resolved target. */
  method CountTargets(lists: seq<seq<string>>) returns (counts: Dict<string, int>)
    ensures counts == Tally(Flatten(lists))
  {
    counts := EmptyDict();
    for i := 0 to |lists|
      invariant counts == Tally(Flatten(lists[..i]))
    {
      assert lists[..i + 1][..i] == lists[..i];
      counts := CountList(counts, Flatten(lists[..i]), lists[i]);
    }
    assert lists[..|lists|] == lists;
  }

  /** `dep_counts.items()` keyed by count, with their dict positions. */
  function CountEntries(d: Dict<string, int>): (r: seq<Scored<(string, int)>>)
    requires d.Valid()
    ensures |r| == |d.keys|
    ensures forall i | 0 <= i < |r| :: r[i] == Scored(d.entries[d.keys[i]] as real, (d.keys[i], d.entries[d.keys[i]]), i)
  {
    seq(|d.keys|, i requires 0 <= i < |d.keys| => Scored(d.entries[d.keys[i]] as real, (d.keys[i], d.entries[d.keys[i]]), i))
  }

  function ScoredItem(h: Scored<(string, int)>): (string, int) {
    h.item
  }

  /** `sorted(items, key=count, reverse=True)[:5]`: Python's sort is stable, so ties keep dict order. */
  function MostDependent(d: Dict<string, int>): seq<(string, int)>
    requires d.Valid()
  {
    Map(ScoredItem, TakePy(SortRanked(CountEntries(d)), 5))
  }

  /**
    At most five files, in non-increasing order of their counts, each with the number of
    resolved imports that target it.
   */
  lemma MostDependentProperties(xs: seq<string>)
    ensures var r := MostDependent(Tally(xs));
      |r| <= 5
      && (forall i, j | 0 <= i < j < |r| :: r[i].1 >= r[j].1)
      && forall k | 0 <= k < |r| :: r[k].0 in xs && r[k].1 == Count(xs, r[k].0)
  {
    MostDependentOrdered(Tally(xs));
    MostDependentCounts(xs);
  }

  /** The top entries come in non-increasing order of count. */
  lemma MostDependentOrdered(d: Dict<string, int>)
    requires d.Valid()
    ensures var r := MostDependent(d);
      |r| <= 5 && forall i, j | 0 <= i < j < |r| :: r[i].1 >= r[j].1
  {
    var entries := CountEntries(d);
    var sorted := SortRanked(entries);
    var top := TakePy(sorted, 5);
    var r := MostDependent(d);
    RankedPrefix(sorted, |top|);
    forall i, j | 0 <= i < j < |r| ensures r[i].1 >= r[j].1 {
      RankedNonIncreasing(top, i, j);
      assert top[i] == sorted[i] && top[j] == sorted[j];
      assert top[i] in multiset(entries) && top[j] in multiset(entries);
      var a :| 0 <= a < |entries| && entries[a] == top[i];
      var b :| 0 <= b < |entries| && entries[b] == top[j];
    }
  }

  /** Each top entry is a resolved target with its number of occurrences. */
  lemma MostDependentCounts(xs: seq<string>)
    ensures var r := MostDependent(Tally(xs));
      forall k | 0 <= k < |r| :: r[k].0 in xs && r[k].1 == Count(xs, r[k].0)
  {
    var d := Tally(xs);
    var entries := CountEntries(d);
    var sorted := SortRanked(entries);
    var top := TakePy(sorted, 5);
    var r := MostDependent(d);
    forall k | 0 <= k < |r| ensures r[k].0 in xs && r[k].1 == Count(xs, r[k].0) {
      assert top[k] == sorted[k];
      assert top[k] in multiset(entries);
      var a :| 0 <= a < |entries| && entries[a] == top[k];
      assert d.keys[a] in d.entries;
      TallyCounts(xs, d.keys[a]);
    }
  }

  // ---------------------------------------------------------------- CrossRepoAnalyzer

  /** One entry of `find_cross_repo_dependencies`: `source_repo`, `target_repo`, `package`. */
  datatype CrossDependency = CrossDependency(sourceRepo: string, targetRepo: string, package: string)

  /** A package of `repo` names another registered repository: its name contains the package. */
  predicate CrossMatch(repo: string, package: string, other: string) {
    other != repo && Contains(other, package)
  }

  /** The entries the loop over the other repository names adds for one package. */
  function MatchesAmong(repo: string, package: string, names: seq<string>): (r: seq<CrossDependency>)
    ensures forall d :: d in r <==>
      d.sourceRepo == repo && d.package == package && d.targetRepo in names && CrossMatch(repo, package, d.targetRepo)
  {
    if |names| == 0 then []
    else
      var init := names[..|names| - 1];
      var other := names[|names| - 1];
      assert forall n | n in names :: n in init || n == other;
      MatchesAmong(repo, package, init)
        + (if CrossMatch(repo, package, other) then [CrossDependency(repo, other, package)] else [])
  }

  /** The innermost loop of `find_cross_repo_dependencies`. */
  method MatchOtherRepos(repo: string, package: string, names: seq<string>) returns (deps: seq<CrossDependency>)
    ensures deps == MatchesAmong(repo, package, names)
  {
    deps := [];
    for k := 0 to |names|
      invariant deps == MatchesAmong(repo, package, names[..k])
    {
      assert names[..k + 1][..k] == names[..k];
      var other := names[k];
      if other != repo && Contains(other, package) {
        deps := deps + [CrossDependency(repo, other, package)];
      }
    }
    assert names[..|names|] == names;
  }

  /** The loop over one repository's package set, visited in no particular order. */
  method MatchPackages(repo: string, packages: set<string>, names: seq<string>) returns (deps: seq<CrossDependency>)
    ensures forall d :: d in deps <==>
      d.sourceRepo == repo && d.package in packages && d.targetRepo in names && CrossMatch(repo, d.package, d.targetRepo)
  {
    deps := [];
    var rest := packages;
    while rest != {}
      invariant rest <= packages
      invariant forall d :: d in deps <==>
        d.sourceRepo == repo && d.package in packages - rest && d.targetRepo in names && CrossMatch(repo, d.package, d.targetRepo)
      decreases |rest|
    {
      var package :| package in rest;
      var found := MatchOtherRepos(repo, package, names);
      deps := deps + found;
      rest := rest - {package};
    }
  }

  class CrossRepoAnalyzer {
    /** `repo_analyzers`: repository name -> its analyzer, in insertion order. */
    var repoAnalyzers: Dict<string, DependencyAnalyzer>

    ghost function Analyzers(): set<DependencyAnalyzer>
      reads this
    {
      set k | k in repoAnalyzers.entries :: repoAnalyzers.entries[k]
    }

    ghost predicate Valid()
      reads this, Analyzers()
    {
      repoAnalyzers.Valid() && forall k | k in repoAnalyzers.entries :: repoAnalyzers.entries[k].Valid()
    }

    /** The external packages `analyze()` reports for a registered repository. */
    ghost function PackagesOf(name: string): set<string>
      requires Valid() && name in repoAnalyzers.entries
      reads this, Analyzers()
    {
      Graph(repoAnalyzers.entries[name].fileMap).externalPackages
    }

    constructor ()
      ensures Valid() && repoAnalyzers == EmptyDict()
    {
      repoAnalyzers := EmptyDict();
    }

    /** `add_repo`: registers the analyzer under the name, replacing any earlier one in place. */
    method AddRepo(name: string, analyzer: DependencyAnalyzer)
      requires Valid() && analyzer.Valid()
      modifies this
      ensures Valid()
      ensures repoAnalyzers == old(repoAnalyzers).Put(name, analyzer)
    {
      repoAnalyzers := repoAnalyzers.Put(name, analyzer);
    }

    /**
      `find_cross_repo_dependencies`: exactly the (repository, other repository, package) triples
      where the package is one the first repository imports and a substring of the other's name.
     */
    method FindCrossRepoDependencies() returns (deps: seq<CrossDependency>)
      requires Valid()
      ensures forall d :: d in deps <==>
        d.sourceRepo in repoAnalyzers.entries && d.targetRepo in repoAnalyzers.entries
        && d.package in PackagesOf(d.sourceRepo) && CrossMatch(d.sourceRepo, d.package, d.targetRepo)
    {
      var names := repoAnalyzers.keys;
      deps := [];
      for i := 0 to |names|
        invariant forall d :: d in deps <==>
          d.sourceRepo in names[..i] && d.targetRepo in names
          && d.package in PackagesOf(d.sourceRepo) && CrossMatch(d.sourceRepo, d.package, d.targetRepo)
      {
        var repo := names[i];
        var g := Graph(repoAnalyzers.entries[repo].fileMap);  // `analyzer.analyze()`, which `DependencyAnalyzer.Analyze` computes
        var found := MatchPackages(repo, g.externalPackages, names);
        assert forall n :: n in names[..i + 1] <==> n in names[..i] || n == repo;
        deps := deps + found;
      }
      assert names[..|names|] == names;
    }

    /** Some repository among `names` imports `p`. */
    ghost predicate ImportedByOneOf(names: seq<string>, p: string)
      requires Valid() && forall n | n in names :: n in repoAnalyzers.entries
      reads this, Analyzers()
    {
      exists k | k in names :: p in PackagesOf(k)
    }

    /** A package is imported by one of the first `i + 1` names iff by one of the first `i` or by the next. */
    lemma ImportedBySnoc(names: seq<string>, i: int, p: string)
      requires Valid() && forall n | n in names :: n in repoAnalyzers.entries
      requires 0 <= i < |names|
      ensures ImportedByOneOf(names[..i + 1], p) <==> ImportedByOneOf(names[..i], p) || p in PackagesOf(names[i])
    {
      assert names[..i + 1] == names[..i] + [names[i]];
      if ImportedByOneOf(names[..i + 1], p) {
        var k :| k in names[..i + 1] && p in PackagesOf(k);
        if k != names[i] {
          assert k in names[..i];
        }
      }
      if ImportedByOneOf(names[..i], p) {
        var k :| k in names[..i] && p in PackagesOf(k);
        assert k in names[..i + 1];
      }
      if p in PackagesOf(names[i]) {
        assert names[i] in names[..i + 1];
      }
    }

    /** `all_external_packages`: the union of the package sets of every registered repository. */
    method AllExternalPackages() returns (all: set<string>)
      requires Valid()
      ensures forall p :: p in all <==> ImportedByOneOf(repoAnalyzers.keys, p)
    {
      var names := repoAnalyzers.keys;
      all := {};
      for i := 0 to |names|
        invariant forall p :: p in all <==> ImportedByOneOf(names[..i], p)
      {
        var g := Graph(repoAnalyzers.entries[names[i]].fileMap);  // `analyzer.analyze()`
        all := all + g.externalPackages;
        forall p ensures p in all <==> ImportedByOneOf(names[..i + 1], p) {
          ImportedBySnoc(names, i, p);
        }
      }
      assert names[..|names|] == names;
    }

    /**
      `suggest_missing_repos`: the scoped (`@`-prefixed) packages any registered repository
      imports that are not among the indexed names, sorted and without duplicates.
     */
    method SuggestMissingRepos(indexedRepos: set<string>) returns (suggestions: seq<string>)
      requires Valid()
      ensures StrictlySorted(suggestions)
      ensures forall p :: p in suggestions <==>
        ImportedByOneOf(repoAnalyzers.keys, p) && "@" <= p && p !in indexedRepos
    {
      var all := AllExternalPackages();
      var picked := PickScoped(all, indexedRepos);
      suggestions := SortSet(picked);
    }
  }

  /** The loop of `suggest_missing_repos` over the package set: the scoped packages not yet indexed. */
  method PickScoped(all: set<string>, indexedRepos: set<string>) returns (picked: set<string>)
    ensures forall p :: p in picked <==> p in all && "@" <= p && p !in indexedRepos
  {
    picked := {};
    var rest := all;
    while rest != {}
      invariant rest <= all
      invariant forall p :: p in picked <==> p in all - rest && "@" <= p && p !in indexedRepos
      decreases |rest|
    {
      var package :| package in rest;
      if "@" <= package && package !in indexedRepos {
        picked := picked + {package};
      }
      rest := rest - {package};
    }
  }
}

/**
  Indexing orchestration: a repository indexer scans the repository's files, parses the ones it
  supports, hands them to the dependency analyzer and the chunker, and stores the chunks in the
  embedding store; a multi-repository indexer keeps a registry of repository indexers alongside
  the stack configuration and the cross-repository analyzer.

  The file tree, the parser, the git state and the failures of the store are inputs: the tree is
  a list of path entries in walk order; `parse` is what `parse_file` returns for a path (a parsed
  file, `None` for an unsupported language, or the error it raises; `Parser.ParseFile` computes
  it from the file's text and syntax-tree captures); the git commit and diff list are given values.
 */
module Indexer {
  import opened Base
  import opened Strings
  import opened PyDict
  import opened Parser
  import opened Chunker
  import opened Embeddings
  import opened DependencyAnalysis
  import SC = StackConfig

  // ---------------------------------------------------------------- scanning

  /** The suffixes of the files `_scan_repo` yields. */
  const SupportedExtensions: set<string> := {".py", ".js", ".mjs", ".cjs", ".ts", ".tsx", ".rb", ".go"}

  /** The path components that exclude a file. */
  const SkipDirectories: set<string> :=
    {"node_modules", "vendor", "dist", "build", ".git", "__pycache__", "venv", "env"}

  /** A path the recursive walk visits: its text, all its components (`Path.parts`) and whether it is a file. */
  datatype PathEntry = PathEntry(path: string, parts: seq<string>, isFile: bool)

  /** The test `_scan_repo` applies: a file, with a supported suffix (compared as written), and no
      skipped directory among its components. */
  predicate ScanAccepts(e: PathEntry) {
    e.isFile && Suffix(FileName(e.path)) in SupportedExtensions
    && forall k | 0 <= k < |e.parts| :: e.parts[k] !in SkipDirectories
  }

  /** `_scan_repo`: the walk's entries that pass the test, in walk order. */
  method ScanRepo(tree: seq<PathEntry>) returns (files: seq<PathEntry>)
    ensures files == Filter(ScanAccepts, tree)
  {
    files := [];
    for i := 0 to |tree|
      invariant files == Filter(ScanAccepts, tree[..i])
    {
      FilterSnoc(ScanAccepts, tree, i);
      if ScanAccepts(tree[i]) {
        files := files + [tree[i]];
      }
    }
    assert tree[..|tree|] == tree;
  }

  /** A string without upper-case ASCII letters is its own lower-case form. */
  lemma LowerUnchanged(s: string)
    requires forall k | 0 <= k < |s| :: !('A' <= s[k] <= 'Z')
    ensures Lower(s) == s
  {
  }

  /** Every scanned file has a language the parser knows, so parsing it never returns `None`. */
  lemma ScannedFileHasLanguage(e: PathEntry)
    requires ScanAccepts(e)
    ensures DetectLanguage(e.path).Some?
  {
    var x := Suffix(FileName(e.path));
    assert x in {".py", ".js", ".mjs", ".cjs", ".ts", ".tsx", ".rb", ".go"};
    LowerUnchanged(x);
    assert Lower(x) == x;
  }

  /** No file under a skipped directory is scanned. */
  lemma SkippedDirectoryNotScanned(e: PathEntry, k: int)
    requires 0 <= k < |e.parts| && e.parts[k] in SkipDirectories
    ensures e !in Filter(ScanAccepts, [e])
  {
  }

  // ---------------------------------------------------------------- the indexing loop, as a function

  /** `file_filter` is absent or accepts the file. */
  predicate PassesFilter(fileFilter: Option<PathEntry -> bool>, e: PathEntry) {
    fileFilter.None? || fileFilter.value(e)
  }

  /** The loop's counters, error list and the parsed files handed on, in order. */
  datatype Progress = Progress(processed: int, skipped: int, errors: seq<string>, parsed: seq<ParsedFile>)

  /** One scanned file: filtered out, skipped (unsupported or failing) or processed. */
  function Step(p: Progress, e: PathEntry, fileFilter: Option<PathEntry -> bool>,
                outcome: Result<Option<ParsedFile>>): Progress {
    if !PassesFilter(fileFilter, e) then p
    else if outcome.Failure? then p.(skipped := p.skipped + 1, errors := p.errors + [e.path + ": " + outcome.error])
    else if outcome.value.None? then p.(skipped := p.skipped + 1)
    else p.(processed := p.processed + 1, parsed := p.parsed + [outcome.value.value])
  }

  /** The loop of `index` over the scanned files. */
  function Walk(files: seq<PathEntry>, fileFilter: Option<PathEntry -> bool>,
                parse: string -> Result<Option<ParsedFile>>): Progress {
    if |files| == 0 then Progress(0, 0, [], [])
    else
      var e := files[|files| - 1];
      Step(Walk(files[..|files| - 1], fileFilter, parse), e, fileFilter, parse(e.path))
  }

  /** The files the filter lets through. */
  function Considered(fileFilter: Option<PathEntry -> bool>, files: seq<PathEntry>): seq<PathEntry> {
    Filter((e: PathEntry) => PassesFilter(fileFilter, e), files)
  }

  /** The considered files whose parsing raised. */
  function Failing(fileFilter: Option<PathEntry -> bool>, parse: string -> Result<Option<ParsedFile>>,
                   files: seq<PathEntry>): seq<PathEntry> {
    Filter((e: PathEntry) => PassesFilter(fileFilter, e) && parse(e.path).Failure?, files)
  }

  /** `Walk` unfolded once: the last file's step after the walk over the others. */
  lemma WalkLast(files: seq<PathEntry>, fileFilter: Option<PathEntry -> bool>,
                 parse: string -> Result<Option<ParsedFile>>)
    requires |files| > 0
    ensures Walk(files, fileFilter, parse)
      == Step(Walk(files[..|files| - 1], fileFilter, parse), files[|files| - 1], fileFilter, parse(files[|files| - 1].path))
  {
  }

  /** Files the filter rejects are not counted; every other file is counted once, as processed or as skipped. */
  lemma {:induction false} WalkConsideredCount(files: seq<PathEntry>, fileFilter: Option<PathEntry -> bool>,
                                               parse: string -> Result<Option<ParsedFile>>)
    ensures var w := Walk(files, fileFilter, parse);
      w.processed + w.skipped == |Considered(fileFilter, files)| && w.processed == |w.parsed|
  {
    if |files| > 0 {
      WalkConsideredCount(files[..|files| - 1], fileFilter, parse);
      WalkLast(files, fileFilter, parse);
      FilterSnoc((e: PathEntry) => PassesFilter(fileFilter, e), files, |files| - 1);
      assert files[..|files| - 1 + 1] == files;
    }
  }

  /** One error per considered file whose parsing raised, each of them also counted as skipped. */
  lemma {:induction false} WalkErrorCount(files: seq<PathEntry>, fileFilter: Option<PathEntry -> bool>,
                                          parse: string -> Result<Option<ParsedFile>>)
    ensures var w := Walk(files, fileFilter, parse);
      |w.errors| == |Failing(fileFilter, parse, files)| && |w.errors| <= w.skipped
  {
    if |files| > 0 {
      WalkErrorCount(files[..|files| - 1], fileFilter, parse);
      WalkLast(files, fileFilter, parse);
      FilterSnoc((e: PathEntry) => PassesFilter(fileFilter, e) && parse(e.path).Failure?,
                 files, |files| - 1);
      assert files[..|files| - 1 + 1] == files;
    }
  }

  /**
    Files the filter rejects are not counted; every other file is counted exactly once, as
    processed or as skipped; one error per file whose parsing raised; one parsed file per
    processed file.
   */
  lemma WalkCounts(files: seq<PathEntry>, fileFilter: Option<PathEntry -> bool>,
                   parse: string -> Result<Option<ParsedFile>>)
    ensures var w := Walk(files, fileFilter, parse);
      && w.processed + w.skipped == |Considered(fileFilter, files)|
      && w.processed == |w.parsed|
      && |w.errors| == |Failing(fileFilter, parse, files)|
      && |w.errors| <= w.skipped
  {
    WalkConsideredCount(files, fileFilter, parse);
    WalkErrorCount(files, fileFilter, parse);
  }

  /** Every parsed file was scanned, passed the filter, and is what the parser returned for it. */
  lemma {:induction false} WalkParsedFrom(files: seq<PathEntry>, fileFilter: Option<PathEntry -> bool>,
                                          parse: string -> Result<Option<ParsedFile>>,
                                          j: int)
    requires 0 <= j < |Walk(files, fileFilter, parse).parsed|
    ensures exists e | e in files ::
      PassesFilter(fileFilter, e)
      && parse(e.path) == Success(Some(Walk(files, fileFilter, parse).parsed[j]))
  {
    var init := files[..|files| - 1];
    var e := files[|files| - 1];
    var w0 := Walk(init, fileFilter, parse);
    if j < |w0.parsed| {
      WalkParsedFrom(init, fileFilter, parse, j);
      var x :| x in init && PassesFilter(fileFilter, x)
        && parse(x.path) == Success(Some(w0.parsed[j]));
      assert x in files;
    } else {
      assert e in files;
    }
  }

  /** The chunk plans of the parsed files, one file's after another. */
  function PlansOf(repo: string, pfs: seq<ParsedFile>): seq<CodeChunk> {
    if |pfs| == 0 then []
    else PlansOf(repo, pfs[..|pfs| - 1]) + Plan(repo, pfs[|pfs| - 1])
  }

  /** Numbering the next file's plan on from the chunks so far numbers the longer list of plans. */
  lemma PlansSnoc(repo: string, start: nat, pfs: seq<ParsedFile>, pf: ParsedFile,
                  done: seq<CodeChunk>, next: seq<CodeChunk>)
    requires done == Numbered(repo, start, PlansOf(repo, pfs))
    requires next == Numbered(repo, start + |done|, Plan(repo, pf))
    ensures done + next == Numbered(repo, start, PlansOf(repo, pfs + [pf]))
  {
    assert (pfs + [pf])[..|pfs|] == pfs;
    NumberedConcat(repo, start, PlansOf(repo, pfs), Plan(repo, pf), done, next);
  }

  /** Every processed file contributes at least one chunk, so `chunks_created >= files_processed`. */
  lemma {:induction false} PlansCoverFiles(repo: string, pfs: seq<ParsedFile>)
    ensures |PlansOf(repo, pfs)| >= |pfs|
  {
    if |pfs| > 0 {
      PlansCoverFiles(repo, pfs[..|pfs| - 1]);
      assert |Plan(repo, pfs[|pfs| - 1])| >= 1;
    }
  }

  /** The dependency analyzer's file map after `add_file` of each parsed file, in order. */
  function PutFiles(fm: Dict<string, ParsedFile>, pfs: seq<ParsedFile>): (r: Dict<string, ParsedFile>)
    requires fm.Valid()
    ensures r.Valid()
  {
    if |pfs| == 0 then fm
    else PutFiles(fm, pfs[..|pfs| - 1]).Put(pfs[|pfs| - 1].filePath, pfs[|pfs| - 1])
  }

  lemma PutFilesSnoc(fm: Dict<string, ParsedFile>, pfs: seq<ParsedFile>, pf: ParsedFile)
    requires fm.Valid()
    ensures PutFiles(fm, pfs + [pf]) == PutFiles(fm, pfs).Put(pf.filePath, pf)
  {
    assert (pfs + [pf])[..|pfs|] == pfs;
  }

  /** Each parsed file is in the map under its own path, and nothing else was added. */
  lemma {:induction false} PutFilesKeys(fm: Dict<string, ParsedFile>, pfs: seq<ParsedFile>, path: string)
    requires fm.Valid()
    ensures path in PutFiles(fm, pfs).entries
      <==> path in fm.entries || exists j | 0 <= j < |pfs| :: pfs[j].filePath == path
  {
    if |pfs| > 0 {
      var init := pfs[..|pfs| - 1];
      PutFilesKeys(fm, init, path);
      if exists j | 0 <= j < |init| :: init[j].filePath == path {
        var j :| 0 <= j < |init| && init[j].filePath == path;
        assert pfs[j] == init[j];
      }
      if exists j | 0 <= j < |pfs| :: pfs[j].filePath == path {
        var j :| 0 <= j < |pfs| && pfs[j].filePath == path;
        if j < |init| {
          assert init[j] == pfs[j];
        }
      }
    }
  }

  /** The result `index` returns, given the loop's outcome and the number of chunks created. */
  datatype IndexingResult = IndexingResult(
    repoName: string,
    filesProcessed: int,
    filesSkipped: int,
    chunksCreated: int,
    chunksIndexed: int,
    gitCommit: Option<string>,
    errors: seq<string>)

  function IndexResult(repo: string, w: Progress, created: nat, gitCommit: Option<string>,
                    storeError: Option<string>): (r: IndexingResult)
    ensures r.filesProcessed == w.processed && r.filesSkipped == w.skipped && r.chunksCreated == created
    ensures r.chunksIndexed == created || r.chunksIndexed == 0
    ensures r.chunksIndexed == created <==> created == 0 || storeError.None?
    ensures w.errors <= r.errors && |r.errors| <= |w.errors| + 1
    ensures |r.errors| == |w.errors| + 1 <==> created > 0 && storeError.Some?
  {
    var stored := created > 0 && storeError.None?;
    IndexingResult(
      repo, w.processed, w.skipped, created, if stored then created else 0, gitCommit,
      w.errors + if created > 0 && storeError.Some? then ["Embedding error: " + storeError.value] else [])
  }

  /** The collection after the chunks are handed to the store, or unchanged when there are none or the store raises. */
  function StoredAfter(records: seq<Record>, encode: string -> Embedding, chunks: seq<CodeChunk>,
                       storeError: Option<string>): seq<Record> {
    if |chunks| > 0 && storeError.None? then AddRecords(records, Map((c: CodeChunk) => RecordOf(encode, c), chunks))
    else records
  }

  /** The result of indexing when the repository was not indexed on adding it. */
  function EmptyResult(repo: string): (r: IndexingResult)
    ensures r.repoName == repo && r.gitCommit.None? && r.errors == []
    ensures r.filesProcessed == r.filesSkipped == r.chunksCreated == r.chunksIndexed == 0
  {
    IndexingResult(repo, 0, 0, 0, 0, None, [])
  }

  // ---------------------------------------------------------------- changed files

  /** One entry of a git diff: the old and the new path, either of which may be missing. */
  datatype Diff = Diff(aPath: Option<string>, bPath: Option<string>)

  /** The paths one diff contributes: the old path if set, then the new one if set and different. */
  function DiffPaths(d: Diff): seq<string> {
    (if Truthy(d.aPath) then [d.aPath.value] else [])
    + (if Truthy(d.bPath) && d.bPath != d.aPath then [d.bPath.value] else [])
  }

  function ChangedPaths(diffs: seq<Diff>): seq<string> {
    if |diffs| == 0 then []
    else ChangedPaths(diffs[..|diffs| - 1]) + DiffPaths(diffs[|diffs| - 1])
  }

  /** A path is listed exactly when some diff names it as its old or new path; dropping the
      repeated new path loses nothing. */
  lemma {:induction false} ChangedPathsMembers(diffs: seq<Diff>, p: string)
    ensures p in ChangedPaths(diffs) <==> exists i | 0 <= i < |diffs| ::
      p != "" && (diffs[i].aPath == Some(p) || diffs[i].bPath == Some(p))
  {
    if |diffs| > 0 {
      var init := diffs[..|diffs| - 1];
      ChangedPathsMembers(init, p);
      if exists i | 0 <= i < |init| :: p != "" && (init[i].aPath == Some(p) || init[i].bPath == Some(p)) {
        var i :| 0 <= i < |init| && p != "" && (init[i].aPath == Some(p) || init[i].bPath == Some(p));
        assert diffs[i] == init[i];
      }
      if exists i | 0 <= i < |diffs| :: p != "" && (diffs[i].aPath == Some(p) || diffs[i].bPath == Some(p)) {
        var i :| 0 <= i < |diffs| && p != "" && (diffs[i].aPath == Some(p) || diffs[i].bPath == Some(p));
        if i < |init| {
          assert init[i] == diffs[i];
        }
      }
    }
  }

  /** At most two paths per diff. */
  lemma {:induction false} ChangedPathsLength(diffs: seq<Diff>)
    ensures |ChangedPaths(diffs)| <= 2 * |diffs|
  {
    if |diffs| > 0 {
      ChangedPathsLength(diffs[..|diffs| - 1]);
    }
  }

  /**
    `get_changed_files`: `diffs` is the diff of the head commit against the given one, or `None`
    when there is no git repository or git raises; then the list is empty.
   */
  method GetChangedFiles(diffs: Option<seq<Diff>>) returns (changed: seq<string>)
    ensures diffs.None? ==> changed == []
    ensures diffs.Some? ==> changed == ChangedPaths(diffs.value)
  {
    if diffs.None? {
      return [];
    }
    var ds := diffs.value;
    changed := [];
    for i := 0 to |ds|
      invariant changed == ChangedPaths(ds[..i])
    {
      assert ds[..i + 1][..i] == ds[..i];
      var d := ds[i];
      if Truthy(d.aPath) {
        changed := changed + [d.aPath.value];
      }
      if Truthy(d.bPath) && d.bPath != d.aPath {
        changed := changed + [d.bPath.value];
      }
    }
    assert ds[..|ds|] == ds;
  }

  // ---------------------------------------------------------------- RepoIndexer

  class RepoIndexer {
    const repoPath: string
    const repoName: string
    /** The store, shared with the other repositories' indexers. */
    const embeddingStore: EmbeddingStore
    const chunker: CodeChunker
    const dependencyAnalyzer: DependencyAnalyzer

    ghost predicate Valid()
      reads this, dependencyAnalyzer, embeddingStore
    {
      chunker.repoName == repoName && dependencyAnalyzer.repoName == repoName
      && dependencyAnalyzer.Valid() && embeddingStore.Valid()
    }

    constructor (repoPath: string, repoName: string, embeddingStore: EmbeddingStore)
      requires embeddingStore.Valid()
      ensures Valid()
      ensures this.repoPath == repoPath && this.repoName == repoName && this.embeddingStore == embeddingStore
      ensures fresh(chunker) && fresh(dependencyAnalyzer)
      ensures chunker.chunkCounter == 0 && dependencyAnalyzer.fileMap == EmptyDict()
    {
      this.repoPath := repoPath;
      this.repoName := repoName;
      this.embeddingStore := embeddingStore;
      chunker := new CodeChunker(repoName);
      dependencyAnalyzer := new DependencyAnalyzer(repoName);
    }

    /** A parsed file: added to the analyzer, then chunked, its chunks appended to those so far. */
    method IndexParsed(pf: ParsedFile, ghost c0: nat, ghost fm0: Dict<string, ParsedFile>,
                       ghost parsed: seq<ParsedFile>, allChunks: seq<CodeChunk>)
      returns (allChunks': seq<CodeChunk>)
      requires Valid() && fm0.Valid()
      requires allChunks == Numbered(repoName, c0, PlansOf(repoName, parsed))
      requires chunker.chunkCounter == c0 + |allChunks|
      requires dependencyAnalyzer.fileMap == PutFiles(fm0, parsed)
      modifies chunker, dependencyAnalyzer
      ensures Valid()
      ensures allChunks' == Numbered(repoName, c0, PlansOf(repoName, parsed + [pf]))
      ensures chunker.chunkCounter == c0 + |allChunks'|
      ensures dependencyAnalyzer.fileMap == PutFiles(fm0, parsed + [pf])
    {
      dependencyAnalyzer.AddFile(pf);
      var chunks := chunker.ChunkFile(pf);
      PlansSnoc(repoName, c0, parsed, pf, allChunks, chunks);
      PutFilesSnoc(fm0, parsed, pf);
      allChunks' := allChunks + chunks;
    }

    /** One scanned file of the loop of `index`: filtered out, skipped, or parsed, added to the analyzer and chunked. */
    method IndexEntry(e: PathEntry, fileFilter: Option<PathEntry -> bool>, parse: string -> Result<Option<ParsedFile>>,
                      ghost c0: nat, ghost fm0: Dict<string, ParsedFile>, ghost done: seq<PathEntry>,
                      w: Progress, allChunks: seq<CodeChunk>)
      returns (w': Progress, allChunks': seq<CodeChunk>)
      requires Valid() && fm0.Valid()
      requires w == Walk(done, fileFilter, parse)
      requires allChunks == Numbered(repoName, c0, PlansOf(repoName, w.parsed))
      requires chunker.chunkCounter == c0 + |allChunks|
      requires dependencyAnalyzer.fileMap == PutFiles(fm0, w.parsed)
      modifies chunker, dependencyAnalyzer
      ensures Valid()
      ensures w' == Walk(done + [e], fileFilter, parse)
      ensures allChunks' == Numbered(repoName, c0, PlansOf(repoName, w'.parsed))
      ensures chunker.chunkCounter == c0 + |allChunks'|
      ensures dependencyAnalyzer.fileMap == PutFiles(fm0, w'.parsed)
    {
      assert (done + [e])[..|done|] == done;
      w', allChunks' := w, allChunks;
      if PassesFilter(fileFilter, e) {
        var parsed := parse(e.path);
        if parsed.Failure? {
          w' := w.(skipped := w.skipped + 1, errors := w.errors + [e.path + ": " + parsed.error]);
        } else if parsed.value.None? {
          w' := w.(skipped := w.skipped + 1);
        } else {
          var pf := parsed.value.value;
          allChunks' := IndexParsed(pf, c0, fm0, w.parsed, allChunks);
          w' := w.(processed := w.processed + 1, parsed := w.parsed + [pf]);
        }
      }
    }

    /** The loop of `index` over the scanned files. */
    method IndexFiles(files: seq<PathEntry>, fileFilter: Option<PathEntry -> bool>,
                      parse: string -> Result<Option<ParsedFile>>)
      returns (w: Progress, allChunks: seq<CodeChunk>)
      requires Valid()
      modifies chunker, dependencyAnalyzer
      ensures Valid()
      ensures w == Walk(files, fileFilter, parse)
      ensures allChunks == Numbered(repoName, old(chunker.chunkCounter), PlansOf(repoName, w.parsed))
      ensures chunker.chunkCounter == old(chunker.chunkCounter) + |allChunks|
      ensures dependencyAnalyzer.fileMap == PutFiles(old(dependencyAnalyzer.fileMap), w.parsed)
    {
      ghost var c0 := chunker.chunkCounter;
      ghost var fm0 := dependencyAnalyzer.fileMap;
      w := Progress(0, 0, [], []);
      allChunks := [];
      for i := 0 to |files|
        invariant Valid()
        invariant w == Walk(files[..i], fileFilter, parse)
        invariant allChunks == Numbered(repoName, c0, PlansOf(repoName, w.parsed))
        invariant chunker.chunkCounter == c0 + |allChunks|
        invariant dependencyAnalyzer.fileMap == PutFiles(fm0, w.parsed)
      {
        assert files[..i + 1] == files[..i] + [files[i]];
        w, allChunks := IndexEntry(files[i], fileFilter, parse, c0, fm0, files[..i], w, allChunks);
      }
      assert files[..|files|] == files;
    }

    /**
      `index`: scan, run the loop, then hand every chunk to the store in one call. `storeError` is
      the error the store raises, if it does.
     */
    method Index(tree: seq<PathEntry>, fileFilter: Option<PathEntry -> bool>,
                 parse: string -> Result<Option<ParsedFile>>,
                 gitCommit: Option<string>, storeError: Option<string>)
      returns (result: IndexingResult)
      requires Valid()
      modifies chunker, dependencyAnalyzer, embeddingStore
      ensures Valid()
      ensures var w := Walk(Filter(ScanAccepts, tree), fileFilter, parse);
        var chunks := Numbered(repoName, old(chunker.chunkCounter), PlansOf(repoName, w.parsed));
        && result == IndexResult(repoName, w, |chunks|, gitCommit, storeError)
        && chunker.chunkCounter == old(chunker.chunkCounter) + |chunks|
        && dependencyAnalyzer.fileMap == PutFiles(old(dependencyAnalyzer.fileMap), w.parsed)
        && embeddingStore.records == StoredAfter(old(embeddingStore.records), embeddingStore.encode, chunks, storeError)
    {
      var files := ScanRepo(tree);
      var w, allChunks := IndexFiles(files, fileFilter, parse);
      var chunksIndexed, storeErrors := StoreChunks(embeddingStore, allChunks, storeError);
      result := IndexingResult(repoName, w.processed, w.skipped, |allChunks|, chunksIndexed, gitCommit,
                               w.errors + storeErrors);
    }

    /**
      `index_file`: parses one file and stores its chunks; parse and store errors propagate, and a
      file without a language gives no chunks and stores nothing.
     */
    method IndexFile(filePath: string, parse: string -> Result<Option<ParsedFile>>,
                     storeError: Option<string>)
      returns (r: Result<seq<CodeChunk>>)
      requires Valid()
      modifies chunker, embeddingStore
      ensures Valid()
      ensures unchanged(dependencyAnalyzer)
      ensures parse(filePath).Failure? ==>
        r.Failure? && unchanged(chunker) && unchanged(embeddingStore)
      ensures parse(filePath) == Success(None) ==>
        r == Success([]) && unchanged(chunker) && unchanged(embeddingStore)
      ensures parse(filePath).Success? && parse(filePath).value.Some? ==>
        var chunks := Numbered(repoName, old(chunker.chunkCounter), Plan(repoName, parse(filePath).value.value));
        && chunker.chunkCounter == old(chunker.chunkCounter) + |chunks|
        && (storeError.Some? ==> r == Failure(storeError.value) && unchanged(embeddingStore))
        && (storeError.None? ==>
              r == Success(chunks)
              && embeddingStore.records == StoredAfter(old(embeddingStore.records), embeddingStore.encode, chunks, None))
    {
      var parsed := parse(filePath);
      if parsed.Failure? {
        return Failure(parsed.error);
      }
      if parsed.value.None? {
        return Success([]);
      }
      var chunks := chunker.ChunkFile(parsed.value.value);
      if |chunks| > 0 {
        if storeError.Some? {
          return Failure(storeError.value);
        }
        embeddingStore.AddChunks(chunks);
      }
      return Success(chunks);
    }

    /**
      `reindex`: with `force`, the repository's records are deleted before indexing again;
      without it, the repository is indexed again over what is stored.
     */
    method Reindex(force: bool, tree: seq<PathEntry>, parse: string -> Result<Option<ParsedFile>>,
                   gitCommit: Option<string>, storeError: Option<string>)
      returns (result: IndexingResult)
      requires Valid()
      modifies chunker, dependencyAnalyzer, embeddingStore
      ensures Valid()
      ensures var w := Walk(Filter(ScanAccepts, tree), None, parse);
        var chunks := Numbered(repoName, old(chunker.chunkCounter), PlansOf(repoName, w.parsed));
        var before := if force then NotMatching(old(embeddingStore.records), Some(RepoWhere(repoName)))
                      else old(embeddingStore.records);
        && result == IndexResult(repoName, w, |chunks|, gitCommit, storeError)
        && chunker.chunkCounter == old(chunker.chunkCounter) + |chunks|
        && dependencyAnalyzer.fileMap == PutFiles(old(dependencyAnalyzer.fileMap), w.parsed)
        && embeddingStore.records == StoredAfter(before, embeddingStore.encode, chunks, storeError)
    {
      if force {
        var dropped := embeddingStore.DeleteRepo(repoName);
      }
      result := Index(tree, None, parse, gitCommit, storeError);
    }
  }

  /**
    The end of `index`: every chunk goes to the store in one call when there are any; an error
    the store raises becomes one more entry of the result's errors.
   */
  method StoreChunks(store: EmbeddingStore, chunks: seq<CodeChunk>, storeError: Option<string>)
    returns (chunksIndexed: int, storeErrors: seq<string>)
    requires store.Valid()
    modifies store
    ensures store.Valid()
    ensures store.records == StoredAfter(old(store.records), store.encode, chunks, storeError)
    ensures chunksIndexed == (if |chunks| > 0 && storeError.None? then |chunks| else 0)
    ensures storeErrors == (if |chunks| > 0 && storeError.Some? then ["Embedding error: " + storeError.value] else [])
  {
    chunksIndexed, storeErrors := 0, [];
    if |chunks| > 0 {
      if storeError.Some? {
        storeErrors := ["Embedding error: " + storeError.value];
      } else {
        store.AddChunks(chunks);
        chunksIndexed := |chunks|;
      }
    }
  }

  // ---------------------------------------------------------------- MultiRepoIndexer

  /**
    The configuration record after `add_repo`'s two status updates: first `INDEXING`, then
    `INDEXED` with the result's commit and counts.
   */
  function IndexedConfig(r: SC.RepoConfig, result: IndexingResult, now: string): SC.RepoConfig {
    var indexing := SC.WithStatus(r, SC.Indexing, None, None, None, None, now);
    SC.WithStatus(indexing, SC.Indexed, result.gitCommit, Some(result.filesProcessed), Some(result.chunksIndexed), None, now)
  }

  /** After indexing, the record says `INDEXED` at `now` with the result's counts, keeping the old commit when there is none. */
  lemma IndexedConfigFields(r: SC.RepoConfig, result: IndexingResult, now: string)
    ensures var u := IndexedConfig(r, result, now);
      && u.name == r.name && u.path == r.path && u.autoReindex == r.autoReindex
      && u.status == SC.Indexed && u.lastIndexed == Some(now)
      && u.lastCommit == (if result.gitCommit.Some? then result.gitCommit else r.lastCommit)
      && u.filesIndexed == result.filesProcessed && u.chunksIndexed == result.chunksIndexed
      && u.errorMessage == r.errorMessage
  {
  }

  class MultiRepoIndexer {
    /** The store all repositories share. */
    const embeddingStore: EmbeddingStore
    /** `repo_indexers`: repository name -> its indexer, in insertion order. */
    var repoIndexers: Dict<string, RepoIndexer>
    const crossRepoAnalyzer: CrossRepoAnalyzer
    const stackConfig: SC.StackConfig

    ghost predicate Valid()
      reads this, embeddingStore, crossRepoAnalyzer, crossRepoAnalyzer.Analyzers(), stackConfig
    {
      repoIndexers.Valid() && embeddingStore.Valid() && crossRepoAnalyzer.Valid() && stackConfig.Valid()
    }

    constructor (embeddingStore: EmbeddingStore)
      requires embeddingStore.Valid()
      ensures Valid() && this.embeddingStore == embeddingStore
      ensures repoIndexers == EmptyDict() && crossRepoAnalyzer.repoAnalyzers == EmptyDict()
      ensures stackConfig.repos == EmptyDict()
    {
      this.embeddingStore := embeddingStore;
      repoIndexers := EmptyDict();
      crossRepoAnalyzer := new CrossRepoAnalyzer();
      stackConfig := new SC.StackConfig();
    }

    /**
      The first half of `add_repo`: records the repository in the configuration with automatic
      reindexing on, and registers a new indexer for it and its analyzer with the
      cross-repository analyzer, replacing any earlier registration in place.
     */
    method Register(repoPath: string, repoName: string) returns (indexer: RepoIndexer)
      requires Valid()
      modifies this, crossRepoAnalyzer, stackConfig
      ensures Valid() && indexer.Valid()
      ensures fresh(indexer) && fresh(indexer.chunker) && fresh(indexer.dependencyAnalyzer)
      ensures indexer.chunker.chunkCounter == 0 && indexer.dependencyAnalyzer.fileMap == EmptyDict()
      ensures indexer.repoName == repoName && indexer.repoPath == repoPath && indexer.embeddingStore == embeddingStore
      ensures repoIndexers == old(repoIndexers).Put(repoName, indexer)
      ensures crossRepoAnalyzer.repoAnalyzers == old(crossRepoAnalyzer.repoAnalyzers).Put(repoName, indexer.dependencyAnalyzer)
      ensures stackConfig.repos == old(stackConfig.repos).Put(repoName, SC.NewRepoConfig(repoName, repoPath, true))
    {
      var config := stackConfig.AddRepo(repoName, repoPath, true);
      indexer := new RepoIndexer(repoPath, repoName, embeddingStore);
      repoIndexers := repoIndexers.Put(repoName, indexer);
      crossRepoAnalyzer.AddRepo(repoName, indexer.dependencyAnalyzer);
    }

    /** The indexing half of `add_repo`, on the shared configuration and the new indexer. */
    method IndexRegistered(indexer: RepoIndexer, tree: seq<PathEntry>, parse: string -> Result<Option<ParsedFile>>,
                           gitCommit: Option<string>, storeError: Option<string>, now: string)
      returns (result: IndexingResult)
      requires Valid() && indexer.Valid() && indexer.embeddingStore == embeddingStore
      requires indexer.repoName in stackConfig.repos.entries
      modifies stackConfig, indexer.chunker, indexer.dependencyAnalyzer, embeddingStore
      ensures Valid()
      ensures repoIndexers == old(repoIndexers) && crossRepoAnalyzer.repoAnalyzers == old(crossRepoAnalyzer.repoAnalyzers)
      ensures var w := Walk(Filter(ScanAccepts, tree), None, parse);
        var chunks := Numbered(indexer.repoName, old(indexer.chunker.chunkCounter), PlansOf(indexer.repoName, w.parsed));
        && result == IndexResult(indexer.repoName, w, |chunks|, gitCommit, storeError)
        && stackConfig.repos == old(stackConfig.repos).Put(indexer.repoName,
             IndexedConfig(old(stackConfig.repos.entries[indexer.repoName]), result, now))
        && indexer.chunker.chunkCounter == old(indexer.chunker.chunkCounter) + |chunks|
        && indexer.dependencyAnalyzer.fileMap == PutFiles(old(indexer.dependencyAnalyzer.fileMap), w.parsed)
        && embeddingStore.records == StoredAfter(old(embeddingStore.records), embeddingStore.encode, chunks, storeError)
    {
      result := IndexAndRecord(stackConfig, indexer, tree, parse, gitCommit, storeError, now);
      forall k | k in crossRepoAnalyzer.repoAnalyzers.entries
        ensures crossRepoAnalyzer.repoAnalyzers.entries[k].Valid()
      {
        var a := crossRepoAnalyzer.repoAnalyzers.entries[k];
        assert a == indexer.dependencyAnalyzer || unchanged(a);
      }
    }

    /**
      `add_repo`: registers the repository and, with `autoIndex`, indexes it and records the
      outcome; otherwise the result is all zero. `now` is the clock reading.
     */
    method AddRepo(repoPath: string, repoName: string, autoIndex: bool, tree: seq<PathEntry>,
                   parse: string -> Result<Option<ParsedFile>>,
                   gitCommit: Option<string>, storeError: Option<string>, now: string)
      returns (indexer: RepoIndexer, result: IndexingResult)
      requires Valid()
      modifies this, crossRepoAnalyzer, stackConfig, embeddingStore
      ensures Valid()
      ensures fresh(indexer) && indexer.repoName == repoName && indexer.repoPath == repoPath
      ensures indexer.embeddingStore == embeddingStore
      ensures repoIndexers == old(repoIndexers).Put(repoName, indexer)
      ensures crossRepoAnalyzer.repoAnalyzers == old(crossRepoAnalyzer.repoAnalyzers).Put(repoName, indexer.dependencyAnalyzer)
      ensures !autoIndex ==> result == EmptyResult(repoName) && embeddingStore.records == old(embeddingStore.records)
      ensures !autoIndex ==> stackConfig.repos == old(stackConfig.repos).Put(repoName, SC.NewRepoConfig(repoName, repoPath, true))
      ensures autoIndex ==>
        var w := Walk(Filter(ScanAccepts, tree), None, parse);
        var chunks := Numbered(repoName, 0, PlansOf(repoName, w.parsed));
        && result == IndexResult(repoName, w, |chunks|, gitCommit, storeError)
        && stackConfig.repos == old(stackConfig.repos).Put(repoName,
             IndexedConfig(SC.NewRepoConfig(repoName, repoPath, true), result, now))
        && indexer.chunker.chunkCounter == |chunks|
        && indexer.dependencyAnalyzer.fileMap == PutFiles(EmptyDict(), w.parsed)
        && embeddingStore.records == StoredAfter(old(embeddingStore.records), embeddingStore.encode, chunks, storeError)
    {
      indexer := Register(repoPath, repoName);
      if autoIndex {
        result := IndexRegistered(indexer, tree, parse, gitCommit, storeError, now);
        PutTwice(old(stackConfig.repos), repoName, SC.NewRepoConfig(repoName, repoPath, true), stackConfig.repos.entries[repoName]);
      } else {
        result := EmptyResult(repoName);
      }
    }

    /**
      `remove_repo`: drops the repository from the registry, the cross-repository analyzer and the
      configuration (each only if present), and returns how many records the store deleted.
     */
    method RemoveRepo(repoName: string) returns (deleted: nat)
      requires Valid()
      modifies this, crossRepoAnalyzer, stackConfig, embeddingStore
      ensures Valid()
      ensures repoIndexers == old(repoIndexers).Remove(repoName)
      ensures crossRepoAnalyzer.repoAnalyzers == old(crossRepoAnalyzer.repoAnalyzers).Remove(repoName)
      ensures stackConfig.repos == old(stackConfig.repos).Remove(repoName)
      ensures embeddingStore.records == NotMatching(old(embeddingStore.records), Some(RepoWhere(repoName)))
      ensures deleted == |old(embeddingStore.records)| - |embeddingStore.records|
    {
      if repoName in repoIndexers.entries {
        repoIndexers := repoIndexers.Remove(repoName);
      }
      Unregister(crossRepoAnalyzer, repoName);
      var removed := stackConfig.RemoveRepo(repoName);
      deleted := embeddingStore.DeleteRepo(repoName);
    }
  }

  /**
    The status updates around indexing in `add_repo`: the record is `INDEXING` while the
    repository is indexed, then `INDEXED` with the commit and the counts of the result.
   */
  method IndexAndRecord(config: SC.StackConfig, indexer: RepoIndexer, tree: seq<PathEntry>,
                        parse: string -> Result<Option<ParsedFile>>,
                        gitCommit: Option<string>, storeError: Option<string>, now: string)
    returns (result: IndexingResult)
    requires config.Valid() && indexer.Valid() && indexer.repoName in config.repos.entries
    modifies config, indexer.chunker, indexer.dependencyAnalyzer, indexer.embeddingStore
    ensures config.Valid() && indexer.Valid()
    ensures var w := Walk(Filter(ScanAccepts, tree), None, parse);
      var chunks := Numbered(indexer.repoName, old(indexer.chunker.chunkCounter), PlansOf(indexer.repoName, w.parsed));
      && result == IndexResult(indexer.repoName, w, |chunks|, gitCommit, storeError)
      && config.repos == old(config.repos).Put(indexer.repoName, IndexedConfig(old(config.repos.entries[indexer.repoName]), result, now))
      && indexer.chunker.chunkCounter == old(indexer.chunker.chunkCounter) + |chunks|
      && indexer.dependencyAnalyzer.fileMap == PutFiles(old(indexer.dependencyAnalyzer.fileMap), w.parsed)
      && indexer.embeddingStore.records
           == StoredAfter(old(indexer.embeddingStore.records), indexer.embeddingStore.encode, chunks, storeError)
  {
    var name := indexer.repoName;
    ghost var repos0 := config.repos;
    ghost var indexing := SC.WithStatus(repos0.entries[name], SC.Indexing, None, None, None, None, now);
    config.UpdateRepoStatus(name, SC.Indexing, None, None, None, None, now);
    result := indexer.Index(tree, None, parse, gitCommit, storeError);
    config.UpdateRepoStatus(name, SC.Indexed, result.gitCommit, Some(result.filesProcessed),
                            Some(result.chunksIndexed), None, now);
    PutTwice(repos0, name, indexing, IndexedConfig(repos0.entries[name], result, now));
  }

  /** `del repo_analyzers[name]` on the cross-repository analyzer, when the name is registered. */
  method Unregister(cross: CrossRepoAnalyzer, name: string)
    requires cross.Valid()
    modifies cross
    ensures cross.Valid()
    ensures cross.repoAnalyzers == old(cross.repoAnalyzers).Remove(name)
  {
    if name in cross.repoAnalyzers.entries {
      cross.repoAnalyzers := cross.repoAnalyzers.Remove(name);
    }
  }
}

/**
  The embedding store: chunks go into a vector collection as (id, embedding, document, metadata)
  records, and come back out through filtered nearest-neighbour queries and metadata lookups.

  The collection is the sequence `records` of the store, in insertion order; `get` is a filter of
  it, `query` a filter sorted by distance to the query vector. The sentence encoder and the
  distance are functions the store is given; each document is encoded on its own.
 */
module Embeddings {
  import opened Base
  import opened Strings
  import opened Sorting
  import opened Chunker

  type Embedding = seq<real>

  /** The metadata stored with each chunk: `None` becomes `""`, the imports one comma-joined string. */
  datatype Metadata = Metadata(
    filePath: string, repoName: string, language: string, chunkType: string, symbolName: string,
    parentClass: string, startLine: int, endLine: int, tokenCount: nat, imports: string)

  /** `SearchResult`. */
  datatype SearchResult = SearchResult(
    chunkId: string, filePath: string, repoName: string, symbolName: Option<string>, codeText: string,
    score: real, metadata: Metadata)

  /** One record of the vector collection. */
  datatype Record = Record(id: string, embedding: Embedding, document: string, metadata: Metadata)

  /** `",".join(imports) if imports else ""`. */
  function ImportsText(imports: seq<string>): string {
    if |imports| > 0 then Join(",", imports) else ""
  }

  /** The empty-list guard changes nothing: joining no imports already gives `""`. */
  lemma ImportsTextIsJoin(imports: seq<string>)
    ensures ImportsText(imports) == Join(",", imports)
  {
  }

  /** The metadata dictionary of a chunk. */
  function MetadataOf(c: CodeChunk): Metadata {
    Metadata(c.filePath, c.repoName, c.language, c.chunkType, OrEmpty(c.symbolName), OrEmpty(c.parentClass),
             c.startLine, c.endLine, c.tokenCount, ImportsText(c.imports))
  }

  /**
    Reading a result back recovers the chunk's symbol name, except that a symbol named `""`
    reads back as `None`; a missing parent class is stored as `""`.
   */
  lemma SymbolRoundTrip(c: CodeChunk)
    ensures c.symbolName != Some("") ==> NoneIfEmpty(MetadataOf(c).symbolName) == c.symbolName
    ensures c.symbolName == Some("") ==> NoneIfEmpty(MetadataOf(c).symbolName) == None
    ensures c.parentClass.None? ==> MetadataOf(c).parentClass == ""
    ensures MetadataOf(c).imports == "" <==> |c.imports| == 0 || c.imports == [""]
  {
    NoneIfEmptyOrEmpty(c.symbolName);
    if |c.imports| > 1 {
      JoinCons(",", c.imports[0], c.imports[1..]);
      assert c.imports == [c.imports[0]] + c.imports[1..];
    } else if |c.imports| == 1 {
      assert c.imports == [c.imports[0]];
    }
  }

  /** A search result built from a stored record and a score. */
  function ResultOf(r: Record, score: real): (s: SearchResult)
    ensures s.chunkId == r.id && s.codeText == r.document && s.metadata == r.metadata && s.score == score
    ensures s.symbolName == NoneIfEmpty(r.metadata.symbolName)
  {
    SearchResult(r.id, r.metadata.filePath, r.metadata.repoName, NoneIfEmpty(r.metadata.symbolName), r.document,
                 score, r.metadata)
  }

  // ---------------------------------------------------------------- where filters

  datatype Field = FilePathField | RepoNameField | LanguageField | SymbolNameField

  function FieldOf(m: Metadata, f: Field): string {
    match f
    case FilePathField => m.filePath
    case RepoNameField => m.repoName
    case LanguageField => m.language
    case SymbolNameField => m.symbolName
  }

  /** One condition of a where filter: `{field: value}` or `{field: {"$in": values}}`. */
  datatype Condition = Eq(field: Field, value: string) | In(field: Field, values: seq<string>)

  /** A where filter: all its conditions hold (a dictionary of several keys, or `$and`). */
  datatype Where = Where(conditions: seq<Condition>)

  predicate Holds(c: Condition, m: Metadata) {
    match c
    case Eq(f, v) => FieldOf(m, f) == v
    case In(f, vs) => FieldOf(m, f) in vs
  }

  /** Whether a record with metadata `m` passes the optional filter. */
  predicate Admits(w: Option<Where>, m: Metadata) {
    w.None? || forall i | 0 <= i < |w.value.conditions| :: Holds(w.value.conditions[i], m)
  }

  lemma AdmitsOne(a: Condition)
    ensures forall m :: Admits(Some(Where([a])), m) <==> Holds(a, m)
  {
    assert [a][0] == a;
  }

  lemma AdmitsTwo(a: Condition, b: Condition)
    ensures forall m :: Admits(Some(Where([a, b])), m) <==> Holds(a, m) && Holds(b, m)
  {
    assert [a, b][0] == a && [a, b][1] == b;
  }

  /** The where filter of `semantic_search`; a `None` or empty repo list and a `None` or empty language set no condition. */
  function SearchWhere(repoFilter: seq<string>, languageFilter: Option<string>): (w: Option<Where>)
    ensures w.None? <==> |repoFilter| == 0 && !Truthy(languageFilter)
    ensures forall m :: Admits(w, m) <==>
      (|repoFilter| > 0 ==> m.repoName in repoFilter) && (Truthy(languageFilter) ==> m.language == languageFilter.value)
  {
    var repo, lang := In(RepoNameField, repoFilter), Eq(LanguageField, OrEmpty(languageFilter));
    if |repoFilter| > 0 && Truthy(languageFilter) then AdmitsTwo(repo, lang); Some(Where([repo, lang]))
    else if |repoFilter| > 0 then AdmitsOne(repo); Some(Where([repo]))
    else if Truthy(languageFilter) then AdmitsOne(lang); Some(Where([lang]))
    else None
  }

  /** The where filter of `find_by_symbol`: the symbol, and with a repo list also the repo (under `$and`). */
  function SymbolWhere(symbolName: string, repoFilter: seq<string>): (w: Where)
    ensures forall m :: Admits(Some(w), m) <==>
      m.symbolName == symbolName && (|repoFilter| > 0 ==> m.repoName in repoFilter)
  {
    var sym, repo := Eq(SymbolNameField, symbolName), In(RepoNameField, repoFilter);
    if |repoFilter| > 0 then AdmitsTwo(sym, repo); Where([sym, repo])
    else AdmitsOne(sym); Where([sym])
  }

  function RepoWhere(repoName: string): (w: Where)
    ensures forall m :: Admits(Some(w), m) <==> m.repoName == repoName
  {
    AdmitsOne(Eq(RepoNameField, repoName));
    Where([Eq(RepoNameField, repoName)])
  }

  function FileWhere(repoName: string, filePath: string): (w: Where)
    ensures forall m :: Admits(Some(w), m) <==> m.repoName == repoName && m.filePath == filePath
  {
    AdmitsTwo(Eq(RepoNameField, repoName), Eq(FilePathField, filePath));
    Where([Eq(RepoNameField, repoName), Eq(FilePathField, filePath)])
  }

  // ---------------------------------------------------------------- the collection

  function Ids(rs: seq<Record>): seq<string> {
    Map((r: Record) => r.id, rs)
  }

  predicate UniqueIds(rs: seq<Record>) {
    forall i, j | 0 <= i < j < |rs| :: rs[i].id != rs[j].id
  }

  /** `collection.get(where=w)`: the matching records in collection order. */
  function Matching(rs: seq<Record>, w: Option<Where>): (r: seq<Record>)
    ensures forall x | x in r :: x in rs && Admits(w, x.metadata)
    ensures forall x | x in rs && Admits(w, x.metadata) :: x in r
  {
    Filter((x: Record) => Admits(w, x.metadata), rs)
  }

  /** The records a deletion of the matching ids leaves. */
  function NotMatching(rs: seq<Record>, w: Option<Where>): (r: seq<Record>)
    ensures forall x | x in r :: x in rs && !Admits(w, x.metadata)
    ensures forall x | x in rs && !Admits(w, x.metadata) :: x in r
  {
    Filter((x: Record) => !Admits(w, x.metadata), rs)
  }

  /** Matching and non-matching records together are the whole collection. */
  lemma MatchingSplits(rs: seq<Record>, w: Option<Where>)
    ensures |Matching(rs, w)| + |NotMatching(rs, w)| == |rs|
  {
    FilterComplement((x: Record) => Admits(w, x.metadata), (x: Record) => !Admits(w, x.metadata), rs);
  }

  /** With unique ids, deleting the ids of the matching records removes exactly the matching records. */
  lemma DeleteByIds(rs: seq<Record>, w: Option<Where>)
    requires UniqueIds(rs)
    ensures Filter((x: Record) => x.id !in Ids(Matching(rs, w)), rs) == NotMatching(rs, w)
  {
    var ids := Ids(Matching(rs, w));
    forall x | x in rs ensures (x.id !in ids) == !Admits(w, x.metadata) {
      if x.id in ids {
        var k :| 0 <= k < |ids| && ids[k] == x.id;
        var y := Matching(rs, w)[k];
        assert y in Matching(rs, w);
        var i :| 0 <= i < |rs| && rs[i] == x;
        var j :| 0 <= j < |rs| && rs[j] == y;
        assert rs[i].id == rs[j].id;
        assert i == j;
      }
    }
    FilterCongruent((x: Record) => x.id !in ids, (x: Record) => !Admits(w, x.metadata), rs);
  }

  /** Deleting keeps unique ids. */
  lemma {:induction false} FilterKeepsUniqueIds(p: Record -> bool, rs: seq<Record>)
    requires UniqueIds(rs)
    ensures UniqueIds(Filter(p, rs))
  {
    if |rs| > 0 {
      var init := rs[..|rs| - 1];
      var x := rs[|rs| - 1];
      assert UniqueIds(init);
      FilterKeepsUniqueIds(p, init);
      var f := Filter(p, init);
      forall y | y in f ensures y.id != x.id {
        var i :| 0 <= i < |init| && init[i] == y;
        assert rs[i] == y;
      }
      if p(x) {
        var g := f + [x];
        forall i, j | 0 <= i < j < |g| ensures g[i].id != g[j].id {
          if j == |g| - 1 {
            assert g[i] in f;
          }
        }
      }
    }
  }

  /**
    `collection.add`: each new record is appended unless its id is already present (earlier
    records, or earlier in the same call), in which case it is skipped.
   */
  function AddRecords(rs: seq<Record>, news: seq<Record>): seq<Record>
    decreases |news|
  {
    if |news| == 0 then rs
    else AddRecords(if news[0].id in Ids(rs) then rs else rs + [news[0]], news[1..])
  }

  /** Adding keeps every old record, in place, and keeps ids unique; every new id is then present. */
  lemma {:induction false} AddRecordsProperties(rs: seq<Record>, news: seq<Record>)
    requires UniqueIds(rs)
    ensures rs <= AddRecords(rs, news)
    ensures UniqueIds(AddRecords(rs, news))
    ensures forall k | 0 <= k < |news| :: news[k].id in Ids(AddRecords(rs, news))
    decreases |news|
  {
    if |news| > 0 {
      var next := if news[0].id in Ids(rs) then rs else rs + [news[0]];
      if news[0].id !in Ids(rs) {
        forall i, j | 0 <= i < j < |next| ensures next[i].id != next[j].id {
          if j == |rs| {
            assert Ids(rs)[i] == rs[i].id;
          }
        }
      }
      assert news[0].id in Ids(next) by {
        if news[0].id !in Ids(rs) {
          assert Ids(next)[|rs|] == news[0].id;
        }
      }
      AddRecordsProperties(next, news[1..]);
      var out := AddRecords(next, news[1..]);
      assert Ids(next) <= Ids(out) by {
        forall k | 0 <= k < |Ids(next)| ensures Ids(next)[k] == Ids(out)[k] {
          assert next[k] == out[k];
        }
      }
      forall k | 0 <= k < |news| ensures news[k].id in Ids(out) {
        if k == 0 {
          var m :| 0 <= m < |Ids(next)| && Ids(next)[m] == news[0].id;
          assert Ids(out)[m] == news[0].id;
        } else {
          assert news[1..][k - 1] == news[k];
        }
      }
    }
  }

  /** Chunks with fresh, distinct ids are appended, all of them, in order. */
  lemma {:induction false} AddFreshRecords(rs: seq<Record>, news: seq<Record>)
    requires forall k | 0 <= k < |news| :: news[k].id !in Ids(rs)
    requires UniqueIds(news)
    ensures AddRecords(rs, news) == rs + news
    decreases |news|
  {
    if |news| > 0 {
      var next := rs + [news[0]];
      forall k | 0 <= k < |news[1..]| ensures news[1..][k].id !in Ids(next) {
        assert news[1..][k] == news[k + 1];
      }
      AddFreshRecords(next, news[1..]);
      assert next + news[1..] == rs + news;
    }
  }

  /** The records `add_chunks` hands to the collection: one per chunk, in chunk order. */
  function RecordOf(encode: string -> Embedding, c: CodeChunk): Record {
    Record(c.chunkId, encode(c.contextText), c.contextText, MetadataOf(c))
  }

  /** The nearest matching records, closest first (ties in collection order), at most `n`; the key is the negated distance. */
  function Nearest(rs: seq<Record>, w: Option<Where>, query: Embedding, n: nat,
                   distance: (Embedding, Embedding) -> real): (r: seq<Scored<Record>>)
    ensures |r| <= n && Ranked(r)
    ensures forall k | 0 <= k < |r| :: r[k].item in rs && Admits(w, r[k].item.metadata)
                                      && r[k].score == -distance(query, r[k].item.embedding)
  {
    var m := Matching(rs, w);
    var keyed := seq(|m|, k requires 0 <= k < |m| => Scored(-distance(query, m[k].embedding), m[k], k));
    var sorted := SortRanked(keyed);
    RankedPrefix(sorted, Min(n, |sorted|));
    var r := TakePy(sorted, n);
    assert forall k | 0 <= k < |r| :: r[k] in multiset(keyed) by {
      forall k | 0 <= k < |r| ensures r[k] in multiset(keyed) {
        assert r[k] == sorted[k];
        assert sorted[k] in multiset(sorted);
      }
    }
    forall k | 0 <= k < |r|
      ensures r[k].item in rs && Admits(w, r[k].item.metadata) && r[k].score == -distance(query, r[k].item.embedding)
    {
      var j :| 0 <= j < |keyed| && keyed[j] == r[k];
      assert m[j] in m;
    }
    r
  }

  /** The results of a query: each hit's record with its distance as the score. */
  function HitResult(h: Scored<Record>): SearchResult {
    ResultOf(h.item, -h.score)
  }

  function HitResults(hits: seq<Scored<Record>>): seq<SearchResult> {
    Map(HitResult, hits)
  }

  lemma HitResultsSnoc(hits: seq<Scored<Record>>, h: Scored<Record>)
    ensures HitResults(hits + [h]) == HitResults(hits) + [ResultOf(h.item, -h.score)]
  {
    MapAppend(HitResult, hits, [h]);
  }

  /** The results `semantic_search` formats, nearest first. */
  function SearchResults(rs: seq<Record>, query: Embedding, n: nat, repoFilter: seq<string>, languageFilter: Option<string>,
                         distance: (Embedding, Embedding) -> real): seq<SearchResult> {
    HitResults(Nearest(rs, SearchWhere(repoFilter, languageFilter), query, n, distance))
  }

  /** Every semantic result passes both filters, comes from the store, and results are closest first. */
  lemma SearchResultsFiltered(rs: seq<Record>, query: Embedding, n: nat, repoFilter: seq<string>, languageFilter: Option<string>,
                              distance: (Embedding, Embedding) -> real)
    ensures var r := SearchResults(rs, query, n, repoFilter, languageFilter, distance);
      |r| <= n
      && (forall k | 0 <= k < |r| ::
            (|repoFilter| > 0 ==> r[k].metadata.repoName in repoFilter)
            && (Truthy(languageFilter) ==> r[k].metadata.language == languageFilter.value)
            && exists x | x in rs :: x.id == r[k].chunkId && x.document == r[k].codeText)
      && (forall i, j | 0 <= i <= j < |r| :: r[i].score <= r[j].score)
  {
    var w := SearchWhere(repoFilter, languageFilter);
    var hits := Nearest(rs, w, query, n, distance);
    var r := HitResults(hits);
    forall k | 0 <= k < |r|
      ensures (|repoFilter| > 0 ==> r[k].metadata.repoName in repoFilter)
           && (Truthy(languageFilter) ==> r[k].metadata.language == languageFilter.value)
           && exists x | x in rs :: x.id == r[k].chunkId && x.document == r[k].codeText
    {
      assert r[k] == ResultOf(hits[k].item, -hits[k].score);
      assert Admits(w, hits[k].item.metadata);
    }
    forall i, j | 0 <= i <= j < |r| ensures r[i].score <= r[j].score {
      RankedNonIncreasing(hits, i, j);
    }
  }

  /** The results `find_by_symbol` formats: at most 100 matching records, each scored 1.0. */
  function SymbolResults(rs: seq<Record>, symbolName: string, repoFilter: seq<string>): seq<SearchResult> {
    Map((x: Record) => ResultOf(x, 1.0), TakePy(Matching(rs, Some(SymbolWhere(symbolName, repoFilter))), 100))
  }

  lemma SymbolResultsExact(rs: seq<Record>, symbolName: string, repoFilter: seq<string>)
    ensures var r := SymbolResults(rs, symbolName, repoFilter);
      |r| <= 100
      && forall k | 0 <= k < |r| ::
           r[k].metadata.symbolName == symbolName && r[k].score == 1.0
           && r[k].symbolName == NoneIfEmpty(symbolName)
           && (|repoFilter| > 0 ==> r[k].repoName in repoFilter)
  {
    var m := TakePy(Matching(rs, Some(SymbolWhere(symbolName, repoFilter))), 100);
    forall k | 0 <= k < |m| ensures Admits(Some(SymbolWhere(symbolName, repoFilter)), m[k].metadata) {
      assert m[k] in Matching(rs, Some(SymbolWhere(symbolName, repoFilter)));
    }
  }

  /** Whether a hit comes from a file other than `filePath`. */
  function OtherFile(filePath: string): Scored<Record> -> bool {
    (h: Scored<Record>) => h.item.metadata.filePath != filePath
  }

  /**
    The results `find_related_by_file` keeps from its hits: those from other files, stopping once
    `n` are kept; the check follows the append, so with `n == 0` one result is still kept.
   */
  function RelatedResults(hits: seq<Scored<Record>>, filePath: string, n: nat): seq<SearchResult> {
    HitResults(TakePy(Filter(OtherFile(filePath), hits), if n == 0 then 1 else n))
  }

  lemma RelatedResultsBounds(hits: seq<Scored<Record>>, filePath: string, n: nat)
    ensures var r := RelatedResults(hits, filePath, n);
      (n > 0 ==> |r| <= n) && (n == 0 ==> |r| <= 1)
      && forall k | 0 <= k < |r| :: r[k].filePath != filePath && exists h | h in hits :: r[k] == ResultOf(h.item, -h.score)
  {
    var kept := TakePy(Filter(OtherFile(filePath), hits), if n == 0 then 1 else n);
    forall k | 0 <= k < |kept| ensures kept[k] in hits && kept[k].item.metadata.filePath != filePath {
      assert kept[k] in Filter(OtherFile(filePath), hits);
    }
  }

  /** Once `limit` hits are kept, the kept ones are the first `limit` of all the kept hits. */
  lemma KeptAtStop(p: Scored<Record> -> bool, hits: seq<Scored<Record>>, i: int, limit: nat)
    requires 0 <= i < |hits| && |Filter(p, hits[..i + 1])| == limit
    ensures TakePy(Filter(p, hits), limit) == Filter(p, hits[..i + 1])
  {
    FilterPrefix(p, hits, i + 1);
  }

  /** One hit of the result loop of `find_related_by_file`: kept when from another file; the loop stops at `limit`. */
  method KeepHit(hits: seq<Scored<Record>>, filePath: string, limit: nat, i: nat,
                 ghost kept: seq<Scored<Record>>, results: seq<SearchResult>)
    returns (ghost kept': seq<Scored<Record>>, results': seq<SearchResult>, stop: bool)
    requires i < |hits| && kept == Filter(OtherFile(filePath), hits[..i])
    requires results == HitResults(kept) && |kept| < limit
    ensures kept' == Filter(OtherFile(filePath), hits[..i + 1]) && results' == HitResults(kept')
    ensures stop ==> results' == HitResults(TakePy(Filter(OtherFile(filePath), hits), limit))
    ensures !stop ==> |kept'| < limit
  {
    var other := OtherFile(filePath);
    FilterSnoc(other, hits, i);
    assert other(hits[i]) == (hits[i].item.metadata.filePath != filePath);
    kept', results', stop := kept, results, false;
    if hits[i].item.metadata.filePath != filePath {
      HitResultsSnoc(kept, hits[i]);
      kept' := kept + [hits[i]];
      results' := results + [HitResult(hits[i])];
      if |results'| >= limit {
        KeptAtStop(other, hits, i, limit);
        stop := true;
      }
    }
  }

  /** The result loop of `find_related_by_file`: hits from other files, up to `n` (at least one). */
  method KeepOtherFiles(hits: seq<Scored<Record>>, filePath: string, n: nat) returns (results: seq<SearchResult>)
    ensures results == RelatedResults(hits, filePath, n)
  {
    var other := OtherFile(filePath);
    var limit := if n == 0 then 1 else n;
    ghost var kept: seq<Scored<Record>> := [];
    results := [];
    var i := 0;
    while i < |hits|
      invariant 0 <= i <= |hits|
      invariant kept == Filter(other, hits[..i])
      invariant results == HitResults(kept) && |kept| < limit
    {
      var stop;
      kept, results, stop := KeepHit(hits, filePath, limit, i, kept, results);
      if stop {
        return;
      }
      i := i + 1;
    }
    assert hits[..|hits|] == hits;
    assert kept == TakePy(Filter(other, hits), limit);
  }

  /** The repo statistics `get_repo_stats` reports. */
  datatype RepoStats = RepoStats(repoName: string, chunkCount: nat, files: seq<string>, languages: seq<string>)

  function RepoNames(rs: seq<Record>): seq<string> {
    Map((x: Record) => x.metadata.repoName, rs)
  }

  function FilePaths(rs: seq<Record>): seq<string> {
    Map((x: Record) => x.metadata.filePath, rs)
  }

  function Languages(rs: seq<Record>): seq<string> {
    Map((x: Record) => x.metadata.language, rs)
  }

  /** `list_repos` looks at no more than this many records. */
  const ListLimit: nat := 10000

  // ---------------------------------------------------------------- EmbeddingStore

  class EmbeddingStore {
    /** `model.encode`, one document at a time. */
    const encode: string -> Embedding
    /** The collection's distance between two vectors. */
    const distance: (Embedding, Embedding) -> real
    /** `embedding_batch_size`. */
    const batchSize: nat
    /** The collection, in insertion order. */
    var records: seq<Record>

    ghost predicate Valid()
      reads this
    {
      batchSize > 0 && UniqueIds(records)
    }

    constructor (encode: string -> Embedding, distance: (Embedding, Embedding) -> real, batchSize: nat)
      requires batchSize > 0
      ensures Valid() && records == []
      ensures this.encode == encode && this.distance == distance && this.batchSize == batchSize
    {
      this.encode := encode;
      this.distance := distance;
      this.batchSize := batchSize;
      records := [];
    }

    /** The encode loop of `add_chunks`: consecutive batches, whose vectors together are one per document, in order. */
    method EncodeInBatches(documents: seq<string>) returns (embeddings: seq<Embedding>)
      requires Valid()
      ensures embeddings == Map(encode, documents)
    {
      embeddings := [];
      var i := 0;
      while i < |documents|
        invariant 0 <= i
        invariant embeddings == Map(encode, documents[..Min(i, |documents|)])
        decreases |documents| - i
      {
        var end := Min(i + batchSize, |documents|);
        var batch := documents[i..end];
        MapAppend(encode, documents[..i], batch);
        assert documents[..i] + batch == documents[..end];
        embeddings := embeddings + Map(encode, batch);
        i := i + batchSize;
      }
      assert documents[..|documents|] == documents;
    }

    /** `add_chunks`: one record per chunk, in chunk order, in a single add. */
    method AddChunks(chunks: seq<CodeChunk>)
      requires Valid()
      modifies this
      ensures Valid()
      ensures records == AddRecords(old(records), Map((c: CodeChunk) => RecordOf(encode, c), chunks))
    {
      if |chunks| == 0 {
        return;
      }
      var ids := Map((c: CodeChunk) => c.chunkId, chunks);
      var documents := Map((c: CodeChunk) => c.contextText, chunks);
      var metadatas := Map(MetadataOf, chunks);
      var embeddings := EncodeInBatches(documents);
      var news := seq(|chunks|, k requires 0 <= k < |chunks| => Record(ids[k], embeddings[k], documents[k], metadatas[k]));
      assert news == Map((c: CodeChunk) => RecordOf(encode, c), chunks);
      AddRecordsProperties(records, news);
      records := AddRecords(records, news);
    }

    /** `semantic_search`, formatting each hit of the filtered nearest-neighbour query. */
    method SemanticSearch(query: string, n: nat, repoFilter: seq<string>, languageFilter: Option<string>)
      returns (results: seq<SearchResult>)
      ensures results == SearchResults(records, encode(query), n, repoFilter, languageFilter, distance)
    {
      var hits := Nearest(records, SearchWhere(repoFilter, languageFilter), encode(query), n, distance);
      var toResult := HitResult;
      results := [];
      for i := 0 to |hits|
        invariant results == Map(toResult, hits[..i])
      {
        MapSnoc(toResult, hits, i);
        results := results + [ResultOf(hits[i].item, -hits[i].score)];
      }
      assert hits[..|hits|] == hits;
    }

    /** `find_by_symbol`. */
    method FindBySymbol(symbolName: string, repoFilter: seq<string>) returns (results: seq<SearchResult>)
      ensures results == SymbolResults(records, symbolName, repoFilter)
    {
      var found := TakePy(Matching(records, Some(SymbolWhere(symbolName, repoFilter))), 100);
      var toResult := (x: Record) => ResultOf(x, 1.0);
      results := [];
      for i := 0 to |found|
        invariant results == Map(toResult, found[..i])
      {
        MapSnoc(toResult, found, i);
        results := results + [ResultOf(found[i], 1.0)];
      }
      assert found[..|found|] == found;
    }

    /**
      `find_related_by_file`: nothing when the file has no records in the repository; otherwise the
      first record's neighbours in the same repository (`n + 20` of them), other files only.
     */
    method FindRelatedByFile(filePath: string, repoName: string, n: nat) returns (results: seq<SearchResult>)
      ensures Matching(records, Some(FileWhere(repoName, filePath))) == [] ==> results == []
      ensures Matching(records, Some(FileWhere(repoName, filePath))) != [] ==>
        results == RelatedResults(Nearest(records, Some(RepoWhere(repoName)),
                                          encode(Matching(records, Some(FileWhere(repoName, filePath)))[0].document),
                                          n + 20, distance), filePath, n)
    {
      var fileChunks := Matching(records, Some(FileWhere(repoName, filePath)));
      if |fileChunks| == 0 {
        return [];
      }
      var embedding := encode(fileChunks[0].document);
      var hits := Nearest(records, Some(RepoWhere(repoName)), embedding, n + 20, distance);
      results := KeepOtherFiles(hits, filePath, n);
    }

    /** `list_repos`: the distinct repository names of the first 10000 records, sorted. */
    method ListRepos() returns (repos: seq<string>)
      ensures StrictlySorted(repos)
      ensures forall y :: y in repos <==> y in RepoNames(TakePy(records, ListLimit))
    {
      var sample := TakePy(records, ListLimit);
      var names: set<string> := {};
      for i := 0 to |sample|
        invariant forall y :: y in names <==> y in RepoNames(sample[..i])
      {
        MapSnoc((x: Record) => x.metadata.repoName, sample, i);
        names := names + {sample[i].metadata.repoName};
      }
      assert sample[..|sample|] == sample;
      repos := SortSet(names);
    }

    /** `get_repo_stats`: the repository's record count and its sorted, distinct files and languages. */
    method GetRepoStats(repoName: string) returns (stats: RepoStats)
      ensures stats.repoName == repoName
      ensures stats.chunkCount == |Matching(records, Some(RepoWhere(repoName)))|
      ensures StrictlySorted(stats.files) && StrictlySorted(stats.languages)
      ensures forall y :: y in stats.files <==> y in FilePaths(Matching(records, Some(RepoWhere(repoName))))
      ensures forall y :: y in stats.languages <==> y in Languages(Matching(records, Some(RepoWhere(repoName))))
    {
      var found := Matching(records, Some(RepoWhere(repoName)));
      if |found| == 0 {
        return RepoStats(repoName, 0, [], []);
      }
      var files: set<string> := {};
      var languages: set<string> := {};
      for i := 0 to |found|
        invariant forall y :: y in files <==> y in FilePaths(found[..i])
        invariant forall y :: y in languages <==> y in Languages(found[..i])
      {
        MapSnoc((x: Record) => x.metadata.filePath, found, i);
        MapSnoc((x: Record) => x.metadata.language, found, i);
        files := files + {found[i].metadata.filePath};
        languages := languages + {found[i].metadata.language};
      }
      assert found[..|found|] == found;
      var sortedFiles := SortSet(files);
      var sortedLanguages := SortSet(languages);
      stats := RepoStats(repoName, |found|, sortedFiles, sortedLanguages);
    }

    /** Deletes the records matching `w` by their ids and returns how many there were. */
    method DeleteMatching(w: Where) returns (deleted: nat)
      requires Valid()
      modifies this
      ensures Valid()
      ensures records == NotMatching(old(records), Some(w))
      ensures deleted == |Matching(old(records), Some(w))| == |old(records)| - |records|
    {
      var found := Matching(records, Some(w));
      MatchingSplits(records, Some(w));
      if |found| > 0 {
        var ids := Ids(found);
        DeleteByIds(records, Some(w));
        FilterKeepsUniqueIds((x: Record) => x.id !in ids, records);
        records := Filter((x: Record) => x.id !in ids, records);
        return |found|;
      }
      assert NotMatching(records, Some(w)) == records by {
        NoMembersEmpty(found);
        FilterCongruent((x: Record) => !Admits(Some(w), x.metadata), (x: Record) => true, records);
        FilterAll(records);
      }
      return 0;
    }

    /** `delete_repo`. */
    method DeleteRepo(repoName: string) returns (deleted: nat)
      requires Valid()
      modifies this
      ensures Valid()
      ensures records == NotMatching(old(records), Some(RepoWhere(repoName)))
      ensures deleted == |old(records)| - |records|
    {
      deleted := DeleteMatching(RepoWhere(repoName));
    }

    /** `delete_file`. */
    method DeleteFile(repoName: string, filePath: string) returns (deleted: nat)
      requires Valid()
      modifies this
      ensures Valid()
      ensures records == NotMatching(old(records), Some(FileWhere(repoName, filePath)))
      ensures deleted == |old(records)| - |records|
    {
      deleted := DeleteMatching(FileWhere(repoName, filePath));
    }

    /** `reset`: the collection is dropped and created again, empty. */
    method Reset()
      requires Valid()
      modifies this
      ensures Valid() && records == []
    {
      records := [];
    }
  }

  /** Filtering by a predicate that always holds keeps everything. */
  lemma {:induction false} FilterAll(rs: seq<Record>)
    ensures Filter((x: Record) => true, rs) == rs
  {
    if |rs| > 0 {
      FilterAll(rs[..|rs| - 1]);
      assert rs[..|rs| - 1] + [rs[|rs| - 1]] == rs;
    }
  }

  /** After a deletion no remaining record matches, and every record that did not match remains. */
  lemma DeletionExact(rs: seq<Record>, w: Where)
    ensures forall x | x in NotMatching(rs, Some(w)) :: !Admits(Some(w), x.metadata)
    ensures forall x | x in rs && !Admits(Some(w), x.metadata) :: x in NotMatching(rs, Some(w))
    ensures |rs| - |NotMatching(rs, Some(w))| == |Matching(rs, Some(w))|
  {
    MatchingSplits(rs, Some(w));
  }
}

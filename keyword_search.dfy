/**
  The keyword index: an in-memory list of chunks, a map from chunk id to chunk, and a ranking
  structure built over the tokenised context texts of all chunks, rebuilt in full after every change.

  The ranking structure is modelled by the tokenised corpus it was built from; the score it gives a
  document for a query is a function `score(corpus, query tokens, position)` the search is given.
 */
module KeywordSearch {
  import opened Base
  import opened Strings
  import opened Sorting
  import opened Chunker
  import opened Embeddings

  type Corpus = seq<seq<string>>

  /** `text.lower().split()`. */
  function Tokenize(text: string): seq<string> {
    Words(Lower(text))
  }

  function ChunkTokens(c: CodeChunk): seq<string> {
    Tokenize(c.contextText)
  }

  /** The tokenised corpus: one token list per chunk, from its context text, in chunk order. */
  function CorpusOf(chunks: seq<CodeChunk>): (r: Corpus)
    ensures |r| == |chunks| && forall k | 0 <= k < |chunks| :: r[k] == Tokenize(chunks[k].contextText)
  {
    Map(ChunkTokens, chunks)
  }

  /** The ranking structure after a rebuild: none for an empty list of chunks. */
  function Built(chunks: seq<CodeChunk>): Option<Corpus> {
    if |chunks| == 0 then None else Some(CorpusOf(chunks))
  }

  /** The map after `chunk_map[c.chunk_id] = c` for each chunk in turn. */
  function PutAll(m: map<string, CodeChunk>, cs: seq<CodeChunk>): map<string, CodeChunk> {
    if |cs| == 0 then m else PutAll(m, cs[..|cs| - 1])[cs[|cs| - 1].chunkId := cs[|cs| - 1]]
  }

  /** `cs[k]` is the last chunk in `cs` written under `id`. */
  predicate LastWrite(cs: seq<CodeChunk>, id: string, k: int) {
    0 <= k < |cs| && cs[k].chunkId == id && forall j | k < j < |cs| :: cs[j].chunkId != id
  }

  /** After the writes, an id maps to the last chunk written with it. */
  lemma {:induction false} PutAllLastWins(m: map<string, CodeChunk>, cs: seq<CodeChunk>, id: string, k: int)
    requires LastWrite(cs, id, k)
    ensures id in PutAll(m, cs) && PutAll(m, cs)[id] == cs[k]
  {
    var init := cs[..|cs| - 1];
    if k < |cs| - 1 {
      assert init[k] == cs[k];
      assert LastWrite(init, id, k) by {
        forall j | k < j < |init| ensures init[j].chunkId != id {
          assert init[j] == cs[j];
        }
      }
      PutAllLastWins(m, init, id, k);
    }
  }

  /** Ids never written keep their entry, or their absence. */
  lemma {:induction false} PutAllUntouched(m: map<string, CodeChunk>, cs: seq<CodeChunk>, id: string)
    requires forall k | 0 <= k < |cs| :: cs[k].chunkId != id
    ensures (id in PutAll(m, cs) <==> id in m) && (id in m ==> PutAll(m, cs)[id] == m[id])
  {
    if |cs| > 0 {
      var init := cs[..|cs| - 1];
      assert forall k | 0 <= k < |init| :: init[k].chunkId != id by {
        forall k | 0 <= k < |init| ensures init[k].chunkId != id {
          assert init[k] == cs[k];
        }
      }
      PutAllUntouched(m, init, id);
    }
  }

  /** Every entry written is keyed by its own chunk id and is one of the chunks. */
  lemma {:induction false} PutAllEntries(m: map<string, CodeChunk>, cs: seq<CodeChunk>, all: seq<CodeChunk>)
    requires forall id | id in m :: m[id] in all && m[id].chunkId == id
    requires forall c | c in cs :: c in all
    ensures forall id | id in PutAll(m, cs) :: PutAll(m, cs)[id] in all && PutAll(m, cs)[id].chunkId == id
  {
    if |cs| > 0 {
      assert forall c | c in cs[..|cs| - 1] :: c in cs;
      PutAllEntries(m, cs[..|cs| - 1], all);
      assert cs[|cs| - 1] in cs;
    }
  }

  // ---------------------------------------------------------------- search

  /** `repo_filter` (a `None` or empty list filters nothing) and `language_filter` (likewise `None` or `""`). */
  predicate PassesFilters(c: CodeChunk, repoFilter: seq<string>, languageFilter: Option<string>) {
    (|repoFilter| > 0 ==> c.repoName in repoFilter) && (Truthy(languageFilter) ==> c.language == languageFilter.value)
  }

  /** The `(score, chunk, index)` entries of the first `i` chunks that pass the filters and score above zero. */
  function Candidates(chunks: seq<CodeChunk>, corpus: Corpus, query: seq<string>, repoFilter: seq<string>,
                      languageFilter: Option<string>, score: (Corpus, seq<string>, nat) -> real, i: nat): (r: seq<Scored<CodeChunk>>)
    requires i <= |chunks|
    ensures IncreasingPositions(r) && |r| <= i
    ensures forall k | 0 <= k < |r| ::
      0 <= r[k].pos < i && r[k].item == chunks[r[k].pos] && r[k].score == score(corpus, query, r[k].pos)
      && r[k].score > 0.0 && PassesFilters(r[k].item, repoFilter, languageFilter)
  {
    if i == 0 then []
    else
      var prev := Candidates(chunks, corpus, query, repoFilter, languageFilter, score, i - 1);
      var c := chunks[i - 1];
      var s := score(corpus, query, i - 1);
      if PassesFilters(c, repoFilter, languageFilter) && s > 0.0 then prev + [Scored(s, c, i - 1)] else prev
  }

  /** Every chunk that passes the filters with a positive score is a candidate. */
  lemma {:induction false} CandidatesComplete(chunks: seq<CodeChunk>, corpus: Corpus, query: seq<string>, repoFilter: seq<string>,
                                              languageFilter: Option<string>, score: (Corpus, seq<string>, nat) -> real, i: nat, p: nat)
    requires i <= |chunks| && p < i
    requires PassesFilters(chunks[p], repoFilter, languageFilter) && score(corpus, query, p) > 0.0
    ensures Scored(score(corpus, query, p), chunks[p], p) in Candidates(chunks, corpus, query, repoFilter, languageFilter, score, i)
  {
    if p < i - 1 {
      CandidatesComplete(chunks, corpus, query, repoFilter, languageFilter, score, i - 1, p);
    }
  }

  /** A search result for a ranked chunk: its context text as the code, its metadata dictionary. */
  function KeywordResult(h: Scored<CodeChunk>): SearchResult {
    SearchResult(h.item.chunkId, h.item.filePath, h.item.repoName, h.item.symbolName, h.item.contextText, h.score,
                 MetadataOf(h.item))
  }

  /** The ranked candidates a search keeps: sorted by score, descending and stable, then cut to `n`. */
  function TopCandidates(chunks: seq<CodeChunk>, corpus: Corpus, query: seq<string>, n: int, repoFilter: seq<string>,
                         languageFilter: Option<string>, score: (Corpus, seq<string>, nat) -> real): seq<Scored<CodeChunk>> {
    TakePy(SortRanked(Candidates(chunks, corpus, query, repoFilter, languageFilter, score, |chunks|)), n)
  }

  /** What `search` returns when something is indexed. */
  function SearchSpec(chunks: seq<CodeChunk>, corpus: Corpus, queryText: string, n: int, repoFilter: seq<string>,
                      languageFilter: Option<string>, score: (Corpus, seq<string>, nat) -> real): seq<SearchResult> {
    Map(KeywordResult, TopCandidates(chunks, corpus, Tokenize(queryText), n, repoFilter, languageFilter, score))
  }

  /** A ranked entry a search may return: a chunk of the index, passing the filters, scoring above zero. */
  predicate Admissible(h: Scored<CodeChunk>, chunks: seq<CodeChunk>, repoFilter: seq<string>, languageFilter: Option<string>) {
    h.item in chunks && PassesFilters(h.item, repoFilter, languageFilter) && h.score > 0.0
  }

  /** What ranking, cutting and formatting keep of admissible candidates. */
  lemma TopProperties(cands: seq<Scored<CodeChunk>>, n: int, chunks: seq<CodeChunk>, repoFilter: seq<string>,
                      languageFilter: Option<string>)
    requires IncreasingPositions(cands)
    requires forall k | 0 <= k < |cands| :: Admissible(cands[k], chunks, repoFilter, languageFilter)
    ensures var top := TakePy(SortRanked(cands), n);
      var r := Map(KeywordResult, top);
      |r| == |top| && (n >= 0 ==> |r| <= n) && Ranked(top)
      && forall k | 0 <= k < |r| ::
           Admissible(top[k], chunks, repoFilter, languageFilter)
           && r[k].score == top[k].score && r[k].chunkId == top[k].item.chunkId
           && r[k].codeText == top[k].item.contextText && r[k].metadata == MetadataOf(top[k].item)
  {
    var sorted := SortRanked(cands);
    var top := TakePy(sorted, n);
    RankedPrefix(sorted, |top|);
    forall k | 0 <= k < |top|
      ensures Admissible(top[k], chunks, repoFilter, languageFilter)
    {
      assert top[k] == sorted[k];
      assert sorted[k] in multiset(cands);
      var j :| 0 <= j < |cands| && cands[j] == top[k];
    }
  }

  /**
    Every result passes the filters and scores above zero; results come in non-increasing score
    order with equal scores in corpus order; there are at most `n`; each carries its chunk's
    context text and metadata dictionary.
   */
  lemma SearchSpecProperties(chunks: seq<CodeChunk>, corpus: Corpus, queryText: string, n: int, repoFilter: seq<string>,
                             languageFilter: Option<string>, score: (Corpus, seq<string>, nat) -> real)
    ensures var top := TopCandidates(chunks, corpus, Tokenize(queryText), n, repoFilter, languageFilter, score);
      var r := SearchSpec(chunks, corpus, queryText, n, repoFilter, languageFilter, score);
      |r| == |top| && (n >= 0 ==> |r| <= n) && Ranked(top)
      && forall k | 0 <= k < |r| ::
           Admissible(top[k], chunks, repoFilter, languageFilter)
           && r[k].score == top[k].score && r[k].chunkId == top[k].item.chunkId
           && r[k].codeText == top[k].item.contextText && r[k].metadata == MetadataOf(top[k].item)
  {
    var cands := Candidates(chunks, corpus, Tokenize(queryText), repoFilter, languageFilter, score, |chunks|);
    forall k | 0 <= k < |cands| ensures Admissible(cands[k], chunks, repoFilter, languageFilter) {
      assert cands[k].item == chunks[cands[k].pos];
    }
    TopProperties(cands, n, chunks, repoFilter, languageFilter);
  }

  /** Cutting to at least as many entries as there are keeps every candidate's result. */
  lemma TopKeepsAll(cands: seq<Scored<CodeChunk>>, n: int, h: Scored<CodeChunk>)
    requires IncreasingPositions(cands) && h in cands && n >= |cands|
    ensures KeywordResult(h) in Map(KeywordResult, TakePy(SortRanked(cands), n))
  {
    var sorted := SortRanked(cands);
    assert h in multiset(sorted);
    KeptWhole(sorted, n, h);
  }

  /** A cut to at least the whole list keeps every entry's result. */
  lemma KeptWhole(sorted: seq<Scored<CodeChunk>>, n: int, h: Scored<CodeChunk>)
    requires h in sorted && n >= |sorted|
    ensures KeywordResult(h) in Map(KeywordResult, TakePy(sorted, n))
  {
    assert TakePy(sorted, n) == sorted;
    var k :| 0 <= k < |sorted| && sorted[k] == h;
    assert Map(KeywordResult, sorted)[k] == KeywordResult(h);
  }

  /** When `n` leaves room, every chunk passing the filters with a positive score is returned. */
  lemma SearchSpecComplete(chunks: seq<CodeChunk>, corpus: Corpus, queryText: string, n: int, repoFilter: seq<string>,
                           languageFilter: Option<string>, score: (Corpus, seq<string>, nat) -> real, p: nat)
    requires p < |chunks| && n >= |chunks|
    requires PassesFilters(chunks[p], repoFilter, languageFilter) && score(corpus, Tokenize(queryText), p) > 0.0
    ensures KeywordResult(Scored(score(corpus, Tokenize(queryText), p), chunks[p], p))
            in SearchSpec(chunks, corpus, queryText, n, repoFilter, languageFilter, score)
  {
    var tq := Tokenize(queryText);
    var cands := Candidates(chunks, corpus, tq, repoFilter, languageFilter, score, |chunks|);
    CandidatesComplete(chunks, corpus, tq, repoFilter, languageFilter, score, |chunks|, p);
    TopKeepsAll(cands, n, Scored(score(corpus, tq, p), chunks[p], p));
  }

  /** Chunks outside repository `repo`. */
  function NotInRepo(repo: string): CodeChunk -> bool {
    (c: CodeChunk) => c.repoName != repo
  }

  function InRepo(repo: string): CodeChunk -> bool {
    (c: CodeChunk) => c.repoName == repo
  }

  /** Chunks other than those of file `path` in repository `repo`. */
  function NotInFile(repo: string, path: string): CodeChunk -> bool {
    (c: CodeChunk) => !(c.repoName == repo && c.filePath == path)
  }

  function InFile(repo: string, path: string): CodeChunk -> bool {
    (c: CodeChunk) => c.repoName == repo && c.filePath == path
  }

  /** The map entries whose chunk passes `keep`. */
  function KeepEntries(m: map<string, CodeChunk>, keep: CodeChunk -> bool): (r: map<string, CodeChunk>)
    ensures forall id :: id in r <==> id in m && keep(m[id])
    ensures forall id | id in r :: r[id] == m[id]
  {
    map id | id in m && keep(m[id]) :: m[id]
  }

  /** `delete_repo` removes exactly the repository's chunks, in order, and returns how many. */
  lemma DeleteRepoExact(chunks: seq<CodeChunk>, repo: string)
    ensures |chunks| - |Filter(NotInRepo(repo), chunks)| == |Filter(InRepo(repo), chunks)|
    ensures forall c | c in Filter(NotInRepo(repo), chunks) :: c.repoName != repo
    ensures forall c | c in chunks && c.repoName != repo :: c in Filter(NotInRepo(repo), chunks)
  {
    FilterComplement(InRepo(repo), NotInRepo(repo), chunks);
  }

  /** `delete_file` removes exactly that file's chunks of that repository; the same path elsewhere stays. */
  lemma DeleteFileExact(chunks: seq<CodeChunk>, repo: string, path: string)
    ensures |chunks| - |Filter(NotInFile(repo, path), chunks)| == |Filter(InFile(repo, path), chunks)|
    ensures forall c | c in Filter(NotInFile(repo, path), chunks) :: !(c.repoName == repo && c.filePath == path)
    ensures forall c | c in chunks && c.repoName != repo :: c in Filter(NotInFile(repo, path), chunks)
  {
    FilterComplement(InFile(repo, path), NotInFile(repo, path), chunks);
  }

  // ---------------------------------------------------------------- KeywordSearchIndex

  class KeywordSearchIndex {
    /** `bm25`: the corpus the ranking structure was built from, if any. */
    var bm25: Option<Corpus>
    var chunks: seq<CodeChunk>
    var chunkMap: map<string, CodeChunk>

    /** The ranking structure is that of the current chunks; every map entry is a chunk under its own id. */
    ghost predicate Valid()
      reads this
    {
      bm25 == Built(chunks) && forall id | id in chunkMap :: chunkMap[id] in chunks && chunkMap[id].chunkId == id
    }

    constructor ()
      ensures Valid() && bm25.None? && chunks == [] && chunkMap == map[]
    {
      bm25 := None;
      chunks := [];
      chunkMap := map[];
    }

    /** `index_chunks`. */
    method IndexChunks(newChunks: seq<CodeChunk>)
      requires Valid()
      modifies this
      ensures Valid()
      ensures chunks == old(chunks) + newChunks
      ensures chunkMap == PutAll(old(chunkMap), newChunks)
      ensures |newChunks| == 0 ==> bm25 == old(bm25)
    {
      if |newChunks| == 0 {
        return;
      }
      chunks := chunks + newChunks;
      for i := 0 to |newChunks|
        invariant chunks == old(chunks) + newChunks && bm25 == old(bm25)
        invariant chunkMap == PutAll(old(chunkMap), newChunks[..i])
      {
        assert newChunks[..i + 1][..i] == newChunks[..i];
        chunkMap := chunkMap[newChunks[i].chunkId := newChunks[i]];
      }
      assert newChunks[..|newChunks|] == newChunks;
      PutAllEntries(old(chunkMap), newChunks, chunks);
      bm25 := Some(CorpusOf(chunks));
    }

    /** `search`: nothing when nothing is indexed; otherwise the filtered, positive, ranked, truncated results. */
    method Search(queryText: string, n: int, repoFilter: seq<string>, languageFilter: Option<string>,
                  score: (Corpus, seq<string>, nat) -> real) returns (results: seq<SearchResult>)
      ensures bm25.None? || |chunks| == 0 ==> results == []
      ensures bm25.Some? && |chunks| > 0 ==>
        results == SearchSpec(chunks, bm25.value, queryText, n, repoFilter, languageFilter, score)
    {
      if bm25.None? || |chunks| == 0 {
        return [];
      }
      var corpus := bm25.value;
      var query := Tokenize(queryText);
      var hits: seq<Scored<CodeChunk>> := [];
      for idx := 0 to |chunks|
        invariant hits == Candidates(chunks, corpus, query, repoFilter, languageFilter, score, idx)
      {
        var chunk := chunks[idx];
        if |repoFilter| > 0 && chunk.repoName !in repoFilter {
          continue;
        }
        if Truthy(languageFilter) && chunk.language != languageFilter.value {
          continue;
        }
        var s := score(corpus, query, idx);
        if s > 0.0 {
          hits := hits + [Scored(s, chunk, idx)];
        }
      }
      hits := SortRanked(hits);
      hits := TakePy(hits, n);
      results := [];
      for i := 0 to |hits|
        invariant results == Map(KeywordResult, hits[..i])
      {
        MapSnoc(KeywordResult, hits, i);
        results := results + [KeywordResult(hits[i])];
      }
      assert hits[..|hits|] == hits;
    }

    /** `delete_repo`. */
    method DeleteRepo(repo: string) returns (deleted: int)
      requires Valid()
      modifies this
      ensures Valid()
      ensures chunks == Filter(NotInRepo(repo), old(chunks))
      ensures chunkMap == KeepEntries(old(chunkMap), NotInRepo(repo))
      ensures deleted == |old(chunks)| - |chunks|
    {
      var originalCount := |chunks|;
      chunks := Filter(NotInRepo(repo), chunks);
      chunkMap := KeepEntries(chunkMap, NotInRepo(repo));
      if |chunks| > 0 {
        bm25 := Some(CorpusOf(chunks));
      } else {
        bm25 := None;
      }
      deleted := originalCount - |chunks|;
    }

    /** `delete_file`. */
    method DeleteFile(repo: string, path: string) returns (deleted: int)
      requires Valid()
      modifies this
      ensures Valid()
      ensures chunks == Filter(NotInFile(repo, path), old(chunks))
      ensures chunkMap == KeepEntries(old(chunkMap), NotInFile(repo, path))
      ensures deleted == |old(chunks)| - |chunks|
    {
      var originalCount := |chunks|;
      chunks := Filter(NotInFile(repo, path), chunks);
      chunkMap := KeepEntries(chunkMap, NotInFile(repo, path));
      if |chunks| > 0 {
        bm25 := Some(CorpusOf(chunks));
      } else {
        bm25 := None;
      }
      deleted := originalCount - |chunks|;
    }

    /** `reset`. */
    method Reset()
      modifies this
      ensures Valid() && bm25.None? && chunks == [] && chunkMap == map[]
    {
      bm25 := None;
      chunks := [];
      chunkMap := map[];
    }
  }
}

# Scout / mcpindexer: a Dafny model of the indexing core

Scout (package `mcpindexer`, with the `scout` dependency tools) indexes code repositories so that
they can be searched by meaning and by keyword. The indexing pipeline works like this:

- A repository is scanned for source files.
- Each file is parsed into functions, classes and imports.
- The chunker turns each parsed file into chunks: a class, a class header, a method, a function or the whole file.
- Each chunk carries a context header and a chunk id unique within its repository.
- The chunks go to an embedding store (a vector collection) and to a BM25 keyword index.
- A stack configuration records the status of every repository.
- A dependency analyzer derives internal and external imports per file.
- A cross-repository analyzer and a dependency store relate one repository's packages to the other indexed repositories.

The model has one module per source file:

| module | source | form |
|---|---|---|
| `Parser` | `src/mcpindexer/parser.py` (`src/scout/parser.py` is the same file line for line and is modelled once) | functions over the captures a syntax query returns |
| `Chunker` | `src/mcpindexer/chunker.py` | a pure `Plan` of a file's chunks, and the class `CodeChunker` whose methods number them with its counter |
| `Embeddings` | `src/mcpindexer/embeddings.py` | class `EmbeddingStore` over a collection of records with unique ids |
| `KeywordSearch` | `src/mcpindexer/keyword_search.py` | class `KeywordSearchIndex` (chunk list, id map, built corpus) |
| `StackConfig` | `src/mcpindexer/stack_config.py` | datatypes for status and record, class `StackConfig` over an insertion-ordered dict |
| `DependencyAnalysis` | `src/scout/dependency_analyzer.py` | classes `DependencyAnalyzer` and `CrossRepoAnalyzer` |
| `DependencyStorage` | `src/scout/dependency_storage.py` | class `DependencyStorage` over an insertion-ordered dict |
| `Indexer` | `src/mcpindexer/indexer.py` | classes `RepoIndexer` and `MultiRepoIndexer` that drive the others |

Four small utility modules support them:

- `Base`: Option/Result, Python truthiness, slicing and `map`/`filter`.
- `Strings`: the Python string operations the code uses.
- `Sorting`: sorted duplicate-free lists and a stable descending sort of scored items.
- `PyDict`: an insertion-ordered dictionary, so `dict` iteration order is part of the model.

Foreign code becomes a parameter of the operation that calls it:

- the tree-sitter parse and the captures of its queries;
- the file read in `parse_file`;
- the sentence encoder and the vector distance;
- the BM25 scorer;
- the repository walk, `git` commit and diff lookups;
- the clock, and the error the vector store may raise.

## Model

| member | source | states |
|---|---|---|
| `Parser.LanguageValue` | src/mcpindexer/parser.py:21-29 | each language's tag is one of the six strings `python`, `javascript`, `typescript`, `tsx`, `ruby`, `go` |
| `Parser.LanguageValueInjective` | src/mcpindexer/parser.py:21-29 | no two languages share a tag |
| `Parser.ExtensionTableShape` | src/mcpindexer/parser.py:128-137 | the extension table has eight suffixes and reaches every language |
| `Parser.Suffix` | src/mcpindexer/parser.py:125-126 | the suffix is empty or a dot followed by at least one character with no further dot, ends the name and is shorter than it |
| `Parser.DetectLanguage` | src/mcpindexer/parser.py:123-139 | a language is found exactly when the lower-cased suffix of the file name is in the table, and it is that table entry |
| `Parser.HiddenFileHasNoLanguage` | src/mcpindexer/parser.py:123-139 | a dot file such as `.py` has no suffix and no language |
| `Parser.SuffixOf` | src/mcpindexer/parser.py:125-126 | `base.ext` has suffix `.ext` |
| `Parser.FileNameInDirectory` | src/mcpindexer/parser.py:125-126 | the file name of `dir/name` is `name` |
| `Parser.DetectLanguageOfPath` | src/mcpindexer/parser.py:123-139 | `dir/base.ext` gets the table entry for `.ext` lower-cased, or none |
| `Parser.DetectLanguageOfName` | src/mcpindexer/parser.py:123-139 | the same for a bare file name |
| `Parser.DetectLanguageIgnoresCase` | src/mcpindexer/parser.py:125-139 | two extensions that agree once lower-cased give the same language |
| `Parser.SymbolName` | src/mcpindexer/parser.py:217-229 | `"unknown"` when no name capture lies inside the definition; otherwise the text of the first name capture that does |
| `Parser.SymbolOf` | src/mcpindexer/parser.py:231-241 | a symbol keeps the definition's byte range and text and takes the matched name |
| `Parser.Symbols` | src/mcpindexer/parser.py:193-246 | one symbol per definition capture, in capture order |
| `Parser.ExtractSymbols` | src/mcpindexer/parser.py:193-246 | the loop builds exactly `Symbols` |
| `Parser.PythonImport` | src/mcpindexer/parser.py:297-309 | external exactly when the module does not start with `.`; without `from`, no symbols and the module is the text with `import ` removed and trimmed |
| `Parser.PythonPlainImport` | src/mcpindexer/parser.py:306-309 | `import m` gives module `m`, no symbols, external unless `m` starts with `.` |
| `Parser.PythonFromImport` | src/mcpindexer/parser.py:299-305 | `from m import a, b` gives module `m` and the trimmed comma-separated names |
| `Parser.JsModuleAsWritten` | src/mcpindexer/parser.py:314-320 | as written, the module is empty when the text has no `from` |
| `Parser.JsModule` | src/mcpindexer/parser.py:314-320 | the corrected module, taken after the last `from`, is empty when the text has no `from` |
| `Parser.JsImport` | src/mcpindexer/parser.py:311-322 | the module is the code's piece after the first `from` (`JsModuleAsWritten`), with no symbols; relative exactly when the module starts with `./` or `../`; without `from`, the module is empty and external |
| `Parser.JsModuleOf` | src/mcpindexer/parser.py:314-320 | `<clause>from '<m>'` gives `m`, whatever the clause holds |
| `Parser.JsModuleAsWrittenFirstPiece` | src/mcpindexer/parser.py:317-320 | as written, the module is the piece between the first and second `from`, trimmed and unquoted |
| `Parser.JsModuleAgreesWithoutFromInClause` | src/mcpindexer/parser.py:314-320 | when the import clause has no `from` of its own, the code as written and the corrected module agree on `m` |
| `Parser.JsFromInClause` | src/mcpindexer/parser.py:317-320 | when the import clause contains `from`, the code as written returns the clause fragment, while the corrected module is still `m` |
| `Parser.RubyImport` | src/mcpindexer/parser.py:324-332 | the module is the text with `require` deleted before `require_relative`, trimmed and unquoted (`RubyModuleAsWritten`), with no symbols; external exactly when the text does not mention `require_relative` |
| `Parser.RubyRelativeModule` | src/mcpindexer/parser.py:326-331 | the corrected order of deletions gives `m` for `require_relative '<m>'` |
| `Parser.RubyRequireModule` | src/mcpindexer/parser.py:326-331 | `require '<m>'` gives `m`, as written and corrected alike |
| `Parser.RubyRelativeAsWritten` | src/mcpindexer/parser.py:326-331 | as written, `require_relative '<m>'` gives `_relative '<m>` instead of `m` |
| `Parser.FirstQuoted` | src/mcpindexer/parser.py:339-341 | a double-quoted part found is non-empty and holds no quote; there is none when the text has no quote |
| `Parser.FirstQuotedAfter` | src/mcpindexer/parser.py:339-341 | the first double-quoted part is found after any quote-free prefix |
| `Parser.GoImport` | src/mcpindexer/parser.py:334-342 | always external, no symbols; the module is the first double-quoted path, or empty |
| `Parser.GoFirstPath` | src/mcpindexer/parser.py:334-342 | a Go import line gives its first quoted path, external |
| `Parser.ParseImportStatement` | src/mcpindexer/parser.py:284-344 | only Python yields symbols; each language goes to its own branch as the code writes it, and the three JS-family languages share one |
| `Parser.RubyRelativeStatement` | src/mcpindexer/parser.py:324-332 | `require_relative '<m>'` parses to the relative import of module `_relative '<m>` with no symbols |
| `Parser.JsFromInClauseStatement` | src/mcpindexer/parser.py:311-322 | in every JS-family language, `pre from mid from '<m>'` parses to module `mid`, trimmed and unquoted |
| `Parser.Imports` | src/mcpindexer/parser.py:263-277 | one import statement per captured node, in order, starting at the node's row, with the module, symbols and flag that the code as written gives the node's text |
| `Parser.ExtractImports` | src/mcpindexer/parser.py:248-282 | the loop builds exactly `Imports`, so each import carries the module the code as written computes |
| `Parser.ParseFile` | src/mcpindexer/parser.py:141-179 | no language gives `None` before any read; the given code is used; otherwise a read failure propagates and a read success is parsed, its imports being those the code as written computes |
| `Chunker.EstimateTokens` | src/mcpindexer/chunker.py:254-256 | the estimate counts the whole groups of four characters in the text |
| `Chunker.WithinCapByLength` | src/mcpindexer/chunker.py:254-256 | a text is within the 300-token cap exactly when it has fewer than 1204 characters |
| `Chunker.IsFunctionInClass` | src/mcpindexer/chunker.py:245-252 | true exactly when some class's byte range holds the function's start byte |
| `Chunker.ContextFrames` | src/mcpindexer/chunker.py:290-314 | the context starts with `File: <path>` and ends with the code |
| `Chunker.ContextOfMethod` | src/mcpindexer/chunker.py:290-314 | a method's header reads `File: p \| Class: c \| Method: m` followed by a blank line and the code |
| `Chunker.ContextOfFunction` | src/mcpindexer/chunker.py:290-314 | a function's header reads `File: p \| Function: f` |
| `Chunker.ContextOfFile` | src/mcpindexer/chunker.py:290-314 | a whole-file chunk's header is just `File: p` |
| `Chunker.ChunkIdInjective` | src/mcpindexer/chunker.py:258-261 | within one repository, different counter values give different ids |
| `Chunker.HeaderCount` | src/mcpindexer/chunker.py:278-283 | at most 50 lines are taken; every prefix taken is within the cap; the count stops only at 50 lines, at the end, or where one more line would exceed the cap |
| `Chunker.ClassHeaderBounds` | src/mcpindexer/chunker.py:263-288 | a header is a prefix of at most 50 of the class's lines and is within the cap |
| `Chunker.ClassHeaderAbsent` | src/mcpindexer/chunker.py:263-288 | there is no header exactly when the class has no lines or its first line alone exceeds the cap |
| `Chunker.ImportModules` | src/mcpindexer/chunker.py:75 | each chunk's import list is the list of module names, in order |
| `Chunker.MethodsOf` | src/mcpindexer/chunker.py:232-243 | the methods are exactly the functions starting inside the class, in function-list order |
| `Chunker.Numbered` | src/mcpindexer/chunker.py:258-261 | the i-th chunk gets id `<repo>:chunk:<start+i+1>` and is otherwise unchanged |
| `Chunker.NumberedAppend` | src/mcpindexer/chunker.py:258-261 | numbering two lists in sequence equals numbering their concatenation |
| `Chunker.NumberedIdsDistinct` | src/mcpindexer/chunker.py:258-261 | the chunks of one call have distinct ids |
| `Chunker.SuccessiveCallsDistinct` | src/mcpindexer/chunker.py:56-98 | a later call never repeats an id of an earlier one |
| `Chunker.PlanNonEmpty` | src/mcpindexer/chunker.py:56-98 | every file yields at least one chunk |
| `Chunker.SmallClassPlan` | src/mcpindexer/chunker.py:105-127 | a class within the cap is one `class` chunk with the full text, its own lines and no parent |
| `Chunker.LargeClassPlan` | src/mcpindexer/chunker.py:128-163 | a larger class gives an optional `class_definition` header chunk ending at `min(start+50, end)`, then one method chunk per method with the class as parent |
| `Chunker.FunctionsPlanShape` | src/mcpindexer/chunker.py:83-92 | standalone chunks are `function` chunks without parent, and every function outside all classes gets its chunk, however small |
| `Chunker.PlanImports` | src/mcpindexer/chunker.py:56-98 | every chunk of a file carries the file's path and import list |
| `Chunker.ClassesPlanImports` | src/mcpindexer/chunker.py:78-80 | every class chunk carries the file's path and imports |
| `Chunker.FunctionsPlanImports` | src/mcpindexer/chunker.py:83-92 | every function chunk carries the file's path and imports |
| `Chunker.FileOnlyPlan` | src/mcpindexer/chunker.py:201-230 | a file with no class or function chunk yields one `file` chunk from line 0 to the line count; when too long, it holds the first 1200 characters plus the truncation mark and 300 tokens |
| `Chunker.NoSymbolsPlan` | src/mcpindexer/chunker.py:94-96 | a file without classes and functions yields only its file chunk |
| `Chunker.CodeChunker.constructor` | src/mcpindexer/chunker.py:46-54 | a new chunker has counter 0 |
| `Chunker.CodeChunker.GenerateChunkId` | src/mcpindexer/chunker.py:258-261 | the counter rises by one and the id carries the new value |
| `Chunker.CodeChunker.ChunkFunction` | src/mcpindexer/chunker.py:167-199 | one function chunk with the next id |
| `Chunker.CodeChunker.ExtractClassHeader` | src/mcpindexer/chunker.py:263-288 | the loop computes `ClassHeader` |
| `Chunker.CodeChunker.ExtractMethodsFromClass` | src/mcpindexer/chunker.py:232-243 | the loop computes `MethodsOf` |
| `Chunker.CodeChunker.ChunkMethods` | src/mcpindexer/chunker.py:156-163 | the method chunks, numbered from the counter, which rises by their number |
| `Chunker.CodeChunker.ChunkClass` | src/mcpindexer/chunker.py:100-165 | the class's planned chunks, numbered from the counter |
| `Chunker.CodeChunker.ChunkEntireFile` | src/mcpindexer/chunker.py:201-230 | the file chunk with the next id |
| `Chunker.CodeChunker.ChunkClasses` | src/mcpindexer/chunker.py:78-80 | all classes' chunks in class order, numbered consecutively |
| `Chunker.CodeChunker.ChunkStandaloneFunctions` | src/mcpindexer/chunker.py:83-92 | the chunks of the functions outside every class, numbered consecutively |
| `Chunker.CodeChunker.ChunkFile` | src/mcpindexer/chunker.py:56-98 | the file's plan numbered from the old counter; the counter rises by exactly the number of chunks returned |
| `Embeddings.ImportsTextIsJoin` | src/mcpindexer/embeddings.py:157 | the empty-list guard on the imports text changes nothing |
| `Embeddings.SymbolRoundTrip` | src/mcpindexer/embeddings.py:146-160 | a symbol name reads back unchanged unless it is `""`; a missing parent is stored as `""`; the imports text is empty exactly for no imports or one empty import |
| `Embeddings.ResultOf` | src/mcpindexer/embeddings.py:215-228 | a result carries the record's id, document and metadata, and the given score |
| `Embeddings.AdmitsTwo` | src/mcpindexer/embeddings.py:201-205 | a two-condition filter admits exactly what both conditions admit |
| `Embeddings.SearchWhere` | src/mcpindexer/embeddings.py:201-205 | no filter exactly when neither a repo list nor a language is given; otherwise it admits what the given ones allow |
| `Embeddings.SymbolWhere` | src/mcpindexer/embeddings.py:246-254 | admits records with that symbol name, in a listed repository when a list is given |
| `Embeddings.RepoWhere` | src/mcpindexer/embeddings.py:378-395 | admits exactly the records of one repository |
| `Embeddings.FileWhere` | src/mcpindexer/embeddings.py:397-417 | admits exactly the records of one file of one repository |
| `Embeddings.Matching` | src/mcpindexer/embeddings.py:246-256 | the records the filter admits, and all of them |
| `Embeddings.NotMatching` | src/mcpindexer/embeddings.py:378-417 | the records the filter rejects, and all of them |
| `Embeddings.MatchingSplits` | src/mcpindexer/embeddings.py:378-417 | every record is on exactly one side of a filter |
| `Embeddings.DeleteByIds` | src/mcpindexer/embeddings.py:389-393 | deleting the ids a query found leaves exactly the non-matching records |
| `Embeddings.FilterKeepsUniqueIds` | src/mcpindexer/embeddings.py:389-393 | deleting keeps the ids unique |
| `Embeddings.AddRecordsProperties` | src/mcpindexer/embeddings.py:163-174 | adding keeps the old records in front, keeps ids unique and stores every new id |
| `Embeddings.AddFreshRecords` | src/mcpindexer/embeddings.py:163-174 | records with new distinct ids are appended in order |
| `Embeddings.Nearest` | src/mcpindexer/embeddings.py:208-212 | at most n admitted records, closest first, each scored by its distance to the query |
| `Embeddings.SearchResultsFiltered` | src/mcpindexer/embeddings.py:176-230 | at most n results, each from the store and within the repo and language filters, with distances non-decreasing |
| `Embeddings.SymbolResultsExact` | src/mcpindexer/embeddings.py:232-274 | at most 100 results, each with the symbol's name, score 1.0 and a listed repository |
| `Embeddings.RelatedResultsBounds` | src/mcpindexer/embeddings.py:313-334 | at most n results (one when n is 0), none from the file asked about, each from a hit |
| `Embeddings.KeepHit` | src/mcpindexer/embeddings.py:313-334 | one loop step keeps the hit when it is from another file and stops once enough are kept |
| `Embeddings.KeepOtherFiles` | src/mcpindexer/embeddings.py:313-334 | the loop keeps exactly `RelatedResults` |
| `Embeddings.DeletionExact` | src/mcpindexer/embeddings.py:378-417 | after a deletion no admitted record remains, every other record does, and the count is the number matched |
| `Embeddings.EmbeddingStore.constructor` | src/mcpindexer/embeddings.py:46-99 | a new store has an empty collection and a positive batch size |
| `Embeddings.EmbeddingStore.EncodeInBatches` | src/mcpindexer/embeddings.py:163-169 | encoding in batches gives every document's embedding, in order |
| `Embeddings.EmbeddingStore.AddChunks` | src/mcpindexer/embeddings.py:128-174 | the collection gains one record per chunk (id, context text, metadata, embedding); nothing for no chunks |
| `Embeddings.EmbeddingStore.SemanticSearch` | src/mcpindexer/embeddings.py:176-230 | the results are the nearest filtered records of the encoded query |
| `Embeddings.EmbeddingStore.FindBySymbol` | src/mcpindexer/embeddings.py:232-274 | the results are the first 100 records with that symbol name |
| `Embeddings.EmbeddingStore.FindRelatedByFile` | src/mcpindexer/embeddings.py:276-336 | nothing when the file has no records; otherwise the other files' records nearest the file's first document, within the repository |
| `Embeddings.EmbeddingStore.ListRepos` | src/mcpindexer/embeddings.py:338-349 | sorted, no duplicates, exactly the repositories of the first 10000 records |
| `Embeddings.EmbeddingStore.GetRepoStats` | src/mcpindexer/embeddings.py:351-376 | the repository's record count and its sorted, duplicate-free files and languages |
| `Embeddings.EmbeddingStore.DeleteMatching` | src/mcpindexer/embeddings.py:378-417 | removes exactly the admitted records and returns how many |
| `Embeddings.EmbeddingStore.DeleteRepo` | src/mcpindexer/embeddings.py:378-395 | removes exactly the repository's records and returns how many |
| `Embeddings.EmbeddingStore.DeleteFile` | src/mcpindexer/embeddings.py:397-417 | removes exactly that file's records in that repository and returns how many |
| `Embeddings.EmbeddingStore.Reset` | src/mcpindexer/embeddings.py:419-425 | the collection becomes empty |
| `KeywordSearch.CorpusOf` | src/mcpindexer/keyword_search.py:45-46 | the corpus has one token list per chunk, from its context text |
| `KeywordSearch.PutAllLastWins` | src/mcpindexer/keyword_search.py:40-42 | after indexing, an id maps to the last chunk given with it |
| `KeywordSearch.PutAllUntouched` | src/mcpindexer/keyword_search.py:40-42 | ids not given keep their entry, or their absence |
| `KeywordSearch.PutAllEntries` | src/mcpindexer/keyword_search.py:40-42 | every map entry is a known chunk stored under its own id |
| `KeywordSearch.Candidates` | src/mcpindexer/keyword_search.py:84-93 | candidates pass the filters, score above zero and keep corpus order |
| `KeywordSearch.CandidatesComplete` | src/mcpindexer/keyword_search.py:84-93 | every chunk that passes the filters with a positive score is a candidate |
| `KeywordSearch.TopProperties` | src/mcpindexer/keyword_search.py:96-125 | ranking and cutting keep at most n admissible entries in non-increasing score order, formatted from their chunks |
| `KeywordSearch.SearchSpecProperties` | src/mcpindexer/keyword_search.py:51-127 | search results pass the filters, score above zero, are best first and at most n, and carry their chunk's text and metadata |
| `KeywordSearch.TopKeepsAll` | src/mcpindexer/keyword_search.py:96-99 | when n covers all candidates, none is cut |
| `KeywordSearch.SearchSpecComplete` | src/mcpindexer/keyword_search.py:51-127 | with n at least the corpus size, every admissible chunk is returned |
| `KeywordSearch.KeepEntries` | src/mcpindexer/keyword_search.py:129-194 | the id map keeps exactly the entries that survive, unchanged |
| `KeywordSearch.DeleteRepoExact` | src/mcpindexer/keyword_search.py:129-158 | no chunk of the repository survives, all others do, and the count is the number removed |
| `KeywordSearch.DeleteFileExact` | src/mcpindexer/keyword_search.py:160-194 | no chunk of that file in that repository survives, other repositories are untouched, and the count is right |
| `KeywordSearch.KeywordSearchIndex.constructor` | src/mcpindexer/keyword_search.py:23-27 | empty index, no corpus built |
| `KeywordSearch.KeywordSearchIndex.IndexChunks` | src/mcpindexer/keyword_search.py:29-49 | the chunks are appended, the id map updated, the corpus rebuilt; no chunks changes nothing |
| `KeywordSearch.KeywordSearchIndex.Search` | src/mcpindexer/keyword_search.py:51-127 | nothing when nothing is indexed; otherwise the ranked filtered results |
| `KeywordSearch.KeywordSearchIndex.DeleteRepo` | src/mcpindexer/keyword_search.py:129-158 | drops the repository's chunks in order, rebuilds the corpus (none when empty), returns the count |
| `KeywordSearch.KeywordSearchIndex.DeleteFile` | src/mcpindexer/keyword_search.py:160-194 | drops that file's chunks in that repository, rebuilds, returns the count |
| `KeywordSearch.KeywordSearchIndex.Reset` | src/mcpindexer/keyword_search.py:196-200 | empty index, no corpus |
| `StackConfig.StatusValue` | src/mcpindexer/stack_config.py:16-23 | each status has its enum value |
| `StackConfig.StatusFromValue` | src/mcpindexer/stack_config.py:16-23 | a known value gives its status; any other value is an error |
| `StackConfig.AllStatusesComplete` | src/mcpindexer/stack_config.py:16-23 | the status list holds every status once |
| `StackConfig.NewRepoConfig` | src/mcpindexer/stack_config.py:128-143 | a new record is not indexed, has no commit, no timestamp and zero counts |
| `StackConfig.ToDict` | src/mcpindexer/stack_config.py:40-52 | the dictionary has the nine record keys |
| `StackConfig.RequiredString` | src/mcpindexer/stack_config.py:58-59 | a missing key is a `KeyError` failure; a string value is taken as it is |
| `StackConfig.OptionalString` | src/mcpindexer/stack_config.py:61-65 | an absent or null key reads as none |
| `StackConfig.IntOr` | src/mcpindexer/stack_config.py:63-64 | an absent count reads as its default |
| `StackConfig.BoolOr` | src/mcpindexer/stack_config.py:66 | an absent flag reads as its default |
| `StackConfig.StatusField` | src/mcpindexer/stack_config.py:60 | an absent status reads as not indexed; an unknown one is an error |
| `StackConfig.FromDict` | src/mcpindexer/stack_config.py:55-67 | a missing name or path is an error; otherwise the record takes them, and status, counts and flag default |
| `StackConfig.FromDictToDict` | src/mcpindexer/stack_config.py:40-67 | reading back a written record gives the same record |
| `StackConfig.StatusValueRoundTrip` | src/mcpindexer/stack_config.py:16-23 | a status survives its value |
| `StackConfig.FromMinimalDict` | src/mcpindexer/stack_config.py:55-67 | a dictionary with only name and path gives a fresh record |
| `StackConfig.WithStatus` | src/mcpindexer/stack_config.py:181-200 | the status is set; only `INDEXED` sets the timestamp; each given field replaces the old, each absent one keeps it |
| `StackConfig.WithStatusOnly` | src/mcpindexer/stack_config.py:181-200 | with nothing else given and a status other than `INDEXED`, only the status changes |
| `StackConfig.NeedsReindexIff` | src/mcpindexer/stack_config.py:227-254 | reindex exactly when unknown, not indexed, stale or failed, or when a recorded commit differs from the current one |
| `StackConfig.IndexedAtCommitIsCurrent` | src/mcpindexer/stack_config.py:227-254 | an indexed record at the current commit needs nothing |
| `StackConfig.WithStatusIn` | src/mcpindexer/stack_config.py:219-225 | exactly the records with that status |
| `StackConfig.CountStatus` | src/mcpindexer/stack_config.py:266-268 | the count is the number of records with that status |
| `StackConfig.CountsFor` | src/mcpindexer/stack_config.py:264-268 | one count per status, in status order |
| `StackConfig.CountsSumToTotal` | src/mcpindexer/stack_config.py:262-279 | the per-status counts add up to the number of records |
| `StackConfig.StackConfig.constructor` | src/mcpindexer/stack_config.py:78-92 | a configuration with no file starts empty |
| `StackConfig.StackConfig.AddRepo` | src/mcpindexer/stack_config.py:128-143 | a fresh record is stored under its name, replacing an earlier one in place |
| `StackConfig.StackConfig.RemoveRepo` | src/mcpindexer/stack_config.py:145-159 | true exactly when the name was present; only that entry goes |
| `StackConfig.StackConfig.UpdateRepoStatus` | src/mcpindexer/stack_config.py:161-202 | unknown names change nothing; a known record becomes `WithStatus` of itself |
| `StackConfig.StackConfig.GetRepo` | src/mcpindexer/stack_config.py:204-206 | the record stored under the name, or none |
| `StackConfig.StackConfig.ListRepos` | src/mcpindexer/stack_config.py:208-225 | all records in insertion order, or exactly those with the requested status |
| `StackConfig.StackConfig.NeedsReindex` | src/mcpindexer/stack_config.py:227-254 | an unknown repository always needs indexing; otherwise the decision above |
| `StackConfig.StackConfig.MarkStale` | src/mcpindexer/stack_config.py:256-260 | a known record becomes stale and nothing else changes |
| `StackConfig.StackConfig.GetStats` | src/mcpindexer/stack_config.py:262-279 | the repository count, one count per status summing to it, and the file and chunk totals over all records |
| `StackConfig.FreshRecordNeedsReindex` | src/mcpindexer/stack_config.py:227-254 | a newly added repository needs indexing |
| `StackConfig.StaleNeedsReindex` | src/mcpindexer/stack_config.py:227-260 | a stale repository needs reindexing whatever the commit |
| `DependencyAnalysis.DependentsOf` | src/scout/dependency_analyzer.py:34-40 | exactly the sources of internal dependencies on the file |
| `DependencyAnalysis.GetDependents` | src/scout/dependency_analyzer.py:34-40 | the loop computes `DependentsOf` |
| `DependencyAnalysis.GetDependencies` | src/scout/dependency_analyzer.py:42-44 | the file's resolved targets, or nothing for an unknown file |
| `DependencyAnalysis.DetectImportType` | src/scout/dependency_analyzer.py:200-209 | the five-entry table, `"unknown"` exactly for other tags |
| `DependencyAnalysis.TsxImportTypeUnknown` | src/scout/dependency_analyzer.py:200-209 | TSX files get `"unknown"` |
| `DependencyAnalysis.PackageName` | src/scout/dependency_analyzer.py:211-228 | an unscoped module's package is a slash-free prefix of it |
| `DependencyAnalysis.PlainPackageName` | src/scout/dependency_analyzer.py:211-228 | `a/rest` gives `a` |
| `DependencyAnalysis.ScopedPackageName` | src/scout/dependency_analyzer.py:211-228 | `@s/n/rest` gives `@s/n` |
| `DependencyAnalysis.BareScopeName` | src/scout/dependency_analyzer.py:211-228 | a bare `@s` stays `@s` |
| `DependencyAnalysis.FirstContaining` | src/scout/dependency_analyzer.py:255-259 | a file found contains the import path; none exactly when no file does |
| `DependencyAnalysis.FirstContainingIsFirst` | src/scout/dependency_analyzer.py:255-259 | no earlier file contains the import path |
| `DependencyAnalysis.ResolveInternalImport` | src/scout/dependency_analyzer.py:230-259 | the loop computes `FirstContaining` |
| `DependencyAnalysis.FoldSnoc` | src/scout/dependency_analyzer.py:81-104 | the graph grows one import at a time |
| `DependencyAnalysis.AddSiteParts` | src/scout/dependency_analyzer.py:81-104 | an external import adds its package to the file's set and the global set; a resolved internal one adds its target |
| `DependencyAnalysis.FoldDependencies` | src/scout/dependency_analyzer.py:81-91 | the dependency list has one entry per import, in order |
| `DependencyAnalysis.SitesExact` | src/scout/dependency_analyzer.py:81-84 | the imports visited are exactly those of the added files |
| `DependencyAnalysis.AnalyzeOnePerImport` | src/scout/dependency_analyzer.py:81-91 | analysis yields exactly one dependency per import of every added file |
| `DependencyAnalysis.FoldPackagesUnion` | src/scout/dependency_analyzer.py:93-97 | the global package set is the union of the per-file sets |
| `DependencyAnalysis.FoldPackagesFromImports` | src/scout/dependency_analyzer.py:93-97 | every recorded package comes from an external import of that file |
| `DependencyAnalysis.FoldInternal` | src/scout/dependency_analyzer.py:98-104 | every internal target is an added file that one of the source's internal imports resolves to |
| `DependencyAnalysis.DependencyAnalyzer.constructor` | src/scout/dependency_analyzer.py:50-58 | a new analyzer has no files |
| `DependencyAnalysis.DependencyAnalyzer.AddFile` | src/scout/dependency_analyzer.py:60-67 | the file is stored under its path |
| `DependencyAnalysis.DependencyAnalyzer.Analyze` | src/scout/dependency_analyzer.py:69-111 | the graph of the stored files |
| `DependencyAnalysis.DependencyAnalyzer.FindExternalCalls` | src/scout/dependency_analyzer.py:113-128 | exactly the external dependencies whose target contains the package, in order |
| `DependencyAnalysis.DependencyAnalyzer.FindCircularDependencies` | src/scout/dependency_analyzer.py:130-162 | every reported cycle is a closed walk of at least two files along resolved imports |
| `DependencyAnalysis.DependencyAnalyzer.GetDependencyStats` | src/scout/dependency_analyzer.py:164-198 | file and dependency counts, internal plus external equals total, package count, and the most-depended-on files |
| `DependencyAnalysis.AnalyzeFiles` | src/scout/dependency_analyzer.py:69-111 | the loop over files computes the graph |
| `DependencyAnalysis.AnalyzeFile` | src/scout/dependency_analyzer.py:81-104 | the loop over one file's imports extends the fold |
| `DependencyAnalysis.AnalyzeImport` | src/scout/dependency_analyzer.py:83-104 | one import updates the graph as `AddSite` |
| `DependencyAnalysis.GraphTargetsWithin` | src/scout/dependency_analyzer.py:98-104 | every resolved target is an added file |
| `DependencyAnalysis.CycleFromWalk` | src/scout/dependency_analyzer.py:150-154 | meeting a file already on the path closes a cycle from its first occurrence |
| `DependencyAnalysis.Dfs` | src/scout/dependency_analyzer.py:142-156 | the search only reports cycles and marks the node visited |
| `DependencyAnalysis.FindCycles` | src/scout/dependency_analyzer.py:138-162 | every cycle reported by the outer loop is a cycle |
| `DependencyAnalysis.TallyCounts` | src/scout/dependency_analyzer.py:179-182 | a target is tallied exactly when it occurs, with its number of occurrences |
| `DependencyAnalysis.CountTargets` | src/scout/dependency_analyzer.py:179-182 | the counting loops compute the tally of all targets |
| `DependencyAnalysis.CountEntries` | src/scout/dependency_analyzer.py:184-186 | one scored entry per counted file, keyed by its count |
| `DependencyAnalysis.MostDependentProperties` | src/scout/dependency_analyzer.py:184-186 | at most five files, by non-increasing count, each with its true count |
| `DependencyAnalysis.MatchesAmong` | src/scout/dependency_analyzer.py:294-302 | exactly the other repositories whose name contains the package |
| `DependencyAnalysis.MatchOtherRepos` | src/scout/dependency_analyzer.py:294-302 | the loop over repository names computes `MatchesAmong` |
| `DependencyAnalysis.MatchPackages` | src/scout/dependency_analyzer.py:289-302 | exactly the matches of the repository's packages |
| `DependencyAnalysis.CrossRepoAnalyzer.constructor` | src/scout/dependency_analyzer.py:265-267 | no repositories |
| `DependencyAnalysis.CrossRepoAnalyzer.AddRepo` | src/scout/dependency_analyzer.py:269-277 | the analyzer is registered under its name |
| `DependencyAnalysis.CrossRepoAnalyzer.FindCrossRepoDependencies` | src/scout/dependency_analyzer.py:279-304 | an entry exactly when a repository imports a package that another registered repository's name contains |
| `DependencyAnalysis.CrossRepoAnalyzer.AllExternalPackages` | src/scout/dependency_analyzer.py:316-320 | exactly the packages some registered repository imports |
| `DependencyAnalysis.CrossRepoAnalyzer.SuggestMissingRepos` | src/scout/dependency_analyzer.py:306-330 | sorted, no duplicates; exactly the imported `@`-scoped packages not indexed |
| `DependencyAnalysis.PickScoped` | src/scout/dependency_analyzer.py:324-328 | exactly the `@`-scoped packages not indexed |
| `DependencyStorage.OrgPackageIsContainment` | src/scout/dependency_storage.py:155-177 | a package belongs to the organisation exactly when its lower-case form contains some prefix's |
| `DependencyStorage.OrgPackagesMembers` | src/scout/dependency_storage.py:155-177 | the kept packages are exactly the organisation's |
| `DependencyStorage.NoPrefixesKeepNothing` | src/scout/dependency_storage.py:155-177 | with no prefixes the filter keeps nothing |
| `DependencyStorage.FilterOrgPackages` | src/scout/dependency_storage.py:155-177 | the loop keeps the organisation's packages in order |
| `DependencyStorage.ReposMatch` | src/scout/dependency_storage.py:179-204 | true exactly when one normalised name contains the other |
| `DependencyStorage.NormalizedPackageClean` | src/scout/dependency_storage.py:184-196 | a normalised package has no upper case, `@`, `/`, `-` or `_` |
| `DependencyStorage.NormalizedRepoClean` | src/scout/dependency_storage.py:198-200 | a normalised repository name has no upper case, `-` or `_` |
| `DependencyStorage.SameNameMatches` | src/scout/dependency_storage.py:179-204 | a plain package matches the repository of the same name |
| `DependencyStorage.MatchesAnyRepo` | src/scout/dependency_storage.py:147-151 | true exactly when some indexed repository matches |
| `DependencyStorage.CrossOfMembers` | src/scout/dependency_storage.py:104-115 | an entry is in the concatenation exactly when some repository lists it |
| `DependencyStorage.CrossOfLength` | src/scout/dependency_storage.py:104-115 | the concatenation is as long as all the lists |
| `DependencyStorage.ConcatCross` | src/scout/dependency_storage.py:111-115 | the loop computes the concatenation |
| `DependencyStorage.StoredPackages` | src/scout/dependency_storage.py:140-143 | exactly the packages some entry stores |
| `DependencyStorage.Unmatched` | src/scout/dependency_storage.py:145-151 | exactly the packages matching no indexed repository |
| `DependencyStorage.DependencyStorage.constructor` | src/scout/dependency_storage.py:15-36 | the given prefixes or none, and no entries |
| `DependencyStorage.DependencyStorage.EntryFor` | src/scout/dependency_storage.py:79-89 | the internal count, the cross list, and the packages filtered only when prefixes are set |
| `DependencyStorage.DependencyStorage.SaveRepoDependencies` | src/scout/dependency_storage.py:62-90 | the repository's entry is stored or replaced |
| `DependencyStorage.DependencyStorage.GetRepoDependencies` | src/scout/dependency_storage.py:92-102 | the stored entry, none for an unknown repository |
| `DependencyStorage.DependencyStorage.GetExternalPackages` | src/scout/dependency_storage.py:117-128 | the stored packages, nothing for an unknown repository |
| `DependencyStorage.DependencyStorage.GetAllCrossRepoDependencies` | src/scout/dependency_storage.py:104-115 | every entry's list, in insertion order |
| `DependencyStorage.DependencyStorage.SuggestMissingRepos` | src/scout/dependency_storage.py:130-153 | sorted, no duplicates; exactly the stored packages matching no indexed repository |
| `DependencyStorage.DependencyStorage.GetStats` | src/scout/dependency_storage.py:206-221 | entry count, cross total, and the sorted distinct stored packages with their count |
| `Indexer.ScanRepo` | src/mcpindexer/indexer.py:215-235 | the walk's files with a supported suffix and no skipped directory in their path, in walk order |
| `Indexer.ScannedFileHasLanguage` | src/mcpindexer/indexer.py:215-235 | every scanned file has a detected language |
| `Indexer.SkippedDirectoryNotScanned` | src/mcpindexer/indexer.py:230-233 | a file under a skipped directory is not scanned |
| `Indexer.WalkCounts` | src/mcpindexer/indexer.py:95-122 | processed plus skipped is the number of files the filter lets through; processed is the number parsed; one error per failing file, never more than skipped |
| `Indexer.WalkConsideredCount` | src/mcpindexer/indexer.py:95-118 | processed plus skipped is the number of files considered |
| `Indexer.WalkErrorCount` | src/mcpindexer/indexer.py:120-122 | one error per failing file |
| `Indexer.WalkParsedFrom` | src/mcpindexer/indexer.py:102-114 | every parsed file comes from a file the filter lets through |
| `Indexer.PlansCoverFiles` | src/mcpindexer/indexer.py:110-114 | at least one chunk per parsed file |
| `Indexer.PutFilesKeys` | src/mcpindexer/indexer.py:108-109 | the analyzer holds exactly the earlier files and the parsed ones |
| `Indexer.IndexResult` | src/mcpindexer/indexer.py:124-141 | counters from the loop; chunks indexed equals created unless the store failed with chunks to store; then exactly one error is added |
| `Indexer.EmptyResult` | src/mcpindexer/indexer.py:364-373 | all counts zero, no commit, no errors |
| `Indexer.ChangedPathsMembers` | src/mcpindexer/indexer.py:270-284 | a path is listed exactly when some diff names it as old or new path |
| `Indexer.ChangedPathsLength` | src/mcpindexer/indexer.py:270-284 | at most two paths per diff |
| `Indexer.GetChangedFiles` | src/mcpindexer/indexer.py:257-287 | nothing when the commit lookup fails, otherwise the changed paths |
| `Indexer.RepoIndexer.constructor` | src/mcpindexer/indexer.py:41-69 | a fresh chunker at counter 0 and an empty analyzer over the given store |
| `Indexer.RepoIndexer.IndexParsed` | src/mcpindexer/indexer.py:108-114 | one parsed file is chunked and handed to the analyzer |
| `Indexer.RepoIndexer.IndexEntry` | src/mcpindexer/indexer.py:96-122 | one loop step matches `Walk` |
| `Indexer.RepoIndexer.IndexFiles` | src/mcpindexer/indexer.py:95-122 | the loop matches `Walk`, chunks every parsed file and adds it to the analyzer |
| `Indexer.RepoIndexer.Index` | src/mcpindexer/indexer.py:71-141 | the result, counter, analyzer and collection after scanning, chunking and storing |
| `Indexer.RepoIndexer.IndexFile` | src/mcpindexer/indexer.py:143-161 | a parse error or store error propagates; an unsupported file gives nothing; otherwise the file's chunks are stored |
| `Indexer.RepoIndexer.Reindex` | src/mcpindexer/indexer.py:163-185 | with `force`, the repository's records are deleted first; then it is indexed, and the result, the chunker's counter (raised by the chunk count), the analyzer's files and the store's records are those `index` gives |
| `Indexer.StoreChunks` | src/mcpindexer/indexer.py:124-131 | chunks are stored in one call; a store error becomes one error entry and zero indexed |
| `Indexer.IndexedConfigFields` | src/mcpindexer/indexer.py:339-355 | after indexing the record is `INDEXED` at `now` with the result's commit and counts |
| `Indexer.MultiRepoIndexer.constructor` | src/mcpindexer/indexer.py:295-306 | no repositories registered anywhere |
| `Indexer.MultiRepoIndexer.Register` | src/mcpindexer/indexer.py:326-337 | a new indexer, with its counter at 0 and no files in its analyzer, is registered in the registry, the cross-repository analyzer and the configuration |
| `Indexer.MultiRepoIndexer.IndexRegistered` | src/mcpindexer/indexer.py:339-355 | the repository is indexed: the result, the `INDEXED` record, the chunker's counter raised by the chunk count, the analyzer holding the parsed files, and the store holding the numbered chunks of every parsed file (or unchanged on a store error) |
| `Indexer.MultiRepoIndexer.AddRepo` | src/mcpindexer/indexer.py:308-373 | registers the repository; without auto-index the result is empty and nothing is stored; with it the repository is marked `INDEXED`, the store receives the chunks of every parsed file numbered from 1, and the new indexer's counter and analyzer reflect them |
| `Indexer.MultiRepoIndexer.RemoveRepo` | src/mcpindexer/indexer.py:375-395 | the repository leaves every registry and its records leave the store |
| `Indexer.IndexAndRecord` | src/mcpindexer/indexer.py:339-355 | indexing and the two status updates: the result, the `INDEXED` record, the counter, the analyzer's files and the store's records after indexing |
| `Indexer.Unregister` | src/mcpindexer/indexer.py:386-388 | only that analyzer leaves the cross-repository analyzer |

## Left out

- Tree-sitter parsing and query execution are foreign code. Their output is an input to the model (`Captures`), and `parse_file`'s read is a parameter.
- The sentence-transformers encoder, the ChromaDB client, its distance values and persistence, and `_select_device` are not modelled. The encoder and the distance are parameters.
- The environment variables for the model name and batch size are not modelled; the batch size is a constructor argument.
- `EmbeddingStore` reopening an existing collection is left out: a store starts empty.
- Chroma's handling of an id that is already present is not modelled. The model skips such records.
- A `where` filter with two top-level keys is read as the conjunction of both conditions.
- The BM25 arithmetic is left out. The scorer is an uninterpreted function of the corpus, the query tokens and the chunk position.
- Tokenization is `lower().split()`, and `lower()` is modelled for ASCII letters only.
- `StackConfig.load`/`save` and `DependencyStorage.load`/`save` are file and JSON I/O. The persistence side effects of the mutating operations go with them. Both stores start empty.
- The timestamp written by `update_repo_status` is a parameter `now`.
- Git and the filesystem are inputs: the walk is `tree`, the commit is `gitCommit`, and the diff list is `diffs`, absent when the lookup fails.
- The progress callback of `index` is left out.
- Parse exceptions in `index` are the `Failure` results of the `parse` parameter. An error raised by the store is the `storeError` parameter.
- The `ERROR` branch of `add_repo` (src/mcpindexer/indexer.py:356-363) is left out, because nothing in the model's `index` raises.
- `RepoIndexer.get_stats`, `_get_git_branch` and the `MultiRepoIndexer` delegations after line 397 are one-line calls into the modelled operations and are left out: `list_repos`, `get_repo_stats`, `reindex_all`, `get_cross_repo_dependencies`, `suggest_missing_repos`, `get_stack_status`, `get_repo_config`.
- StackConfig.StackConfig.UpdateRepoStatus: records are values here, so a `RepoConfig` that a caller of `add_repo` still holds does not see later updates (aliasing is not modelled).
- DependencyAnalysis.DependencyAnalyzer.GetDependencyStats: `top_external_packages` is left out. It depends on the iteration order of a Python set.
- DependencyAnalysis.DependencyAnalyzer.FindCircularDependencies states soundness only: every reported cycle is a closed walk. It does not state that every cycle is found.
- DependencyAnalysis.MatchPackages, DependencyAnalysis.CrossRepoAnalyzer.FindCrossRepoDependencies, DependencyAnalysis.PickScoped and DependencyStorage.Unmatched are stated as membership, not order, because the source iterates over sets.
- StackConfig.FromDict, with StackConfig.RequiredString, StackConfig.OptionalString, StackConfig.IntOr and StackConfig.BoolOr: `from_dict` checks no types, so `{"name": 1, "path": "p"}` or a `null` count still gives a record there. A typed `RepoConfig` cannot hold ill-typed fields, so such dictionaries are Failures here.
- `_chunk_function`'s minimum-token check has no effect on the chunks, so it is not modelled as a branch.
- Keyword search keeps only scores above zero, as `search` does (src/mcpindexer/keyword_search.py:92).
- Some behaviour the test files expect has no counterpart in the code (a `tokenize_code` helper, hybrid search, incremental reindexing). It is not modelled.

## Findings

| source | as written | input that shows it | evidently intended | confidence | as-written member | corrected member |
|---|---|---|---|---|---|---|
| src/mcpindexer/parser.py:326-331 | `require` is deleted before `require_relative`, so the longer keyword is never found | `require_relative 'helper'` gives module `_relative 'helper` | module `helper` | not executed | `Parser.RubyRelativeAsWritten` | `Parser.RubyRelativeModule` |
| src/mcpindexer/parser.py:317-320 | the module is the piece after the first `from`, which may sit inside the import clause | `import { fromEvent } from 'rxjs'` gives module `Event }` | module `rxjs` | not executed | `Parser.JsFromInClause` | `Parser.JsModuleOf` |

`ParseImportStatement`, `Imports`, `ExtractImports` and `ParseFile` compute the modules as the code writes them, since the chunker and the dependency analyzer receive exactly those. `RubyRelativeStatement` and `JsFromInClauseStatement` show both findings at the level of `_parse_import_statement`. The intended modules are `JsModule` and `RubyModule`, and `JsModuleOf` and `RubyRelativeModule` prove them right.

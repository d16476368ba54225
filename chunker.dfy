/**
  The chunker: a parsed file becomes retrieval chunks. Small classes are one chunk; large classes
  become an optional header chunk plus one chunk per method; functions outside every class are one
  chunk each; a file with none of these is one (possibly truncated) chunk. Every chunk gets a fresh
  id `<repo>:chunk:<n>` from the chunker's counter.

  The chunks a file yields are specified without ids by `Plan`, and numbered by `Numbered`; the
  methods of `CodeChunker` are proved to return `Numbered(repo, counter, Plan(repo, file))`.
 */
module Chunker {
  import opened Base
  import opened Strings
  import opened Parser

  const TargetMinTokens: nat := 100
  const TargetMaxTokens: nat := 300
  const CharsPerToken: nat := 4
  /** `max_lines` of `_extract_class_header`. */
  const HeaderMaxLines: nat := 50

  /** `CodeChunk`. */
  datatype CodeChunk = CodeChunk(
    chunkId: string, filePath: string, repoName: string, language: string, chunkType: string,
    codeText: string, startLine: int, endLine: int, symbolName: Option<string>,
    parentClass: Option<string>, imports: seq<string>, contextText: string, tokenCount: nat)

  // ---------------------------------------------------------------- pure helpers

  /** `_estimate_tokens`: whole groups of four characters. */
  function EstimateTokens(text: string): (n: nat)
    ensures n * CharsPerToken <= |text| < (n + 1) * CharsPerToken
  {
    |text| / CharsPerToken
  }

  /** A text of at most `TargetMaxTokens * CharsPerToken + 3` characters is within the cap, and only such a text. */
  lemma WithinCapByLength(text: string)
    ensures EstimateTokens(text) <= TargetMaxTokens <==> |text| < (TargetMaxTokens + 1) * CharsPerToken
  {
  }

  /** The function starts inside the class's byte range. */
  predicate InClass(f: CodeSymbol, cls: CodeSymbol) {
    cls.startByte <= f.startByte < cls.endByte
  }

  /** `_is_function_in_class`: some class's byte range holds the function's start. */
  function IsFunctionInClass(f: CodeSymbol, classes: seq<CodeSymbol>): (b: bool)
    ensures b <==> exists c :: c in classes && InClass(f, c)
  {
    if |classes| == 0 then false
    else if InClass(f, classes[0]) then true
    else
      assert forall c :: c in classes <==> c == classes[0] || c in classes[1..];
      IsFunctionInClass(f, classes[1..])
  }

  /** The parts of the context header. */
  function ContextParts(filePath: string, symbolName: Option<string>, parentClass: Option<string>): seq<string> {
    ["File: " + filePath]
    + (if Truthy(parentClass) then ["Class: " + parentClass.value] else [])
    + (if Truthy(symbolName) then [(if Truthy(parentClass) then "Method: " else "Function: ") + symbolName.value] else [])
  }

  /** `_build_context`: the header parts joined by ` | `, a blank line, then the code. */
  function BuildContext(filePath: string, symbolName: Option<string>, parentClass: Option<string>, code: string): string {
    Join(" | ", ContextParts(filePath, symbolName, parentClass)) + "\n\n" + code
  }

  /** Every context starts with the file line and ends with the code itself. */
  lemma ContextFrames(filePath: string, symbolName: Option<string>, parentClass: Option<string>, code: string)
    ensures var r := BuildContext(filePath, symbolName, parentClass, code);
      "File: " + filePath <= r && |code| <= |r| && r[|r| - |code|..] == code
  {
    var parts := ContextParts(filePath, symbolName, parentClass);
    var header := Join(" | ", parts);
    if |parts| > 1 {
      JoinCons(" | ", parts[0], parts[1..]);
      assert parts == [parts[0]] + parts[1..];
    }
    assert "File: " + filePath <= header;
    var r := header + "\n\n" + code;
    assert r[|r| - |code|..] == code;
  }

  /** The three header shapes: a method names its class and itself, a function itself, a file nothing. */
  lemma JoinThree(sep: string, a: string, b: string, c: string)
    ensures Join(sep, [a, b, c]) == a + sep + b + sep + c
  {
    JoinCons(sep, a, [b, c]);
    JoinCons(sep, b, [c]);
    assert [a, b, c][1..] == [b, c];
    assert [a, b, c] == [a] + [b, c];
  }

  lemma ContextOfMethod(path: string, name: string, cls: string, code: string)
    requires name != "" && cls != ""
    ensures BuildContext(path, Some(name), Some(cls), code)
         == "File: " + path + " | Class: " + cls + " | Method: " + name + "\n\n" + code
  {
    var a, b, c := "File: " + path, "Class: " + cls, "Method: " + name;
    assert ContextParts(path, Some(name), Some(cls)) == [a, b, c];
    JoinThree(" | ", a, b, c);
  }

  lemma ContextOfFunction(path: string, name: string, code: string)
    requires name != ""
    ensures BuildContext(path, Some(name), None, code) == "File: " + path + " | Function: " + name + "\n\n" + code
  {
    var a, c := "File: " + path, "Function: " + name;
    assert ContextParts(path, Some(name), None) == [a, c];
    JoinCons(" | ", a, [c]);
  }

  lemma ContextOfFile(path: string, code: string)
    ensures BuildContext(path, None, None, code) == "File: " + path + "\n\n" + code
  {
    assert ContextParts(path, None, None) == ["File: " + path];
  }

  /** The chunk id `<repo>:chunk:<n>`. */
  function ChunkId(repo: string, n: nat): string {
    repo + ":chunk:" + NatToString(n)
  }

  /** Within one repository, different counter values give different ids. */
  lemma ChunkIdInjective(repo: string, a: nat, b: nat)
    requires ChunkId(repo, a) == ChunkId(repo, b)
    ensures a == b
  {
    var p := repo + ":chunk:";
    assert ChunkId(repo, a)[|p|..] == NatToString(a);
    assert ChunkId(repo, b)[|p|..] == NatToString(b);
    NatToStringInjective(a, b);
  }

  // ---------------------------------------------------------------- the class header

  /**
    How many leading lines `_extract_class_header` keeps: it adds lines, at most `HeaderMaxLines`,
    until the newline-joined text would exceed the token cap.
   */
  function HeaderCountFrom(lines: seq<string>, i: nat): (k: nat)
    requires i <= Min(HeaderMaxLines, |lines|)
    ensures i <= k <= Min(HeaderMaxLines, |lines|)
    ensures forall j | i < j <= k :: EstimateTokens(Join("\n", lines[..j])) <= TargetMaxTokens
    ensures k < Min(HeaderMaxLines, |lines|) ==> EstimateTokens(Join("\n", lines[..k + 1])) > TargetMaxTokens
    decreases Min(HeaderMaxLines, |lines|) - i
  {
    if i == Min(HeaderMaxLines, |lines|) then i
    else if EstimateTokens(Join("\n", lines[..i + 1])) > TargetMaxTokens then i
    else HeaderCountFrom(lines, i + 1)
  }

  function HeaderCount(lines: seq<string>): (k: nat)
    ensures k <= HeaderMaxLines && k <= |lines|
    ensures forall j | 0 < j <= k :: EstimateTokens(Join("\n", lines[..j])) <= TargetMaxTokens
    ensures k < Min(HeaderMaxLines, |lines|) ==> EstimateTokens(Join("\n", lines[..k + 1])) > TargetMaxTokens
  {
    HeaderCountFrom(lines, 0)
  }

  /** The class header: the kept lines joined by newlines, or `None` when no line is kept. */
  function ClassHeader(text: string): (h: Option<string>) {
    var lines := SplitLines(text);
    var k := HeaderCount(lines);
    if k == 0 then None else Some(Join("\n", lines[..k]))
  }

  /** A header is a prefix of at most 50 of the class's lines, and within the token cap. */
  lemma ClassHeaderBounds(text: string)
    ensures var h := ClassHeader(text); var lines := SplitLines(text);
      h.Some? ==> exists k | 0 < k <= HeaderMaxLines && k <= |lines| ::
        h.value == Join("\n", lines[..k]) && EstimateTokens(h.value) <= TargetMaxTokens
  {
    var lines := SplitLines(text);
    var k := HeaderCount(lines);
    if k > 0 {
      assert EstimateTokens(Join("\n", lines[..k])) <= TargetMaxTokens;
    }
  }

  /** There is no header exactly when the class has no lines or its first line alone exceeds the cap. */
  lemma ClassHeaderAbsent(text: string)
    ensures var lines := SplitLines(text);
      ClassHeader(text).None? <==> |lines| == 0 || EstimateTokens(lines[0]) > TargetMaxTokens
  {
    var lines := SplitLines(text);
    if |lines| > 0 {
      assert lines[..1] == [lines[0]];
      assert Join("\n", lines[..1]) == lines[0];
    }
  }

  // ---------------------------------------------------------------- the plan of a file

  /** `[imp.module for imp in parsed_file.imports]`. */
  function ImportModules(pf: ParsedFile): (r: seq<string>)
    ensures |r| == |pf.imports| && forall i | 0 <= i < |r| :: r[i] == pf.imports[i].moduleName
  {
    Map((imp: ImportStatement) => imp.moduleName, pf.imports)
  }

  /** `_chunk_function`, without its id: every function becomes a chunk, however small. */
  function FunctionChunk(repo: string, pf: ParsedFile, imports: seq<string>, f: CodeSymbol, parent: Option<string>): CodeChunk {
    CodeChunk("", pf.filePath, repo, LanguageValue(pf.language), "function", f.text, f.startLine, f.endLine,
              Some(f.name), parent, imports, BuildContext(pf.filePath, Some(f.name), parent, f.text), EstimateTokens(f.text))
  }

  /** The single chunk of a class within the cap. */
  function WholeClassChunk(repo: string, pf: ParsedFile, imports: seq<string>, cls: CodeSymbol): CodeChunk {
    CodeChunk("", pf.filePath, repo, LanguageValue(pf.language), "class", cls.text, cls.startLine, cls.endLine,
              Some(cls.name), None, imports, BuildContext(pf.filePath, Some(cls.name), None, cls.text), EstimateTokens(cls.text))
  }

  /** The header chunk of a large class. */
  function HeaderChunk(repo: string, pf: ParsedFile, imports: seq<string>, cls: CodeSymbol, header: string): CodeChunk {
    CodeChunk("", pf.filePath, repo, LanguageValue(pf.language), "class_definition", header, cls.startLine,
              Min(cls.startLine + HeaderMaxLines, cls.endLine), Some(cls.name), None, imports,
              BuildContext(pf.filePath, Some(cls.name), None, header), EstimateTokens(header))
  }

  /** `_extract_methods_from_class`: the functions starting inside the class, in function-list order. */
  function MethodsOf(cls: CodeSymbol, fs: seq<CodeSymbol>): (r: seq<CodeSymbol>)
    ensures forall m :: m in r <==> m in fs && InClass(m, cls)
    ensures |r| <= |fs|
  {
    if |fs| == 0 then []
    else
      var init := MethodsOf(cls, fs[..|fs| - 1]);
      assert forall m :: m in fs <==> m in fs[..|fs| - 1] || m == fs[|fs| - 1];
      if InClass(fs[|fs| - 1], cls) then init + [fs[|fs| - 1]] else init
  }

  /** A class's method chunks, in method order. */
  function MethodChunks(repo: string, pf: ParsedFile, imports: seq<string>, cls: CodeSymbol, ms: seq<CodeSymbol>): seq<CodeChunk> {
    Map((m: CodeSymbol) => FunctionChunk(repo, pf, imports, m, Some(cls.name)), ms)
  }

  /** `_chunk_class`, without ids. */
  function ClassPlan(repo: string, pf: ParsedFile, imports: seq<string>, cls: CodeSymbol): seq<CodeChunk> {
    if EstimateTokens(cls.text) <= TargetMaxTokens then [WholeClassChunk(repo, pf, imports, cls)]
    else
      var header := ClassHeader(cls.text);
      (if Truthy(header) then [HeaderChunk(repo, pf, imports, cls, header.value)] else [])
      + MethodChunks(repo, pf, imports, cls, MethodsOf(cls, pf.functions))
  }

  /** The class chunks of the first classes, in class order. */
  function ClassesPlan(repo: string, pf: ParsedFile, imports: seq<string>, classes: seq<CodeSymbol>): seq<CodeChunk> {
    if |classes| == 0 then []
    else ClassesPlan(repo, pf, imports, classes[..|classes| - 1]) + ClassPlan(repo, pf, imports, classes[|classes| - 1])
  }

  /** The chunks of the standalone functions among `fs`, in function order. */
  function FunctionsPlan(repo: string, pf: ParsedFile, imports: seq<string>, fs: seq<CodeSymbol>): seq<CodeChunk> {
    if |fs| == 0 then []
    else
      var init := FunctionsPlan(repo, pf, imports, fs[..|fs| - 1]);
      var f := fs[|fs| - 1];
      if IsFunctionInClass(f, pf.classes) then init else init + [FunctionChunk(repo, pf, imports, f, None)]
  }

  /** `_chunk_entire_file`, without its id: the raw code, cut to 1200 characters when over the cap. */
  function FileChunk(repo: string, pf: ParsedFile, imports: seq<string>): CodeChunk {
    var tokens := EstimateTokens(pf.rawCode);
    var code := if tokens > TargetMaxTokens then pf.rawCode[..TargetMaxTokens * CharsPerToken] + "\n... (truncated)" else pf.rawCode;
    CodeChunk("", pf.filePath, repo, LanguageValue(pf.language), "file", code, 0, |SplitLines(pf.rawCode)|,
              None, None, imports, BuildContext(pf.filePath, None, None, code),
              if tokens > TargetMaxTokens then TargetMaxTokens else tokens)
  }

  /** `chunk_file`, without ids: class chunks, then standalone function chunks, else one file chunk. */
  function Plan(repo: string, pf: ParsedFile): seq<CodeChunk> {
    var imports := ImportModules(pf);
    var cs := ClassesPlan(repo, pf, imports, pf.classes) + FunctionsPlan(repo, pf, imports, pf.functions);
    if |cs| == 0 then [FileChunk(repo, pf, imports)] else cs
  }

  /** The plan's chunks numbered from `start + 1`. */
  function Numbered(repo: string, start: nat, plan: seq<CodeChunk>): (r: seq<CodeChunk>)
    ensures |r| == |plan|
    ensures forall i | 0 <= i < |plan| :: r[i] == plan[i].(chunkId := ChunkId(repo, start + i + 1))
  {
    seq(|plan|, i requires 0 <= i < |plan| => plan[i].(chunkId := ChunkId(repo, start + i + 1)))
  }

  lemma NumberedAppend(repo: string, start: nat, a: seq<CodeChunk>, b: seq<CodeChunk>)
    ensures Numbered(repo, start, a + b) == Numbered(repo, start, a) + Numbered(repo, start + |a|, b)
  {
  }

  // ---------------------------------------------------------------- properties of the plan

  /** Numbered chunks have pairwise different ids. */
  lemma NumberedIdsDistinct(repo: string, start: nat, plan: seq<CodeChunk>, i: int, j: int)
    requires 0 <= i < j < |plan|
    ensures Numbered(repo, start, plan)[i].chunkId != Numbered(repo, start, plan)[j].chunkId
  {
    if ChunkId(repo, start + i + 1) == ChunkId(repo, start + j + 1) {
      ChunkIdInjective(repo, start + i + 1, start + j + 1);
    }
  }

  /** Two successive `chunk_file` calls, the second starting where the first left the counter, share no id. */
  lemma SuccessiveCallsDistinct(repo: string, start: nat, p1: seq<CodeChunk>, p2: seq<CodeChunk>, i: int, j: int)
    requires 0 <= i < |p1| && 0 <= j < |p2|
    ensures Numbered(repo, start, p1)[i].chunkId != Numbered(repo, start + |p1|, p2)[j].chunkId
  {
    if ChunkId(repo, start + i + 1) == ChunkId(repo, start + |p1| + j + 1) {
      ChunkIdInjective(repo, start + i + 1, start + |p1| + j + 1);
    }
  }

  /** A file always yields at least one chunk. */
  lemma PlanNonEmpty(repo: string, pf: ParsedFile)
    ensures |Plan(repo, pf)| >= 1
  {
  }

  /** A class within the cap is one `class` chunk holding its whole text, with no parent and no method chunks. */
  lemma SmallClassPlan(repo: string, pf: ParsedFile, imports: seq<string>, cls: CodeSymbol)
    requires EstimateTokens(cls.text) <= TargetMaxTokens
    ensures var p := ClassPlan(repo, pf, imports, cls);
      |p| == 1 && p[0].chunkType == "class" && p[0].codeText == cls.text && p[0].parentClass.None?
      && p[0].symbolName == Some(cls.name) && p[0].startLine == cls.startLine && p[0].endLine == cls.endLine
  {
  }

  /**
    A class over the cap yields its header chunk when it has a non-empty header, then one
    `function` chunk per method, in order, each naming the class as its parent.
   */
  lemma LargeClassPlan(repo: string, pf: ParsedFile, imports: seq<string>, cls: CodeSymbol)
    requires EstimateTokens(cls.text) > TargetMaxTokens
    ensures var p := ClassPlan(repo, pf, imports, cls); var h := ClassHeader(cls.text);
      var ms := MethodsOf(cls, pf.functions); var off := if Truthy(h) then 1 else 0;
      |p| == off + |ms|
      && (Truthy(h) ==> p[0].chunkType == "class_definition" && p[0].codeText == h.value
                        && p[0].endLine == Min(cls.startLine + HeaderMaxLines, cls.endLine))
      && forall i | 0 <= i < |ms| ::
           p[off + i].chunkType == "function" && p[off + i].codeText == ms[i].text
           && p[off + i].parentClass == Some(cls.name) && InClass(ms[i], cls)
  {
    var p := ClassPlan(repo, pf, imports, cls);
    var h := ClassHeader(cls.text);
    var ms := MethodsOf(cls, pf.functions);
    var off := if Truthy(h) then 1 else 0;
    var mc := MethodChunks(repo, pf, imports, cls, ms);
    var head := if Truthy(h) then [HeaderChunk(repo, pf, imports, cls, h.value)] else [];
    assert p == head + mc;
    forall i | 0 <= i < |ms|
      ensures p[off + i].chunkType == "function" && p[off + i].codeText == ms[i].text
           && p[off + i].parentClass == Some(cls.name) && InClass(ms[i], cls)
    {
      assert p[off + i] == mc[i] == FunctionChunk(repo, pf, imports, ms[i], Some(cls.name));
      assert ms[i] in ms;
    }
  }

  /** Every standalone function gets exactly its own `function` chunk, with no parent, in function order. */
  lemma {:induction false} FunctionsPlanShape(repo: string, pf: ParsedFile, imports: seq<string>, fs: seq<CodeSymbol>)
    ensures var p := FunctionsPlan(repo, pf, imports, fs);
      forall c | c in p :: c.chunkType == "function" && c.parentClass.None?
    ensures forall f | f in fs && !IsFunctionInClass(f, pf.classes) ::
      FunctionChunk(repo, pf, imports, f, None) in FunctionsPlan(repo, pf, imports, fs)
  {
    if |fs| > 0 {
      FunctionsPlanShape(repo, pf, imports, fs[..|fs| - 1]);
      forall f | f in fs && !IsFunctionInClass(f, pf.classes)
        ensures FunctionChunk(repo, pf, imports, f, None) in FunctionsPlan(repo, pf, imports, fs)
      {
        if f != fs[|fs| - 1] {
          assert f in fs[..|fs| - 1];
        }
      }
    }
  }

  /** Every chunk of a file carries the file's import modules, in order. */
  lemma {:induction false} ClassesPlanImports(repo: string, pf: ParsedFile, imports: seq<string>, classes: seq<CodeSymbol>)
    ensures forall c | c in ClassesPlan(repo, pf, imports, classes) :: c.imports == imports && c.filePath == pf.filePath
  {
    if |classes| > 0 {
      ClassesPlanImports(repo, pf, imports, classes[..|classes| - 1]);
    }
  }

  lemma {:induction false} FunctionsPlanImports(repo: string, pf: ParsedFile, imports: seq<string>, fs: seq<CodeSymbol>)
    ensures forall c | c in FunctionsPlan(repo, pf, imports, fs) :: c.imports == imports && c.filePath == pf.filePath
  {
    if |fs| > 0 {
      FunctionsPlanImports(repo, pf, imports, fs[..|fs| - 1]);
    }
  }

  lemma PlanImports(repo: string, pf: ParsedFile)
    ensures forall c | c in Plan(repo, pf) :: c.imports == ImportModules(pf) && c.filePath == pf.filePath
  {
    ClassesPlanImports(repo, pf, ImportModules(pf), pf.classes);
    FunctionsPlanImports(repo, pf, ImportModules(pf), pf.functions);
  }

  /**
    A file without class or function chunks is one `file` chunk from line 0 to its line count;
    over the cap, its text is the first 1200 characters and a truncation marker, counted as 300 tokens.
   */
  lemma FileOnlyPlan(repo: string, pf: ParsedFile)
    requires ClassesPlan(repo, pf, ImportModules(pf), pf.classes) == []
    requires FunctionsPlan(repo, pf, ImportModules(pf), pf.functions) == []
    ensures var p := Plan(repo, pf);
      |p| == 1 && p[0].chunkType == "file" && p[0].startLine == 0 && p[0].endLine == |SplitLines(pf.rawCode)|
      && p[0].symbolName.None? && p[0].parentClass.None?
      && (EstimateTokens(pf.rawCode) > TargetMaxTokens ==>
            p[0].codeText == pf.rawCode[..1200] + "\n... (truncated)" && p[0].tokenCount == 300)
      && (EstimateTokens(pf.rawCode) <= TargetMaxTokens ==>
            p[0].codeText == pf.rawCode && p[0].tokenCount == EstimateTokens(pf.rawCode))
  {
  }

  /** A file with no classes and no functions is exactly one file chunk. */
  lemma NoSymbolsPlan(repo: string, pf: ParsedFile)
    requires pf.classes == [] && pf.functions == []
    ensures Plan(repo, pf) == [FileChunk(repo, pf, ImportModules(pf))]
  {
  }

  // ---------------------------------------------------------------- one step of each plan

  lemma NumberedSnoc(repo: string, start: nat, p: seq<CodeChunk>, x: CodeChunk)
    ensures Numbered(repo, start, p + [x]) == Numbered(repo, start, p) + [x.(chunkId := ChunkId(repo, start + |p| + 1))]
  {
    NumberedAppend(repo, start, p, [x]);
  }

  lemma MethodChunksSnoc(repo: string, pf: ParsedFile, imports: seq<string>, cls: CodeSymbol, ms: seq<CodeSymbol>, i: int)
    requires 0 <= i < |ms|
    ensures MethodChunks(repo, pf, imports, cls, ms[..i + 1])
         == MethodChunks(repo, pf, imports, cls, ms[..i]) + [FunctionChunk(repo, pf, imports, ms[i], Some(cls.name))]
  {
    var a := MethodChunks(repo, pf, imports, cls, ms[..i + 1]);
    var b := MethodChunks(repo, pf, imports, cls, ms[..i]) + [FunctionChunk(repo, pf, imports, ms[i], Some(cls.name))];
    forall k | 0 <= k < |a| ensures a[k] == b[k] {
      assert ms[..i + 1][k] == ms[k];
      if k < i {
        assert ms[..i][k] == ms[k];
      }
    }
  }

  lemma ClassesPlanSnoc(repo: string, pf: ParsedFile, imports: seq<string>, classes: seq<CodeSymbol>, i: int)
    requires 0 <= i < |classes|
    ensures ClassesPlan(repo, pf, imports, classes[..i + 1])
         == ClassesPlan(repo, pf, imports, classes[..i]) + ClassPlan(repo, pf, imports, classes[i])
  {
    assert classes[..i + 1][..i] == classes[..i];
  }

  lemma FunctionsPlanSnoc(repo: string, pf: ParsedFile, imports: seq<string>, fs: seq<CodeSymbol>, i: int)
    requires 0 <= i < |fs|
    ensures FunctionsPlan(repo, pf, imports, fs[..i + 1])
         == FunctionsPlan(repo, pf, imports, fs[..i])
            + (if IsFunctionInClass(fs[i], pf.classes) then [] else [FunctionChunk(repo, pf, imports, fs[i], None)])
  {
    assert fs[..i + 1][..i] == fs[..i];
  }

  /** Numbering one plan after another continues the count. */
  lemma NumberedConcat(repo: string, start: nat, a: seq<CodeChunk>, b: seq<CodeChunk>, done: seq<CodeChunk>, next: seq<CodeChunk>)
    requires done == Numbered(repo, start, a)
    requires next == Numbered(repo, start + |done|, b)
    ensures done + next == Numbered(repo, start, a + b)
  {
    NumberedAppend(repo, start, a, b);
  }

  // ---------------------------------------------------------------- CodeChunker

  class CodeChunker {
    const repoName: string
    /** `chunk_counter`: how many ids this chunker has handed out. */
    var chunkCounter: nat

    constructor (repoName: string)
      ensures this.repoName == repoName && chunkCounter == 0
    {
      this.repoName := repoName;
      chunkCounter := 0;
    }

    /** `_generate_chunk_id`: bumps the counter and names the chunk after the new value. */
    method GenerateChunkId() returns (id: string)
      modifies this
      ensures chunkCounter == old(chunkCounter) + 1
      ensures id == ChunkId(repoName, chunkCounter)
    {
      chunkCounter := chunkCounter + 1;
      id := ChunkId(repoName, chunkCounter);
    }

    /** `_chunk_function`: the function's chunk under the next id. */
    method ChunkFunction(f: CodeSymbol, pf: ParsedFile, imports: seq<string>, parent: Option<string>) returns (c: CodeChunk)
      modifies this
      ensures chunkCounter == old(chunkCounter) + 1
      ensures c == FunctionChunk(repoName, pf, imports, f, parent).(chunkId := ChunkId(repoName, chunkCounter))
    {
      var id := GenerateChunkId();
      c := FunctionChunk(repoName, pf, imports, f, parent).(chunkId := id);
    }

    /** `_extract_class_header`. */
    method ExtractClassHeader(cls: CodeSymbol) returns (header: Option<string>)
      ensures header == ClassHeader(cls.text)
    {
      var lines := SplitLines(cls.text);
      var cap := Min(HeaderMaxLines, |lines|);
      var headerLines: seq<string> := [];
      var i := 0;
      while i < cap
        invariant 0 <= i <= cap
        invariant headerLines == lines[..i]
        invariant HeaderCountFrom(lines, i) == HeaderCount(lines)
      {
        var next := headerLines + [lines[i]];
        assert next == lines[..i + 1];
        if EstimateTokens(Join("\n", next)) > TargetMaxTokens {
          break;
        }
        headerLines := next;
        i := i + 1;
      }
      if |headerLines| > 0 {
        header := Some(Join("\n", headerLines));
      } else {
        header := None;
      }
    }

    /** `_extract_methods_from_class`. */
    method ExtractMethodsFromClass(cls: CodeSymbol, pf: ParsedFile) returns (methods: seq<CodeSymbol>)
      ensures methods == MethodsOf(cls, pf.functions)
    {
      methods := [];
      for i := 0 to |pf.functions|
        invariant methods == MethodsOf(cls, pf.functions[..i])
      {
        var f := pf.functions[i];
        assert pf.functions[..i + 1][..i] == pf.functions[..i];
        if cls.startByte <= f.startByte < cls.endByte {
          methods := methods + [f];
        }
      }
      assert pf.functions[..|pf.functions|] == pf.functions;
    }

    /** The method loop of `_chunk_class`: one chunk per method, parented by the class. */
    method ChunkMethods(cls: CodeSymbol, pf: ParsedFile, imports: seq<string>, methods: seq<CodeSymbol>) returns (chunks: seq<CodeChunk>)
      modifies this
      ensures chunks == Numbered(repoName, old(chunkCounter), MethodChunks(repoName, pf, imports, cls, methods))
      ensures chunkCounter == old(chunkCounter) + |chunks|
    {
      var start := chunkCounter;
      chunks := [];
      for i := 0 to |methods|
        invariant chunkCounter == start + |chunks|
        invariant chunks == Numbered(repoName, start, MethodChunks(repoName, pf, imports, cls, methods[..i]))
      {
        var c := ChunkFunction(methods[i], pf, imports, Some(cls.name));
        MethodChunksSnoc(repoName, pf, imports, cls, methods, i);
        NumberedSnoc(repoName, start, MethodChunks(repoName, pf, imports, cls, methods[..i]),
                     FunctionChunk(repoName, pf, imports, methods[i], Some(cls.name)));
        chunks := chunks + [c];
      }
      assert methods[..|methods|] == methods;
    }

    /** `_chunk_class`. */
    method ChunkClass(cls: CodeSymbol, pf: ParsedFile, imports: seq<string>) returns (chunks: seq<CodeChunk>)
      modifies this
      ensures chunks == Numbered(repoName, old(chunkCounter), ClassPlan(repoName, pf, imports, cls))
      ensures chunkCounter == old(chunkCounter) + |chunks|
    {
      var start := chunkCounter;
      if EstimateTokens(cls.text) <= TargetMaxTokens {
        var id := GenerateChunkId();
        chunks := [WholeClassChunk(repoName, pf, imports, cls).(chunkId := id)];
        NumberedSnoc(repoName, start, [], WholeClassChunk(repoName, pf, imports, cls));
        return;
      }
      var header := ExtractClassHeader(cls);
      var head: seq<CodeChunk> := [];
      var first: seq<CodeChunk> := [];
      if Truthy(header) {
        head := [HeaderChunk(repoName, pf, imports, cls, header.value)];
        var id := GenerateChunkId();
        first := [head[0].(chunkId := id)];
        NumberedSnoc(repoName, start, [], head[0]);
      }
      var methods := ExtractMethodsFromClass(cls, pf);
      var rest := ChunkMethods(cls, pf, imports, methods);
      NumberedAppend(repoName, start, head, MethodChunks(repoName, pf, imports, cls, methods));
      chunks := first + rest;
    }

    /** `_chunk_entire_file`. */
    method ChunkEntireFile(pf: ParsedFile, imports: seq<string>) returns (c: CodeChunk)
      modifies this
      ensures chunkCounter == old(chunkCounter) + 1
      ensures [c] == Numbered(repoName, old(chunkCounter), [FileChunk(repoName, pf, imports)])
    {
      var tokenCount := EstimateTokens(pf.rawCode);
      var code := pf.rawCode;
      if tokenCount > TargetMaxTokens {
        var targetChars := TargetMaxTokens * CharsPerToken;
        code := code[..targetChars] + "\n... (truncated)";
        tokenCount := TargetMaxTokens;
      }
      var id := GenerateChunkId();
      c := CodeChunk(id, pf.filePath, repoName, LanguageValue(pf.language), "file", code, 0, |SplitLines(pf.rawCode)|,
                     None, None, imports, BuildContext(pf.filePath, None, None, code), tokenCount);
    }

    /** The class loop of `chunk_file`. */
    method ChunkClasses(pf: ParsedFile, imports: seq<string>) returns (chunks: seq<CodeChunk>)
      modifies this
      ensures chunks == Numbered(repoName, old(chunkCounter), ClassesPlan(repoName, pf, imports, pf.classes))
      ensures chunkCounter == old(chunkCounter) + |chunks|
    {
      var start := chunkCounter;
      chunks := [];
      for i := 0 to |pf.classes|
        invariant chunkCounter == start + |chunks|
        invariant chunks == Numbered(repoName, start, ClassesPlan(repoName, pf, imports, pf.classes[..i]))
      {
        var clsChunks := ChunkClass(pf.classes[i], pf, imports);
        ClassesPlanSnoc(repoName, pf, imports, pf.classes, i);
        NumberedConcat(repoName, start, ClassesPlan(repoName, pf, imports, pf.classes[..i]),
                       ClassPlan(repoName, pf, imports, pf.classes[i]), chunks, clsChunks);
        chunks := chunks + clsChunks;
      }
      assert pf.classes[..|pf.classes|] == pf.classes;
    }

    /** The function loop of `chunk_file`: functions inside a class are skipped. */
    method ChunkStandaloneFunctions(pf: ParsedFile, imports: seq<string>) returns (chunks: seq<CodeChunk>)
      modifies this
      ensures chunks == Numbered(repoName, old(chunkCounter), FunctionsPlan(repoName, pf, imports, pf.functions))
      ensures chunkCounter == old(chunkCounter) + |chunks|
    {
      var start := chunkCounter;
      chunks := [];
      for j := 0 to |pf.functions|
        invariant chunkCounter == start + |chunks|
        invariant chunks == Numbered(repoName, start, FunctionsPlan(repoName, pf, imports, pf.functions[..j]))
      {
        var f := pf.functions[j];
        FunctionsPlanSnoc(repoName, pf, imports, pf.functions, j);
        if IsFunctionInClass(f, pf.classes) {
          continue;
        }
        var c := ChunkFunction(f, pf, imports, None);
        NumberedSnoc(repoName, start, FunctionsPlan(repoName, pf, imports, pf.functions[..j]),
                     FunctionChunk(repoName, pf, imports, f, None));
        chunks := chunks + [c];
      }
      assert pf.functions[..|pf.functions|] == pf.functions;
    }

    /** `chunk_file`: the file's planned chunks, numbered on from the counter, which rises by their number. */
    method ChunkFile(pf: ParsedFile) returns (chunks: seq<CodeChunk>)
      modifies this
      ensures chunks == Numbered(repoName, old(chunkCounter), Plan(repoName, pf))
      ensures chunkCounter == old(chunkCounter) + |chunks|
    {
      var start := chunkCounter;
      var imports := ImportModules(pf);
      var classChunks := ChunkClasses(pf, imports);
      var functionChunks := ChunkStandaloneFunctions(pf, imports);
      NumberedConcat(repoName, start, ClassesPlan(repoName, pf, imports, pf.classes),
                     FunctionsPlan(repoName, pf, imports, pf.functions), classChunks, functionChunks);
      chunks := classChunks + functionChunks;
      if |chunks| == 0 {
        var c := ChunkEntireFile(pf, imports);
        chunks := [c];
      }
    }
  }
}

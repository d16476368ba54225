/**
  The language-independent part of the code parser: choosing the language from the file
  suffix, naming the symbols that the syntax-tree queries capture, and reading the module
  name out of the text of an import statement. The syntax-tree queries themselves are an
  input (`Captures`).
 */
module Parser {
  import opened Base
  import opened Strings

  // ---------------------------------------------------------------- records

  datatype LanguageType = Python | JavaScript | TypeScript | Tsx | Ruby | Go

  /** `LanguageType.value`. */
  function LanguageValue(l: LanguageType): (v: string)
    ensures v in {"python", "javascript", "typescript", "tsx", "ruby", "go"}
  {
    match l
    case Python => "python"
    case JavaScript => "javascript"
    case TypeScript => "typescript"
    case Tsx => "tsx"
    case Ruby => "ruby"
    case Go => "go"
  }

  /** The six tags name six different languages. */
  lemma LanguageValueInjective(a: LanguageType, b: LanguageType)
    requires LanguageValue(a) == LanguageValue(b)
    ensures a == b
  {
  }

  /** `CodeSymbol`: a function or class definition. */
  datatype CodeSymbol = CodeSymbol(
    kind: string, name: string, startByte: nat, endByte: nat, startLine: nat, endLine: nat, text: string)

  /** `ImportStatement`. */
  datatype ImportStatement = ImportStatement(moduleName: string, symbols: seq<string>, startLine: nat, isExternal: bool)

  /** `ParsedFile`. */
  datatype ParsedFile = ParsedFile(
    filePath: string, language: LanguageType, functions: seq<CodeSymbol>, classes: seq<CodeSymbol>,
    imports: seq<ImportStatement>, rawCode: string)

  /** A syntax-tree node a query captured: its node type, byte range and first and last rows. */
  datatype Capture = Capture(kind: string, startByte: nat, endByte: nat, startRow: nat, endRow: nat)

  /** What the three queries of a language capture in one file. */
  datatype Captures = Captures(
    funcDefs: seq<Capture>, funcNames: seq<Capture>, classDefs: seq<Capture>, classNames: seq<Capture>,
    importNodes: seq<Capture>)

  // ---------------------------------------------------------------- detect_language

  /** The extension table of `detect_language`. */
  const ExtensionTable: map<string, LanguageType> := map[
    ".py" := Python, ".js" := JavaScript, ".mjs" := JavaScript, ".cjs" := JavaScript,
    ".ts" := TypeScript, ".tsx" := Tsx, ".rb" := Ruby, ".go" := Go]

  /** The table has eight entries and reaches all six languages. */
  lemma ExtensionTableShape()
    ensures |ExtensionTable.Keys| == 8
    ensures forall l: LanguageType :: l in ExtensionTable.Values
  {
    assert ExtensionTable.Keys == {".py", ".js", ".mjs", ".cjs", ".ts", ".tsx", ".rb", ".go"};
    forall l: LanguageType ensures l in ExtensionTable.Values {
      match l
      case Python => assert ExtensionTable[".py"] == l;
      case JavaScript => assert ExtensionTable[".js"] == l;
      case TypeScript => assert ExtensionTable[".ts"] == l;
      case Tsx => assert ExtensionTable[".tsx"] == l;
      case Ruby => assert ExtensionTable[".rb"] == l;
      case Go => assert ExtensionTable[".go"] == l;
    }
  }

  /** The last path component, as `Path(p).name` reads it: empty and `.` components are skipped. */
  function LastComponent(parts: seq<string>): (r: string)
    ensures r == "" || r in parts
  {
    if |parts| == 0 then ""
    else if parts[|parts| - 1] == "" || parts[|parts| - 1] == "." then LastComponent(parts[..|parts| - 1])
    else parts[|parts| - 1]
  }

  function FileName(path: string): string {
    LastComponent(Split(path, "/"))
  }

  /** The index of the last `c` in `s`, or -1 (Python's `rfind`). */
  function LastIndexOf(s: string, c: char): (i: int)
    ensures -1 <= i < |s|
    ensures i >= 0 ==> s[i] == c
    ensures forall j | i < j < |s| :: s[j] != c
    decreases |s|
  {
    if |s| == 0 then -1
    else if s[|s| - 1] == c then |s| - 1
    else LastIndexOf(s[..|s| - 1], c)
  }

  /** `Path.suffix` of a file name: from its last dot, unless that dot is the first or the last character. */
  function Suffix(name: string): (r: string)
    ensures r == "" || (|r| >= 2 && r[0] == '.' && |r| < |name| && EndsWith(name, r))
    ensures forall j | 0 < j < |r| :: r[j] != '.'
  {
    var i := LastIndexOf(name, '.');
    if 0 < i < |name| - 1 then name[i..] else ""
  }

  /** `detect_language`: the lower-cased suffix looked up in the table. */
  function DetectLanguage(path: string): (r: Option<LanguageType>)
    ensures r.Some? <==> Lower(Suffix(FileName(path))) in ExtensionTable
    ensures r.Some? ==> r.value == ExtensionTable[Lower(Suffix(FileName(path)))]
  {
    var ext := Lower(Suffix(FileName(path)));
    if ext in ExtensionTable then Some(ExtensionTable[ext]) else None
  }

  /** A name that starts with its only dot (a hidden file) has no suffix, so no language. */
  lemma HiddenFileHasNoLanguage(rest: string)
    requires '.' !in rest && '/' !in rest && |rest| > 0
    ensures Suffix("." + rest) == ""
    ensures DetectLanguage("." + rest) == None
  {
    var name := "." + rest;
    assert name[0] == '.';
    assert forall j | 0 < j < |name| :: name[j] == rest[j - 1];
    FileNameOfName(name);
    assert Lower("") == "";
    assert "" !in ExtensionTable;
  }

  /** The suffix of `base.ext` is `.ext` when `ext` has no dot: only the last dot counts. */
  lemma SuffixOf(base: string, ext: string)
    requires |base| > 0 && |ext| > 0 && '.' !in ext
    ensures Suffix(base + "." + ext) == "." + ext
  {
    var name := base + "." + ext;
    assert name[|base|] == '.';
    assert forall j | |base| < j < |name| :: name[j] == ext[j - |base| - 1];
    assert name[|base|..] == "." + ext;
  }

  /** A plain file name (no slash, not `.`) is its own last component. */
  lemma FileNameOfName(name: string)
    requires '/' !in name && name != "" && name != "."
    ensures FileName(name) == name
  {
    AbsentCharNotContained(name, "/", '/');
    SplitAbsent(name, "/");
  }

  /** The directory part of a path does not matter. */
  lemma FileNameInDirectory(dir: string, name: string)
    requires '/' !in name && name != "" && name != "."
    ensures FileName(dir + "/" + name) == name
  {
    SplitLastPiece(dir, '/', name);
    assert dir + "/" + name == dir + ['/'] + name;
  }

  /**
    `detect_language` on `dir/base.ext`: the table entry of the lower-cased `.ext`, whatever the
    directory and whatever dots the base holds.
   */
  lemma DetectLanguageOfPath(dir: string, base: string, ext: string)
    requires |base| > 0 && |ext| > 0 && '.' !in ext && '/' !in base + "." + ext
    ensures DetectLanguage(dir + "/" + base + "." + ext) ==
      (if Lower("." + ext) in ExtensionTable then Some(ExtensionTable[Lower("." + ext)]) else None)
  {
    var name := base + "." + ext;
    assert name != "." by { assert |name| >= 3; }
    FileNameInDirectory(dir, name);
    assert dir + "/" + base + "." + ext == dir + "/" + name;
    SuffixOf(base, ext);
  }

  /** The same lookup for a bare file name. */
  lemma DetectLanguageOfName(base: string, ext: string)
    requires |base| > 0 && |ext| > 0 && '.' !in ext && '/' !in base + "." + ext
    ensures DetectLanguage(base + "." + ext) ==
      (if Lower("." + ext) in ExtensionTable then Some(ExtensionTable[Lower("." + ext)]) else None)
  {
    var name := base + "." + ext;
    assert name != "." by { assert |name| >= 3; }
    FileNameOfName(name);
    SuffixOf(base, ext);
  }

  /** The suffix is compared after lower-casing: extensions that differ only in case (`.PY`, `.py`) give the same language. */
  lemma DetectLanguageIgnoresCase(dir: string, base: string, ext1: string, ext2: string)
    requires |base| > 0 && |ext1| > 0 && '.' !in ext1 && '/' !in base + "." + ext1
    requires |ext2| > 0 && '.' !in ext2 && '/' !in base + "." + ext2
    requires Lower(ext1) == Lower(ext2)
    ensures DetectLanguage(dir + "/" + base + "." + ext1) == DetectLanguage(dir + "/" + base + "." + ext2)
  {
    DetectLanguageOfPath(dir, base, ext1);
    DetectLanguageOfPath(dir, base, ext2);
    assert Lower("." + ext1) == Lower("." + ext2) by {
      assert forall i | 0 < i < |ext1| + 1 :: ("." + ext1)[i] == ext1[i - 1];
      assert forall i | 0 < i < |ext2| + 1 :: ("." + ext2)[i] == ext2[i - 1];
    }
  }

  // ---------------------------------------------------------------- _extract_symbols

  /** The name rule: a name capture belongs to a definition when it starts inside the definition's byte range (ends included). */
  predicate NameWithin(def: Capture, name: Capture) {
    def.startByte <= name.startByte <= def.endByte
  }

  /** The index of the first name capture that belongs to `def`, at or after `from`; -1 when there is none. */
  function FirstNameIndexFrom(def: Capture, names: seq<Capture>, from: nat): (k: int)
    requires from <= |names|
    ensures k == -1 || from <= k < |names|
    ensures k >= 0 ==> NameWithin(def, names[k]) && forall j | from <= j < k :: !NameWithin(def, names[j])
    ensures k == -1 ==> forall j | from <= j < |names| :: !NameWithin(def, names[j])
    decreases |names| - from
  {
    if from == |names| then -1
    else if NameWithin(def, names[from]) then from
    else FirstNameIndexFrom(def, names, from + 1)
  }

  /** The name of a definition: the text of its first name capture, else `"unknown"`. */
  function SymbolName(def: Capture, names: seq<Capture>, code: string): (name: string)
    ensures (forall j | 0 <= j < |names| :: !NameWithin(def, names[j])) ==> name == "unknown"
    ensures forall k | 0 <= k < |names| && NameWithin(def, names[k]) && (forall j | 0 <= j < k :: !NameWithin(def, names[j])) ::
      name == Slice(code, names[k].startByte, names[k].endByte)
  {
    var k := FirstNameIndexFrom(def, names, 0);
    if k < 0 then "unknown" else Slice(code, names[k].startByte, names[k].endByte)
  }

  function SymbolOf(def: Capture, names: seq<Capture>, code: string): (s: CodeSymbol)
    ensures s.name == SymbolName(def, names, code)
    ensures s.startByte == def.startByte && s.endByte == def.endByte
    ensures s.text == Slice(code, def.startByte, def.endByte)
  {
    CodeSymbol(def.kind, SymbolName(def, names, code), def.startByte, def.endByte, def.startRow, def.endRow,
               Slice(code, def.startByte, def.endByte))
  }

  /** One symbol per definition capture, in capture order. */
  function Symbols(defs: seq<Capture>, names: seq<Capture>, code: string): (r: seq<CodeSymbol>)
    ensures |r| == |defs|
    ensures forall i | 0 <= i < |defs| :: r[i] == SymbolOf(defs[i], names, code)
  {
    seq(|defs|, i requires 0 <= i < |defs| => SymbolOf(defs[i], names, code))
  }

  /** `_extract_symbols`: for each definition, scan the name captures and stop at the first that lies inside it. */
  method ExtractSymbols(defs: seq<Capture>, names: seq<Capture>, code: string) returns (symbols: seq<CodeSymbol>)
    ensures symbols == Symbols(defs, names, code)
  {
    symbols := [];
    for i := 0 to |defs|
      invariant symbols == Symbols(defs[..i], names, code)
    {
      var def := defs[i];
      var name := "unknown";
      var j := 0;
      while j < |names|
        invariant 0 <= j <= |names|
        invariant forall m | 0 <= m < j :: !NameWithin(def, names[m])
        invariant name == "unknown"
      {
        if def.startByte <= names[j].startByte <= def.endByte {
          name := Slice(code, names[j].startByte, names[j].endByte);
          break;
        }
        j := j + 1;
      }
      assert name == SymbolName(def, names, code);
      symbols := symbols + [CodeSymbol(def.kind, name, def.startByte, def.endByte, def.startRow, def.endRow,
                                       Slice(code, def.startByte, def.endByte))];
      assert defs[..i + 1] == defs[..i] + [def];
    }
    assert defs[..|defs|] == defs;
  }

  // ---------------------------------------------------------------- _parse_import_statement

  /** The `(module, symbols, is_external)` triple of `_parse_import_statement`. */
  datatype ImportParts = ImportParts(moduleName: string, symbols: seq<string>, isExternal: bool)

  function StripAll(parts: seq<string>): (r: seq<string>)
    ensures |r| == |parts|
    ensures forall i | 0 <= i < |parts| :: r[i] == Strip(parts[i])
  {
    seq(|parts|, i requires 0 <= i < |parts| => Strip(parts[i]))
  }

  /** `from m import a, b`: delete `from `, mark `import ` with a bar, split at the bar, and split the names at commas. */
  function PythonFromParts(text: string): (r: (string, seq<string>))
    requires Contains(text, "from")
  {
    var parts := Split(Replace(Replace(text, "from ", ""), "import ", "|"), "|");
    if |parts| >= 2 then (Strip(parts[0]), StripAll(Split(parts[1], ","))) else ("", [])
  }

  /** `import m`: delete `import ` and strip; there are no symbols. */
  function PythonPlainParts(text: string): (r: (string, seq<string>))
    requires !Contains(text, "from")
    ensures r.1 == []
  {
    (Strip(Replace(text, "import ", "")), [])
  }

  /** The Python branch: `from m import a, b` or `import m`; relative modules start with a dot. */
  function PythonImport(text: string): (r: ImportParts)
    ensures r.isExternal <==> !("." <= r.moduleName)
    ensures !Contains(text, "from") ==> r.symbols == [] && r.moduleName == Strip(Replace(text, "import ", ""))
  {
    var parsed := if Contains(text, "from") then PythonFromParts(text) else PythonPlainParts(text);
    ImportParts(parsed.0, parsed.1, !("." <= parsed.0))
  }

  /** The source's JavaScript module: the piece after the FIRST `from`, stripped of whitespace then of quotes. */
  function JsModuleAsWritten(text: string): (m: string)
    ensures !Contains(text, "from") ==> m == ""
  {
    if Contains(text, "from") then
      var parts := Split(text, "from");
      if |parts| >= 2 then StripQuotes(Strip(parts[1])) else ""
    else ""
  }

  /** The JavaScript module as intended: the piece after the LAST `from`, stripped the same way. */
  function JsModule(text: string): (m: string)
    ensures !Contains(text, "from") ==> m == ""
  {
    if Contains(text, "from") then StripQuotes(Strip(AfterLast(text, "from"))) else ""
  }

  /** The source's Ruby module: `require` is deleted before `require_relative`, so the second deletion never matches. */
  function RubyModuleAsWritten(text: string): string {
    StripQuotes(Strip(Replace(Replace(text, "require", ""), "require_relative", "")))
  }

  /** The Ruby module as intended: the longer keyword is deleted first. */
  function RubyModule(text: string): string {
    StripQuotes(Strip(Replace(Replace(text, "require_relative", ""), "require", "")))
  }

  /** Index of the first `c` in `s`, or -1. */
  function IndexOf(s: string, c: char): (i: int)
    ensures -1 <= i < |s|
    ensures i >= 0 ==> s[i] == c
    ensures forall j | 0 <= j < |s| && (i == -1 || j < i) :: s[j] != c
  {
    if |s| == 0 then -1
    else if s[0] == c then 0
    else
      var i := IndexOf(s[1..], c);
      if i < 0 then -1 else i + 1
  }

  /** `re.findall(r'"([^"]+)"', s)[0]`: the first non-empty double-quoted run, if any. */
  function FirstQuoted(s: string): (r: Option<string>)
    ensures r.Some? ==> |r.value| > 0 && '"' !in r.value
    ensures '"' !in s ==> r.None?
    decreases |s|
  {
    if |s| == 0 then None
    else if s[0] != '"' then
      assert '"' !in s ==> '"' !in s[1..];
      FirstQuoted(s[1..])
    else
      var k := IndexOf(s[1..], '"');
      if k < 0 then None
      else if k == 0 then FirstQuoted(s[1..])
      else
        assert s[1..][..k] == s[1..1 + k];
        Some(s[1..1 + k])
  }

  /** The Go branch finds the first quoted path after any unquoted prefix. */
  lemma {:induction false} FirstQuotedAfter(p: string, m: string, rest: string)
    requires '"' !in p && |m| > 0 && '"' !in m
    ensures FirstQuoted(p + "\"" + m + "\"" + rest) == Some(m)
    decreases |p|
  {
    var s := p + "\"" + m + "\"" + rest;
    if |p| == 0 {
      assert s == "\"" + m + "\"" + rest;
      var t := s[1..];
      assert t == m + "\"" + rest;
      assert t[|m|] == '"';
      assert t[..|m|] == m;
      var k := IndexOf(t, '"');
      assert forall j | 0 <= j < |m| :: t[j] == m[j];
      assert k == |m|;
      assert s[1..1 + |m|] == m;
    } else {
      assert s[1..] == p[1..] + "\"" + m + "\"" + rest;
      assert p[0] in p;
      FirstQuotedAfter(p[1..], m, rest);
    }
  }

  predicate IsJsFamily(lang: LanguageType) {
    lang == JavaScript || lang == TypeScript || lang == Tsx
  }

  /** The JavaScript, TypeScript and TSX branch: relative iff the module starts with `./` or `../`. */
  function JsImport(text: string): (r: ImportParts)
    ensures r.moduleName == JsModuleAsWritten(text) && r.symbols == []
    ensures r.isExternal <==> !("./" <= r.moduleName || "../" <= r.moduleName)
    ensures !Contains(text, "from") ==> r.moduleName == "" && r.isExternal
  {
    var moduleName := JsModuleAsWritten(text);
    ImportParts(moduleName, [], !("./" <= moduleName || "../" <= moduleName))
  }

  /** The Ruby branch: external iff the text does not mention `require_relative`. */
  function RubyImport(text: string): (r: ImportParts)
    ensures r.moduleName == RubyModuleAsWritten(text) && r.symbols == []
    ensures r.isExternal <==> !Contains(text, "require_relative")
  {
    ImportParts(RubyModuleAsWritten(text), [], !Contains(text, "require_relative"))
  }

  /** The Go branch: the first double-quoted path, or `""`; always external. */
  function GoImport(text: string): (r: ImportParts)
    ensures r.symbols == [] && r.isExternal
    ensures FirstQuoted(text).Some? ==> r.moduleName == FirstQuoted(text).value
    ensures FirstQuoted(text).None? ==> r.moduleName == ""
  {
    var q := FirstQuoted(text);
    ImportParts(if q.Some? then q.value else "", [], true)
  }

  /** `_parse_import_statement` as written; `JsModule` and `RubyModule` are the intended modules of two of its branches. */
  function ParseImportStatement(text: string, lang: LanguageType): (r: ImportParts)
    ensures lang != Python ==> r.symbols == []
    ensures lang == Python ==> r == PythonImport(text)
    ensures IsJsFamily(lang) ==> r == JsImport(text)
    ensures lang == Ruby ==> r == RubyImport(text)
    ensures lang == Go ==> r == GoImport(text)
  {
    if lang == Python then PythonImport(text)
    else if IsJsFamily(lang) then JsImport(text)
    else if lang == Ruby then RubyImport(text)
    else GoImport(text)
  }

  // ---------------------------------------------------------------- properties of the import branches

  /** The keywords the branches search for never overlap themselves. */
  lemma KeywordsBorderFree()
    ensures BorderFree("from") && BorderFree("import ")
  {
    assert "from"[1..] == "rom";
    BorderFreeByFirstChar("from");
    assert "import "[1..] == "mport ";
    BorderFreeByFirstChar("import ");
  }

  /** How the Python keywords are spelled. */
  lemma PythonSpellings(m: string, names: string)
    ensures "from" + " " == "from " && "from "[..4] == "from"
    ensures "import" + " " == "import " && "import "[..6] == "import"
    ensures " " + "import " == " import " && " " + "|" == " |"
    ensures ("from " + m + " import " + names)[..4] == "from"
  {
  }

  /** The text facts behind `PythonPlainImport`: no `from`, and deleting `import ` then stripping leaves `m`. */
  lemma PlainImportText(m: string)
    requires !Contains(m, "from") && !Contains(m, "import ")
    requires |m| > 0 && !IsSpace(m[0]) && !IsSpace(m[|m| - 1])
    ensures !Contains("import " + m, "from") && Strip(Replace("import " + m, "import ", "")) == m
  {
    ImportLacksFrom(m);
    DeleteLeading("import ", m);
    StripUnchanged(m, IsSpace);
  }

  lemma ImportLacksFrom(m: string)
    requires !Contains(m, "from")
    ensures !Contains("import " + m, "from")
  {
    assert 'f' !in "import ";
    NotContainsPrepend("import ", m, "from");
  }

  /** `import m` names module `m`, with no symbols; it is relative iff it starts with a dot. */
  lemma PythonPlainImport(m: string)
    requires !Contains(m, "from") && !Contains(m, "import ")
    requires |m| > 0 && !IsSpace(m[0]) && !IsSpace(m[|m| - 1])
    ensures PythonImport("import " + m) == ImportParts(m, [], !("." <= m))
  {
    PlainImportText(m);
    assert PythonPlainParts("import " + m) == (m, []);
  }

  /** Deleting `from ` from `from m import names` leaves `m import names`. */
  lemma DeleteFromKeyword(m: string, names: string)
    requires !Contains(m, "from") && !Contains(names, "from ")
    ensures Replace("from " + m + " import " + names, "from ", "") == m + " import " + names
  {
    var p := "from ";
    var y := " import " + names;
    NotContainsLonger(m, "from", " ");
    PythonSpellings(m, names);
    NotContainsPrepend(" import ", names, p);
    forall k | 0 < k < |p| ensures !Straddles(m, y, p, k) {
      if k == 1 {
        NoStraddleAtChar(m, y, p, 1);
      } else if k == 2 {
        NoStraddleAtChar(m, y, p, 2);
      } else if k == 3 {
        NoStraddleAtChar(m, y, p, 3);
      } else {
        NotContainsNotEndsWith(m, "from");
      }
    }
    NotContainsJoin(m, y, p);
    Assoc(p, m, " import ");
    Assoc(p, m + " import ", names);
    Assoc(m, " import ", names);
    ReplaceLeading(p, m + y, "");
    ReplaceAbsent(m + y, p, "");
  }

  /** Replacing `import ` by a bar in `m import names` puts the bar between the module and the names. */
  lemma MarkImportKeyword(m: string, names: string)
    requires !Contains(m, "import") && !Contains(names, "import ")
    ensures Replace(m + " import " + names, "import ", "|") == m + " |" + names
  {
    var p := "import ";
    NotContainsLonger(m, "import", " ");
    PythonSpellings(m, names);
    AbsentCharNotContained(" ", p, 'i');
    forall k | 0 < k < |p| ensures !Straddles(m, " ", p, k) {
      if k < 6 {
        assert |p[k..]| > |" "|;
      } else {
        NotContainsNotEndsWith(m, "import");
      }
    }
    NotContainsJoin(m, " ", p);
    KeywordsBorderFree();
    ReplaceAfterFirst(m + " ", p, names, "|");
    ReplaceAbsent(names, p, "|");
    Assoc(m, " ", p);
    Assoc(m, " ", "|");
  }

  /** Stripping `m ` gives back `m` when `m` neither starts nor ends with whitespace. */
  lemma StripTrailingSpace(m: string)
    requires |m| > 0 && !IsSpace(m[0]) && !IsSpace(m[|m| - 1])
    ensures Strip(m + " ") == m
  {
    var t := m + " ";
    assert LStrip(t, IsSpace) == t;
    assert t[..|t| - 1] == m;
    assert RStrip(m, IsSpace) == m;
  }

  /** `from m import a, b`: the module is `m` and the symbols are the comma-separated names, each stripped. */
  lemma PythonFromImport(m: string, names: string)
    requires |m| > 0 && !IsSpace(m[0]) && !IsSpace(m[|m| - 1])
    requires !Contains(m, "from") && !Contains(m, "import") && '|' !in m
    requires !Contains(names, "from ") && !Contains(names, "import ") && '|' !in names
    ensures PythonImport("from " + m + " import " + names)
         == ImportParts(m, StripAll(Split(names, ",")), !("." <= m))
  {
    var text := "from " + m + " import " + names;
    PythonSpellings(m, names);
    PrefixContained(text, "from");
    DeleteFromKeyword(m, names);
    MarkImportKeyword(m, names);
    AbsentCharNotContained(m + " ", "|", '|');
    AbsentCharNotContained(names, "|", '|');
    SplitAround(m + " ", "|", names);
    Assoc(m, " ", "|");
    StripTrailingSpace(m);
  }

  /** ` 'm'` (either quote) contains `p` only if `m` does, for a pattern that neither starts with a space or quote nor ends with a quote. */
  lemma QuotedLacks(m: string, q: char, p: string)
    requires IsQuote(q) && |p| > 0 && !Contains(m, p)
    requires p[0] != ' ' && !IsQuote(p[0]) && !IsQuote(p[|p| - 1])
    ensures !Contains(" " + [q] + m + [q], p)
  {
    NotContainsSnoc(m, q, p);
    NotContainsPrepend(" " + [q], m + [q], p);
    Assoc(" " + [q], m, [q]);
  }

  /** How a JavaScript statement is spelled around its last `from`. */
  lemma JsSpellings(clause: string, m: string, q: char)
    ensures clause + "from " + [q] + m + [q] == clause + "from" + (" " + [q] + m + [q])
    ensures (clause + "from" + (" " + [q] + m + [q]))[|clause|..|clause| + 4] == "from"
  {
  }

  /** The text facts behind `JsModuleOf`: the text mentions `from`, and after the last one comes ` 'm'`. */
  lemma JsLastFromText(clause: string, m: string, q: char)
    requires IsQuote(q) && |m| > 0 && !IsQuote(m[|m| - 1]) && !Contains(m, "from")
    ensures Contains(clause + "from " + [q] + m + [q], "from")
    ensures AfterLast(clause + "from " + [q] + m + [q], "from") == " " + [q] + m + [q]
  {
    var b := " " + [q] + m + [q];
    JsSpellings(clause, m, q);
    QuotedLacks(m, q, "from");
    KeywordsBorderFree();
    AfterLastOf(clause, "from", b);
    OccursContains(clause + "from" + b, "from", |clause|);
  }

  /** Whatever the import clause holds, the corrected JavaScript module is the quoted specifier after the last `from`. */
  lemma JsModuleOf(clause: string, m: string, q: char)
    requires IsQuote(q) && |m| > 0 && !IsQuote(m[0]) && !IsQuote(m[|m| - 1]) && !Contains(m, "from")
    ensures JsModule(clause + "from " + [q] + m + [q]) == m
  {
    JsLastFromText(clause, m, q);
    StripQuotedLiteral(m, q);
  }

  /** The text facts behind `JsModuleAsWrittenFirstPiece`: the second piece of the split at `from` is `mid`. */
  lemma JsFirstPieceText(pre: string, mid: string, rest: string)
    requires !Contains(pre, "from") && !Contains(mid, "from")
    ensures Contains(pre + "from" + mid + "from" + rest, "from")
    ensures var parts := Split(pre + "from" + mid + "from" + rest, "from"); |parts| >= 2 && parts[1] == mid
  {
    var x := pre + "from";
    KeywordsBorderFree();
    Assoc(x, mid, "from");
    Assoc(x, mid + "from", rest);
    SplitAfterFirst(pre, "from", mid + "from" + rest);
    SplitAfterFirst(mid, "from", rest);
    assert (pre + "from" + mid + "from" + rest)[|pre|..|pre| + 4] == "from";
    OccursContains(pre + "from" + mid + "from" + rest, "from", |pre|);
  }

  /** As written, the JavaScript module is whatever lies between the first and the second `from`. */
  lemma JsModuleAsWrittenFirstPiece(pre: string, mid: string, rest: string)
    requires !Contains(pre, "from") && !Contains(mid, "from")
    ensures JsModuleAsWritten(pre + "from" + mid + "from" + rest) == StripQuotes(Strip(mid))
  {
    JsFirstPieceText(pre, mid, rest);
  }

  /** The text facts behind `JsModuleAgreesWithoutFromInClause`: the split at `from` gives the clause and ` 'm'`. */
  lemma JsSingleFromText(clause: string, m: string, q: char)
    requires IsQuote(q) && |m| > 0 && !IsQuote(m[|m| - 1]) && !Contains(m, "from") && !Contains(clause, "from")
    ensures Contains(clause + "from " + [q] + m + [q], "from")
    ensures Split(clause + "from " + [q] + m + [q], "from") == [clause, " " + [q] + m + [q]]
  {
    var b := " " + [q] + m + [q];
    JsSpellings(clause, m, q);
    QuotedLacks(m, q, "from");
    KeywordsBorderFree();
    SplitAround(clause, "from", b);
    OccursContains(clause + "from" + b, "from", |clause|);
  }

  /** Where the clause has no `from` of its own, the correction agrees with the source. */
  lemma JsModuleAgreesWithoutFromInClause(clause: string, m: string, q: char)
    requires IsQuote(q) && |m| > 0 && !IsQuote(m[0]) && !IsQuote(m[|m| - 1]) && !Contains(m, "from")
    requires !Contains(clause, "from")
    ensures JsModuleAsWritten(clause + "from " + [q] + m + [q]) == m
    ensures JsModule(clause + "from " + [q] + m + [q]) == m
  {
    JsSingleFromText(clause, m, q);
    StripQuotedLiteral(m, q);
    JsModuleOf(clause, m, q);
  }

  /** The same statement, `pre from mid from 'm'`, read both ways: as written, the module is `mid` stripped; corrected, `m`. */
  lemma JsFromInClause(pre: string, mid: string, m: string, q: char)
    requires IsQuote(q) && |m| > 0 && !IsQuote(m[0]) && !IsQuote(m[|m| - 1]) && !Contains(m, "from")
    requires !Contains(pre, "from") && !Contains(mid, "from")
    ensures JsModuleAsWritten(pre + "from" + mid + "from " + [q] + m + [q]) == StripQuotes(Strip(mid))
    ensures JsModule(pre + "from" + mid + "from " + [q] + m + [q]) == m
  {
    JsClauseAssoc(pre, mid, m, q);
    JsModuleAsWrittenFirstPiece(pre, mid, " " + [q] + m + [q]);
    JsModuleOf(pre + "from" + mid, m, q);
  }

  lemma JsClauseAssoc(pre: string, mid: string, m: string, q: char)
    ensures pre + "from" + mid + "from " + [q] + m + [q] == pre + "from" + mid + "from" + (" " + [q] + m + [q])
  {
  }

  /** `require` cannot be followed by `_relative` in `require b` when `b` starts with a space. */
  lemma RequireLacksRelative(b: string)
    requires |b| > 0 && b[0] == ' ' && !Contains(b, "require_relative")
    ensures !Contains("require" + b, "require_relative")
  {
    RelativeKeywordFacts();
    NoStraddleAbsentChar("require", b, "require_relative");
    NotContainsJoin("require", b, "require_relative");
  }

  lemma RelativeKeywordFacts()
    ensures !Contains("require", "require_relative") && ' ' !in "require_relative"
  {
    AbsentCharNotContained("require", "require_relative", '_');
  }

  /** How the Ruby statements are spelled around the quoted module. */
  lemma RubySpellings(q: char, m: string)
    ensures "require" + "_relative" == "require_relative"
    ensures "require_relative " + [q] + m + [q] == "require_relative" + (" " + [q] + m + [q])
    ensures "require " + [q] + m + [q] == "require" + (" " + [q] + m + [q])
    ensures "require_relative " + [q] + m + [q] == "require" + ("_" + ("r" + ("elative" + (" " + [q] + m + [q]))))
    ensures "_" + ("r" + ("elative" + (" " + [q] + m + [q]))) == "_relative " + [q] + m + [q]
  {
  }

  /** The text facts behind `RubyRelativeModule`: deleting `require_relative` then `require` leaves ` 'm'`. */
  lemma RubyRelativeText(m: string, q: char)
    requires IsQuote(q) && |m| > 0 && !IsQuote(m[|m| - 1]) && !Contains(m, "require")
    ensures Replace(Replace("require_relative " + [q] + m + [q], "require_relative", ""), "require", "")
         == " " + [q] + m + [q]
  {
    var b := " " + [q] + m + [q];
    RubySpellings(q, m);
    QuotedLacks(m, q, "require");
    NotContainsLonger(b, "require", "_relative");
    DeleteLeading("require_relative", b);
    ReplaceAbsent(b, "require", "");
  }

  /** The corrected Ruby module of `require_relative 'm'` is `m`. */
  lemma RubyRelativeModule(m: string, q: char)
    requires IsQuote(q) && |m| > 0 && !IsQuote(m[0]) && !IsQuote(m[|m| - 1]) && !Contains(m, "require")
    ensures RubyModule("require_relative " + [q] + m + [q]) == m
  {
    RubyRelativeText(m, q);
    StripQuotedLiteral(m, q);
  }

  /** The text facts behind `RubyRequireModule`: in either order, the deletions leave ` 'm'`. */
  lemma RubyRequireText(m: string, q: char)
    requires IsQuote(q) && |m| > 0 && !IsQuote(m[|m| - 1]) && !Contains(m, "require")
    ensures Replace(Replace("require " + [q] + m + [q], "require_relative", ""), "require", "") == " " + [q] + m + [q]
    ensures Replace(Replace("require " + [q] + m + [q], "require", ""), "require_relative", "") == " " + [q] + m + [q]
  {
    var b := " " + [q] + m + [q];
    RubySpellings(q, m);
    QuotedLacks(m, q, "require");
    NotContainsLonger(b, "require", "_relative");
    RequireLacksRelative(b);
    ReplaceAbsent("require" + b, "require_relative", "");
    DeleteLeading("require", b);
    ReplaceAbsent(b, "require_relative", "");
  }

  /** The Ruby module of `require 'm'` is `m`, corrected or as written. */
  lemma RubyRequireModule(m: string, q: char)
    requires IsQuote(q) && |m| > 0 && !IsQuote(m[0]) && !IsQuote(m[|m| - 1]) && !Contains(m, "require")
    ensures RubyModule("require " + [q] + m + [q]) == m
    ensures RubyModuleAsWritten("require " + [q] + m + [q]) == m
  {
    RubyRequireText(m, q);
    StripQuotedLiteral(m, q);
  }

  /** `_relative` followed by text without `require` has no `require` either. */
  lemma RelativeTailLacksRequire(b: string)
    requires !Contains(b, "require")
    ensures !Contains("_" + ("r" + ("elative" + b)), "require")
  {
    var req := "require";
    NotContainsPrepend("elative", b, req);
    assert ("r" + ("elative" + b))[2] == 'l';
    NotContainsConsNoPrefix('r', "elative" + b, req);
    NotContainsCons('_', "r" + ("elative" + b), req);
  }

  /** The text facts behind `RubyRelativeAsWritten`: deleting `require` first leaves `_relative 'm'`. */
  lemma RubyRelativeAsWrittenText(m: string, q: char)
    requires IsQuote(q) && |m| > 0 && !IsQuote(m[|m| - 1]) && !Contains(m, "require")
    ensures Replace(Replace("require_relative " + [q] + m + [q], "require", ""), "require_relative", "")
         == "_relative " + [q] + m + [q]
  {
    var b := " " + [q] + m + [q];
    var t := "_" + ("r" + ("elative" + b));
    RubySpellings(q, m);
    QuotedLacks(m, q, "require");
    RelativeTailLacksRequire(b);
    DeleteLeading("require", t);
    NotContainsLonger(t, "require", "_relative");
    ReplaceAbsent(t, "require_relative", "");
  }

  /** As written, `require_relative 'm'` loses only `require`: the module comes out as `_relative 'm`. */
  lemma RubyRelativeAsWritten(m: string, q: char)
    requires IsQuote(q) && |m| > 0 && !IsQuote(m[0]) && !IsQuote(m[|m| - 1]) && !Contains(m, "require")
    ensures RubyModuleAsWritten("require_relative " + [q] + m + [q]) == "_relative " + [q] + m
    ensures RubyModuleAsWritten("require_relative " + [q] + m + [q]) != RubyModule("require_relative " + [q] + m + [q])
  {
    RubyRelativeAsWrittenText(m, q);
    StripTrailingQuote("_relative " + [q] + m, q);
    RubyRelativeModule(m, q);
    assert |"_relative " + [q] + m| != |m|;
  }

  /** `_parse_import_statement` on `require_relative 'm'`: a relative import whose module is `_relative 'm`. */
  lemma RubyRelativeStatement(m: string, q: char)
    requires IsQuote(q) && |m| > 0 && !IsQuote(m[0]) && !IsQuote(m[|m| - 1]) && !Contains(m, "require")
    ensures ParseImportStatement("require_relative " + [q] + m + [q], Ruby) == ImportParts("_relative " + [q] + m, [], false)
  {
    var t := "require_relative " + [q] + m + [q];
    RubyRelativeAsWritten(m, q);
    RelativeMentionsKeyword(m, q);
    assert ParseImportStatement(t, Ruby) == RubyImport(t);
  }

  lemma RelativeMentionsKeyword(m: string, q: char)
    ensures Contains("require_relative " + [q] + m + [q], "require_relative")
  {
    RubySpellings(q, m);
    PrefixContained("require_relative" + (" " + [q] + m + [q]), "require_relative");
  }

  /** `_parse_import_statement` on `pre from mid from 'm'` in the JavaScript family: the module is `mid` stripped. */
  lemma JsFromInClauseStatement(pre: string, mid: string, m: string, q: char, lang: LanguageType)
    requires IsJsFamily(lang)
    requires IsQuote(q) && |m| > 0 && !IsQuote(m[0]) && !IsQuote(m[|m| - 1]) && !Contains(m, "from")
    requires !Contains(pre, "from") && !Contains(mid, "from")
    ensures ParseImportStatement(pre + "from" + mid + "from " + [q] + m + [q], lang).moduleName == StripQuotes(Strip(mid))
  {
    JsFromInClause(pre, mid, m, q);
  }

  /** The Go module is the first double-quoted path, whatever unquoted text precedes it. */
  lemma GoFirstPath(p: string, m: string, rest: string)
    requires '"' !in p && |m| > 0 && '"' !in m
    ensures ParseImportStatement(p + "\"" + m + "\"" + rest, Go) == ImportParts(m, [], true)
  {
    FirstQuotedAfter(p, m, rest);
  }

  // ---------------------------------------------------------------- _extract_imports and parse_file

  /** The import statement of one captured node: its text parsed, its first row as the line. */
  function ImportOf(node: Capture, code: string, lang: LanguageType): ImportStatement {
    var p := ParseImportStatement(Slice(code, node.startByte, node.endByte), lang);
    ImportStatement(p.moduleName, p.symbols, node.startRow, p.isExternal)
  }

  /** The import statements of the captured nodes, in capture order. */
  function Imports(nodes: seq<Capture>, code: string, lang: LanguageType): (r: seq<ImportStatement>)
    ensures |r| == |nodes|
    ensures forall i | 0 <= i < |nodes| :: r[i] == ImportOf(nodes[i], code, lang)
  {
    Map(n => ImportOf(n, code, lang), nodes)
  }

  /** `_extract_imports`: one import statement per captured node, in capture order. */
  method ExtractImports(nodes: seq<Capture>, code: string, lang: LanguageType) returns (imports: seq<ImportStatement>)
    ensures imports == Imports(nodes, code, lang)
  {
    var f := n => ImportOf(n, code, lang);
    imports := [];
    for i := 0 to |nodes|
      invariant imports == Map(f, nodes[..i])
    {
      MapSnoc(f, nodes, i);
      imports := imports + [f(nodes[i])];
    }
    assert nodes[..|nodes|] == nodes;
  }

  /** The file `parse_file` builds from the captures of its code. */
  function ParsedFrom(path: string, lang: LanguageType, code: string, c: Captures): ParsedFile {
    ParsedFile(path, lang, Symbols(c.funcDefs, c.funcNames, code), Symbols(c.classDefs, c.classNames, code),
               Imports(c.importNodes, code, lang), code)
  }

  /**
    `parse_file`: `None` for an unsupported language before the file is read; otherwise the code
    given, or read from `path` (a read error propagates), run through the language's queries.
   */
  method ParseFile(path: string, code: Option<string>, read: string -> Result<string>,
                   query: (LanguageType, string) -> Captures) returns (r: Result<Option<ParsedFile>>)
    ensures DetectLanguage(path).None? ==> r == Success(None)
    ensures DetectLanguage(path).Some? && code.Some? ==>
      r == Success(Some(ParsedFrom(path, DetectLanguage(path).value, code.value, query(DetectLanguage(path).value, code.value))))
    ensures DetectLanguage(path).Some? && code.None? && read(path).Failure? ==> r.Failure?
    ensures DetectLanguage(path).Some? && code.None? && read(path).Success? ==>
      r == Success(Some(ParsedFrom(path, DetectLanguage(path).value, read(path).value,
                                   query(DetectLanguage(path).value, read(path).value))))
  {
    var language := DetectLanguage(path);
    if language.None? {
      return Success(None);
    }
    var lang := language.value;
    var text: string;
    if code.Some? {
      text := code.value;
    } else {
      var contents := read(path);
      if contents.Failure? {
        return Failure(contents.error);
      }
      text := contents.value;
    }
    var c := query(lang, text);
    var functions := ExtractSymbols(c.funcDefs, c.funcNames, text);
    var classes := ExtractSymbols(c.classDefs, c.classNames, text);
    var imports := ExtractImports(c.importNodes, text, lang);
    return Success(Some(ParsedFile(path, lang, functions, classes, imports, text)));
  }
}

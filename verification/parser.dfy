/** The parser's output record and its language table (core/parser.py).
    Extraction of records from syntax trees is not part of this model: records
    are inputs. */
module Parser {
  import opened Wrappers

  /** `FunctionInfo`: one function occurrence reported by the parser.
      `codeHash` is an opaque digest, compared only for equality. */
  datatype FunctionInfo = FunctionInfo(
    name: string,
    filePath: string,
    lineNumber: int,
    endLineNumber: int,
    body: string,
    calls: seq<string>,
    codeHash: string)

  /** The documented precondition of `FunctionInfo` (valid name, path and
      line), taken as a name, a path and a positive line number. The call
      graph's `CallGraphNode` asserts the name and the line of every node it
      builds, and `create_function_key` asserts the name and the path. */
  predicate ValidInfo(f: FunctionInfo) {
    f.name != [] && f.filePath != [] && f.lineNumber > 0
  }

  /** Index of the last `c` in `s`, or -1 (Python's `rfind`). */
  function LastIndexOf(s: string, c: char): (i: int)
    ensures -1 <= i < |s|
    ensures i >= 0 ==> s[i] == c
    ensures forall j :: i < j < |s| ==> s[j] != c
  {
    if s == [] then -1
    else if s[|s| - 1] == c then |s| - 1
    else LastIndexOf(s[..|s| - 1], c)
  }

  /** `PurePosixPath(p).name`: the last component, skipping the empty and `.`
      components that path parsing drops. */
  function PathName(p: string): (name: string)
    ensures '/' !in name
    ensures name != "."
    decreases |p|
  {
    var i := LastIndexOf(p, '/');
    var component := p[i + 1..];
    if component != [] && component != "." then component
    else if i < 0 then []
    else PathName(p[..i])
  }

  /** `PurePath.suffix`: from the last dot of the name, unless that dot is
      the first or the last character. */
  function Suffix(name: string): (s: string)
    ensures s != [] ==> s[0] == '.' && '.' !in s[1..] && |s| >= 2
  {
    var i := LastIndexOf(name, '.');
    if 0 < i < |name| - 1 then name[i..] else []
  }

  function LowerChar(c: char): char {
    if 'A' <= c <= 'Z' then (c as int - 'A' as int + 'a' as int) as char else c
  }

  /** `str.lower()` on ASCII letters; every other character is kept. */
  function Lower(s: string): (r: string)
    ensures |r| == |s|
    ensures forall i :: 0 <= i < |s| ==> r[i] == LowerChar(s[i])
  {
    seq(|s|, i requires 0 <= i < |s| => LowerChar(s[i]))
  }

  /** The `language_map` of `get_language_for_file`. */
  const LanguageMap: map<string, string> := map[
    ".py" := "python",
    ".c" := "c",
    ".h" := "c",
    ".cpp" := "cpp",
    ".cc" := "cpp",
    ".cxx" := "cpp",
    ".hpp" := "cpp",
    ".hxx" := "cpp",
    ".ts" := "typescript",
    ".tsx" := "tsx",
    ".js" := "javascript",
    ".jsx" := "jsx"
  ]

  const Languages: set<string> := {"python", "c", "cpp", "typescript", "tsx", "javascript", "jsx"}

  /** `get_language_for_file`: the language of the lower-cased suffix of the
      path's last component, or `None`. */
  function GetLanguageForFile(filePath: string): (r: Option<string>)
    requires filePath != []
    ensures r.Some? ==> r.value in Languages
    ensures r.None? <==> SuffixKey(filePath) !in LanguageMap
    ensures r.Some? ==> SuffixKey(filePath) in LanguageMap && r.value == LanguageMap[SuffixKey(filePath)]
  {
    LanguageOfSuffix(SuffixKey(filePath))
  }

  /** The lookup key: the lower-cased suffix of the last component. */
  function SuffixKey(filePath: string): string {
    Lower(Suffix(PathName(filePath)))
  }

  function LanguageOfSuffix(suffix: string): (r: Option<string>)
    ensures r.Some? ==> r.value in Languages
    ensures r.None? <==> suffix !in LanguageMap
  {
    if suffix in LanguageMap then Some(LanguageMap[suffix]) else None
  }

  /** Every suffix in the table is a dot followed by at least one character,
      none of them a dot or a slash. */
  predicate ExtensionShape(k: string) {
    |k| >= 2 && k[0] == '.' && forall j :: 1 <= j < |k| ==> k[j] != '.' && k[j] != '/'
  }

  lemma TableShape(k: string)
    requires k in LanguageMap
    ensures ExtensionShape(k)
  {
    assert LanguageMap.Keys == {".py", ".c", ".h", ".cpp", ".cc", ".cxx", ".hpp", ".hxx", ".ts", ".tsx", ".js", ".jsx"};
  }

  /** Lower-casing commutes with slicing. */
  lemma LowerSlice(p: string, q: string, i: int, j: int)
    requires Lower(p) == Lower(q) && 0 <= i <= j <= |p|
    ensures Lower(p[i..j]) == Lower(q[i..j])
  {
    assert |p| == |Lower(p)| == |q|;
    forall k | 0 <= k < j - i ensures LowerChar(p[i..j][k]) == LowerChar(q[i..j][k]) {
      assert Lower(p)[i + k] == Lower(q)[i + k];
    }
  }

  /** A character that lower-cases to a dot or a slash is that character. */
  lemma LowerKeepsPunctuation(c: char)
    ensures LowerChar(c) == '.' <==> c == '.'
    ensures LowerChar(c) == '/' <==> c == '/'
  {
  }

  /** A component `stem + ext` after any directory prefix is recognised by
      `ext` alone, whatever the case of its letters. */
  lemma LanguageOfExtension(dir: string, stem: string, ext: string)
    requires dir == [] || dir[|dir| - 1] == '/'
    requires stem != [] && '/' !in stem
    requires Lower(ext) in LanguageMap
    ensures GetLanguageForFile(dir + stem + ext) == Some(LanguageMap[Lower(ext)])
  {
    TableShape(Lower(ext));
    SuffixKeyOfExtension(dir, stem, ext);
  }

  /** The lookup key of such a path is the lower-cased extension. */
  lemma SuffixKeyOfExtension(dir: string, stem: string, ext: string)
    requires dir == [] || dir[|dir| - 1] == '/'
    requires stem != [] && '/' !in stem
    requires ExtensionShape(Lower(ext))
    ensures dir + stem + ext != [] && SuffixKey(dir + stem + ext) == Lower(ext)
  {
    ExtensionChars(ext);
    assert '/' !in stem + ext;
    NameOfLastComponent(dir, stem + ext);
    SuffixOfExtension(stem, ext);
    assert dir + stem + ext == dir + (stem + ext);
  }

  /** The characters of an extension whose lower-case form is in the table:
      a leading dot, then neither a dot nor a slash. */
  lemma ExtensionChars(ext: string)
    requires ExtensionShape(Lower(ext))
    ensures |ext| >= 2 && forall j :: 0 <= j < |ext| ==> ext[j] != '/' && (ext[j] == '.' <==> j == 0)
  {
    var key := Lower(ext);
    forall j | 0 <= j < |ext|
      ensures ext[j] != '/' && (ext[j] == '.' <==> j == 0)
    {
      LowerKeepsPunctuation(ext[j]);
      assert key[j] == LowerChar(ext[j]);
    }
  }

  lemma NameOfLastComponent(dir: string, name: string)
    requires dir == [] || dir[|dir| - 1] == '/'
    requires name != [] && name != "." && '/' !in name
    ensures PathName(dir + name) == name
  {
    var p := dir + name;
    forall j | |dir| <= j < |p| ensures p[j] != '/' {
      assert p[j] == name[j - |dir|];
    }
    if dir != [] { assert p[|dir| - 1] == '/'; }
    assert LastIndexOf(p, '/') == |dir| - 1;
    assert p[|dir|..] == name;
  }

  lemma SuffixOfExtension(stem: string, ext: string)
    requires stem != [] && |ext| >= 2
    requires forall j :: 0 <= j < |ext| ==> (ext[j] == '.' <==> j == 0)
    ensures Suffix(stem + ext) == ext
  {
    var name := stem + ext;
    assert name[|stem|] == '.';
    forall j | |stem| < j < |name| ensures name[j] != '.' {
      assert name[j] == ext[j - |stem|];
    }
    assert LastIndexOf(name, '.') == |stem|;
    assert name[|stem|..] == ext;
  }

  /** A last component with no dot after its first character has no suffix,
      hence no language. */
  lemma NoSuffixNoLanguage(filePath: string)
    requires filePath != []
    requires forall j :: 1 <= j < |PathName(filePath)| ==> PathName(filePath)[j] != '.'
    ensures GetLanguageForFile(filePath) == None
  {
    var name := PathName(filePath);
    var i := LastIndexOf(name, '.');
    assert i <= 0;
    assert Suffix(name) == [];
    assert Lower([]) == [];
    if [] in LanguageMap {
      TableShape([]);
    }
  }

  /** Paths that agree after lower-casing get the same answer. */
  lemma {:induction false} CaseInsensitive(p: string, q: string)
    requires p != [] && q != []
    requires Lower(p) == Lower(q)
    ensures GetLanguageForFile(p) == GetLanguageForFile(q)
  {
    SameNameUpToCase(p, q);
    SuffixUpToCase(PathName(p), PathName(q));
    assert SuffixKey(p) == SuffixKey(q);
  }

  lemma SuffixUpToCase(a: string, b: string)
    requires Lower(a) == Lower(b)
    ensures Lower(Suffix(a)) == Lower(Suffix(b))
  {
    LastIndexUpToCase(a, b, '.');
    var i := LastIndexOf(a, '.');
    if 0 < i < |a| - 1 {
      LowerSlice(a, b, i, |a|);
      assert a[i..] == a[i..|a|] && b[i..] == b[i..|b|];
    }
  }

  lemma {:induction false} LastIndexUpToCase(a: string, b: string, c: char)
    requires Lower(a) == Lower(b)
    requires c == '/' || c == '.'
    ensures LastIndexOf(a, c) == LastIndexOf(b, c)
    decreases |a|
  {
    assert |a| == |b|;
    if a != [] {
      var n := |a| - 1;
      assert Lower(a)[n] == Lower(b)[n];
      LowerKeepsPunctuation(a[n]);
      LowerKeepsPunctuation(b[n]);
      LowerSlice(a, b, 0, n);
      assert a[..n] == a[0..n] && b[..n] == b[0..n];
      LastIndexUpToCase(a[..n], b[..n], c);
    }
  }

  lemma {:induction false} SameNameUpToCase(p: string, q: string)
    requires Lower(p) == Lower(q)
    ensures Lower(PathName(p)) == Lower(PathName(q))
    decreases |p|
  {
    LastIndexUpToCase(p, q, '/');
    var i := LastIndexOf(p, '/');
    ComponentUpToCase(p, q, i);
    if i >= 0 {
      LowerPrefix(p, q, i);
      SameNameUpToCase(p[..i], q[..i]);
    }
  }

  lemma LowerPrefix(p: string, q: string, i: int)
    requires Lower(p) == Lower(q) && 0 <= i <= |p|
    ensures Lower(p[..i]) == Lower(q[..i])
  {
    LowerSlice(p, q, 0, i);
    assert p[..i] == p[0..i] && q[..i] == q[0..i];
  }

  /** The components after the same position agree up to case, and one is
      `.` exactly when the other is. */
  lemma ComponentUpToCase(p: string, q: string, i: int)
    requires Lower(p) == Lower(q) && -1 <= i < |p|
    ensures Lower(p[i + 1..]) == Lower(q[i + 1..])
    ensures p[i + 1..] == "." <==> q[i + 1..] == "."
  {
    var cp, cq := p[i + 1..], q[i + 1..];
    LowerSlice(p, q, i + 1, |p|);
    assert cp == p[i + 1..|p|] && cq == q[i + 1..|q|];
    if |cp| == 1 {
      assert Lower(cp)[0] == Lower(cq)[0];
      LowerKeepsPunctuation(cp[0]);
      LowerKeepsPunctuation(cq[0]);
    }
  }
}

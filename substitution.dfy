/** The substitution engine: which files are text, where a `{{ identifier }}` placeholder
    occurs, how such a file is rendered, and what `process_file` leaves at the destination. */
module Substitution {
  import opened Wrappers
  import opened Strings
  import opened Sequences
  import opened Values
  import opened FileSystem

  // ----- file classification -----

  /** The lower-case extensions of files that are read as text. */
  const TextExtensions: set<string> := {
    ".txt", ".yml", ".yaml", ".json", ".properties", ".conf", ".cfg",
    ".sh", ".bat", ".cmd", ".ps1", ".xml", ".html", ".css", ".js",
    ".py", ".java", ".cpp", ".c", ".h", ".md", ".ini", ".toml"
  }

  /** The index of the last `.` in `s`. */
  function LastDot(s: string): (r: Option<nat>)
    ensures r.Some? ==> r.value < |s| && s[r.value] == '.' && '.' !in s[r.value + 1..]
    ensures r.None? ==> '.' !in s
  {
    if s == [] then None
    else if s[|s| - 1] == '.' then Some(|s| - 1)
    else
      var r := LastDot(s[..|s| - 1]);
      assert s == s[..|s| - 1] + [s[|s| - 1]];
      if r.Some? then assert s[r.value + 1..] == s[..|s| - 1][r.value + 1..] + [s[|s| - 1]]; r
      else r
  }

  predicate AllDots(s: string) {
    forall i :: 0 <= i < |s| ==> s[i] == '.'
  }

  /** `os.path.splitext(name)[1]`: from the last dot on, unless only dots precede it. */
  function Ext(name: Name): (e: string)
    ensures e == "" || (e[0] == '.' && '.' !in e[1..] && EndsWith(name, e))
  {
    match LastDot(name)
    case None => ""
    case Some(k) => if AllDots(name[..k]) then "" else name[k..]
  }

  /** The file is opened as text when its lower-cased extension is a text extension. */
  predicate IsTextPath(p: Path)
    requires |p| > 0
  {
    Lower(Ext(Last(p))) in TextExtensions
  }

  // ----- the placeholder pattern `\{\{\s*(\w+)\s*\}\}` -----

  /** `\w` on ASCII text. */
  predicate IsWordChar(c: char) {
    ('a' <= c <= 'z') || ('A' <= c <= 'Z') || ('0' <= c <= '9') || c == '_'
  }

  /** The number of leading characters of `s` that satisfy `IsSpace` (`\s*`). */
  function SpaceRun(s: string): (n: nat)
    ensures n <= |s|
  {
    if s != [] && IsSpace(s[0]) then 1 + SpaceRun(s[1..]) else 0
  }

  /** The run is the longest prefix of spaces. */
  lemma {:induction false} SpaceRunSpec(s: string)
    ensures forall i :: 0 <= i < SpaceRun(s) ==> IsSpace(s[i])
    ensures SpaceRun(s) < |s| ==> !IsSpace(s[SpaceRun(s)])
  {
    if s != [] && IsSpace(s[0]) {
      SpaceRunSpec(s[1..]);
    }
  }

  /** The number of leading word characters of `s` (`\w*`, greedy). */
  function WordRun(s: string): (n: nat)
    ensures n <= |s|
  {
    if s != [] && IsWordChar(s[0]) then 1 + WordRun(s[1..]) else 0
  }

  /** The run is the longest prefix of word characters. */
  lemma {:induction false} WordRunSpec(s: string)
    ensures forall i :: 0 <= i < WordRun(s) ==> IsWordChar(s[i])
    ensures WordRun(s) < |s| ==> !IsWordChar(s[WordRun(s)])
  {
    if s != [] && IsWordChar(s[0]) {
      WordRunSpec(s[1..]);
    }
  }

  /** A match of the pattern: the captured identifier and the length of the matched text. */
  datatype Match = Match(name: string, len: nat)

  /** The pattern anchored at the start of `s`.  Since `\s`, `\w` and `}` are disjoint,
      the greedy reading is the only one, so the match is unique. */
  function MatchPrefix(s: string): (r: Option<Match>)
    ensures r.Some? ==> 5 <= r.value.len <= |s| && |r.value.name| > 0
  {
    if |s| < 2 || s[..2] != "{{" then None
    else
      var a := 2 + SpaceRun(s[2..]);
      var b := a + WordRun(s[a..]);
      var c := b + SpaceRun(s[b..]);
      if a < b && c + 2 <= |s| && s[c..c + 2] == "}}" then Some(Match(s[a..b], c + 2)) else None
  }

  /** `placeholder_pattern.search(s)`: the position of the leftmost match. */
  function Search(s: string): (r: Option<nat>)
    ensures r.Some? ==> r.value <= |s|
  {
    if MatchPrefix(s).Some? then Some(0)
    else if s == [] then None
    else
      var r := Search(s[1..]);
      if r.Some? then Some(r.value + 1) else None
  }

  /** `search` finds the leftmost position where the pattern matches, or says there is none. */
  lemma {:induction false} SearchSpec(s: string)
    ensures Search(s).Some? ==> MatchPrefix(s[Search(s).value..]).Some?
    ensures Search(s).Some? ==> forall j :: 0 <= j < Search(s).value ==> MatchPrefix(s[j..]).None?
    ensures Search(s).None? ==> forall j :: 0 <= j <= |s| ==> MatchPrefix(s[j..]).None?
    decreases |s|
  {
    if MatchPrefix(s).None? && s != [] {
      SearchSpec(s[1..]);
      forall j | 1 <= j <= |s| ensures MatchPrefix(s[j..]) == MatchPrefix(s[1..][j - 1..]) {
        assert s[j..] == s[1..][j - 1..];
      }
    }
  }

  /** `placeholder_pattern.findall(s)`: the identifiers of the non-overlapping matches,
      left to right. */
  function FindAll(s: string): (r: seq<string>)
    ensures forall i :: 0 <= i < |r| ==> |r[i]| > 0
    decreases |s|
  {
    if s == [] then []
    else match MatchPrefix(s)
      case Some(m) => [m.name] + FindAll(s[m.len..])
      case None => FindAll(s[1..])
  }

  /** A text has a placeholder exactly when `findall` finds one. */
  lemma {:induction false} FindAllEmptyIffNoMatch(s: string)
    ensures FindAll(s) == [] <==> Search(s).None?
    decreases |s|
  {
    if s != [] && MatchPrefix(s).None? {
      FindAllEmptyIffNoMatch(s[1..]);
    }
  }

  // ----- rendering -----

  /** Jinja reads these as literals or operators, not as variable names. */
  const JinjaKeywords: set<string> := {
    "and", "or", "not", "in", "is", "if", "else",
    "true", "false", "none", "True", "False", "None"
  }

  /** An identifier Jinja looks up in the variables. */
  predicate IsVariableName(n: string) {
    |n| > 0 && !IsDigit(n[0]) && n !in JinjaKeywords
  }

  /** What `{{ n }}` prints: the variable's `str`, and nothing for an undefined name. */
  function Lookup(vars: Variables, n: string): Option<string> {
    if n in vars then Str(vars[n]) else Some("")
  }

  /** Rendering `s`: text is kept, a bare `{{ n }}` prints its variable, and any other tag
      opener (`{{` not of the bare form, `{%`, `{#`) is outside the model and fails. */
  function RenderText(s: string, vars: Variables): Option<string>
    decreases |s|
  {
    if s == [] then Some("")
    else if StartsWith(s, "{%") || StartsWith(s, "{#") then None
    else if StartsWith(s, "{{") then
      match MatchPrefix(s)
      case None => None
      case Some(m) =>
        if !IsVariableName(m.name) then None
        else
          var v :- Lookup(vars, m.name);
          var rest :- RenderText(s[m.len..], vars);
          Some(v + rest)
    else
      var rest :- RenderText(s[1..], vars);
      Some([s[0]] + rest)
  }

  /** `Environment().from_string(s).render(vars)`: one trailing newline of the template
      source is dropped first. */
  function Render(s: string, vars: Variables): Option<string> {
    RenderText(if EndsWith(s, "\n") then s[..|s| - 1] else s, vars)
  }

  /** A template as the meaning of its text: literal runs and variable references. */
  datatype Piece = Lit(text: string) | Var(name: string)

  predicate ProperPiece(p: Piece) {
    match p
    case Lit(t) => '{' !in t
    case Var(n) => IsVariableName(n) && forall i :: 0 <= i < |n| ==> IsWordChar(n[i])
  }

  /** The template text that writes the pieces, each reference as `{{ n }}`. */
  function Print(ps: seq<Piece>): string {
    if ps == [] then ""
    else
      (match ps[0]
       case Lit(t) => t
       case Var(n) => "{{ " + n + " }}")
      + Print(ps[1..])
  }

  /** The intended output: every reference replaced by the text of its variable. */
  function Interpolate(ps: seq<Piece>, vars: Variables): Option<string> {
    if ps == [] then Some("")
    else
      var head :- match ps[0]
        case Lit(t) => Some(t)
        case Var(n) => Lookup(vars, n);
      var rest :- Interpolate(ps[1..], vars);
      Some(head + rest)
  }

  lemma {:induction false} RenderLiteral(t: string, r: string, vars: Variables)
    requires '{' !in t
    ensures RenderText(t + r, vars).Some? <==> RenderText(r, vars).Some?
    ensures RenderText(r, vars).Some? ==> RenderText(t + r, vars).value == t + RenderText(r, vars).value
    decreases |t|
  {
    if t != [] {
      var s := t + r;
      assert s[0] == t[0];
      assert s[1..] == t[1..] + r;
      RenderLiteral(t[1..], r, vars);
      assert t == [t[0]] + t[1..];
    } else {
      assert t + r == r;
    }
  }

  lemma MatchOfReference(n: string, r: string)
    requires |n| > 0 && forall i :: 0 <= i < |n| ==> IsWordChar(n[i])
    ensures MatchPrefix("{{ " + n + " }}" + r) == Some(Match(n, |n| + 6))
  {
    var s := "{{ " + n + " }}" + r;
    assert s[..2] == "{{";
    assert s[2..][0] == ' ' && !IsSpace(s[3..][0]);
    assert SpaceRun(s[2..]) == 1 by {
      assert s[2..][1..] == s[3..];
    }
    assert s[3..3 + |n|] == n;
    WordRunPrefix(n, s[3..]);
    assert s[3 + |n|..][0] == ' ' && !IsSpace(s[4 + |n|..][0]);
    assert SpaceRun(s[3 + |n|..]) == 1 by {
      assert s[3 + |n|..][1..] == s[4 + |n|..];
    }
    assert s[4 + |n|..6 + |n|] == "}}";
    assert s[3..3 + |n|] == n;
  }

  lemma {:induction false} WordRunPrefix(n: string, s: string)
    requires |n| <= |s| && s[..|n|] == n
    requires forall i :: 0 <= i < |n| ==> IsWordChar(n[i])
    requires |n| < |s| && !IsWordChar(s[|n|])
    ensures WordRun(s) == |n|
    decreases |n|
  {
    if |n| > 0 {
      WordRunPrefix(n[1..], s[1..]);
    }
  }

  lemma RenderReference(n: string, r: string, vars: Variables)
    requires ProperPiece(Var(n))
    ensures RenderText("{{ " + n + " }}" + r, vars) ==
      if Lookup(vars, n).Some? && RenderText(r, vars).Some?
      then Some(Lookup(vars, n).value + RenderText(r, vars).value) else None
  {
    var s := "{{ " + n + " }}" + r;
    assert s[..2] == "{{" && s[1] == '{';
    MatchOfReference(n, r);
    assert s[|n| + 6..] == r;
  }

  /** Rendering the text of proper pieces performs exactly the interpolation. */
  lemma {:induction false} RenderPrint(ps: seq<Piece>, vars: Variables)
    requires forall i :: 0 <= i < |ps| ==> ProperPiece(ps[i])
    ensures RenderText(Print(ps), vars) == Interpolate(ps, vars)
  {
    if ps != [] {
      RenderPrint(ps[1..], vars);
      var rest := Print(ps[1..]);
      match ps[0]
      case Lit(t) =>
        assert Print(ps) == t + rest;
        RenderLiteral(t, rest, vars);
      case Var(n) =>
        assert ProperPiece(Var(n));
        assert Print(ps) == "{{ " + n + " }}" + rest;
        RenderReference(n, rest, vars);
    }
  }

  /** An expression that continues past its first name with anything other than `}`,
      such as `{{ a.b }}` or `{{ x | upper }}`, is not a placeholder. */
  lemma ExpressionIsNotPlaceholder(n: string, sp: string, c: char, r: string)
    requires |n| > 0 && forall i :: 0 <= i < |n| ==> IsWordChar(n[i])
    requires forall i :: 0 <= i < |sp| ==> IsSpace(sp[i])
    requires !IsWordChar(c) && !IsSpace(c) && c != '}'
    ensures MatchPrefix("{{ " + n + sp + [c] + r).None?
  {
    var s := "{{ " + n + sp + [c] + r;
    assert s[..2] == "{{";
    assert s[2..] == " " + n + sp + [c] + r;
    SpaceRunPrefix(" ", s[2..]);
    assert s[3..][..|n|] == n;
    WordRunPrefix(n, s[3..]);
    assert s[3 + |n|..][..|sp|] == sp;
    SpaceRunPrefix(sp, s[3 + |n|..]);
    assert s[3 + |n| + |sp|] == c;
  }

  lemma {:induction false} SpaceRunPrefix(sp: string, s: string)
    requires |sp| < |s| && s[..|sp|] == sp
    requires forall i :: 0 <= i < |sp| ==> IsSpace(sp[i])
    requires !IsSpace(s[|sp|])
    ensures SpaceRun(s) == |sp|
    decreases |sp|
  {
    if |sp| > 0 {
      SpaceRunPrefix(sp[1..], s[1..]);
    }
  }

  // ----- process_file -----

  /** What `process_file` leaves at a destination it can write: a byte copy for a non-text
      file, an undecodable file or a failed rendering; the rendering, when the text has a
      placeholder; the text itself otherwise. */
  function ProcessedContent(f: File, src: Path, vars: Variables): File
    requires |src| > 0
  {
    if !IsTextPath(src) then f
    else match f
      case Doc(_) => f
      case Blob(b) =>
        match Decode(b)
        case None => f
        case Some(text) =>
          if Search(text).Some? then
            match Render(text, vars)
            case None => f
            case Some(out) => Blob(Encode(out))
          else Blob(Encode(text))
  }

  /** Write the text; should that raise, fall back to the byte copy. */
  function WriteOrCopy(d: Disk, src: Path, dest: Path, text: string): Result<Disk>
    requires |src| > 0
  {
    match WriteFile(d, dest, Blob(Encode(text)))
    case Ok(d') => Ok(d')
    case Err(_) => CopyFile(d, src, dest)
  }

  /** `VariableSubstitution.process_file(src, dest, vars)`. */
  function ProcessFile(d: Disk, src: Path, dest: Path, vars: Variables): Result<Disk>
    requires |src| > 0
  {
    if !IsTextPath(src) then CopyFile(d, src, dest)
    else match ReadFile(d, src)
      case Err(_) => CopyFile(d, src, dest)
      case Ok(Doc(_)) => CopyFile(d, src, dest)
      case Ok(Blob(b)) =>
        match Decode(b)
        case None => CopyFile(d, src, dest)
        case Some(text) =>
          if Search(text).Some? then
            match Render(text, vars)
            case None => CopyFile(d, src, dest)
            case Some(out) => WriteOrCopy(d, src, dest, out)
          else WriteOrCopy(d, src, dest, text)
  }

  /** For a destination that is not a directory, `process_file` fails exactly when the
      source cannot be read or the destination cannot be written, and otherwise changes
      only the destination, to the processed content. */
  lemma ProcessFileSpec(d: Disk, src: Path, dest: Path, vars: Variables)
    requires |src| > 0 && dest !in d.dirs && dest != src
    ensures ProcessFile(d, src, dest, vars).Ok? <==> ReadFile(d, src).Ok? && CanWrite(d, dest)
    ensures ProcessFile(d, src, dest, vars).Ok? ==>
      ProcessFile(d, src, dest, vars).value == d.(files := d.files[dest := ProcessedContent(d.files[src], src, vars)])
  {
    CopySpec(d, src, dest);
    if IsTextPath(src) && ReadFile(d, src).Ok? {
      match d.files[src]
      case Doc(_) =>
      case Blob(b) =>
        match Decode(b)
        case None =>
        case Some(text) =>
          if Search(text).None? {
            EncodeDecode(b);
            WriteOrCopySpec(d, src, dest, text);
          } else if Render(text, vars).Some? {
            WriteOrCopySpec(d, src, dest, Render(text, vars).value);
          }
    }
  }

  lemma CopySpec(d: Disk, src: Path, dest: Path)
    requires |src| > 0 && dest !in d.dirs && dest != src
    ensures CopyFile(d, src, dest).Ok? <==> ReadFile(d, src).Ok? && CanWrite(d, dest)
    ensures CopyFile(d, src, dest).Ok? ==> CopyFile(d, src, dest).value == d.(files := d.files[dest := d.files[src]])
  {
    assert CopyTarget(d, src, dest) == dest;
  }

  lemma WriteOrCopySpec(d: Disk, src: Path, dest: Path, text: string)
    requires |src| > 0 && dest !in d.dirs && dest != src && ReadFile(d, src).Ok?
    ensures WriteOrCopy(d, src, dest, text).Ok? <==> CanWrite(d, dest)
    ensures WriteOrCopy(d, src, dest, text).Ok? ==> WriteOrCopy(d, src, dest, text).value == d.(files := d.files[dest := Blob(Encode(text))])
  {
    CopySpec(d, src, dest);
  }

  /** A file whose extension is not a text extension is copied byte for byte. */
  lemma NonTextIsCopied(d: Disk, src: Path, dest: Path, vars: Variables)
    requires |src| > 0 && !IsTextPath(src)
    ensures ProcessFile(d, src, dest, vars) == CopyFile(d, src, dest)
  {
  }

  /** A text without a placeholder is written back exactly: the same bytes. */
  lemma NoPlaceholderKeepsBytes(b: seq<Byte>, src: Path, vars: Variables)
    requires |src| > 0
    requires Decode(b).Some? && Search(Decode(b).value).None?
    ensures ProcessedContent(Blob(b), src, vars) == Blob(b)
  {
    EncodeDecode(b);
  }

  /** Only the processed content of a rendered text differs from its source. */
  lemma ProcessedContentCases(f: File, src: Path, vars: Variables)
    requires |src| > 0
    ensures ProcessedContent(f, src, vars) == f || (
      && IsTextPath(src) && f.Blob? && Decode(f.data).Some?
      && Search(Decode(f.data).value).Some?
      && Render(Decode(f.data).value, vars).Some?
      && ProcessedContent(f, src, vars) == Blob(Encode(Render(Decode(f.data).value, vars).value)))
  {
    if IsTextPath(src) && f.Blob? && Decode(f.data).Some? && Search(Decode(f.data).value).None? {
      EncodeDecode(f.data);
    }
  }

  // ----- placeholder discovery -----

  /** `find_placeholders_in_file(p)`: each identifier once, in order of first appearance;
      nothing when the file cannot be read or decoded. */
  function PlaceholdersInFile(d: Disk, p: Path): (r: seq<string>)
    ensures forall i, j :: 0 <= i < j < |r| ==> r[i] != r[j]
  {
    match ReadFile(d, p)
    case Ok(Blob(b)) =>
      (match Decode(b)
       case Some(text) => DedupNames(FindAll(text))
       case None => [])
    case _ => []
  }

  function DedupNames(s: seq<string>): (r: seq<string>)
    ensures forall i, j :: 0 <= i < j < |r| ==> r[i] != r[j]
    ensures forall x :: x in r <==> x in s
  {
    DedupByIsFirsts(x => x, s);
    forall x | x in s ensures x in DedupBy(x => x, s) {
      DedupByCovers(x => x, s, x);
    }
    DedupBy(x => x, s)
  }

  /** `find_all_placeholders(dir)` over the given file list: an entry per file with at least
      one placeholder, keyed by its path relative to `dir`. */
  function PlaceholderMap(d: Disk, dir: Path, paths: seq<Path>): map<Path, seq<string>> {
    if paths == [] then map[]
    else
      var n := |paths| - 1;
      var m := PlaceholderMap(d, dir, paths[..n]);
      var found := PlaceholdersInFile(d, dir + paths[n]);
      if found != [] then m[paths[n] := found] else m
  }

  /** The map holds exactly the listed files that have a placeholder, each with its names. */
  lemma {:induction false} PlaceholderMapSpec(d: Disk, dir: Path, paths: seq<Path>)
    ensures forall k :: k in PlaceholderMap(d, dir, paths) ==>
      PlaceholderMap(d, dir, paths)[k] == PlaceholdersInFile(d, dir + k) && PlaceholdersInFile(d, dir + k) != []
    ensures forall k :: k in paths ==> (k in PlaceholderMap(d, dir, paths) <==> PlaceholdersInFile(d, dir + k) != [])
    ensures forall k :: k in PlaceholderMap(d, dir, paths) ==> k in paths
  {
    if paths != [] {
      var n := |paths| - 1;
      PlaceholderMapSpec(d, dir, paths[..n]);
      assert paths == paths[..n] + [paths[n]];
    }
  }

  lemma PlaceholderMapSnoc(d: Disk, dir: Path, paths: seq<Path>, p: Path)
    ensures PlaceholderMap(d, dir, paths + [p]) ==
      var m := PlaceholderMap(d, dir, paths);
      if PlaceholdersInFile(d, dir + p) != [] then m[p := PlaceholdersInFile(d, dir + p)] else m
  {
    assert (paths + [p])[..|paths|] == paths;
  }

  /** `find_all_placeholders(dir)` */
  method FindAllPlaceholders(d: Disk, env: Env, dir: Path) returns (placeholders: map<Path, seq<string>>)
    ensures placeholders == PlaceholderMap(d, dir, WalkFiles(Walk(env, dir)))
  {
    var steps := Walk(env, dir);
    placeholders := map[];
    var i := 0;
    while i < |steps|
      invariant 0 <= i <= |steps|
      invariant placeholders == PlaceholderMap(d, dir, WalkFiles(steps[..i]))
    {
      placeholders := ScanDirectory(d, dir, placeholders, WalkFiles(steps[..i]), steps[i]);
      WalkFilesSnoc(steps, i);
      i := i + 1;
    }
    assert steps[..i] == steps;
  }

  /** The inner loop of `find_all_placeholders`, over the files of one walked directory. */
  method ScanDirectory(d: Disk, dir: Path, m: map<Path, seq<string>>, ghost before: seq<Path>, step: WalkStep)
    returns (placeholders: map<Path, seq<string>>)
    requires m == PlaceholderMap(d, dir, before)
    ensures placeholders == PlaceholderMap(d, dir, before + RelPaths(step.rel, step.files))
  {
    placeholders := m;
    var j := 0;
    assert before + RelPaths(step.rel, step.files[..j]) == before;
    while j < |step.files|
      invariant 0 <= j <= |step.files|
      invariant placeholders == PlaceholderMap(d, dir, before + RelPaths(step.rel, step.files[..j]))
    {
      var relative := step.rel + [step.files[j]];
      var found := PlaceholdersInFile(d, dir + relative);
      RelPathsPrefix(before, step.rel, step.files, j);
      PlaceholderMapSnoc(d, dir, before + RelPaths(step.rel, step.files[..j]), relative);
      if found != [] {
        placeholders := placeholders[relative := found];
      }
      j := j + 1;
    }
    assert step.files[..j] == step.files;
  }

  /** Every name some entry of `m` holds. */
  function AllNames(m: map<Path, seq<string>>): set<string> {
    set k, x | k in m && x in m[k] :: x
  }

  predicate StrictlySorted(r: seq<string>) {
    forall i, j :: 0 <= i < j < |r| ==> StrLess(r[i], r[j])
  }

  /** Inserting into a sorted list of distinct names. */
  function InsertSorted(r: seq<string>, x: string): (q: seq<string>)
    requires StrictlySorted(r)
    ensures StrictlySorted(q)
    ensures forall y :: y in q <==> y in r || y == x
  {
    if r == [] then [x]
    else if x == r[0] then r
    else if StrLess(x, r[0]) then
      assert StrictlySorted([x] + r) by {
        forall j | 0 < j < |[x] + r| ensures StrLess(([x] + r)[0], ([x] + r)[j]) {
          if j > 1 {
            StrLessTransitive(x, r[0], r[j - 1]);
          }
        }
      }
      [x] + r
    else
      var t := InsertSorted(r[1..], x);
      StrLessTotal(x, r[0]);
      assert StrictlySorted([r[0]] + t) by {
        forall j | 0 < j < |[r[0]] + t| ensures StrLess(r[0], ([r[0]] + t)[j]) {
          assert ([r[0]] + t)[j] == t[j - 1];
          assert t[j - 1] in t;
          if t[j - 1] != x {
            var k :| 0 <= k < |r[1..]| && r[1..][k] == t[j - 1];
            assert r[k + 1] == t[j - 1];
          }
        }
      }
      [r[0]] + t
  }

  /** One more file's names joins the union. */
  lemma AllNamesStep(byFile: map<Path, seq<string>>, keys: set<Path>, k: Path)
    requires k in keys
    ensures AllNames(map q | q in byFile && q !in keys - {k} :: byFile[q])
      == AllNames(map q | q in byFile && q !in keys :: byFile[q]) + (if k in byFile then set x | x in byFile[k] else {})
  {
    var seen := map q | q in byFile && q !in keys :: byFile[q];
    var seen' := map q | q in byFile && q !in keys - {k} :: byFile[q];
    forall x ensures x in AllNames(seen') <==> x in AllNames(seen) || (k in byFile && x in byFile[k]) {
      if k in byFile && x in byFile[k] {
        assert k in seen' && x in seen'[k];
      }
      if x in AllNames(seen) {
        var q :| q in seen && x in seen[q];
        assert q in seen' && x in seen'[q];
      }
      if x in AllNames(seen') {
        var q :| q in seen' && x in seen'[q];
        if q != k {
          assert q in seen && x in seen[q];
        }
      }
    }
  }

  /** `get_all_unique_placeholders(dir)`: the union of the per-file names, sorted. */
  method AllUniquePlaceholders(d: Disk, env: Env, dir: Path) returns (r: seq<string>)
    ensures StrictlySorted(r)
    ensures forall x :: x in r <==> x in AllNames(PlaceholderMap(d, dir, WalkFiles(Walk(env, dir))))
  {
    var byFile := FindAllPlaceholders(d, env, dir);
    var all: set<string> := {};
    var keys := byFile.Keys;
    while keys != {}
      invariant keys <= byFile.Keys
      invariant all == AllNames(map k | k in byFile && k !in keys :: byFile[k])
      decreases |keys|
    {
      var k :| k in keys;
      AllNamesStep(byFile, keys, k);
      all := all + set x | x in byFile[k];
      keys := keys - {k};
    }
    assert (map k | k in byFile && k !in keys :: byFile[k]) == byFile;
    r := [];
    var rest := all;
    while rest != {}
      invariant rest <= all
      invariant StrictlySorted(r)
      invariant forall x :: x in r <==> x in all && x !in rest
      decreases |rest|
    {
      var x :| x in rest;
      r := InsertSorted(r, x);
      rest := rest - {x};
    }
  }
}

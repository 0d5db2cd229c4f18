/** The file system the code reads and writes, as a value.  A path is the sequence of its
    components, relative to the working directory (the empty path).  A file holds either
    bytes or a JSON document that `json.dump` wrote; the JSON text is not modelled.
    `locked` holds the paths whose access the operating system denies. */
module FileSystem {
  import opened Wrappers
  import opened Strings
  import opened Values

  type Byte = b: int | 0 <= b < 256
  type Name = string
  type Path = seq<Name>

  datatype File = Blob(data: seq<Byte>) | Doc(doc: Value)

  datatype Disk = Disk(files: map<Path, File>, dirs: set<Path>, locked: set<Path>)

  /** One directory `os.walk` visits: its path relative to the walked root and its file names. */
  datatype WalkStep = WalkStep(rel: Path, files: seq<Name>)

  /** What the operating system decides and the model does not compute:
      the order `os.listdir` lists a directory in, the directories `os.walk` visits (in
      order) below a root, and the result of YAML-parsing a file (absent: a YAML error). */
  datatype Env = Env(listing: map<Path, seq<Name>>, walks: map<Path, seq<WalkStep>>, yaml: map<Path, Value>)

  function Parent(p: Path): Path
    requires |p| > 0
  {
    p[..|p| - 1]
  }

  function Last(p: Path): Name
    requires |p| > 0
  {
    p[|p| - 1]
  }

  /** Directories contain what is below them, and no path is both a file and a directory. */
  predicate DiskWF(d: Disk) {
    && [] in d.dirs
    && (forall p :: p in d.files ==> |p| > 0 && Parent(p) in d.dirs)
    && (forall p :: p in d.dirs && |p| > 0 ==> Parent(p) in d.dirs)
    && (forall p :: p in d.files ==> p !in d.dirs)
  }

  /** `os.path.exists(p)` */
  predicate Exists(d: Disk, p: Path) {
    p in d.files || p in d.dirs
  }

  /** `"/".join(p)`, the text of a path. */
  function PathText(p: Path): string {
    Join("/", p)
  }

  /** The components of a path text. */
  function ParsePath(s: string): (p: Path)
    ensures |p| > 0
  {
    Split(s, '/')
  }

  predicate ProperComponents(p: Path) {
    |p| > 0 && forall i :: 0 <= i < |p| ==> '/' !in p[i]
  }

  lemma ParsePathText(p: Path)
    requires ProperComponents(p)
    ensures ParsePath(PathText(p)) == p
  {
    SplitJoinInverse(p, '/');
  }

  /** `open(p).read()`, in binary or text mode. */
  function ReadFile(d: Disk, p: Path): (r: Result<File>)
    ensures r.Ok? <==> p in d.files && p !in d.dirs && p !in d.locked
    ensures r.Ok? ==> r.value == d.files[p]
  {
    if p in d.locked then Err(PermissionDenied(PathText(p)))
    else if p in d.dirs then Err(IsADirectory(PathText(p)))
    else if p !in d.files then Err(FileNotFound(PathText(p)))
    else Ok(d.files[p])
  }

  /** `open(p, 'w')` can create or truncate `p`. */
  predicate CanWrite(d: Disk, p: Path) {
    |p| > 0 && Parent(p) in d.dirs && p !in d.dirs && p !in d.locked
  }

  /** Writing `f` to `p`: afterwards `p` holds `f` and nothing else has changed. */
  function WriteFile(d: Disk, p: Path, f: File): (r: Result<Disk>)
    ensures r.Ok? <==> CanWrite(d, p)
    ensures r.Ok? ==> r.value == d.(files := d.files[p := f])
  {
    if p in d.dirs then Err(IsADirectory(PathText(p)))
    else if p in d.locked then Err(PermissionDenied(PathText(p)))
    else if |p| == 0 || Parent(p) !in d.dirs then Err(FileNotFound(PathText(p)))
    else Ok(d.(files := d.files[p := f]))
  }

  /** Where `shutil.copy2(src, dest)` writes: into `dest` when it is a directory. */
  function CopyTarget(d: Disk, src: Path, dest: Path): Path
    requires |src| > 0
  {
    if dest in d.dirs then dest + [Last(src)] else dest
  }

  /** `shutil.copy2(src, dest)`: the bytes (and the modelled metadata) of `src` become the
      content of the copy target. */
  function CopyFile(d: Disk, src: Path, dest: Path): (r: Result<Disk>)
    requires |src| > 0
    ensures r.Ok? <==> ReadFile(d, src).Ok? && CopyTarget(d, src, dest) != src && CanWrite(d, CopyTarget(d, src, dest))
    ensures r.Ok? ==> r.value == d.(files := d.files[CopyTarget(d, src, dest) := d.files[src]])
  {
    var t := CopyTarget(d, src, dest);
    var f :- ReadFile(d, src);
    if t == src then Err(SameFileError(PathText(src)))
    else WriteFile(d, t, f)
  }

  /** `os.makedirs(p, exist_ok=True)`: creates `p` and its missing ancestors, one at a time
      from the top; an ancestor that is a file stops it. */
  function MakeDirs(d: Disk, p: Path): (r: Result<Disk>)
    ensures r.Ok? ==> r.value.files == d.files && r.value.locked == d.locked
    ensures r.Ok? ==> d.dirs <= r.value.dirs && p in r.value.dirs
    ensures p in d.dirs ==> r == Ok(d)
    decreases |p|
  {
    if p in d.dirs then Ok(d)
    else if |p| == 0 then (if p in d.files then Err(FileExists("")) else Ok(d.(dirs := d.dirs + {p})))
    else
      var up :- if Exists(d, Parent(p)) then Ok(d) else MakeDirs(d, Parent(p));
      if p in up.files then Err(FileExists(PathText(p)))
      else if Parent(p) !in up.dirs then Err(NotADirectory(PathText(p)))
      else if p in up.locked then Err(PermissionDenied(PathText(p)))
      else Ok(up.(dirs := up.dirs + {p}))
  }

  /** The directories `makedirs` creates are `p` and ancestors of `p` that were not files,
      and a well-formed tree stays well formed. */
  lemma {:induction false} MakeDirsSpec(d: Disk, p: Path)
    ensures MakeDirs(d, p).Ok? ==> forall q :: q in MakeDirs(d, p).value.dirs && q !in d.dirs ==> q <= p && q !in d.files
    ensures MakeDirs(d, p).Ok? && DiskWF(d) ==> DiskWF(MakeDirs(d, p).value)
    decreases |p|
  {
    if p !in d.dirs && |p| > 0 && !Exists(d, Parent(p)) {
      MakeDirsSpec(d, Parent(p));
    }
  }

  /** `shutil.rmtree(p)`: every file and directory at or below `p` is gone. */
  function RemoveTree(d: Disk, p: Path): (r: Disk)
    ensures forall q :: q in r.files <==> q in d.files && !(p <= q)
    ensures forall q :: q in r.files ==> r.files[q] == d.files[q]
    ensures forall q :: q in r.dirs <==> q in d.dirs && !(p <= q)
    ensures r.locked == d.locked
  {
    var files := map q | q in d.files && !(p <= q) :: d.files[q];
    var dirs := set q | q in d.dirs && !(p <= q);
    Disk(files, dirs, d.locked)
  }

  /** `os.listdir(p)`, in the order the operating system lists it. */
  function ListDir(d: Disk, env: Env, p: Path): (r: Result<seq<Name>>)
    ensures r.Ok? <==> p in d.dirs && p !in d.files && p !in d.locked
  {
    if p in d.locked then Err(PermissionDenied(PathText(p)))
    else if p in d.files then Err(NotADirectory(PathText(p)))
    else if p !in d.dirs then Err(FileNotFound(PathText(p)))
    else Ok(if p in env.listing then env.listing[p] else [])
  }

  /** `os.walk(root)`: the directories visited, top down; nothing for a missing root. */
  function Walk(env: Env, root: Path): seq<WalkStep> {
    if root in env.walks then env.walks[root] else []
  }

  /** The relative paths `os.path.join(rel, name)` of the names. */
  function RelPaths(rel: Path, names: seq<Name>): (r: seq<Path>)
    ensures |r| == |names|
    ensures forall i :: 0 <= i < |r| ==> r[i] == rel + [names[i]]
  {
    seq(|names|, i requires 0 <= i < |names| => rel + [names[i]])
  }

  lemma RelPathsSnoc(rel: Path, names: seq<Name>, x: Name)
    ensures RelPaths(rel, names + [x]) == RelPaths(rel, names) + [rel + [x]]
  {
  }

  lemma RelPathsLast(rel: Path, names: seq<Name>)
    requires names != []
    ensures RelPaths(rel, names) == RelPaths(rel, names[..|names| - 1]) + [rel + [names[|names| - 1]]]
  {
    var n := |names| - 1;
    RelPathsSnoc(rel, names[..n], names[n]);
    assert names[..n] + [names[n]] == names;
  }

  /** The relative paths of one more name of a directory, after those of the others. */
  lemma RelPathsPrefix(before: seq<Path>, rel: Path, names: seq<Name>, j: nat)
    requires j < |names|
    ensures before + RelPaths(rel, names[..j + 1]) == before + RelPaths(rel, names[..j]) + [rel + [names[j]]]
  {
    assert names[..j + 1] == names[..j] + [names[j]];
    RelPathsSnoc(rel, names[..j], names[j]);
  }

  /** Every file of a walk, as a path relative to the walked root, in walk order. */
  function WalkFiles(steps: seq<WalkStep>): seq<Path> {
    if steps == [] then []
    else
      var n := |steps| - 1;
      WalkFiles(steps[..n]) + RelPaths(steps[n].rel, steps[n].files)
  }

  lemma WalkFilesSnoc(steps: seq<WalkStep>, i: nat)
    requires i < |steps|
    ensures WalkFiles(steps[..i + 1]) == WalkFiles(steps[..i]) + RelPaths(steps[i].rel, steps[i].files)
  {
    assert steps[..i + 1][..i] == steps[..i];
  }

  /** Decoding bytes as text; the model decodes ASCII and rejects every other byte. */
  function Decode(b: seq<Byte>): (r: Option<string>)
    ensures r.Some? ==> |r.value| == |b|
  {
    if forall i :: 0 <= i < |b| ==> b[i] < 128 then Some(seq(|b|, i requires 0 <= i < |b| => b[i] as char))
    else None
  }

  /** The UTF-8 bytes of one character. */
  function Utf8(c: char): (r: seq<Byte>)
    ensures c as int < 128 ==> r == [c as int]
  {
    var n := c as int;
    if n < 0x80 then [n]
    else if n < 0x800 then [0xC0 + n / 0x40, 0x80 + n % 0x40]
    else if n < 0x10000 then [0xE0 + n / 0x1000, 0x80 + (n / 0x40) % 0x40, 0x80 + n % 0x40]
    else [0xF0 + n / 0x40000, 0x80 + (n / 0x1000) % 0x40, 0x80 + (n / 0x40) % 0x40, 0x80 + n % 0x40]
  }

  /** Writing text in UTF-8. */
  function Encode(s: string): seq<Byte> {
    if s == [] then [] else Encode(s[..|s| - 1]) + Utf8(s[|s| - 1])
  }

  /** Text that was read from bytes writes back as exactly those bytes. */
  lemma {:induction false} EncodeDecode(b: seq<Byte>)
    requires Decode(b).Some?
    ensures Encode(Decode(b).value) == b
  {
    if b != [] {
      var n := |b| - 1;
      var t := Decode(b).value;
      assert Decode(b[..n]).Some?;
      assert Decode(b[..n]).value == t[..n];
      EncodeDecode(b[..n]);
      assert b == b[..n] + [b[n]];
    }
  }
}

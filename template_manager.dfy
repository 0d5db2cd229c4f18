/** The provisioning engine: template discovery and lookup, variable validation, creating an
    instance from a template and updating an instance from its template. */
module TemplateManager {
  import opened Wrappers
  import opened Strings
  import opened Sequences
  import opened Values
  import opened DateTimes
  import opened FileSystem
  import opened Substitution
  import opened TemplateModel
  import opened InstanceModel
  import opened Results
  import BackupManager

  /** The application settings the manager reads. */
  datatype Config = Config(autoBackup: bool, backupDir: string, maxBackups: int)

  // ----- comparing files -----

  /** `_check_equals(src, dest)`: the two hashes are equal, modelled as equal contents.
      Reading either file (the source first) may raise. */
  function CheckEquals(d: Disk, src: Path, dest: Path): (r: Result<bool>)
    ensures r.Ok? <==> ReadFile(d, src).Ok? && ReadFile(d, dest).Ok?
    ensures r.Ok? ==> (r.value <==> d.files[src] == d.files[dest])
  {
    var a :- ReadFile(d, src);
    var b :- ReadFile(d, dest);
    Ok(a == b)
  }

  // ----- discovery -----

  /** The state `discover_templates` leaves and the templates it returns. */
  datatype Discovery = Discovery(disk: Disk, templates: seq<Template>)

  /** The template one listed entry contributes: its successful load when it is a
      subdirectory; a failed load is reported and skipped. */
  function LoadedAt(d: Disk, env: Env, p: Path): (r: seq<Template>)
    ensures r == [] || (p in d.dirs && LoadTemplate(d, env, p).Ok? && r == [LoadTemplate(d, env, p).value])
    ensures p in d.dirs && LoadTemplate(d, env, p).Ok? ==> r == [LoadTemplate(d, env, p).value]
  {
    if p in d.dirs && LoadTemplate(d, env, p).Ok? then [LoadTemplate(d, env, p).value] else []
  }

  /** The template each listed entry of `root` contributes. */
  function TemplatesAt(d: Disk, env: Env, root: Path): Name -> seq<Template> {
    (n: Name) => LoadedAt(d, env, root + [n])
  }

  /** The templates of the listed entries, in listing order. */
  function LoadedTemplates(d: Disk, env: Env, root: Path, items: seq<Name>): seq<Template> {
    ConcatMap(TemplatesAt(d, env, root), items)
  }

  /** The spec of `discover_templates()`: a missing root is created and has no templates. */
  function DiscoverOf(d: Disk, env: Env, root: Path): Result<Discovery> {
    if !Exists(d, root) then
      var made :- MakeDirs(d, root);
      Ok(Discovery(made, []))
    else
      var items :- ListDir(d, env, root);
      Ok(Discovery(d, LoadedTemplates(d, env, root, items)))
  }

  /** `discover_templates()` */
  method DiscoverTemplates(d: Disk, env: Env, root: Path) returns (r: Result<Discovery>)
    ensures r == DiscoverOf(d, env, root)
  {
    if !Exists(d, root) {
      var made := MakeDirs(d, root);
      if made.Err? {
        return Err(made.error);
      }
      return Ok(Discovery(made.value, []));
    }
    var listing := ListDir(d, env, root);
    if listing.Err? {
      return Err(listing.error);
    }
    var items := listing.value;
    var templates: seq<Template> := [];
    var i := 0;
    while i < |items|
      invariant 0 <= i <= |items|
      invariant templates == LoadedTemplates(d, env, root, items[..i])
    {
      assert items[..i + 1][..i] == items[..i];
      var templatePath := root + [items[i]];
      if templatePath in d.dirs {
        var template := FromDirectory(d, env, templatePath);
        if template.Ok? {
          templates := templates + [template.value];
        }
      }
      assert templates == LoadedTemplates(d, env, root, items[..i]) + TemplatesAt(d, env, root)(items[i]);
      i := i + 1;
    }
    assert items[..i] == items;
    return Ok(Discovery(d, templates));
  }

  /** A missing root is created, and there are no templates yet. */
  lemma DiscoverMissingRoot(d: Disk, env: Env, root: Path)
    requires !Exists(d, root) && DiskWF(d) && MakeDirs(d, root).Ok?
    ensures DiscoverOf(d, env, root).Ok?
    ensures DiscoverOf(d, env, root).value.templates == []
    ensures root in DiscoverOf(d, env, root).value.disk.dirs
    ensures DiscoverOf(d, env, root).value.disk.files == d.files
  {
  }

  /** A listed subdirectory is loadable. */
  predicate Loadable(d: Disk, env: Env, p: Path) {
    p in d.dirs && LoadTemplate(d, env, p).Ok?
  }

  /** Every discovered template is the successful load of a listed subdirectory, and every
      listed subdirectory that loads is discovered. */
  lemma LoadedTemplatesSpec(d: Disk, env: Env, root: Path, items: seq<Name>)
    ensures forall t :: t in LoadedTemplates(d, env, root, items) ==>
      exists i :: 0 <= i < |items| && Loadable(d, env, root + [items[i]]) && LoadTemplate(d, env, root + [items[i]]).value == t
    ensures forall i :: 0 <= i < |items| && Loadable(d, env, root + [items[i]]) ==>
      LoadTemplate(d, env, root + [items[i]]).value in LoadedTemplates(d, env, root, items)
  {
    var at := TemplatesAt(d, env, root);
    ConcatMapSpec(at, items);
    forall t | t in LoadedTemplates(d, env, root, items)
      ensures exists i :: 0 <= i < |items| && Loadable(d, env, root + [items[i]]) && LoadTemplate(d, env, root + [items[i]]).value == t
    {
      var i :| 0 <= i < |items| && t in at(items[i]);
      assert at(items[i]) == LoadedAt(d, env, root + [items[i]]);
    }
    forall i | 0 <= i < |items| && Loadable(d, env, root + [items[i]])
      ensures LoadTemplate(d, env, root + [items[i]]).value in LoadedTemplates(d, env, root, items)
    {
      assert at(items[i]) == LoadedAt(d, env, root + [items[i]]);
    }
  }

  // ----- lookup by name -----

  /** The first template with exactly that name. */
  function FirstNamed(ts: seq<Template>, name: string): (r: Option<nat>)
    ensures r.Some? ==> r.value < |ts| && ts[r.value].name == name
    ensures r.Some? ==> forall j :: 0 <= j < r.value ==> ts[j].name != name
    ensures r.None? ==> forall j :: 0 <= j < |ts| ==> ts[j].name != name
  {
    if ts == [] then None
    else if ts[0].name == name then Some(0)
    else
      var r := FirstNamed(ts[1..], name);
      if r.None? then None else Some(r.value + 1)
  }

  /** What `get_template_by_name` leaves (discovery may create the root) and what it
      returns or raises. */
  datatype Lookup = Lookup(disk: Disk, found: Result<Template>)

  /** `get_template_by_name(name)`: the first discovered template of that exact name, or
      ValueError. */
  function GetTemplateByName(d: Disk, env: Env, root: Path, name: string): (r: Lookup)
    ensures r.found.Ok? ==> r.found.value.name == name
    ensures DiscoverOf(d, env, root).Err? ==> r == Lookup(d, Err(DiscoverOf(d, env, root).error))
    ensures DiscoverOf(d, env, root).Ok? ==> r.disk == DiscoverOf(d, env, root).value.disk
  {
    match DiscoverOf(d, env, root)
    case Err(e) => Lookup(d, Err(e))
    case Ok(found) =>
      var i := FirstNamed(found.templates, name);
      if i.None? then Lookup(found.disk, Err(ValueError("Template '" + name + "' not found")))
      else Lookup(found.disk, Ok(found.templates[i.value]))
  }

  /** The lookup fails with "Template '<name>' not found" exactly when discovery succeeds
      without a template of that name, and otherwise returns the first one. */
  lemma GetTemplateByNameSpec(d: Disk, env: Env, root: Path, name: string)
    requires DiscoverOf(d, env, root).Ok?
    ensures var ts := DiscoverOf(d, env, root).value.templates;
      (forall t :: t in ts ==> t.name != name) <==>
        GetTemplateByName(d, env, root, name).found == Err(ValueError("Template '" + name + "' not found"))
    ensures var ts := DiscoverOf(d, env, root).value.templates;
      GetTemplateByName(d, env, root, name).found.Ok? ==>
        exists i :: 0 <= i < |ts| && ts[i] == GetTemplateByName(d, env, root, name).found.value
          && forall j :: 0 <= j < i ==> ts[j].name != name
  {
    var ts := DiscoverOf(d, env, root).value.templates;
    var i := FirstNamed(ts, name);
    if i.Some? {
      assert ts[i.value] in ts;
    }
  }

  // ----- validation -----

  const PortMin: int := 1
  const PortMax: int := 65535

  /** The errors `validate_variables` reports for one declared variable. */
  function VariableErrors(v: TemplateVariable, vars: Variables): seq<string> {
    var missing := if Truthy(v.required) && v.name !in vars then ["Required variable '" + v.name + "' is missing"] else [];
    var typed :=
      if v.name !in vars then []
      else if v.varType == VStr("int") then
        (if ToInt(vars[v.name]).None? then ["Variable '" + v.name + "' must be an integer"] else [])
      else if v.varType == VStr("port") then
        (match ToInt(vars[v.name])
         case None => ["Variable '" + v.name + "' must be a valid port number"]
         case Some(p) => if !(PortMin <= p <= PortMax) then ["Variable '" + v.name + "' must be a valid port (1-65535)"] else [])
      else [];
    missing + typed
  }

  /** The errors for all declared variables, in declaration order. */
  function ValidationErrors(vs: seq<TemplateVariable>, vars: Variables): seq<string> {
    if vs == [] then [] else ValidationErrors(vs[..|vs| - 1], vars) + VariableErrors(vs[|vs| - 1], vars)
  }

  /** `validate_variables(template, variables)` */
  method ValidateVariables(t: Template, vars: Variables) returns (errors: seq<string>)
    ensures errors == ValidationErrors(t.variables, vars)
  {
    errors := [];
    var i := 0;
    while i < |t.variables|
      invariant 0 <= i <= |t.variables|
      invariant errors == ValidationErrors(t.variables[..i], vars)
    {
      var v := t.variables[i];
      assert t.variables[..i + 1][..i] == t.variables[..i];
      ghost var before := errors;
      if Truthy(v.required) && v.name !in vars {
        errors := errors + ["Required variable '" + v.name + "' is missing"];
      }
      if v.name in vars {
        var value := vars[v.name];
        if v.varType == VStr("int") {
          if ToInt(value).None? {
            errors := errors + ["Variable '" + v.name + "' must be an integer"];
          }
        } else if v.varType == VStr("port") {
          var port := ToInt(value);
          if port.None? {
            errors := errors + ["Variable '" + v.name + "' must be a valid port number"];
          } else if !(PortMin <= port.value <= PortMax) {
            errors := errors + ["Variable '" + v.name + "' must be a valid port (1-65535)"];
          }
        }
      }
      assert errors == before + VariableErrors(v, vars);
      i := i + 1;
    }
    assert t.variables[..i] == t.variables;
  }

  /** At most one error per declared variable. */
  lemma VariableErrorsAtMostOne(v: TemplateVariable, vars: Variables)
    ensures |VariableErrors(v, vars)| <= 1
  {
  }

  /** Every declared variable is checked, so the list has at most one entry per declaration. */
  lemma {:induction false} ValidationErrorsBound(vs: seq<TemplateVariable>, vars: Variables)
    ensures |ValidationErrors(vs, vars)| <= |vs|
  {
    if vs != [] {
      ValidationErrorsBound(vs[..|vs| - 1], vars);
      VariableErrorsAtMostOne(vs[|vs| - 1], vars);
    }
  }

  /** Validation never stops early: the errors of a list are those of its parts. */
  lemma {:induction false} ValidationErrorsAppend(a: seq<TemplateVariable>, b: seq<TemplateVariable>, vars: Variables)
    ensures ValidationErrors(a + b, vars) == ValidationErrors(a, vars) + ValidationErrors(b, vars)
    decreases |b|
  {
    if b == [] {
      assert a + b == a;
    } else {
      var n := |b| - 1;
      assert (a + b)[..|a + b| - 1] == a + b[..n];
      ValidationErrorsAppend(a, b[..n], vars);
    }
  }

  /** A required variable absent from the map gets exactly the "missing" error. */
  lemma RequiredMissing(v: TemplateVariable, vars: Variables)
    requires Truthy(v.required) && v.name !in vars
    ensures VariableErrors(v, vars) == ["Required variable '" + v.name + "' is missing"]
  {
  }

  /** An `int` variable is in error exactly when `int(value)` fails. */
  lemma IntCheck(v: TemplateVariable, vars: Variables)
    requires v.name in vars && v.varType == VStr("int")
    ensures VariableErrors(v, vars) != [] <==> ToInt(vars[v.name]).None?
    ensures VariableErrors(v, vars) != [] ==> VariableErrors(v, vars) == ["Variable '" + v.name + "' must be an integer"]
  {
  }

  /** A `port` variable is accepted exactly when it converts to an integer in 1..65535. */
  lemma PortCheck(v: TemplateVariable, vars: Variables)
    requires v.name in vars && v.varType == VStr("port")
    ensures VariableErrors(v, vars) == [] <==> ToInt(vars[v.name]).Some? && 1 <= ToInt(vars[v.name]).value <= 65535
    ensures ToInt(vars[v.name]).None? ==> VariableErrors(v, vars) == ["Variable '" + v.name + "' must be a valid port number"]
    ensures ToInt(vars[v.name]).Some? && !(1 <= ToInt(vars[v.name]).value <= 65535) ==>
      VariableErrors(v, vars) == ["Variable '" + v.name + "' must be a valid port (1-65535)"]
  {
  }

  /** Types other than `int` and `port` are never checked. */
  lemma OtherTypesUnchecked(v: TemplateVariable, vars: Variables)
    requires v.varType != VStr("int") && v.varType != VStr("port")
    requires v.name in vars || !Truthy(v.required)
    ensures VariableErrors(v, vars) == []
  {
  }

  /** Keys that no variable declares never change the errors. */
  lemma {:induction false} UndeclaredKeysIgnored(vs: seq<TemplateVariable>, vars: Variables, k: string, x: Value)
    requires forall i :: 0 <= i < |vs| ==> vs[i].name != k
    ensures ValidationErrors(vs, vars[k := x]) == ValidationErrors(vs, vars)
  {
    if vs != [] {
      var n := |vs| - 1;
      assert forall i :: 0 <= i < n ==> vs[..n][i] == vs[i];
      UndeclaredKeysIgnored(vs[..n], vars, k, x);
      var v := vs[n];
      assert (v.name in vars[k := x]) == (v.name in vars);
      assert VariableErrors(v, vars[k := x]) == VariableErrors(v, vars);
    }
  }

  // ----- frames -----

  /** Every ancestor of `p`, and `p` itself, is a directory. */
  predicate AncestorsAreDirs(d: Disk, p: Path) {
    forall k :: 0 <= k <= |p| ==> p[..k] in d.dirs
  }

  /** Outside the tree at `root` nothing changes from `d` to `r`: the same files with the same
      contents, the same directories (new ones lie inside the tree) and the same locks. */
  predicate SameOutside(d: Disk, r: Disk, root: Path) {
    && (forall q :: q in r.files && !(root <= q) ==> q in d.files)
    && (forall q :: q in d.files && !(root <= q) ==> q in r.files && r.files[q] == d.files[q])
    && d.dirs <= r.dirs
    && (forall q :: q in r.dirs && !(root <= q) ==> q in d.dirs)
    && r.locked == d.locked
  }

  lemma SameOutsideTrans(a: Disk, b: Disk, c: Disk, root: Path)
    requires SameOutside(a, b, root) && SameOutside(b, c, root)
    ensures SameOutside(a, c, root)
  {
  }

  /** A frame for a subtree is a frame for any tree containing it. */
  lemma SameOutsideWiden(d: Disk, r: Disk, inner: Path, root: Path)
    requires SameOutside(d, r, inner) && root <= inner
    ensures SameOutside(d, r, root)
  {
    forall q | q in r.files && inner <= q ensures root <= q {
      PrefixTrans(root, inner, q);
    }
    forall q | q in d.files && inner <= q ensures root <= q {
      PrefixTrans(root, inner, q);
    }
    forall q | q in r.dirs && inner <= q ensures root <= q {
      PrefixTrans(root, inner, q);
    }
  }

  lemma PrefixTrans(a: Path, b: Path, c: Path)
    requires a <= b && b <= c
    ensures a <= c
  {
    assert c[..|a|] == b[..|a|];
  }

  /** In a well-formed disk the ancestors of a directory are directories. */
  lemma {:induction false} AncestorIn(d: Disk, p: Path, k: nat)
    requires DiskWF(d) && p in d.dirs && k <= |p|
    ensures p[..k] in d.dirs
    decreases |p| - k
  {
    if k < |p| {
      assert Parent(p) in d.dirs;
      AncestorIn(d, Parent(p), k);
      assert Parent(p)[..k] == p[..k];
    } else {
      assert p[..k] == p;
    }
  }

  lemma AncestorsOfDir(d: Disk, p: Path)
    requires DiskWF(d) && p in d.dirs
    ensures AncestorsAreDirs(d, p)
  {
    forall k | 0 <= k <= |p| ensures p[..k] in d.dirs {
      AncestorIn(d, p, k);
    }
  }

  /** In a well-formed disk nothing lies below a path that does not exist. */
  lemma NothingBelowMissing(d: Disk, p: Path)
    requires DiskWF(d) && !Exists(d, p)
    ensures forall q :: q in d.files ==> !(p <= q)
    ensures forall q :: q in d.dirs ==> !(p <= q)
  {
    forall q | q in d.dirs ensures !(p <= q) {
      if |p| <= |q| {
        AncestorIn(d, q, |p|);
        assert q[..|p|] != p;
      }
    }
    forall q | q in d.files ensures !(p <= q) {
      if |p| <= |q| - 1 {
        AncestorIn(d, Parent(q), |p|);
        assert Parent(q)[..|p|] == q[..|p|];
        assert q[..|p|] != p;
      } else {
        assert q != p;
      }
    }
  }

  /** Creating the directories of a path inside the tree at `root` changes nothing outside. */
  lemma MakeDirsInside(d: Disk, root: Path, p: Path)
    requires AncestorsAreDirs(d, root) && root <= p && MakeDirs(d, p).Ok?
    ensures SameOutside(d, MakeDirs(d, p).value, root)
    ensures AncestorsAreDirs(MakeDirs(d, p).value, root)
  {
    var r := MakeDirs(d, p).value;
    forall q | q in r.dirs && q <= p ensures q in d.dirs || root <= q {
      if |q| < |root| {
        assert q == root[..|q|];
      } else {
        assert q[..|root|] == root;
      }
    }
  }

  /** A write at or below `dest` changes nothing outside the tree at `dest`. */
  lemma WriteInside(d: Disk, dest: Path, t: Path, f: File)
    requires dest <= t
    ensures SameOutside(d, d.(files := d.files[t := f]), dest)
  {
  }

  lemma CopyFileInside(d: Disk, src: Path, dest: Path)
    requires |src| > 0 && CopyFile(d, src, dest).Ok?
    ensures SameOutside(d, CopyFile(d, src, dest).value, dest)
    ensures CopyFile(d, src, dest).value.dirs == d.dirs
  {
    WriteInside(d, dest, CopyTarget(d, src, dest), d.files[src]);
  }

  lemma WriteOrCopyInside(d: Disk, src: Path, dest: Path, text: string)
    requires |src| > 0 && WriteOrCopy(d, src, dest, text).Ok?
    ensures SameOutside(d, WriteOrCopy(d, src, dest, text).value, dest)
    ensures WriteOrCopy(d, src, dest, text).value.dirs == d.dirs
  {
    if WriteFile(d, dest, Blob(Encode(text))).Ok? {
      WriteInside(d, dest, dest, Blob(Encode(text)));
    } else {
      CopyFileInside(d, src, dest);
    }
  }

  /** `process_file` writes the destination, or a file inside it when it is a directory, and
      nothing else. */
  lemma ProcessFileInside(d: Disk, src: Path, dest: Path, vars: Variables)
    requires |src| > 0 && ProcessFile(d, src, dest, vars).Ok?
    ensures SameOutside(d, ProcessFile(d, src, dest, vars).value, dest)
    ensures ProcessFile(d, src, dest, vars).value.dirs == d.dirs
  {
    if !IsTextPath(src) || !ReadFile(d, src).Ok? || d.files[src].Doc? {
      CopyFileInside(d, src, dest);
    } else {
      var b := d.files[src].data;
      match Decode(b)
      case None => CopyFileInside(d, src, dest);
      case Some(text) =>
        if Search(text).None? {
          WriteOrCopyInside(d, src, dest, text);
        } else if Render(text, vars).None? {
          CopyFileInside(d, src, dest);
        } else {
          WriteOrCopyInside(d, src, dest, Render(text, vars).value);
        }
    }
  }

  // ----- copying a template -----

  /** The state a copy or an update loop reached, and the exception that stopped it. */
  datatype Run = Run(disk: Disk, error: Option<Error>)

  /** One file of `_copy_template_files`: its directory is created, then it is processed. */
  function CopyOneOf(d: Disk, src: Path, dest: Path, vars: Variables): Result<Disk>
    requires |src| > 0 && |dest| > 0
  {
    var made :- MakeDirs(d, Parent(dest));
    ProcessFile(made, src, dest, vars)
  }

  /** One file: makedirs of its directory, then `process_file`. */
  method CopyOne(d: Disk, src: Path, dest: Path, vars: Variables) returns (r: Result<Disk>)
    requires |src| > 0 && |dest| > 0
    ensures r == CopyOneOf(d, src, dest, vars)
  {
    var made := MakeDirs(d, Parent(dest));
    if made.Err? {
      return Err(made.error);
    }
    r := ProcessFile(made.value, src, dest, vars);
  }

  /** The files of one walked directory, copied in order until one raises. */
  function CopyNamesOf(d: Disk, from: Path, inst: Path, vars: Variables, rel: Path, names: seq<Name>): Run {
    if names == [] then Run(d, None)
    else
      var n := |names| - 1;
      var r := CopyNamesOf(d, from, inst, vars, rel, names[..n]);
      if r.error.Some? then r
      else
        match CopyOneOf(r.disk, from + rel + [names[n]], inst + rel + [names[n]], vars)
        case Ok(d') => Run(d', None)
        case Err(e) => Run(r.disk, Some(e))
  }

  /** One walked directory: below the root its counterpart is created first. */
  function CopyStepOf(d: Disk, from: Path, inst: Path, vars: Variables, step: WalkStep): Run {
    match (if step.rel != [] then MakeDirs(d, inst + step.rel) else Ok(d))
    case Err(e) => Run(d, Some(e))
    case Ok(made) => CopyNamesOf(made, from, inst, vars, step.rel, ContentNames(step.files))
  }

  /** The spec of `_copy_template_files(template, inst, vars)` over the walk of the template. */
  function CopyTemplateFilesOf(d: Disk, from: Path, inst: Path, vars: Variables, steps: seq<WalkStep>): Run {
    if steps == [] then Run(d, None)
    else
      var n := |steps| - 1;
      var r := CopyTemplateFilesOf(d, from, inst, vars, steps[..n]);
      if r.error.Some? then r else CopyStepOf(r.disk, from, inst, vars, steps[n])
  }

  /** `_copy_template_files(template, inst, vars)` */
  method CopyTemplateFiles(d: Disk, env: Env, from: Path, inst: Path, vars: Variables) returns (run: Run)
    ensures run == CopyTemplateFilesOf(d, from, inst, vars, Walk(env, from))
  {
    var steps := Walk(env, from);
    run := Run(d, None);
    var i := 0;
    while i < |steps|
      invariant 0 <= i <= |steps|
      invariant run == CopyTemplateFilesOf(d, from, inst, vars, steps[..i])
      invariant run.error.None?
    {
      run := CopyDirectory(run.disk, from, inst, vars, steps[i]);
      CopyAdvance(d, from, inst, vars, steps, i, run);
      if run.error.Some? {
        return;
      }
      i := i + 1;
    }
    assert steps[..i] == steps;
  }

  /** The directory after a completed prefix of the walk extends it; when it raises, the
      copy ends there. */
  lemma CopyAdvance(d: Disk, from: Path, inst: Path, vars: Variables, steps: seq<WalkStep>, i: nat, next: Run)
    requires i < |steps| && CopyTemplateFilesOf(d, from, inst, vars, steps[..i]).error.None?
    requires next == CopyStepOf(CopyTemplateFilesOf(d, from, inst, vars, steps[..i]).disk, from, inst, vars, steps[i])
    ensures CopyTemplateFilesOf(d, from, inst, vars, steps[..i + 1]) == next
    ensures next.error.Some? ==> CopyTemplateFilesOf(d, from, inst, vars, steps) == next
  {
    assert steps[..i + 1][..i] == steps[..i];
    if next.error.Some? {
      CopyStops(d, from, inst, vars, steps, i + 1);
    }
  }

  /** Once an exception stopped the copy, the later directories change nothing. */
  lemma {:induction false} CopyStops(d: Disk, from: Path, inst: Path, vars: Variables, steps: seq<WalkStep>, k: nat)
    requires k <= |steps| && CopyTemplateFilesOf(d, from, inst, vars, steps[..k]).error.Some?
    ensures CopyTemplateFilesOf(d, from, inst, vars, steps) == CopyTemplateFilesOf(d, from, inst, vars, steps[..k])
    decreases |steps| - k
  {
    if k < |steps| {
      assert steps[..k + 1][..k] == steps[..k];
      CopyStops(d, from, inst, vars, steps, k + 1);
    } else {
      assert steps[..k] == steps;
    }
  }

  /** The files of one walked directory, in listing order. */
  method CopyDirectory(d: Disk, from: Path, inst: Path, vars: Variables, step: WalkStep) returns (run: Run)
    ensures run == CopyStepOf(d, from, inst, vars, step)
  {
    var disk := d;
    if step.rel != [] {
      var made := MakeDirs(d, inst + step.rel);
      if made.Err? {
        return Run(d, Some(made.error));
      }
      disk := made.value;
    }
    var files := step.files;
    if DescriptorYml in files {
      files := RemoveFirst(files, DescriptorYml);
    }
    if DescriptorYaml in files {
      files := RemoveFirst(files, DescriptorYaml);
    }
    assert files == ContentNames(step.files);
    run := CopyNames(disk, from, inst, vars, step.rel, files);
  }

  /** The loop over the file names of one walked directory. */
  method CopyNames(d: Disk, from: Path, inst: Path, vars: Variables, rel: Path, names: seq<Name>) returns (run: Run)
    ensures run == CopyNamesOf(d, from, inst, vars, rel, names)
  {
    var disk := d;
    var j := 0;
    while j < |names|
      invariant 0 <= j <= |names|
      invariant CopyNamesOf(d, from, inst, vars, rel, names[..j]) == Run(disk, None)
    {
      var src, dest := from + rel + [names[j]], inst + rel + [names[j]];
      var written := CopyOne(disk, src, dest, vars);
      CopyNamesAdvance(d, from, inst, vars, rel, names, j, disk, written);
      if written.Err? {
        run := Run(disk, Some(written.error));
        return;
      }
      disk := written.value;
      j := j + 1;
    }
    assert names[..j] == names;
    run := Run(disk, None);
  }

  /** The next file after a completed prefix of the names extends it; when it raises, the
      loop ends there. */
  lemma CopyNamesAdvance(d: Disk, from: Path, inst: Path, vars: Variables, rel: Path, names: seq<Name>, j: nat,
                         disk: Disk, written: Result<Disk>)
    requires j < |names| && CopyNamesOf(d, from, inst, vars, rel, names[..j]) == Run(disk, None)
    requires written == CopyOneOf(disk, from + rel + [names[j]], inst + rel + [names[j]], vars)
    ensures written.Ok? ==> CopyNamesOf(d, from, inst, vars, rel, names[..j + 1]) == Run(written.value, None)
    ensures written.Err? ==> CopyNamesOf(d, from, inst, vars, rel, names) == Run(disk, Some(written.error))
  {
    CopyNamesSnoc(d, from, inst, vars, rel, names, j);
    if written.Err? {
      CopyNamesStop(d, from, inst, vars, rel, names, j + 1);
    }
  }

  lemma CopyNamesSnoc(d: Disk, from: Path, inst: Path, vars: Variables, rel: Path, names: seq<Name>, j: nat)
    requires j < |names|
    ensures var r := CopyNamesOf(d, from, inst, vars, rel, names[..j]);
      CopyNamesOf(d, from, inst, vars, rel, names[..j + 1]) ==
        if r.error.Some? then r
        else match CopyOneOf(r.disk, from + rel + [names[j]], inst + rel + [names[j]], vars)
          case Ok(d') => Run(d', None)
          case Err(e) => Run(r.disk, Some(e))
  {
    assert names[..j + 1][..j] == names[..j];
  }

  lemma {:induction false} CopyNamesStop(d: Disk, from: Path, inst: Path, vars: Variables, rel: Path, names: seq<Name>, k: nat)
    requires k <= |names| && CopyNamesOf(d, from, inst, vars, rel, names[..k]).error.Some?
    ensures CopyNamesOf(d, from, inst, vars, rel, names) == CopyNamesOf(d, from, inst, vars, rel, names[..k])
    decreases |names| - k
  {
    if k < |names| {
      assert names[..k + 1][..k] == names[..k];
      CopyNamesStop(d, from, inst, vars, rel, names, k + 1);
    } else {
      assert names[..k] == names;
    }
  }

  /** Copying one file changes nothing outside the instance tree. */
  lemma CopyOneInside(d: Disk, src: Path, inst: Path, rel: Path, name: Name, vars: Variables)
    requires |src| > 0 && AncestorsAreDirs(d, inst)
    requires CopyOneOf(d, src, inst + rel + [name], vars).Ok?
    ensures SameOutside(d, CopyOneOf(d, src, inst + rel + [name], vars).value, inst)
    ensures AncestorsAreDirs(CopyOneOf(d, src, inst + rel + [name], vars).value, inst)
  {
    var dest := inst + rel + [name];
    assert Parent(dest) == inst + rel;
    MakeDirsInside(d, inst, Parent(dest));
    var made := MakeDirs(d, Parent(dest)).value;
    ProcessFileInside(made, src, dest, vars);
    SameOutsideWiden(made, CopyOneOf(d, src, dest, vars).value, dest, inst);
    SameOutsideTrans(d, made, CopyOneOf(d, src, dest, vars).value, inst);
  }

  lemma {:induction false} CopyNamesInside(d: Disk, from: Path, inst: Path, vars: Variables, rel: Path, names: seq<Name>)
    requires AncestorsAreDirs(d, inst)
    ensures SameOutside(d, CopyNamesOf(d, from, inst, vars, rel, names).disk, inst)
    ensures AncestorsAreDirs(CopyNamesOf(d, from, inst, vars, rel, names).disk, inst)
  {
    if names != [] {
      var n := |names| - 1;
      CopyNamesInside(d, from, inst, vars, rel, names[..n]);
      var r := CopyNamesOf(d, from, inst, vars, rel, names[..n]);
      if r.error.None? && CopyOneOf(r.disk, from + rel + [names[n]], inst + rel + [names[n]], vars).Ok? {
        CopyOneInside(r.disk, from + rel + [names[n]], inst, rel, names[n], vars);
        SameOutsideTrans(d, r.disk, CopyNamesOf(d, from, inst, vars, rel, names).disk, inst);
      }
    }
  }

  lemma CopyStepInside(d: Disk, from: Path, inst: Path, vars: Variables, step: WalkStep)
    requires AncestorsAreDirs(d, inst)
    ensures SameOutside(d, CopyStepOf(d, from, inst, vars, step).disk, inst)
    ensures AncestorsAreDirs(CopyStepOf(d, from, inst, vars, step).disk, inst)
  {
    var made := if step.rel != [] then MakeDirs(d, inst + step.rel) else Ok(d);
    if made.Ok? {
      if step.rel != [] {
        MakeDirsInside(d, inst, inst + step.rel);
      }
      CopyNamesInside(made.value, from, inst, vars, step.rel, ContentNames(step.files));
      SameOutsideTrans(d, made.value, CopyStepOf(d, from, inst, vars, step).disk, inst);
    }
  }

  /** Copying a template changes nothing outside the instance directory, whether it
      completes or stops at an exception. */
  lemma {:induction false} CopyInside(d: Disk, from: Path, inst: Path, vars: Variables, steps: seq<WalkStep>)
    requires AncestorsAreDirs(d, inst)
    ensures SameOutside(d, CopyTemplateFilesOf(d, from, inst, vars, steps).disk, inst)
    ensures AncestorsAreDirs(CopyTemplateFilesOf(d, from, inst, vars, steps).disk, inst)
  {
    if steps != [] {
      var n := |steps| - 1;
      CopyInside(d, from, inst, vars, steps[..n]);
      var r := CopyTemplateFilesOf(d, from, inst, vars, steps[..n]);
      if r.error.None? {
        CopyStepInside(r.disk, from, inst, vars, steps[n]);
        SameOutsideTrans(d, r.disk, CopyTemplateFilesOf(d, from, inst, vars, steps).disk, inst);
      }
    }
  }

  // ----- creating an instance -----

  /** What `create_instance` leaves, and the record it returns or the exception it raises. */
  datatype Creation = Creation(disk: Disk, result: Result<ServerInstance>)

  /** `os.path.join(output_dir, instance_name)` */
  function InstancePath(outputDir: Path, name: Name): (p: Path)
    ensures |p| > 0 && Parent(p) == outputDir && Last(p) == name
  {
    outputDir + [name]
  }

  /** The cleanup of a failed creation: the instance directory is removed if it exists. */
  function Discard(d: Disk, inst: Path): Disk {
    if Exists(d, inst) then RemoveTree(d, inst) else d
  }

  /** The spec of `create_instance(t, name, output_dir, vars)` at time `now`. */
  function CreateInstanceOf(d: Disk, env: Env, t: Template, name: Name, outputDir: Path, vars: Variables, now: DateTime): Creation {
    var inst := InstancePath(outputDir, name);
    if Exists(d, inst) then Creation(d, Err(ValueError("Instance directory already exists: " + PathText(inst))))
    else
      match MakeDirs(d, inst)
      case Err(e) => Creation(d, Err(e))
      case Ok(made) =>
        var run := CopyTemplateFilesOf(made, t.path, inst, vars, Walk(env, t.path));
        if run.error.Some? then Creation(Discard(run.disk, inst), Err(run.error.value))
        else
          var x := NewInstance(name, t.name, inst, vars, now);
          match SaveMetadata(run.disk, x)
          case Err(e) => Creation(Discard(run.disk, inst), Err(e))
          case Ok(saved) => Creation(saved, Ok(x))
  }

  /** `create_instance(t, name, output_dir, vars)` */
  method CreateInstance(d: Disk, env: Env, t: Template, name: Name, outputDir: Path, vars: Variables, now: DateTime)
    returns (c: Creation)
    ensures c == CreateInstanceOf(d, env, t, name, outputDir, vars, now)
  {
    var inst := InstancePath(outputDir, name);
    if Exists(d, inst) {
      return Creation(d, Err(ValueError("Instance directory already exists: " + PathText(inst))));
    }
    var made := MakeDirs(d, inst);
    if made.Err? {
      return Creation(d, Err(made.error));
    }
    var run := CopyTemplateFiles(made.value, env, t.path, inst, vars);
    if run.error.Some? {
      var disk := run.disk;
      if Exists(disk, inst) {
        disk := RemoveTree(disk, inst);
      }
      return Creation(disk, Err(run.error.value));
    }
    var x := NewInstance(name, t.name, inst, vars, now);
    var saved := SaveMetadata(run.disk, x);
    if saved.Err? {
      var disk := run.disk;
      if Exists(disk, inst) {
        disk := RemoveTree(disk, inst);
      }
      return Creation(disk, Err(saved.error));
    }
    return Creation(saved.value, Ok(x));
  }

  /** An existing instance path is refused before anything is written. */
  lemma CreateExisting(d: Disk, env: Env, t: Template, name: Name, outputDir: Path, vars: Variables, now: DateTime)
    requires Exists(d, InstancePath(outputDir, name))
    ensures CreateInstanceOf(d, env, t, name, outputDir, vars, now) ==
      Creation(d, Err(ValueError("Instance directory already exists: " + PathText(InstancePath(outputDir, name)))))
  {
  }

  /** All or nothing: a failed creation leaves every file as it was. Only the missing
      ancestors of the instance directory, which `makedirs` created before the copy began,
      remain as new directories. */
  lemma CreateFailureRestores(d: Disk, env: Env, t: Template, name: Name, outputDir: Path, vars: Variables, now: DateTime)
    requires DiskWF(d)
    requires CreateInstanceOf(d, env, t, name, outputDir, vars, now).result.Err?
    ensures var r := CreateInstanceOf(d, env, t, name, outputDir, vars, now).disk;
      && r.files == d.files
      && d.dirs <= r.dirs
      && (forall q :: q in r.dirs && q !in d.dirs ==> q < InstancePath(outputDir, name))
      && r.locked == d.locked
  {
    var inst := InstancePath(outputDir, name);
    if !Exists(d, inst) && MakeDirs(d, inst).Ok? {
      var made := MakeDirs(d, inst).value;
      var run := CopyTemplateFilesOf(made, t.path, inst, vars, Walk(env, t.path));
      FailedCreation(d, env, t, name, outputDir, vars, now);
      CopyInsideFresh(d, inst, t.path, vars, Walk(env, t.path));
      DiscardRestores(d, made, run.disk, inst);
    }
  }

  /** A creation that fails after `makedirs` discards what the copy left. */
  lemma FailedCreation(d: Disk, env: Env, t: Template, name: Name, outputDir: Path, vars: Variables, now: DateTime)
    requires CreateInstanceOf(d, env, t, name, outputDir, vars, now).result.Err?
    ensures var inst := InstancePath(outputDir, name);
      !Exists(d, inst) && MakeDirs(d, inst).Ok? ==>
        CreateInstanceOf(d, env, t, name, outputDir, vars, now).disk ==
          Discard(CopyTemplateFilesOf(MakeDirs(d, inst).value, t.path, inst, vars, Walk(env, t.path)).disk, inst)
  {
  }

  /** The copy into a freshly made instance directory stays inside it. */
  lemma CopyInsideFresh(d: Disk, inst: Path, from: Path, vars: Variables, steps: seq<WalkStep>)
    requires DiskWF(d) && MakeDirs(d, inst).Ok?
    ensures var made := MakeDirs(d, inst).value;
      var run := CopyTemplateFilesOf(made, from, inst, vars, steps);
      SameOutside(made, run.disk, inst) && AncestorsAreDirs(run.disk, inst)
  {
    MakeDirsSpec(d, inst);
    var made := MakeDirs(d, inst).value;
    AncestorsOfDir(made, inst);
    CopyInside(made, from, inst, vars, steps);
  }

  /** Removing a fresh instance directory after a partial copy gives back the files of the
      disk before the creation. */
  lemma DiscardRestores(d: Disk, made: Disk, partial: Disk, inst: Path)
    requires DiskWF(d) && !Exists(d, inst) && MakeDirs(d, inst) == Ok(made)
    requires SameOutside(made, partial, inst) && AncestorsAreDirs(partial, inst)
    ensures var r := Discard(partial, inst);
      && r.files == d.files
      && d.dirs <= r.dirs
      && (forall q :: q in r.dirs && q !in d.dirs ==> q < inst)
      && r.locked == d.locked
  {
    MakeDirsSpec(d, inst);
    NothingBelowMissing(d, inst);
    assert inst[..|inst|] == inst;
    var r := RemoveTree(partial, inst);
    assert Discard(partial, inst) == r;
    forall q | q in r.files ensures q in d.files && r.files[q] == d.files[q] {
      assert q in made.files;
    }
    forall q | q in d.files ensures q in r.files {
      assert !(inst <= q);
    }
    assert r.files == d.files;
    forall q | q in d.dirs ensures q in r.dirs {
      assert !(inst <= q);
    }
    forall q | q in r.dirs && q !in d.dirs ensures q < inst {
      assert q in made.dirs;
    }
  }

  /** A successful creation returns the record of the new instance (its template, the given
      variables, both timestamps `now`), saves it at the metadata path, and changes nothing
      outside the instance directory apart from creating its missing ancestors. */
  lemma CreateSuccess(d: Disk, env: Env, t: Template, name: Name, outputDir: Path, vars: Variables, now: DateTime)
    requires DiskWF(d)
    requires CreateInstanceOf(d, env, t, name, outputDir, vars, now).result.Ok?
    ensures var c := CreateInstanceOf(d, env, t, name, outputDir, vars, now);
      var inst := InstancePath(outputDir, name);
      && !Exists(d, inst)
      && c.result.value == NewInstance(name, t.name, inst, vars, now)
      && c.result.value.templateName == t.name && c.result.value.variables == vars
      && MetadataPath(inst) in c.disk.files
      && c.disk.files[MetadataPath(inst)] == Doc(VObj(ToDict(c.result.value)))
      && (forall q :: q in c.disk.files && !(inst <= q) ==> q in d.files)
      && (forall q :: q in d.files && !(inst <= q) ==> q in c.disk.files && c.disk.files[q] == d.files[q])
      && (forall q :: q in c.disk.dirs && q !in d.dirs ==> q <= inst || inst <= q)
  {
    var inst := InstancePath(outputDir, name);
    SucceededCreation(d, env, t, name, outputDir, vars, now);
    MakeDirsSpec(d, inst);
    var made := MakeDirs(d, inst).value;
    var steps := Walk(env, t.path);
    CopyInsideFresh(d, inst, t.path, vars, steps);
    var run := CopyTemplateFilesOf(made, t.path, inst, vars, steps);
    var x := NewInstance(name, t.name, inst, vars, now);
    WriteInside(run.disk, inst, MetadataPath(inst), Doc(VObj(ToDict(x))));
    SameOutsideTrans(made, run.disk, SaveMetadata(run.disk, x).value, inst);
  }

  /** A creation that succeeds made the directory, copied without an exception and saved
      the new record. */
  lemma SucceededCreation(d: Disk, env: Env, t: Template, name: Name, outputDir: Path, vars: Variables, now: DateTime)
    requires CreateInstanceOf(d, env, t, name, outputDir, vars, now).result.Ok?
    ensures var inst := InstancePath(outputDir, name);
      && !Exists(d, inst) && MakeDirs(d, inst).Ok?
      && var run := CopyTemplateFilesOf(MakeDirs(d, inst).value, t.path, inst, vars, Walk(env, t.path));
      && var x := NewInstance(name, t.name, inst, vars, now);
      && run.error.None? && SaveMetadata(run.disk, x).Ok?
      && CreateInstanceOf(d, env, t, name, outputDir, vars, now) == Creation(SaveMetadata(run.disk, x).value, Ok(x))
  {
  }

  // ----- updating an instance -----

  /** A row of the update report: the destination, its outcome, the template, and
      `variables_used`, which the code always leaves empty. */
  function Entry(dest: Path, status: string, reason: string, templateName: string): (e: FileResult)
    ensures e.path == PathText(dest) && e.variablesUsed == map[]
  {
    FileResult(PathText(dest), status, reason, templateName, map[])
  }

  /** The three outcomes of the decision table. */
  predicate KnownOutcome(e: FileResult) {
    || (e.status == "Unchanged" && e.reason == "same-hash")
    || (e.status == "Skipped" && e.reason == "dry-run")
    || (e.status == "Replaced" && e.reason == "success")
  }

  /** `e` is the report row of destination `dest`. */
  predicate ReportsOn(e: FileResult, dest: Path, templateName: string) {
    e.path == PathText(dest) && e.template == templateName && e.variablesUsed == map[] && KnownOutcome(e)
  }

  datatype Decided = Decided(disk: Disk, entry: FileResult)

  /** The decision for one template file: an existing destination whose hash equals the
      source's is left alone; otherwise a dry run only reports; otherwise the file is
      processed again. Hashing either file may raise, and so may processing. */
  function DecideFile(d: Disk, src: Path, dest: Path, dry: bool, vars: Variables, templateName: string): (r: Result<Decided>)
    requires |src| > 0
    ensures r.Ok? ==> ReportsOn(r.value.entry, dest, templateName)
  {
    var same :- if Exists(d, dest) then CheckEquals(d, src, dest) else Ok(false);
    if same then Ok(Decided(d, Entry(dest, "Unchanged", "same-hash", templateName)))
    else if dry then Ok(Decided(d, Entry(dest, "Skipped", "dry-run", templateName)))
    else
      var written :- ProcessFile(d, src, dest, vars);
      Ok(Decided(written, Entry(dest, "Replaced", "success", templateName)))
  }

  /** The decision table in terms of file contents. */
  lemma DecisionTable(d: Disk, src: Path, dest: Path, dry: bool, vars: Variables, templateName: string)
    requires |src| > 0
    ensures var r := DecideFile(d, src, dest, dry, vars, templateName);
      && (Exists(d, dest) && !(ReadFile(d, src).Ok? && ReadFile(d, dest).Ok?) ==> r.Err?)
      && (Exists(d, dest) && ReadFile(d, src).Ok? && ReadFile(d, dest).Ok? && d.files[src] == d.files[dest] ==>
            r == Ok(Decided(d, Entry(dest, "Unchanged", "same-hash", templateName))))
      && (Differs(d, src, dest) && dry ==>
            r == Ok(Decided(d, Entry(dest, "Skipped", "dry-run", templateName))))
      && (Differs(d, src, dest) && !dry ==>
            (r.Ok? <==> ReadFile(d, src).Ok? && CanWrite(d, dest))
            && (r.Ok? ==> (r.value.entry.status == "Replaced" && r.value.entry.reason == "success"
                           && r.value.disk == d.(files := d.files[dest := ProcessedContent(d.files[src], src, vars)]))))
  {
    if Differs(d, src, dest) && !dry {
      ProcessFileSpec(d, src, dest, vars);
    }
  }

  /** The destination is absent, or both files are readable and their contents differ. */
  predicate Differs(d: Disk, src: Path, dest: Path) {
    && dest != src
    && (!Exists(d, dest) || (ReadFile(d, src).Ok? && ReadFile(d, dest).Ok? && d.files[src] != d.files[dest]))
  }

  /** The hash compares the destination with the template source, not with its rendering:
      a destination holding the rendering of a source it differs from is processed and
      reported Replaced again on every run that is not dry, rewriting the same content. */
  lemma RenderedIsReplacedAgain(d: Disk, src: Path, dest: Path, vars: Variables, templateName: string)
    requires |src| > 0 && dest != src
    requires ReadFile(d, src).Ok? && ReadFile(d, dest).Ok? && CanWrite(d, dest)
    requires d.files[dest] == ProcessedContent(d.files[src], src, vars) != d.files[src]
    ensures DecideFile(d, src, dest, false, vars, templateName) == Ok(Decided(d, Entry(dest, "Replaced", "success", templateName)))
  {
    DecisionTable(d, src, dest, false, vars, templateName);
    assert d.(files := d.files[dest := d.files[dest]]) == d;
  }

  /** A decision writes at most the destination, and only when it is not a directory. */
  lemma DecisionWritesDest(d: Disk, src: Path, dest: Path, dry: bool, vars: Variables, templateName: string)
    requires |src| > 0 && DecideFile(d, src, dest, dry, vars, templateName).Ok?
    ensures var x := DecideFile(d, src, dest, dry, vars, templateName).value;
      x.disk == d || (!dry && dest !in d.dirs && x.disk == d.(files := d.files[dest := ProcessedContent(d.files[src], src, vars)]))
  {
    var x := DecideFile(d, src, dest, dry, vars, templateName).value;
    if x.disk != d {
      assert Differs(d, src, dest);
      DecisionTable(d, src, dest, dry, vars, templateName);
    }
  }

  /** Where an update loop has got to: the disk, the rows so far, the exception that stopped it. */
  datatype Pass = Pass(disk: Disk, results: seq<FileResult>, error: Option<Error>)

  /** The files of one walked directory, decided in order until one raises. */
  function UpdateNamesOf(start: Pass, from: Path, inst: Path, vars: Variables, dry: bool, templateName: string,
                         rel: Path, names: seq<Name>): Pass
  {
    if names == [] then start
    else
      var n := |names| - 1;
      var r := UpdateNamesOf(start, from, inst, vars, dry, templateName, rel, names[..n]);
      if r.error.Some? then r
      else
        match DecideFile(r.disk, from + rel + [names[n]], inst + rel + [names[n]], dry, vars, templateName)
        case Err(e) => r.(error := Some(e))
        case Ok(x) => Pass(x.disk, r.results + [x.entry], None)
  }

  /** One walked directory: below the root its counterpart is created first, even on a dry run. */
  function UpdateStepOf(start: Pass, from: Path, inst: Path, vars: Variables, dry: bool, templateName: string,
                        step: WalkStep): Pass
  {
    match (if step.rel != [] then MakeDirs(start.disk, inst + step.rel) else Ok(start.disk))
    case Err(e) => start.(error := Some(e))
    case Ok(made) => UpdateNamesOf(start.(disk := made), from, inst, vars, dry, templateName, step.rel, ContentNames(step.files))
  }

  /** The loop of `update_instance_from_template` over the walk of the template. */
  function UpdateFilesOf(start: Pass, from: Path, inst: Path, vars: Variables, dry: bool, templateName: string,
                         steps: seq<WalkStep>): Pass
  {
    if steps == [] then start
    else
      var n := |steps| - 1;
      var r := UpdateFilesOf(start, from, inst, vars, dry, templateName, steps[..n]);
      if r.error.Some? then r else UpdateStepOf(r, from, inst, vars, dry, templateName, steps[n])
  }

  /** The note of the automatic backup. */
  function AutoBackupNote(t: Template): string {
    "Auto backup before template update to " + t.name + " v" + t.version
  }

  /** What an update leaves: the disk, the backup directory, the record (whose `updated_at`
      is set before it is saved) and the report or the exception. */
  datatype UpdateOutcome = UpdateOutcome(disk: Disk, store: BackupManager.Store, instance: ServerInstance,
                                         result: Result<ProvisionResult>)

  /** The part of an update that does not involve backups. */
  datatype Applied = Applied(disk: Disk, instance: ServerInstance, result: Result<ProvisionResult>)

  /** The walk over the template, then the new `updated_at` and the saved record. */
  function ApplyTemplate(d: Disk, env: Env, t: Template, x: ServerInstance, dry: bool, now: DateTime): Applied {
    var pass := UpdateFilesOf(Pass(d, [], None), t.path, x.path, x.variables, dry, t.name, Walk(env, t.path));
    if pass.error.Some? then Applied(pass.disk, x, Err(pass.error.value))
    else
      var y := x.(updatedAt := now);
      match SaveMetadata(pass.disk, y)
      case Err(e) => Applied(pass.disk, y, Err(e))
      case Ok(saved) => Applied(saved, y, Ok(ProvisionResult(t, dry, pass.results)))
  }

  /** The backup directory after the optional automatic backup; a failed backup is only
      reported, leaving the directory as `create_backup` left it. */
  function BackupBefore(d: Disk, env: Env, store: BackupManager.Store, config: Config, x: ServerInstance, t: Template,
                        dry: bool, backupTime: DateTime, size: nat): BackupManager.Store
  {
    if config.autoBackup && !dry then
      BackupManager.CreateBackupOf(d, env, store, config.backupDir, config.maxBackups, x, AutoBackupNote(t), backupTime, size).store
    else store
  }

  /** The spec of `update_instance_from_template(x, dry)`: the backup is made at
      `backupTime` (its archive size is what the operating system reports), the record is
      stamped `now`. */
  function UpdateOf(d: Disk, env: Env, root: Path, store: BackupManager.Store, config: Config, x: ServerInstance,
                    dry: bool, backupTime: DateTime, size: nat, now: DateTime): UpdateOutcome
  {
    var look := GetTemplateByName(d, env, root, x.templateName);
    match look.found
    case Err(e) => UpdateOutcome(look.disk, store, x, Err(e))
    case Ok(t) =>
      var a := ApplyTemplate(look.disk, env, t, x, dry, now);
      UpdateOutcome(a.disk, BackupBefore(look.disk, env, store, config, x, t, dry, backupTime, size), a.instance, a.result)
  }

  /** `update_instance_from_template(x, dry)` */
  method UpdateInstanceFromTemplate(d: Disk, env: Env, root: Path, store: BackupManager.Store, config: Config,
                                    x: ServerInstance, dry: bool, backupTime: DateTime, size: nat, now: DateTime)
    returns (out: UpdateOutcome)
    ensures out == UpdateOf(d, env, root, store, config, x, dry, backupTime, size, now)
  {
    var look := GetTemplateByName(d, env, root, x.templateName);
    if look.found.Err? {
      return UpdateOutcome(look.disk, store, x, Err(look.found.error));
    }
    var t := look.found.value;
    var kept := store;
    if config.autoBackup && !dry {
      var backup := BackupManager.CreateBackup(look.disk, env, store, config.backupDir, config.maxBackups, x,
                                               AutoBackupNote(t), backupTime, size);
      kept := backup.store;
    }
    assert kept == BackupBefore(look.disk, env, store, config, x, t, dry, backupTime, size);
    var pass := UpdateFiles(Pass(look.disk, [], None), t.path, x.path, x.variables, dry, t.name, Walk(env, t.path));
    if pass.error.Some? {
      return UpdateOutcome(pass.disk, kept, x, Err(pass.error.value));
    }
    var y := x.(updatedAt := now);
    var saved := SaveMetadata(pass.disk, y);
    if saved.Err? {
      return UpdateOutcome(pass.disk, kept, y, Err(saved.error));
    }
    return UpdateOutcome(saved.value, kept, y, Ok(ProvisionResult(t, dry, pass.results)));
  }

  /** The loop over the walk of the template. */
  method UpdateFiles(start: Pass, from: Path, inst: Path, vars: Variables, dry: bool, templateName: string,
                     steps: seq<WalkStep>) returns (pass: Pass)
    requires start.error.None?
    ensures pass == UpdateFilesOf(start, from, inst, vars, dry, templateName, steps)
  {
    pass := start;
    var i := 0;
    while i < |steps|
      invariant 0 <= i <= |steps|
      invariant pass == UpdateFilesOf(start, from, inst, vars, dry, templateName, steps[..i])
      invariant pass.error.None?
    {
      pass := UpdateDirectory(pass, from, inst, vars, dry, templateName, steps[i]);
      UpdateAdvance(start, from, inst, vars, dry, templateName, steps, i, pass);
      if pass.error.Some? {
        return;
      }
      i := i + 1;
    }
    assert steps[..i] == steps;
  }

  /** The directory after a completed prefix of the walk extends it; when it raises, the
      update loop ends there. */
  lemma UpdateAdvance(start: Pass, from: Path, inst: Path, vars: Variables, dry: bool, templateName: string,
                      steps: seq<WalkStep>, i: nat, next: Pass)
    requires i < |steps| && UpdateFilesOf(start, from, inst, vars, dry, templateName, steps[..i]).error.None?
    requires next == UpdateStepOf(UpdateFilesOf(start, from, inst, vars, dry, templateName, steps[..i]),
                                  from, inst, vars, dry, templateName, steps[i])
    ensures UpdateFilesOf(start, from, inst, vars, dry, templateName, steps[..i + 1]) == next
    ensures next.error.Some? ==> UpdateFilesOf(start, from, inst, vars, dry, templateName, steps) == next
  {
    assert steps[..i + 1][..i] == steps[..i];
    if next.error.Some? {
      UpdateStops(start, from, inst, vars, dry, templateName, steps, i + 1);
    }
  }

  lemma {:induction false} UpdateStops(start: Pass, from: Path, inst: Path, vars: Variables, dry: bool, templateName: string,
                                       steps: seq<WalkStep>, k: nat)
    requires k <= |steps| && UpdateFilesOf(start, from, inst, vars, dry, templateName, steps[..k]).error.Some?
    ensures UpdateFilesOf(start, from, inst, vars, dry, templateName, steps) ==
            UpdateFilesOf(start, from, inst, vars, dry, templateName, steps[..k])
    decreases |steps| - k
  {
    if k < |steps| {
      assert steps[..k + 1][..k] == steps[..k];
      UpdateStops(start, from, inst, vars, dry, templateName, steps, k + 1);
    } else {
      assert steps[..k] == steps;
    }
  }

  /** One walked directory of the update. */
  method UpdateDirectory(start: Pass, from: Path, inst: Path, vars: Variables, dry: bool, templateName: string,
                         step: WalkStep) returns (pass: Pass)
    ensures pass == UpdateStepOf(start, from, inst, vars, dry, templateName, step)
  {
    var disk := start.disk;
    if step.rel != [] {
      var made := MakeDirs(disk, inst + step.rel);
      if made.Err? {
        return start.(error := Some(made.error));
      }
      disk := made.value;
    }
    var files := step.files;
    if DescriptorYml in files {
      files := RemoveFirst(files, DescriptorYml);
    }
    if DescriptorYaml in files {
      files := RemoveFirst(files, DescriptorYaml);
    }
    assert files == ContentNames(step.files);
    pass := UpdateNames(start.(disk := disk), from, inst, vars, dry, templateName, step.rel, files);
  }

  /** The loop over the file names of one walked directory. */
  method UpdateNames(start: Pass, from: Path, inst: Path, vars: Variables, dry: bool, templateName: string,
                     rel: Path, names: seq<Name>) returns (pass: Pass)
    ensures pass == UpdateNamesOf(start, from, inst, vars, dry, templateName, rel, names)
  {
    pass := start;
    var j := 0;
    while j < |names|
      invariant 0 <= j <= |names|
      invariant pass == UpdateNamesOf(start, from, inst, vars, dry, templateName, rel, names[..j])
    {
      assert names[..j + 1][..j] == names[..j];
      if pass.error.Some? {
        UpdateNamesStop(start, from, inst, vars, dry, templateName, rel, names, j);
        return;
      }
      var decided := DecideFile(pass.disk, from + rel + [names[j]], inst + rel + [names[j]], dry, vars, templateName);
      if decided.Err? {
        pass := pass.(error := Some(decided.error));
      } else {
        pass := Pass(decided.value.disk, pass.results + [decided.value.entry], None);
      }
      j := j + 1;
    }
    assert names[..j] == names;
  }

  lemma {:induction false} UpdateNamesStop(start: Pass, from: Path, inst: Path, vars: Variables, dry: bool, templateName: string,
                                           rel: Path, names: seq<Name>, k: nat)
    requires k <= |names| && UpdateNamesOf(start, from, inst, vars, dry, templateName, rel, names[..k]).error.Some?
    ensures UpdateNamesOf(start, from, inst, vars, dry, templateName, rel, names) ==
            UpdateNamesOf(start, from, inst, vars, dry, templateName, rel, names[..k])
    decreases |names| - k
  {
    if k < |names| {
      assert names[..k + 1][..k] == names[..k];
      UpdateNamesStop(start, from, inst, vars, dry, templateName, rel, names, k + 1);
    } else {
      assert names[..k] == names;
    }
  }

  // ----- what an update reports and touches -----

  /** `results` extends `before` by one row per file of `files`, in order. */
  predicate Rows(results: seq<FileResult>, before: seq<FileResult>, inst: Path, files: seq<Path>, templateName: string) {
    && |results| == |before| + |files|
    && results[..|before|] == before
    && forall i :: 0 <= i < |files| ==> ReportsOn(results[|before| + i], inst + files[i], templateName)
  }

  lemma RowsAppend(a: seq<FileResult>, b: seq<FileResult>, c: seq<FileResult>, inst: Path,
                   f: seq<Path>, g: seq<Path>, templateName: string)
    requires Rows(b, a, inst, f, templateName) && Rows(c, b, inst, g, templateName)
    ensures Rows(c, a, inst, f + g, templateName)
  {
    assert c[..|a|] == c[..|b|][..|a|];
    forall i | 0 <= i < |f + g| ensures ReportsOn(c[|a| + i], inst + (f + g)[i], templateName) {
      if i < |f| {
        assert c[|a| + i] == c[..|b|][|a| + i] == b[|a| + i];
      } else {
        assert (f + g)[i] == g[i - |f|];
        assert |a| + i == |b| + (i - |f|);
      }
    }
  }

  /** A file is one of the destinations `inst + p` of the relative paths `files`. */
  predicate IsTarget(q: Path, inst: Path, files: seq<Path>) {
    inst <= q && q[|inst|..] in files
  }

  /** From `d` to `r` no file is removed, and only destinations change. */
  predicate KeptExcept(d: Disk, r: Disk, inst: Path, files: seq<Path>) {
    && (forall q :: q in d.files ==> q in r.files)
    && (forall q :: q in r.files && !IsTarget(q, inst, files) ==> q in d.files && r.files[q] == d.files[q])
  }

  lemma KeptExceptGrow(a: Disk, b: Disk, c: Disk, inst: Path, f: seq<Path>, g: seq<Path>)
    requires KeptExcept(a, b, inst, f) && KeptExcept(b, c, inst, g)
    ensures KeptExcept(a, c, inst, f + g)
  {
    forall q | q in c.files && !IsTarget(q, inst, f + g) ensures q in a.files && c.files[q] == a.files[q] {
      assert !IsTarget(q, inst, f) && !IsTarget(q, inst, g);
    }
  }

  lemma {:induction false} UpdateNamesEffect(start: Pass, from: Path, inst: Path, vars: Variables, dry: bool,
                                             templateName: string, rel: Path, names: seq<Name>)
    ensures var r := UpdateNamesOf(start, from, inst, vars, dry, templateName, rel, names);
      && KeptExcept(start.disk, r.disk, inst, RelPaths(rel, names))
      && r.disk.dirs == start.disk.dirs
      && (dry ==> r.disk == start.disk)
      && (r.error.None? ==> Rows(r.results, start.results, inst, RelPaths(rel, names), templateName))
  {
    var r := UpdateNamesOf(start, from, inst, vars, dry, templateName, rel, names);
    if names == [] {
      assert r.results[..|start.results|] == r.results;
    } else {
      var n := |names| - 1;
      UpdateNamesEffect(start, from, inst, vars, dry, templateName, rel, names[..n]);
      var p := UpdateNamesOf(start, from, inst, vars, dry, templateName, rel, names[..n]);
      RelPathsLast(rel, names);
      NamesLastEffect(start, from, inst, vars, dry, templateName, rel, names);
      EffectsCompose(start, p, r, inst, RelPaths(rel, names[..n]), rel + [names[n]], dry, templateName);
    }
  }

  /** The effect of the last name on the pass the others left. */
  lemma NamesLastEffect(start: Pass, from: Path, inst: Path, vars: Variables, dry: bool,
                        templateName: string, rel: Path, names: seq<Name>)
    requires names != []
    ensures var n := |names| - 1;
      var p := UpdateNamesOf(start, from, inst, vars, dry, templateName, rel, names[..n]);
      var r := UpdateNamesOf(start, from, inst, vars, dry, templateName, rel, names);
      && (r.error.Some? ==> r.disk == p.disk)
      && (r.error.None? ==>
            && p.error.None?
            && KeptExcept(p.disk, r.disk, inst, [rel + [names[n]]])
            && r.disk.dirs == p.disk.dirs
            && (dry ==> r.disk == p.disk)
            && Rows(r.results, p.results, inst, [rel + [names[n]]], templateName))
  {
    var n := |names| - 1;
    var p := UpdateNamesOf(start, from, inst, vars, dry, templateName, rel, names[..n]);
    if p.error.None? {
      var src := from + rel + [names[n]];
      var dest := inst + rel + [names[n]];
      if DecideFile(p.disk, src, dest, dry, vars, templateName).Ok? {
        DecideEffect(p.disk, p.results, src, inst, rel, names[n], dry, vars, templateName);
      }
    }
  }

  /** The effects of a prefix of the names and of the next name add up. */
  lemma EffectsCompose(start: Pass, p: Pass, r: Pass, inst: Path, prev: seq<Path>, f: Path, dry: bool, templateName: string)
    requires KeptExcept(start.disk, p.disk, inst, prev) && p.disk.dirs == start.disk.dirs && (dry ==> p.disk == start.disk)
    requires p.error.None? ==> Rows(p.results, start.results, inst, prev, templateName)
    requires r.error.Some? ==> r.disk == p.disk
    requires r.error.None? ==>
      && p.error.None?
      && KeptExcept(p.disk, r.disk, inst, [f])
      && r.disk.dirs == p.disk.dirs
      && (dry ==> r.disk == p.disk)
      && Rows(r.results, p.results, inst, [f], templateName)
    ensures KeptExcept(start.disk, r.disk, inst, prev + [f]) && r.disk.dirs == start.disk.dirs && (dry ==> r.disk == start.disk)
    ensures r.error.None? ==> Rows(r.results, start.results, inst, prev + [f], templateName)
  {
    if r.error.Some? {
      forall q | q in r.disk.files && !IsTarget(q, inst, prev + [f]) ensures q in start.disk.files && r.disk.files[q] == start.disk.files[q] {
        assert !IsTarget(q, inst, prev);
      }
    } else {
      KeptExceptGrow(start.disk, p.disk, r.disk, inst, prev, [f]);
      RowsAppend(start.results, p.results, r.results, inst, prev, [f], templateName);
    }
  }

  /** The effect of one decided file. */
  lemma DecideEffect(d: Disk, results: seq<FileResult>, src: Path, inst: Path, rel: Path, name: Name,
                     dry: bool, vars: Variables, templateName: string)
    requires |src| > 0 && DecideFile(d, src, inst + rel + [name], dry, vars, templateName).Ok?
    ensures var x := DecideFile(d, src, inst + rel + [name], dry, vars, templateName).value;
      && KeptExcept(d, x.disk, inst, [rel + [name]])
      && x.disk.dirs == d.dirs
      && (dry ==> x.disk == d)
      && Rows(results + [x.entry], results, inst, [rel + [name]], templateName)
  {
    var dest := inst + rel + [name];
    var x := DecideFile(d, src, dest, dry, vars, templateName).value;
    assert dest[|inst|..] == rel + [name];
    DecisionWritesDest(d, src, dest, dry, vars, templateName);
    assert (results + [x.entry])[..|results|] == results;
    assert inst + [rel + [name]][0] == dest;
  }

  lemma UpdateStepEffect(start: Pass, from: Path, inst: Path, vars: Variables, dry: bool,
                         templateName: string, step: WalkStep)
    ensures var r := UpdateStepOf(start, from, inst, vars, dry, templateName, step);
      && KeptExcept(start.disk, r.disk, inst, RelPaths(step.rel, ContentNames(step.files)))
      && start.disk.dirs <= r.disk.dirs
      && (dry ==> r.disk.files == start.disk.files)
      && (r.error.None? ==> Rows(r.results, start.results, inst, RelPaths(step.rel, ContentNames(step.files)), templateName))
  {
    var made := if step.rel != [] then MakeDirs(start.disk, inst + step.rel) else Ok(start.disk);
    if made.Ok? {
      UpdateNamesEffect(start.(disk := made.value), from, inst, vars, dry, templateName, step.rel, ContentNames(step.files));
    } else {
      var r := UpdateStepOf(start, from, inst, vars, dry, templateName, step);
      assert r.disk == start.disk;
    }
  }

  /** The update loop removes no file and changes only the destinations of the template's
      content files; a dry run changes no file at all; a completed loop reports one row
      per content file, in walk order. */
  lemma {:induction false} UpdateFilesEffect(start: Pass, from: Path, inst: Path, vars: Variables, dry: bool,
                                             templateName: string, steps: seq<WalkStep>)
    ensures var r := UpdateFilesOf(start, from, inst, vars, dry, templateName, steps);
      && KeptExcept(start.disk, r.disk, inst, ContentFiles(steps))
      && start.disk.dirs <= r.disk.dirs
      && (dry ==> r.disk.files == start.disk.files)
      && (r.error.None? ==> Rows(r.results, start.results, inst, ContentFiles(steps), templateName))
  {
    var r := UpdateFilesOf(start, from, inst, vars, dry, templateName, steps);
    if steps == [] {
      assert r.results[..|start.results|] == r.results;
    } else {
      var n := |steps| - 1;
      UpdateFilesEffect(start, from, inst, vars, dry, templateName, steps[..n]);
      var p := UpdateFilesOf(start, from, inst, vars, dry, templateName, steps[..n]);
      assert ContentFiles(steps) == ContentFiles(steps[..n]) + RelPaths(steps[n].rel, ContentNames(steps[n].files));
      if p.error.None? {
        UpdateStepEffect(p, from, inst, vars, dry, templateName, steps[n]);
        KeptExceptGrow(start.disk, p.disk, r.disk, inst, ContentFiles(steps[..n]), RelPaths(steps[n].rel, ContentNames(steps[n].files)));
        if r.error.None? {
          RowsAppend(start.results, p.results, r.results, inst, ContentFiles(steps[..n]),
                     RelPaths(steps[n].rel, ContentNames(steps[n].files)), templateName);
        }
      } else {
        var empty: seq<Path> := [];
        assert ContentFiles(steps[..n]) + empty == ContentFiles(steps[..n]);
        assert KeptExcept(p.disk, r.disk, inst, RelPaths(steps[n].rel, ContentNames(steps[n].files)));
        KeptExceptGrow(start.disk, p.disk, r.disk, inst, ContentFiles(steps[..n]), RelPaths(steps[n].rel, ContentNames(steps[n].files)));
      }
    }
  }

  /** Looking a template up changes no file; a successful lookup changes nothing at all,
      since a missing root has no templates. */
  lemma LookupDisk(d: Disk, env: Env, root: Path, name: string)
    ensures GetTemplateByName(d, env, root, name).disk.files == d.files
    ensures GetTemplateByName(d, env, root, name).found.Ok? ==> GetTemplateByName(d, env, root, name).disk == d
  {
  }

  /** A backup is attempted only when automatic backups are on and the run is not dry;
      whatever it does, and whether it fails, the update itself is the same. */
  lemma UpdateBackupGate(d: Disk, env: Env, root: Path, store: BackupManager.Store, other: BackupManager.Store,
                         config: Config, x: ServerInstance, dry: bool, backupTime: DateTime, size: nat, now: DateTime)
    ensures !(config.autoBackup && !dry) ==> UpdateOf(d, env, root, store, config, x, dry, backupTime, size, now).store == store
    ensures var a := UpdateOf(d, env, root, store, config, x, dry, backupTime, size, now);
      var b := UpdateOf(d, env, root, other, config, x, dry, backupTime, size, now);
      a.disk == b.disk && a.instance == b.instance && a.result == b.result
  {
  }

  /** A completed update reports exactly one row per content file of the template, in walk
      order; it stamps the record with `now` and saves it; it removes no file and changes no
      file but the destinations of the content files and the metadata file. */
  lemma UpdateSuccess(d: Disk, env: Env, root: Path, store: BackupManager.Store, config: Config, x: ServerInstance,
                      dry: bool, backupTime: DateTime, size: nat, now: DateTime)
    requires UpdateOf(d, env, root, store, config, x, dry, backupTime, size, now).result.Ok?
    ensures var out := UpdateOf(d, env, root, store, config, x, dry, backupTime, size, now);
      var t := GetTemplateByName(d, env, root, x.templateName).found.value;
      var files := ContentFiles(Walk(env, t.path));
      && out.result.value == ProvisionResult(t, dry, out.result.value.processedFiles)
      && t.name == x.templateName
      && Rows(out.result.value.processedFiles, [], x.path, files, t.name)
      && out.instance == x.(updatedAt := now)
      && MetadataPath(x.path) in out.disk.files
      && out.disk.files[MetadataPath(x.path)] == Doc(VObj(ToDict(out.instance)))
      && KeptExcept(d, out.disk, x.path, files + [[MetadataName]])
      && (dry ==> out.disk.files == d.files[MetadataPath(x.path) := Doc(VObj(ToDict(out.instance)))])
  {
    LookupDisk(d, env, root, x.templateName);
    var t := GetTemplateByName(d, env, root, x.templateName).found.value;
    ApplySuccess(d, env, t, x, dry, now);
  }

  lemma ApplySuccess(d: Disk, env: Env, t: Template, x: ServerInstance, dry: bool, now: DateTime)
    requires ApplyTemplate(d, env, t, x, dry, now).result.Ok?
    ensures var a := ApplyTemplate(d, env, t, x, dry, now);
      var files := ContentFiles(Walk(env, t.path));
      && a.result.value == ProvisionResult(t, dry, a.result.value.processedFiles)
      && Rows(a.result.value.processedFiles, [], x.path, files, t.name)
      && a.instance == x.(updatedAt := now)
      && MetadataPath(x.path) in a.disk.files
      && a.disk.files[MetadataPath(x.path)] == Doc(VObj(ToDict(a.instance)))
      && KeptExcept(d, a.disk, x.path, files + [[MetadataName]])
      && (dry ==> a.disk.files == d.files[MetadataPath(x.path) := Doc(VObj(ToDict(a.instance)))])
  {
    var steps := Walk(env, t.path);
    UpdateFilesEffect(Pass(d, [], None), t.path, x.path, x.variables, dry, t.name, steps);
    var pass := UpdateFilesOf(Pass(d, [], None), t.path, x.path, x.variables, dry, t.name, steps);
    var y := x.(updatedAt := now);
    var saved := SaveMetadata(pass.disk, y).value;
    assert MetadataPath(x.path)[|x.path|..] == [MetadataName];
    assert KeptExcept(pass.disk, saved, x.path, [[MetadataName]]);
    KeptExceptGrow(d, pass.disk, saved, x.path, ContentFiles(steps), [[MetadataName]]);
  }

  /** Whatever happens, and with no rollback on failure, an update removes no file and
      changes no file other than the destinations of the template's content files and the
      metadata file. */
  lemma UpdateFrame(d: Disk, env: Env, root: Path, store: BackupManager.Store, config: Config, x: ServerInstance,
                    dry: bool, backupTime: DateTime, size: nat, now: DateTime)
    ensures var out := UpdateOf(d, env, root, store, config, x, dry, backupTime, size, now);
      var look := GetTemplateByName(d, env, root, x.templateName);
      && (look.found.Err? ==> out.disk.files == d.files)
      && (look.found.Ok? ==> KeptExcept(d, out.disk, x.path, ContentFiles(Walk(env, look.found.value.path)) + [[MetadataName]]))
  {
    LookupDisk(d, env, root, x.templateName);
    var look := GetTemplateByName(d, env, root, x.templateName);
    if look.found.Ok? {
      ApplyFrame(d, env, look.found.value, x, dry, now);
    }
  }

  lemma ApplyFrame(d: Disk, env: Env, t: Template, x: ServerInstance, dry: bool, now: DateTime)
    ensures KeptExcept(d, ApplyTemplate(d, env, t, x, dry, now).disk, x.path, ContentFiles(Walk(env, t.path)) + [[MetadataName]])
  {
    var steps := Walk(env, t.path);
    UpdateFilesEffect(Pass(d, [], None), t.path, x.path, x.variables, dry, t.name, steps);
    var pass := UpdateFilesOf(Pass(d, [], None), t.path, x.path, x.variables, dry, t.name, steps);
    assert MetadataPath(x.path)[|x.path|..] == [MetadataName];
    var a := ApplyTemplate(d, env, t, x, dry, now);
    assert KeptExcept(pass.disk, a.disk, x.path, [[MetadataName]]);
    KeptExceptGrow(d, pass.disk, a.disk, x.path, ContentFiles(steps), [[MetadataName]]);
  }
}

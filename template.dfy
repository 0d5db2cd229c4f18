/** A template: a directory of content files plus an optional descriptor (`template.yml`,
    or else `template.yaml`) declaring its name, description, version and variables. */
module TemplateModel {
  import opened Wrappers
  import opened Strings
  import opened Sequences
  import opened Values
  import opened FileSystem

  /** A declared variable.  Apart from the name, the declaration keeps the values the
      descriptor gave (or their defaults) whatever their type. */
  datatype TemplateVariable = TemplateVariable(
    name: string,
    varType: Value,
    description: Value,
    defaultValue: Value,
    required: Value,
    validationRule: Value)

  datatype Template = Template(
    name: string,
    path: Path,
    description: string,
    variables: seq<TemplateVariable>,
    version: string)

  const DescriptorYml: Name := "template.yml"
  const DescriptorYaml: Name := "template.yaml"
  const DefaultVersion: string := "1.0.0"

  /** `os.path.basename` */
  function Basename(p: Path): Name {
    if p == [] then "" else Last(p)
  }

  /** The descriptor read: `template.yml` when it exists, `template.yaml` otherwise. */
  function DescriptorPath(d: Disk, path: Path): (c: Path)
    ensures c == path + [DescriptorYml] || c == path + [DescriptorYaml]
    ensures Exists(d, path + [DescriptorYml]) ==> c == path + [DescriptorYml]
  {
    if Exists(d, path + [DescriptorYml]) then path + [DescriptorYml] else path + [DescriptorYaml]
  }

  /** The configuration used when a template has no descriptor. */
  function DefaultConfig(base: Name): Value {
    VObj(map["name" := VStr(base), "description" := VStr("Template for " + base), "variables" := VList([])])
  }

  /** The parsed descriptor, or the default configuration when there is none. */
  function LoadConfig(d: Disk, env: Env, path: Path): Result<Value> {
    var c := DescriptorPath(d, path);
    if Exists(d, c) then
      var _ :- ReadFile(d, c);
      if c in env.yaml then Ok(env.yaml[c]) else Err(YamlError(PathText(c)))
    else Ok(DefaultConfig(Basename(path)))
  }

  /** `config.get(key, default)` where a string is expected. */
  function StringField(config: map<string, Value>, key: string, default: string): (r: Result<string>)
    ensures key !in config ==> r == Ok(default)
  {
    var v := Get(config, key, VStr(default));
    if v.VStr? then Ok(v.s) else Err(TypeError)
  }

  /** The entries `for var_config in config.get('variables', [])` visits; iterating a dict or
      a string visits keys or characters, which then fail as declarations. */
  function DeclaredItems(v: Value): Result<seq<Value>> {
    match v
    case VList(items) => Ok(items)
    case VObj(m) => if m == map[] then Ok([]) else Err(TypeError)
    case VStr(s) => if s == "" then Ok([]) else Err(TypeError)
    case _ => Err(TypeError)
  }

  /** One declaration: `name` is mandatory, everything else has a default. */
  function VariableOf(item: Value): (r: Result<TemplateVariable>)
    ensures item.VObj? && "name" !in item.fields ==> r == Err(KeyError("name"))
    ensures r.Ok? ==> item.VObj? && item.fields["name"] == VStr(r.value.name)
  {
    match item
    case VObj(m) =>
      if "name" !in m then Err(KeyError("name"))
      else if !m["name"].VStr? then Err(TypeError)
      else Ok(TemplateVariable(
        m["name"].s,
        Get(m, "type", VStr("string")),
        Get(m, "description", VStr("")),
        Get(m, "default", VNull),
        Get(m, "required", VBool(true)),
        Get(m, "validation", VNull)))
    case _ => Err(TypeError)
  }

  /** The declarations appended one by one; the first failing one stops the load. */
  function ParseVariables(items: seq<Value>): Result<seq<TemplateVariable>> {
    if items == [] then Ok([])
    else
      var init :- ParseVariables(items[..|items| - 1]);
      var v :- VariableOf(items[|items| - 1]);
      Ok(init + [v])
  }

  /** `Template.from_directory(path)` */
  function LoadTemplate(d: Disk, env: Env, path: Path): Result<Template> {
    if !Exists(d, path) then Err(ValueError("Template directory not found: " + PathText(path)))
    else
      var config :- LoadConfig(d, env, path);
      if !config.VObj? then Err(AttributeError)
      else
        var m := config.fields;
        var name :- StringField(m, "name", Basename(path));
        var description :- StringField(m, "description", "");
        var version :- StringField(m, "version", DefaultVersion);
        var items :- DeclaredItems(Get(m, "variables", VList([])));
        var vars :- ParseVariables(items);
        Ok(Template(name, path, description, vars, version))
  }

  /** `Template.from_directory(path)`: builds the template, then appends its variables. */
  method FromDirectory(d: Disk, env: Env, path: Path) returns (r: Result<Template>)
    ensures r == LoadTemplate(d, env, path)
  {
    if !Exists(d, path) {
      return Err(ValueError("Template directory not found: " + PathText(path)));
    }
    var configFile := path + [DescriptorYml];
    if !Exists(d, configFile) {
      configFile := path + [DescriptorYaml];
    }
    var config: Value;
    if Exists(d, configFile) {
      var read := ReadFile(d, configFile);
      if read.Err? {
        return Err(read.error);
      }
      if configFile !in env.yaml {
        return Err(YamlError(PathText(configFile)));
      }
      config := env.yaml[configFile];
    } else {
      config := DefaultConfig(Basename(path));
    }
    if !config.VObj? {
      return Err(AttributeError);
    }
    var m := config.fields;
    var name := StringField(m, "name", Basename(path));
    var description := StringField(m, "description", "");
    var version := StringField(m, "version", DefaultVersion);
    if name.Err? || description.Err? || version.Err? {
      return if name.Err? then Err(name.error) else if description.Err? then Err(description.error) else Err(version.error);
    }
    var template := Template(name.value, path, description.value, [], version.value);
    var items := DeclaredItems(Get(m, "variables", VList([])));
    if items.Err? {
      return Err(items.error);
    }
    r := AppendVariables(template, items.value);
  }

  /** The loop of `from_directory` over the declarations, appending each variable to the
      template; the first bad declaration raises. */
  method AppendVariables(template: Template, items: seq<Value>) returns (r: Result<Template>)
    requires template.variables == []
    ensures ParseVariables(items).Err? ==> r == Err(ParseVariables(items).error)
    ensures ParseVariables(items).Ok? ==> r == Ok(template.(variables := ParseVariables(items).value))
  {
    var t := template;
    var i := 0;
    while i < |items|
      invariant 0 <= i <= |items|
      invariant ParseVariables(items[..i]) == Ok(t.variables)
      invariant t == template.(variables := t.variables)
    {
      var variable := VariableOf(items[i]);
      ParseAdvance(items, i, t.variables);
      if variable.Err? {
        return Err(variable.error);
      }
      t := t.(variables := t.variables + [variable.value]);
      i := i + 1;
    }
    assert items[..i] == items;
    return Ok(t);
  }

  /** One more declaration after a good prefix: its variable is appended, or its error is
      the error of the whole list. */
  lemma ParseAdvance(items: seq<Value>, i: nat, vs: seq<TemplateVariable>)
    requires i < |items| && ParseVariables(items[..i]) == Ok(vs)
    ensures VariableOf(items[i]).Ok? ==> ParseVariables(items[..i + 1]) == Ok(vs + [VariableOf(items[i]).value])
    ensures VariableOf(items[i]).Err? ==> ParseVariables(items) == Err(VariableOf(items[i]).error)
  {
    assert items[..i + 1][..i] == items[..i];
    if VariableOf(items[i]).Err? {
      ParseVariablesStops(items, i + 1);
    }
  }

  /** Once a prefix of the declarations fails, the whole list fails the same way. */
  lemma {:induction false} ParseVariablesStops(items: seq<Value>, k: nat)
    requires k <= |items| && ParseVariables(items[..k]).Err?
    ensures ParseVariables(items) == ParseVariables(items[..k])
    decreases |items|
  {
    if k < |items| {
      var n := |items| - 1;
      assert items[..n][..k] == items[..k];
      ParseVariablesStops(items[..n], k);
    } else {
      assert items[..k] == items;
    }
  }

  /** Loaded declarations keep their order: the i-th variable is the i-th declaration. */
  lemma {:induction false} ParseVariablesOrder(items: seq<Value>)
    requires ParseVariables(items).Ok?
    ensures |ParseVariables(items).value| == |items|
    ensures forall i :: 0 <= i < |items| ==>
      VariableOf(items[i]).Ok? && ParseVariables(items).value[i] == VariableOf(items[i]).value
  {
    if items != [] {
      var n := |items| - 1;
      ParseVariablesOrder(items[..n]);
      forall i | 0 <= i < n ensures items[..n][i] == items[i] {
      }
    }
  }

  /** A declaration holding only a name gets the documented defaults. */
  lemma DeclarationDefaults(n: string)
    ensures VariableOf(VObj(map["name" := VStr(n)])) ==
      Ok(TemplateVariable(n, VStr("string"), VStr(""), VNull, VBool(true), VNull))
  {
  }

  /** A directory that does not exist is not a template. */
  lemma MissingDirectory(d: Disk, env: Env, path: Path)
    requires !Exists(d, path)
    ensures LoadTemplate(d, env, path) == Err(ValueError("Template directory not found: " + PathText(path)))
  {
  }

  /** Without a descriptor: the base name, "Template for <base name>", no variables, 1.0.0. */
  lemma NoDescriptor(d: Disk, env: Env, path: Path)
    requires Exists(d, path)
    requires !Exists(d, path + [DescriptorYml]) && !Exists(d, path + [DescriptorYaml])
    ensures LoadTemplate(d, env, path) ==
      Ok(Template(Basename(path), path, "Template for " + Basename(path), [], DefaultVersion))
  {
    var m := DefaultConfig(Basename(path)).fields;
    assert "version" !in m;
  }

  /** With a descriptor that omits a key, the key takes its default. */
  lemma DescriptorDefaults(d: Disk, env: Env, path: Path, t: Template)
    requires LoadTemplate(d, env, path) == Ok(t)
    requires Exists(d, DescriptorPath(d, path))
    ensures env.yaml[DescriptorPath(d, path)].VObj?
    ensures "name" !in env.yaml[DescriptorPath(d, path)].fields ==> t.name == Basename(path)
    ensures "description" !in env.yaml[DescriptorPath(d, path)].fields ==> t.description == ""
    ensures "version" !in env.yaml[DescriptorPath(d, path)].fields ==> t.version == DefaultVersion
    ensures "variables" !in env.yaml[DescriptorPath(d, path)].fields ==> t.variables == []
    ensures t.path == path
  {
  }

  // ----- get_files -----

  /** A walk step's file names after `remove('template.yml')` and `remove('template.yaml')`. */
  function ContentNames(names: seq<Name>): seq<Name> {
    RemoveFirst(RemoveFirst(names, DescriptorYml), DescriptorYaml)
  }

  /** The content files of a walk, walk order, descriptors excluded in every directory. */
  function ContentFiles(steps: seq<WalkStep>): seq<Path> {
    if steps == [] then []
    else
      var n := |steps| - 1;
      ContentFiles(steps[..n]) + RelPaths(steps[n].rel, ContentNames(steps[n].files))
  }

  /** `os.walk` lists each file of a directory once. */
  predicate WalkWF(steps: seq<WalkStep>) {
    forall i :: 0 <= i < |steps| ==> Distinct(steps[i].files)
  }

  lemma ContentFilesSnoc(steps: seq<WalkStep>, i: nat)
    requires i < |steps|
    ensures ContentFiles(steps[..i + 1]) == ContentFiles(steps[..i]) + RelPaths(steps[i].rel, ContentNames(steps[i].files))
  {
    assert steps[..i + 1][..i] == steps[..i];
  }

  /** The files of one more directory, appended, give the content files of one more step. */
  lemma ContentFilesAdvance(steps: seq<WalkStep>, i: nat, before: seq<Path>, names: seq<Name>, files: seq<Path>)
    requires i < |steps| && before == ContentFiles(steps[..i]) && names == ContentNames(steps[i].files)
    requires files == before + RelPaths(steps[i].rel, names)
    ensures files == ContentFiles(steps[..i + 1])
  {
    ContentFilesSnoc(steps, i);
  }

  /** The two `remove` calls of `get_files`: each descriptor name, when present, is dropped. */
  method SkipDescriptors(names: seq<Name>) returns (r: seq<Name>)
    ensures r == ContentNames(names)
  {
    r := names;
    if DescriptorYml in r {
      r := RemoveFirst(r, DescriptorYml);
    }
    if DescriptorYaml in r {
      r := RemoveFirst(r, DescriptorYaml);
    }
  }

  /** The inner loop of `get_files`: each name of one directory, as a relative path. */
  method AppendFiles(files: seq<Path>, rel: Path, names: seq<Name>) returns (files': seq<Path>)
    ensures files' == files + RelPaths(rel, names)
  {
    files' := files;
    for j := 0 to |names|
      invariant files' == files + RelPaths(rel, names[..j])
    {
      RelPathsPrefix(files, rel, names, j);
      files' := files' + [rel + [names[j]]];
    }
    assert names[..|names|] == names;
  }

  /** `Template.get_files()` */
  method GetFiles(env: Env, t: Template) returns (files: seq<Path>)
    ensures files == ContentFiles(Walk(env, t.path))
  {
    var steps := Walk(env, t.path);
    files := [];
    var i := 0;
    while i < |steps|
      invariant 0 <= i <= |steps|
      invariant files == ContentFiles(steps[..i])
    {
      var filenames := SkipDescriptors(steps[i].files);
      ghost var before := files;
      files := AppendFiles(files, steps[i].rel, filenames);
      ContentFilesAdvance(steps, i, before, filenames, files);
      i := i + 1;
    }
    assert steps[..i] == steps;
  }

  /** A path whose last component is neither descriptor name. */
  predicate NotDescriptor(p: Path) {
    |p| > 0 && Last(p) != DescriptorYml && Last(p) != DescriptorYaml
  }

  /** No content file is a descriptor, when the walk lists each file once. */
  lemma {:induction false} ContentFilesExcludeDescriptors(steps: seq<WalkStep>)
    requires WalkWF(steps)
    ensures forall p :: p in ContentFiles(steps) ==> NotDescriptor(p)
  {
    if steps != [] {
      var n := |steps| - 1;
      assert WalkWF(steps[..n]) by {
        forall i | 0 <= i < n ensures Distinct(steps[..n][i].files) {
          assert steps[..n][i] == steps[i];
        }
      }
      ContentFilesExcludeDescriptors(steps[..n]);
      StepExcludesDescriptors(steps[n].rel, steps[n].files);
      var a, b := ContentFiles(steps[..n]), RelPaths(steps[n].rel, ContentNames(steps[n].files));
      assert ContentFiles(steps) == a + b;
      forall p | p in a + b ensures NotDescriptor(p) {
        if p !in a {
          assert p in b;
        }
      }
    }
  }

  lemma StepExcludesDescriptors(rel: Path, names: seq<Name>)
    requires Distinct(names)
    ensures forall p :: p in RelPaths(rel, ContentNames(names)) ==> NotDescriptor(p)
  {
    RemoveFirstDistinct(names, DescriptorYml);
    RemoveFirstDistinct(RemoveFirst(names, DescriptorYml), DescriptorYaml);
    var kept := ContentNames(names);
    forall p | p in RelPaths(rel, kept)
      ensures NotDescriptor(p)
    {
      var k :| 0 <= k < |kept| && RelPaths(rel, kept)[k] == p;
      assert kept[k] in kept;
    }
  }

  /** Every other file of every visited directory is a content file. */
  lemma {:induction false} ContentFilesInclude(steps: seq<WalkStep>, i: nat, f: Name)
    requires WalkWF(steps)
    requires i < |steps| && f in steps[i].files && f != DescriptorYml && f != DescriptorYaml
    ensures steps[i].rel + [f] in ContentFiles(steps)
  {
    var n := |steps| - 1;
    if i < n {
      assert WalkWF(steps[..n]) by {
        forall k | 0 <= k < n ensures Distinct(steps[..n][k].files) {
          assert steps[..n][k] == steps[k];
        }
      }
      assert steps[..n][i] == steps[i];
      ContentFilesInclude(steps[..n], i, f);
    } else {
      var names := steps[n].files;
      RemoveFirstDistinct(names, DescriptorYml);
      RemoveFirstDistinct(RemoveFirst(names, DescriptorYml), DescriptorYaml);
      var kept := ContentNames(names);
      var k :| 0 <= k < |kept| && kept[k] == f;
      assert RelPaths(steps[n].rel, kept)[k] == steps[n].rel + [f];
    }
  }
}

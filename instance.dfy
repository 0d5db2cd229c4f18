/** The record of a provisioned instance and its metadata file `<path>/.dotwork_instance.json`,
    which holds the record as a JSON object with ISO 8601 timestamps. */
module InstanceModel {
  import opened Wrappers
  import opened Values
  import opened DateTimes
  import opened FileSystem

  datatype ServerInstance = ServerInstance(
    name: string,
    templateName: string,
    path: Path,
    variables: Variables,
    createdAt: DateTime,
    updatedAt: DateTime,
    version: string)

  const MetadataName: Name := ".dotwork_instance.json"
  const DefaultVersion: string := "1.0.0"

  /** The metadata file of the instance at `p`, the same for saving and loading. */
  function MetadataPath(p: Path): (m: Path)
    ensures |m| > 0 && Parent(m) == p && Last(m) == MetadataName
  {
    p + [MetadataName]
  }

  /** A record made now, as the dataclass defaults make it. */
  function NewInstance(name: string, templateName: string, path: Path, variables: Variables, now: DateTime): (x: ServerInstance)
    ensures x.createdAt == now && x.updatedAt == now && x.version == DefaultVersion
  {
    ServerInstance(name, templateName, path, variables, now, now, DefaultVersion)
  }

  /** `to_dict()` */
  function ToDict(x: ServerInstance): map<string, Value> {
    map[
      "name" := VStr(x.name),
      "template_name" := VStr(x.templateName),
      "path" := VStr(PathText(x.path)),
      "variables" := VObj(x.variables),
      "created_at" := VStr(IsoFormat(x.createdAt)),
      "updated_at" := VStr(IsoFormat(x.updatedAt)),
      "version" := VStr(x.version)]
  }

  /** `data[key]` where a string is expected. */
  function RequiredString(data: map<string, Value>, key: string): (r: Result<string>)
    ensures key !in data ==> r == Err(KeyError(key))
    ensures r.Ok? ==> key in data && data[key] == VStr(r.value)
  {
    if key !in data then Err(KeyError(key))
    else if data[key].VStr? then Ok(data[key].s)
    else Err(TypeError)
  }

  /** `datetime.fromisoformat(data.get(key, now.isoformat()))` */
  function Timestamp(data: map<string, Value>, key: string, now: DateTime): Result<DateTime> {
    match Get(data, key, VStr(IsoFormat(now)))
    case VStr(s) => FromIsoFormat(s)
    case _ => Err(TypeError)
  }

  /** `ServerInstance.from_dict(data)`; arguments are evaluated in order, so the first
      failing one decides the error. */
  function FromDict(data: Value, now: DateTime): (r: Result<ServerInstance>)
    ensures data.VObj? && "name" !in data.fields ==> r == Err(KeyError("name"))
  {
    if !data.VObj? then Err(TypeError)
    else
      var m := data.fields;
      var name :- RequiredString(m, "name");
      var templateName :- RequiredString(m, "template_name");
      var path :- RequiredString(m, "path");
      var vars := Get(m, "variables", VObj(map[]));
      if !vars.VObj? then Err(TypeError)
      else
        var created :- Timestamp(m, "created_at", now);
        var updated :- Timestamp(m, "updated_at", now);
        var version := Get(m, "version", VStr(DefaultVersion));
        if !version.VStr? then Err(TypeError)
        else Ok(ServerInstance(name, templateName, ParsePath(path), vars.fields, created, updated, version.s))
  }

  /** `from_dict(to_dict(x)) == x` for a record whose path text splits back into its path. */
  lemma DictRoundTrip(x: ServerInstance, now: DateTime)
    requires ProperComponents(x.path)
    ensures FromDict(VObj(ToDict(x)), now) == Ok(x)
  {
    var m := ToDict(x);
    ToDictFields(x);
    TimestampOf(m, "created_at", now, x.createdAt);
    TimestampOf(m, "updated_at", now, x.updatedAt);
    ParsePathText(x.path);
    FromFields(m, now, x, PathText(x.path));
  }

  /** The entries of `to_dict()`. */
  lemma ToDictFields(x: ServerInstance)
    ensures var m := ToDict(x);
      && RequiredString(m, "name") == Ok(x.name)
      && RequiredString(m, "template_name") == Ok(x.templateName)
      && RequiredString(m, "path") == Ok(PathText(x.path))
      && Get(m, "variables", VObj(map[])) == VObj(x.variables)
      && "created_at" in m && m["created_at"] == VStr(IsoFormat(x.createdAt))
      && "updated_at" in m && m["updated_at"] == VStr(IsoFormat(x.updatedAt))
      && Get(m, "version", VStr(DefaultVersion)) == VStr(x.version)
  {
  }

  /** An ISO 8601 text written for `t` reads back as `t`. */
  lemma TimestampOf(m: map<string, Value>, key: string, now: DateTime, t: DateTime)
    requires key in m && m[key] == VStr(IsoFormat(t))
    ensures Timestamp(m, key, now) == Ok(t)
  {
    IsoFormatRoundTrip(t);
  }

  /** A dict whose fields each read back as those of `x` gives `x`. */
  lemma FromFields(m: map<string, Value>, now: DateTime, x: ServerInstance, pathText: string)
    requires RequiredString(m, "name") == Ok(x.name)
    requires RequiredString(m, "template_name") == Ok(x.templateName)
    requires RequiredString(m, "path") == Ok(pathText) && ParsePath(pathText) == x.path
    requires Get(m, "variables", VObj(map[])) == VObj(x.variables)
    requires Timestamp(m, "created_at", now) == Ok(x.createdAt)
    requires Timestamp(m, "updated_at", now) == Ok(x.updatedAt)
    requires Get(m, "version", VStr(DefaultVersion)) == VStr(x.version)
    ensures FromDict(VObj(m), now) == Ok(x)
  {
  }

  /** Absent `variables` and `version` take their defaults; absent timestamps are now. */
  lemma FromDictDefaults(data: map<string, Value>, now: DateTime)
    requires FromDict(VObj(data), now).Ok?
    ensures "variables" !in data ==> FromDict(VObj(data), now).value.variables == map[]
    ensures "version" !in data ==> FromDict(VObj(data), now).value.version == DefaultVersion
    ensures "created_at" !in data ==> FromDict(VObj(data), now).value.createdAt == now
    ensures "updated_at" !in data ==> FromDict(VObj(data), now).value.updatedAt == now
    ensures FromDict(VObj(data), now).value.path == ParsePath(data["path"].s)
  {
    IsoFormatRoundTrip(now);
  }

  /** The three identifying keys are mandatory. */
  lemma FromDictRequiredKeys(data: map<string, Value>, now: DateTime)
    ensures "name" !in data ==> FromDict(VObj(data), now) == Err(KeyError("name"))
    ensures "name" in data && data["name"].VStr? && "template_name" !in data ==>
      FromDict(VObj(data), now) == Err(KeyError("template_name"))
    ensures "name" in data && data["name"].VStr? && "template_name" in data && data["template_name"].VStr? && "path" !in data ==>
      FromDict(VObj(data), now) == Err(KeyError("path"))
  {
  }

  /** `save_metadata()`: the record, as a JSON object, at the metadata path. */
  function SaveMetadata(d: Disk, x: ServerInstance): (r: Result<Disk>)
    ensures r.Ok? <==> CanWrite(d, MetadataPath(x.path))
    ensures r.Ok? ==> r.value == d.(files := d.files[MetadataPath(x.path) := Doc(VObj(ToDict(x)))])
  {
    WriteFile(d, MetadataPath(x.path), Doc(VObj(ToDict(x))))
  }

  /** `ServerInstance.load_from_path(p)`: no record (`None`) when the file is absent, is not
      JSON or lacks a mandatory key; any other failure propagates. */
  function LoadFromPath(d: Disk, p: Path, now: DateTime): (r: Result<Option<ServerInstance>>)
    ensures !Exists(d, MetadataPath(p)) ==> r == Ok(None)
  {
    var mf := MetadataPath(p);
    if !Exists(d, mf) then Ok(None)
    else
      var f :- ReadFile(d, mf);
      match f
      case Blob(b) => if Decode(b).None? then Err(UnicodeDecodeError(PathText(mf))) else Ok(None)
      case Doc(data) =>
        match FromDict(data, now)
        case Ok(x) => Ok(Some(x))
        case Err(KeyError(_)) => Ok(None)
        case Err(e) => Err(e)
  }

  /** A saved record loads back unchanged. */
  lemma SaveLoadRoundTrip(d: Disk, x: ServerInstance, now: DateTime)
    requires ProperComponents(x.path) && SaveMetadata(d, x).Ok?
    ensures LoadFromPath(SaveMetadata(d, x).value, x.path, now) == Ok(Some(x))
  {
    DictRoundTrip(x, now);
  }

  /** A loaded record's path is the one stored in the file, not the directory it came from. */
  lemma LoadedPathIsStored(d: Disk, p: Path, now: DateTime)
    requires LoadFromPath(d, p, now).Ok? && LoadFromPath(d, p, now).value.Some?
    ensures MetadataPath(p) in d.files && d.files[MetadataPath(p)].Doc?
    ensures d.files[MetadataPath(p)].doc.VObj? && "path" in d.files[MetadataPath(p)].doc.fields
    ensures LoadFromPath(d, p, now).value.value.path == ParsePath(d.files[MetadataPath(p)].doc.fields["path"].s)
  {
  }

  /** A malformed timestamp is not one of the caught errors: it propagates. */
  lemma MalformedTimestampPropagates(d: Disk, p: Path, now: DateTime, s: string)
    requires MetadataPath(p) in d.files && MetadataPath(p) !in d.dirs && MetadataPath(p) !in d.locked
    requires d.files[MetadataPath(p)].Doc? && d.files[MetadataPath(p)].doc.VObj?
    requires var m := d.files[MetadataPath(p)].doc.fields;
      RequiredString(m, "name").Ok? && RequiredString(m, "template_name").Ok? && RequiredString(m, "path").Ok?
      && Get(m, "variables", VObj(map[])).VObj? && Get(m, "created_at", VNull) == VStr(s)
    requires FromIsoFormat(s).Err?
    ensures LoadFromPath(d, p, now).Err? && LoadFromPath(d, p, now).error.ValueError?
  {
  }
}

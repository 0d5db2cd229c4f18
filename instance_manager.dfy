/** The logic of the instance list: where instances are looked for, how they are found and
    deduplicated, how they are grouped by template, and the bulk update over all of them. */
module InstanceManagerView {
  import opened Wrappers
  import opened Strings
  import opened Sequences
  import opened Values
  import opened DateTimes
  import opened FileSystem
  import opened InstanceModel
  import opened Results
  import TemplateManager
  import BackupManager

  // ----- search paths -----

  /** The candidate locations in the order they are tried: the configured instance directory,
      the configured output directory, `<cwd>/instances`, `<cwd>/output` and `<cwd>`. */
  function SearchPaths(instancesDir: Option<string>, outputDir: Option<string>, cwd: string): seq<Option<string>> {
    [instancesDir, outputDir, Some(BackupManager.JoinPath(cwd, "instances")),
     Some(BackupManager.JoinPath(cwd, "output")), Some(cwd)]
  }

  /** The entries that are set and not empty (`if path`), in order. */
  function Present(paths: seq<Option<string>>): (r: seq<string>)
    ensures forall x :: x in r <==> Some(x) in paths && x != ""
    decreases |paths|
  {
    if paths == [] then []
    else
      var n := |paths| - 1;
      assert paths == paths[..n] + [paths[n]];
      Present(paths[..n]) + (if paths[n].Some? && paths[n].value != "" then [paths[n].value] else [])
  }

  /** The loop that builds `unique_paths`. */
  method UniqueSearchPaths(paths: seq<Option<string>>) returns (unique: seq<string>)
    ensures unique == DedupBy(Id, Present(paths))
  {
    unique := [];
    for i := 0 to |paths|
      invariant unique == DedupBy(Id, Present(paths[..i]))
    {
      assert paths[..i + 1] == paths[..i] + [paths[i]];
      PresentSnoc(paths[..i], paths[i]);
      var path := paths[i];
      if path.Some? && path.value != "" {
        DedupIdSnoc(Present(paths[..i]), path.value);
        if path.value !in unique {
          unique := unique + [path.value];
        }
      } else {
        assert Present(paths[..i + 1]) == Present(paths[..i]);
      }
    }
    assert paths[..|paths|] == paths;
  }

  lemma PresentSnoc(paths: seq<Option<string>>, p: Option<string>)
    ensures Present(paths + [p]) == Present(paths) + (if p.Some? && p.value != "" then [p.value] else [])
  {
    assert (paths + [p])[..|paths|] == paths;
  }

  /** No location is tried twice, every set and non-empty location is tried, and they are
      tried in order of first appearance. */
  lemma UniqueSearchPathsSpec(paths: seq<Option<string>>)
    ensures Distinct(DedupBy(Id, Present(paths)))
    ensures forall x :: x in DedupBy(Id, Present(paths)) <==> Some(x) in paths && x != ""
    ensures DedupBy(Id, Present(paths)) == Firsts(Id, Present(paths))
  {
    DedupIdDistinct(Present(paths));
    DedupByIsFirsts(Id, Present(paths));
  }

  // ----- scanning one directory -----

  /** `ServerInstance.load_from_path` on the disk `d`, with `now` for missing timestamps. */
  function Loader(d: Disk, now: DateTime): Path -> Result<Option<ServerInstance>> {
    (p: Path) => LoadFromPath(d, p, now)
  }

  /** Loading the record below entry `item`: entries that are not directories are passed over. */
  function LoadEntry(d: Disk, dir: Path, item: Name, load: Path -> Result<Option<ServerInstance>>)
    : (r: Result<Option<ServerInstance>>)
    ensures dir + [item] !in d.dirs ==> r == Ok(None)
    ensures r.Ok? && r.value.Some? ==> dir + [item] in d.dirs && load(dir + [item]) == r
  {
    if dir + [item] in d.dirs then load(dir + [item]) else Ok(None)
  }

  /** The load of each entry, in listing order. */
  function Loads(d: Disk, dir: Path, items: seq<Name>, load: Path -> Result<Option<ServerInstance>>)
    : (r: seq<Result<Option<ServerInstance>>>)
    ensures |r| == |items| && forall i :: 0 <= i < |items| ==> r[i] == LoadEntry(d, dir, items[i], load)
  {
    seq(|items|, i requires 0 <= i < |items| => LoadEntry(d, dir, items[i], load))
  }

  /** The records collected so far, and the error that ended the scan, if any. */
  datatype Scan = Scan(found: seq<ServerInstance>, stop: Option<Error>)

  /** The loop over the loads of the entries, up to the first load that raises. */
  function ScanOf(loads: seq<Result<Option<ServerInstance>>>): Scan
    decreases |loads|
  {
    if loads == [] then Scan([], None)
    else
      var s := ScanOf(loads[..|loads| - 1]);
      if s.stop.Some? then s
      else
        match loads[|loads| - 1]
        case Err(e) => Scan(s.found, Some(e))
        case Ok(None) => s
        case Ok(Some(x)) => Scan(s.found + [x], None)
  }

  /** Reference definition: the record of every load that succeeds with one. */
  function Collected(loads: seq<Result<Option<ServerInstance>>>): (r: seq<ServerInstance>)
    ensures forall j :: 0 <= j < |r| ==> exists i :: 0 <= i < |loads| && loads[i] == Ok(Some(r[j]))
    decreases |loads|
  {
    if loads == [] then []
    else
      var n := |loads| - 1;
      var before := Collected(loads[..n]);
      var r := before + (if loads[n].Ok? && loads[n].value.Some? then [loads[n].value.value] else []);
      assert forall j :: 0 <= j < |before| ==> r[j] == before[j];
      assert forall i :: 0 <= i < n ==> loads[..n][i] == loads[i];
      r
  }

  /** Without a failing load the scan collects exactly the loaded records; otherwise it stops
      at the first failing load, keeping the records loaded before it. */
  lemma {:induction false} ScanSpec(loads: seq<Result<Option<ServerInstance>>>)
    ensures var s := ScanOf(loads);
      && (s.stop.None? <==> forall i :: 0 <= i < |loads| ==> loads[i].Ok?)
      && (s.stop.None? ==> s.found == Collected(loads))
      && (s.stop.Some? ==> exists k :: 0 <= k < |loads| && loads[k] == Err(s.stop.value)
                                && (forall i :: 0 <= i < k ==> loads[i].Ok?)
                                && s.found == Collected(loads[..k]))
    decreases |loads|
  {
    if loads != [] {
      var n := |loads| - 1;
      ScanSpec(loads[..n]);
      assert forall i :: 0 <= i < n ==> loads[..n][i] == loads[i];
      var s := ScanOf(loads[..n]);
      if s.stop.Some? {
        var k :| 0 <= k < n && loads[..n][k] == Err(s.stop.value)
                 && (forall i :: 0 <= i < k ==> loads[..n][i].Ok?)
                 && s.found == Collected(loads[..n][..k]);
        assert loads[..n][..k] == loads[..k];
        assert ScanOf(loads) == s;
        assert loads[k] == Err(s.stop.value) && s.found == Collected(loads[..k]);
      } else if loads[n].Err? {
        assert ScanOf(loads) == Scan(s.found, Some(loads[n].error));
        assert loads[n] == Err(loads[n].error) && s.found == Collected(loads[..n]);
      }
    }
  }

  /** Once the scan of a prefix has stopped, the further loads change nothing. */
  lemma {:induction false} ScanStops(loads: seq<Result<Option<ServerInstance>>>, k: nat)
    requires k <= |loads| && ScanOf(loads[..k]).stop.Some?
    ensures ScanOf(loads) == ScanOf(loads[..k])
    decreases |loads|
  {
    if k < |loads| {
      var n := |loads| - 1;
      assert loads[..n][..k] == loads[..k];
      ScanStops(loads[..n], k);
    } else {
      assert loads[..k] == loads;
    }
  }

  /** `find_instances_in_directory(dir)`: a PermissionError, from the listing or from a load,
      ends the scan with what was collected; any other error propagates. */
  function FindInstancesOf(d: Disk, env: Env, dir: Path, now: DateTime): (r: Result<seq<ServerInstance>>)
    ensures r.Err? ==> !r.error.PermissionDenied?
    ensures dir in d.locked ==> r == Ok([])
  {
    match ListDir(d, env, dir)
    case Err(e) => if e.PermissionDenied? then Ok([]) else Err(e)
    case Ok(items) =>
      var s := ScanOf(Loads(d, dir, items, Loader(d, now)));
      if s.stop.None? || s.stop.value.PermissionDenied? then Ok(s.found) else Err(s.stop.value)
  }

  /** Every record the scan collects comes from a subdirectory whose load gives it, and when
      no load fails the scan collects every loaded record. */
  lemma ScanFinds(d: Disk, dir: Path, items: seq<Name>, load: Path -> Result<Option<ServerInstance>>)
    ensures var s := ScanOf(Loads(d, dir, items, load));
      && (forall j :: 0 <= j < |s.found| ==> exists i :: 0 <= i < |items| && dir + [items[i]] in d.dirs
                                                 && load(dir + [items[i]]) == Ok(Some(s.found[j])))
      && ((forall i :: 0 <= i < |items| ==> LoadEntry(d, dir, items[i], load).Ok?)
            ==> s.found == Collected(Loads(d, dir, items, load)))
  {
    var loads := Loads(d, dir, items, load);
    ScanSpec(loads);
    var s := ScanOf(loads);
    var k := |loads|;
    if s.stop.Some? {
      k :| 0 <= k < |loads| && loads[k] == Err(s.stop.value)
           && (forall i :: 0 <= i < k ==> loads[i].Ok?)
           && s.found == Collected(loads[..k]);
    } else {
      assert loads[..k] == loads;
    }
    forall j | 0 <= j < |s.found|
      ensures exists i :: 0 <= i < |items| && dir + [items[i]] in d.dirs
                          && load(dir + [items[i]]) == Ok(Some(s.found[j]))
    {
      var i :| 0 <= i < k && loads[..k][i] == Ok(Some(s.found[j]));
      assert loads[i] == LoadEntry(d, dir, items[i], load);
    }
  }

  /** Every record found belongs to a subdirectory of `dir` whose metadata loads, and when no
      load fails every such record is found. */
  lemma FindInstancesSpec(d: Disk, env: Env, dir: Path, now: DateTime)
    requires FindInstancesOf(d, env, dir, now).Ok? && ListDir(d, env, dir).Ok?
    ensures var items := ListDir(d, env, dir).value;
      var xs := FindInstancesOf(d, env, dir, now).value;
      && (forall j :: 0 <= j < |xs| ==> exists i :: 0 <= i < |items| && dir + [items[i]] in d.dirs
                                            && LoadFromPath(d, dir + [items[i]], now) == Ok(Some(xs[j])))
      && ((forall i :: 0 <= i < |items| ==> LoadEntry(d, dir, items[i], Loader(d, now)).Ok?)
            ==> xs == Collected(Loads(d, dir, items, Loader(d, now))))
  {
    ScanFinds(d, dir, ListDir(d, env, dir).value, Loader(d, now));
  }

  /** A PermissionError from the load of entry `k`, the first load that raises, ends the scan:
      the result is the records of the entries before `k`, and nothing after it is looked at. */
  lemma PermissionErrorKeepsCollected(d: Disk, env: Env, dir: Path, now: DateTime, k: nat)
    requires ListDir(d, env, dir).Ok? && k < |ListDir(d, env, dir).value|
    requires var items := ListDir(d, env, dir).value;
      && (forall i :: 0 <= i < k ==> LoadEntry(d, dir, items[i], Loader(d, now)).Ok?)
      && LoadEntry(d, dir, items[k], Loader(d, now)).Err?
      && LoadEntry(d, dir, items[k], Loader(d, now)).error.PermissionDenied?
    ensures var items := ListDir(d, env, dir).value;
      FindInstancesOf(d, env, dir, now) == Ok(Collected(Loads(d, dir, items[..k], Loader(d, now))))
  {
    var items := ListDir(d, env, dir).value;
    var loads := Loads(d, dir, items, Loader(d, now));
    ScanFirstError(loads, k);
    assert loads[..k] == Loads(d, dir, items[..k], Loader(d, now));
  }

  /** The scan ends at the first load that raises, with the records loaded before it. */
  lemma {:induction false} ScanFirstError(loads: seq<Result<Option<ServerInstance>>>, k: nat)
    requires k < |loads| && (forall i :: 0 <= i < k ==> loads[i].Ok?) && loads[k].Err?
    ensures ScanOf(loads) == Scan(Collected(loads[..k]), Some(loads[k].error))
  {
    var pre := loads[..k + 1];
    ScanSpec(pre);
    assert pre[k] == loads[k];
    var s := ScanOf(pre);
    var j :| 0 <= j < |pre| && pre[j] == Err(s.stop.value)
             && (forall i :: 0 <= i < j ==> pre[i].Ok?)
             && s.found == Collected(pre[..j]);
    assert j == k;
    assert pre[..k] == loads[..k];
    ScanStops(loads, k + 1);
  }

  /** The loop of `find_instances_in_directory`. */
  method FindInstancesInDirectory(d: Disk, env: Env, dir: Path, now: DateTime) returns (r: Result<seq<ServerInstance>>)
    ensures r == FindInstancesOf(d, env, dir, now)
  {
    var listing := ListDir(d, env, dir);
    if listing.Err? {
      if listing.error.PermissionDenied? {
        return Ok([]);
      }
      return Err(listing.error);
    }
    var items := listing.value;
    ghost var loads := Loads(d, dir, items, Loader(d, now));
    var instances: seq<ServerInstance> := [];
    var i := 0;
    while i < |items|
      invariant 0 <= i <= |items|
      invariant ScanOf(loads[..i]) == Scan(instances, None)
    {
      assert loads[..i + 1][..i] == loads[..i];
      var load := Ok(None);
      var itemPath := dir + [items[i]];
      if itemPath in d.dirs {
        load := LoadFromPath(d, itemPath, now);
      }
      assert load == loads[i];
      if load.Err? {
        ScanStops(loads, i + 1);
        if load.error.PermissionDenied? {
          return Ok(instances);
        }
        return Err(load.error);
      }
      if load.value.Some? {
        instances := instances + [load.value.value];
      }
      i := i + 1;
    }
    assert loads[..i] == loads;
    r := Ok(instances);
  }

  // ----- refreshing the list -----

  /** What the scan of the search paths gathers: the records found in each existing path, in
      order, the paths scanned, and the error that ended it, if any. */
  datatype Gather = Gather(all: seq<ServerInstance>, searched: seq<string>, error: Option<Error>)

  function ExistsText(d: Disk): string -> bool {
    (p: string) => Exists(d, ParsePath(p))
  }

  /** `find_instances_in_directory` on the disk `d`. */
  function FindIn(d: Disk, env: Env, now: DateTime): Path -> Result<seq<ServerInstance>> {
    (p: Path) => FindInstancesOf(d, env, p, now)
  }

  /** The loop over the unique search paths, scanning each existing one with `find`. */
  function GatherOf(d: Disk, paths: seq<string>, find: Path -> Result<seq<ServerInstance>>): Gather
    decreases |paths|
  {
    if paths == [] then Gather([], [], None)
    else
      var g := GatherOf(d, paths[..|paths| - 1], find);
      var p := paths[|paths| - 1];
      if g.error.Some? || !Exists(d, ParsePath(p)) then g
      else
        match find(ParsePath(p))
        case Err(e) => Gather(g.all, g.searched, Some(e))
        case Ok(xs) => Gather(g.all + xs, g.searched + [p], None)
  }

  /** Exactly the existing search paths are scanned and recorded, in order. */
  lemma {:induction false} GatherSearched(d: Disk, paths: seq<string>, find: Path -> Result<seq<ServerInstance>>)
    ensures var g := GatherOf(d, paths, find);
      && (forall i :: 0 <= i < |g.searched| ==> g.searched[i] in paths && Exists(d, ParsePath(g.searched[i])))
      && (g.error.None? ==> g.searched == Filter(ExistsText(d), paths))
    decreases |paths|
  {
    if paths != [] {
      var n := |paths| - 1;
      GatherSearched(d, paths[..n], find);
      assert paths == paths[..n] + [paths[n]];
      FilterAppend(ExistsText(d), paths[..n], [paths[n]]);
      assert [paths[n]][1..] == [];
      var g := GatherOf(d, paths[..n], find);
      forall i | 0 <= i < |g.searched| ensures g.searched[i] in paths {
        assert g.searched[i] in paths[..n];
      }
    }
  }

  /** Once a scan of a prefix of the search paths has raised, the further paths change nothing. */
  lemma {:induction false} GatherStops(d: Disk, paths: seq<string>, k: nat, find: Path -> Result<seq<ServerInstance>>)
    requires k <= |paths| && GatherOf(d, paths[..k], find).error.Some?
    ensures GatherOf(d, paths, find) == GatherOf(d, paths[..k], find)
    decreases |paths|
  {
    if k < |paths| {
      var n := |paths| - 1;
      assert paths[..n][..k] == paths[..k];
      GatherStops(d, paths[..n], k, find);
    } else {
      assert paths[..k] == paths;
    }
  }

  /** The key under which two records count as the same instance: the normalised absolute path. */
  function PathKey(norm: Path -> string): ServerInstance -> string {
    (x: ServerInstance) => norm(x.path)
  }

  /** What `refresh_instances` leaves behind: the records (none when a scan raised, as the list
      was cleared first), the paths searched and the error raised, if any. */
  datatype Refresh = Refresh(instances: seq<ServerInstance>, searched: seq<string>, error: Option<Error>)

  function RefreshOf(d: Disk, env: Env, instancesDir: Option<string>, outputDir: Option<string>, cwd: string,
                     norm: Path -> string, now: DateTime): Refresh
  {
    var unique := DedupBy(Id, Present(SearchPaths(instancesDir, outputDir, cwd)));
    var g := GatherOf(d, unique, FindIn(d, env, now));
    Refresh(if g.error.Some? then [] else DedupBy(PathKey(norm), g.all), g.searched, g.error)
  }

  /** After a refresh no two records share a normalised path, every record found is
      represented by the first one found with its path, and discovery order is kept. */
  lemma RefreshSpec(d: Disk, env: Env, instancesDir: Option<string>, outputDir: Option<string>, cwd: string,
                    norm: Path -> string, now: DateTime)
    requires RefreshOf(d, env, instancesDir, outputDir, cwd, norm, now).error.None?
    ensures var unique := DedupBy(Id, Present(SearchPaths(instancesDir, outputDir, cwd)));
      var all := GatherOf(d, unique, FindIn(d, env, now)).all;
      var r := RefreshOf(d, env, instancesDir, outputDir, cwd, norm, now);
      && DistinctKeys(PathKey(norm), r.instances)
      && r.instances == Firsts(PathKey(norm), all)
      && (forall x :: x in r.instances ==> x in all)
      && (forall x :: x in all ==> exists y :: y in r.instances && norm(y.path) == norm(x.path))
      && r.searched == Filter(ExistsText(d), unique)
  {
    var unique := DedupBy(Id, Present(SearchPaths(instancesDir, outputDir, cwd)));
    var all := GatherOf(d, unique, FindIn(d, env, now)).all;
    DedupByIsFirsts(PathKey(norm), all);
    forall x | x in all ensures exists y :: y in DedupBy(PathKey(norm), all) && norm(y.path) == norm(x.path) {
      DedupByCovers(PathKey(norm), all, x);
      var y :| y in DedupBy(PathKey(norm), all) && PathKey(norm)(y) == PathKey(norm)(x);
    }
    GatherSearched(d, unique, FindIn(d, env, now));
  }

  /** One record of the batch: it is kept exactly when its key has not been seen. */
  lemma AddNewStep(key: ServerInstance -> string, all: seq<ServerInstance>, batch: seq<ServerInstance>, j: nat,
                   found: seq<ServerInstance>, seen: set<string>)
    requires j < |batch| && found == DedupBy(key, all + batch[..j])
    requires forall k :: k in seen <==> KeyIn(key, k, found)
    ensures key(batch[j]) in seen ==> found == DedupBy(key, all + batch[..j + 1])
    ensures key(batch[j]) !in seen ==> found + [batch[j]] == DedupBy(key, all + batch[..j + 1])
    ensures key(batch[j]) !in seen ==> forall k :: k in seen + {key(batch[j])} <==> KeyIn(key, k, found + [batch[j]])
  {
    var x := batch[j];
    assert all + batch[..j + 1] == (all + batch[..j]) + [x];
    DedupBySnoc(key, all + batch[..j], x);
    forall k ensures KeyIn(key, k, found + [x]) <==> KeyIn(key, k, found) || key(x) == k {
      KeyInSnoc(key, k, found, x);
    }
  }

  /** Adding one scanned batch to the list, skipping records whose key was seen before. */
  method AddNew(key: ServerInstance -> string, found: seq<ServerInstance>, seen: set<string>,
                batch: seq<ServerInstance>, ghost all: seq<ServerInstance>)
    returns (found': seq<ServerInstance>, seen': set<string>)
    requires found == DedupBy(key, all)
    requires forall k :: k in seen <==> KeyIn(key, k, found)
    ensures found' == DedupBy(key, all + batch)
    ensures forall k :: k in seen' <==> KeyIn(key, k, found')
  {
    found', seen' := found, seen;
    assert all + batch[..0] == all;
    for j := 0 to |batch|
      invariant found' == DedupBy(key, all + batch[..j])
      invariant forall k :: k in seen' <==> KeyIn(key, k, found')
    {
      AddNewStep(key, all, batch, j, found', seen');
      var x := batch[j];
      if key(x) !in seen' {
        found' := found' + [x];
        seen' := seen' + {key(x)};
      }
    }
    assert batch[..|batch|] == batch;
  }

  /** The scan loop of `refresh_instances`, deduplicating by normalised path as it goes. */
  method GatherInstances(d: Disk, env: Env, unique: seq<string>, norm: Path -> string, now: DateTime)
    returns (found: seq<ServerInstance>, searchedPaths: seq<string>, error: Option<Error>)
    ensures var g := GatherOf(d, unique, FindIn(d, env, now));
      && error == g.error
      && (error.None? ==> found == DedupBy(PathKey(norm), g.all) && searchedPaths == g.searched)
  {
    var key := PathKey(norm);
    var seen: set<string> := {};
    found, searchedPaths := [], [];
    ghost var all: seq<ServerInstance> := [];
    for i := 0 to |unique|
      invariant GatherOf(d, unique[..i], FindIn(d, env, now)) == Gather(all, searchedPaths, None)
      invariant found == DedupBy(key, all)
      invariant forall k :: k in seen <==> KeyIn(key, k, found)
    {
      assert unique[..i + 1][..i] == unique[..i];
      var p := unique[i];
      if Exists(d, ParsePath(p)) {
        var batch := FindInstancesInDirectory(d, env, ParsePath(p), now);
        if batch.Err? {
          GatherStops(d, unique, i + 1, FindIn(d, env, now));
          return found, searchedPaths, Some(batch.error);
        }
        found, seen := AddNew(key, found, seen, batch.value, all);
        all := all + batch.value;
        searchedPaths := searchedPaths + [p];
      }
    }
    assert unique[..|unique|] == unique;
    error := None;
  }

  // ----- grouping by template -----

  /** The template names of the records, in order. */
  function Names(xs: seq<ServerInstance>): (r: seq<string>)
    ensures |r| == |xs| && forall i :: 0 <= i < |xs| ==> r[i] == xs[i].templateName
    decreases |xs|
  {
    if xs == [] then [] else Names(xs[..|xs| - 1]) + [xs[|xs| - 1].templateName]
  }

  /** The template names in order of first appearance, the order of the grouping dict. */
  function TemplateOrder(xs: seq<ServerInstance>): seq<string> {
    DedupBy(Id, Names(xs))
  }

  /** `template_groups` */
  function GroupsOf(xs: seq<ServerInstance>): (g: map<string, seq<ServerInstance>>)
    ensures forall k :: k in g <==> k in Names(xs)
    decreases |xs|
  {
    if xs == [] then map[]
    else
      var n := |xs| - 1;
      var g := GroupsOf(xs[..n]);
      var x := xs[n];
      assert Names(xs) == Names(xs[..n]) + [x.templateName];
      if x.templateName in g then g[x.templateName := g[x.templateName] + [x]] else g[x.templateName := [x]]
  }

  function ByTemplate(k: string): ServerInstance -> bool {
    (x: ServerInstance) => x.templateName == k
  }

  /** Each group holds exactly the records of its template, in order; so every record is in
      exactly the group of its own template. */
  lemma {:induction false} GroupsSpec(xs: seq<ServerInstance>, k: string)
    requires k in GroupsOf(xs)
    ensures GroupsOf(xs)[k] == Filter(ByTemplate(k), xs)
    decreases |xs|
  {
    var n := |xs| - 1;
    var x := xs[n];
    FilterLast(xs, k);
    if k in GroupsOf(xs[..n]) {
      GroupsSpec(xs[..n], k);
    } else {
      assert k == x.templateName;
      NoneOfTemplate(xs[..n], k);
    }
  }

  /** The filter of a non-empty sequence of records, split at its last record. */
  lemma FilterLast(xs: seq<ServerInstance>, k: string)
    requires xs != []
    ensures var n := |xs| - 1;
      Filter(ByTemplate(k), xs) == Filter(ByTemplate(k), xs[..n]) + if xs[n].templateName == k then [xs[n]] else []
  {
    var n := |xs| - 1;
    assert xs == xs[..n] + [xs[n]];
    FilterAppend(ByTemplate(k), xs[..n], [xs[n]]);
    assert [xs[n]][1..] == [];
  }

  lemma NoneOfTemplate(xs: seq<ServerInstance>, k: string)
    requires k !in Names(xs)
    ensures Filter(ByTemplate(k), xs) == []
  {
  }

  lemma GroupsSnoc(xs: seq<ServerInstance>, x: ServerInstance)
    ensures Names(xs + [x]) == Names(xs) + [x.templateName]
    ensures var g := GroupsOf(xs);
      GroupsOf(xs + [x]) == if x.templateName in g then g[x.templateName := g[x.templateName] + [x]] else g[x.templateName := [x]]
  {
    assert (xs + [x])[..|xs|] == xs;
  }

  /** One record added: a known template keeps its place in the order, a new one goes last. */
  lemma GroupStep(xs: seq<ServerInstance>, i: nat)
    requires i < |xs|
    ensures var g := GroupsOf(xs[..i]); var k := xs[i].templateName;
      GroupsOf(xs[..i + 1]) == (if k in g then g[k := g[k] + [xs[i]]] else g[k := [xs[i]]])
    ensures var k := xs[i].templateName;
      TemplateOrder(xs[..i + 1]) == if k in GroupsOf(xs[..i]) then TemplateOrder(xs[..i]) else TemplateOrder(xs[..i]) + [k]
  {
    assert xs[..i + 1] == xs[..i] + [xs[i]];
    GroupsSnoc(xs[..i], xs[i]);
    DedupIdSnoc(Names(xs[..i]), xs[i].templateName);
    DedupIdDistinct(Names(xs[..i]));
  }

  /** The order lists each group's template once. */
  lemma OrderSpec(xs: seq<ServerInstance>)
    ensures Distinct(TemplateOrder(xs))
    ensures forall k :: k in TemplateOrder(xs) <==> k in GroupsOf(xs)
  {
    DedupIdDistinct(Names(xs));
  }

  /** The method that builds the groups and the order of their keys. */
  method GroupByTemplate(xs: seq<ServerInstance>) returns (groups: map<string, seq<ServerInstance>>, order: seq<string>)
    ensures groups == GroupsOf(xs) && order == TemplateOrder(xs)
  {
    groups, order := map[], [];
    for i := 0 to |xs|
      invariant groups == GroupsOf(xs[..i]) && order == TemplateOrder(xs[..i])
    {
      GroupStep(xs, i);
      var name := xs[i].templateName;
      if name in groups {
        groups := groups[name := groups[name] + [xs[i]]];
      } else {
        groups := groups[name := [xs[i]]];
        order := order + [name];
      }
    }
    assert xs[..|xs|] == xs;
  }

  function GroupSize(g: map<string, seq<ServerInstance>>, k: string): nat {
    if k in g then |g[k]| else 0
  }

  /** The lines of the confirmation message: each template with its number of records. */
  function Lines(g: map<string, seq<ServerInstance>>, order: seq<string>): seq<(string, nat)> {
    if order == [] then [] else [(order[0], GroupSize(g, order[0]))] + Lines(g, order[1..])
  }

  function Total(lines: seq<(string, nat)>): nat {
    if lines == [] then 0 else lines[0].1 + Total(lines[1..])
  }

  lemma {:induction false} LinesAgree(g: map<string, seq<ServerInstance>>, h: map<string, seq<ServerInstance>>, order: seq<string>)
    requires forall i :: 0 <= i < |order| ==> GroupSize(g, order[i]) == GroupSize(h, order[i])
    ensures Lines(g, order) == Lines(h, order)
  {
    if order != [] {
      LinesAgree(g, h, order[1..]);
    }
  }

  lemma {:induction false} TotalSnoc(g: map<string, seq<ServerInstance>>, order: seq<string>, k: string)
    ensures Total(Lines(g, order + [k])) == Total(Lines(g, order)) + GroupSize(g, k)
  {
    if order == [] {
      assert order + [k] == [k];
    } else {
      assert (order + [k])[1..] == order[1..] + [k];
      TotalSnoc(g, order[1..], k);
    }
  }

  lemma {:induction false} TotalBump(g: map<string, seq<ServerInstance>>, order: seq<string>, k: string, x: ServerInstance)
    requires Distinct(order) && k in order && k in g
    ensures Total(Lines(g[k := g[k] + [x]], order)) == Total(Lines(g, order)) + 1
  {
    DistinctTail(order);
    if order[0] == k {
      LinesAgree(g, g[k := g[k] + [x]], order[1..]);
    } else {
      TotalBump(g, order[1..], k, x);
    }
  }

  /** The group sizes in the confirmation message add up to the number of records. */
  lemma {:induction false} GroupTotals(xs: seq<ServerInstance>)
    ensures Total(Lines(GroupsOf(xs), TemplateOrder(xs))) == |xs|
    decreases |xs|
  {
    if xs != [] {
      var n := |xs| - 1;
      var x := xs[n];
      GroupTotals(xs[..n]);
      var g := GroupsOf(xs[..n]);
      var order := TemplateOrder(xs[..n]);
      GroupStep(xs, n);
      assert xs[..n + 1] == xs;
      OrderSpec(xs[..n]);
      TotalAdd(g, order, x.templateName, x);
    }
  }

  /** Adding a record to its group, or a new group at the end of the order, adds one. */
  lemma TotalAdd(g: map<string, seq<ServerInstance>>, order: seq<string>, k: string, x: ServerInstance)
    requires Distinct(order) && forall q :: q in order <==> q in g
    ensures k in g ==> Total(Lines(g[k := g[k] + [x]], order)) == Total(Lines(g, order)) + 1
    ensures k !in g ==> Total(Lines(g[k := [x]], order + [k])) == Total(Lines(g, order)) + 1
  {
    if k in g {
      TotalBump(g, order, k, x);
    } else {
      var h := g[k := [x]];
      LinesAgree(g, h, order);
      TotalSnoc(h, order, k);
    }
  }

  // ----- bulk update -----

  /** What the run needs from outside: the cancel button, polled before instance `i`; the
      clock and the archive sizes for instance `i`; and `str(e)`. */
  datatype Session = Session(cancel: nat -> bool, backupTime: nat -> DateTime, backupSize: nat -> nat,
                             now: nat -> DateTime, describe: Error -> string)

  /** Updating instance `i` on the current disk and backup store. */
  type Updater = (Disk, BackupManager.Store, ServerInstance, nat) -> TemplateManager.UpdateOutcome

  /** `update_instance_from_template(x)`, with the default `dry_run=False`. */
  function UpdateWith(env: Env, root: Path, config: TemplateManager.Config, s: Session): Updater {
    (disk: Disk, store: BackupManager.Store, x: ServerInstance, i: nat) =>
      TemplateManager.UpdateOf(disk, env, root, store, config, x, false, s.backupTime(i), s.backupSize(i), s.now(i))
  }

  lemma UpdateWithApply(env: Env, root: Path, config: TemplateManager.Config, s: Session,
                        d: Disk, store: BackupManager.Store, x: ServerInstance, i: nat)
    ensures UpdateWith(env, root, config, s)(d, store, x, i)
         == TemplateManager.UpdateOf(d, env, root, store, config, x, false, s.backupTime(i), s.backupSize(i), s.now(i))
  {
  }

  /** The state of the bulk update: the disk and the backup store it threads, the outcome of
      each instance processed, the counters, the failure lines, the collected file results
      and whether the run was cancelled. */
  datatype Bulk = Bulk(disk: Disk, store: BackupManager.Store, outcomes: seq<Result<ProvisionResult>>,
                       updated: nat, failed: nat, failures: seq<string>, fileResults: seq<FileResult>,
                       cancelled: bool)

  /** Taking in the outcome of one instance; any exception is caught and counted. */
  function Absorb(b: Bulk, x: ServerInstance, out: TemplateManager.UpdateOutcome, describe: Error -> string): Bulk {
    match out.result
    case Ok(r) =>
      b.(disk := out.disk, store := out.store, outcomes := b.outcomes + [out.result],
         updated := b.updated + 1, fileResults := b.fileResults + r.processedFiles)
    case Err(e) =>
      b.(disk := out.disk, store := out.store, outcomes := b.outcomes + [out.result],
         failed := b.failed + 1, failures := b.failures + [x.name + ": " + describe(e)])
  }

  /** The loop of `bulk_update_instances` over the records `xs`. */
  function BulkOf(d: Disk, store: BackupManager.Store, xs: seq<ServerInstance>, update: Updater, s: Session): Bulk
    decreases |xs|
  {
    if xs == [] then Bulk(d, store, [], 0, 0, [], [], false)
    else
      var n := |xs| - 1;
      var b := BulkOf(d, store, xs[..n], update, s);
      if b.cancelled then b
      else if s.cancel(n) then b.(cancelled := true)
      else Absorb(b, xs[n], update(b.disk, b.store, xs[n], n), s.describe)
  }

  /** The successful outcomes' file results, in order. */
  function SuccessFiles(os: seq<Result<ProvisionResult>>): seq<seq<FileResult>> {
    if os == [] then []
    else
      var n := |os| - 1;
      SuccessFiles(os[..n]) + (if os[n].Ok? then [os[n].value.processedFiles] else [])
  }

  /** The failure lines for the outcomes of `xs`, in order. */
  function FailureLines(xs: seq<ServerInstance>, os: seq<Result<ProvisionResult>>, describe: Error -> string): seq<string>
    requires |os| <= |xs|
  {
    if os == [] then []
    else
      var n := |os| - 1;
      FailureLines(xs, os[..n], describe) + (if os[n].Err? then [xs[n].name + ": " + describe(os[n].error)] else [])
  }

  function Successes(os: seq<Result<ProvisionResult>>): nat {
    if os == [] then 0 else Successes(os[..|os| - 1]) + (if os[|os| - 1].Ok? then 1 else 0)
  }

  lemma {:induction false} FailureLinesPrefix(xs: seq<ServerInstance>, n: nat, os: seq<Result<ProvisionResult>>,
                                              describe: Error -> string)
    requires |os| <= n <= |xs|
    ensures FailureLines(xs[..n], os, describe) == FailureLines(xs, os, describe)
  {
    if os != [] {
      FailureLinesPrefix(xs, n, os[..|os| - 1], describe);
    }
  }

  /** The run stops exactly before the first instance for which cancel is pressed, a failure
      does not stop it, every processed instance is counted once as updated or failed, the
      failure lines name the failed instances in order, and the file results are those of the
      successful updates, concatenated in order. */
  lemma BulkSpec(d: Disk, store: BackupManager.Store, xs: seq<ServerInstance>, update: Updater, s: Session)
    ensures var b := BulkOf(d, store, xs, update, s);
      && |b.outcomes| <= |xs|
      && (forall i :: 0 <= i < |b.outcomes| ==> !s.cancel(i))
      && (b.cancelled <==> |b.outcomes| < |xs|)
      && (b.cancelled ==> s.cancel(|b.outcomes|))
      && b.updated + b.failed == |b.outcomes|
      && b.updated == Successes(b.outcomes)
      && b.failures == FailureLines(xs, b.outcomes, s.describe)
      && |b.failures| == b.failed
      && b.fileResults == Concat(SuccessFiles(b.outcomes))
  {
    BulkShape(d, store, xs, update, s);
    BulkTallies(d, store, xs, update, s);
  }

  /** Instance `i` is processed exactly when cancel was not pressed before it or any
      earlier instance. */
  lemma {:induction false} BulkShape(d: Disk, store: BackupManager.Store, xs: seq<ServerInstance>, update: Updater, s: Session)
    ensures var b := BulkOf(d, store, xs, update, s);
      && |b.outcomes| <= |xs|
      && (forall i :: 0 <= i < |b.outcomes| ==> !s.cancel(i))
      && (b.cancelled <==> |b.outcomes| < |xs|)
      && (b.cancelled ==> s.cancel(|b.outcomes|))
    decreases |xs|
  {
    if xs != [] {
      var n := |xs| - 1;
      BulkShape(d, store, xs[..n], update, s);
    }
  }

  /** The counters, the failure lines and the file results of the outcomes so far. */
  predicate Tallied(xs: seq<ServerInstance>, b: Bulk, describe: Error -> string) {
    && |b.outcomes| <= |xs|
    && b.updated + b.failed == |b.outcomes|
    && b.updated == Successes(b.outcomes)
    && b.failures == FailureLines(xs, b.outcomes, describe)
    && |b.failures| == b.failed
    && b.fileResults == Concat(SuccessFiles(b.outcomes))
  }

  lemma {:induction false} BulkTallies(d: Disk, store: BackupManager.Store, xs: seq<ServerInstance>, update: Updater, s: Session)
    ensures Tallied(xs, BulkOf(d, store, xs, update, s), s.describe)
    decreases |xs|
  {
    if xs != [] {
      var n := |xs| - 1;
      var b := BulkOf(d, store, xs[..n], update, s);
      BulkTallies(d, store, xs[..n], update, s);
      TalliedWiden(xs, n, b, s.describe);
      if b.cancelled {
        assert BulkOf(d, store, xs, update, s) == b;
      } else if s.cancel(n) {
        TalliedCancel(xs, b, s.describe);
        assert BulkOf(d, store, xs, update, s) == b.(cancelled := true);
      } else {
        BulkShape(d, store, xs[..n], update, s);
        var out := update(b.disk, b.store, xs[n], n);
        AbsorbTallies(xs, b, out, s.describe);
        assert BulkOf(d, store, xs, update, s) == Absorb(b, xs[n], out, s.describe);
      }
    }
  }

  /** The tallies of a prefix of the records hold for all of them. */
  lemma TalliedWiden(xs: seq<ServerInstance>, n: nat, b: Bulk, describe: Error -> string)
    requires n <= |xs| && Tallied(xs[..n], b, describe)
    ensures Tallied(xs, b, describe)
  {
    FailureLinesPrefix(xs, n, b.outcomes, describe);
  }

  /** Cancelling changes no tally. */
  lemma TalliedCancel(xs: seq<ServerInstance>, b: Bulk, describe: Error -> string)
    requires Tallied(xs, b, describe)
    ensures Tallied(xs, b.(cancelled := true), describe)
  {
  }

  /** Taking in the outcome of the next instance keeps the tallies. */
  lemma AbsorbTallies(xs: seq<ServerInstance>, b: Bulk, out: TemplateManager.UpdateOutcome, describe: Error -> string)
    requires |b.outcomes| < |xs| && Tallied(xs, b, describe)
    ensures Tallied(xs, Absorb(b, xs[|b.outcomes|], out, describe), describe)
  {
    var c := Absorb(b, xs[|b.outcomes|], out, describe);
    OutcomesSnoc(xs, b.outcomes, out.result, describe);
    assert c.outcomes == b.outcomes + [out.result];
    if out.result.Ok? {
      var parts := SuccessFiles(b.outcomes);
      var q := out.result.value.processedFiles;
      assert SuccessFiles(c.outcomes) == parts + [q];
      assert (parts + [q])[..|parts|] == parts;
      assert Concat(parts + [q]) == Concat(parts) + q;
      assert c.fileResults == Concat(SuccessFiles(c.outcomes));
    } else {
      assert SuccessFiles(c.outcomes) == SuccessFiles(b.outcomes);
    }
  }

  /** The tallies of one more outcome. */
  lemma OutcomesSnoc(xs: seq<ServerInstance>, os: seq<Result<ProvisionResult>>, o: Result<ProvisionResult>,
                     describe: Error -> string)
    requires |os| < |xs|
    ensures SuccessFiles(os + [o]) == SuccessFiles(os) + (if o.Ok? then [o.value.processedFiles] else [])
    ensures Successes(os + [o]) == Successes(os) + (if o.Ok? then 1 else 0)
    ensures FailureLines(xs, os + [o], describe) ==
      FailureLines(xs, os, describe) + (if o.Err? then [xs[|os|].name + ": " + describe(o.error)] else [])
  {
    assert (os + [o])[..|os|] == os;
  }

  /** Once the run is cancelled, the further instances change nothing. */
  lemma {:induction false} BulkStops(d: Disk, store: BackupManager.Store, xs: seq<ServerInstance>, k: nat,
                                     update: Updater, s: Session)
    requires k <= |xs| && BulkOf(d, store, xs[..k], update, s).cancelled
    ensures BulkOf(d, store, xs, update, s) == BulkOf(d, store, xs[..k], update, s)
    decreases |xs|
  {
    if k < |xs| {
      var n := |xs| - 1;
      assert xs[..n][..k] == xs[..k];
      BulkStops(d, store, xs[..n], k, update, s);
    } else {
      assert xs[..k] == xs;
    }
  }

  /** The body of the loop: one update, its exception caught. */
  method UpdateOne(b: Bulk, env: Env, root: Path, config: TemplateManager.Config, x: ServerInstance, i: nat, s: Session)
    returns (c: Bulk)
    ensures c == Absorb(b, x, UpdateWith(env, root, config, s)(b.disk, b.store, x, i), s.describe)
  {
    var out := TemplateManager.UpdateInstanceFromTemplate(b.disk, env, root, b.store, config, x, false,
                                                           s.backupTime(i), s.backupSize(i), s.now(i));
    UpdateWithApply(env, root, config, s, b.disk, b.store, x, i);
    if out.result.Ok? {
      c := b.(disk := out.disk, store := out.store, outcomes := b.outcomes + [out.result],
              updated := b.updated + 1, fileResults := b.fileResults + out.result.value.processedFiles);
    } else {
      c := b.(disk := out.disk, store := out.store, outcomes := b.outcomes + [out.result],
              failed := b.failed + 1, failures := b.failures + [x.name + ": " + s.describe(out.result.error)]);
    }
  }

  /** The loop over the instances, polling cancel before each. */
  method RunBulk(d: Disk, env: Env, root: Path, store: BackupManager.Store, config: TemplateManager.Config,
                 xs: seq<ServerInstance>, s: Session)
    returns (b: Bulk)
    ensures b == BulkOf(d, store, xs, UpdateWith(env, root, config, s), s)
  {
    ghost var update := UpdateWith(env, root, config, s);
    b := Bulk(d, store, [], 0, 0, [], [], false);
    var i := 0;
    while i < |xs|
      invariant 0 <= i <= |xs|
      invariant b == BulkOf(d, store, xs[..i], update, s) && !b.cancelled
    {
      assert xs[..i + 1][..i] == xs[..i];
      if s.cancel(i) {
        b := b.(cancelled := true);
        BulkStops(d, store, xs, i + 1, update, s);
        return;
      }
      b := UpdateOne(b, env, root, config, xs[i], i, s);
      i := i + 1;
    }
    assert xs[..i] == xs;
  }

  // ----- the error summary -----

  /** The line that stands for the failures not shown: "... 및 N개 더". */
  function MoreLine(n: nat): string {
    "... \U{BC0F} " + NatToString(n) + "\U{AC1C} \U{B354}"
  }

  /** The failure lines shown after a partial failure: the first five, then a line with the
      number of the others when there are more than five. */
  function ErrorDetails(failures: seq<string>): string {
    if |failures| <= 5 then Join("\n", failures)
    else Join("\n", failures[..5]) + "\n" + MoreLine(|failures| - 5)
  }

  /** Read back line by line, the summary lists the first five failures and, when there are
      more, one further line whose number is the count of those not shown. */
  lemma ErrorDetailsLines(failures: seq<string>)
    requires |failures| > 0
    requires forall i :: 0 <= i < |failures| ==> '\n' !in failures[i]
    ensures |failures| <= 5 ==> Split(ErrorDetails(failures), '\n') == failures
    ensures |failures| > 5 ==> Split(ErrorDetails(failures), '\n') == failures[..5] + [MoreLine(|failures| - 5)]
    ensures |failures| > 5 ==> ParseInt(NatToString(|failures| - 5)) == Some(|failures| - 5)
  {
    if |failures| <= 5 {
      ErrorDetailsShort(failures);
    } else {
      ErrorDetailsLong(failures);
    }
  }

  lemma ErrorDetailsShort(failures: seq<string>)
    requires 0 < |failures| <= 5
    requires forall i :: 0 <= i < |failures| ==> '\n' !in failures[i]
    ensures Split(ErrorDetails(failures), '\n') == failures
  {
    SplitJoinInverse(failures, '\n');
  }

  lemma ErrorDetailsLong(failures: seq<string>)
    requires |failures| > 5
    requires forall i :: 0 <= i < |failures| ==> '\n' !in failures[i]
    ensures Split(ErrorDetails(failures), '\n') == failures[..5] + [MoreLine(|failures| - 5)]
    ensures ParseInt(NatToString(|failures| - 5)) == Some(|failures| - 5)
  {
    ParseIntOfNat(|failures| - 5);
    var more := MoreLine(|failures| - 5);
    var parts := failures[..5] + [more];
    JoinAppend("\n", failures[..5], [more]);
    assert Join("\n", [more]) == more;
    assert Join("\n", parts) == ErrorDetails(failures);
    MoreLineOneLine(|failures| - 5);
    forall i | 0 <= i < |parts| ensures '\n' !in parts[i] {
      if i < 5 {
        assert parts[i] == failures[i];
      }
    }
    SplitJoinInverse(parts, '\n');
  }

  lemma MoreLineOneLine(n: nat)
    ensures '\n' !in MoreLine(n)
  {
    var t := NatToString(n);
    assert forall i :: 0 <= i < |t| ==> IsDigit(t[i]);
  }

  // ----- the widget -----

  /** The list of instances shown, the state of the bulk-update button and the paths the
      information label lists as searched. */
  class InstanceManagerWidget {
    var instances: seq<ServerInstance>
    var bulkEnabled: bool
    var searched: seq<string>

    constructor()
      ensures instances == [] && !bulkEnabled && searched == []
    {
      instances, bulkEnabled, searched := [], false, [];
    }

    /** `refresh_instances()`: the list is cleared first; a scan that raises leaves it empty
        and the button and label as they were. */
    method RefreshInstances(d: Disk, env: Env, instancesDir: Option<string>, outputDir: Option<string>,
                            cwd: string, norm: Path -> string, now: DateTime)
      returns (error: Option<Error>)
      modifies this
      ensures var r := RefreshOf(d, env, instancesDir, outputDir, cwd, norm, now);
        && instances == r.instances && error == r.error
        && (error.None? ==> bulkEnabled == (|instances| > 0) && searched == r.searched)
        && (error.Some? ==> bulkEnabled == old(bulkEnabled) && searched == old(searched))
    {
      instances := [];
      var unique := UniqueSearchPaths(SearchPaths(instancesDir, outputDir, cwd));
      var found, searchedPaths;
      found, searchedPaths, error := GatherInstances(d, env, unique, norm, now);
      if error.Some? {
        return;
      }
      instances := found;
      bulkEnabled := |instances| > 0;
      searched := searchedPaths;
    }

    /** `bulk_update_instances()`: nothing happens without records or without the user's
        consent to the confirmation lines; otherwise the loop runs and the list is refreshed
        from the disk it leaves behind. */
    method BulkUpdateInstances(d: Disk, env: Env, root: Path, store: BackupManager.Store,
                               config: TemplateManager.Config, s: Session,
                               confirm: seq<(string, nat)> -> bool,
                               instancesDir: Option<string>, outputDir: Option<string>, cwd: string,
                               norm: Path -> string, refreshTime: DateTime)
      returns (run: Option<Bulk>, refreshError: Option<Error>)
      modifies this
      ensures old(instances) == [] ==> run.None? && refreshError.None? && unchanged(this)
      ensures (old(instances) != [] && !confirm(Lines(GroupsOf(old(instances)), TemplateOrder(old(instances)))))
                ==> run.None? && refreshError.None? && unchanged(this)
      ensures (old(instances) != [] && confirm(Lines(GroupsOf(old(instances)), TemplateOrder(old(instances)))))
                ==> (&& run == Some(BulkOf(d, store, old(instances), UpdateWith(env, root, config, s), s))
                     && var r := RefreshOf(run.value.disk, env, instancesDir, outputDir, cwd, norm, refreshTime);
                        && instances == r.instances && refreshError == r.error
                        && (r.error.None? ==> bulkEnabled == (|instances| > 0) && searched == r.searched)
                        && (r.error.Some? ==> bulkEnabled == old(bulkEnabled) && searched == old(searched)))
    {
      if instances == [] {
        return None, None;
      }
      var groups, order := GroupByTemplate(instances);
      if !confirm(Lines(groups, order)) {
        return None, None;
      }
      var b := RunBulk(d, env, root, store, config, instances, s);
      run := Some(b);
      refreshError := RefreshInstances(b.disk, env, instancesDir, outputDir, cwd, norm, refreshTime);
    }
  }
}

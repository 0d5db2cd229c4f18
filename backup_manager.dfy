/** The backup directory: zip archives named `<instance>_<YYYYmmdd_HHMMSS>.zip`, each holding
    an instance's files and a `backup_info.json` record; listing newest first, pruning to
    `max_backups`, deletion, total size and restoring into a directory. */
module BackupManager {
  import opened Wrappers
  import opened Strings
  import opened Sequences
  import opened Values
  import opened DateTimes
  import opened FileSystem
  import opened InstanceModel

  const InfoName: Name := "backup_info.json"
  const ZipSuffix: string := ".zip"
  const RestoreRoot: string := "instances"

  /** An archive member: its relative path and its content. */
  datatype Member = Member(name: Path, content: File)
  datatype Archive = Archive(members: seq<Member>)

  /** A file of the backup directory; `archive` is `None` when it is not a readable zip file.
      `size` and `created` are what `os.stat` reports. */
  datatype StoredBackup = StoredBackup(filename: string, archive: Option<Archive>, size: nat, created: DateTime)

  /** The backup directory, in the order `os.listdir` lists it. */
  type Store = seq<StoredBackup>

  /** A dictionary of `list_backups()`; size and created are kept beside the other keys. */
  datatype BackupEntry = BackupEntry(filename: string, info: map<string, Value>, size: nat, created: DateTime)

  /** `os.path.join(dir, name)` */
  function JoinPath(dir: string, name: string): string {
    if dir == "" then name else dir + "/" + name
  }

  // ----- naming -----

  /** The archive name `create_backup` chooses at time `now`. */
  function ArchiveName(instanceName: string, now: DateTime): (f: string)
    ensures StartsWith(f, instanceName + "_")
    ensures EndsWith(f, ZipSuffix)
  {
    var f := instanceName + "_" + BackupStamp(now) + ZipSuffix;
    assert f[|f| - 4..] == ZipSuffix;
    f
  }

  /** The instance name and date `list_backups` recovers from an archive name when the
      archive has no `backup_info.json`: all but the last two `_`-separated parts of the name
      without ".zip", and those last two parts. */
  function ParseArchiveName(f: string): Option<(string, string)> {
    var parts := Split(RemoveAll(f, ZipSuffix), '_');
    if |parts| >= 3 then
      Some((Join("_", parts[..|parts| - 2]), Join("_", parts[|parts| - 2..])))
    else None
  }

  /** The name filter of `list_backups`. */
  predicate Matches(f: string, filter: Option<string>) {
    EndsWith(f, ZipSuffix) && (filter.None? || StartsWith(f, filter.value + "_"))
  }

  /** Parsing the name of an archive gives back the instance name and the stamp, provided the
      instance name does not itself contain ".zip". */
  lemma ArchiveNameParses(name: string, now: DateTime)
    requires !Contains(name, ZipSuffix)
    ensures ParseArchiveName(ArchiveName(name, now)) == Some((name, BackupStamp(now)))
  {
    var stamp := BackupStamp(now);
    StripSuffix(name, stamp);
    var date, time := stamp[..8], stamp[9..];
    StampParts(stamp);
    SplitBody(name, date, time);
    var parts := Split(name + "_" + stamp, '_');
    assert parts[..|parts| - 2] == Split(name, '_');
    assert parts[|parts| - 2..] == [date, time];
    SplitJoin(name, '_');
    assert Join("_", [date, time]) == date + "_" + Join("_", [time]);
  }

  lemma StripSuffix(name: string, stamp: string)
    requires !Contains(name, ZipSuffix)
    requires |stamp| == 15 && stamp[8] == '_'
    requires forall i :: 0 <= i < 15 && i != 8 ==> IsDigit(stamp[i])
    ensures RemoveAll(name + "_" + stamp + ZipSuffix, ZipSuffix) == name + "_" + stamp
  {
    var body := name + "_" + stamp;
    var f := body + ZipSuffix;
    NoSuffixInBody(name, stamp);
    RemoveAllKeepsPrefix(f, ZipSuffix, |body|);
    assert f[..|body|] == body && f[|body|..] == ZipSuffix;
    RemoveAllExact(ZipSuffix);
  }

  /** A stamp is two underscore-free parts around its one underscore. */
  lemma StampParts(stamp: string)
    requires |stamp| == 15 && stamp[8] == '_'
    requires forall i :: 0 <= i < 15 && i != 8 ==> IsDigit(stamp[i])
    ensures stamp == stamp[..8] + "_" + stamp[9..]
    ensures '_' !in stamp[..8] && '_' !in stamp[9..]
  {
    forall i | 0 <= i < 8 ensures stamp[..8][i] != '_' {
      assert stamp[..8][i] == stamp[i];
    }
    forall i | 0 <= i < 6 ensures stamp[9..][i] != '_' {
      assert stamp[9..][i] == stamp[i + 9];
    }
  }

  lemma SplitBody(name: string, date: string, time: string)
    requires '_' !in date && '_' !in time
    ensures Split(name + "_" + (date + "_" + time), '_') == Split(name, '_') + [date, time]
  {
    assert name + "_" + (date + "_" + time) == (name + "_" + date) + ['_'] + time;
    SplitAppend(name + "_" + date, '_', time);
    SplitAppend(name, '_', date);
  }

  /** No ".zip" starts inside `name + "_" + stamp`. */
  lemma NoSuffixInBody(name: string, stamp: string)
    requires !Contains(name, ZipSuffix)
    requires |stamp| == 15 && stamp[8] == '_'
    requires forall i :: 0 <= i < 15 && i != 8 ==> IsDigit(stamp[i])
    ensures var f := name + "_" + stamp + ZipSuffix;
      forall i :: 0 <= i < |name + "_" + stamp| ==> !OccursAt(f, ZipSuffix, i)
  {
    var tail := "_" + stamp;
    var body := name + tail;
    var f := body + ZipSuffix;
    assert name + "_" + stamp == body;
    forall i | 0 <= i < |body| ensures !OccursAt(f, ZipSuffix, i) {
      if i + 4 <= |name| {
        assert f[i..i + 4] == name[i..i + 4];
        assert !OccursAt(name, ZipSuffix, i);
      } else if i + 3 < |body| {
        assert f[i + 3] == tail[i + 3 - |name|];
        assert tail[i + 3 - |name|] != 'p';
      } else {
        assert f[i] == tail[i - |name|];
        assert tail[i - |name|] != '.';
      }
    }
  }

  /** The prefix filter also lets through the backups of any instance whose name begins
      with the filtered name and an underscore. */
  lemma FilterAdmitsLongerNames(name: string, suffix: string, now: DateTime)
    ensures Matches(ArchiveName(name + "_" + suffix, now), Some(name))
  {
    var f := ArchiveName(name + "_" + suffix, now);
    assert f[..|name| + 1] == name + "_";
  }

  // ----- listing -----

  /** The last member called `name`: the one `ZipFile.read(name)` returns. */
  function LastMember(ms: seq<Member>, name: Path): (r: Option<File>)
    ensures r.Some? ==> exists i :: 0 <= i < |ms| && ms[i] == Member(name, r.value)
    ensures r.None? ==> forall i :: 0 <= i < |ms| ==> ms[i].name != name
  {
    if ms == [] then None
    else if ms[|ms| - 1].name == name then Some(ms[|ms| - 1].content)
    else LastMember(ms[..|ms| - 1], name)
  }

  /** The `backup_info.json` record of an archive, as `list_backups` merges it: a JSON object,
      or an error for anything else. */
  function ListInfo(a: Archive): Result<Option<map<string, Value>>> {
    match LastMember(a.members, [InfoName])
    case None => Ok(None)
    case Some(Doc(VObj(m))) => Ok(Some(m))
    case Some(Doc(_)) => Err(TypeError)
    case Some(Blob(_)) => Err(JsonDecodeError(InfoName))
  }

  /** The dictionary `list_backups` builds for one archive; `None` when reading it raises and
      it is skipped with a warning. */
  function EntryOf(dir: string, s: StoredBackup): (r: Option<BackupEntry>)
    ensures r.Some? ==> r.value.filename == s.filename && r.value.size == s.size && r.value.created == s.created
  {
    if s.archive.None? then None
    else match ListInfo(s.archive.value)
      case Err(_) => None
      case Ok(meta) =>
        var base := map["filename" := VStr(s.filename), "path" := VStr(JoinPath(dir, s.filename))];
        var info :=
          if meta.Some? then base + meta.value
          else match ParseArchiveName(s.filename)
            case Some((name, date)) => base["instance_name" := VStr(name)]["backup_date" := VStr(date)]
            case None => base;
        Some(BackupEntry(s.filename, info, s.size, s.created))
  }

  /** Whether `list_backups(filter)` includes the file. */
  predicate Listable(dir: string, s: StoredBackup, filter: Option<string>) {
    Matches(s.filename, filter) && EntryOf(dir, s).Some?
  }

  /** The entries of `list_backups(filter)` before sorting, in directory order. */
  function Listed(dir: string, store: Store, filter: Option<string>): (r: seq<BackupEntry>)
    ensures |r| <= |store|
  {
    if store == [] then []
    else
      var n := |store| - 1;
      Listed(dir, store[..n], filter)
      + (if Listable(dir, store[n], filter) then [EntryOf(dir, store[n]).value] else [])
  }

  /** Exactly the matching, readable archives are listed. */
  lemma {:induction false} ListedSpec(dir: string, store: Store, filter: Option<string>)
    ensures forall e :: e in Listed(dir, store, filter) ==>
      Matches(e.filename, filter) && exists s :: s in store && EntryOf(dir, s) == Some(e)
    ensures forall s :: s in store && Listable(dir, s, filter) ==> EntryOf(dir, s).value in Listed(dir, store, filter)
  {
    if store != [] {
      var n := |store| - 1;
      ListedSpec(dir, store[..n], filter);
      assert store == store[..n] + [store[n]];
      forall e | e in Listed(dir, store, filter)
        ensures exists s :: s in store && EntryOf(dir, s) == Some(e)
      {
        if e in Listed(dir, store[..n], filter) {
          var s :| s in store[..n] && EntryOf(dir, s) == Some(e);
          assert s in store;
        } else {
          assert EntryOf(dir, store[n]) == Some(e);
        }
      }
    }
  }

  lemma {:induction false} ListedFilenames(dir: string, store: Store, filter: Option<string>)
    requires DistinctFilenames(store)
    ensures DistinctNames(Listed(dir, store, filter))
    ensures forall e :: e in Listed(dir, store, filter) ==> exists s :: s in store && s.filename == e.filename
  {
    if store != [] {
      var n := |store| - 1;
      assert DistinctFilenames(store[..n]) by {
        forall i, j | 0 <= i < j < n ensures store[..n][i].filename != store[..n][j].filename {
          assert store[..n][i] == store[i] && store[..n][j] == store[j];
        }
      }
      ListedFilenames(dir, store[..n], filter);
      var l := Listed(dir, store[..n], filter);
      forall e | e in l ensures e.filename != store[n].filename {
        var s :| s in store[..n] && s.filename == e.filename;
        var k :| 0 <= k < n && store[..n][k] == s;
        assert store[k] == s;
      }
      forall e | e in Listed(dir, store, filter)
        ensures exists s :: s in store && s.filename == e.filename
      {
        if e in l {
          var s :| s in store[..n] && s.filename == e.filename;
          assert s in store;
        } else {
          assert store[n] in store;
        }
      }
      if Listable(dir, store[n], filter) {
        var e := EntryOf(dir, store[n]).value;
        var r := l + [e];
        forall i, j | 0 <= i < j < |r| ensures r[i].filename != r[j].filename {
          if j == |l| {
            assert r[i] in l;
          }
        }
      }
    }
  }

  predicate DistinctFilenames(store: Store) {
    forall i, j :: 0 <= i < j < |store| ==> store[i].filename != store[j].filename
  }

  predicate DistinctNames(es: seq<BackupEntry>) {
    forall i, j :: 0 <= i < j < |es| ==> es[i].filename != es[j].filename
  }

  /** Newest first: `created` never increases along the list. */
  predicate NewestFirst(es: seq<BackupEntry>) {
    forall i, j :: 0 <= i < j < |es| ==> Ordinal(es[j].created) <= Ordinal(es[i].created)
  }

  /** Insertion behind every entry at least as new: equal dates keep their listing order. */
  function InsertByAge(es: seq<BackupEntry>, e: BackupEntry): (r: seq<BackupEntry>)
    ensures |r| == |es| + 1
  {
    if es == [] then [e]
    else if Ordinal(es[0].created) < Ordinal(e.created) then [e] + es
    else [es[0]] + InsertByAge(es[1..], e)
  }

  /** Insertion adds exactly `e` and keeps a newest-first list newest first. */
  lemma {:induction false} InsertByAgeSpec(es: seq<BackupEntry>, e: BackupEntry)
    ensures forall x :: x in InsertByAge(es, e) <==> x in es || x == e
    ensures NewestFirst(es) ==> NewestFirst(InsertByAge(es, e))
  {
    if es != [] && Ordinal(es[0].created) >= Ordinal(e.created) {
      var t := InsertByAge(es[1..], e);
      InsertByAgeSpec(es[1..], e);
      assert InsertByAge(es, e) == [es[0]] + t;
      assert es == [es[0]] + es[1..];
      if NewestFirst(es) {
        assert NewestFirst(es[1..]) by {
          forall i, j | 0 <= i < j < |es[1..]| ensures Ordinal(es[1..][j].created) <= Ordinal(es[1..][i].created) {
            assert es[1..][i] == es[i + 1] && es[1..][j] == es[j + 1];
          }
        }
        forall j | 0 < j < |[es[0]] + t| ensures Ordinal(([es[0]] + t)[j].created) <= Ordinal(es[0].created) {
          assert ([es[0]] + t)[j] == t[j - 1];
          assert t[j - 1] in t;
          if t[j - 1] != e {
            var k :| 0 <= k < |es[1..]| && es[1..][k] == t[j - 1];
            assert es[k + 1] == t[j - 1];
          }
        }
      }
    }
  }

  /** `sort(key=created, reverse=True)`, a stable sort. */
  function SortNewestFirst(es: seq<BackupEntry>): (r: seq<BackupEntry>)
    ensures |r| == |es|
  {
    if es == [] then []
    else InsertByAge(SortNewestFirst(es[..|es| - 1]), es[|es| - 1])
  }

  /** The sorted list is newest first and holds exactly the listed entries. */
  lemma {:induction false} SortSpec(es: seq<BackupEntry>)
    ensures NewestFirst(SortNewestFirst(es))
    ensures forall x :: x in SortNewestFirst(es) <==> x in es
  {
    if es != [] {
      var n := |es| - 1;
      SortSpec(es[..n]);
      InsertByAgeSpec(SortNewestFirst(es[..n]), es[n]);
      assert es == es[..n] + [es[n]];
    }
  }

  lemma {:induction false} InsertByAgeMultiset(es: seq<BackupEntry>, e: BackupEntry)
    ensures multiset(InsertByAge(es, e)) == multiset(es) + multiset{e}
  {
    if es != [] && Ordinal(es[0].created) >= Ordinal(e.created) {
      InsertByAgeMultiset(es[1..], e);
      assert es == [es[0]] + es[1..];
    }
  }

  /** The sorted list is a permutation of the listed entries. */
  lemma {:induction false} SortIsPermutation(es: seq<BackupEntry>)
    ensures multiset(SortNewestFirst(es)) == multiset(es)
  {
    if es != [] {
      var n := |es| - 1;
      var sorted := SortNewestFirst(es[..n]);
      SortIsPermutation(es[..n]);
      InsertByAgeMultiset(sorted, es[n]);
      assert SortNewestFirst(es) == InsertByAge(sorted, es[n]);
      MultisetLast(es);
    }
  }

  /** The test "created at ordinal `o`". */
  function DatedAt(o: int): BackupEntry -> bool {
    (x: BackupEntry) => Ordinal(x.created) == o
  }

  /** Inserting into a newest-first list puts `e` behind every entry of its own date. */
  lemma {:induction false} InsertByAgeStable(es: seq<BackupEntry>, e: BackupEntry, o: int)
    requires NewestFirst(es)
    ensures Filter(DatedAt(o), InsertByAge(es, e))
            == Filter(DatedAt(o), es) + (if Ordinal(e.created) == o then [e] else [])
  {
    if es == [] {
      assert InsertByAge(es, e) == [e];
      assert [e][1..] == [];
    } else if Ordinal(es[0].created) < Ordinal(e.created) {
      assert InsertByAge(es, e) == [e] + es;
      InsertInFrontStable(es, e, o);
    } else {
      NewestFirstTail(es);
      InsertByAgeStable(es[1..], e, o);
      InsertBehindStable(es, e, o);
    }
  }

  lemma {:induction false} InsertInFrontStable(es: seq<BackupEntry>, e: BackupEntry, o: int)
    requires NewestFirst(es) && es != [] && Ordinal(es[0].created) < Ordinal(e.created)
    ensures Filter(DatedAt(o), [e] + es)
            == Filter(DatedAt(o), es) + (if Ordinal(e.created) == o then [e] else [])
  {
    var p := DatedAt(o);
    assert ([e] + es)[1..] == es;
    if Ordinal(e.created) == o {
      forall i | 0 <= i < |es| ensures !p(es[i]) {
        assert Ordinal(es[i].created) <= Ordinal(es[0].created);
      }
      NoneKept(p, es);
    }
  }

  lemma {:induction false} InsertBehindStable(es: seq<BackupEntry>, e: BackupEntry, o: int)
    requires es != [] && Ordinal(es[0].created) >= Ordinal(e.created)
    requires Filter(DatedAt(o), InsertByAge(es[1..], e))
             == Filter(DatedAt(o), es[1..]) + (if Ordinal(e.created) == o then [e] else [])
    ensures Filter(DatedAt(o), InsertByAge(es, e))
            == Filter(DatedAt(o), es) + (if Ordinal(e.created) == o then [e] else [])
  {
    var p := DatedAt(o);
    var u := InsertByAge(es[1..], e);
    var tail := if Ordinal(e.created) == o then [e] else [];
    assert es == [es[0]] + es[1..];
    calc {
      Filter(p, InsertByAge(es, e));
      Filter(p, [es[0]] + u);
      { FilterAppend(p, [es[0]], u); }
      Filter(p, [es[0]]) + Filter(p, u);
      Filter(p, [es[0]]) + (Filter(p, es[1..]) + tail);
      (Filter(p, [es[0]]) + Filter(p, es[1..])) + tail;
      { FilterAppend(p, [es[0]], es[1..]); }
      Filter(p, es) + tail;
    }
  }

  lemma {:induction false} NewestFirstTail(es: seq<BackupEntry>)
    requires NewestFirst(es) && es != []
    ensures NewestFirst(es[1..])
  {
    var rest := es[1..];
    forall i, j | 0 <= i < j < |rest| ensures Ordinal(rest[j].created) <= Ordinal(rest[i].created) {
      assert rest[i] == es[i + 1] && rest[j] == es[j + 1];
    }
  }

  /** The sort is stable: for every date, the entries of that date keep their listing order. */
  lemma {:induction false} SortStable(es: seq<BackupEntry>, o: int)
    ensures Filter(DatedAt(o), SortNewestFirst(es)) == Filter(DatedAt(o), es)
  {
    if es != [] {
      var n := |es| - 1;
      var p := DatedAt(o);
      SortStable(es[..n], o);
      SortSpec(es[..n]);
      InsertByAgeStable(SortNewestFirst(es[..n]), es[n], o);
      assert es == es[..n] + [es[n]];
      FilterAppend(p, es[..n], [es[n]]);
      assert [es[n]][1..] == [];
      assert Filter(p, [es[n]]) == if p(es[n]) then [es[n]] else [];
    }
  }

  lemma {:induction false} InsertByAgeDistinct(es: seq<BackupEntry>, e: BackupEntry)
    requires DistinctNames(es)
    requires forall x :: x in es ==> x.filename != e.filename
    ensures DistinctNames(InsertByAge(es, e))
  {
    if es == [] {
    } else if Ordinal(es[0].created) < Ordinal(e.created) {
      ConsDistinctNames(e, es);
    } else {
      var rest := es[1..];
      DistinctNamesTail(es);
      InsertByAgeDistinct(rest, e);
      InsertByAgeSpec(rest, e);
      var u := InsertByAge(rest, e);
      assert es[0] in es;
      ConsDistinctNames(es[0], u);
    }
  }

  lemma ConsDistinctNames(h: BackupEntry, u: seq<BackupEntry>)
    requires DistinctNames(u) && forall x :: x in u ==> x.filename != h.filename
    ensures DistinctNames([h] + u)
  {
    var t := [h] + u;
    forall i, j | 0 <= i < j < |t| ensures t[i].filename != t[j].filename {
      assert t[j] == u[j - 1];
      if i > 0 {
        assert t[i] == u[i - 1];
      } else {
        assert u[j - 1] in u;
      }
    }
  }

  lemma DistinctNamesTail(es: seq<BackupEntry>)
    requires DistinctNames(es) && es != []
    ensures DistinctNames(es[1..])
    ensures forall x :: x in es[1..] ==> x.filename != es[0].filename
  {
    var rest := es[1..];
    forall i, j | 0 <= i < j < |rest| ensures rest[i].filename != rest[j].filename {
      assert rest[i] == es[i + 1] && rest[j] == es[j + 1];
    }
    forall x | x in rest ensures x.filename != es[0].filename {
      var k :| 0 <= k < |rest| && rest[k] == x;
      assert es[k + 1] == x;
    }
  }

  lemma {:induction false} SortDistinct(es: seq<BackupEntry>)
    requires DistinctNames(es)
    ensures DistinctNames(SortNewestFirst(es))
  {
    if es != [] {
      var n := |es| - 1;
      assert DistinctNames(es[..n]) by {
        forall i, j | 0 <= i < j < n ensures es[..n][i].filename != es[..n][j].filename {
          assert es[..n][i] == es[i] && es[..n][j] == es[j];
        }
      }
      SortDistinct(es[..n]);
      SortSpec(es[..n]);
      forall x | x in SortNewestFirst(es[..n]) ensures x.filename != es[n].filename {
        var k :| 0 <= k < n && es[..n][k] == x;
        assert es[k] == x;
      }
      InsertByAgeDistinct(SortNewestFirst(es[..n]), es[n]);
    }
  }

  /** The spec of `list_backups(filter)`. */
  function ListBackupsOf(dir: string, store: Store, filter: Option<string>): seq<BackupEntry> {
    SortNewestFirst(Listed(dir, store, filter))
  }

  /** One more file of the directory: it is listed after the others when it is listable. */
  lemma ListedStep(dir: string, store: Store, filter: Option<string>, i: nat)
    requires i < |store|
    ensures Listed(dir, store[..i + 1], filter)
      == Listed(dir, store[..i], filter) + if Listable(dir, store[i], filter) then [EntryOf(dir, store[i]).value] else []
  {
    assert store[..i + 1][..i] == store[..i];
  }

  /** `list_backups(filter)`: the matching readable archives, newest first. */
  method ListBackups(dir: string, store: Store, filter: Option<string>) returns (backups: seq<BackupEntry>)
    ensures backups == ListBackupsOf(dir, store, filter)
  {
    backups := [];
    var i := 0;
    while i < |store|
      invariant 0 <= i <= |store|
      invariant backups == Listed(dir, store[..i], filter)
    {
      var file := store[i];
      ListedStep(dir, store, filter, i);
      if EndsWith(file.filename, ZipSuffix) && (filter.None? || StartsWith(file.filename, filter.value + "_")) {
        var entry := EntryOf(dir, file);
        if entry.Some? {
          backups := backups + [entry.value];
        }
      }
      i := i + 1;
    }
    assert store[..i] == store;
    backups := SortNewestFirst(backups);
  }

  // ----- deletion and pruning -----

  /** The directory without the files named in `names`. */
  function RemoveNames(store: Store, names: set<string>): (r: Store)
    ensures forall s :: s in r <==> s in store && s.filename !in names
  {
    if store == [] then []
    else (if store[0].filename in names then [] else [store[0]]) + RemoveNames(store[1..], names)
  }

  lemma {:induction false} RemoveNamesStep(store: Store, names: set<string>, f: string)
    ensures RemoveNames(RemoveNames(store, names), {f}) == RemoveNames(store, names + {f})
  {
    if store != [] {
      RemoveNamesStep(store[1..], names, f);
      var h := if store[0].filename in names then [] else [store[0]];
      RemoveNamesAppend(h, RemoveNames(store[1..], names), {f});
    }
  }

  lemma {:induction false} RemoveNamesAppend(a: Store, b: Store, names: set<string>)
    ensures RemoveNames(a + b, names) == RemoveNames(a, names) + RemoveNames(b, names)
  {
    if a == [] {
      assert a + b == b;
    } else {
      assert (a + b)[1..] == a[1..] + b;
      RemoveNamesAppend(a[1..], b, names);
    }
  }

  lemma {:induction false} RemoveNoNames(store: Store)
    ensures RemoveNames(store, {}) == store
  {
    if store != [] {
      RemoveNoNames(store[1..]);
    }
  }

  predicate Present(store: Store, f: string) {
    exists i :: 0 <= i < |store| && store[i].filename == f
  }

  /** `delete_backup(path)`: removes the file, or only warns when there is none. */
  function DeleteBackup(store: Store, f: string): (r: Store)
    ensures !Present(store, f) ==> r == store
    ensures forall s :: s in r <==> s in store && s.filename != f
  {
    if Present(store, f) then RemoveNames(store, {f}) else store
  }

  lemma {:induction false} RemoveAbsentName(store: Store, f: string)
    requires !Present(store, f)
    ensures RemoveNames(store, {f}) == store
  {
    if store != [] {
      assert store[0].filename != f;
      assert !Present(store[1..], f) by {
        forall i | 0 <= i < |store[1..]| ensures store[1..][i].filename != f {
          assert store[1..][i] == store[i + 1];
        }
      }
      RemoveAbsentName(store[1..], f);
    }
  }

  function Filenames(es: seq<BackupEntry>): set<string> {
    set e | e in es :: e.filename
  }

  /** The spec of `_cleanup_old_backups(name)`: when more than `max` backups of the instance
      are listed, the files of all but the first `max` are deleted. */
  function CleanupOf(dir: string, store: Store, name: string, max: int): Store {
    var backups := ListBackupsOf(dir, store, Some(name));
    if |backups| > max then RemoveNames(store, Filenames(SliceFrom(backups, max))) else store
  }

  /** Deleting the next listed file extends the set of removed names by its name. */
  lemma DeleteStep(store: Store, toRemove: seq<BackupEntry>, i: nat)
    requires i < |toRemove|
    ensures var r := RemoveNames(store, Filenames(toRemove[..i]));
      DeleteBackup(r, toRemove[i].filename) == RemoveNames(store, Filenames(toRemove[..i + 1]))
  {
    var f := toRemove[i].filename;
    var r := RemoveNames(store, Filenames(toRemove[..i]));
    if !Present(r, f) {
      RemoveAbsentName(r, f);
    }
    RemoveNamesStep(store, Filenames(toRemove[..i]), f);
    assert Filenames(toRemove[..i + 1]) == Filenames(toRemove[..i]) + {f} by {
      assert toRemove[..i + 1] == toRemove[..i] + [toRemove[i]];
    }
  }

  /** `_cleanup_old_backups(name)` */
  method Cleanup(dir: string, store: Store, name: string, max: int) returns (r: Store)
    ensures r == CleanupOf(dir, store, name, max)
  {
    var backups := ListBackups(dir, store, Some(name));
    r := store;
    if |backups| > max {
      var toRemove := SliceFrom(backups, max);
      var i := 0;
      RemoveNoNames(store);
      assert Filenames(toRemove[..0]) == {};
      while i < |toRemove|
        invariant 0 <= i <= |toRemove|
        invariant r == RemoveNames(store, Filenames(toRemove[..i]))
      {
        var f := toRemove[i].filename;
        DeleteStep(store, toRemove, i);
        r := DeleteBackup(r, f);
        i := i + 1;
      }
      assert toRemove[..i] == toRemove;
    }
  }

  /** Pruning keeps every file except the listed backups after the first `max`, and with
      at most `max` listed it keeps everything. */
  lemma CleanupDeletes(dir: string, store: Store, name: string, max: int)
    ensures var backups := ListBackupsOf(dir, store, Some(name));
      forall s :: s in CleanupOf(dir, store, name, max) <==>
        s in store && !(|backups| > max && s.filename in Filenames(SliceFrom(backups, max)))
    ensures |ListBackupsOf(dir, store, Some(name))| <= max ==> CleanupOf(dir, store, name, max) == store
  {
  }

  /** Pruning twice is pruning once: the second run lists exactly `max` backups. */
  lemma CleanupIdempotent(dir: string, store: Store, name: string, max: int)
    requires max >= 0 && DistinctFilenames(store)
    ensures CleanupOf(dir, CleanupOf(dir, store, name, max), name, max) == CleanupOf(dir, store, name, max)
  {
    var l := Listed(dir, store, Some(name));
    var backups := SortNewestFirst(l);
    if |backups| > max {
      var removed := Filenames(SliceFrom(backups, max));
      var pruned := RemoveNames(store, removed);
      ListedRemoveNames(dir, store, Some(name), removed);
      ListedFilenames(dir, store, Some(name));
      SortDistinct(l);
      KeptCount(backups, max, removed);
      SortIsPermutation(l);
      FilterPermutationSize(Keeps(removed), backups, l);
      assert |Listed(dir, pruned, Some(name))| == max;
    }
  }

  /** The entries whose file is not among `names`, as a filter. */
  function Keeps(names: set<string>): (BackupEntry -> bool) {
    (e: BackupEntry) => e.filename !in names
  }

  /** Listing a directory without some files is filtering the listing. */
  lemma {:induction false} ListedRemoveNames(dir: string, store: Store, filter: Option<string>, names: set<string>)
    ensures Listed(dir, RemoveNames(store, names), filter) == Filter(Keeps(names), Listed(dir, store, filter))
    decreases |store|
  {
    if store != [] {
      var n := |store| - 1;
      assert store == store[..n] + [store[n]];
      RemoveNamesAppend(store[..n], [store[n]], names);
      var a := RemoveNames(store[..n], names);
      var b := RemoveNames([store[n]], names);
      ListedAppend(dir, a, b, filter);
      ListedRemoveNames(dir, store[..n], filter, names);
      var last := if Listable(dir, store[n], filter) then [EntryOf(dir, store[n]).value] else [];
      FilterAppend(Keeps(names), Listed(dir, store[..n], filter), last);
      ListedRemoveOne(dir, store[n], filter, names);
    }
  }

  lemma ListedRemoveOne(dir: string, s: StoredBackup, filter: Option<string>, names: set<string>)
    ensures Listed(dir, RemoveNames([s], names), filter)
      == Filter(Keeps(names), if Listable(dir, s, filter) then [EntryOf(dir, s).value] else [])
  {
    var b := RemoveNames([s], names);
    assert [s][0] == s && [s][1..] == [];
    assert RemoveNames([], names) == [];
    if s.filename in names {
      assert b == [];
    } else {
      assert b == [s];
      assert b[..0] == [];
    }
  }

  lemma {:induction false} ListedAppend(dir: string, a: Store, b: Store, filter: Option<string>)
    ensures Listed(dir, a + b, filter) == Listed(dir, a, filter) + Listed(dir, b, filter)
    decreases |b|
  {
    if b == [] {
      assert a + b == a;
    } else {
      var n := |b| - 1;
      assert (a + b)[..|a + b| - 1] == a + b[..n];
      ListedAppend(dir, a, b[..n], filter);
    }
  }

  /** Of a list of distinct names, filtering out the names after position `max` keeps
      exactly the first `max`. */
  lemma KeptCount(es: seq<BackupEntry>, max: nat, removed: set<string>)
    requires DistinctNames(es) && |es| > max && removed == Filenames(SliceFrom(es, max))
    ensures |Filter(Keeps(removed), es)| == max
  {
    var p := Keeps(removed);
    assert es == es[..max] + es[max..];
    FilterAppend(p, es[..max], es[max..]);
    FirstsKept(es, max, removed);
    AllKept(p, es[..max]);
    NoneKept(p, es[max..]);
  }

  /** With distinct names, none of the first `max` entries has a removed name. */
  lemma FirstsKept(es: seq<BackupEntry>, max: nat, removed: set<string>)
    requires DistinctNames(es) && |es| > max && removed == Filenames(es[max..])
    ensures forall i :: 0 <= i < |es[..max]| ==> Keeps(removed)(es[..max][i])
  {
    forall i | 0 <= i < max ensures Keeps(removed)(es[..max][i]) {
      assert es[..max][i] == es[i];
      forall e | e in es[max..] ensures e.filename != es[i].filename {
        var k :| 0 <= k < |es[max..]| && es[max..][k] == e;
        assert es[max + k] == e;
      }
    }
  }

  lemma {:induction false} AllKept<T>(p: T -> bool, s: seq<T>)
    requires forall i :: 0 <= i < |s| ==> p(s[i])
    ensures Filter(p, s) == s
  {
    if s != [] {
      AllKept(p, s[1..]);
    }
  }

  lemma {:induction false} NoneKept<T>(p: T -> bool, s: seq<T>)
    requires forall i :: 0 <= i < |s| ==> !p(s[i])
    ensures Filter(p, s) == []
  {
    if s != [] {
      NoneKept(p, s[1..]);
    }
  }

  // ----- size -----

  function Size(e: BackupEntry): nat {
    e.size
  }

  /** `get_backup_size(filter)`: the sum of the listed sizes. */
  method BackupSize(dir: string, store: Store, filter: Option<string>) returns (total: nat)
    ensures total == SumOf(Size, Listed(dir, store, filter))
  {
    var backups := ListBackups(dir, store, filter);
    total := 0;
    var i := 0;
    while i < |backups|
      invariant 0 <= i <= |backups|
      invariant total == SumOf(Size, backups[..i])
    {
      SumOfAppend(Size, backups[..i], [backups[i]]);
      assert backups[..i + 1] == backups[..i] + [backups[i]];
      total := total + backups[i].size;
      i := i + 1;
    }
    assert backups[..i] == backups;
    SortKeepsSum(Listed(dir, store, filter));
  }

  lemma {:induction false} InsertKeepsSum(es: seq<BackupEntry>, e: BackupEntry)
    ensures SumOf(Size, InsertByAge(es, e)) == SumOf(Size, es) + e.size
  {
    if es != [] && Ordinal(es[0].created) >= Ordinal(e.created) {
      InsertKeepsSum(es[1..], e);
    }
  }

  /** Sorting does not change the total. */
  lemma {:induction false} SortKeepsSum(es: seq<BackupEntry>)
    ensures SumOf(Size, SortNewestFirst(es)) == SumOf(Size, es)
  {
    if es != [] {
      var n := |es| - 1;
      var a := SortNewestFirst(es[..n]);
      calc {
        SumOf(Size, SortNewestFirst(es));
        SumOf(Size, InsertByAge(a, es[n]));
        { InsertKeepsSum(a, es[n]); }
        SumOf(Size, a) + es[n].size;
        { SortKeepsSum(es[..n]); }
        SumOf(Size, es[..n]) + es[n].size;
        { assert SumOf(Size, [es[n]]) == es[n].size;
          SumOfAppend(Size, es[..n], [es[n]]);
          assert es[..n] + [es[n]] == es; }
        SumOf(Size, es);
      }
    }
  }

  // ----- creating a backup -----

  /** The `backup_info.json` record `create_backup` writes. */
  function BackupInfo(x: ServerInstance, stamp: string, description: string): map<string, Value> {
    map[
      "instance_name" := VStr(x.name),
      "template_name" := VStr(x.templateName),
      "backup_date" := VStr(stamp),
      "description" := VStr(description),
      "original_path" := VStr(PathText(x.path))]
  }

  /** The archive members for the instance files, read one after the other. */
  function ArchiveMembers(d: Disk, root: Path, files: seq<Path>): Result<seq<Member>> {
    if files == [] then Ok([])
    else
      var n := |files| - 1;
      var init :- ArchiveMembers(d, root, files[..n]);
      var content :- ReadFile(d, root + files[n]);
      Ok(init + [Member(files[n], content)])
  }

  /** Archiving fails exactly when some file cannot be read; otherwise each file is a member,
      in order, under its relative path. */
  lemma {:induction false} ArchiveMembersSpec(d: Disk, root: Path, files: seq<Path>)
    ensures ArchiveMembers(d, root, files).Ok? <==> forall i :: 0 <= i < |files| ==> ReadFile(d, root + files[i]).Ok?
    ensures ArchiveMembers(d, root, files).Ok? ==>
      var ms := ArchiveMembers(d, root, files).value;
      |ms| == |files| && forall i :: 0 <= i < |files| ==> ms[i] == Member(files[i], d.files[root + files[i]])
  {
    if files != [] {
      var n := |files| - 1;
      ArchiveMembersSpec(d, root, files[..n]);
      assert forall i :: 0 <= i < n ==> files[..n][i] == files[i];
    }
  }

  /** Writing archive `b` into the directory: it replaces a file of the same name. */
  function Put(store: Store, b: StoredBackup): (r: Store)
    ensures Present(r, b.filename)
    ensures forall s :: s in r <==> s == b || (s in store && s.filename != b.filename)
  {
    if Present(store, b.filename) then
      var r := seq(|store|, i requires 0 <= i < |store| => if store[i].filename == b.filename then b else store[i]);
      assert forall s :: s in r <==> s == b || (s in store && s.filename != b.filename) by {
        forall s ensures s in r <==> s == b || (s in store && s.filename != b.filename) {
          if s in store && s.filename != b.filename {
            var k :| 0 <= k < |store| && store[k] == s;
            assert r[k] == s;
          }
          if s == b {
            var k :| 0 <= k < |store| && store[k].filename == b.filename;
            assert r[k] == b;
          }
        }
      }
      r
    else
      var r := store + [b];
      assert r[|store|] == b;
      r
  }

  /** What `create_backup` leaves in the backup directory, and what it returns or raises. */
  datatype BackupOutcome = BackupOutcome(store: Store, path: Result<string>)

  /** The spec of `create_backup(x, description)` at time `now`; the new file's size is what
      the operating system reports. On failure the partial archive is removed and the error
      re-raised; pruning follows only a successful write. */
  function CreateBackupOf(d: Disk, env: Env, store: Store, dir: string, max: int, x: ServerInstance,
                          description: string, now: DateTime, size: nat): BackupOutcome
  {
    var f := ArchiveName(x.name, now);
    match ArchiveMembers(d, x.path, WalkFiles(Walk(env, x.path)))
    case Err(e) => BackupOutcome(DeleteBackup(store, f), Err(e))
    case Ok(ms) =>
      var archive := Archive(ms + [Member([InfoName], Doc(VObj(BackupInfo(x, BackupStamp(now), description))))]);
      var written := Put(store, StoredBackup(f, Some(archive), size, now));
      BackupOutcome(CleanupOf(dir, written, x.name, max), Ok(JoinPath(dir, f)))
  }

  /** `create_backup(x, description)` */
  method CreateBackup(d: Disk, env: Env, store: Store, dir: string, max: int, x: ServerInstance,
                      description: string, now: DateTime, size: nat) returns (out: BackupOutcome)
    ensures out == CreateBackupOf(d, env, store, dir, max, x, description, now, size)
  {
    var stamp := BackupStamp(now);
    var backupName := x.name + "_" + stamp + ZipSuffix;
    assert backupName == ArchiveName(x.name, now);
    var files := WalkFiles(Walk(env, x.path));
    var members: seq<Member> := [];
    var i := 0;
    while i < |files|
      invariant 0 <= i <= |files|
      invariant ArchiveMembers(d, x.path, files[..i]) == Ok(members)
    {
      assert files[..i + 1][..i] == files[..i];
      var content := ReadFile(d, x.path + files[i]);
      if content.Err? {
        ArchiveMembersFail(d, x.path, files, i + 1);
        return BackupOutcome(DeleteBackup(store, backupName), Err(content.error));
      }
      members := members + [Member(files[i], content.value)];
      i := i + 1;
    }
    assert files[..i] == files;
    var info := BackupInfo(x, stamp, description);
    var archive := Archive(members + [Member([InfoName], Doc(VObj(info)))]);
    var written := Put(store, StoredBackup(backupName, Some(archive), size, now));
    var pruned := Cleanup(dir, written, x.name, max);
    return BackupOutcome(pruned, Ok(JoinPath(dir, backupName)));
  }

  lemma {:induction false} ArchiveMembersFail(d: Disk, root: Path, files: seq<Path>, k: nat)
    requires 0 < k <= |files| && ArchiveMembers(d, root, files[..k]).Err?
    ensures ArchiveMembers(d, root, files) == ArchiveMembers(d, root, files[..k])
    decreases |files|
  {
    if k < |files| {
      var n := |files| - 1;
      assert files[..n][..k] == files[..k];
      ArchiveMembersFail(d, root, files[..n], k);
    } else {
      assert files[..k] == files;
    }
  }

  /** A failed backup raises, leaves no archive of its name and prunes nothing. */
  lemma CreateBackupFailure(d: Disk, env: Env, store: Store, dir: string, max: int, x: ServerInstance,
                            description: string, now: DateTime, size: nat)
    requires exists i :: 0 <= i < |WalkFiles(Walk(env, x.path))| && ReadFile(d, x.path + WalkFiles(Walk(env, x.path))[i]).Err?
    ensures var out := CreateBackupOf(d, env, store, dir, max, x, description, now, size);
      && out.path.Err?
      && forall s :: s in out.store <==> s in store && s.filename != ArchiveName(x.name, now)
  {
    ArchiveMembersSpec(d, x.path, WalkFiles(Walk(env, x.path)));
  }

  /** A successful backup returns the archive's path. */
  lemma CreateBackupSuccess(d: Disk, env: Env, store: Store, dir: string, max: int, x: ServerInstance,
                            description: string, now: DateTime, size: nat)
    requires forall i :: 0 <= i < |WalkFiles(Walk(env, x.path))| ==> ReadFile(d, x.path + WalkFiles(Walk(env, x.path))[i]).Ok?
    ensures CreateBackupOf(d, env, store, dir, max, x, description, now, size).path == Ok(JoinPath(dir, ArchiveName(x.name, now)))
  {
    ArchiveMembersSpec(d, x.path, WalkFiles(Walk(env, x.path)));
  }

  /** The new archive holds every instance file under its relative path and, last, the
      backup record, which is what listing it reads. */
  lemma NewArchiveContents(d: Disk, root: Path, files: seq<Path>, info: map<string, Value>)
    requires forall i :: 0 <= i < |files| ==> ReadFile(d, root + files[i]).Ok?
    ensures ArchiveMembers(d, root, files).Ok?
    ensures var ms := ArchiveMembers(d, root, files).value;
      && |ms| == |files|
      && (forall i :: 0 <= i < |files| ==> root + files[i] in d.files && ms[i] == Member(files[i], d.files[root + files[i]]))
      && ListInfo(Archive(ms + [Member([InfoName], Doc(VObj(info)))])) == Ok(Some(info))
  {
    ArchiveMembersSpec(d, root, files);
    forall i | 0 <= i < |files| ensures root + files[i] in d.files {
      assert ReadFile(d, root + files[i]).Ok?;
    }
  }

  // ----- restoring -----

  /** The first file of the directory with that name. */
  function FindBackup(store: Store, f: string): (r: Option<StoredBackup>)
    ensures r.Some? <==> Present(store, f)
    ensures r.Some? ==> r.value in store && r.value.filename == f
  {
    if store == [] then None
    else if store[0].filename == f then Some(store[0])
    else
      var r := FindBackup(store[1..], f);
      assert Present(store, f) ==> Present(store[1..], f) by {
        if Present(store, f) {
          var k :| 0 <= k < |store| && store[k].filename == f;
          assert store[1..][k - 1] == store[k];
        }
      }
      assert Present(store[1..], f) ==> Present(store, f) by {
        if Present(store[1..], f) {
          var k :| 0 <= k < |store[1..]| && store[1..][k].filename == f;
          assert store[k + 1] == store[1..][k];
        }
      }
      r
  }

  /** The record `restore_backup` reads: any JSON value. */
  function RestoreInfo(a: Archive): Result<Option<Value>> {
    match LastMember(a.members, [InfoName])
    case None => Ok(None)
    case Some(Doc(v)) => Ok(Some(v))
    case Some(Blob(_)) => Err(JsonDecodeError(InfoName))
  }

  /** `instances/<file name without .zip>` */
  function DefaultTarget(filename: string): string {
    JoinPath(RestoreRoot, RemoveAll(filename, ZipSuffix))
  }

  /** The directory `restore_backup` restores into: the explicit argument, else the record's
      `original_path`, else `instances/<file name without .zip>`.  A record lookup that
      Python rejects (`in` on a number, indexing a list or a string) is a TypeError. */
  function RestoreTarget(explicit: Option<string>, info: Option<Value>, filename: string): (r: Result<string>)
    ensures explicit.Some? ==> r == Ok(explicit.value)
    ensures explicit.None? && info.Some? && info.value.VObj? && "original_path" in info.value.fields ==>
      (info.value.fields["original_path"].VStr? ==> r == Ok(info.value.fields["original_path"].s))
    ensures explicit.None? && (info.None? || (info.value.VObj? && "original_path" !in info.value.fields))
      ==> r == Ok(DefaultTarget(filename))
  {
    if explicit.Some? then Ok(explicit.value)
    else if info.Some? && Truthy(info.value) then
      match info.value
      case VObj(m) =>
        if "original_path" in m then
          (if m["original_path"].VStr? then Ok(m["original_path"].s) else Err(TypeError))
        else Ok(DefaultTarget(filename))
      case VList(items) => if VStr("original_path") in items then Err(TypeError) else Ok(DefaultTarget(filename))
      case VStr(t) => if Contains(t, "original_path") then Err(TypeError) else Ok(DefaultTarget(filename))
      case _ => Err(TypeError)
    else Ok(DefaultTarget(filename))
  }

  /** `zipf.extract(member, root)`: creates the parent directories, then writes the file. */
  function ExtractMember(d: Disk, root: Path, m: Member): Result<Disk>
    requires |root| > 0
  {
    var up :- MakeDirs(d, Parent(root + m.name));
    WriteFile(up, root + m.name, m.content)
  }

  /** Extracts every member but `backup_info.json`, in order. */
  function ExtractAll(d: Disk, root: Path, ms: seq<Member>): Result<Disk>
    requires |root| > 0
  {
    if ms == [] then Ok(d)
    else
      var n := |ms| - 1;
      var d' :- ExtractAll(d, root, ms[..n]);
      if ms[n].name == [InfoName] then Ok(d') else ExtractMember(d', root, ms[n])
  }

  /** Where the extraction may write. */
  predicate ExtractTarget(root: Path, ms: seq<Member>, q: Path) {
    exists i :: 0 <= i < |ms| && ms[i].name != [InfoName] && q == root + ms[i].name
  }

  /** Extraction writes at member targets, and nowhere else. */
  lemma {:induction false} ExtractAllFrame(d: Disk, root: Path, ms: seq<Member>, q: Path)
    requires |root| > 0 && ExtractAll(d, root, ms).Ok? && !ExtractTarget(root, ms, q)
    ensures q in ExtractAll(d, root, ms).value.files <==> q in d.files
    ensures q in d.files ==> ExtractAll(d, root, ms).value.files[q] == d.files[q]
  {
    if ms != [] {
      var n := |ms| - 1;
      assert !ExtractTarget(root, ms[..n], q);
      ExtractAllFrame(d, root, ms[..n], q);
      if ms[n].name != [InfoName] {
        assert q != root + ms[n].name;
      }
    }
  }

  /** `backup_info.json` is never extracted: whatever the restore directory held under that
      name is what it holds afterwards. */
  lemma InfoNeverExtracted(d: Disk, root: Path, ms: seq<Member>)
    requires |root| > 0 && ExtractAll(d, root, ms).Ok?
    ensures root + [InfoName] in ExtractAll(d, root, ms).value.files <==> root + [InfoName] in d.files
  {
    forall i | 0 <= i < |ms| && ms[i].name != [InfoName] ensures root + [InfoName] != root + ms[i].name {
      assert (root + [InfoName])[|root|..] == [InfoName];
      assert (root + ms[i].name)[|root|..] == ms[i].name;
    }
    ExtractAllFrame(d, root, ms, root + [InfoName]);
  }

  /** What a restore leaves on disk and the record it returns (`None` when neither the files
      nor the backup record describe one). */
  datatype Restored = Restored(disk: Disk, instance: Option<ServerInstance>)

  /** The spec of `restore_backup(path, restore_path)` for the archive named `filename`. */
  function RestoreOf(d: Disk, store: Store, dir: string, filename: string, explicit: Option<string>, now: DateTime): Result<Restored> {
    var found := FindBackup(store, filename);
    if found.None? then Err(FileNotFound("Backup file not found: " + JoinPath(dir, filename)))
    else if found.value.archive.None? then Err(BadZipFile(JoinPath(dir, filename)))
    else
      var archive := found.value.archive.value;
      var info :- RestoreInfo(archive);
      var target :- RestoreTarget(explicit, info, filename);
      var root := ParsePath(target);
      var d1 :- MakeDirs(d, root);
      var d2 :- ExtractAll(d1, root, archive.members);
      var loaded :- LoadFromPath(d2, root, now);
      RecordFromInfo(d2, root, loaded, info, now)
  }

  /** When no instance record was restored, one is made from the backup record and saved. */
  function RecordFromInfo(d: Disk, root: Path, loaded: Option<ServerInstance>, info: Option<Value>, now: DateTime): Result<Restored> {
    if loaded.Some? then Ok(Restored(d, loaded))
    else if info.Some? && Truthy(info.value) then
      if !info.value.VObj? then Err(TypeError)
      else
        var name :- RequiredString(info.value.fields, "instance_name");
        var templateName :- RequiredString(info.value.fields, "template_name");
        var x := NewInstance(name, templateName, root, map[], now);
        var d3 :- SaveMetadata(d, x);
        Ok(Restored(d3, Some(x)))
    else Ok(Restored(d, None))
  }

  /** `restore_backup(path, restore_path)` */
  method RestoreBackup(d: Disk, store: Store, dir: string, filename: string, explicit: Option<string>, now: DateTime)
    returns (r: Result<Restored>)
    ensures r == RestoreOf(d, store, dir, filename, explicit, now)
  {
    var found := FindBackup(store, filename);
    if found.None? {
      return Err(FileNotFound("Backup file not found: " + JoinPath(dir, filename)));
    }
    if found.value.archive.None? {
      return Err(BadZipFile(JoinPath(dir, filename)));
    }
    var archive := found.value.archive.value;
    var info := RestoreInfo(archive);
    if info.Err? {
      return Err(info.error);
    }
    var target := RestoreTarget(explicit, info.value, filename);
    if target.Err? {
      return Err(target.error);
    }
    var root := ParsePath(target.value);
    var made := MakeDirs(d, root);
    if made.Err? {
      return Err(made.error);
    }
    var disk := made.value;
    var ms := archive.members;
    var i := 0;
    while i < |ms|
      invariant 0 <= i <= |ms|
      invariant ExtractAll(made.value, root, ms[..i]) == Ok(disk)
    {
      ExtractAdvance(made.value, root, ms, i, disk);
      if ms[i].name != [InfoName] {
        var step := ExtractMember(disk, root, ms[i]);
        if step.Err? {
          return Err(step.error);
        }
        disk := step.value;
      }
      i := i + 1;
    }
    assert ms[..i] == ms;
    var loaded := LoadFromPath(disk, root, now);
    if loaded.Err? {
      return Err(loaded.error);
    }
    r := RecordFromInfo(disk, root, loaded.value, info.value, now);
  }

  /** One more member after a good prefix: the info file is skipped, any other member is
      extracted, and a failed extraction ends the whole extraction. */
  lemma ExtractAdvance(d: Disk, root: Path, ms: seq<Member>, i: nat, disk: Disk)
    requires |root| > 0 && i < |ms| && ExtractAll(d, root, ms[..i]) == Ok(disk)
    ensures ms[i].name == [InfoName] ==> ExtractAll(d, root, ms[..i + 1]) == Ok(disk)
    ensures ms[i].name != [InfoName] ==> ExtractAll(d, root, ms[..i + 1]) == ExtractMember(disk, root, ms[i])
    ensures ms[i].name != [InfoName] && ExtractMember(disk, root, ms[i]).Err? ==>
      ExtractAll(d, root, ms) == ExtractMember(disk, root, ms[i])
  {
    assert ms[..i + 1][..i] == ms[..i];
    if ms[i].name != [InfoName] && ExtractMember(disk, root, ms[i]).Err? {
      ExtractAllFail(d, root, ms, i + 1);
    }
  }

  lemma {:induction false} ExtractAllFail(d: Disk, root: Path, ms: seq<Member>, k: nat)
    requires |root| > 0 && 0 < k <= |ms| && ExtractAll(d, root, ms[..k]).Err?
    ensures ExtractAll(d, root, ms) == ExtractAll(d, root, ms[..k])
    decreases |ms|
  {
    if k < |ms| {
      var n := |ms| - 1;
      assert ms[..n][..k] == ms[..k];
      ExtractAllFail(d, root, ms[..n], k);
    } else {
      assert ms[..k] == ms;
    }
  }

  /** A missing archive raises FileNotFoundError and changes nothing. */
  lemma RestoreMissing(d: Disk, store: Store, dir: string, filename: string, explicit: Option<string>, now: DateTime)
    requires !Present(store, filename)
    ensures RestoreOf(d, store, dir, filename, explicit, now) == Err(FileNotFound("Backup file not found: " + JoinPath(dir, filename)))
  {
  }

  /** A backup this code made restores, by default, to the instance's own directory. */
  lemma BackupRestoresToOrigin(x: ServerInstance, ms: seq<Member>, stamp: string, description: string, filename: string)
    ensures var a := Archive(ms + [Member([InfoName], Doc(VObj(BackupInfo(x, stamp, description))))]);
      RestoreInfo(a).Ok? && RestoreTarget(None, RestoreInfo(a).value, filename) == Ok(PathText(x.path))
  {
  }
}

# dotwork server bootstrapper — a Dafny model of its core

The bootstrapper provisions game-server directories from templates. A template is a
directory with a descriptor, `template.yml` or else `template.yaml`, that gives the
template's name, description, version and variable declarations, beside the files to copy.
Creating an instance copies the template's files into a target directory, renders every text
file that holds a `{{ name }}` placeholder with the user's variables, writes the instance
record `.dotwork_instance.json`, and removes the half-built directory when anything fails.
Updating an instance walks the template again and reports per file one of three outcomes:
Unchanged when the destination's hash equals the template file's, Skipped on a dry run, and
otherwise Replaced after processing the file again. The hash is taken of the template file
itself, not of its rendering, so a rendered file is reported Replaced again on every update
that is not dry (`TemplateManager.RenderedIsReplacedAgain`). Before an update a zip backup of
the instance can be made; backups are named by a timestamp, listed newest first, pruned to a
maximum count, restored and sized.

This project models, in Dafny:

- the template manager (`TemplateManager`): template discovery, lookup, validation of the
  user's variables, instance creation with clean-up, the update decision table, and the update
  loop with the rows it reports;
- variable substitution (`Substitution`): the placeholder pattern, the placeholders a file or
  a directory holds, rendering of `{{ name }}` references, and the per-file processing rule
  (only files with a text extension are read as text; a text file without a placeholder is
  written back as the text it decoded to; a text file that does not decode, and every other
  file, is copied);
- the template descriptor (`TemplateModel`) and the instance record (`InstanceModel`): reading
  them from parsed YAML and JSON with their defaults and failures, and the round trip of the
  instance record through its dictionary form;
- the backup manager (`BackupManager`): archive names, listing and ordering, pruning, creation,
  restore and sizes;
- the logic of the result view (`ResultWidget`): the status filter, the search filter, the
  sorting order and the summary counters;
- the logic of the instance manager view (`InstanceManagerView`): the search paths, the scan of
  a directory for instances, the refresh, and the bulk update with its result lines.

A disk is a value (`FileSystem.Disk`) of files, directories and paths the process may not
touch. The backup directory is a separate value (`BackupManager.Store`), the list of its files
with their archives and `os.stat` data, and is not part of the disk. What the operating system
or a library decides and the model does not compute comes in as parameters: the entries of
directory listings and their order, the directories and file names `os.walk` yields and their
order (`FileSystem.Env`; nothing ties these entries to the disk), the result of YAML parsing,
the clock, file sizes, whether the user cancels or confirms, path normalisation and the text of
an exception. The widget classes whose fields the original updates in place are Dafny classes
(`ResultWidget.ResultsFilterProxy`, `ResultWidget.SummaryBar`,
`InstanceManagerView.InstanceManagerWidget`); loops of the original are methods proved
against the functions that specify them.

## Model

| member | source | states |
|---|---|---|
| TemplateManager.CheckEquals | core/template_manager.py:15-25 | the comparison succeeds exactly when both files can be read, and then it is true exactly when their contents are equal |
| TemplateManager.LoadedAt | core/template_manager.py:44-51 | an entry contributes exactly the template loaded from it when it is a directory that loads, and nothing otherwise |
| TemplateManager.DiscoverTemplates | core/template_manager.py:37-53 | the loop over the entries of the templates directory computes the discovery spec: a missing root is created and gives no templates, otherwise the loadable subdirectories give their templates in listing order |
| TemplateManager.DiscoverMissingRoot | core/template_manager.py:40-42 | a missing templates directory is created, no file changes, and the list is empty |
| TemplateManager.LoadedTemplatesSpec | core/template_manager.py:44-51 | every discovered template comes from a listed entry that loads, and every listed entry that loads contributes its template; entries that fail are skipped |
| TemplateManager.FirstNamed | core/template_manager.py:57-59 | the index found holds the name and no earlier template does; no index means no template has the name |
| TemplateManager.GetTemplateByName | core/template_manager.py:55-60 | a found template has the name asked for; a discovery error is passed through; the disk is the one discovery leaves |
| TemplateManager.GetTemplateByNameSpec | core/template_manager.py:55-60 | the lookup raises the "not found" ValueError exactly when no discovered template has the name; otherwise it returns the first one that does |
| TemplateManager.ValidateVariables | core/template_manager.py:193-215 | the loop over the declared variables returns exactly the errors of each variable, in declaration order |
| TemplateManager.VariableErrorsAtMostOne | core/template_manager.py:196-213 | one declared variable gives at most one error |
| TemplateManager.ValidationErrorsBound | core/template_manager.py:193-215 | there are never more errors than declared variables |
| TemplateManager.ValidationErrorsAppend | core/template_manager.py:196-213 | validation never stops early: the errors of two lists of variables are the errors of each, concatenated |
| TemplateManager.RequiredMissing | core/template_manager.py:197-198 | a required variable that is absent gets exactly the "missing" message |
| TemplateManager.IntCheck | core/template_manager.py:202-206 | an `int` variable is in error exactly when `int(value)` fails, and the error is the "must be an integer" message |
| TemplateManager.PortCheck | core/template_manager.py:207-213 | a `port` variable is accepted exactly when it converts to an integer from 1 to 65535; a failed conversion and an out-of-range number get their two different messages |
| TemplateManager.OtherTypesUnchecked | core/template_manager.py:200-213 | a present variable of any other type, or an absent optional one, is never in error |
| TemplateManager.UndeclaredKeysIgnored | core/template_manager.py:196-213 | adding a key that no variable declares never changes the errors |
| TemplateManager.NothingBelowMissing | core/template_manager.py:66-70 | in a well-formed disk no file or directory lies below a path that does not exist |
| TemplateManager.MakeDirsInside | core/template_manager.py:104-105 | creating directories below the instance root changes nothing outside that root |
| TemplateManager.ProcessFileInside | core/template_manager.py:117 | processing a file writes only at its destination and creates no directory |
| TemplateManager.CopyOne | core/template_manager.py:108-117 | one file: the directory of the destination is created, then the file is processed |
| TemplateManager.CopyTemplateFiles | core/template_manager.py:93-117 | the walk over the template computes the copy spec: each directory's counterpart is created below the root, descriptor files are skipped, and the first exception stops the copy |
| TemplateManager.CopyDirectory | core/template_manager.py:96-117 | one walked directory computes the spec of one step |
| TemplateManager.CopyNames | core/template_manager.py:108-117 | the loop over the names of one directory computes the copy of those names, stopping at the first exception |
| TemplateManager.CopyAdvance | core/template_manager.py:94-117 | one more walked directory extends the copy, and an exception in it is the result of the whole walk |
| TemplateManager.CopyStops | core/template_manager.py:94-117 | once an exception stopped the copy, the remaining directories change nothing |
| TemplateManager.CopyNamesAdvance | core/template_manager.py:108-117 | one more file extends the copy of a directory, and an exception in it ends the whole directory |
| TemplateManager.CopyNamesStop | core/template_manager.py:108-117 | once a file raised, the later files of the directory change nothing |
| TemplateManager.CopyOneInside | core/template_manager.py:109-117 | copying one file into the instance changes nothing outside the instance tree |
| TemplateManager.CopyNamesInside | core/template_manager.py:108-117 | copying the files of one directory changes nothing outside the instance tree |
| TemplateManager.CopyStepInside | core/template_manager.py:101-117 | one walked directory changes nothing outside the instance tree |
| TemplateManager.CopyInside | core/template_manager.py:93-117 | the whole copy changes nothing outside the instance tree and keeps the instance directory in place |
| TemplateManager.InstancePath | core/template_manager.py:64 | the instance path is the instance name inside the output directory |
| TemplateManager.CreateInstance | core/template_manager.py:62-91 | the method computes the creation spec: refuse an existing path, make the directory, copy, save the record, and clean up on failure |
| TemplateManager.CreateExisting | core/template_manager.py:66-67 | an existing instance path raises "already exists" and nothing is written |
| TemplateManager.CreateFailureRestores | core/template_manager.py:87-91 | after a failed creation every file is as before; the only new directories are ancestors of the instance path that `makedirs` created |
| TemplateManager.FailedCreation | core/template_manager.py:70-91 | a failure after `makedirs` leaves the disk that the copy left, with the instance tree removed |
| TemplateManager.CopyInsideFresh | core/template_manager.py:70-74 | the copy into a freshly made instance directory stays inside it |
| TemplateManager.DiscardRestores | core/template_manager.py:87-91 | removing the instance tree after a copy that stayed inside it gives back every file of the disk before the creation |
| TemplateManager.CreateSuccess | core/template_manager.py:62-85 | a successful creation returns the new record with the template name and the variables given, writes its metadata file, keeps every file outside the instance, and creates directories only on the instance path or below it |
| TemplateManager.SucceededCreation | core/template_manager.py:70-85 | a successful creation made the directory, copied without an exception and saved the record it returns |
| TemplateManager.Entry | core/template_manager.py:150-181 | a report row names the destination path and records no variables |
| TemplateManager.DecideFile | core/template_manager.py:149-182 | a decided file is reported on its destination with one of the three outcomes |
| TemplateManager.DecisionTable | core/template_manager.py:149-182 | an existing destination that cannot be compared raises; equal contents are "Unchanged/same-hash"; a differing file on a dry run is "Skipped/dry-run"; otherwise it is processed and reported "Replaced/success" exactly when the source is readable and the destination writable |
| TemplateManager.RenderedIsReplacedAgain | core/template_manager.py:149-182 | a destination that already holds the rendered text is still replaced, because the comparison is with the unrendered source |
| TemplateManager.DecisionWritesDest | core/template_manager.py:149-182 | a decision changes at most the destination, and only when it is not a dry run |
| TemplateManager.UpdateInstanceFromTemplate | core/template_manager.py:119-191 | the method computes the update spec: look up the template, make the optional backup, walk and decide every file, set `updated_at` and save the record |
| TemplateManager.UpdateFiles | core/template_manager.py:133-182 | the loop over the walk computes the spec of the update loop |
| TemplateManager.UpdateAdvance | core/template_manager.py:133-182 | one more walked directory extends the pass, and an exception in it is the result of the whole walk |
| TemplateManager.UpdateStops | core/template_manager.py:133-182 | once an exception stopped the update, the remaining directories change nothing |
| TemplateManager.UpdateDirectory | core/template_manager.py:134-182 | one walked directory computes the spec of one step, creating its counterpart even on a dry run |
| TemplateManager.UpdateNames | core/template_manager.py:144-182 | the loop over the names of one directory computes their decisions, stopping at the first exception |
| TemplateManager.UpdateNamesStop | core/template_manager.py:144-182 | once a file raised, the later files of the directory change nothing |
| TemplateManager.UpdateNamesEffect | core/template_manager.py:144-182 | the names of one directory change only their destinations and no directory, change nothing on a dry run, and give one row per file in order |
| TemplateManager.NamesLastEffect | core/template_manager.py:144-182 | the last name of a directory changes only its own destination and adds its own row |
| TemplateManager.DecideEffect | core/template_manager.py:149-182 | one decided file changes at most its destination and adds the one row for it |
| TemplateManager.UpdateStepEffect | core/template_manager.py:134-182 | one walked directory changes only the destinations of its content files and adds their rows in order |
| TemplateManager.UpdateFilesEffect | core/template_manager.py:133-182 | the whole walk removes no file, changes only the destinations of the template's content files, changes no file on a dry run, and reports one row per content file in walk order |
| TemplateManager.LookupDisk | core/template_manager.py:120 | the template lookup changes no file, and changes nothing when it succeeds |
| TemplateManager.UpdateBackupGate | core/template_manager.py:122-130 | without auto-backup, or on a dry run, the backup store is untouched; and whether a backup is made or fails never changes the instance, the files or the result |
| TemplateManager.UpdateSuccess | core/template_manager.py:119-191 | a successful update returns the template of the instance, one row per content file in walk order, the record with the new `updated_at` saved to its metadata file, changes nothing else outside the destinations, and on a dry run changes only the metadata file |
| TemplateManager.ApplySuccess | core/template_manager.py:132-191 | the walk and the save of a successful update give the rows, the new record and its metadata file, and on a dry run only the metadata file changes |
| TemplateManager.UpdateFrame | core/template_manager.py:119-191 | a failed lookup changes no file; otherwise the update changes only the destinations of the content files and the metadata file |
| TemplateManager.ApplyFrame | core/template_manager.py:132-185 | the walk and the save change only the destinations of the content files and the metadata file |
| Substitution.LastDot | core/variable_substitution.py:22 | the index found holds the last `.` of the name; none means the name has no `.` |
| Substitution.Ext | core/variable_substitution.py:22 | the extension is empty, or a single-dot suffix of the name |
| Substitution.SpaceRunSpec | core/variable_substitution.py:9 | `\s*` takes the longest run of leading spaces |
| Substitution.WordRunSpec | core/variable_substitution.py:9 | `\w+` takes the longest run of leading word characters |
| Substitution.MatchPrefix | core/variable_substitution.py:9 | a match of the placeholder pattern captures a non-empty identifier and spans at least five characters |
| Substitution.SearchSpec | core/variable_substitution.py:29 | `search` finds the leftmost position where the pattern matches, and says there is none only when it matches nowhere |
| Substitution.FindAll | core/variable_substitution.py:51 | `findall` returns captured identifiers, each non-empty |
| Substitution.FindAllEmptyIffNoMatch | core/variable_substitution.py:29-51 | `findall` finds nothing exactly when `search` finds nothing |
| Substitution.MatchOfReference | core/variable_substitution.py:9 | `{{ n }}` with an identifier `n` matches the pattern and captures `n` |
| Substitution.RenderLiteral | core/variable_substitution.py:30-31 | text without `{` renders as itself |
| Substitution.RenderReference | core/variable_substitution.py:30-31 | a `{{ n }}` reference renders as the text of variable `n`, followed by the rendering of the rest |
| Substitution.RenderPrint | core/variable_substitution.py:30-31 | rendering the text of literal runs and references performs exactly the interpolation of the variables |
| Substitution.ExpressionIsNotPlaceholder | core/variable_substitution.py:9 | `{{ n` followed by anything other than spaces and `}}`, such as an expression, is not a placeholder match |
| Substitution.ProcessFileSpec | core/variable_substitution.py:21-45 | for a destination that is not a directory, `process_file` fails exactly when the source cannot be read or the destination cannot be written, and otherwise changes only the destination, to the processed content |
| Substitution.CopySpec | core/variable_substitution.py:40-45 | `copy2` fails exactly when the source cannot be read or the destination cannot be written, and otherwise copies the bytes |
| Substitution.WriteOrCopySpec | core/variable_substitution.py:33-43 | a write that raises falls back to the byte copy, so the result fails only when the destination cannot be written |
| Substitution.NonTextIsCopied | core/variable_substitution.py:44-45 | a file without a text extension is copied byte for byte |
| Substitution.NoPlaceholderKeepsBytes | core/variable_substitution.py:35-37 | a text without a placeholder is written back with exactly the same bytes |
| Substitution.ProcessedContentCases | core/variable_substitution.py:21-45 | the destination differs from the source only for a decodable text file with a placeholder that renders, and then it holds the rendering |
| Substitution.PlaceholdersInFile | core/variable_substitution.py:47-53 | the names of one file are distinct |
| Substitution.DedupNames | core/variable_substitution.py:51 | `list(set(...))` keeps each name exactly once |
| Substitution.PlaceholderMapSpec | core/variable_substitution.py:55-67 | the map holds exactly the walked files that have a placeholder, each keyed by its relative path with its names |
| Substitution.PlaceholderMapSnoc | core/variable_substitution.py:59-65 | one more file adds its entry when it has placeholders, and leaves the map as it was otherwise |
| Substitution.FindAllPlaceholders | core/variable_substitution.py:55-67 | the walk computes the placeholder map of all files below the directory |
| Substitution.ScanDirectory | core/variable_substitution.py:59-65 | the inner loop adds the entries of the files of one walked directory |
| Substitution.InsertSorted | core/variable_substitution.py:76 | inserting into a sorted list without duplicates keeps it so and adds exactly the new name |
| Substitution.AllNamesStep | core/variable_substitution.py:73-74 | one more file's names join the union |
| Substitution.AllUniquePlaceholders | core/variable_substitution.py:69-76 | the result is sorted without duplicates and holds exactly the names some file of the directory uses |
| TemplateModel.DescriptorPath | models/template.py:29-31 | the descriptor read is `template.yml` whenever it exists, and `template.yaml` otherwise |
| TemplateModel.StringField | models/template.py:45-48 | a key the descriptor omits takes its default |
| TemplateModel.VariableOf | models/template.py:53-60 | a declaration without `name` raises KeyError; a loaded variable carries the declared name |
| TemplateModel.FromDirectory | models/template.py:25-63 | the method computes the load spec: refuse a missing directory, read the descriptor or use the default configuration, build the template, then append its variables one by one |
| TemplateModel.AppendVariables | models/template.py:52-61 | appending the declarations gives the template with exactly the parsed variables, or the exception of the first declaration that fails |
| TemplateModel.ParseAdvance | models/template.py:52-61 | one more declaration is appended when it loads, and when it fails the whole load fails with its exception |
| TemplateModel.ParseVariablesStops | models/template.py:52-61 | once a declaration fails, the later ones change nothing |
| TemplateModel.ParseVariablesOrder | models/template.py:52-61 | the loaded variables are the declarations in order, one for one |
| TemplateModel.DeclarationDefaults | models/template.py:53-60 | a declaration with only a name gets type `string`, an empty description, no default, `required` true and no validation rule |
| TemplateModel.MissingDirectory | models/template.py:26-27 | a directory that does not exist raises "Template directory not found" |
| TemplateModel.NoDescriptor | models/template.py:33-49 | without a descriptor the template takes the directory's base name, "Template for" that name, no variables and version 1.0.0 |
| TemplateModel.DescriptorDefaults | models/template.py:44-52 | with a descriptor, an omitted name, description, version or variable list takes its default, and the path is the directory's |
| TemplateModel.ContentFilesSnoc | models/template.py:67-77 | the content files of one more walked directory are those of the others followed by its own |
| TemplateModel.ContentFilesAdvance | models/template.py:67-77 | appending one directory's content files extends the content files of the walk by one step |
| TemplateModel.SkipDescriptors | models/template.py:69-72 | the two `remove` calls leave exactly the content names of a directory |
| TemplateModel.AppendFiles | models/template.py:74-77 | the inner loop appends the relative path of every name, in order |
| TemplateModel.GetFiles | models/template.py:65-79 | `get_files` returns exactly the content files of the template's walk, in walk order |
| TemplateModel.ContentFilesExcludeDescriptors | models/template.py:69-72 | no content file is named `template.yml` or `template.yaml`, in any directory |
| TemplateModel.StepExcludesDescriptors | models/template.py:69-72 | no content name of one directory is a descriptor name |
| TemplateModel.ContentFilesInclude | models/template.py:74-77 | every other file of every walked directory is a content file |
| InstanceModel.MetadataPath | models/instance.py:41-47 | the metadata file is `.dotwork_instance.json` directly inside the instance directory, for saving and loading alike |
| InstanceModel.NewInstance | models/instance.py:7-15 | a new record has version 1.0.0 and both timestamps equal to the one clock reading it is given |
| InstanceModel.RequiredString | models/instance.py:31-33 | a missing key raises KeyError; a value read is the string stored under the key |
| InstanceModel.FromDict | models/instance.py:28-38 | a dict without `name` raises KeyError |
| InstanceModel.DictRoundTrip | models/instance.py:17-38 | `from_dict(to_dict(x))` gives back `x` |
| InstanceModel.ToDictFields | models/instance.py:17-26 | each entry of `to_dict` holds the matching field, timestamps as ISO 8601 text |
| InstanceModel.TimestampOf | models/instance.py:35-36 | an ISO 8601 text written for a datetime reads back as that datetime |
| InstanceModel.FromFields | models/instance.py:28-38 | a dict whose fields each read back as those of a record gives that record |
| InstanceModel.FromDictDefaults | models/instance.py:34-37 | absent `variables` and `version` take `{}` and 1.0.0, absent timestamps are the current time, and the path is the stored one |
| InstanceModel.FromDictRequiredKeys | models/instance.py:31-33 | `name`, `template_name` and `path` are mandatory, and the first one missing is the KeyError raised |
| InstanceModel.SaveMetadata | models/instance.py:40-43 | saving succeeds exactly when the metadata file can be written, and then changes only that file, to the record as a JSON object |
| InstanceModel.LoadFromPath | models/instance.py:45-56 | a directory without a metadata file has no record |
| InstanceModel.SaveLoadRoundTrip | models/instance.py:40-56 | a saved record loads back unchanged |
| InstanceModel.LoadedPathIsStored | models/instance.py:45-54 | a loaded record's path is the one stored in the file, not the directory it was loaded from |
| InstanceModel.MalformedTimestampPropagates | models/instance.py:51-56 | a malformed timestamp is not among the caught errors: loading raises ValueError instead of giving no record |
| FileSystem.ReadFile | core/variable_substitution.py:26-27 | a read succeeds exactly when the path is a readable file, and returns its contents |
| FileSystem.WriteFile | core/variable_substitution.py:33-37 | a write succeeds exactly when the path can be written, and changes only that file |
| FileSystem.CopyFile | core/variable_substitution.py:40 | `copy2` succeeds exactly when the source is readable and the target, inside the destination when it is a directory, can be written, and copies the contents |
| FileSystem.MakeDirs | core/template_manager.py:70 | `makedirs` changes no file, only adds directories, and leaves the path a directory; an existing directory is left as it is |
| FileSystem.MakeDirsSpec | core/template_manager.py:70 | every directory `makedirs` adds is an ancestor of the path or the path itself, and a well-formed disk stays well-formed |
| FileSystem.RemoveTree | core/template_manager.py:89-90 | `rmtree` removes exactly the files and directories at or below the path |
| FileSystem.ListDir | core/template_manager.py:44 | `listdir` succeeds exactly when the path is a readable directory |
| FileSystem.ParsePathText | models/instance.py:33 | the text of a path splits back into the same path |
| FileSystem.RelPaths | core/template_manager.py:108-111 | each name of a directory gives its relative path, in order |
| FileSystem.EncodeDecode | core/variable_substitution.py:26-37 | text read from bytes writes back as exactly those bytes |
| BackupManager.ArchiveName | core/backup_manager.py:20-21 | an archive is named after its instance, an underscore, and ends in `.zip` |
| BackupManager.ArchiveNameParses | core/backup_manager.py:20-21 | parsing an archive name without `backup_info.json` recovers the instance name and the timestamp, when the instance name does not contain `.zip` |
| BackupManager.StripSuffix | core/backup_manager.py:123 | removing `.zip` from an archive name removes only the suffix |
| BackupManager.StampParts | core/backup_manager.py:20 | the timestamp is two underscore-free parts around its one underscore |
| BackupManager.SplitBody | core/backup_manager.py:123 | splitting the name at `_` gives the parts of the instance name followed by the date and the time |
| BackupManager.NoSuffixInBody | core/backup_manager.py:123 | no `.zip` occurs inside the body of an archive name |
| BackupManager.FilterAdmitsLongerNames | core/backup_manager.py:110 | the name filter of instance `a` also admits the archives of an instance named `a_` followed by anything |
| BackupManager.LastMember | core/backup_manager.py:117-119 | the member read is one with that name; none means no member has it |
| BackupManager.EntryOf | core/backup_manager.py:113-133 | a listed entry keeps the file's name, size and creation time |
| BackupManager.Listed | core/backup_manager.py:108-136 | no more entries than files |
| BackupManager.ListedSpec | core/backup_manager.py:108-136 | exactly the matching, readable archives are listed: every entry matches the filter and comes from a file, and every matching readable file has its entry |
| BackupManager.ListedFilenames | core/backup_manager.py:108-136 | when the file names are distinct so are the entries' names, each the name of a file |
| BackupManager.InsertByAge | core/backup_manager.py:139 | one more entry lengthens the list by one |
| BackupManager.InsertByAgeSpec | core/backup_manager.py:139 | insertion adds exactly the new entry and keeps a newest-first list newest first |
| BackupManager.SortNewestFirst | core/backup_manager.py:139 | the sort keeps the length |
| BackupManager.SortSpec | core/backup_manager.py:139 | the sorted list is newest first and holds exactly the listed entries |
| BackupManager.InsertByAgeMultiset | core/backup_manager.py:139 | insertion adds one occurrence of the entry and no other change |
| BackupManager.SortIsPermutation | core/backup_manager.py:139 | the sorted list is a permutation of the listed entries |
| BackupManager.InsertByAgeStable | core/backup_manager.py:139 | inserting into a newest-first list keeps, for every date, the entries of that date in their order, with the new entry after them when it has that date |
| BackupManager.SortStable | core/backup_manager.py:139 | the sort is stable, as `list.sort` is: for every date, the entries created at that date appear in the sorted list in their listing order, so pruning keeps the earlier-listed of equally dated backups |
| BackupManager.InsertByAgeDistinct | core/backup_manager.py:139 | inserting an entry with a new name keeps the names distinct |
| BackupManager.SortDistinct | core/backup_manager.py:139 | sorting keeps the names distinct |
| BackupManager.ListedStep | core/backup_manager.py:108-133 | one more file of the directory is listed after the others exactly when it matches and is readable |
| BackupManager.ListBackups | core/backup_manager.py:105-140 | the loop over the directory computes the listing: the matching readable archives, sorted newest first |
| BackupManager.RemoveNames | core/backup_manager.py:154-156 | exactly the files with a removed name are gone |
| BackupManager.RemoveNamesStep | core/backup_manager.py:155-156 | removing one more name after a set of names removes their union |
| BackupManager.RemoveNamesAppend | core/backup_manager.py:155-156 | removal works file by file: the removal from two lists is the two removals |
| BackupManager.RemoveNoNames | core/backup_manager.py:152 | removing no name changes nothing |
| BackupManager.DeleteBackup | core/backup_manager.py:142-147 | deleting removes exactly the file with that name, and a missing file changes nothing |
| BackupManager.RemoveAbsentName | core/backup_manager.py:146-147 | removing a name no file has changes nothing |
| BackupManager.DeleteStep | core/backup_manager.py:155-156 | deleting the next listed file extends the removed names by its name |
| BackupManager.Cleanup | core/backup_manager.py:149-157 | the method computes the pruning spec: list the instance's backups and delete those past the first `max` |
| BackupManager.CleanupDeletes | core/backup_manager.py:149-157 | a file survives pruning exactly when it is not among the listed backups past the first `max`; with at most `max` backups nothing is deleted |
| BackupManager.CleanupIdempotent | core/backup_manager.py:149-157 | pruning twice is pruning once, since after pruning exactly `max` backups are listed |
| BackupManager.ListedRemoveNames | core/backup_manager.py:108-136 | listing a directory from which files were removed is filtering the listing |
| BackupManager.ListedRemoveOne | core/backup_manager.py:108-136 | the listing of one file without the removed names is its entry filtered the same way |
| BackupManager.ListedAppend | core/backup_manager.py:108-136 | the listing of two lists of files is the two listings, concatenated |
| BackupManager.KeptCount | core/backup_manager.py:152-156 | after removing the names past the first `max` of distinct entries, exactly `max` remain |
| BackupManager.FirstsKept | core/backup_manager.py:154 | with distinct names, none of the first `max` entries has a removed name |
| BackupManager.BackupSize | core/backup_manager.py:159-166 | the loop computes the sum of the sizes of the listed backups |
| BackupManager.InsertKeepsSum | core/backup_manager.py:139 | insertion adds the new entry's size to the total |
| BackupManager.SortKeepsSum | core/backup_manager.py:139-166 | sorting does not change the total size |
| BackupManager.ArchiveMembersSpec | core/backup_manager.py:26-30 | the archive is written exactly when every file of the instance can be read, and holds one member per file, with its relative path and contents, in walk order |
| BackupManager.Put | core/backup_manager.py:25 | writing an archive replaces any file of the same name and leaves the others |
| BackupManager.CreateBackup | core/backup_manager.py:19-55 | the method computes the backup spec: archive every instance file and the info record, prune, and on failure remove the partial archive and raise |
| BackupManager.ArchiveMembersFail | core/backup_manager.py:26-30 | once a file cannot be read, the archive fails with that error |
| BackupManager.CreateBackupFailure | core/backup_manager.py:51-55 | a backup with an unreadable file raises, leaves no archive of its name and changes no other file |
| BackupManager.CreateBackupSuccess | core/backup_manager.py:44-49 | a backup of readable files returns the archive's path in the backup directory |
| BackupManager.NewArchiveContents | core/backup_manager.py:25-42 | the new archive holds every instance file, in order, and its `backup_info.json` reads back as the record written |
| BackupManager.FindBackup | core/backup_manager.py:58 | a backup is found exactly when a file of that name exists, and it is that file |
| BackupManager.RestoreTarget | core/backup_manager.py:69-77 | the restore directory is the explicit one, else the record's `original_path`, else `instances/` and the archive name without `.zip` |
| BackupManager.ExtractAllFrame | core/backup_manager.py:83-85 | extraction writes only at the targets of the members, and nowhere else |
| BackupManager.InfoNeverExtracted | core/backup_manager.py:84 | `backup_info.json` is never extracted |
| BackupManager.RestoreBackup | core/backup_manager.py:57-103 | the method computes the restore spec: read the record, choose the directory, make it, extract every other member, load the instance record or make one from the backup record |
| BackupManager.ExtractAdvance | core/backup_manager.py:83-85 | one more member is skipped when it is the info record and extracted otherwise, and a failed extraction ends the restore |
| BackupManager.ExtractAllFail | core/backup_manager.py:83-85 | once an extraction raised, the later members change nothing |
| BackupManager.RestoreMissing | core/backup_manager.py:58-59 | a missing archive raises FileNotFoundError |
| BackupManager.BackupRestoresToOrigin | core/backup_manager.py:70-72 | a backup this code made restores, by default, to the instance's own directory |
| ResultWidget.Rank | gui/result_widget.py:109-113 | a known status ranks at its position in the status order; every other status ranks after all of them |
| ResultWidget.RankOrder | gui/result_widget.py:19 | Error sorts before Replaced, Created, Unchanged and Skipped, in that order, and those before any other status |
| ResultWidget.LessThanStrict | gui/result_widget.py:103-120 | every column's comparison is irreflexive, asymmetric and transitive, so sorting by it is well defined |
| ResultWidget.StatusSort | gui/result_widget.py:108-115 | on the status column a known status sorts before an unknown one, an unknown one before nothing, and known statuses by their order |
| ResultWidget.ResultsFilterProxy.constructor | gui/result_widget.py:76-79 | a new proxy filters on "All" with no search text |
| ResultWidget.ResultsFilterProxy.SetStatusFilter | gui/result_widget.py:81-83 | the status filter becomes the one given, and the search text is unchanged |
| ResultWidget.ResultsFilterProxy.SetSearchText | gui/result_widget.py:85-87 | the search text becomes the lower-cased text, and the status filter is unchanged |
| ResultWidget.AllAcceptsEverything | gui/result_widget.py:89-101 | with the filter "All" and no search text every row is shown |
| ResultWidget.StatusFilterExact | gui/result_widget.py:93-94 | any other filter shows only rows of exactly that status, and without search text it shows all of them |
| ResultWidget.SearchIgnoresCase | gui/result_widget.py:85-99 | whatever is typed finds a row when it differs only in case from text occurring in the row's joined fields |
| ResultWidget.SearchSpansFields | gui/result_widget.py:96-98 | an example: a search typed across two fields, `a.txt replaced`, finds the row `a.txt` / `Replaced`, because the search runs over the joined fields |
| ResultWidget.StatusCount | gui/result_widget.py:180-182 | no status is counted more often than there are rows |
| ResultWidget.KnownCount | gui/result_widget.py:180-182 | no more rows of a known status than rows |
| ResultWidget.TallySpec | gui/result_widget.py:180-182 | the loop adds to each counted key the number of rows with that status, and leaves the other keys |
| ResultWidget.CountsAsWritten | gui/result_widget.py:179-182 | the counters as written have the six keys of the summary |
| ResultWidget.InitialValues | gui/result_widget.py:179 | before the loop Total is the number of rows and each status counter is zero |
| ResultWidget.TotalCountsStatusTotal | gui/result_widget.py:179-183 | as written, Total is the number of rows plus the number of rows whose status is "Total" |
| ResultWidget.TotalMiscounted | gui/result_widget.py:179-183 | one row whose status is "Total" makes the Total label 2 |
| ResultWidget.Counts | gui/result_widget.py:179-182 | the intended counters have the six keys of the summary |
| ResultWidget.CountsSpec | gui/result_widget.py:178-188 | Total is the number of rows and each status counter the number of rows of that status |
| ResultWidget.KnownCountSum | gui/result_widget.py:180-182 | the five status counters add up to the rows of a known status |
| ResultWidget.KnownCountAll | gui/result_widget.py:180-182 | every row has a known status exactly when the known rows are all the rows |
| ResultWidget.CountsBound | gui/result_widget.py:178-188 | the five counters add up to at most Total, and to exactly Total when every row has a known status |
| ResultWidget.SummaryBar.constructor | gui/result_widget.py:160-176 | a new summary shows zero everywhere |
| ResultWidget.SummaryBar.UpdateCounts | gui/result_widget.py:178-188 | the six labels show the intended counters of the rows |
| ResultWidget.ComboItems | gui/result_widget.py:206-215 | deduplicating the entries of the status box leaves "All" followed by the status order |
| ResultWidget.StatusComboItems | gui/result_widget.py:206-215 | the deduplicating loop leaves "All" followed by the status order |
| InstanceManagerView.Present | gui/instance_manager.py:92-93 | exactly the search paths that are set and not empty pass the `if path` test |
| InstanceManagerView.UniqueSearchPaths | gui/instance_manager.py:90-94 | the loop keeps each non-empty search path once, in order of first appearance |
| InstanceManagerView.UniqueSearchPathsSpec | gui/instance_manager.py:82-94 | the unique paths are distinct, are exactly the non-empty search paths, and keep the first occurrence of each |
| InstanceManagerView.LoadEntry | gui/instance_manager.py:132-136 | an entry that is not a directory gives no record; a record found was loaded from that directory |
| InstanceManagerView.Loads | gui/instance_manager.py:131-136 | each listed entry is loaded, in listing order |
| InstanceManagerView.Collected | gui/instance_manager.py:135-136 | every collected record is one some load returned |
| InstanceManagerView.ScanSpec | gui/instance_manager.py:130-138 | the scan ends without an error exactly when no load raises, and then holds every record loaded; otherwise it stops at the first load that raised, with the records before it |
| InstanceManagerView.ScanStops | gui/instance_manager.py:130-138 | once a load raised, the later entries change nothing |
| InstanceManagerView.FindInstancesOf | gui/instance_manager.py:127-140 | a PermissionError is never raised, and an unreadable directory gives no records |
| InstanceManagerView.ScanFinds | gui/instance_manager.py:131-136 | every record found was loaded from a listed subdirectory, and without an error every loaded record is found, in listing order |
| InstanceManagerView.FindInstancesSpec | gui/instance_manager.py:127-140 | every record `find_instances_in_directory` returns was loaded from a listed subdirectory, and when no load raises it returns all of them in listing order |
| InstanceManagerView.PermissionErrorKeepsCollected | gui/instance_manager.py:127-140 | when the first load that raises raises a PermissionError, `find_instances_in_directory` returns exactly the records of the entries listed before it |
| InstanceManagerView.FindInstancesInDirectory | gui/instance_manager.py:127-140 | the loop computes the spec of `find_instances_in_directory` |
| InstanceManagerView.GatherSearched | gui/instance_manager.py:100-109 | exactly the existing search paths are scanned and recorded as searched, in order |
| InstanceManagerView.GatherStops | gui/instance_manager.py:100-109 | once a scan raised, the remaining search paths change nothing |
| InstanceManagerView.RefreshSpec | gui/instance_manager.py:74-111 | after a refresh no two records share a normalised path, each record found is represented by the first one with its path, discovery order is kept, and the searched paths are the existing unique ones |
| InstanceManagerView.AddNewStep | gui/instance_manager.py:104-108 | a record of the batch is kept exactly when its normalised path has not been seen, and the seen set grows with it |
| InstanceManagerView.AddNew | gui/instance_manager.py:104-108 | adding one directory's records keeps the first record of each normalised path, and the seen set stays the keys of the list |
| InstanceManagerView.GatherInstances | gui/instance_manager.py:96-109 | the scan loop over the search paths gives the records of the existing paths with duplicates removed, the paths searched, or the error that ended it |
| InstanceManagerView.Names | gui/instance_manager.py:263-264 | the template name of each record, in order |
| InstanceManagerView.GroupsOf | gui/instance_manager.py:262-267 | there is a group for exactly the template names of the records |
| InstanceManagerView.GroupsSpec | gui/instance_manager.py:262-267 | each group holds exactly the records of its template, in order |
| InstanceManagerView.NoneOfTemplate | gui/instance_manager.py:262-267 | a template no record names has no records |
| InstanceManagerView.GroupsSnoc | gui/instance_manager.py:265-267 | one more record joins the group of its template, or opens a new group |
| InstanceManagerView.GroupStep | gui/instance_manager.py:263-267 | one more record joins its group, and a new template goes last in the order of the groups |
| InstanceManagerView.OrderSpec | gui/instance_manager.py:272 | the order of the groups lists each group's template exactly once |
| InstanceManagerView.GroupByTemplate | gui/instance_manager.py:262-267 | the loop builds exactly the groups and the order of their keys |
| InstanceManagerView.GroupTotals | gui/instance_manager.py:270-273 | the group sizes in the confirmation message add up to the number of records |
| InstanceManagerView.TotalAdd | gui/instance_manager.py:265-267 | adding a record to its group, or a new group at the end, adds one to the total |
| InstanceManagerView.UpdateWithApply | gui/instance_manager.py:308 | each instance is updated with the default `is_dry_run=False` |
| InstanceManagerView.BulkSpec | gui/instance_manager.py:299-317 | instances are processed in order until the cancel button is seen; successes and failures add up to the instances processed; the failure lines and the collected file results are those of the outcomes, in order |
| InstanceManagerView.BulkShape | gui/instance_manager.py:300-302 | the run stops exactly when the cancel button is seen before an instance, and processes each instance before that |
| InstanceManagerView.BulkTallies | gui/instance_manager.py:307-313 | the counters, the failure lines and the file results agree with the outcomes so far |
| InstanceManagerView.TalliedWiden | gui/instance_manager.py:307-313 | the tallies of the first instances hold against the whole list |
| InstanceManagerView.TalliedCancel | gui/instance_manager.py:301-302 | cancelling changes no tally |
| InstanceManagerView.AbsorbTallies | gui/instance_manager.py:307-313 | taking in the next outcome keeps the tallies: a success adds its file results, a failure its line |
| InstanceManagerView.OutcomesSnoc | gui/instance_manager.py:307-313 | one more outcome adds its files and one success, or its failure line |
| InstanceManagerView.BulkStops | gui/instance_manager.py:301-302 | once the run is cancelled, the later instances change nothing |
| InstanceManagerView.UpdateOne | gui/instance_manager.py:307-313 | the body of the loop updates one instance and catches its exception |
| InstanceManagerView.RunBulk | gui/instance_manager.py:299-317 | the loop computes the spec of the bulk run, threading the disk and the backup store |
| InstanceManagerView.ErrorDetailsLines | gui/instance_manager.py:333-335 | the details show every failure line when there are at most five; otherwise the first five and a line counting the others |
| InstanceManagerView.MoreLineOneLine | gui/instance_manager.py:335 | the line counting the other failures is one line |
| InstanceManagerView.InstanceManagerWidget.constructor | gui/instance_manager.py:19-26 | a new widget has no records, a disabled bulk-update button and no searched paths |
| InstanceManagerView.InstanceManagerWidget.RefreshInstances | gui/instance_manager.py:74-125 | the list becomes the deduplicated records found; without an error the button is enabled exactly when there are records and the searched paths are recorded; a scan that raises leaves the list empty and the rest as it was |
| InstanceManagerView.InstanceManagerWidget.BulkUpdateInstances | gui/instance_manager.py:256-323 | nothing happens without records or without consent; otherwise every instance is updated in order until cancelled, and the list is refreshed from the disk the run leaves: the records, and after a clean scan the button enabled exactly when there are records and the searched paths; after a failing scan the button and the paths as they were |
| DateTimes.Pad | models/instance.py:23-24 | the zero-padded text has the width asked for and only digits |
| DateTimes.PadValue | models/instance.py:23-24 | the padded digits write the number back |
| DateTimes.IsoFormat | models/instance.py:23-24 | `isoformat` gives 19 characters, or 26 when the microseconds are not zero |
| DateTimes.FromIsoFormat | models/instance.py:35-36 | the model of `fromisoformat` raises only ValueError, and reads only the date alone and the two forms `isoformat` writes, of 10, 19 or 26 characters |
| DateTimes.FieldOfPad | models/instance.py:35-36 | a padded field reads back as its number |
| DateTimes.TripleOfPads | models/instance.py:35-36 | three padded fields with their separators read back as the three numbers |
| DateTimes.IsoFormatRoundTrip | models/instance.py:23-36 | `fromisoformat(isoformat(t))` gives back `t`, so the record's timestamps survive JSON |
| DateTimes.IsoSlices | models/instance.py:23-24 | the date, the time and the fraction sit at their fixed places in the ISO text |
| DateTimes.BackupStamp | core/backup_manager.py:20 | the backup stamp is 15 characters: eight digits, an underscore, six digits |
| DateTimes.LevelOrder | core/backup_manager.py:139 | comparing the leading fields of two datetimes field by field is comparing their mixed-radix numbers |
| DateTimes.OrdinalOrder | core/backup_manager.py:139 | the ordinal orders datetimes exactly as Python compares them, and is equal exactly for equal datetimes |
| Values.ToInt | core/template_manager.py:204 | `int` keeps an integer, and raises for None, a list or a dict |
| Values.ParseIntOfNat | core/template_manager.py:204-209 | `int(str(n))` gives back `n` |
| Values.ParseIntOfDigits | core/template_manager.py:204-209 | `int` of a text of digits is the number they write |
| Values.ParseDigitGroups | core/template_manager.py:204-209 | `int` of digit groups joined by single underscores is the number of the digits without them |
| Strings.Lower | gui/result_widget.py:86 | `lower` keeps the length and lowers each ASCII letter |
| Strings.LowerIdempotent | gui/result_widget.py:86-97 | lowering twice is lowering once |
| Strings.LowerAppend | gui/result_widget.py:97 | lowering the joined fields is joining the lowered fields |
| Strings.Split | core/backup_manager.py:123 | `split` gives at least one part, and the whole text when the separator is absent |
| Strings.SplitJoin | core/backup_manager.py:123-126 | joining the parts of a split with the separator gives the text back |
| Strings.SplitJoinInverse | core/backup_manager.py:123-126 | splitting a join of separator-free parts gives the parts back |
| Strings.RemoveAll | core/backup_manager.py:76 | `replace('.zip', '')` never lengthens the text |
| Strings.NatToStringValue | gui/instance_manager.py:335 | the decimal text of a count writes it back |
| Strings.StrLessIrreflexive | gui/result_widget.py:120 | no text sorts before itself |
| Strings.StrLessTransitive | gui/result_widget.py:120 | text order is transitive |
| Strings.StrLessTotal | gui/result_widget.py:120 | of two different texts one sorts first |
| Sequences.SliceFrom | core/backup_manager.py:154 | `s[k:]` for any integer `k`: the tail from `k`, empty past the end, counted from the end for a negative `k` |
| Sequences.RemoveFirst | core/template_manager.py:96-99 | `remove` on an absent element leaves the list unchanged |
| Sequences.RemoveFirstDistinct | core/template_manager.py:96-99 | from a list without duplicates, `remove` takes out exactly the element named |
| Sequences.DedupByIsFirsts | gui/instance_manager.py:104-108 | deduplicating keeps the first element for each key, in order, and nothing else |
| Sequences.DedupDistinct | gui/instance_manager.py:91-94 | deduplicating a list without repetitions keeps all of it |
| Sequences.DedupIdDistinct | gui/instance_manager.py:91-94 | deduplicating by the element itself leaves no element twice |
| Sequences.ConcatMapSpec | gui/instance_manager.py:309 | everything collected comes from the piece of some element, and every piece is collected |
| Sequences.FilterSpec | gui/instance_manager.py:265-267 | a filter keeps exactly the elements that satisfy its test |


## Left out

- User-facing Korean message texts are modelled only where a result line carries them (the bulk update summary and its "... 및 N개 더" line); other dialog texts are not.
- ResultWidget.LessThan: the branch for the `bytes_written` and `duration_ms` columns is not modelled, because no entry of the column list names either, so it cannot be taken.
- `os.path.normpath` and `os.path.abspath` are a parameter `norm`, and `str(e)` of an exception is a parameter `describe`; neither is computed.
- BackupManager.JoinPath: `os.path.join` is modelled as joining with one `/`; a directory ending in a separator and an absolute second part are not handled.
- `str.lower`, `\w` and `\s` are modelled on ASCII only; Unicode case folding and Unicode word and space characters are not.
- TemplateManager.CheckEquals: comparing MD5 digests is modelled as comparing contents; hash collisions are not modelled.
- Qt widgets, signals, dialogs, message boxes, the progress dialog and `processEvents` are not modelled; whether the user confirms or cancels is a parameter.
- InstanceManagerView.InstanceManagerWidget.constructor: the constructor does not call the refresh; `RefreshInstances` is a separate method a caller runs after it.
- Names are single path components; a path separator inside a file or directory name is not modelled.
- FileSystem.MakeDirs: when `os.makedirs` fails part-way, the directories it already created are not kept in the model's result (the result is only the error).
- DateTimes: datetimes are naive; time zones and daylight saving are not modelled, and `DateTimes.Ordinal` counts from an arbitrary origin, which only its order relies on.
- Substitution.RenderText: Jinja is modelled as interpolation of `{{ name }}` references to identifiers, an undefined name printing nothing; any other Jinja construct (filters, expressions, `{%` and `{#` tags) makes rendering fail, which the processing rule then treats like any other rendering error.
- YAML and JSON text are not parsed: a descriptor or record file is a pre-parsed `Values.Value`, and a zip archive is its list of members with their contents; compression is not modelled.
- TemplateModel.StringField: a name, description or version that is not a string is a TypeError in the model, where Python would keep any value.
- TemplateModel.VariableOf: a variable entry whose fields are not strings is a TypeError in the model, where Python would keep any value.
- BackupManager.ListInfo: a metadata document that is not a JSON object makes the backup skipped; Python's `dict.update` would also accept a list of pairs.
- Substitution.PlaceholdersInFile: the placeholders are returned in order of first appearance; the original's `list(set(...))` has no specified order, so only the set of names is promised.
- `utils/config.py` and `utils/logger.py` are not part of this model; the configuration values the core reads are a `TemplateManager.Config` record, and logging and `print` output are left out.
- The size and creation time of a backup file, from `os.stat`, are fields of `BackupManager.StoredBackup` rather than computed; the creation time of a newly written archive is taken to be the time of the backup, the `now` that also names it.
- The detail panel, the results table model's display roles and colours, `populate_table`, deleting an instance and opening its folder are presentation or GUI actions and are not modelled.
- The order in which `os.walk` and `os.listdir` visit entries is given by `FileSystem.Env`, not computed.
- Text files are read and written without newline translation, and UTF-8 decoding is modelled as ASCII decoding (`FileSystem.Decode`): a byte above 127 makes the file undecodable.
- DateTimes.FromIsoFormat: only a date alone and the forms `isoformat` writes are parsed, `YYYY-MM-DDTHH:MM:SS` with or without six digits of microseconds; the shorter forms, fractions of other lengths and UTC offsets that Python's `fromisoformat` also accepts are a ValueError in the model, so a record holding one fails to load where Python loads it.
- InstanceModel.FromDict: a `name`, `template_name`, `path` or `version` that is not a string (checked by `InstanceModel.RequiredString`), or `variables` that is not an object, is a TypeError in the model, where Python keeps any JSON value; that TypeError is not one the load catches, so it ends a directory scan.
- BackupManager.RecordFromInfo: likewise a backup record whose `instance_name` or `template_name` is not a string is a TypeError in the model, where Python passes any JSON value to the new record.
- InstanceModel.NewInstance: the two timestamps of a new record are one clock reading in the model, and so are the two `datetime.now()` defaults of `InstanceModel.FromDict` and the record made by `BackupManager.RecordFromInfo`; Python reads the clock once for each, so `updated_at` may be a later microsecond than `created_at`.
- FileSystem.RemoveTree: `shutil.rmtree` never fails in the model; in Python a failing clean-up after a failed creation would raise its own error in place of the copy's.
- BackupManager.Put: writing the archive never fails in the model, and BackupManager.CleanupOf never fails either; in Python a failing prune after the archive is written would delete the new archive and raise.
- BackupManager.CleanupOf: deletes the listed file by its name; Python deletes the entry's `path`, which a `path` key in an archive's `backup_info.json` would override. The archives this code writes carry no such key.
- Values.Value: has no floating-point numbers, so a YAML value such as `version: 1.0` cannot be stated; Values.Str of a list or object is `None`, so such a variable makes rendering fail and the file is copied unrendered, where Jinja would print the value's representation; Values.ToInt accepts ASCII digits only, where Python's `int` also accepts other Unicode digits.

## Findings

| source | as written | input that shows it | evidently intended | confidence | as-written member | corrected member |
|---|---|---|---|---|---|---|
| gui/result_widget.py:179-182 | the counter loop bumps every key of the counts whose name equals a row's status, and "Total" is one of those keys | one result row whose status is "Total": the total shown is 2 for one row | the total is the number of rows, and each status counter counts the rows with that status | not executed | ResultWidget.CountsAsWritten, ResultWidget.TotalMiscounted | ResultWidget.Counts, ResultWidget.CountsSpec |

# Folder-to-task mapping of cdba-scanner, in Dafny

This project models the task-mapping service of cdba-scanner
(`cdba_scanner/src/service/task_mapping_service.py`). The service takes the
scanner's CSV of matched files and a reference table of tasks. For each
scanned path under a `\RPA\` segment, it extracts the folder name after that
segment and maps the folder to a reference row by one of these rules:

- an exact task name;
- an exact process name;
- a fuzzy score strictly above 75 that also beats the other column's score.

Otherwise the folder is reported unmatched. The modules are:

- `Wrappers`: `Option` and `Result`.
- `General`: the constants and column enums of `src/enum/general.py`. The
  threshold is 75. The canonical names are `Task`, `ProcessName`,
  `Developers` and `Inactive`. The rule tags are `taskName` and
  `processName`. Enum member lookup is by name.
- `Frame`: a parsed CSV as a header plus rows of cells that may be missing.
  Also the file outcomes (missing, unparseable, parsed), the load errors,
  dropping the `Unnamed…` columns, first-index lookup and column renaming.
- `PathExtraction`: the pattern `^\\\\.*?\\RPA\\(.*?)\\.*$`. A reference
  predicate `RegexMatch` describes the regex, including Python's rules that
  `.` excludes a newline and that `$` may also match before a final newline.
  `Leftmost` picks the match a backtracking engine reports, since both
  quantifiers are lazy. `ExtractTaskName` is a total search proved to return
  that match's group.
- `SearchResult`: `readSearchResultFile`. A method fills the extracted-name
  column in place (an `array`), then keeps the rows that got a name, in order.
- `TaskTable`: `readTaskTableFile`. It checks the four role columns in the
  source's order and applies the four renames one after another. It coerces
  `Inactive` (`'Y'` becomes true, a missing cell false, any other text is
  kept) and leaves every other missing cell as None.
- `Fuzzy`: `process.extractOne`. The scorer is an abstract total function with
  scores in [0, 100]. The model assumes that missing candidates are skipped
  and that the earliest top score wins (see "## Left out").
- `MatchEngine`: `createMappedTaskFolderDf`. The loop over the scan rows is a
  method with the source's cascade and `continue`s. It is proved equal,
  record by record, to the function `MapRecord`. The lemmas
  say what that function means.
- `Service`: `mapFolderToTask`, composing the two loaders and the engine.

Choices where the code and its evident intent differ:

- All three are listed under "## Findings".
  - The code names enum members that `general.py` does not define
    (`SearchResultColumns.matchedFile`, `MappedTaskFolderColumns.confident`).
  - Line 108 reads the output's folder name, path and fuzzy query from the
    wrong row.
- The model's corrected path follows the intent. It reads the `FullPath`
  column, writes a `Confidence` field and uses the current row.
- A matched record copies the reference row's cells as they are. A matched
  row may therefore still hold None in a field other than the one matched on
  (`MatchEngine.MatchedRecord` copies the cells of one row).
- Confidence is an integer: 100 for an exact match, the scorer's score for a
  fuzzy one.
- The model keeps every extracted name as text, and `pd.notnull` then drops
  only the rows without a match; a match with an empty group (for example
  `\\h\RPA\\x`) keeps the empty name. The source creates the name column
  as a datetime column (`pd.NaT`) and writes the names into it one by one,
  so how pandas converts them may differ (see "## Left out").
- Structural load errors are modelled as distinguishable failure values.
  - The source's handlers print a structural error and return no table; the
    next step then fails. A missing file raises `PathNotFoundException`.
    `Service.MappingOutcome` states the order in which the two files'
    outcomes are reported.
  - The sequential renames can leave a canonical column missing or repeated.
    `TaskTable.SwappedMappingLosesTaskColumn` shows this for a mapping that
    swaps the task and process names. The model reports it as
    `UnresolvedRoleColumn`. The source does not always fail: a missing or
    duplicated column may raise later, but a duplicated Developers column is
    read as several cells per row and written out (see "## Left out").

## Model

| member | source | states |
|---|---|---|
| `General.UndefinedEnumMembers` | cdba_scanner/src/enum/general.py:12-32 | `matchedFile` and `confident` are not members of their enums; `fullPath` and `confidence` are, with column names `FullPath` and `Confidence` |
| `Frame.IndexOf` | cdba_scanner/src/service/task_mapping_service.py:91-95 | the result is the first position holding the value, and None exactly when the value is absent (`getIndexInList`, which `MatchEngine.GetIndexInList` applies to a column of cells; also used for column lookup) |
| `Frame.RenameColumn` | cdba_scanner/src/service/task_mapping_service.py:70-76 | renaming keeps the width; every column called the old name (however many) is called the new name and every other column is unchanged; so no column keeps the old name (when the names differ), and the new name is present exactly when it or the old name was |
| `Frame.DropUnnamed` | cdba_scanner/src/service/task_mapping_service.py:31 | a column survives exactly when its name does not start with `Unnamed`; every row is kept and is as wide as the new header |
| `Frame.KeptColumns` | cdba_scanner/src/service/task_mapping_service.py:52 | the kept column positions are in bounds, in their original order, not `Unnamed`, and include every column that is not `Unnamed` |
| `PathExtraction.GroupEnd` | cdba_scanner/src/service/task_mapping_service.py:33 | the lazy group ends at the first backslash after which `.*$` matches; before it there is no newline and no earlier such backslash; otherwise there is none |
| `PathExtraction.FindMatch` | cdba_scanner/src/service/task_mapping_service.py:33-35 | the search returns a match of the pattern with the smallest prefix and then the smallest group, or None when no match starts at or after the given position |
| `PathExtraction.ExtractTaskName` | cdba_scanner/src/service/task_mapping_service.py:35-37 | extraction gives None exactly when the pattern matches nowhere; otherwise it gives group 1 of the leftmost (lazy) match |
| `PathExtraction.EarlierGroupEnd` | cdba_scanner/src/service/task_mapping_service.py:33 | any backslash inside a matched group could have ended the group instead |
| `PathExtraction.ExtractedNameIsOneSegment` | cdba_scanner/src/service/task_mapping_service.py:33-37 | an extracted name contains no backslash and no newline |
| `PathExtraction.FirstMarkerName` | cdba_scanner/src/service/task_mapping_service.py:33-37 | conversely, in a path without newlines, the text between the first `\RPA\` and the next backslash is the extracted name |
| `PathExtraction.RpaPathName` | cdba_scanner/src/service/task_mapping_service.py:33-37 | a path `\\host\RPA\name\file` with no `R` in the host, no backslash in the name and no newline yields `name` |
| `PathExtraction.ExtractWithoutNewlines` | cdba_scanner/src/service/task_mapping_service.py:33-37 | for a path without newlines, a name is extracted iff the path starts with `\\` and has a `\RPA\` followed later by a backslash; the name lies between the first `\RPA\` and the next backslash |
| `SearchResult.ReadSearchResultFile` | cdba_scanner/src/service/task_mapping_service.py:28-46 | the outcome is PathNotFound for a missing file, a failure for an unparseable one, and otherwise the row outcome of the table without its `Unnamed` columns |
| `SearchResult.ExtractTaskNames` | cdba_scanner/src/service/task_mapping_service.py:32-40 | an empty table gives no records; a missing FullPath column or path cell fails; otherwise the result is the rows whose path yields a name, in order, with that name |
| `SearchResult.KeepNamed` | cdba_scanner/src/service/task_mapping_service.py:39 | the row mask keeps at most the rows it was given, and keeps all of them exactly when every name is present |
| `SearchResult.KeepNamedSound` | cdba_scanner/src/service/task_mapping_service.py:39 | the filter keeps no more rows than it was given, and each kept record is some row's path with that row's present name |
| `SearchResult.KeepNamedComplete` | cdba_scanner/src/service/task_mapping_service.py:39 | every row whose name is present is kept |
| `SearchResult.KeepNamedAppend` | cdba_scanner/src/service/task_mapping_service.py:39 | filtering two consecutive blocks of rows gives the first block's survivors followed by the second's |
| `SearchResult.SurvivorsAppend` | cdba_scanner/src/service/task_mapping_service.py:34-39 | the loader's output preserves row order across blocks of rows |
| `SearchResult.SurvivorsOfOne` | cdba_scanner/src/service/task_mapping_service.py:34-39 | a single row survives exactly when its path yields a name, carrying that name |
| `SearchResult.SurvivorsExactlyNamed` | cdba_scanner/src/service/task_mapping_service.py:34-39 | every survivor carries the name extracted from its own path; every path yielding a name survives; a path yielding none is absent |
| `SearchResult.SurvivorsAllNamed` | cdba_scanner/src/service/task_mapping_service.py:34-39 | when every path yields a name, the records follow the rows one to one |
| `SearchResult.AsWrittenScanLoadFails` | cdba_scanner/src/service/task_mapping_service.py:35 | as written, any scan table with a row fails with the undefined-member error |
| `SearchResult.ScanRowsAllNamed` | cdba_scanner/src/service/task_mapping_service.py:34-39 | reading FullPath, a table whose every path is present and yields a name loads one record per row, in order, each holding its row's path |
| `TaskTable.NormalizeInactive` | cdba_scanner/src/service/task_mapping_service.py:78-79 | true exactly for `'Y'`, false exactly for a missing cell, and any other text kept unchanged |
| `TaskTable.FirstUnmapped` | cdba_scanner/src/service/task_mapping_service.py:54-68 | None exactly when every role's mapped column is present; otherwise a role whose column is missing from the mapping or the header |
| `TaskTable.FirstUnmappedOfRoles` | cdba_scanner/src/service/task_mapping_service.py:54-68 | the reported role is the first unmapped one in the order Task, Process, Developer, Inactive |
| `TaskTable.AllRolesMapped` | cdba_scanner/src/service/task_mapping_service.py:54-68 | no role is reported exactly when every role is mapped, and then every role has a mapping entry |
| `TaskTable.MappedRolesHaveEntries` | cdba_scanner/src/service/task_mapping_service.py:54-68 | a role whose column passed the check has an entry in the mapping |
| `TaskTable.UniqueColumn` | cdba_scanner/src/service/task_mapping_service.py:78 | the position found holds the name and no other position does; None means the name is absent or repeated |
| `TaskTable.ResolveFailsOnlyUnresolved` | cdba_scanner/src/service/task_mapping_service.py:78-80 | locating the canonical columns can fail only with an unresolved-column error |
| `TaskTable.ReadTaskTableFile` | cdba_scanner/src/service/task_mapping_service.py:49-87 | the outcome is PathNotFound for a missing file, a failure for an unparseable one, MissingRoleColumn for the first failed role check, and otherwise the renamed and normalised records |
| `TaskTable.RenameAndNormalize` | cdba_scanner/src/service/task_mapping_service.py:70-80 | the four in-place renames followed by the coercion give `TaskTable.RenamedRecordsOf` of the table |
| `TaskTable.RenameAllOfRoles` | cdba_scanner/src/service/task_mapping_service.py:70-76 | the renames apply to Task, Process, Developer and Inactive in that order, each renaming the mapped column to its canonical name |
| `TaskTable.LoadNeedsMappedColumns` | cdba_scanner/src/service/task_mapping_service.py:54-68 | a load succeeds only for a parsed file whose four mapped columns survive the `Unnamed` drop; an unmapped role gives a missing-column error |
| `TaskTable.ParsedLoadIsRenamedRecords` | cdba_scanner/src/service/task_mapping_service.py:54-80 | once every role's column is present, loading is renaming and reading each row |
| `TaskTable.RenamedRecordsFromCanonicalColumns` | cdba_scanner/src/service/task_mapping_service.py:70-80 | after a successful rename each canonical name is on exactly one column; there is one record per row with that row's cells; no inactive value is left as `'Y'` |
| `TaskTable.ResolvedColumnsAreUnique` | cdba_scanner/src/service/task_mapping_service.py:78-80 | resolved columns are exactly the unique columns carrying the four canonical names |
| `TaskTable.RenamedAt` | cdba_scanner/src/service/task_mapping_service.py:70-76 | under a non-colliding mapping, a renamed column has a role's canonical name exactly when it was that role's mapped column |
| `TaskTable.ResolvedAtMappedPosition` | cdba_scanner/src/service/task_mapping_service.py:70-76 | under a non-colliding mapping each canonical column is found exactly where the role's mapped column was |
| `TaskTable.NonCollidingResolves` | cdba_scanner/src/service/task_mapping_service.py:70-80 | under a non-colliding mapping all four canonical columns resolve, to the mapped columns' positions |
| `TaskTable.NonCollidingMappingLoads` | cdba_scanner/src/service/task_mapping_service.py:49-81 | a non-colliding mapping always loads: one record per row, holding that row's cells from the columns the caller named, with only the inactive cell coerced |
| `TaskTable.DefaultMappingNonColliding` | cdba_scanner/src/service/task_mapping_service.py:70-76 | mapping every role to its own canonical name (the application's default) changes no column name and cannot collide |
| `TaskTable.SwappedMappingLosesTaskColumn` | cdba_scanner/src/service/task_mapping_service.py:70-76 | swapping the task and process names leaves two ProcessName columns and no Task column, so locating the columns fails |
| `Fuzzy.ExtractOne` | cdba_scanner/src/service/task_mapping_service.py:144-151 | None exactly when every candidate is missing; otherwise a present candidate with its own score in [0, 100], no lower than any candidate's, and the earliest candidate with that score |
| `Fuzzy.ExtractOneFindsTopScore` | cdba_scanner/src/service/task_mapping_service.py:144-151 | when a candidate reaches the top score, the best match exists and carries exactly that score |
| `MatchEngine.FuzzyRecord` | cdba_scanner/src/service/task_mapping_service.py:143-189 | the fuzzy step keeps the folder's name and path; it has no rule exactly when it is the unmatched record, and a rule comes with a confidence in (75, 100] |
| `MatchEngine.MapRecord` | cdba_scanner/src/service/task_mapping_service.py:110-189 | the cascade keeps the folder's name and path; it has no rule exactly when it is the unmatched record; a folder named like some row's task is matched by taskName with confidence 100 |
| `MatchEngine.CreateMappedTaskFolderDf` | cdba_scanner/src/service/task_mapping_service.py:106-191 | one record per scanned row, in order, the k-th being the cascade's record for the k-th row |
| `MatchEngine.MapRow` | cdba_scanner/src/service/task_mapping_service.py:110-189 | the loop body for one row (each `continue` a `return`) yields the cascade's record for that row |
| `MatchEngine.ExactTaskMatchWins` | cdba_scanner/src/service/task_mapping_service.py:112-125 | a folder named like some row's task takes the first such row, rule taskName, confidence 100, whatever the scorer |
| `MatchEngine.ExactProcessMatchWins` | cdba_scanner/src/service/task_mapping_service.py:127-140 | absent a task-name match, a folder named like some row's process takes the first such row, rule processName, confidence 100 |
| `MatchEngine.NoExactMatchMeansFuzzy` | cdba_scanner/src/service/task_mapping_service.py:112-143 | with neither exact match, the fuzzy step alone decides the record |
| `MatchEngine.ChoiceAtFirstTopRow` | cdba_scanner/src/service/task_mapping_service.py:144-157 | looking up the best candidate's name finds the first row holding the top score |
| `MatchEngine.FuzzyRule` | cdba_scanner/src/service/task_mapping_service.py:153-189 | with top task score st and top process score sp: rule taskName iff st > 75 and st > sp; rule processName iff sp > 75 and sp > st; otherwise unmatched (ties, or both at most 75) |
| `MatchEngine.FuzzyTaskMatchRow` | cdba_scanner/src/service/task_mapping_service.py:153-164 | when the fuzzy task rule fires, the record copies the first row with the top task score and has that score as confidence |
| `MatchEngine.FuzzyProcessMatchRow` | cdba_scanner/src/service/task_mapping_service.py:166-177 | when the fuzzy process rule fires, the record copies the first row with the top process score and has that score as confidence |
| `MatchEngine.NoCandidatesMeansUnmatched` | cdba_scanner/src/service/task_mapping_service.py:143-189 | with no exact match and no present name in one of the two columns (for example an empty table), the folder is unmatched |
| `MatchEngine.FuzzyRecordWellFormed` | cdba_scanner/src/service/task_mapping_service.py:143-189 | the fuzzy step's record is well formed (as below) |
| `MatchEngine.MappedRecordWellFormed` | cdba_scanner/src/service/task_mapping_service.py:112-189 | every output record is well formed: it keeps its folder's name and path. Unmatched: no reference fields, rule or confidence. Matched: a rule, a confidence in (75, 100], all fields copied from one reference row, and a present name in the matched column |
| `MatchEngine.MappedRowsFollowInput` | cdba_scanner/src/service/task_mapping_service.py:106-191 | the output has one record per scanned folder, in order, with that folder's name and path |
| `MatchEngine.ScenarioPathNames` | cdba_scanner/src/service/task_mapping_service.py:33-37 | the paths `\\srv\share\RPA\Invoice Processing\Main.xaml` and `...\Invoice Proccessing\Main.xaml` yield the folder names `Invoice Processing` and `Invoice Proccessing` |
| `MatchEngine.ExactScenario` | cdba_scanner/src/service/task_mapping_service.py:112-125 | the folder extracted from `\\srv\share\RPA\Invoice Processing\Main.xaml`, against a row with that task, maps by taskName with confidence 100 and that row's process, developer and inactive flag |
| `MatchEngine.MisspeltFolderMatches` | cdba_scanner/src/service/task_mapping_service.py:143-164 | a folder `Invoice Proccessing` scoring 92 against the task and 10 against the process maps to that task by taskName with confidence 92, whatever its path |
| `MatchEngine.FuzzyScenario` | cdba_scanner/src/service/task_mapping_service.py:143-164 | the misspelt folder extracted from `\\srv\share\RPA\Invoice Proccessing\Main.xaml` maps to the task by taskName with confidence 92 |
| `MatchEngine.AsWrittenRowPosition` | cdba_scanner/src/service/task_mapping_service.py:108 | the position the source reads for a row is in bounds, or None (IndexError) exactly when label-1 is past the end |
| `MatchEngine.AsWrittenReadsAnotherRow` | cdba_scanner/src/service/task_mapping_service.py:108-116 | with no row dropped and at least two rows, every output record reads another row's name and path |
| `MatchEngine.AsWrittenRunsPastEnd` | cdba_scanner/src/service/task_mapping_service.py:108-116 | labels 0 and 3 (rows dropped between them): the second row's read runs past the end |
| `MatchEngine.AsWrittenNeverMaps` | cdba_scanner/src/service/task_mapping_service.py:103 | as written, the engine produces no table for any input |
| `Service.MapFolderToTask` | cdba_scanner/src/service/task_mapping_service.py:17-20 | a run yields `Service.MappingOutcome`: a missing file first (scan, then reference), then the other scan error, then the other reference error, else the mapped rows |
| `Service.ScanRowsNamedByTheirPath` | cdba_scanner/src/service/task_mapping_service.py:33-39 | every loaded scan record carries the name extracted from its own path |
| `Service.ScanNotFoundOnlyWhenMissing` | cdba_scanner/src/service/task_mapping_service.py:41-46 | the scan loader reports PathNotFound exactly for a missing file |
| `Service.TaskNotFoundOnlyWhenMissing` | cdba_scanner/src/service/task_mapping_service.py:82-87 | the reference loader reports PathNotFound exactly for a missing file |
| `Service.MissingFileReported` | cdba_scanner/src/service/task_mapping_service.py:17-19 | a run reports PathNotFound exactly when one of the two files is missing |
| `Service.MappingSucceedsWhenBothLoad` | cdba_scanner/src/service/task_mapping_service.py:17-20 | a run succeeds exactly when both files load, and then yields the mapped rows of the loaded scan records against the loaded reference records |
| `Service.MappedRowsKeepExtractedNames` | cdba_scanner/src/service/task_mapping_service.py:110-188 | when every scan record carries the name extracted from its path, so does every mapped record, in the same position |
| `Service.SuccessfulRunKeepsScanRows` | cdba_scanner/src/service/task_mapping_service.py:17-20 | when both files load the run succeeds and yields one record per loaded scan row, in order, each holding that row's path and the name extracted from it |

## Left out

- CSV parsing is not modelled. The file is given as missing, unparseable or
  parsed into a header and text cells.
  - pandas type inference is not modelled: numeric columns, `True`/`False`
    literals and the default NA spellings all become missing cells or text.
  - Renaming of duplicate header names is not modelled either;
    `TaskTable.NonColliding` assumes distinct names.
- Writing the result (`writeCSV`, the timestamped file name and the
  printed messages) is not modelled. `Service.MapFolderToTask` returns the
  rows instead.
- The string similarity `fuzz.partial_token_sort_ratio` and the default
  preprocessing of `thefuzz` are not modelled. The scorer is a parameter with
  scores in [0, 100].
- The output's column order and missing-value rendering are not modelled.
  Neither is pandas omitting the Confidence column when no row matched; a
  record's confidence is None instead.
- The interactive prompts of `app.py` and the path validator are not modelled.
  They only supply the file names and the mapping.
- When a loader fails structurally, the source crashes later or, for an empty
  scan table, writes an empty result. The model returns the loader's failure
  instead (`Service.MappingOutcome`).
- `SearchResult.ExtractTaskNames`: treats every extracted name as text. The
  source's name column starts as a datetime column (`pd.NaT`), and pandas may
  convert names written into it while it is still one (an empty name or
  `NaT` to a missing value, which the filter then drops; a date-like name to
  a timestamp), so the outcome can depend on the row order. That conversion
  is not modelled.
- `TaskTable.ResolveColumns`: reports any missing or duplicated canonical
  column after the renames as `UnresolvedRoleColumn`. The source only fails
  where it uses such a column: a duplicated Developers column is read as
  several cells per row and written out, and a duplicated Task or
  ProcessName column fails where that column's names are listed (lines 113
  and 128). The model does not capture these partial results.
- `Frame.DropUnnamed`: states which column names survive and that the rows are
  kept. It does not state, cell by cell, that each kept row holds the cells of
  the kept columns; the definition does that.
- `Fuzzy.ExtractOne`: the score cut-off of `extractOne` is its default (none),
  so any present candidate can be returned. How `thefuzz` treats ties and
  missing values is a modelling assumption, since its code is not part of
  this model: the model skips missing candidates and lets the earliest
  candidate with the top score win. Releases built on `rapidfuzz` compare
  unrounded scores before rounding, so a later candidate may win a tie of
  the rounded scores, and older releases score a missing value as the text
  `None` instead of skipping it.

## Findings

| source | as written | input that shows it | evidently intended | confidence | as-written member | corrected member |
|---|---|---|---|---|---|---|
| cdba_scanner/src/service/task_mapping_service.py:35 | the path column is looked up as `SearchResultColumns.matchedFile`, which the enum does not define (it has `fullPath`), so the first row raises and the handler returns no table | any scan file with one row | read the `FullPath` column | not executed | `SearchResult.AsWrittenScanLoadFails` | `SearchResult.ScanRowsAllNamed` |
| cdba_scanner/src/service/task_mapping_service.py:103 | the confidence column is looked up as `MappedTaskFolderColumns.confident`, which the enum does not define (it has `confidence`), so the engine raises before its loop and the service does not catch it | any input, even an empty scan result | write the `Confidence` column | not executed | `MatchEngine.AsWrittenNeverMaps` | `MatchEngine.CreateMappedTaskFolderDf` |
| cdba_scanner/src/service/task_mapping_service.py:108 | the output's folder name, path and fuzzy query for row label i are read from position i-1 of the filtered table: -1 wraps to the last row, and a read runs past the end exactly when a row's label is greater than the number of rows (while rows whose labels are one more than their position read their own row) | two scan rows that both yield names: each record gets the other row's name and path | read every field from the current row, as the exact-match lookups do | not executed | `MatchEngine.AsWrittenReadsAnotherRow` | `MatchEngine.CreateMappedTaskFolderDf` |

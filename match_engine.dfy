/**
 * The matching engine (`createMappedTaskFolderDf`): every scanned folder is
 * matched against the reference table by exact task name, then exact process
 * name, then fuzzy score, and otherwise reported unmatched; one output record
 * per input row, in input order.
 */
module MatchEngine {
  import opened Wrappers
  import opened General
  import opened Frame
  import opened PathExtraction
  import opened SearchResult
  import opened TaskTable
  import opened Fuzzy

  /** One row of the mapped output table. */
  datatype MappedRecord = MappedRecord(
    folderName: string,
    task: Cell,
    process: Cell,
    developer: Cell,
    inactive: Option<InactiveFlag>,
    mappedBy: Option<MappedBy>,
    confidence: Option<int>,
    fullPath: string)

  /** The Task column of the reference table, as a list. */
  function TaskNames(table: seq<TaskRecord>): (names: seq<Cell>)
    ensures |names| == |table|
    ensures forall k :: 0 <= k < |table| ==> names[k] == table[k].task
  {
    seq(|table|, k requires 0 <= k < |table| => table[k].task)
  }

  /** The ProcessName column of the reference table, as a list. */
  function ProcessNames(table: seq<TaskRecord>): (names: seq<Cell>)
    ensures |names| == |table|
    ensures forall k :: 0 <= k < |table| ==> names[k] == table[k].process
  {
    seq(|table|, k requires 0 <= k < |table| => table[k].process)
  }

  /** `getIndexInList`: `IndexOf` on a column of cells, looking for a present `findValue`. */
  function GetIndexInList(findValue: string, searchList: seq<Cell>): Option<nat>
  {
    IndexOf(Some(findValue), searchList)
  }

  /** The record for a folder matched to reference row `ref` by `rule` with `confidence`. */
  function MatchedRecord(scan: ScanRecord, ref: TaskRecord, rule: MappedBy, confidence: int): MappedRecord
  {
    MappedRecord(scan.extractedTaskName, ref.task, ref.process, ref.developer, Some(ref.inactive),
                 Some(rule), Some(confidence), scan.fullPath)
  }

  /** The record for a folder nothing matched: no reference fields, no rule, no confidence. */
  function UnmatchedRecord(scan: ScanRecord): MappedRecord
  {
    MappedRecord(scan.extractedTaskName, None, None, None, None, None, None, scan.fullPath)
  }

  /**
   * The fuzzy step. A missing best candidate in either column raises in the
   * source (unpacking None), which its handler turns into "unmatched".
   */
  function FuzzyRecord(scan: ScanRecord, table: seq<TaskRecord>, scorer: Scorer): (r: MappedRecord)
    ensures r.folderName == scan.extractedTaskName && r.fullPath == scan.fullPath
    ensures r.mappedBy.None? <==> r == UnmatchedRecord(scan)
    ensures r.mappedBy.Some? ==> r.confidence.Some? && FuzzyThreshold < r.confidence.value <= 100
  {
    var name := scan.extractedTaskName;
    var fuzzyTask := ExtractOne(name, TaskNames(table), scorer);
    var fuzzyProcess := ExtractOne(name, ProcessNames(table), scorer);
    if fuzzyTask.None? || fuzzyProcess.None? then UnmatchedRecord(scan)
    else if fuzzyTask.value.score > FuzzyThreshold && fuzzyTask.value.score > fuzzyProcess.value.score then
      MatchedRecord(scan, table[GetIndexInList(fuzzyTask.value.choice, TaskNames(table)).value],
                    ByTaskName, fuzzyTask.value.score)
    else if fuzzyProcess.value.score > FuzzyThreshold && fuzzyProcess.value.score > fuzzyTask.value.score then
      MatchedRecord(scan, table[GetIndexInList(fuzzyProcess.value.choice, ProcessNames(table)).value],
                    ByProcessName, fuzzyProcess.value.score)
    else UnmatchedRecord(scan)
  }

  /** The output record of one scanned folder: the match cascade in the source's order. */
  function MapRecord(scan: ScanRecord, table: seq<TaskRecord>, scorer: Scorer): (r: MappedRecord)
    ensures r.folderName == scan.extractedTaskName && r.fullPath == scan.fullPath
    ensures r.mappedBy.None? <==> r == UnmatchedRecord(scan)
    ensures Some(scan.extractedTaskName) in TaskNames(table) ==>
              r.mappedBy == Some(ByTaskName) && r.confidence == Some(ExactConfidence)
  {
    match GetIndexInList(scan.extractedTaskName, TaskNames(table))
    case Some(i) => MatchedRecord(scan, table[i], ByTaskName, ExactConfidence)
    case None =>
      match GetIndexInList(scan.extractedTaskName, ProcessNames(table))
      case Some(i) => MatchedRecord(scan, table[i], ByProcessName, ExactConfidence)
      case None => FuzzyRecord(scan, table, scorer)
  }

  /** The whole output table: one record per scanned folder, in order. */
  function MappedRows(searchResult: seq<ScanRecord>, table: seq<TaskRecord>, scorer: Scorer): seq<MappedRecord>
  {
    seq(|searchResult|, k requires 0 <= k < |searchResult| => MapRecord(searchResult[k], table, scorer))
  }

  /**
   * `createMappedTaskFolderDf`. The source takes the output's folder name,
   * path and fuzzy query from position label-1 of the filtered scan table
   * (line 108); every one of them is read from the current row here, which is
   * what the exact-match lookups of the same loop already do.
   */
  method CreateMappedTaskFolderDf(searchResult: seq<ScanRecord>, taskTable: seq<TaskRecord>, scorer: Scorer)
    returns (rowList: seq<MappedRecord>)
    ensures |rowList| == |searchResult|
    ensures forall k :: 0 <= k < |searchResult| ==> rowList[k] == MapRecord(searchResult[k], taskTable, scorer)
    ensures rowList == MappedRows(searchResult, taskTable, scorer)
  {
    rowList := [];
    for i := 0 to |searchResult|
      invariant |rowList| == i
      invariant forall k :: 0 <= k < i ==> rowList[k] == MapRecord(searchResult[k], taskTable, scorer)
    {
      var rowData := MapRow(searchResult[i], taskTable, scorer);
      rowList := rowList + [rowData];
    }
  }

  /**
   * The body of the loop for one scanned row; each `return` is one of the
   * source's `continue`s.
   */
  method MapRow(row: ScanRecord, taskTable: seq<TaskRecord>, scorer: Scorer) returns (rowData: MappedRecord)
    ensures rowData == MapRecord(row, taskTable, scorer)
  {
    var currentFolderName := row.extractedTaskName;

    // Task name exact match
    var taskNameList := TaskNames(taskTable);
    var index := GetIndexInList(currentFolderName, taskNameList);
    if index.Some? {
      return MatchedRecord(row, taskTable[index.value], ByTaskName, ExactConfidence);
    }

    // Process name exact match
    var processNameList := ProcessNames(taskTable);
    index := GetIndexInList(currentFolderName, processNameList);
    if index.Some? {
      return MatchedRecord(row, taskTable[index.value], ByProcessName, ExactConfidence);
    }

    // Fuzzy match; a missing best candidate raises in the source and is caught
    var fuzzyTask := ExtractOne(currentFolderName, taskNameList, scorer);
    var fuzzyProcess := ExtractOne(currentFolderName, processNameList, scorer);
    if fuzzyTask.Some? && fuzzyProcess.Some? {
      var taskScore, processScore := fuzzyTask.value.score, fuzzyProcess.value.score;
      if taskScore > FuzzyThreshold && taskScore > processScore {
        index := GetIndexInList(fuzzyTask.value.choice, taskNameList);
        return MatchedRecord(row, taskTable[index.value], ByTaskName, taskScore);
      }
      if processScore > FuzzyThreshold && processScore > taskScore {
        index := GetIndexInList(fuzzyProcess.value.choice, processNameList);
        return MatchedRecord(row, taskTable[index.value], ByProcessName, processScore);
      }
    }

    // No match
    return UnmatchedRecord(row);
  }

  /** No reference row has the folder's name as its task or process name. */
  ghost predicate NoExactMatch(name: string, table: seq<TaskRecord>)
  {
    forall k :: 0 <= k < |table| ==> table[k].task != Some(name) && table[k].process != Some(name)
  }

  /**
   * An exact task-name match wins over everything else: the folder takes the
   * first row with that task name, rule taskName, confidence 100, whatever
   * the scorer says.
   */
  lemma ExactTaskMatchWins(scan: ScanRecord, table: seq<TaskRecord>, scorer: Scorer, k: nat)
    requires k < |table| && table[k].task == Some(scan.extractedTaskName)
    requires forall j :: 0 <= j < k ==> table[j].task != Some(scan.extractedTaskName)
    ensures MapRecord(scan, table, scorer) == MatchedRecord(scan, table[k], ByTaskName, ExactConfidence)
  {
    var index := GetIndexInList(scan.extractedTaskName, TaskNames(table));
    assert TaskNames(table)[k] == Some(scan.extractedTaskName);
    assert index.Some?;
    assert index.value == k;
  }

  /**
   * Without a task-name match, an exact process-name match wins: the first row
   * with that process name, rule processName, confidence 100.
   */
  lemma ExactProcessMatchWins(scan: ScanRecord, table: seq<TaskRecord>, scorer: Scorer, k: nat)
    requires forall j :: 0 <= j < |table| ==> table[j].task != Some(scan.extractedTaskName)
    requires k < |table| && table[k].process == Some(scan.extractedTaskName)
    requires forall j :: 0 <= j < k ==> table[j].process != Some(scan.extractedTaskName)
    ensures MapRecord(scan, table, scorer) == MatchedRecord(scan, table[k], ByProcessName, ExactConfidence)
  {
    assert GetIndexInList(scan.extractedTaskName, TaskNames(table)).None?;
    var index := GetIndexInList(scan.extractedTaskName, ProcessNames(table));
    assert ProcessNames(table)[k] == Some(scan.extractedTaskName);
    assert index.Some?;
    assert index.value == k;
  }

  /** The first row whose `names` entry is present and scores `s`. */
  ghost predicate FirstWithScore(query: string, names: seq<Cell>, scorer: Scorer, s: int, k: nat)
  {
    && k < |names| && names[k].Some? && scorer(query, names[k].value) == s
    && forall j :: 0 <= j < k && names[j].Some? ==> scorer(query, names[j].value) != s
  }

  /** The best candidate of `names` is found at the first row holding the top score. */
  lemma ChoiceAtFirstTopRow(query: string, names: seq<Cell>, scorer: Scorer, s: int, k: nat)
    requires IsTopScore(query, names, scorer, s)
    requires FirstWithScore(query, names, scorer, s, k)
    ensures ExtractOne(query, names, scorer).Some?
    ensures GetIndexInList(ExtractOne(query, names, scorer).value.choice, names) == Some(k)
  {
    ExtractOneFindsTopScore(query, names, scorer, s);
    var r := ExtractOne(query, names, scorer).value;
    var i := GetIndexInList(r.choice, names).value;
    assert names[i].Some? && scorer(query, names[i].value) == s;
    assert i <= k;
  }

  /** When neither exact rule applies, the fuzzy step decides. */
  lemma NoExactMatchMeansFuzzy(scan: ScanRecord, table: seq<TaskRecord>, scorer: Scorer)
    requires NoExactMatch(scan.extractedTaskName, table)
    ensures MapRecord(scan, table, scorer) == FuzzyRecord(scan, table, scorer)
  {
    assert GetIndexInList(scan.extractedTaskName, TaskNames(table)).None?;
    assert GetIndexInList(scan.extractedTaskName, ProcessNames(table)).None?;
  }

  /**
   * The fuzzy rule, when neither exact rule applies and both columns have a
   * present name: with top task score `st` and top process score `sp`, the
   * task rule fires exactly when `st` exceeds the threshold and `sp`, the
   * process rule exactly when `sp` exceeds the threshold and `st`, and
   * otherwise (both at most the threshold, or a tie) the folder is unmatched.
   */
  lemma FuzzyRule(scan: ScanRecord, table: seq<TaskRecord>, scorer: Scorer, st: int, sp: int)
    requires NoExactMatch(scan.extractedTaskName, table)
    requires IsTopScore(scan.extractedTaskName, TaskNames(table), scorer, st)
    requires IsTopScore(scan.extractedTaskName, ProcessNames(table), scorer, sp)
    ensures MapRecord(scan, table, scorer).mappedBy == Some(ByTaskName) <==> st > FuzzyThreshold && st > sp
    ensures MapRecord(scan, table, scorer).mappedBy == Some(ByProcessName) <==> sp > FuzzyThreshold && sp > st
    ensures MapRecord(scan, table, scorer).mappedBy.None? ==> MapRecord(scan, table, scorer) == UnmatchedRecord(scan)
  {
    NoExactMatchMeansFuzzy(scan, table, scorer);
    ExtractOneFindsTopScore(scan.extractedTaskName, TaskNames(table), scorer, st);
    ExtractOneFindsTopScore(scan.extractedTaskName, ProcessNames(table), scorer, sp);
  }

  /**
   * When the fuzzy task rule fires, the confidence is the top task score and
   * the reference fields come from the first row holding that score.
   */
  lemma FuzzyTaskMatchRow(scan: ScanRecord, table: seq<TaskRecord>, scorer: Scorer, st: int, sp: int, k: nat)
    requires NoExactMatch(scan.extractedTaskName, table)
    requires IsTopScore(scan.extractedTaskName, TaskNames(table), scorer, st)
    requires IsTopScore(scan.extractedTaskName, ProcessNames(table), scorer, sp)
    requires st > FuzzyThreshold && st > sp
    requires FirstWithScore(scan.extractedTaskName, TaskNames(table), scorer, st, k)
    ensures k < |table|
    ensures MapRecord(scan, table, scorer) == MatchedRecord(scan, table[k], ByTaskName, st)
  {
    NoExactMatchMeansFuzzy(scan, table, scorer);
    ExtractOneFindsTopScore(scan.extractedTaskName, ProcessNames(table), scorer, sp);
    ChoiceAtFirstTopRow(scan.extractedTaskName, TaskNames(table), scorer, st, k);
  }

  /**
   * When the fuzzy process rule fires, the confidence is the top process
   * score and the reference fields come from the first row holding that score.
   */
  lemma FuzzyProcessMatchRow(scan: ScanRecord, table: seq<TaskRecord>, scorer: Scorer, st: int, sp: int, k: nat)
    requires NoExactMatch(scan.extractedTaskName, table)
    requires IsTopScore(scan.extractedTaskName, TaskNames(table), scorer, st)
    requires IsTopScore(scan.extractedTaskName, ProcessNames(table), scorer, sp)
    requires sp > FuzzyThreshold && sp > st
    requires FirstWithScore(scan.extractedTaskName, ProcessNames(table), scorer, sp, k)
    ensures k < |table|
    ensures MapRecord(scan, table, scorer) == MatchedRecord(scan, table[k], ByProcessName, sp)
  {
    NoExactMatchMeansFuzzy(scan, table, scorer);
    ExtractOneFindsTopScore(scan.extractedTaskName, TaskNames(table), scorer, st);
    ChoiceAtFirstTopRow(scan.extractedTaskName, ProcessNames(table), scorer, sp, k);
  }

  /**
   * When neither exact rule applies and one of the two columns has no
   * present name at all (in particular for an empty reference table), the
   * folder is unmatched whatever the scorer says.
   */
  lemma NoCandidatesMeansUnmatched(scan: ScanRecord, table: seq<TaskRecord>, scorer: Scorer)
    requires NoExactMatch(scan.extractedTaskName, table)
    requires (forall k :: 0 <= k < |table| ==> table[k].task.None?) || (forall k :: 0 <= k < |table| ==> table[k].process.None?)
    ensures MapRecord(scan, table, scorer) == UnmatchedRecord(scan)
  {
    var name := scan.extractedTaskName;
    assert GetIndexInList(name, TaskNames(table)).None?;
    assert GetIndexInList(name, ProcessNames(table)).None?;
    assert ExtractOne(name, TaskNames(table), scorer).None? || ExtractOne(name, ProcessNames(table), scorer).None?;
  }

  /**
   * An output record keeps its folder's name and path. An unmatched record
   * has no reference fields, rule or confidence; a matched one has a rule and
   * a confidence above the threshold and at most 100, copies all four
   * reference fields from one reference row, and holds a present name in the
   * column its rule matched on.
   */
  ghost predicate WellFormedRecord(rec: MappedRecord, scan: ScanRecord, table: seq<TaskRecord>)
  {
    && rec.folderName == scan.extractedTaskName
    && rec.fullPath == scan.fullPath
    && (rec.mappedBy.None? <==> rec.confidence.None?)
    && (rec.mappedBy.None? ==> rec == UnmatchedRecord(scan))
    && (rec.confidence.Some? ==> FuzzyThreshold < rec.confidence.value <= 100)
    && (rec.mappedBy.Some? ==> exists k :: 0 <= k < |table| && rec == MatchedRecord(scan, table[k], rec.mappedBy.value, rec.confidence.value))
    && (rec.mappedBy == Some(ByTaskName) ==> rec.task.Some?)
    && (rec.mappedBy == Some(ByProcessName) ==> rec.process.Some?)
  }

  /** The fuzzy step yields a well-formed record. */
  lemma FuzzyRecordWellFormed(scan: ScanRecord, table: seq<TaskRecord>, scorer: Scorer)
    ensures WellFormedRecord(FuzzyRecord(scan, table, scorer), scan, table)
  {
    var name := scan.extractedTaskName;
    var rec := FuzzyRecord(scan, table, scorer);
    var fuzzyTask := ExtractOne(name, TaskNames(table), scorer);
    var fuzzyProcess := ExtractOne(name, ProcessNames(table), scorer);
    if fuzzyTask.Some? && fuzzyProcess.Some? {
      var ti := GetIndexInList(fuzzyTask.value.choice, TaskNames(table));
      var pi := GetIndexInList(fuzzyProcess.value.choice, ProcessNames(table));
      if rec.mappedBy == Some(ByTaskName) {
        assert rec == MatchedRecord(scan, table[ti.value], ByTaskName, fuzzyTask.value.score);
      } else if rec.mappedBy == Some(ByProcessName) {
        assert rec == MatchedRecord(scan, table[pi.value], ByProcessName, fuzzyProcess.value.score);
      }
    }
  }

  /** Every output record is well formed. */
  lemma MappedRecordWellFormed(scan: ScanRecord, table: seq<TaskRecord>, scorer: Scorer)
    ensures WellFormedRecord(MapRecord(scan, table, scorer), scan, table)
  {
    var name := scan.extractedTaskName;
    var rec := MapRecord(scan, table, scorer);
    var t := GetIndexInList(name, TaskNames(table));
    var p := GetIndexInList(name, ProcessNames(table));
    if t.Some? {
      assert rec == MatchedRecord(scan, table[t.value], ByTaskName, ExactConfidence);
    } else if p.Some? {
      assert rec == MatchedRecord(scan, table[p.value], ByProcessName, ExactConfidence);
    } else {
      assert rec == FuzzyRecord(scan, table, scorer);
      FuzzyRecordWellFormed(scan, table, scorer);
    }
  }

  /** The output has one record per scanned folder, in the scan's order, each with that folder's name and path. */
  lemma MappedRowsFollowInput(searchResult: seq<ScanRecord>, table: seq<TaskRecord>, scorer: Scorer)
    ensures |MappedRows(searchResult, table, scorer)| == |searchResult|
    ensures forall k :: 0 <= k < |searchResult| ==>
              MappedRows(searchResult, table, scorer)[k].folderName == searchResult[k].extractedTaskName
              && MappedRows(searchResult, table, scorer)[k].fullPath == searchResult[k].fullPath
  {
    forall k | 0 <= k < |searchResult|
      ensures MappedRows(searchResult, table, scorer)[k].folderName == searchResult[k].extractedTaskName
      ensures MappedRows(searchResult, table, scorer)[k].fullPath == searchResult[k].fullPath
    {
      MappedRecordWellFormed(searchResult[k], table, scorer);
    }
  }

  /** The scanned path of the exact scenario. */
  const InvoicePath: string := RpaPath("srv\\share", "Invoice Processing", "Main.xaml")

  /** The scanned path of the fuzzy scenario, with the folder name misspelt. */
  const MisspeltPath: string := RpaPath("srv\\share", "Invoice Proccessing", "Main.xaml")

  /** The folder names the loader extracts from the two scenario paths. */
  lemma ScenarioPathNames()
    ensures ExtractTaskName(InvoicePath) == Some("Invoice Processing")
    ensures ExtractTaskName(MisspeltPath) == Some("Invoice Proccessing")
  {
    RpaPathName("srv\\share", "Invoice Processing", "Main.xaml");
    RpaPathName("srv\\share", "Invoice Proccessing", "Main.xaml");
  }

  /** A reference row used by the scenarios below. */
  const InvoiceRow: TaskRecord := TaskRecord(Some("Invoice Processing"), Some("Finance"), Some("Alice"), Flag(false))

  /**
   * The folder extracted from `\\srv\share\RPA\Invoice Processing\Main.xaml`
   * is named exactly like a reference task, so it is matched to it by task name
   * with confidence 100.
   */
  lemma ExactScenario(scorer: Scorer)
    ensures ExtractTaskName(InvoicePath).Some?
    ensures var scan := ScanRecord(InvoicePath, ExtractTaskName(InvoicePath).value);
            MapRecord(scan, [InvoiceRow], scorer) ==
              MappedRecord("Invoice Processing", Some("Invoice Processing"), Some("Finance"), Some("Alice"),
                           Some(Flag(false)), Some(ByTaskName), Some(100), InvoicePath)
  {
    ScenarioPathNames();
    var scan := ScanRecord(InvoicePath, "Invoice Processing");
    ExactTaskMatchWins(scan, [InvoiceRow], scorer, 0);
  }

  /** A scorer that rates the pair of a misspelt folder and its task 92 and everything else 10. */
  function MisspeltScorer(q: string, c: string): (s: int)
    ensures 0 <= s <= 100
  {
    if q == "Invoice Proccessing" && c == "Invoice Processing" then 92 else 10
  }

  /**
   * The folder extracted from `\\srv\share\RPA\Invoice Proccessing\Main.xaml`
   * matches no name exactly; its best task score is 92 against a best process
   * score of 10, so it is matched by task name with confidence 92.
   */
  lemma FuzzyScenario()
    ensures ExtractTaskName(MisspeltPath).Some?
    ensures var scan := ScanRecord(MisspeltPath, ExtractTaskName(MisspeltPath).value);
            MapRecord(scan, [InvoiceRow], MisspeltScorer) ==
              MappedRecord("Invoice Proccessing", Some("Invoice Processing"), Some("Finance"), Some("Alice"),
                           Some(Flag(false)), Some(ByTaskName), Some(92), MisspeltPath)
  {
    ScenarioPathNames();
    MisspeltFolderMatches(MisspeltPath);
  }

  /** The fuzzy scenario's record, for the misspelt folder name found at any path. */
  lemma MisspeltFolderMatches(path: string)
    ensures MapRecord(ScanRecord(path, "Invoice Proccessing"), [InvoiceRow], MisspeltScorer) ==
              MappedRecord("Invoice Proccessing", Some("Invoice Processing"), Some("Finance"), Some("Alice"),
                           Some(Flag(false)), Some(ByTaskName), Some(92), path)
  {
    var scan := ScanRecord(path, "Invoice Proccessing");
    var name := scan.extractedTaskName;
    assert name != "Invoice Processing" && name != "Finance";
    assert TaskNames([InvoiceRow]) == [Some("Invoice Processing")];
    assert ProcessNames([InvoiceRow]) == [Some("Finance")];
    assert MisspeltScorer(name, "Invoice Processing") == 92;
    assert MisspeltScorer(name, "Finance") == 10;
    assert Scores(name, TaskNames([InvoiceRow]), MisspeltScorer, 92) by {
      assert TaskNames([InvoiceRow])[0] == Some("Invoice Processing");
    }
    assert Scores(name, ProcessNames([InvoiceRow]), MisspeltScorer, 10) by {
      assert ProcessNames([InvoiceRow])[0] == Some("Finance");
    }
    FuzzyTaskMatchRow(scan, [InvoiceRow], MisspeltScorer, 92, 10, 0);
  }

  /**
   * The row position the source reads the output's folder name, path and
   * fuzzy query from, for the row at position `pos` of the filtered scan
   * table whose surviving index labels are `labels`: position label-1, where
   * -1 means the last row and a position past the end raises (None).
   */
  function AsWrittenRowPosition(labels: seq<nat>, pos: nat): (n: Option<nat>)
    requires pos < |labels|
    ensures n.Some? ==> n.value < |labels|
    ensures n.None? <==> labels[pos] > |labels|
  {
    if labels[pos] == 0 then Some(|labels| - 1)
    else if labels[pos] - 1 < |labels| then Some(labels[pos] - 1)
    else None
  }

  /**
   * When no scanned row was dropped (labels 0, 1, 2, ...) and there are at
   * least two rows, every output record takes its folder name and path from a
   * row other than its own.
   */
  lemma AsWrittenReadsAnotherRow(labels: seq<nat>)
    requires |labels| >= 2
    requires forall k :: 0 <= k < |labels| ==> labels[k] == k
    ensures forall pos :: 0 <= pos < |labels| ==>
              AsWrittenRowPosition(labels, pos).Some? && AsWrittenRowPosition(labels, pos).value != pos
  {
  }

  /** When a dropped row leaves a gap in the labels, the source's read runs past the end and raises. */
  lemma AsWrittenRunsPastEnd()
    ensures AsWrittenRowPosition([0, 3], 1).None?
  {
  }

  /**
   * `createMappedTaskFolderDf` as written: before its loop it looks up the
   * confidence column as `confident`, which the output enum does not define,
   * so it raises for every input (and the service does not catch it).
   */
  function AsWrittenMappedTable(searchResult: seq<ScanRecord>, taskTable: seq<TaskRecord>, scorer: Scorer): Option<seq<MappedRecord>>
  {
    match MappedTaskFolderColumnValue("confident")
    case None => None
    case Some(_) => Some(MappedRows(searchResult, taskTable, scorer))
  }

  /** As written, no input produces a mapped table, not even an empty scan result. */
  lemma AsWrittenNeverMaps(searchResult: seq<ScanRecord>, taskTable: seq<TaskRecord>, scorer: Scorer)
    ensures AsWrittenMappedTable(searchResult, taskTable, scorer).None?
  {
    UndefinedEnumMembers();
  }
}

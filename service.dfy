/**
 * The service entry point (`mapFolderToTask`): load the scan result, load the
 * reference table, and build the mapped table. Writing the result to a
 * timestamped CSV file is not modelled; the mapped rows are returned instead.
 */
module Service {
  import opened Wrappers
  import opened General
  import opened Frame
  import opened PathExtraction
  import opened SearchResult
  import opened TaskTable
  import opened Fuzzy
  import opened MatchEngine

  /**
   * What a run yields. A missing scan file raises before the reference file
   * is read and a missing reference file raises after it; any other loading
   * problem (scan first) yields no table.
   */
  ghost function MappingOutcome(columnMapping: ColumnMapping, scanFile: CsvFile, taskFile: CsvFile, scorer: Scorer)
    : Result<seq<MappedRecord>, LoadError>
  {
    var scan := SearchResultOf(scanFile);
    var tasks := TaskTableOf(taskFile, columnMapping);
    if scan == Failure(PathNotFound) then Failure(PathNotFound)
    else if tasks == Failure(PathNotFound) then Failure(PathNotFound)
    else if scan.Failure? then Failure(scan.error)
    else if tasks.Failure? then Failure(tasks.error)
    else Success(MappedRows(scan.value, tasks.value, scorer))
  }

  /** `mapFolderToTask`, returning the mapped rows rather than writing them. */
  method MapFolderToTask(columnMapping: ColumnMapping, scanFile: CsvFile, taskFile: CsvFile, scorer: Scorer)
    returns (r: Result<seq<MappedRecord>, LoadError>)
    ensures r == MappingOutcome(columnMapping, scanFile, taskFile, scorer)
  {
    var scanResult := ReadSearchResultFile(scanFile);
    if scanResult == Failure(PathNotFound) {
      return Failure(PathNotFound);
    }
    var taskTable := ReadTaskTableFile(taskFile, columnMapping);
    if taskTable == Failure(PathNotFound) {
      return Failure(PathNotFound);
    }
    if scanResult.Failure? {
      return Failure(scanResult.error);
    }
    if taskTable.Failure? {
      return Failure(taskTable.error);
    }
    var rows := CreateMappedTaskFolderDf(scanResult.value, taskTable.value, scorer);
    r := Success(rows);
  }

  /** Every loaded scan record carries the name extracted from its own path. */
  lemma ScanRowsNamedByTheirPath(df: Table)
    requires ScanRowsOf(df).Success?
    ensures forall rec :: rec in ScanRowsOf(df).value ==> ExtractTaskName(rec.fullPath) == Some(rec.extractedTaskName)
  {
    if |df.rows| > 0 {
      var paths := PathColumn(df.rows, IndexOf(FullPathColumn, df.header).value);
      assert ScanRowsOf(df) == Success(Survivors(paths));
      SurvivorsExactlyNamed(paths);
    }
  }

  /** A run reports a missing file exactly when one of the two files is missing. */
  lemma MissingFileReported(columnMapping: ColumnMapping, scanFile: CsvFile, taskFile: CsvFile, scorer: Scorer)
    ensures (MappingOutcome(columnMapping, scanFile, taskFile, scorer) == Failure(PathNotFound))
              <==> scanFile.NoSuchFile? || taskFile.NoSuchFile?
  {
    ScanNotFoundOnlyWhenMissing(scanFile);
    TaskNotFoundOnlyWhenMissing(taskFile, columnMapping);
  }

  /** Loading the scan file reports PathNotFound only for a missing file. */
  lemma ScanNotFoundOnlyWhenMissing(file: CsvFile)
    ensures SearchResultOf(file) == Failure(PathNotFound) <==> file.NoSuchFile?
  {
    if file.Parsed? {
      var df := DropUnnamed(file.table);
      if |df.rows| > 0 && FullPathColumn in df.header {
        var c := IndexOf(FullPathColumn, df.header).value;
        assert ScanRowsOf(df).Failure? ==> ScanRowsOf(df).error == UnreadablePath;
      }
    }
  }

  /** Loading the reference file reports PathNotFound only for a missing file. */
  lemma TaskNotFoundOnlyWhenMissing(file: CsvFile, columnMapping: ColumnMapping)
    ensures TaskTableOf(file, columnMapping) == Failure(PathNotFound) <==> file.NoSuchFile?
  {
    if file.Parsed? {
      var df := DropUnnamed(file.table);
      if FirstUnmapped(df.header, columnMapping, Roles).None? {
        AllRolesMapped(df.header, columnMapping);
        ParsedLoadIsRenamedRecords(file.table, columnMapping);
        ResolveFailsOnlyUnresolved(RenameAll(df.header, columnMapping, Roles));
      }
    }
  }

  /** A run succeeds exactly when both files load, and then yields the mapped rows of the loaded records. */
  lemma MappingSucceedsWhenBothLoad(columnMapping: ColumnMapping, scanFile: CsvFile, taskFile: CsvFile, scorer: Scorer)
    ensures (MappingOutcome(columnMapping, scanFile, taskFile, scorer).Success?)
              <==> (SearchResultOf(scanFile).Success? && TaskTableOf(taskFile, columnMapping).Success?)
    ensures MappingOutcome(columnMapping, scanFile, taskFile, scorer).Success? ==>
              MappingOutcome(columnMapping, scanFile, taskFile, scorer).value ==
                MappedRows(SearchResultOf(scanFile).value, TaskTableOf(taskFile, columnMapping).value, scorer)
  {
  }

  /** Mapping keeps, for every record, the path and the name extracted from it. */
  lemma MappedRowsKeepExtractedNames(scan: seq<ScanRecord>, table: seq<TaskRecord>, scorer: Scorer)
    requires forall rec :: rec in scan ==> ExtractTaskName(rec.fullPath) == Some(rec.extractedTaskName)
    ensures forall k :: 0 <= k < |scan| ==>
              && MappedRows(scan, table, scorer)[k].fullPath == scan[k].fullPath
              && ExtractTaskName(MappedRows(scan, table, scorer)[k].fullPath) == Some(MappedRows(scan, table, scorer)[k].folderName)
  {
    MappedRowsFollowInput(scan, table, scorer);
    forall k | 0 <= k < |scan|
      ensures ExtractTaskName(scan[k].fullPath) == Some(scan[k].extractedTaskName)
    {
      assert scan[k] in scan;
    }
  }

  /**
   * When both files load, the run yields one record per loaded scan row, in order, with
   * that row's path and the name extracted from it.
   */
  lemma SuccessfulRunKeepsScanRows(columnMapping: ColumnMapping, scanFile: CsvFile, taskFile: CsvFile, scorer: Scorer)
    requires SearchResultOf(scanFile).Success? && TaskTableOf(taskFile, columnMapping).Success?
    ensures MappingOutcome(columnMapping, scanFile, taskFile, scorer).Success?
    ensures var r := MappingOutcome(columnMapping, scanFile, taskFile, scorer).value;
            && |r| == |SearchResultOf(scanFile).value|
            && forall k :: 0 <= k < |r| ==>
                 && r[k].fullPath == SearchResultOf(scanFile).value[k].fullPath
                 && ExtractTaskName(r[k].fullPath) == Some(r[k].folderName)
  {
    MappingSucceedsWhenBothLoad(columnMapping, scanFile, taskFile, scorer);
    var scan := SearchResultOf(scanFile).value;
    var tasks := TaskTableOf(taskFile, columnMapping).value;
    ScanRowsNamedByTheirPath(DropUnnamed(scanFile.table));
    MappedRowsKeepExtractedNames(scan, tasks, scorer);
  }
}

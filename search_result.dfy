/**
 * The scan-result loader (`readSearchResultFile`): read the table, extract a
 * folder name from every row's full path, and keep only the rows that yield one.
 */
module SearchResult {
  import opened Wrappers
  import opened General
  import opened Frame
  import opened PathExtraction

  /** A surviving scan row: its full path and the folder name extracted from it. */
  datatype ScanRecord = ScanRecord(fullPath: string, extractedTaskName: string)

  /** The row mask `df[pd.notnull(names)]`: keep, in order, the rows whose name is present. */
  function KeepNamed(paths: seq<string>, names: seq<Option<string>>): (r: seq<ScanRecord>)
    requires |paths| == |names|
    ensures |r| <= |paths|
    ensures |r| == |paths| <==> forall k :: 0 <= k < |names| ==> names[k].Some?
  {
    if |paths| == 0 then []
    else
      assert forall k :: 1 <= k < |names| ==> names[k] == names[1..][k - 1];
      (if names[0].Some? then [ScanRecord(paths[0], names[0].value)] else [])
      + KeepNamed(paths[1..], names[1..])
  }

  /** The extracted-name column: one extraction per path. */
  function ExtractedNames(paths: seq<string>): (names: seq<Option<string>>)
    ensures |names| == |paths|
  {
    seq(|paths|, i requires 0 <= i < |paths| => ExtractTaskName(paths[i]))
  }

  /** The scan records the loader produces from the given paths. */
  function Survivors(paths: seq<string>): seq<ScanRecord>
  {
    KeepNamed(paths, ExtractedNames(paths))
  }

  /** Every path cell of column c is present. */
  predicate PathsPresent(rows: seq<seq<Cell>>, c: nat)
  {
    forall k :: 0 <= k < |rows| ==> CellAt(rows[k], c).Some?
  }

  /** The paths of column c, when all of them are present. */
  function PathColumn(rows: seq<seq<Cell>>, c: nat): (paths: seq<string>)
    requires PathsPresent(rows, c)
    ensures |paths| == |rows|
  {
    seq(|rows|, k requires 0 <= k < |rows| => CellAt(rows[k], c).value)
  }

  /**
   * What loading the scan-result file yields. A missing file raises; any other
   * problem is reported and yields no table: a parse failure, or a problem
   * with the rows (see ScanRowsOf).
   */
  ghost function SearchResultOf(file: CsvFile): Result<seq<ScanRecord>, LoadError>
  {
    match file
    case NoSuchFile => Failure(PathNotFound)
    case Unparseable => Failure(Unreadable)
    case Parsed(t) => ScanRowsOf(DropUnnamed(t))
  }

  /**
   * The rows of the table with its "Unnamed" columns dropped: a missing
   * FullPath column is a failure (it is looked up on the first row, so an
   * empty table loads fine), as is a missing path cell (which the pattern
   * search rejects); otherwise the rows whose path yields a name.
   */
  ghost function ScanRowsOf(df: Table): Result<seq<ScanRecord>, LoadError>
  {
    if |df.rows| == 0 then Success([])
    else if FullPathColumn !in df.header then Failure(MissingPathColumn)
    else
      var c := IndexOf(FullPathColumn, df.header).value;
      if !PathsPresent(df.rows, c) then Failure(UnreadablePath)
      else Success(Survivors(PathColumn(df.rows, c)))
  }

  /** `readSearchResultFile`: the file-level outcomes, then the rows. */
  method ReadSearchResultFile(file: CsvFile) returns (r: Result<seq<ScanRecord>, LoadError>)
    ensures r == SearchResultOf(file)
  {
    if file.NoSuchFile? {
      return Failure(PathNotFound);
    }
    if file.Unparseable? {
      return Failure(Unreadable);
    }
    r := ExtractTaskNames(DropUnnamed(file.table));
  }

  /**
   * The loop of `readSearchResultFile`: the extracted-name column starts out
   * empty, each row's extraction is written into it in place, and the rows
   * without a name are filtered out at the end.
   */
  method ExtractTaskNames(df: Table) returns (r: Result<seq<ScanRecord>, LoadError>)
    ensures r == ScanRowsOf(df)
  {
    var n := |df.rows|;
    var col := IndexOf(FullPathColumn, df.header);
    var names := new Option<string>[n](_ => None);
    var paths: seq<string> := [];
    for i := 0 to n
      invariant |paths| == i
      invariant i > 0 ==> col.Some?
      invariant forall k :: 0 <= k < i ==> CellAt(df.rows[k], col.value) == Some(paths[k])
      invariant forall k :: 0 <= k < i ==> names[k] == ExtractTaskName(paths[k])
    {
      if col.None? {
        // row[FullPath] raises KeyError on the first row
        return Failure(MissingPathColumn);
      }
      var cell := CellAt(df.rows[i], col.value);
      if cell.None? {
        // re.search on a missing (NaN) path raises a TypeError
        return Failure(UnreadablePath);
      }
      names[i] := ExtractTaskName(cell.value);
      paths := paths + [cell.value];
    }
    if n > 0 {
      assert PathsPresent(df.rows, col.value);
      assert paths == PathColumn(df.rows, col.value);
    }
    assert names[..] == ExtractedNames(paths);
    r := Success(KeepNamed(paths, names[..]));
  }

  /** Filtering distributes over concatenation. */
  lemma {:induction false} KeepNamedAppend(p1: seq<string>, n1: seq<Option<string>>, p2: seq<string>, n2: seq<Option<string>>)
    requires |p1| == |n1| && |p2| == |n2|
    ensures KeepNamed(p1 + p2, n1 + n2) == KeepNamed(p1, n1) + KeepNamed(p2, n2)
  {
    if |p1| > 0 {
      assert (p1 + p2)[1..] == p1[1..] + p2;
      assert (n1 + n2)[1..] == n1[1..] + n2;
      KeepNamedAppend(p1[1..], n1[1..], p2, n2);
    } else {
      assert p1 + p2 == p2 && n1 + n2 == n2;
    }
  }

  /**
   * Order is preserved: the survivors of two consecutive blocks of rows are the
   * survivors of the first block followed by those of the second.
   */
  lemma SurvivorsAppend(a: seq<string>, b: seq<string>)
    ensures Survivors(a + b) == Survivors(a) + Survivors(b)
  {
    assert ExtractedNames(a + b) == ExtractedNames(a) + ExtractedNames(b);
    KeepNamedAppend(a, ExtractedNames(a), b, ExtractedNames(b));
  }

  /** A single row survives exactly when its path yields a name. */
  lemma SurvivorsOfOne(path: string)
    ensures Survivors([path]) == if ExtractTaskName(path).Some? then [ScanRecord(path, ExtractTaskName(path).value)] else []
  {
    assert ExtractedNames([path]) == [ExtractTaskName(path)];
    assert KeepNamed([path][1..], ExtractedNames([path])[1..]) == [];
  }

  /** Every surviving record comes from one of the rows and carries that row's extracted name. */
  lemma {:induction false} KeepNamedSound(paths: seq<string>, names: seq<Option<string>>)
    requires |paths| == |names|
    ensures |KeepNamed(paths, names)| <= |paths|
    ensures forall rec :: rec in KeepNamed(paths, names) ==>
              exists i :: 0 <= i < |paths| && paths[i] == rec.fullPath && names[i] == Some(rec.extractedTaskName)
  {
    if |paths| > 0 {
      KeepNamedSound(paths[1..], names[1..]);
      forall rec | rec in KeepNamed(paths[1..], names[1..])
        ensures exists i :: 0 <= i < |paths| && paths[i] == rec.fullPath && names[i] == Some(rec.extractedTaskName)
      {
        var i :| 0 <= i < |paths[1..]| && paths[1..][i] == rec.fullPath && names[1..][i] == Some(rec.extractedTaskName);
        assert paths[i + 1] == rec.fullPath && names[i + 1] == Some(rec.extractedTaskName);
      }
    }
  }

  /** Every row whose name is present is kept. */
  lemma {:induction false} KeepNamedComplete(paths: seq<string>, names: seq<Option<string>>, i: nat)
    requires |paths| == |names| && i < |paths| && names[i].Some?
    ensures ScanRecord(paths[i], names[i].value) in KeepNamed(paths, names)
  {
    if i > 0 {
      KeepNamedComplete(paths[1..], names[1..], i - 1);
    }
  }

  /**
   * The filter is exact: every survivor has an extracted name taken from its
   * own path, every path that yields a name survives, and so a path that
   * yields none (for instance one without a `\RPA\` segment) is absent.
   */
  lemma SurvivorsExactlyNamed(paths: seq<string>)
    ensures |Survivors(paths)| <= |paths|
    ensures forall rec :: rec in Survivors(paths) ==>
              rec.fullPath in paths && ExtractTaskName(rec.fullPath) == Some(rec.extractedTaskName)
    ensures forall i :: 0 <= i < |paths| && ExtractTaskName(paths[i]).Some? ==>
              ScanRecord(paths[i], ExtractTaskName(paths[i]).value) in Survivors(paths)
    ensures forall path :: ExtractTaskName(path).None? ==> forall rec :: rec in Survivors(paths) ==> rec.fullPath != path
  {
    var names := ExtractedNames(paths);
    KeepNamedSound(paths, names);
    forall i | 0 <= i < |paths| && ExtractTaskName(paths[i]).Some?
      ensures ScanRecord(paths[i], ExtractTaskName(paths[i]).value) in Survivors(paths)
    {
      KeepNamedComplete(paths, names, i);
    }
  }

  /** When every path yields a name, no row is dropped and the records follow the rows one to one. */
  lemma {:induction false} SurvivorsAllNamed(paths: seq<string>)
    requires forall i :: 0 <= i < |paths| ==> ExtractTaskName(paths[i]).Some?
    ensures |Survivors(paths)| == |paths|
    ensures forall i :: 0 <= i < |paths| ==>
              Survivors(paths)[i] == ScanRecord(paths[i], ExtractTaskName(paths[i]).value)
  {
    if |paths| > 0 {
      assert paths == [paths[0]] + paths[1..];
      SurvivorsAppend([paths[0]], paths[1..]);
      SurvivorsOfOne(paths[0]);
      SurvivorsAllNamed(paths[1..]);
    }
  }

  /**
   * The row loop as written: each row first looks up the path column as
   * `matchedFile`, which the scan-result enum does not define, so the first
   * row raises and the handler leaves no table; only an empty table loads.
   */
  ghost function AsWrittenScanRowsOf(df: Table): Result<seq<ScanRecord>, LoadError>
  {
    if |df.rows| == 0 then Success([])
    else match SearchResultColumnValue("matchedFile")
      case None => Failure(UndefinedColumnMember)
      case Some(_) => ScanRowsOf(df)
  }

  /** As written, a scan table with any row at all never loads. */
  lemma AsWrittenScanLoadFails(df: Table)
    requires |df.rows| > 0
    ensures AsWrittenScanRowsOf(df) == Failure(UndefinedColumnMember)
  {
    UndefinedEnumMembers();
  }

  /**
   * Reading the path from the FullPath column instead, a table whose every
   * path cell is present and yields a name loads one record per row, in order.
   */
  lemma ScanRowsAllNamed(df: Table)
    requires FullPathColumn in df.header
    requires forall k :: 0 <= k < |df.rows| ==>
               && CellAt(df.rows[k], IndexOf(FullPathColumn, df.header).value).Some?
               && ExtractTaskName(CellAt(df.rows[k], IndexOf(FullPathColumn, df.header).value).value).Some?
    ensures ScanRowsOf(df).Success?
    ensures |ScanRowsOf(df).value| == |df.rows|
    ensures forall k :: 0 <= k < |df.rows| ==>
              ScanRowsOf(df).value[k].fullPath == CellAt(df.rows[k], IndexOf(FullPathColumn, df.header).value).value
  {
    if |df.rows| > 0 {
      var c := IndexOf(FullPathColumn, df.header).value;
      assert PathsPresent(df.rows, c);
      var paths := PathColumn(df.rows, c);
      SurvivorsAllNamed(paths);
    }
  }
}

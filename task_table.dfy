/**
 * The reference-table loader (`readTaskTableFile`): drop the "Unnamed"
 * columns, check the caller's role-to-column mapping, rename the mapped
 * columns to their canonical names one after another, coerce the inactive
 * flag, and leave every other missing cell as an explicit None.
 */
module TaskTable {
  import opened Wrappers
  import opened General
  import opened Frame

  /** A normalised inactive cell: 'Y' became true, a missing cell false, anything else is kept. */
  datatype InactiveFlag = Flag(value: bool) | Text(text: string)

  /** One reference row, read from the four canonical columns. */
  datatype TaskRecord = TaskRecord(task: Cell, process: Cell, developer: Cell, inactive: InactiveFlag)

  /** The caller's mapping from roles to column names; a role without an entry maps to None. */
  type ColumnMapping = map<Role, string>

  /** The positions of the four canonical columns in the renamed header. */
  datatype Columns = Columns(task: nat, process: nat, developer: nat, inactive: nat)

  /** `replace('Y', True)` followed by `fillna(False)` on one inactive cell. */
  function NormalizeInactive(cell: Cell): (flag: InactiveFlag)
    ensures flag == Flag(true) <==> cell == Some("Y")
    ensures flag == Flag(false) <==> cell.None?
    ensures flag.Text? <==> cell.Some? && cell.value != "Y"
    ensures flag.Text? ==> flag.text == cell.value
  {
    match cell
    case Some(v) => if v == "Y" then Flag(true) else Text(v)
    case None => Flag(false)
  }

  /** The role has a column name in the mapping and that column is in the header. */
  predicate Mapped(header: seq<string>, mapping: ColumnMapping, role: Role)
  {
    role in mapping && mapping[role] in header
  }

  /** The first role, in checking order, whose mapped column is absent. */
  function FirstUnmapped(header: seq<string>, mapping: ColumnMapping, roles: seq<Role>): (r: Option<Role>)
    ensures r.None? <==> forall i :: 0 <= i < |roles| ==> Mapped(header, mapping, roles[i])
    ensures r.Some? ==> r.value in roles && !Mapped(header, mapping, r.value)
  {
    if |roles| == 0 then None
    else if !Mapped(header, mapping, roles[0]) then Some(roles[0])
    else FirstUnmapped(header, mapping, roles[1..])
  }

  /** Over the four roles, the check takes Task, Process, Developer and Inactive in that order. */
  lemma FirstUnmappedOfRoles(header: seq<string>, mapping: ColumnMapping)
    ensures FirstUnmapped(header, mapping, Roles) ==
              if !Mapped(header, mapping, Role.Task) then Some(Role.Task)
              else if !Mapped(header, mapping, Role.Process) then Some(Role.Process)
              else if !Mapped(header, mapping, Role.Developer) then Some(Role.Developer)
              else if !Mapped(header, mapping, Role.Inactive) then Some(Role.Inactive)
              else None
  {
    var rest := [Role.Process, Role.Developer, Role.Inactive];
    assert Roles[0] == Role.Task && Roles[1..] == rest;
    assert rest[0] == Role.Process && rest[1..] == [Role.Developer, Role.Inactive];
    assert FirstUnmapped(header, mapping, [Role.Inactive]) ==
             if !Mapped(header, mapping, Role.Inactive) then Some(Role.Inactive)
             else FirstUnmapped(header, mapping, []);
    assert FirstUnmapped(header, mapping, [Role.Developer, Role.Inactive]) ==
             if !Mapped(header, mapping, Role.Developer) then Some(Role.Developer)
             else FirstUnmapped(header, mapping, [Role.Inactive]);
  }

  /** No role is unmapped exactly when every role is mapped. */
  lemma AllRolesMapped(header: seq<string>, mapping: ColumnMapping)
    ensures FirstUnmapped(header, mapping, Roles).None? <==> forall role: Role :: Mapped(header, mapping, role)
    ensures FirstUnmapped(header, mapping, Roles).None? ==> forall role: Role :: role in mapping
  {
    FirstUnmappedOfRoles(header, mapping);
    if FirstUnmapped(header, mapping, Roles).None? {
      forall role: Role ensures Mapped(header, mapping, role) {
        match role
        case Task =>
        case Process =>
        case Developer =>
        case Inactive =>
      }
      MappedRolesHaveEntries(header, mapping);
    }
  }

  /** A mapping under which every role's column is present has an entry for every role. */
  lemma MappedRolesHaveEntries(header: seq<string>, mapping: ColumnMapping)
    requires forall role: Role :: Mapped(header, mapping, role)
    ensures forall role: Role :: role in mapping
  {
    forall role: Role ensures role in mapping {
      assert Mapped(header, mapping, role);
    }
  }

  /** The header after renaming each role's mapped column to its canonical name, in the given order. */
  function RenameAll(header: seq<string>, mapping: ColumnMapping, roles: seq<Role>): seq<string>
    requires forall role: Role :: role in mapping
    decreases |roles|
  {
    if |roles| == 0 then header
    else RenameAll(RenameColumn(header, mapping[roles[0]], CanonicalName(roles[0])), mapping, roles[1..])
  }

  /** The position of the only column called `name`; None when there is none or more than one. */
  function UniqueColumn(header: seq<string>, name: string): (r: Option<nat>)
    ensures r.Some? ==> r.value < |header| && header[r.value] == name
    ensures r.Some? ==> forall k :: 0 <= k < |header| && header[k] == name ==> k == r.value
    ensures r.None? ==> name !in header || exists k1, k2 :: 0 <= k1 < k2 < |header| && header[k1] == name && header[k2] == name
  {
    match IndexOf(name, header)
    case None => None
    case Some(k) =>
      if name in header[k + 1..] then
        var k2 :| k + 1 <= k2 < |header| && header[k2] == name;
        None
      else Some(k)
  }

  /** Locates the four canonical columns; a failure names the first role whose column is missing or repeated. */
  function ResolveColumns(header: seq<string>): Result<Columns, LoadError>
  {
    var t := UniqueColumn(header, "Task");
    var p := UniqueColumn(header, "ProcessName");
    var d := UniqueColumn(header, "Developers");
    var i := UniqueColumn(header, "Inactive");
    if t.None? then Failure(UnresolvedRoleColumn(Role.Task))
    else if p.None? then Failure(UnresolvedRoleColumn(Role.Process))
    else if d.None? then Failure(UnresolvedRoleColumn(Role.Developer))
    else if i.None? then Failure(UnresolvedRoleColumn(Role.Inactive))
    else Success(Columns(t.value, p.value, d.value, i.value))
  }

  /** Locating the canonical columns fails only with an unresolved-column error. */
  lemma ResolveFailsOnlyUnresolved(header: seq<string>)
    ensures ResolveColumns(header).Failure? ==> ResolveColumns(header).error.UnresolvedRoleColumn?
  {
  }

  /** One reference row read from the canonical columns, with the inactive flag coerced. */
  function RecordOf(row: seq<Cell>, cols: Columns): TaskRecord
  {
    TaskRecord(CellAt(row, cols.task), CellAt(row, cols.process), CellAt(row, cols.developer),
               NormalizeInactive(CellAt(row, cols.inactive)))
  }

  /**
   * What loading the reference file yields. A missing file raises; a parse
   * failure, an unmapped or absent role column, or a canonical column that the
   * renames leave missing or repeated is reported and yields no table.
   */
  ghost function TaskTableOf(file: CsvFile, mapping: ColumnMapping): Result<seq<TaskRecord>, LoadError>
  {
    match file
    case NoSuchFile => Failure(PathNotFound)
    case Unparseable => Failure(Unreadable)
    case Parsed(t) =>
      var df := DropUnnamed(t);
      match FirstUnmapped(df.header, mapping, Roles)
      case Some(role) => Failure(MissingRoleColumn(role))
      case None =>
        AllRolesMapped(df.header, mapping);
        RenamedRecordsOf(df, mapping)
  }

  /** The records once every role is mapped: rename, locate the canonical columns, read each row. */
  ghost function RenamedRecordsOf(df: Table, mapping: ColumnMapping): Result<seq<TaskRecord>, LoadError>
    requires forall role: Role :: role in mapping
  {
    match ResolveColumns(RenameAll(df.header, mapping, Roles))
    case Failure(e) => Failure(e)
    case Success(cols) => Success(seq(|df.rows|, k requires 0 <= k < |df.rows| => RecordOf(df.rows[k], cols)))
  }

  /** `readTaskTableFile`: the file-level outcomes and the four column checks, in the source's order. */
  method ReadTaskTableFile(file: CsvFile, columnMapping: ColumnMapping) returns (r: Result<seq<TaskRecord>, LoadError>)
    ensures r == TaskTableOf(file, columnMapping)
  {
    if file.NoSuchFile? {
      return Failure(PathNotFound);
    }
    if file.Unparseable? {
      return Failure(Unreadable);
    }
    var df := DropUnnamed(file.table);
    FirstUnmappedOfRoles(df.header, columnMapping);
    if !Mapped(df.header, columnMapping, Role.Task) {
      return Failure(MissingRoleColumn(Role.Task));
    }
    if !Mapped(df.header, columnMapping, Role.Process) {
      return Failure(MissingRoleColumn(Role.Process));
    }
    if !Mapped(df.header, columnMapping, Role.Developer) {
      return Failure(MissingRoleColumn(Role.Developer));
    }
    if !Mapped(df.header, columnMapping, Role.Inactive) {
      return Failure(MissingRoleColumn(Role.Inactive));
    }
    AllRolesMapped(df.header, columnMapping);
    r := RenameAndNormalize(df, columnMapping);
  }

  /**
   * The in-place part of `readTaskTableFile`: four renames one after another,
   * then the inactive coercion; other missing cells stay None.
   */
  method RenameAndNormalize(df: Table, columnMapping: ColumnMapping) returns (r: Result<seq<TaskRecord>, LoadError>)
    requires forall role: Role :: role in columnMapping
    ensures r == RenamedRecordsOf(df, columnMapping)
  {
    var header := df.header;
    header := RenameColumn(header, columnMapping[Role.Task], CanonicalName(Role.Task));
    header := RenameColumn(header, columnMapping[Role.Process], CanonicalName(Role.Process));
    header := RenameColumn(header, columnMapping[Role.Developer], CanonicalName(Role.Developer));
    header := RenameColumn(header, columnMapping[Role.Inactive], CanonicalName(Role.Inactive));
    RenameAllOfRoles(df.header, columnMapping);
    assert header == RenameAll(df.header, columnMapping, Roles);
    var cols := ResolveColumns(header);
    if cols.Failure? {
      return Failure(cols.error);
    }
    r := Success(seq(|df.rows|, k requires 0 <= k < |df.rows| => RecordOf(df.rows[k], cols.value)));
  }

  /** Over the four roles, the renames are applied for Task, Process, Developer and Inactive in that order. */
  lemma RenameAllOfRoles(header: seq<string>, m: ColumnMapping)
    requires forall role: Role :: role in m
    ensures RenameAll(header, m, Roles) ==
              RenameColumn(RenameColumn(RenameColumn(RenameColumn(header,
                m[Role.Task], "Task"), m[Role.Process], "ProcessName"), m[Role.Developer], "Developers"),
                m[Role.Inactive], "Inactive")
  {
    var rest := [Role.Process, Role.Developer, Role.Inactive];
    assert Roles[0] == Role.Task && Roles[1..] == rest;
    assert rest[0] == Role.Process && rest[1..] == [Role.Developer, Role.Inactive];
    assert [Role.Developer, Role.Inactive][1..] == [Role.Inactive];
    assert [Role.Inactive][1..] == [];
  }

  /**
   * Loading succeeds only when every role has a column name in the mapping and
   * that column survives dropping the "Unnamed" columns; when some role does
   * not, the load fails with a missing-column error.
   */
  lemma LoadNeedsMappedColumns(file: CsvFile, mapping: ColumnMapping)
    ensures TaskTableOf(file, mapping).Success? ==>
              file.Parsed? && forall role: Role :: Mapped(DropUnnamed(file.table).header, mapping, role)
    ensures file.Parsed? && (exists role: Role :: !Mapped(DropUnnamed(file.table).header, mapping, role)) ==>
              TaskTableOf(file, mapping).Failure? && TaskTableOf(file, mapping).error.MissingRoleColumn?
  {
    if file.Parsed? {
      AllRolesMapped(DropUnnamed(file.table).header, mapping);
    }
  }

  /** Once every role's column is present, loading a parsed file is renaming and reading its rows. */
  lemma ParsedLoadIsRenamedRecords(t: Table, mapping: ColumnMapping)
    requires forall role: Role :: Mapped(DropUnnamed(t).header, mapping, role)
    ensures forall role: Role :: role in mapping
    ensures TaskTableOf(Parsed(t), mapping) == RenamedRecordsOf(DropUnnamed(t), mapping)
  {
    MappedRolesHaveEntries(DropUnnamed(t).header, mapping);
    AllRolesMapped(DropUnnamed(t).header, mapping);
  }

  /** One record read from the unique columns of header `h` that carry the four canonical names. */
  ghost predicate ReadFromCanonicalColumns(rec: TaskRecord, row: seq<Cell>, h: seq<string>)
  {
    && UniqueColumn(h, "Task").Some? && UniqueColumn(h, "ProcessName").Some?
    && UniqueColumn(h, "Developers").Some? && UniqueColumn(h, "Inactive").Some?
    && rec.task == CellAt(row, UniqueColumn(h, "Task").value)
    && rec.process == CellAt(row, UniqueColumn(h, "ProcessName").value)
    && rec.developer == CellAt(row, UniqueColumn(h, "Developers").value)
    && rec.inactive == NormalizeInactive(CellAt(row, UniqueColumn(h, "Inactive").value))
  }

  /**
   * When the renames succeed, each canonical name is on exactly one column,
   * there is one record per row, and each record holds that row's cells from
   * the canonical columns: missing task, process and developer cells stay
   * None, and the inactive cell is coerced (so no 'Y' text is left).
   */
  lemma RenamedRecordsFromCanonicalColumns(df: Table, mapping: ColumnMapping)
    requires forall role: Role :: role in mapping
    requires ResolveColumns(RenameAll(df.header, mapping, Roles)).Success?
    ensures RenamedRecordsOf(df, mapping).Success?
    ensures forall role: Role :: UniqueColumn(RenameAll(df.header, mapping, Roles), CanonicalName(role)).Some?
    ensures |RenamedRecordsOf(df, mapping).value| == |df.rows|
    ensures forall k :: 0 <= k < |df.rows| ==>
              && ReadFromCanonicalColumns(RenamedRecordsOf(df, mapping).value[k], df.rows[k], RenameAll(df.header, mapping, Roles))
              && RenamedRecordsOf(df, mapping).value[k].inactive != Text("Y")
  {
    var h := RenameAll(df.header, mapping, Roles);
    ResolvedColumnsAreUnique(h);
    var cols := ResolveColumns(h).value;
    var recs := seq(|df.rows|, k requires 0 <= k < |df.rows| => RecordOf(df.rows[k], cols));
    assert RenamedRecordsOf(df, mapping) == Success(recs);
    forall k | 0 <= k < |df.rows|
      ensures ReadFromCanonicalColumns(recs[k], df.rows[k], h) && recs[k].inactive != Text("Y")
    {
      assert recs[k] == RecordOf(df.rows[k], cols);
    }
  }

  /** Resolved columns are the unique columns with the four canonical names. */
  lemma ResolvedColumnsAreUnique(h: seq<string>)
    requires ResolveColumns(h).Success?
    ensures forall role: Role :: UniqueColumn(h, CanonicalName(role)).Some?
    ensures ResolveColumns(h).value ==
              Columns(UniqueColumn(h, "Task").value, UniqueColumn(h, "ProcessName").value,
                      UniqueColumn(h, "Developers").value, UniqueColumn(h, "Inactive").value)
  {
    forall role: Role ensures UniqueColumn(h, CanonicalName(role)).Some? {
      match role
      case Task =>
      case Process =>
      case Developer =>
      case Inactive =>
    }
  }

  /**
   * A mapping whose renames cannot collide: every role's column is present,
   * the mapped names are distinct and none is another role's canonical name,
   * a column that already has a canonical name is the one mapped to that
   * role, and the header has no repeated name (the CSV reader renames repeats).
   */
  ghost predicate NonColliding(header: seq<string>, m: ColumnMapping)
  {
    && (forall role: Role :: role in m)
    && (forall role: Role :: Mapped(header, m, role))
    && (forall r1: Role, r2: Role :: r1 != r2 && r1 in m && r2 in m ==> m[r1] != m[r2] && m[r1] != CanonicalName(r2))
    && (forall k, role: Role :: 0 <= k < |header| && header[k] == CanonicalName(role) && role in m ==> header[k] == m[role])
    && (forall k1, k2 :: 0 <= k1 < k2 < |header| ==> header[k1] != header[k2])
  }

  /** Under a non-colliding mapping, a renamed column has a role's canonical name exactly when it was that role's column. */
  lemma RenamedAt(header: seq<string>, m: ColumnMapping, k: nat, role: Role)
    requires NonColliding(header, m) && k < |header|
    ensures |RenameAll(header, m, Roles)| == |header|
    ensures RenameAll(header, m, Roles)[k] == CanonicalName(role) <==> header[k] == m[role]
  {
    assert Mapped(header, m, Role.Task) && Mapped(header, m, Role.Process);
    assert Mapped(header, m, Role.Developer) && Mapped(header, m, Role.Inactive);
    RenameAllOfRoles(header, m);
    var x := header[k];
    assert x == CanonicalName(Role.Task) ==> x == m[Role.Task];
    assert x == CanonicalName(Role.Process) ==> x == m[Role.Process];
    assert x == CanonicalName(Role.Developer) ==> x == m[Role.Developer];
    assert x == CanonicalName(Role.Inactive) ==> x == m[Role.Inactive];
    assert m[Role.Task] != m[Role.Process] && m[Role.Task] != m[Role.Developer] && m[Role.Task] != m[Role.Inactive];
    assert m[Role.Process] != m[Role.Developer] && m[Role.Process] != m[Role.Inactive];
    assert m[Role.Developer] != m[Role.Inactive];
    assert m[Role.Task] != "ProcessName" && m[Role.Task] != "Developers" && m[Role.Task] != "Inactive";
    assert m[Role.Process] != "Task" && m[Role.Process] != "Developers" && m[Role.Process] != "Inactive";
    assert m[Role.Developer] != "Task" && m[Role.Developer] != "ProcessName" && m[Role.Developer] != "Inactive";
    assert m[Role.Inactive] != "Task" && m[Role.Inactive] != "ProcessName" && m[Role.Inactive] != "Developers";
  }

  /** The position of a role's mapped column in the header. */
  function MappedPosition(header: seq<string>, m: ColumnMapping, role: Role): nat
    requires Mapped(header, m, role)
  {
    IndexOf(m[role], header).value
  }

  /** Under a non-colliding mapping each canonical column is found where the role's mapped column was. */
  lemma {:induction false} ResolvedAtMappedPosition(header: seq<string>, m: ColumnMapping, role: Role)
    requires NonColliding(header, m)
    ensures Mapped(header, m, role)
    ensures UniqueColumn(RenameAll(header, m, Roles), CanonicalName(role)) == Some(MappedPosition(header, m, role))
  {
    assert Mapped(header, m, role);
    var h := RenameAll(header, m, Roles);
    var pos := MappedPosition(header, m, role);
    RenamedAt(header, m, pos, role);
    forall k | 0 <= k < |h| && h[k] == CanonicalName(role) ensures k == pos {
      RenamedAt(header, m, k, role);
    }
    assert h[pos] == CanonicalName(role);
  }

  /** Under a non-colliding mapping the canonical columns are found at the mapped columns' positions. */
  lemma NonCollidingResolves(header: seq<string>, m: ColumnMapping)
    requires NonColliding(header, m)
    ensures forall role: Role :: Mapped(header, m, role)
    ensures ResolveColumns(RenameAll(header, m, Roles)) ==
              Success(Columns(MappedPosition(header, m, Role.Task), MappedPosition(header, m, Role.Process),
                              MappedPosition(header, m, Role.Developer), MappedPosition(header, m, Role.Inactive)))
  {
    ResolvedAtMappedPosition(header, m, Role.Task);
    ResolvedAtMappedPosition(header, m, Role.Process);
    ResolvedAtMappedPosition(header, m, Role.Developer);
    ResolvedAtMappedPosition(header, m, Role.Inactive);
  }

  /**
   * A non-colliding mapping always loads, and each record holds its row's
   * cells from the columns the caller named: a missing cell stays None, an
   * empty text stays empty text, and only the inactive cell is coerced.
   */
  lemma NonCollidingMappingLoads(t: Table, m: ColumnMapping)
    requires NonColliding(DropUnnamed(t).header, m)
    ensures forall role: Role :: Mapped(DropUnnamed(t).header, m, role)
    ensures TaskTableOf(Parsed(t), m).Success?
    ensures |TaskTableOf(Parsed(t), m).value| == |t.rows|
    ensures forall k :: 0 <= k < |t.rows| ==>
              var df := DropUnnamed(t);
              TaskTableOf(Parsed(t), m).value[k] ==
                TaskRecord(CellAt(df.rows[k], MappedPosition(df.header, m, Role.Task)),
                           CellAt(df.rows[k], MappedPosition(df.header, m, Role.Process)),
                           CellAt(df.rows[k], MappedPosition(df.header, m, Role.Developer)),
                           NormalizeInactive(CellAt(df.rows[k], MappedPosition(df.header, m, Role.Inactive))))
  {
    var df := DropUnnamed(t);
    NonCollidingResolves(df.header, m);
    ParsedLoadIsRenamedRecords(t, m);
  }

  /** With the default mapping (every role to its own canonical name) the renames change nothing and cannot collide. */
  lemma DefaultMappingNonColliding(header: seq<string>, m: ColumnMapping)
    requires forall role: Role :: role in m && m[role] == CanonicalName(role) && CanonicalName(role) in header
    requires forall k1, k2 :: 0 <= k1 < k2 < |header| ==> header[k1] != header[k2]
    ensures NonColliding(header, m)
    ensures RenameAll(header, m, Roles) == header
  {
    assert m[Role.Task] == "Task" && m[Role.Process] == "ProcessName";
    assert m[Role.Developer] == "Developers" && m[Role.Inactive] == "Inactive";
    assert forall role: Role :: Mapped(header, m, role);
    forall r1: Role, r2: Role | r1 != r2 && r1 in m && r2 in m
      ensures m[r1] != m[r2] && m[r1] != CanonicalName(r2)
    {
      assert m[r1] == CanonicalName(r1) && m[r2] == CanonicalName(r2);
    }
    RenameAllOfRoles(header, m);
    RenameToItself(header, "Task");
    RenameToItself(header, "ProcessName");
    RenameToItself(header, "Developers");
    RenameToItself(header, "Inactive");
  }

  /** Renaming a column to its own name changes nothing. */
  lemma RenameToItself(header: seq<string>, name: string)
    ensures RenameColumn(header, name, name) == header
  {
  }

  /** The mapping that swaps the task and process column names. */
  const SwappedMapping: ColumnMapping :=
    map role: Role :: if role == Role.Task then "ProcessName" else if role == Role.Process then "Task" else CanonicalName(role)

  /**
   * The renames run one after another, so swapping the task and process
   * column names loses the Task column: renaming ProcessName to Task makes two
   * Task columns, which the next rename turns into two ProcessName columns.
   */
  lemma SwappedMappingLosesTaskColumn()
    ensures RenameAll(["Task", "ProcessName", "Developers", "Inactive"], SwappedMapping, Roles)
              == ["ProcessName", "ProcessName", "Developers", "Inactive"]
    ensures ResolveColumns(["ProcessName", "ProcessName", "Developers", "Inactive"])
              == Failure(UnresolvedRoleColumn(Role.Task))
  {
    var m := SwappedMapping;
    var header := ["Task", "ProcessName", "Developers", "Inactive"];
    RenameAllOfRoles(header, m);
    var h1 := RenameColumn(header, "ProcessName", "Task");
    assert h1 == ["Task", "Task", "Developers", "Inactive"];
    var h2 := RenameColumn(h1, "Task", "ProcessName");
    assert h2 == ["ProcessName", "ProcessName", "Developers", "Inactive"];
    assert RenameColumn(h2, "Developers", "Developers") == h2;
    assert RenameColumn(h2, "Inactive", "Inactive") == h2;
    assert "Task" !in h2;
  }
}

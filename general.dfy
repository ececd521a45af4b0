/** Constants of the scanner: the fuzzy-match threshold and the table column names. */
module General {
  import opened Wrappers


  /** A fuzzy score must be strictly greater than this to produce a match. */
  const FuzzyThreshold: int := 75

  /** Confidence attached to an exact task-name or process-name match. */
  const ExactConfidence: int := 100

  /** Column of the scan-result table that holds the scanned file's full path. */
  const FullPathColumn: string := "FullPath"

  /** The four roles of the reference table. */
  datatype Role = Task | Process | Developer | Inactive

  /** The canonical column name of each role, which the loader renames the mapped columns to. */
  function CanonicalName(role: Role): string
  {
    match role
    case Task => "Task"
    case Process => "ProcessName"
    case Developer => "Developers"
    case Inactive => "Inactive"
  }

  /** The order in which the loader checks and renames the roles. */
  const Roles: seq<Role> := [Role.Task, Role.Process, Role.Developer, Role.Inactive]

  /** Which rule produced a match: the MappedBy column of the output. */
  datatype MappedBy = ByTaskName | ByProcessName

  /** The text written to the MappedBy column. */
  function MappedByTag(rule: MappedBy): string
  {
    match rule
    case ByTaskName => "taskName"
    case ByProcessName => "processName"
  }

  /** The column name of a member of the scan-result column enum, by member name; None for a name the enum lacks. */
  function SearchResultColumnValue(member: string): Option<string>
  {
    if member == "fullPath" then Some(FullPathColumn)
    else if member == "extractedTaskName" then Some("Extracted Task Name")
    else None
  }

  /** The column name of a member of the output column enum, by member name; None for a name the enum lacks. */
  function MappedTaskFolderColumnValue(member: string): Option<string>
  {
    if member == "folderName" then Some("FolderName")
    else if member == "task" then Some("Task")
    else if member == "process" then Some("ProcessName")
    else if member == "developer" then Some("Developers")
    else if member == "inactive" then Some("Inactive")
    else if member == "mappedBy" then Some("MappedBy")
    else if member == "confidence" then Some("Confidence")
    else if member == "fullPath" then Some(FullPathColumn)
    else None
  }

  /**
   * The service looks up `matchedFile` in the scan-result enum and `confident`
   * in the output enum; neither defines them (they define `fullPath` and
   * `confidence`), so both lookups raise.
   */
  lemma UndefinedEnumMembers()
    ensures SearchResultColumnValue("matchedFile").None?
    ensures SearchResultColumnValue("fullPath") == Some(FullPathColumn)
    ensures MappedTaskFolderColumnValue("confident").None?
    ensures MappedTaskFolderColumnValue("confidence") == Some("Confidence")
  {
  }
}

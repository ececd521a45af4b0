/**
 * Parsed tables as the loaders see them once the CSV reader has run, the
 * failures a load can end in, and the column operations the loaders apply.
 */
module Frame {
  import opened Wrappers
  import opened General

  /** One cell of a parsed table; `None` is a missing value (NaN, normalised to None). */
  type Cell = Option<string>

  /**
   * A parsed table: its header and its rows. A row shorter than the header
   * reads as missing cells at the end, as the CSV reader pads short rows.
   */
  datatype Table = Table(header: seq<string>, rows: seq<seq<Cell>>)

  /** What reading a file gives: no such file, a parse failure, or a table. */
  datatype CsvFile = NoSuchFile | Unparseable | Parsed(table: Table)

  /**
   * Why a load produced no usable table. `PathNotFound` is the raised
   * PathNotFoundException; every other variant is a structural error that the
   * source reports and turns into "no table".
   */
  datatype LoadError =
    | PathNotFound
    | Unreadable
    | MissingPathColumn
    | UnreadablePath
    | MissingRoleColumn(role: Role)
    | UnresolvedRoleColumn(role: Role)
    | UndefinedColumnMember

  /** The first position of x in xs, or None when x does not occur. */
  function IndexOf<T(==)>(x: T, xs: seq<T>): (r: Option<nat>)
    ensures r.Some? ==> r.value < |xs| && xs[r.value] == x
    ensures r.Some? ==> forall j :: 0 <= j < r.value ==> xs[j] != x
    ensures r.None? <==> x !in xs
  {
    if |xs| == 0 then None
    else if xs[0] == x then Some(0)
    else match IndexOf(x, xs[1..])
      case Some(k) => Some(k + 1)
      case None => None
  }

  /** The cell of a row in column k; a padded (absent) cell is missing. */
  function CellAt(row: seq<Cell>, k: nat): Cell
  {
    if k < |row| then row[k] else None
  }

  /** A column whose name starts with "Unnamed" is an index artifact of the CSV writer. */
  predicate IsUnnamed(name: string)
  {
    |name| >= 7 && name[..7] == "Unnamed"
  }

  /** The positions of the columns that survive dropping the "Unnamed" ones, in order. */
  function KeptColumns(header: seq<string>): (ks: seq<nat>)
    ensures forall i :: 0 <= i < |ks| ==> ks[i] < |header| && !IsUnnamed(header[ks[i]])
    ensures forall i, j :: 0 <= i < j < |ks| ==> ks[i] < ks[j]
    ensures forall k :: 0 <= k < |header| && !IsUnnamed(header[k]) ==> k in ks
  {
    if |header| == 0 then []
    else
      var init := KeptColumns(header[..|header| - 1]);
      if IsUnnamed(header[|header| - 1]) then init else init + [|header| - 1]
  }

  /** The table without its "Unnamed" columns; every kept row is as wide as the header. */
  function DropUnnamed(t: Table): (d: Table)
    ensures forall name :: name in d.header <==> name in t.header && !IsUnnamed(name)
    ensures |d.rows| == |t.rows|
    ensures forall r :: 0 <= r < |d.rows| ==> |d.rows[r]| == |d.header|
  {
    var ks := KeptColumns(t.header);
    var d := Table(seq(|ks|, i requires 0 <= i < |ks| => t.header[ks[i]]),
                   seq(|t.rows|, r requires 0 <= r < |t.rows| =>
                         seq(|ks|, i requires 0 <= i < |ks| => CellAt(t.rows[r], ks[i]))));
    assert forall name :: name in t.header && !IsUnnamed(name) ==> name in d.header by {
      forall name | name in t.header && !IsUnnamed(name) ensures name in d.header {
        var k :| 0 <= k < |t.header| && t.header[k] == name;
        var i :| 0 <= i < |ks| && ks[i] == k;
        assert d.header[i] == name;
      }
    }
    d
  }

  /** Renames every column called `from` to `to`, leaving the others as they are. */
  function RenameColumn(header: seq<string>, from: string, to: string): (r: seq<string>)
    ensures |r| == |header|
    ensures from != to ==> from !in r
    ensures to in r <==> to in header || from in header
    ensures forall k :: 0 <= k < |header| && header[k] == from ==> r[k] == to
    ensures forall k :: 0 <= k < |header| && header[k] != from ==> r[k] == header[k]
  {
    var r := seq(|header|, k requires 0 <= k < |header| => if header[k] == from then to else header[k]);
    assert forall k :: 0 <= k < |header| && header[k] == from ==> r[k] == to;
    assert to in header ==> to in r by {
      if to in header {
        var k :| 0 <= k < |header| && header[k] == to;
        assert r[k] == to;
      }
    }
    r
  }
}

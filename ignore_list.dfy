/**
 * The ignore list: a CSV file whose header names an "IMAGE ID" column;
 * every later row contributes its trimmed, non-empty cell in that column.
 * The file is taken already tokenised into rows of cells.
 */
module IgnoreList {
  import opened Wrappers
  import opened Text

  /**
   * What the CSV reader delivers: no file at the configured path, or the
   * rows it produced (all of them, or those read before a read error; an
   * unreadable file gives no rows).
   */
  datatype CsvFile = NoFile | CsvRows(rows: seq<seq<string>>)

  const ImageIdHeader := "IMAGE ID"

  /** Python's `list.index`: the first position holding `cell`, if any. */
  function IndexOf(header: seq<string>, cell: string): (r: Option<nat>)
    ensures r.Some? ==> r.value < |header| && header[r.value] == cell
                        && forall j :: 0 <= j < r.value ==> header[j] != cell
    ensures r.None? <==> cell !in header
  {
    if header == [] then None
    else if header[0] == cell then Some(0)
    else match IndexOf(header[1..], cell)
         case None => None
         case Some(i) => Some(i + 1)
  }

  /** What one data row contributes: its trimmed cell in column `col`, unless short or blank. */
  function RowId(row: seq<string>, col: nat): (r: set<string>)
  {
    if col < |row| && Strip(row[col]) != [] then {Strip(row[col])} else {}
  }

  /** The ids contributed by the data rows, read in order. */
  function CollectIds(rows: seq<seq<string>>, col: nat): (r: set<string>)
  {
    if rows == [] then {}
    else CollectIds(rows[..|rows| - 1], col) + RowId(rows[|rows| - 1], col)
  }

  /** The set `load_ignored_image_ids` returns for a file. */
  function IgnoredIds(file: CsvFile): (r: set<string>)
  {
    if file.NoFile? || file.rows == [] then {}
    else match IndexOf(file.rows[0], ImageIdHeader)
         case None => {}
         case Some(col) => CollectIds(file.rows[1..], col)
  }

  /**
   * `load_ignored_image_ids`: read the header, find the id column, then
   * add every non-empty trimmed cell of that column from the later rows.
   */
  method LoadIgnoredImageIds(file: CsvFile) returns (ids: set<string>)
    ensures ids == IgnoredIds(file)
  {
    ids := {};
    if file.NoFile? {
      return;
    }
    if file.rows == [] {
      return;
    }
    var header := file.rows[0];
    var found := IndexOf(header, ImageIdHeader);
    if found.None? {
      return;
    }
    var col := found.value;
    var data := file.rows[1..];
    for k := 0 to |data|
      invariant ids == CollectIds(data[..k], col)
    {
      assert data[..k + 1][..k] == data[..k];
      var row := data[k];
      if row == [] {
        continue;
      }
      if col >= |row| {
        continue;
      }
      var id := Strip(row[col]);
      if id != [] {
        ids := ids + {id};
      }
    }
    assert data[..|data|] == data;
  }

  // ----- properties -----

  /** A string is collected exactly when some data row holds it, trimmed, in the id column. */
  lemma {:induction false} CollectIdsMembership(rows: seq<seq<string>>, col: nat, id: string)
    ensures id in CollectIds(rows, col) <==>
              id != [] && exists j :: 0 <= j < |rows| && col < |rows[j]| && Strip(rows[j][col]) == id
  {
    if rows != [] {
      var init := rows[..|rows| - 1];
      CollectIdsMembership(init, col, id);
      if id in CollectIds(rows, col) {
        if id in CollectIds(init, col) {
          var j :| 0 <= j < |init| && col < |init[j]| && Strip(init[j][col]) == id;
          assert rows[j] == init[j];
        } else {
          assert Strip(rows[|rows| - 1][col]) == id;
        }
      }
      if id != [] && exists j :: 0 <= j < |rows| && col < |rows[j]| && Strip(rows[j][col]) == id {
        var j :| 0 <= j < |rows| && col < |rows[j]| && Strip(rows[j][col]) == id;
        if j < |init| {
          assert init[j] == rows[j];
        }
      }
    }
  }

  /**
   * With a header naming the id column at `col` (its first "IMAGE ID"
   * cell), a string is ignored exactly when it is non-empty and some
   * later row holds it, trimmed, in that column.
   */
  lemma IgnoredIdsMembership(rows: seq<seq<string>>, col: nat, id: string)
    requires rows != [] && IndexOf(rows[0], ImageIdHeader) == Some(col)
    ensures id in IgnoredIds(CsvRows(rows)) <==>
              id != [] && exists j :: 1 <= j < |rows| && col < |rows[j]| && Strip(rows[j][col]) == id
  {
    CollectIdsMembership(rows[1..], col, id);
    if id != [] && exists j :: 1 <= j < |rows| && col < |rows[j]| && Strip(rows[j][col]) == id {
      var j :| 1 <= j < |rows| && col < |rows[j]| && Strip(rows[j][col]) == id;
      assert rows[1..][j - 1] == rows[j];
    }
  }

  /** The empty string is never ignored, and every ignored id is trimmed. */
  lemma IgnoredIdsAreTrimmed(file: CsvFile, id: string)
    requires id in IgnoredIds(file)
    ensures id != [] && IsStripped(id)
  {
    match IndexOf(file.rows[0], ImageIdHeader)
    case Some(col) =>
      CollectIdsMembership(file.rows[1..], col, id);
  }

  /** A missing file, an empty file, or a header without "IMAGE ID" ignores nothing. */
  lemma NothingIgnoredWithoutIdColumn(file: CsvFile)
    requires file.NoFile? || file.rows == [] || ImageIdHeader !in file.rows[0]
    ensures IgnoredIds(file) == {}
  {
  }
}

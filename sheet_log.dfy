/**
 * append_to_gsheet of app.py over an abstract spreadsheet: named
 * worksheets, each a list of rows that the call extends. Opening the
 * spreadsheet and authorising the client are left out.
 */
module SheetLog {
  import opened Wrappers
  import opened Record

  /** A row without its trailing empty cells, as the spreadsheet service
      reports it. */
  function TrimTrailingEmpty(cells: seq<string>): (trimmed: seq<string>)
    ensures trimmed <= cells
    ensures trimmed == [] || trimmed[|trimmed| - 1] != ""
    ensures forall i :: |trimmed| <= i < |cells| ==> cells[i] == ""
  {
    if cells == [] then []
    else if cells[|cells| - 1] == "" then TrimTrailingEmpty(cells[..|cells| - 1])
    else cells
  }

  /** `ws.row_values(i)`: the cells of row i (1-based), empty when the row
      is blank or beyond the last row. */
  function RowValuesOf(rows: seq<seq<string>>, i: nat): seq<string> {
    if 1 <= i <= |rows| then TrimTrailingEmpty(rows[i - 1]) else []
  }

  /** The rows of the worksheet after one call: a missing worksheet starts
      as the header alone; the header is added when row 1 is blank; then
      the record's data row. */
  function AfterAppend(existing: Option<seq<seq<string>>>, row: Row): seq<seq<string>> {
    var base := if existing.None? then [FIELD_NAMES] else existing.value;
    var withHeader := if RowValuesOf(base, 1) == [] then base + [FIELD_NAMES] else base;
    withHeader + [Project(row)]
  }

  class Spreadsheet {
    var worksheets: map<string, seq<seq<string>>>

    constructor (worksheets0: map<string, seq<seq<string>>>)
      ensures worksheets == worksheets0
    {
      worksheets := worksheets0;
    }

    /** `sh.worksheet(title)` succeeds exactly when the worksheet exists. */
    method HasWorksheet(title: string) returns (found: bool)
      ensures found <==> title in worksheets
    {
      found := title in worksheets;
    }

    /** `sh.add_worksheet(title=...)`: a new, empty worksheet. */
    method AddWorksheet(title: string)
      requires title !in worksheets
      modifies this
      ensures worksheets == old(worksheets)[title := []]
    {
      worksheets := worksheets[title := []];
    }

    /** `ws.row_values(i)` */
    method RowValues(title: string, i: nat) returns (cells: seq<string>)
      requires title in worksheets
      ensures cells == RowValuesOf(worksheets[title], i)
      ensures cells == [] <==> (i < 1 || i > |worksheets[title]| || Blank(worksheets[title][i - 1]))
    {
      cells := RowValuesOf(worksheets[title], i);
      if i >= 1 && i <= |worksheets[title]| {
        TrimmedEmptyIffBlank(worksheets[title][i - 1]);
      }
    }

    /** `ws.append_row(values)`: one row after the last. */
    method AppendRow(title: string, values: seq<string>)
      requires title in worksheets
      modifies this
      ensures worksheets == old(worksheets)[title := old(worksheets)[title] + [values]]
    {
      worksheets := worksheets[title := worksheets[title] + [values]];
    }

    /** The worksheet lookup of append_to_gsheet: a missing worksheet is
        created and given the header row. */
    method OpenOrCreate(title: string)
      modifies this
      ensures worksheets == old(worksheets)[title :=
        if title in old(worksheets) then old(worksheets)[title] else [FIELD_NAMES]]
    {
      var found := HasWorksheet(title);
      if !found {
        AddWorksheet(title);
        ghost var empty := worksheets;
        AppendRow(title, FIELD_NAMES);
        assert empty[title] + [FIELD_NAMES] == [FIELD_NAMES];
        assert empty[title := [FIELD_NAMES]] == old(worksheets)[title := [FIELD_NAMES]];
      }
    }

    /** The header check of append_to_gsheet: the header is appended when
        row 1 reads back empty. */
    method EnsureHeader(title: string)
      requires title in worksheets
      modifies this
      ensures worksheets == old(worksheets)[title :=
        if RowValuesOf(old(worksheets)[title], 1) == [] then old(worksheets)[title] + [FIELD_NAMES]
        else old(worksheets)[title]]
    {
      var header := RowValues(title, 1);
      if header == [] {
        AppendRow(title, FIELD_NAMES);
      }
    }

    /** append_to_gsheet: make sure the worksheet exists and has a header,
        then append the record's data row; other worksheets are untouched. */
    method AppendToGsheet(title: string, row: Row)
      modifies this
      ensures worksheets == old(worksheets)[title :=
        AfterAppend(if title in old(worksheets) then Some(old(worksheets)[title]) else None, row)]
    {
      OpenOrCreate(title);
      EnsureHeader(title);
      AppendRow(title, Project(row));
    }
  }

  /** A row whose cells are all empty. */
  predicate Blank(cells: seq<string>) {
    forall i :: 0 <= i < |cells| ==> cells[i] == ""
  }

  /** A row reads back as empty exactly when all its cells are empty. */
  lemma TrimmedEmptyIffBlank(cells: seq<string>)
    ensures TrimTrailingEmpty(cells) == [] <==> Blank(cells)
  {
    var t := TrimTrailingEmpty(cells);
    if t != [] {
      assert cells[|t| - 1] == t[|t| - 1];
    }
  }

  lemma HeaderIsNotBlank()
    ensures TrimTrailingEmpty(FIELD_NAMES) == FIELD_NAMES
  {
  }

  /** One call keeps every earlier row, adds the header at most once,
      exactly when the worksheet was missing or its row 1 was blank, and
      ends with the record's data row. */
  lemma AppendShape(existing: Option<seq<seq<string>>>, row: Row)
    ensures var before := if existing.None? then [] else existing.value;
      var headerAdded := existing.None? || RowValuesOf(existing.value, 1) == [];
      AfterAppend(existing, row) == before + (if headerAdded then [FIELD_NAMES] else []) + [Project(row)]
  {
    HeaderIsNotBlank();
  }

  /** A worksheet that was missing, or existed with no rows, ends up with
      the header in row 1 and the data row in row 2. */
  lemma NewWorksheetGetsHeaderFirst(existing: Option<seq<seq<string>>>, row: Row)
    requires existing.None? || existing.value == []
    ensures AfterAppend(existing, row) == [FIELD_NAMES, Project(row)]
  {
    HeaderIsNotBlank();
  }

  /** The rows left by appending each record in turn. */
  function AfterAppendAll(existing: Option<seq<seq<string>>>, records: seq<Row>): seq<seq<string>>
    decreases |records|
  {
    if records == [] then (if existing.None? then [] else existing.value)
    else AfterAppendAll(Some(AfterAppend(existing, records[0])), records[1..])
  }

  /** Once row 1 holds a header the header is never appended again: every
      call adds its data row only. */
  lemma {:induction false} AppendAllWithHeader(rows: seq<seq<string>>, records: seq<Row>)
    requires RowValuesOf(rows, 1) != []
    ensures AfterAppendAll(Some(rows), records) == rows + DataRows(records)
    decreases |records|
  {
    if records != [] {
      var next := rows + [Project(records[0])];
      assert AfterAppend(Some(rows), records[0]) == next;
      assert next[0] == rows[0];
      AppendAllWithHeader(next, records[1..]);
      assert DataRows(records) == [Project(records[0])] + DataRows(records[1..]);
      assert next + DataRows(records[1..]) == rows + DataRows(records);
    }
  }

  /** Appending n records to a missing worksheet: the header once, then
      the n data rows in order. */
  lemma AppendAllToMissingWorksheet(records: seq<Row>)
    requires records != []
    ensures AfterAppendAll(None, records) == [FIELD_NAMES] + DataRows(records)
  {
    var first := [FIELD_NAMES, Project(records[0])];
    NewWorksheetGetsHeaderFirst(None, records[0]);
    HeaderIsNotBlank();
    assert RowValuesOf(first, 1) == FIELD_NAMES;
    AppendAllWithHeader(first, records[1..]);
    assert DataRows(records) == [Project(records[0])] + DataRows(records[1..]);
  }
}

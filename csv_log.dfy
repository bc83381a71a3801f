/**
 * log_to_csv of app.py: the CSV file as an object whose rows the call
 * extends. Whether the file exists is checked before it is opened for
 * appending; the header row is written only when it did not.
 */
module CsvLog {
  import opened Record

  /** The rows a call leaves in the file: what was there, the header when
      the file did not exist, then the record's data row. */
  function AfterLog(existed: bool, rows: seq<seq<string>>, row: Row): seq<seq<string>> {
    rows + (if existed then [] else [FIELD_NAMES]) + [Project(row)]
  }

  /** The rows after logging each record in turn. */
  function AfterLogAll(existed: bool, rows: seq<seq<string>>, records: seq<Row>): seq<seq<string>>
    decreases |records|
  {
    if records == [] then rows
    else AfterLogAll(true, AfterLog(existed, rows, records[0]), records[1..])
  }

  class CsvFile {
    var present: bool
    var rows: seq<seq<string>>

    /** A file that does not exist holds no rows. */
    ghost predicate Valid()
      reads this
    {
      !present ==> rows == []
    }

    /** A path with no file yet. */
    constructor Missing()
      ensures Valid() && !present && rows == []
    {
      present := false;
      rows := [];
    }

    /** A file that already holds the given rows. */
    constructor Existing(rows0: seq<seq<string>>)
      ensures Valid() && present && rows == rows0
    {
      present := true;
      rows := rows0;
    }

    /** log_to_csv: one data row, preceded by the header only when the file
        did not exist before the call. */
    method LogToCsv(row: Row)
      requires Valid()
      modifies this
      ensures Valid() && present
      ensures rows == AfterLog(old(present), old(rows), row)
    {
      var fileExisted := present;
      present := true;
      if !fileExisted {
        rows := rows + [FIELD_NAMES];
      }
      rows := rows + [Project(row)];
    }
  }

  /** One call keeps every earlier row, adds the header iff the file was
      missing, and ends with the record's data row. */
  lemma LogAppendsOnly(existed: bool, rows: seq<seq<string>>, row: Row)
    ensures var after := AfterLog(existed, rows, row);
      && rows <= after
      && |after| == |rows| + (if existed then 1 else 2)
      && after[|after| - 1] == Project(row)
      && (!existed ==> after[|rows|] == FIELD_NAMES)
  {
  }

  /** Logging n records to a missing file gives the header once, then the
      n data rows in order. */
  lemma LogAllToMissingFile(records: seq<Row>)
    ensures AfterLogAll(false, [], records)
         == if records == [] then [] else [FIELD_NAMES] + DataRows(records)
  {
    if records != [] {
      var first := [FIELD_NAMES, Project(records[0])];
      assert AfterLog(false, [], records[0]) == first;
      LogAllToExistingFile(first, records[1..]);
      assert DataRows(records) == [Project(records[0])] + DataRows(records[1..]);
      assert [FIELD_NAMES, Project(records[0])] + DataRows(records[1..])
          == [FIELD_NAMES] + DataRows(records);
    }
  }

  /** On an existing file every call adds exactly its data row and the
      header is never written again. */
  lemma {:induction false} LogAllToExistingFile(rows: seq<seq<string>>, records: seq<Row>)
    ensures AfterLogAll(true, rows, records) == rows + DataRows(records)
    decreases |records|
  {
    if records != [] {
      var first := rows + [Project(records[0])];
      assert AfterLog(true, rows, records[0]) == first;
      LogAllToExistingFile(first, records[1..]);
      assert DataRows(records) == [Project(records[0])] + DataRows(records[1..]);
      assert first + DataRows(records[1..]) == rows + DataRows(records);
    }
  }

  /** Two calls on a missing path: header plus two data rows. */
  method LogTwiceToMissingFile(r1: Row, r2: Row) returns (rows: seq<seq<string>>)
    ensures rows == [FIELD_NAMES, Project(r1), Project(r2)]
  {
    var f := new CsvFile.Missing();
    f.LogToCsv(r1);
    f.LogToCsv(r2);
    rows := f.rows;
  }
}

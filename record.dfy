/**
 * The fixed record schema of app.py (FIELDNAMES) and the projection of
 * a calculation's row onto it, shared by the CSV and the worksheet sinks.
 * Every value is taken already rendered as text.
 */
module Record {

  /** A calculation record: field name to rendered value. */
  type Row = map<string, string>

  /** The 29 column names, in column order. */
  const FIELD_NAMES: seq<string> := [
    "timestamp_iso",
    "origin_address", "origin_lat", "origin_lon",
    "dest_input_address", "dest_input_postal", "dest_input_city",
    "dest_geocoded_title", "dest_lat", "dest_lon",
    "distance_km", "duration_seconds", "duration_human", "price_eur",
    "zona_1_km", "zona_2_km", "zona_3_km", "zona_4_km",
    "precio_z1", "precio_z2", "precio_z3", "precio_z4", "precio_km_extra",
    "truckHeight", "truckWidth", "truckLength", "truckWeight", "truckAxleCount", "truckType"
  ]

  /** `row.get(k, "")` */
  function Lookup(row: Row, k: string): string {
    if k in row then row[k] else ""
  }

  /** The data row written for a record: one value per schema field, in
      schema order, the empty string where the record lacks the field. */
  function Project(row: Row): (values: seq<string>)
    ensures |values| == |FIELD_NAMES|
    ensures forall i :: 0 <= i < |values| ==> values[i] == Lookup(row, FIELD_NAMES[i])
  {
    seq(|FIELD_NAMES|, i requires 0 <= i < |FIELD_NAMES| => Lookup(row, FIELD_NAMES[i]))
  }

  /** The data rows of several records, in order. */
  function DataRows(records: seq<Row>): (rows: seq<seq<string>>)
    ensures |rows| == |records|
  {
    if records == [] then [] else [Project(records[0])] + DataRows(records[1..])
  }

  predicate Distinct(names: seq<string>) {
    forall i, j :: 0 <= i < j < |names| ==> names[i] != names[j]
  }

  lemma FieldNamesDistinct()
    ensures Distinct(FIELD_NAMES)
  {
  }

  /** A data row read back against a header, as a CSV dictionary reader
      does: each header name paired with the value in its column, a later
      repetition of a name overriding an earlier one. */
  function ReadRow(header: seq<string>, values: seq<string>): (fields: Row)
    requires |header| == |values|
    ensures fields.Keys == set k | k in header
  {
    if header == [] then map[]
    else
      var n := |header| - 1;
      ReadRow(header[..n], values[..n])[header[n] := values[n]]
  }

  lemma {:induction false} ReadRowAt(header: seq<string>, values: seq<string>, i: nat)
    requires |header| == |values| && Distinct(header) && i < |header|
    ensures ReadRow(header, values)[header[i]] == values[i]
  {
    var n := |header| - 1;
    if i < n {
      ReadRowAt(header[..n], values[..n], i);
    }
  }

  /** Reading a projected row back against the schema recovers, for every
      schema field, the record's value or "", and drops every other key. */
  lemma ProjectReadBack(row: Row)
    ensures ReadRow(FIELD_NAMES, Project(row)) == map k | k in FIELD_NAMES :: Lookup(row, k)
  {
    FieldNamesDistinct();
    var back := ReadRow(FIELD_NAMES, Project(row));
    forall k | k in FIELD_NAMES ensures back[k] == Lookup(row, k) {
      var i :| 0 <= i < |FIELD_NAMES| && FIELD_NAMES[i] == k;
      ReadRowAt(FIELD_NAMES, Project(row), i);
    }
  }

  /** Two records give the same data row exactly when they agree, with ""
      for missing, on every schema field; keys outside the schema never matter. */
  lemma ProjectEqualIff(r1: Row, r2: Row)
    ensures Project(r1) == Project(r2) <==> forall k :: k in FIELD_NAMES ==> Lookup(r1, k) == Lookup(r2, k)
  {
    if Project(r1) == Project(r2) {
      forall k | k in FIELD_NAMES ensures Lookup(r1, k) == Lookup(r2, k) {
        var i :| 0 <= i < |FIELD_NAMES| && FIELD_NAMES[i] == k;
        assert Project(r1)[i] == Project(r2)[i];
      }
    }
  }

  lemma ProjectIgnoresOtherKeys(row: Row, k: string, v: string)
    requires k !in FIELD_NAMES
    ensures Project(row[k := v]) == Project(row)
  {
    ProjectEqualIff(row[k := v], row);
  }
}

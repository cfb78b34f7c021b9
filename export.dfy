/**
 * `export_report`: the rows of the `top_posts` view written as CSV records,
 * a header record of column names followed by one record per row.
 *
 * A record is the sequence of its fields as text; the quoting and line
 * endings the CSV writer adds are not modelled.
 */
module Export {

  type Record = seq<string>

  /**
   * Builds the output buffer: when the result has rows, the header record of
   * `columns` and then each row in result order; otherwise nothing. An empty
   * result gives the header alone.
   */
  method ExportReport(columns: Record, rows: seq<Record>, returnsRows: bool) returns (csv: seq<Record>)
    ensures returnsRows ==> |csv| == |rows| + 1 && csv[0] == columns
    ensures returnsRows ==> forall i :: 0 <= i < |rows| ==> csv[i + 1] == rows[i]
    ensures !returnsRows ==> csv == []
  {
    csv := [];
    if returnsRows {
      csv := csv + [columns];
      for i := 0 to |rows|
        invariant |csv| == i + 1 && csv[0] == columns
        invariant forall k :: 0 <= k < i ==> csv[k + 1] == rows[k]
      {
        csv := csv + [rows[i]];
      }
    }
  }
}

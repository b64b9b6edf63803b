/** A parsed sheet: a header row and data rows of string cells. */
module Tables {

  /** A sheet as the pipeline sees it once parsed: every cell is a string,
      and an empty cell is the empty string. */
  datatype Table = Table(headers: seq<string>, rows: seq<seq<string>>)

  /** Every row has one cell per header. */
  predicate WellFormed(t: Table) {
    forall i :: 0 <= i < |t.rows| ==> |t.rows[i]| == |t.headers|
  }

  /** The single notion of "no value": the code treats the empty string and
      an absent cell alike, and the model represents both as "". */
  predicate IsEmpty(cell: string) {
    cell == ""
  }

  /** The data cells (header excluded) of column `j`, top to bottom. */
  function Column(t: Table, j: nat): (cells: seq<string>)
    requires WellFormed(t) && j < |t.headers|
    ensures |cells| == |t.rows|
    ensures forall i :: 0 <= i < |cells| ==> cells[i] == t.rows[i][j]
  {
    seq(|t.rows|, i requires 0 <= i < |t.rows| => t.rows[i][j])
  }
}

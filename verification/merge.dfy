/** Concatenating the prepared sheets into one, in upload order. */
module Merge {
  import opened Tables

  /** The total number of data rows of the sheets. */
  function RowCount(ts: seq<Table>): nat {
    if |ts| == 0 then 0 else |ts[0].rows| + RowCount(ts[1..])
  }

  /** The sheets' rows one after the other: all rows of the first sheet in
      their order, then all rows of the second, and so on. */
  function ConcatRows(ts: seq<Table>): (rows: seq<seq<string>>)
    ensures |rows| == RowCount(ts)
  {
    if |ts| == 0 then [] else ts[0].rows + ConcatRows(ts[1..])
  }

  /** Every sheet carries the same header row as the first. */
  predicate SameHeaders(ts: seq<Table>) {
    forall k :: 0 <= k < |ts| ==> ts[k].headers == ts[0].headers
  }

  /** Every sheet is rectangular. */
  predicate AllWellFormed(ts: seq<Table>) {
    forall k :: 0 <= k < |ts| ==> WellFormed(ts[k])
  }

  /** The merged sheet: the shared header row over all the rows. */
  function Concat(ts: seq<Table>): (t: Table)
    requires |ts| > 0 && SameHeaders(ts) && AllWellFormed(ts)
    ensures WellFormed(t)
    ensures t.headers == ts[0].headers
    ensures |t.rows| == RowCount(ts)
  {
    ConcatWidth(ts, |ts[0].headers|);
    Table(ts[0].headers, ConcatRows(ts))
  }

  lemma {:induction false} ConcatWidth(ts: seq<Table>, w: nat)
    requires forall k, i :: 0 <= k < |ts| && 0 <= i < |ts[k].rows| ==> |ts[k].rows[i]| == w
    ensures forall i :: 0 <= i < |ConcatRows(ts)| ==> |ConcatRows(ts)[i]| == w
  {
    if |ts| > 0 {
      ConcatWidth(ts[1..], w);
      assert forall i :: 0 <= i < |ts[0].rows| ==> ConcatRows(ts)[i] == ts[0].rows[i];
    }
  }

  /** Row `i` of sheet `k` lands at position (rows of the earlier sheets)
      + `i` of the merged rows: upload order first, then the sheet's own
      order, so no row is dropped, duplicated or moved. */
  lemma {:induction false} ConcatOrder(ts: seq<Table>, k: nat, i: nat)
    requires k < |ts| && i < |ts[k].rows|
    ensures RowCount(ts[..k]) + i < |ConcatRows(ts)|
    ensures ConcatRows(ts)[RowCount(ts[..k]) + i] == ts[k].rows[i]
  {
    if k == 0 {
      assert ts[..0] == [];
    } else {
      ConcatOrder(ts[1..], k - 1, i);
      assert ts[..k][1..] == ts[1..][..k - 1];
    }
  }
}

/** Display widths of the merged sheet's columns. */
module Widths {
  import opened Tables

  /** The widest cap a column gets. */
  const MaxWidth: nat := 50

  /** The padding added to the longest value. */
  const Padding: nat := 2

  /** The length of the longest non-empty value, 0 when there is none. */
  function MaxLength(cells: seq<string>): (m: nat)
    ensures forall i :: 0 <= i < |cells| ==> |cells[i]| <= m
    ensures m == 0 || exists i :: 0 <= i < |cells| && !IsEmpty(cells[i]) && |cells[i]| == m
  {
    if |cells| == 0 then 0
    else
      var rest := MaxLength(cells[1..]);
      assert forall i :: 1 <= i < |cells| ==> cells[i] == cells[1..][i - 1];
      if !IsEmpty(cells[0]) && |cells[0]| > rest then |cells[0]| else rest
  }

  /** A column's width from its cells (header cell included): the longest
      value plus two, capped at fifty. */
  function Width(cells: seq<string>): (w: nat)
    ensures Padding <= w <= MaxWidth
  {
    var m := MaxLength(cells);
    if m + Padding < MaxWidth then m + Padding else MaxWidth
  }

  /** Every column's width, left to right. */
  function ColumnWidths(t: Table): (widths: seq<nat>)
    requires WellFormed(t)
    ensures |widths| == |t.headers|
    ensures forall j :: 0 <= j < |t.headers| ==> widths[j] == Width([t.headers[j]] + Column(t, j))
  {
    seq(|t.headers|, j requires 0 <= j < |t.headers| => Width([t.headers[j]] + Column(t, j)))
  }

  /** The width is `min(longest + 2, 50)`: it is at least each cell's
      length plus two (up to the cap); below the cap it is exactly the
      longest non-empty cell's length plus two, or two when every cell is
      empty; and it reaches the cap only for a cell of 48 characters or more. */
  lemma {:induction false} WidthFits(cells: seq<string>)
    ensures forall i :: 0 <= i < |cells| ==>
      Width(cells) >= if |cells[i]| + Padding < MaxWidth then |cells[i]| + Padding else MaxWidth
    ensures Width(cells) < MaxWidth ==>
      Width(cells) == Padding ||
      exists i :: 0 <= i < |cells| && !IsEmpty(cells[i]) && |cells[i]| + Padding == Width(cells)
    ensures Width(cells) == MaxWidth ==> exists i :: 0 <= i < |cells| && |cells[i]| + Padding >= MaxWidth
    ensures (forall i :: 0 <= i < |cells| ==> IsEmpty(cells[i])) ==> Width(cells) == Padding
  {
  }

  /** The widths of the header row's cells are all in [2, 50], and a column
      whose header is longer than 47 characters gets the full 50. */
  lemma {:induction false} ColumnWidthsBounded(t: Table)
    requires WellFormed(t)
    ensures forall j :: 0 <= j < |t.headers| ==> Padding <= ColumnWidths(t)[j] <= MaxWidth
    ensures forall j :: 0 <= j < |t.headers| && |t.headers[j]| + Padding >= MaxWidth ==>
      ColumnWidths(t)[j] == MaxWidth
  {
    forall j | 0 <= j < |t.headers|
      ensures |t.headers[j]| + Padding >= MaxWidth ==> ColumnWidths(t)[j] == MaxWidth
    {
      var cells := [t.headers[j]] + Column(t, j);
      assert cells[0] == t.headers[j];
      WidthFits(cells);
    }
  }
}

/** Pruning the unwanted columns of the merged sheet: a candidate column is
    deleted only when none of its data cells holds a value, otherwise it is
    kept, reported, and its header highlighted. */
module Pruning {
  import opened Schema
  import opened Tables

  /** No data cell holds a value. */
  predicate AllEmpty(cells: seq<string>) {
    forall i :: 0 <= i < |cells| ==> IsEmpty(cells[i])
  }

  /** Column `j` is a pruning candidate without data: it gets deleted. */
  predicate Removable(t: Table, j: nat)
    requires WellFormed(t) && j < |t.headers|
  {
    t.headers[j] in UnwantedColumns && AllEmpty(Column(t, j))
  }

  /** Column `j` is a pruning candidate holding data: it stays, is reported
      and has its header highlighted. */
  predicate HoldsData(t: Table, j: nat)
    requires WellFormed(t) && j < |t.headers|
  {
    t.headers[j] in UnwantedColumns && !AllEmpty(Column(t, j))
  }

  /** The removable columns below `n`, in ascending order. */
  function MarkedUpTo(t: Table, n: nat): (marked: seq<nat>)
    requires WellFormed(t) && n <= |t.headers|
    ensures forall k :: 0 <= k < |marked| ==> marked[k] < n
    ensures forall j: nat :: j in marked <==> j < n && Removable(t, j)
    ensures forall a, b :: 0 <= a < b < |marked| ==> marked[a] < marked[b]
  {
    if n == 0 then []
    else MarkedUpTo(t, n - 1) + (if Removable(t, n - 1) then [n - 1] else [])
  }

  /** The columns to delete (0-based), collected left to right: every
      candidate column without data, once, in ascending order. */
  function MarkedColumns(t: Table): (marked: seq<nat>)
    requires WellFormed(t)
    ensures forall j: nat :: j in marked <==> j < |t.headers| && Removable(t, j)
    ensures forall a, b :: 0 <= a < b < |marked| ==> marked[a] < marked[b]
  {
    MarkedUpTo(t, |t.headers|)
  }

  /** The candidate columns holding data below `n`, in ascending order. */
  function DataColumnsUpTo(t: Table, n: nat): (cols: seq<nat>)
    requires WellFormed(t) && n <= |t.headers|
    ensures forall k :: 0 <= k < |cols| ==> cols[k] < n
    ensures forall j: nat :: j in cols <==> j < n && HoldsData(t, j)
    ensures forall a, b :: 0 <= a < b < |cols| ==> cols[a] < cols[b]
  {
    if n == 0 then []
    else DataColumnsUpTo(t, n - 1) + (if HoldsData(t, n - 1) then [n - 1] else [])
  }

  /** The headers of the candidate columns holding data below `n`, left to
      right. */
  function RetainedUpTo(t: Table, n: nat): (retained: seq<string>)
    requires WellFormed(t) && n <= |t.headers|
    ensures |retained| <= n
  {
    if n == 0 then []
    else RetainedUpTo(t, n - 1) + (if HoldsData(t, n - 1) then [t.headers[n - 1]] else [])
  }

  /** Some candidate column holding data below `n` is headed `h`. */
  predicate HeadsDataColumn(t: Table, n: nat, h: string)
    requires WellFormed(t) && n <= |t.headers|
  {
    exists j :: 0 <= j < n && HoldsData(t, j) && t.headers[j] == h
  }

  /** The report below `n` names every candidate column holding data and
      nothing else. */
  lemma {:induction false} RetainedUpToIff(t: Table, n: nat)
    requires WellFormed(t) && n <= |t.headers|
    ensures forall j :: 0 <= j < n && HoldsData(t, j) ==> t.headers[j] in RetainedUpTo(t, n)
    ensures forall k :: 0 <= k < |RetainedUpTo(t, n)| ==> HeadsDataColumn(t, n, RetainedUpTo(t, n)[k])
  {
    if n > 0 {
      RetainedUpToIff(t, n - 1);
      var prior := RetainedUpTo(t, n - 1);
      var step := if HoldsData(t, n - 1) then [t.headers[n - 1]] else [];
      assert RetainedUpTo(t, n) == prior + step;
      forall j | 0 <= j < n && HoldsData(t, j)
        ensures t.headers[j] in prior + step
      {
        if j < n - 1 {
          assert t.headers[j] in prior;
        }
      }
      forall k | 0 <= k < |RetainedUpTo(t, n)|
        ensures HeadsDataColumn(t, n, RetainedUpTo(t, n)[k])
      {
        var x := RetainedUpTo(t, n)[k];
        if k < |prior| {
          assert x == prior[k] && HeadsDataColumn(t, n - 1, prior[k]);
          var j :| 0 <= j < n - 1 && HoldsData(t, j) && t.headers[j] == prior[k];
          assert 0 <= j < n && HoldsData(t, j) && t.headers[j] == x;
        } else {
          assert HoldsData(t, n - 1) && t.headers[n - 1] == x;
        }
      }
    } else {
      assert RetainedUpTo(t, n) == [];
    }
  }

  /** The report below `n` lists the headers of the candidate columns
      holding data, one entry per such column, in column order. */
  lemma {:induction false} RetainedInColumnOrder(t: Table, n: nat)
    requires WellFormed(t) && n <= |t.headers|
    ensures |RetainedUpTo(t, n)| == |DataColumnsUpTo(t, n)|
    ensures forall k :: 0 <= k < |RetainedUpTo(t, n)| ==>
      RetainedUpTo(t, n)[k] == t.headers[DataColumnsUpTo(t, n)[k]]
  {
    if n > 0 {
      RetainedInColumnOrder(t, n - 1);
    }
  }

  /** The report of candidate columns that could not be deleted: the header
      of every candidate column holding data, once each, left to right. */
  function RetainedHeaders(t: Table): (retained: seq<string>)
    requires WellFormed(t)
    ensures var cols := DataColumnsUpTo(t, |t.headers|);
      |retained| == |cols| && forall k :: 0 <= k < |retained| ==> retained[k] == t.headers[cols[k]]
  {
    RetainedInColumnOrder(t, |t.headers|);
    RetainedUpTo(t, |t.headers|)
  }

  /** One flag per header cell: highlighted when the column is a candidate
      that holds data. */
  function HeaderHighlights(t: Table): (flags: seq<bool>)
    requires WellFormed(t)
    ensures |flags| == |t.headers|
  {
    seq(|t.headers|, j requires 0 <= j < |t.headers| => HoldsData(t, j))
  }

  /** `s` without its element at `i`. */
  function RemoveAt<T>(s: seq<T>, i: nat): (r: seq<T>)
    requires i < |s|
    ensures |r| == |s| - 1
    ensures forall k :: 0 <= k < |r| ==> r[k] == s[if k < i then k else k + 1]
  {
    s[..i] + s[i + 1..]
  }

  /** Strictly decreasing. */
  predicate Descending(idxs: seq<nat>) {
    forall a, b :: 0 <= a < b < |idxs| ==> idxs[a] > idxs[b]
  }

  /** Removes the positions one after the other, largest first, each from
      the sequence left by the previous removals. */
  function RemoveEach<T>(s: seq<T>, idxs: seq<nat>): (r: seq<T>)
    requires Descending(idxs) && forall k :: 0 <= k < |idxs| ==> idxs[k] < |s|
    ensures |r| == |s| - |idxs|
    decreases |idxs|
  {
    if |idxs| == 0 then s else RemoveEach(RemoveAt(s, idxs[0]), idxs[1..])
  }

  /** The elements of `s` whose positions, counted from `offset`, are not in
      `marked`, in their order. */
  function KeepFrom<T>(s: seq<T>, marked: set<nat>, offset: nat): seq<T> {
    if |s| == 0 then []
    else (if offset in marked then [] else [s[0]]) + KeepFrom(s[1..], marked, offset + 1)
  }

  /** The elements of `s` at positions outside `marked`, in their order. */
  function Keep<T>(s: seq<T>, marked: set<nat>): seq<T> {
    KeepFrom(s, marked, 0)
  }

  /** The positions listed in `idxs`, as a set. */
  function Positions(idxs: seq<nat>): set<nat> {
    set k | 0 <= k < |idxs| :: idxs[k]
  }

  /** Deletes column `j`, header cell and data cells. */
  function DeleteColumn(t: Table, j: nat): (r: Table)
    requires WellFormed(t) && j < |t.headers|
    ensures WellFormed(r) && |r.rows| == |t.rows|
  {
    Table(RemoveAt(t.headers, j), seq(|t.rows|, i requires 0 <= i < |t.rows| => RemoveAt(t.rows[i], j)))
  }

  /** Deletes the columns one after the other, in the order given. */
  function DeleteColumns(t: Table, idxs: seq<nat>): (r: Table)
    requires WellFormed(t) && Descending(idxs) && forall k :: 0 <= k < |idxs| ==> idxs[k] < |t.headers|
    ensures WellFormed(r) && |r.rows| == |t.rows|
    decreases |idxs|
  {
    if |idxs| == 0 then t else DeleteColumns(DeleteColumn(t, idxs[0]), idxs[1..])
  }

  /** `sorted(xs, reverse=True)` for a strictly increasing list: its reversal. */
  function SortDescending(xs: seq<nat>): (r: seq<nat>)
    requires forall a, b :: 0 <= a < b < |xs| ==> xs[a] < xs[b]
    ensures |r| == |xs|
    ensures Descending(r)
    ensures forall k :: 0 <= k < |r| ==> r[k] == xs[|xs| - 1 - k]
  {
    seq(|xs|, k requires 0 <= k < |xs| => xs[|xs| - 1 - k])
  }

  /** The pruned sheet: every removable column deleted, largest index first. */
  function Prune(t: Table): (r: Table)
    requires WellFormed(t)
    ensures WellFormed(r) && |r.rows| == |t.rows|
  {
    var marked := MarkedColumns(t);
    DeleteColumns(t, SortDescending(marked))
  }

  // ---------------------------------------------------------------------
  // Deleting in descending order is deleting a set of positions.

  /** Positions below the offset are never looked at. */
  lemma {:induction false} KeepFromAbove<T>(s: seq<T>, marked: set<nat>, offset: nat)
    requires forall x :: x in marked ==> x < offset
    ensures KeepFrom(s, marked, offset) == s
  {
    if |s| > 0 {
      KeepFromAbove(s[1..], marked, offset + 1);
    }
  }

  /** Removing position `i` and then keeping the unmarked ones is keeping the
      positions outside `marked` plus `i`, provided every marked position lies
      before `i` (so removing `i` shifts none of them). */
  lemma {:induction false} RemoveAtKeep<T>(s: seq<T>, i: nat, marked: set<nat>, offset: nat)
    requires i < |s|
    requires forall x :: x in marked ==> x < offset + i
    ensures KeepFrom(RemoveAt(s, i), marked, offset) == KeepFrom(s, marked + {offset + i}, offset)
  {
    if i == 0 {
      assert RemoveAt(s, 0) == s[1..];
      KeepFromAbove(s[1..], marked, offset);
      KeepFromAbove(s[1..], marked + {offset}, offset + 1);
    } else {
      var r := RemoveAt(s, i);
      assert r[0] == s[0];
      assert r[1..] == RemoveAt(s[1..], i - 1);
      RemoveAtKeep(s[1..], i - 1, marked, offset + 1);
    }
  }

  /** Deleting positions largest first, each from what the previous deletions
      left, removes exactly that set of positions and keeps the others in
      order: the earlier deletions never shift a position still to come. */
  lemma {:induction false} RemoveDescending<T>(s: seq<T>, idxs: seq<nat>)
    requires Descending(idxs) && forall k :: 0 <= k < |idxs| ==> idxs[k] < |s|
    ensures RemoveEach(s, idxs) == Keep(s, Positions(idxs))
    decreases |idxs|
  {
    if |idxs| == 0 {
      assert Positions(idxs) == {};
      KeepFromAbove(s, {}, 0);
    } else {
      var i := idxs[0];
      var rest := idxs[1..];
      RemoveDescending(RemoveAt(s, i), rest);
      assert forall x :: x in Positions(rest) ==> x < i;
      RemoveAtKeep(s, i, Positions(rest), 0);
      assert Positions(idxs) == Positions(rest) + {i};
    }
  }

  /** A position outside the marked set survives. */
  lemma {:induction false} KeepKeepsUnmarked<T>(s: seq<T>, marked: set<nat>, offset: nat, j: nat)
    requires j < |s| && offset + j !in marked
    ensures s[j] in KeepFrom(s, marked, offset)
  {
    if j > 0 {
      KeepKeepsUnmarked(s[1..], marked, offset + 1, j - 1);
    }
  }

  /** With neither of the first two positions marked, the first two
      elements stay in front. */
  lemma {:induction false} KeepFront<T>(s: seq<T>, marked: set<nat>)
    requires |s| >= 2 && 0 !in marked && 1 !in marked
    ensures |Keep(s, marked)| >= 2 && Keep(s, marked)[0] == s[0] && Keep(s, marked)[1] == s[1]
  {
    var tail := KeepFrom(s[1..], marked, 1);
    assert tail == [s[1]] + KeepFrom(s[1..][1..], marked, 2);
    assert Keep(s, marked) == [s[0]] + tail;
  }

  // ---------------------------------------------------------------------
  // Deleting one removable column.

  /** After deleting column `j`, column `k` is the old column `k` before `j`
      and the old column `k + 1` from `j` on, header and data alike. */
  lemma {:induction false} DeleteColumnShifts(t: Table, j: nat, k: nat)
    requires WellFormed(t) && j < |t.headers| && k < |t.headers| - 1
    ensures var r := DeleteColumn(t, j);
      var old_k := if k < j then k else k + 1;
      r.headers[k] == t.headers[old_k] && Column(r, k) == Column(t, old_k)
  {
  }

  /** Deleting a removable column leaves the report of retained columns
      unchanged, up to the matching old position. */
  lemma {:induction false} DeleteRetainedUpTo(t: Table, j: nat, n: nat)
    requires WellFormed(t) && j < |t.headers| && Removable(t, j)
    requires n <= |t.headers| - 1
    ensures RetainedUpTo(DeleteColumn(t, j), n) == RetainedUpTo(t, if n <= j then n else n + 1)
  {
    if n > 0 {
      var r := DeleteColumn(t, j);
      var m := n - 1;
      var old_m := if m < j then m else m + 1;
      // The retained prefix before the step, as the old sheet sees it.
      assert RetainedUpTo(r, m) == RetainedUpTo(t, old_m) by {
        DeleteRetainedUpTo(t, j, m);
        if m == j {
          assert !HoldsData(t, j);
        }
      }
      assert HoldsData(r, m) == HoldsData(t, old_m) && r.headers[m] == t.headers[old_m] by {
        DeleteColumnShifts(t, j, m);
      }
      assert (if n <= j then n else n + 1) == old_m + 1;
    }
  }

  /** When the removable columns are exactly the listed ones, deleting the
      largest keeps that so for the remaining list. */
  lemma {:induction false} RemovableAfterDelete(t: Table, idxs: seq<nat>, k: nat)
    requires WellFormed(t) && Descending(idxs) && forall b :: 0 <= b < |idxs| ==> idxs[b] < |t.headers|
    requires forall j: nat :: j < |t.headers| ==> (Removable(t, j) <==> j in idxs)
    requires |idxs| > 0 && k < |t.headers| - 1
    ensures Removable(DeleteColumn(t, idxs[0]), k) <==> k in idxs[1..]
  {
    var j := idxs[0];
    var rest := idxs[1..];
    var old_k := if k < j then k else k + 1;
    DeleteColumnShifts(t, j, k);
    assert Removable(DeleteColumn(t, j), k) == Removable(t, old_k);
    assert idxs == [j] + rest;
    if k >= j {
      assert forall b :: 0 <= b < |idxs| ==> idxs[b] <= j;
      assert old_k !in idxs;
    }
  }

  /** Deleting columns one after the other removes those positions from
      the header row and from every row alike. */
  lemma {:induction false} DeleteColumnsCells(t: Table, idxs: seq<nat>)
    requires WellFormed(t) && Descending(idxs) && forall k :: 0 <= k < |idxs| ==> idxs[k] < |t.headers|
    ensures DeleteColumns(t, idxs).headers == RemoveEach(t.headers, idxs)
    ensures forall i :: 0 <= i < |t.rows| ==> DeleteColumns(t, idxs).rows[i] == RemoveEach(t.rows[i], idxs)
    decreases |idxs|
  {
    if |idxs| > 0 {
      var j := idxs[0];
      var t1 := DeleteColumn(t, j);
      DeleteColumnsCells(t1, idxs[1..]);
      assert t1.headers == RemoveAt(t.headers, j);
      forall i | 0 <= i < |t.rows|
        ensures DeleteColumns(t, idxs).rows[i] == RemoveEach(t.rows[i], idxs)
      {
        assert t1.rows[i] == RemoveAt(t.rows[i], j);
      }
    }
  }

  /** Deleting the columns of a descending list that are exactly the
      removable ones leaves no removable column and does not change the
      report of retained columns. */
  lemma {:induction false} DeleteRemovable(t: Table, idxs: seq<nat>)
    requires WellFormed(t) && Descending(idxs) && forall k :: 0 <= k < |idxs| ==> idxs[k] < |t.headers|
    requires forall j: nat :: j < |t.headers| ==> (Removable(t, j) <==> j in idxs)
    ensures var r := DeleteColumns(t, idxs);
      && RetainedUpTo(r, |r.headers|) == RetainedUpTo(t, |t.headers|)
      && (forall j :: 0 <= j < |r.headers| ==> !Removable(r, j))
    decreases |idxs|
  {
    if |idxs| > 0 {
      var j := idxs[0];
      var rest := idxs[1..];
      var t1 := DeleteColumn(t, j);
      assert DeleteColumns(t, idxs) == DeleteColumns(t1, rest);
      assert RetainedUpTo(t1, |t1.headers|) == RetainedUpTo(t, |t.headers|) by {
        DeleteRetainedUpTo(t, j, |t1.headers|);
      }
      forall k: nat | k < |t1.headers|
        ensures Removable(t1, k) <==> k in rest
      {
        RemovableAfterDelete(t, idxs, k);
      }
      DeleteRemovable(t1, rest);
    }
  }

  /** The pruning step as a whole. The deleted columns are exactly the
      candidate columns without data, so a column not named as a candidate
      is never deleted; what remains is every other column in its order;
      the report lists the candidates holding data; and once the deletions
      are done, the highlighted headers are exactly the reported ones, since
      every candidate column left holds data. */
  lemma {:induction false} PruneFacts(t: Table)
    requires WellFormed(t)
    ensures forall j: nat :: j in MarkedColumns(t) <==>
      j < |t.headers| && t.headers[j] in UnwantedColumns && AllEmpty(Column(t, j))
    ensures Prune(t).headers == Keep(t.headers, Positions(MarkedColumns(t)))
    ensures forall i :: 0 <= i < |t.rows| ==> Prune(t).rows[i] == Keep(t.rows[i], Positions(MarkedColumns(t)))
    ensures RetainedHeaders(Prune(t)) == RetainedHeaders(t)
    ensures forall j :: 0 <= j < |Prune(t).headers| ==>
      (HeaderHighlights(Prune(t))[j] <==> Prune(t).headers[j] in UnwantedColumns)
  {
    var marked := MarkedColumns(t);
    var idxs := SortDescending(marked);
    assert forall k :: 0 <= k < |marked| ==> marked[k] == idxs[|marked| - 1 - k];
    assert forall j :: j in idxs <==> j in marked;
    DeleteRemovable(t, idxs);
    DeleteColumnsCells(t, idxs);
    assert Positions(idxs) == Positions(marked);
    RemoveDescending(t.headers, idxs);
    forall i | 0 <= i < |t.rows|
      ensures Prune(t).rows[i] == Keep(t.rows[i], Positions(marked))
    {
      RemoveDescending(t.rows[i], idxs);
    }
    var r := Prune(t);
    forall j | 0 <= j < |r.headers|
      ensures HeaderHighlights(r)[j] <==> r.headers[j] in UnwantedColumns
    {
      assert !Removable(r, j);
    }
  }

  /** A column not named as a candidate survives pruning: it is not marked
      for deletion, so its header and every one of its cells are kept. */
  lemma {:induction false} WantedColumnsSurvive(t: Table, j: nat)
    requires WellFormed(t) && j < |t.headers| && t.headers[j] !in UnwantedColumns
    ensures j !in MarkedColumns(t)
    ensures t.headers[j] in Prune(t).headers
    ensures forall i :: 0 <= i < |t.rows| ==> t.rows[i][j] in Prune(t).rows[i]
  {
    PruneFacts(t);
    var marked := Positions(MarkedColumns(t));
    assert j !in marked;
    KeepKeepsUnmarked(t.headers, marked, 0, j);
    forall i | 0 <= i < |t.rows|
      ensures t.rows[i][j] in Prune(t).rows[i]
    {
      KeepKeepsUnmarked(t.rows[i], marked, 0, j);
    }
  }
}

/** Duplicate detection on the key column (column B of the merged sheet). */
module Duplicates {
  import opened Tables

  /** The values of column B, the key column, top to bottom. */
  function KeyValues(t: Table): (ids: seq<string>)
    requires WellFormed(t) && |t.headers| >= 2
    ensures |ids| == |t.rows|
    ensures forall i :: 0 <= i < |ids| ==> ids[i] == t.rows[i][1]
  {
    Column(t, 1)
  }

  /** How many times `x` occurs in `ids` (Python's `list.count`). */
  function Count(ids: seq<string>, x: string): (c: nat)
    ensures c == multiset(ids)[x]
  {
    if |ids| == 0 then 0
    else
      var init := ids[..|ids| - 1];
      assert ids == init + [ids[|ids| - 1]];
      Count(init, x) + (if ids[|ids| - 1] == x then 1 else 0)
  }

  /** The values that occur more than once. Empty values are not set aside:
      several blank keys are duplicates of each other. */
  function DuplicateSet(ids: seq<string>): (d: set<string>)
    ensures forall x :: x in d <==> exists i, j :: 0 <= i < j < |ids| && ids[i] == x && ids[j] == x
  {
    forall x | x in ids
      ensures Count(ids, x) > 1 <==> exists i, j :: 0 <= i < j < |ids| && ids[i] == x && ids[j] == x
    {
      CountAtLeastTwo(ids, x);
    }
    set x | x in ids && Count(ids, x) > 1
  }

  /** One flag per row: the row's key is in the duplicate set. */
  function DuplicateFlags(ids: seq<string>): (flags: seq<bool>)
    ensures |flags| == |ids|
    ensures forall i :: 0 <= i < |ids| ==>
      (flags[i] <==> exists j :: 0 <= j < |ids| && j != i && ids[j] == ids[i])
  {
    var d := DuplicateSet(ids);
    seq(|ids|, i requires 0 <= i < |ids| => ids[i] in d)
  }

  /** The number of set flags. */
  function CountFlags(flags: seq<bool>): nat {
    if |flags| == 0 then 0
    else CountFlags(flags[..|flags| - 1]) + (if flags[|flags| - 1] then 1 else 0)
  }

  /** A value occurs at all exactly when its count is positive. */
  lemma {:induction false} CountPositive(ids: seq<string>, x: string)
    ensures Count(ids, x) > 0 <==> x in ids
  {
    if |ids| > 0 {
      var init := ids[..|ids| - 1];
      CountPositive(init, x);
      assert ids == init + [ids[|ids| - 1]];
    }
  }

  /** A count above one means two distinct positions hold the value. */
  lemma {:induction false} CountAtLeastTwo(ids: seq<string>, x: string)
    ensures Count(ids, x) > 1 <==> exists i, j :: 0 <= i < j < |ids| && ids[i] == x && ids[j] == x
  {
    if |ids| > 0 {
      var n := |ids| - 1;
      var init := ids[..n];
      CountAtLeastTwo(init, x);
      CountPositive(init, x);
      if exists i, j :: 0 <= i < j < |ids| && ids[i] == x && ids[j] == x {
        var i, j :| 0 <= i < j < |ids| && ids[i] == x && ids[j] == x;
        if j == n {
          assert init[i] == x;
        } else {
          assert init[i] == x && init[j] == x;
        }
      }
      if Count(ids, x) > 1 && ids[n] == x {
        var i :| 0 <= i < |init| && init[i] == x;
        assert ids[i] == x && ids[n] == x;
      }
    }
  }

  /** Every occurrence of a repeated key is flagged, the first one included:
      for the keys A, B, A, C, B the duplicate set is {A, B} and four of the
      five rows are flagged. */
  lemma FlagsEveryOccurrence()
    ensures DuplicateSet(["A", "B", "A", "C", "B"]) == {"A", "B"}
    ensures DuplicateFlags(["A", "B", "A", "C", "B"]) == [true, true, true, false, true]
    ensures CountFlags(DuplicateFlags(["A", "B", "A", "C", "B"])) == 4
  {
    ExampleSet();
    ExampleFlags();
    ExampleCount();
  }

  lemma ExampleSet()
    ensures DuplicateSet(["A", "B", "A", "C", "B"]) == {"A", "B"}
  {
    var ids := ["A", "B", "A", "C", "B"];
    var d := DuplicateSet(ids);
    assert "A" in d by { assert ids[0] == ids[2]; }
    assert "B" in d by { assert ids[1] == ids[4]; }
    assert "C" !in d;
    forall x | x in d ensures x == "A" || x == "B" {
      var i, j :| 0 <= i < j < |ids| && ids[i] == x && ids[j] == x;
    }
  }

  lemma ExampleFlags()
    ensures DuplicateFlags(["A", "B", "A", "C", "B"]) == [true, true, true, false, true]
  {
    ExampleSet();
    var flags := DuplicateFlags(["A", "B", "A", "C", "B"]);
    assert flags[0] && flags[1] && flags[2] && !flags[3] && flags[4];
  }

  lemma ExampleCount()
    ensures CountFlags([true, true, true, false, true]) == 4
  {
    assert [true, true, true, false, true][..4] == [true, true, true, false];
    assert [true, true, true, false][..3] == [true, true, true];
    assert [true, true, true][..2] == [true, true];
    assert [true, true][..1] == [true];
    assert [true][..0] == [];
  }
}

/** Preparing a validated sheet for the merge: a blank sequence-index column
    in front, and a provenance column naming the uploaded file. */
module Preparation {
  import opened Schema
  import opened Tables
  import Validation

  /** Inserts a first column headed `S.I.` that is blank in every row. */
  function InsertIndexColumn(t: Table): (r: Table)
    requires WellFormed(t)
    ensures WellFormed(r)
    ensures r.headers == [IndexHeader] + t.headers
    ensures |r.rows| == |t.rows|
    ensures forall i :: 0 <= i < |r.rows| ==> r.rows[i] == [""] + t.rows[i]
  {
    Table([IndexHeader] + t.headers, seq(|t.rows|, i requires 0 <= i < |t.rows| => [""] + t.rows[i]))
  }

  /** Drops the first column. */
  function DropFirstColumn(t: Table): (r: Table)
    requires WellFormed(t) && |t.headers| > 0
    ensures WellFormed(r)
  {
    Table(t.headers[1..], seq(|t.rows|, i requires 0 <= i < |t.rows| => t.rows[i][1..]))
  }

  /** The index column only adds: it is headed `S.I.`, blank in every row,
      and dropping it again gives back the sheet exactly. */
  lemma {:induction false} InsertIndexColumnRoundTrip(t: Table)
    requires WellFormed(t)
    ensures InsertIndexColumn(t).headers[0] == IndexHeader
    ensures forall i :: 0 <= i < |t.rows| ==> InsertIndexColumn(t).rows[i][0] == ""
    ensures DropFirstColumn(InsertIndexColumn(t)) == t
  {
    var r := InsertIndexColumn(t);
    assert r.headers[1..] == t.headers;
    forall i | 0 <= i < |t.rows|
      ensures r.rows[i][1..] == t.rows[i]
    {
      assert r.rows[i] == [""] + t.rows[i];
    }
  }

  /** Assigning the file name to the `SourceFile` column: a new last column
      when the sheet has none, otherwise every column already headed
      `SourceFile` is overwritten in place. */
  function SetSourceColumn(t: Table, name: string): (r: Table)
    requires WellFormed(t)
    ensures WellFormed(r) && |r.rows| == |t.rows|
  {
    if SourceHeader in t.headers then
      Table(t.headers, seq(|t.rows|, i requires 0 <= i < |t.rows| =>
        seq(|t.headers|, j requires 0 <= j < |t.headers| =>
          if t.headers[j] == SourceHeader then name else t.rows[i][j])))
    else
      Table(t.headers + [SourceHeader], seq(|t.rows|, i requires 0 <= i < |t.rows| => t.rows[i] + [name]))
  }

  /** The preparation of one accepted sheet coming from file `name`. */
  function Prepare(t: Table, name: string): (r: Table)
    requires WellFormed(t)
    ensures WellFormed(r) && |r.rows| == |t.rows|
    ensures r.headers == PreparedHeaders(t.headers)
  {
    SetSourceColumn(InsertIndexColumn(t), name)
  }

  /** The header row of a prepared sheet; it does not depend on the rows
      or on the file name. */
  function PreparedHeaders(headers: seq<string>): seq<string> {
    var h := [IndexHeader] + headers;
    if SourceHeader in h then h else h + [SourceHeader]
  }

  /** Drops the first and the last column. */
  function Unprepare(t: Table): (r: Table)
    requires WellFormed(t) && |t.headers| >= 2
    ensures WellFormed(r)
  {
    Table(t.headers[1..|t.headers| - 1],
      seq(|t.rows|, i requires 0 <= i < |t.rows| => t.rows[i][1..|t.rows[i]| - 1]))
  }

  /** Preparation only adds: removing the index column and the provenance
      column again gives back the sheet exactly, cells and order included. */
  lemma {:induction false} PrepareRoundTrip(t: Table, name: string)
    requires WellFormed(t) && SourceHeader !in t.headers
    ensures |Prepare(t, name).headers| == |t.headers| + 2
    ensures Unprepare(Prepare(t, name)) == t
  {
    var r := Prepare(t, name);
    assert SourceHeader !in [IndexHeader] + t.headers;
    assert r.headers[1..|r.headers| - 1] == t.headers;
    forall i | 0 <= i < |t.rows|
      ensures r.rows[i][1..|r.rows[i]| - 1] == t.rows[i]
    {
      assert r.rows[i] == [""] + t.rows[i] + [name];
    }
  }

  /** What a prepared sheet looks like: the same rows, `S.I.` first and blank
      everywhere, a `SourceFile` column holding the file name in every row,
      and every other original header and cell one position to the right. */
  lemma {:induction false} PrepareShape(t: Table, name: string)
    requires WellFormed(t)
    ensures var r := Prepare(t, name);
      && WellFormed(r)
      && |r.rows| == |t.rows|
      && |r.headers| >= |t.headers| + 1
      && r.headers[0] == IndexHeader
      && (forall i :: 0 <= i < |r.rows| ==> r.rows[i][0] == "")
      && SourceHeader in r.headers
      && (forall i, j :: 0 <= i < |r.rows| && 0 <= j < |r.headers| && r.headers[j] == SourceHeader ==>
            r.rows[i][j] == name)
      && (forall j :: 0 <= j < |t.headers| ==> r.headers[j + 1] == t.headers[j])
      && (forall i, j :: 0 <= i < |t.rows| && 0 <= j < |t.headers| && t.headers[j] != SourceHeader ==>
            r.rows[i][j + 1] == t.rows[i][j])
      && (SourceHeader !in t.headers ==>
            |r.headers| == |t.headers| + 2 && r.headers[|t.headers| + 1] == SourceHeader)
  {
    PrepareHeaderShape(t, name);
    PrepareCellShape(t, name);
  }

  /** The header half of the shape of a prepared sheet. */
  lemma {:induction false} PrepareHeaderShape(t: Table, name: string)
    requires WellFormed(t)
    ensures var r := Prepare(t, name);
      && |r.headers| >= |t.headers| + 1
      && r.headers[0] == IndexHeader
      && SourceHeader in r.headers
      && (forall j :: 0 <= j < |t.headers| ==> r.headers[j + 1] == t.headers[j])
      && (SourceHeader !in t.headers ==>
            |r.headers| == |t.headers| + 2 && r.headers[|t.headers| + 1] == SourceHeader)
  {
    var s := InsertIndexColumn(t);
    var r := Prepare(t, name);
    assert r == SetSourceColumn(s, name);
    SourceColumnShape(s, name);
    assert r.headers[0] == IndexHeader by {
      assert r.headers[..|s.headers|][0] == s.headers[0];
    }
    forall j | 0 <= j < |t.headers|
      ensures r.headers[j + 1] == t.headers[j]
    {
      assert r.headers[..|s.headers|][j + 1] == s.headers[j + 1];
    }
    if SourceHeader !in t.headers {
      assert SourceHeader !in s.headers;
    }
  }

  /** The cell half of the shape of a prepared sheet. */
  lemma {:induction false} PrepareCellShape(t: Table, name: string)
    requires WellFormed(t)
    ensures var r := Prepare(t, name);
      && |r.rows| == |t.rows| && WellFormed(r)
      && (forall i :: 0 <= i < |r.rows| ==> r.rows[i][0] == "")
      && (forall i, j :: 0 <= i < |r.rows| && 0 <= j < |r.headers| && r.headers[j] == SourceHeader ==>
            r.rows[i][j] == name)
      && (forall i, j :: 0 <= i < |t.rows| && 0 <= j < |t.headers| && t.headers[j] != SourceHeader ==>
            r.rows[i][j + 1] == t.rows[i][j])
  {
    var s := InsertIndexColumn(t);
    var r := Prepare(t, name);
    assert r == SetSourceColumn(s, name);
    SourceColumnShape(s, name);
    forall i | 0 <= i < |r.rows|
      ensures r.rows[i][0] == ""
    {
      assert s.rows[i] == [""] + t.rows[i];
      assert s.headers[0] != SourceHeader;
    }
    forall i, j | 0 <= i < |t.rows| && 0 <= j < |t.headers| && t.headers[j] != SourceHeader
      ensures r.rows[i][j + 1] == t.rows[i][j]
    {
      assert s.rows[i] == [""] + t.rows[i];
      assert s.headers[j + 1] == t.headers[j];
    }
  }

  /** Setting the provenance column keeps every other column in place and
      puts the file name under every `SourceFile` header. */
  lemma {:induction false} SourceColumnShape(t: Table, name: string)
    requires WellFormed(t)
    ensures var r := SetSourceColumn(t, name);
      && |r.headers| >= |t.headers|
      && r.headers[..|t.headers|] == t.headers
      && SourceHeader in r.headers
      && (forall i, j :: 0 <= i < |r.rows| && 0 <= j < |r.headers| && r.headers[j] == SourceHeader ==>
            r.rows[i][j] == name)
      && (forall i, j :: 0 <= i < |t.rows| && 0 <= j < |t.headers| && t.headers[j] != SourceHeader ==>
            r.rows[i][j] == t.rows[i][j])
      && (SourceHeader !in t.headers ==> r.headers == t.headers + [SourceHeader])
  {
    var r := SetSourceColumn(t, name);
    if SourceHeader !in t.headers {
      assert r.headers[|t.headers|] == SourceHeader;
      assert forall i :: 0 <= i < |r.rows| ==> r.rows[i] == t.rows[i] + [name];
    }
  }

  /** A sheet whose headers passed validation has the key column `Material_ID`
      second once prepared, followed by the rest of the expected layout. */
  lemma {:induction false} PreparedKeyColumn(t: Table, name: string)
    requires WellFormed(t) && Validation.HeaderErrors(t.headers) == []
    ensures |Prepare(t, name).headers| > |ExpectedHeaders|
    ensures Prepare(t, name).headers[1..|ExpectedHeaders| + 1] == ExpectedHeaders
    ensures Prepare(t, name).headers[1] == KeyHeader
  {
    var n := |ExpectedHeaders|;
    assert |t.headers| >= n && t.headers[..n] == ExpectedHeaders by {
      Validation.HeadersValidIff(t.headers);
    }
    ConstantsShape();
    var h := [IndexHeader] + t.headers;
    var r := Prepare(t, name).headers;
    assert r[..|h|] == h;
    assert r[1..n + 1] == h[1..n + 1] == t.headers[..n];
  }
}

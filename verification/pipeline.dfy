/** One run of the merge: check every upload, merge only when all pass,
    then flag duplicate keys, prune the unwanted columns and size the
    columns of the "Merged Data" sheet. */
module Pipeline {
  import opened Schema
  import opened Tables
  import opened Validation
  import opened Preparation
  import opened Uploads
  import opened Merge
  import opened Duplicates
  import opened Pruning
  import opened Widths
  import opened Text

  /** The merged workbook's content and annotations: the pruned sheet, the
      duplicate key values, one highlight flag per data row of column B, the
      report of unwanted columns that hold data, one highlight flag per
      header cell, and one display width per column. */
  datatype Workbook = Workbook(
    sheet: Table,
    duplicates: set<string>,
    keyHighlights: seq<bool>,
    retained: seq<string>,
    headerHighlights: seq<bool>,
    widths: seq<nat>)

  /** What a run ends with: nothing uploaded, a per-file error report (and
      nothing merged), or the merged workbook with the number of files. */
  datatype Outcome =
    | NoUploads
    | Rejected(errors: map<string, seq<Message>>)
    | Merged(files: nat, workbook: Workbook)

  /** Accepted uploads carry one header row between them, so merging them
      lines their columns up position by position. */
  predicate SharedLayout(us: seq<Upload>)
    requires Parsed(us)
  {
    forall i, j :: 0 <= i < |us| && 0 <= j < |us| ==>
      (ProcessUpload(us[i]).Accepted? && ProcessUpload(us[j]).Accepted? ==>
         StripHeaders(us[i].sheet.headers) == StripHeaders(us[j].sheet.headers))
  }

  /** The number of data rows over all uploads. */
  function TotalRows(us: seq<Upload>): nat {
    if |us| == 0 then 0 else |us[0].sheet.rows| + TotalRows(us[1..])
  }

  /** Formats the merged sheet: duplicate keys on column B are flagged,
      then the unwanted empty columns are deleted, the remaining unwanted
      ones highlighted, and the widths computed on what is left. */
  function Assemble(merged: Table): (wb: Workbook)
    requires WellFormed(merged) && |merged.headers| >= 2
    ensures wb.sheet == Prune(merged)
    ensures WellFormed(wb.sheet) && |wb.sheet.rows| == |merged.rows|
    ensures HeadersAnnotated(wb) && WidthsAnnotated(wb)
    ensures wb.retained == RetainedHeaders(merged) && wb.retained == RetainedHeaders(wb.sheet)
  {
    var ids := KeyValues(merged);
    var pruned := Prune(merged);
    PruneFacts(merged);
    ColumnWidthsBounded(pruned);
    Workbook(pruned, DuplicateSet(ids), DuplicateFlags(ids), RetainedHeaders(merged),
      HeaderHighlights(pruned), ColumnWidths(pruned))
  }

  /** The sheets handed to the merge when every upload is accepted. */
  lemma {:induction false} MergeInputs(us: seq<Upload>)
    requires Parsed(us) && SharedLayout(us) && |us| > 0 && CollectErrors(us) == map[]
    ensures var ts := AcceptedTables(Results(us));
      && |ts| == |us| > 0
      && SameHeaders(ts) && AllWellFormed(ts)
      && |ts[0].headers| > |ExpectedHeaders|
      && ts[0].headers[0] == IndexHeader && ts[0].headers[1] == KeyHeader
      && forall k :: 0 <= k < |us| ==> ProcessUpload(us[k]).Accepted? && ts[k] == ProcessUpload(us[k]).table
  {
    AllOrNothing(us);
    var ts := AcceptedTables(Results(us));
    forall k | 0 <= k < |us|
      ensures ts[k].headers == ts[0].headers
    {
      LayoutOfAccepted(us[k], us[0]);
    }
    AcceptedIff(us[0]);
    PrepareShape(Table(StripHeaders(us[0].sheet.headers), us[0].sheet.rows), us[0].name);
  }

  /** Two accepted uploads with the same stripped headers give prepared
      sheets with the same header row. */
  lemma {:induction false} LayoutOfAccepted(u: Upload, v: Upload)
    requires WellFormed(u.sheet) && WellFormed(v.sheet)
    requires ProcessUpload(u).Accepted? && ProcessUpload(v).Accepted?
    requires StripHeaders(u.sheet.headers) == StripHeaders(v.sheet.headers)
    ensures ProcessUpload(u).table.headers == ProcessUpload(v).table.headers
  {
    AcceptedIff(u);
    AcceptedIff(v);
  }

  /** A run over the uploads, in upload order. A rejection reports only
      refused uploads, and at least one; a merge counts every upload as a
      merged file and keeps every row of every upload. */
  function Run(us: seq<Upload>): (r: Outcome)
    requires Parsed(us) && (CollectErrors(us) == map[] ==> SharedLayout(us))
    ensures r.NoUploads? <==> |us| == 0
    ensures r.Rejected? ==> r.errors != map[] && forall name :: name in r.errors ==>
      exists i :: 0 <= i < |us| && us[i].name == name && ProcessUpload(us[i]).Refused?
    ensures r.Merged? ==> r.files == |us| && |r.workbook.sheet.rows| == TotalRows(us)
  {
    if |us| == 0 then NoUploads
    else
      var errors := CollectErrors(us);
      if errors != map[] then Rejected(errors)
      else Merged(|us|, Assemble(MergedSheet(us)))
  }

  /** The concatenation of the prepared sheets of all the uploads. */
  function MergedSheet(us: seq<Upload>): (t: Table)
    requires Parsed(us) && SharedLayout(us) && |us| > 0 && CollectErrors(us) == map[]
    ensures WellFormed(t) && |t.headers| >= 2
    ensures t.headers[0] == IndexHeader && t.headers[1] == KeyHeader
    ensures |t.rows| == TotalRows(us)
  {
    MergeInputs(us);
    var ts := AcceptedTables(Results(us));
    RowCountMatches(ts, us);
    Concat(ts)
  }

  /** The merged header row is the prepared header row of the first upload's
      stripped headers, which every accepted upload shares. */
  lemma {:induction false} MergedHeaders(us: seq<Upload>)
    requires Parsed(us) && SharedLayout(us) && |us| > 0 && CollectErrors(us) == map[]
    ensures MergedSheet(us).headers == PreparedHeaders(StripHeaders(us[0].sheet.headers))
    ensures forall k :: 0 <= k < |us| ==> MergedSheet(us).headers == PreparedHeaders(StripHeaders(us[k].sheet.headers))
  {
    MergeInputs(us);
    AcceptedIff(us[0]);
  }

  /** A merged run is one with uploads and an empty report. */
  lemma {:induction false} RunMerged(us: seq<Upload>)
    requires Parsed(us) && SharedLayout(us) && Run(us).Merged?
    ensures |us| > 0 && CollectErrors(us) == map[]
    ensures Run(us).workbook == Assemble(MergedSheet(us))
  {
  }

  /** Nothing is merged unless every upload passes: a run is rejected exactly
      when some upload is refused, and merges otherwise (given at least one
      upload), with every upload counted as a merged file. */
  lemma {:induction false} AllOrNothingRun(us: seq<Upload>)
    requires Parsed(us) && (CollectErrors(us) == map[] ==> SharedLayout(us))
    ensures Run(us).NoUploads? <==> |us| == 0
    ensures Run(us).Rejected? <==> exists i :: 0 <= i < |us| && ProcessUpload(us[i]).Refused?
    ensures Run(us).Rejected? ==> Run(us).errors == CollectErrors(us)
    ensures Run(us).Merged? ==> Run(us).files == |us|
  {
    AllOrNothing(us);
  }

  lemma {:induction false} RowCountMatches(ts: seq<Table>, us: seq<Upload>)
    requires |ts| == |us|
    requires forall k :: 0 <= k < |ts| ==> |ts[k].rows| == |us[k].sheet.rows|
    ensures RowCount(ts) == TotalRows(us)
  {
    if |ts| > 0 {
      RowCountMatches(ts[1..], us[1..]);
    }
  }

  /** The merged sheet keeps every row of every upload, in upload order and
      then in each sheet's own order: row `i` of upload `k` sits after all
      rows of the earlier uploads, with a blank `S.I.` cell and the upload's
      own `Material_ID` in column B. */
  lemma {:induction false} MergedRows(us: seq<Upload>, k: nat, i: nat)
    requires Parsed(us) && SharedLayout(us) && Run(us).Merged?
    requires k < |us| && i < |us[k].sheet.rows|
    ensures var sheet := Run(us).workbook.sheet;
      && |sheet.rows| == TotalRows(us)
      && |sheet.headers| >= 2
      && sheet.headers[0] == IndexHeader && sheet.headers[1] == KeyHeader
      && TotalRows(us[..k]) + i < |sheet.rows|
      && sheet.rows[TotalRows(us[..k]) + i][0] == ""
      && |us[k].sheet.rows[i]| > 0
      && sheet.rows[TotalRows(us[..k]) + i][1] == us[k].sheet.rows[i][0]
  {
    RunMerged(us);
    PrunedRows(us, k, i);
  }

  lemma {:induction false} PrunedRows(us: seq<Upload>, k: nat, i: nat)
    requires Parsed(us) && SharedLayout(us) && |us| > 0 && CollectErrors(us) == map[]
    requires k < |us| && i < |us[k].sheet.rows|
    ensures var sheet := Prune(MergedSheet(us));
      && |sheet.rows| == TotalRows(us)
      && |sheet.headers| >= 2
      && sheet.headers[0] == IndexHeader && sheet.headers[1] == KeyHeader
      && TotalRows(us[..k]) + i < |sheet.rows|
      && sheet.rows[TotalRows(us[..k]) + i][0] == ""
      && |us[k].sheet.rows[i]| > 0
      && sheet.rows[TotalRows(us[..k]) + i][1] == us[k].sheet.rows[i][0]
  {
    var merged := MergedSheet(us);
    MergedSheetRow(us, k, i);
    KeyColumnsSurvive(merged);
  }

  lemma {:induction false} MergedSheetRow(us: seq<Upload>, k: nat, i: nat)
    requires Parsed(us) && SharedLayout(us) && |us| > 0 && CollectErrors(us) == map[]
    requires k < |us| && i < |us[k].sheet.rows|
    ensures var merged := MergedSheet(us);
      && |merged.rows| == TotalRows(us)
      && TotalRows(us[..k]) + i < |merged.rows|
      && merged.rows[TotalRows(us[..k]) + i][0] == ""
      && |us[k].sheet.rows[i]| > 0
      && merged.rows[TotalRows(us[..k]) + i][1] == us[k].sheet.rows[i][0]
  {
    MergedSheetOrder(us, k, i);
    PreparedRow(us[k], i);
  }

  /** Row `i` of upload `k` is row (rows of the earlier uploads) + `i` of the
      merged sheet, as the upload's preparation left it. */
  lemma {:induction false} MergedSheetOrder(us: seq<Upload>, k: nat, i: nat)
    requires Parsed(us) && SharedLayout(us) && |us| > 0 && CollectErrors(us) == map[]
    requires k < |us| && i < |us[k].sheet.rows|
    ensures |MergedSheet(us).rows| == TotalRows(us)
    ensures ProcessUpload(us[k]).Accepted?
    ensures TotalRows(us[..k]) + i < |MergedSheet(us).rows|
    ensures MergedSheet(us).rows[TotalRows(us[..k]) + i] == ProcessUpload(us[k]).table.rows[i]
  {
    MergeInputs(us);
    var ts := AcceptedTables(Results(us));
    forall j | 0 <= j < |us|
      ensures |ts[j].rows| == |us[j].sheet.rows|
    {
      assert ts[j] == ProcessUpload(us[j]).table;
    }
    ConcatRowOf(ts, us, k, i);
    assert MergedSheet(us).rows == ConcatRows(ts);
  }

  /** Row positions in the concatenation of sheets that have as many rows as
      the uploads they come from. */
  lemma {:induction false} ConcatRowOf(ts: seq<Table>, us: seq<Upload>, k: nat, i: nat)
    requires |ts| == |us| && forall j :: 0 <= j < |ts| ==> |ts[j].rows| == |us[j].sheet.rows|
    requires k < |us| && i < |us[k].sheet.rows|
    ensures |ConcatRows(ts)| == TotalRows(us)
    ensures TotalRows(us[..k]) + i < |ConcatRows(ts)|
    ensures ConcatRows(ts)[TotalRows(us[..k]) + i] == ts[k].rows[i]
  {
    RowCountMatches(ts, us);
    RowCountMatches(ts[..k], us[..k]);
    ConcatOrder(ts, k, i);
  }

  /** A prepared row starts with the blank `S.I.` cell followed by the
      upload's own `Material_ID` cell. */
  lemma {:induction false} PreparedRow(u: Upload, i: nat)
    requires WellFormed(u.sheet) && ProcessUpload(u).Accepted? && i < |u.sheet.rows|
    ensures |u.sheet.rows[i]| > 0
    ensures |ProcessUpload(u).table.rows[i]| >= 2
    ensures ProcessUpload(u).table.rows[i][0] == ""
    ensures ProcessUpload(u).table.rows[i][1] == u.sheet.rows[i][0]
  {
    AcceptedIff(u);
    var stripped := Table(StripHeaders(u.sheet.headers), u.sheet.rows);
    PrepareShape(stripped, u.name);
    ConstantsShape();
    assert stripped.headers[..|ExpectedHeaders|][0] == KeyHeader;
    assert stripped.headers[0] != SourceHeader;
  }

  /** The first two columns, `S.I.` and `Material_ID`, are never pruning
      candidates, so every row keeps them in front after pruning. */
  lemma {:induction false} KeyColumnsSurvive(merged: Table)
    requires WellFormed(merged) && |merged.headers| >= 2
    requires merged.headers[0] == IndexHeader && merged.headers[1] == KeyHeader
    ensures var pruned := Prune(merged);
      && |pruned.headers| >= 2
      && pruned.headers[0] == IndexHeader && pruned.headers[1] == KeyHeader
      && forall r :: 0 <= r < |merged.rows| ==>
           |pruned.rows[r]| >= 2 && pruned.rows[r][0] == merged.rows[r][0] && pruned.rows[r][1] == merged.rows[r][1]
  {
    ConstantsShape();
    PruneFacts(merged);
    var marked := Positions(MarkedColumns(merged));
    assert 0 !in MarkedColumns(merged) && 1 !in MarkedColumns(merged);
    assert 0 !in marked && 1 !in marked;
    KeepFront(merged.headers, marked);
    forall r | 0 <= r < |merged.rows|
      ensures |Prune(merged).rows[r]| >= 2
      ensures Prune(merged).rows[r][0] == merged.rows[r][0] && Prune(merged).rows[r][1] == merged.rows[r][1]
    {
      KeepFront(merged.rows[r], marked);
    }
  }

  /** What the formatting step promises about a workbook: a row's
      Material_ID cell is highlighted exactly when another row has the same
      Material_ID; the duplicate set is the Material_IDs that occur twice or
      more; the header cells highlighted are exactly the unwanted ones; and
      every column width lies in [2, 50]. */
  ghost predicate Annotated(wb: Workbook) {
    && WellFormed(wb.sheet) && |wb.sheet.headers| >= 2
    && KeysAnnotated(wb) && HeadersAnnotated(wb) && WidthsAnnotated(wb)
  }

  ghost predicate KeysAnnotated(wb: Workbook)
    requires WellFormed(wb.sheet) && |wb.sheet.headers| >= 2
  {
    var rows := wb.sheet.rows;
    && |wb.keyHighlights| == |rows|
    && (forall r :: 0 <= r < |rows| ==>
          (wb.keyHighlights[r] <==> exists s :: 0 <= s < |rows| && s != r && rows[s][1] == rows[r][1]))
    && (forall x :: x in wb.duplicates <==>
          exists r, s :: 0 <= r < s < |rows| && rows[r][1] == x && rows[s][1] == x)
  }

  ghost predicate HeadersAnnotated(wb: Workbook) {
    && |wb.headerHighlights| == |wb.sheet.headers|
    && forall j :: 0 <= j < |wb.sheet.headers| ==>
         (wb.headerHighlights[j] <==> wb.sheet.headers[j] in UnwantedColumns)
  }

  ghost predicate WidthsAnnotated(wb: Workbook) {
    && WellFormed(wb.sheet)
    && |wb.widths| == |wb.sheet.headers|
    && (forall j :: 0 <= j < |wb.sheet.headers| ==>
          wb.widths[j] == Width([wb.sheet.headers[j]] + Column(wb.sheet, j)))
    && forall j :: 0 <= j < |wb.sheet.headers| ==> Padding <= wb.widths[j] <= MaxWidth
  }

  /** Formatting a merged sheet whose first two columns are `S.I.` and
      `Material_ID` gives an annotated workbook. */
  lemma {:induction false} AssembleFacts(merged: Table)
    requires WellFormed(merged) && |merged.headers| >= 2
    requires merged.headers[0] == IndexHeader && merged.headers[1] == KeyHeader
    ensures Annotated(Assemble(merged))
  {
    AssembleKeys(merged);
  }

  /** The key flags, computed on the merged sheet before pruning, describe
      the pruned sheet's column B as well, since pruning keeps it. */
  lemma {:induction false} AssembleKeys(merged: Table)
    requires WellFormed(merged) && |merged.headers| >= 2
    requires merged.headers[0] == IndexHeader && merged.headers[1] == KeyHeader
    ensures WellFormed(Assemble(merged).sheet) && |Assemble(merged).sheet.headers| >= 2
    ensures KeysAnnotated(Assemble(merged))
  {
    var wb := Assemble(merged);
    var ids := KeyValues(merged);
    KeyColumnsSurvive(merged);
    assert wb.sheet == Prune(merged);
    assert wb.keyHighlights == DuplicateFlags(ids) && wb.duplicates == DuplicateSet(ids);
    KeysAnnotatedBy(wb, ids);
  }

  /** A workbook whose key flags and duplicate set were computed from the
      values of its own column B is key-annotated. */
  lemma {:induction false} KeysAnnotatedBy(wb: Workbook, ids: seq<string>)
    requires WellFormed(wb.sheet) && |wb.sheet.headers| >= 2 && |ids| == |wb.sheet.rows|
    requires forall r :: 0 <= r < |ids| ==> ids[r] == wb.sheet.rows[r][1]
    requires wb.keyHighlights == DuplicateFlags(ids) && wb.duplicates == DuplicateSet(ids)
    ensures KeysAnnotated(wb)
  {
  }

  /** Every merged run ends with an annotated workbook whose report lists
      the unwanted columns that hold data. */
  lemma {:induction false} MergedAnnotations(us: seq<Upload>)
    requires Parsed(us) && SharedLayout(us) && Run(us).Merged?
    ensures Annotated(Run(us).workbook)
    ensures Run(us).workbook.retained == RetainedHeaders(Run(us).workbook.sheet)
  {
    RunMerged(us);
    AssembleFacts(MergedSheet(us));
  }

  /** A workbook whose sheet carries exactly the expected header row. */
  function ConformingUpload(name: string, rows: seq<seq<string>>): Upload {
    Upload(name, [SheetName], Table(ExpectedHeaders, rows))
  }

  /** An upload carrying exactly the expected header row is accepted. */
  lemma {:induction false} ConformingUploadAccepted(name: string, rows: seq<seq<string>>)
    requires WellFormed(Table(ExpectedHeaders, rows))
    ensures ProcessUpload(ConformingUpload(name, rows)).Accepted?
  {
    var u := ConformingUpload(name, rows);
    ConstantsShape();
    ExpectedHeadersStripped();
    forall j | 0 <= j < |ExpectedHeaders|
      ensures StripHeaders(ExpectedHeaders)[j] == ExpectedHeaders[j]
    {
      StripStripped(ExpectedHeaders[j]);
    }
    assert StripHeaders(ExpectedHeaders) == ExpectedHeaders;
    AcceptedIff(u);
  }

  /** A single accepted upload makes a run that merges it alone. */
  lemma {:induction false} SingleUploadMerges(u: Upload)
    requires WellFormed(u.sheet) && ProcessUpload(u).Accepted?
    ensures Parsed([u]) && SharedLayout([u]) && CollectErrors([u]) == map[]
    ensures Run([u]).Merged? && Run([u]).files == 1
    ensures |Run([u]).workbook.sheet.rows| == |u.sheet.rows|
  {
    var us := [u];
    assert Parsed(us) && SharedLayout(us) && CollectErrors(us) == map[] by {
      AllOrNothing(us);
    }
    assert |MergedSheet(us).rows| == |u.sheet.rows| by {
      MergeInputs(us);
      RowCountMatches(AcceptedTables(Results(us)), us);
      assert TotalRows(us) == |u.sheet.rows| + TotalRows([]);
    }
    assert Run(us) == Merged(1, Assemble(MergedSheet(us)));
  }

  /** One conforming upload is merged on its own: one file, all its rows. */
  lemma {:induction false} ConformingUploadMerges(name: string, rows: seq<seq<string>>)
    requires WellFormed(Table(ExpectedHeaders, rows))
    ensures var us := [ConformingUpload(name, rows)];
      && Parsed(us) && SharedLayout(us)
      && Run(us).Merged? && Run(us).files == 1
      && |Run(us).workbook.sheet.rows| == |rows|
  {
    ConformingUploadAccepted(name, rows);
    SingleUploadMerges(ConformingUpload(name, rows));
  }

  /** A workbook without the sheet is reported under its file name, and
      the run merges nothing. */
  lemma {:induction false} MissingSheetRejects(name: string, sheet: Table)
    requires WellFormed(sheet)
    ensures var us := [Upload(name, [], sheet)];
      && Parsed(us) && SharedLayout(us)
      && Run(us) == Rejected(map[name := [MissingSheet]])
  {
    var u := Upload(name, [], sheet);
    MissingSheetShortCircuits(u, sheet);
    var us := [u];
    var errors := CollectErrors(us);
    assert name in errors && errors[name] == [MissingSheet];
    assert errors.Keys == {name};
  }
}

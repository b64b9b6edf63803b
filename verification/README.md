# File merge tool — verified model of the merge pipeline

This project models the merge pipeline of the FileMergeTool Streamlit app in Dafny.
The app takes several uploaded "Standard Materials" workbooks and turns them into one
"Merged Data" sheet. The model covers what happens between parsing the uploads and
rendering the result:

1. **Per-file checks** (`Uploads`, `Validation`, `Text`, `Schema`).
   - A file without a sheet named exactly `Standard Materials` is refused with one message.
   - Otherwise every header is stripped of surrounding whitespace, as Python's
     `str.strip()` does.
   - The headers are then compared position by position, exactly and case-sensitively,
     with the 61 expected headers. There is one message per missing or misspelled
     position, and columns after the 61st are never looked at.
2. **Preparation** (`Preparation`).
   - A blank `S.I.` column is inserted in front.
   - A `SourceFile` column naming the file is appended. An existing `SourceFile` column
     is overwritten instead.
   - Inserting `S.I.` into a sheet that already has a column of that name fails. The
     failure is reported against the file.
3. **All or nothing** (`Uploads`, `Pipeline`).
   - Errors are collected per file name.
   - If any file has an error, nothing is merged.
   - Otherwise the prepared sheets are concatenated in upload order (`Merge`).
4. **Duplicate keys** (`Duplicates`).
   - Column B of the merged sheet holds `Material_ID`, because of the `S.I.` shift.
   - Every value in column B that occurs more than once is a duplicate, and every row
     holding one is flagged, the first occurrence included.
5. **Pruning and widths** (`Pruning`, `Widths`).
   - A column named in the unwanted list is deleted only when all of its data cells are
     empty. Deletion goes from the largest index down.
   - An unwanted column holding data is kept, reported, and its header highlighted.
   - Each column's width is `min(maxLen + 2, 50)`.

Tables are already-parsed header rows and data rows of string cells. The empty string is
the single "no value": the code treats `""` and `None` alike (`streamlit_app.py` lines 99
and 110).

`Pipeline.Run` puts the stages together. Its outcome is one of:
- no uploads;
- the error report;
- the merged workbook: the pruned sheet, the duplicate set, one highlight flag per key
  cell, the report of unwanted columns holding data, one highlight flag per header cell,
  and one width per column.

### What the code does not do

The model follows the code, which:

- matches sheet names and headers exactly and case-sensitively;
- does not canonicalise headers across files;
- does not sort by `Material_ID`: rows stay in upload order, then sheet order;
- does not trim cell values, only headers;
- does not set empty `Material_ID`s aside, so several blank keys are duplicates of each other;
- stops the whole merge for one bad file, rather than excluding that file and merging the others;
- keeps the provenance as a visible `SourceFile` column.

## Model

| member | source | states |
|---|---|---|
| Text.TrimStart | streamlit_app.py:44 | what is cut off the front is all whitespace, and what is left is a suffix not starting with whitespace |
| Text.TrimEnd | streamlit_app.py:44 | what is cut off the back is all whitespace, and what is left is a prefix not ending with whitespace |
| Text.Strip | streamlit_app.py:44 | a stripped header is no longer than the raw one and neither starts nor ends with whitespace |
| Text.TrimStartPadded | streamlit_app.py:44 | leading whitespace in front of a non-blank text is removed exactly |
| Text.TrimEndPadded | streamlit_app.py:44 | trailing whitespace after a non-blank text is removed exactly |
| Text.TrimAllSpace | streamlit_app.py:44 | a header made only of whitespace strips to the empty string |
| Text.StripPadded | streamlit_app.py:44 | any whitespace around a text with no whitespace at its ends is removed, giving back exactly that text |
| Text.StripStripped | streamlit_app.py:44 | a header without surrounding whitespace is left unchanged |
| Text.StripIdempotent | streamlit_app.py:44 | stripping twice is the same as stripping once |
| Schema.ConstantsShape | streamlit_app.py:10-26 | 61 expected and 8 unwanted headers; `Material_ID` is first and not unwanted; every unwanted header is an expected one; `S.I.` and `SourceFile` are neither |
| Schema.ExpectedHeadersParts | streamlit_app.py:10-21 | the 61 expected headers, position by position, as three consecutive parts of 20, 20 and 21 |
| Schema.SourceHeaderNotExpected | streamlit_app.py:10-21 | `SourceFile` is not an expected header |
| Schema.HeadersBounded | streamlit_app.py:10-21 | every expected header starts and ends with a letter or digit |
| Schema.ExpectedHeadersStripped | streamlit_app.py:10-21 | no expected header carries surrounding whitespace |
| Validation.StripHeaders | streamlit_app.py:44 | one header per header, each the stripped original, so none starts or ends with whitespace |
| Validation.StripHeadersIdempotent | streamlit_app.py:44 | stripping an already stripped header row changes nothing |
| Validation.HeaderErrorsUpTo | streamlit_app.py:46-51 | exactly one message per diverging expected position (missing or misspelled), none for other positions, in ascending order |
| Validation.HeaderErrors | streamlit_app.py:46-51 | for a whole header row: one message per missing or misspelled expected position among the 61, in position order, and no other message |
| Validation.ValidateHeaders | streamlit_app.py:46-55 | the loop as written yields that message list, and it is empty iff the first 61 headers are exactly the expected ones |
| Validation.HeadersValidIff | streamlit_app.py:46-55 | no messages iff there are at least 61 headers and the first 61 equal the expected list exactly |
| Validation.NothingDivergesUpTo | streamlit_app.py:46-51 | no diverging position gives no messages |
| Validation.TrailingColumnsIgnored | streamlit_app.py:47-51 | columns after the 61st never change the messages |
| Validation.TrailingColumnsIgnoredUpTo | streamlit_app.py:47-51 | appending columns changes no message for any prefix of the expected positions |
| Validation.PaddedHeadersPass | streamlit_app.py:44-51 | headers that differ from the expected ones only by surrounding whitespace pass |
| Preparation.InsertIndexColumnRoundTrip | streamlit_app.py:57 | the inserted column is headed `S.I.` and blank in every row, and dropping it gives back the sheet exactly |
| Preparation.SetSourceColumn | streamlit_app.py:58 | the sheet stays rectangular and keeps its rows |
| Preparation.SourceColumnShape | streamlit_app.py:58 | the headers stay as a prefix; every `SourceFile` column holds the file name; other cells are untouched; without such a column one is appended |
| Preparation.Prepare | streamlit_app.py:57-58 | the prepared sheet is rectangular, has the same rows, and its headers depend only on the original headers |
| Preparation.PrepareRoundTrip | streamlit_app.py:57-58 | for a sheet without a `SourceFile` column, dropping the first and last columns of the prepared sheet gives back the original sheet exactly |
| Preparation.PrepareShape | streamlit_app.py:57-58 | `S.I.` first and blank, `SourceFile` holding the file name, every original header and non-`SourceFile` cell one place to the right |
| Preparation.PrepareHeaderShape | streamlit_app.py:57-58 | the header half of that shape |
| Preparation.PrepareCellShape | streamlit_app.py:57-58 | the cell half of that shape |
| Preparation.PreparedKeyColumn | streamlit_app.py:46-57 | a validated sheet, once prepared, has the 61 expected headers from column B on, so `Material_ID` is column B |
| Uploads.ProcessUpload | streamlit_app.py:37-62 | a refused upload always has at least one message; an accepted one gives a rectangular sheet with the upload's rows (which messages, and when it is accepted, are stated by `RefusalMessages` and `AcceptedIff`) |
| Uploads.RefusalMessages | streamlit_app.py:39-62 | without the sheet, the one missing-sheet message; otherwise, when the stripped headers diverge, exactly their header messages; otherwise, when a header is already `S.I.`, the one clash message |
| Uploads.MissingSheetShortCircuits | streamlit_app.py:39-41 | without the sheet, the only message is the missing-sheet one, whatever the sheet contents |
| Uploads.AcceptedIff | streamlit_app.py:39-59 | accepted iff the sheet exists, the stripped headers start with the expected 61, and none is `S.I.`; the result is then the prepared sheet with `Material_ID` in column B |
| Uploads.Report | streamlit_app.py:33-62 | a file name is reported iff some upload of that name is refused; a name's messages come from its last refused upload |
| Uploads.ReportStep | streamlit_app.py:33-62 | adding one more upload's result keeps both properties of the report |
| Uploads.CollectErrors | streamlit_app.py:33-62 | over the uploads (their names and results taken in upload order), a file name is a key iff an upload of that name is refused, and it maps to the messages of the last refused upload of that name |
| Uploads.AcceptedTables | streamlit_app.py:59 | when every result is an acceptance, the merge list holds every prepared sheet, in order |
| Uploads.ReportEmptyIff | streamlit_app.py:64 | the report is empty iff no upload is refused |
| Uploads.AllOrNothing | streamlit_app.py:64-74 | no errors iff every upload is accepted; then the sheets merged are all the prepared sheets, in upload order |
| Merge.ConcatRows | streamlit_app.py:74 | the concatenation has as many rows as the sheets together |
| Merge.Concat | streamlit_app.py:74 | the merged sheet is rectangular, keeps the shared header row, and has the sum of the row counts |
| Merge.ConcatWidth | streamlit_app.py:74 | rows of one width stay that width when concatenated |
| Merge.ConcatOrder | streamlit_app.py:74 | row i of sheet k lands after all rows of earlier sheets, at offset i |
| Duplicates.KeyValues | streamlit_app.py:85 | one key value per data row, each that row's column-B cell, top to bottom |
| Duplicates.DuplicateSet | streamlit_app.py:86 | a value is a duplicate iff it occurs at two distinct rows |
| Duplicates.DuplicateFlags | streamlit_app.py:87-89 | a row is flagged iff another row has the same key, so the first occurrence is flagged too |
| Duplicates.Count | streamlit_app.py:86 | `count` is the value's multiplicity in the list of keys |
| Duplicates.CountPositive | streamlit_app.py:86 | `count` is positive iff the value occurs |
| Duplicates.CountAtLeastTwo | streamlit_app.py:86 | `count > 1` iff two distinct positions hold the value |
| Duplicates.FlagsEveryOccurrence | streamlit_app.py:85-89 | for keys A, B, A, C, B the duplicate set is {A, B} and four rows are flagged |
| Duplicates.ExampleSet | streamlit_app.py:86 | for keys A, B, A, C, B the duplicate set is {A, B} |
| Duplicates.ExampleFlags | streamlit_app.py:87-89 | for keys A, B, A, C, B every row except the C row is flagged |
| Duplicates.ExampleCount | streamlit_app.py:87-89 | four of those five flags are set |
| Pruning.MarkedUpTo | streamlit_app.py:96-100 | the marked columns below a position are exactly the unwanted, all-empty ones there (`Removable`, read through `Tables.Column`), in ascending order |
| Pruning.MarkedColumns | streamlit_app.py:96-100 | the columns to delete are exactly the unwanted columns whose data cells are all empty, in ascending order |
| Pruning.DataColumnsUpTo | streamlit_app.py:96-102 | the unwanted columns holding data below a position, exactly those, in ascending order |
| Pruning.RetainedInColumnOrder | streamlit_app.py:96-102 | the report has one entry per unwanted column holding data, in column order, each that column's header |
| Pruning.RetainedHeaders | streamlit_app.py:96-102 | the report of the whole sheet: the headers of the unwanted columns holding data, one each, in column order |
| Pruning.RetainedUpToIff | streamlit_app.py:96-102 | every unwanted column holding data is reported, and every reported name heads such a column |
| Pruning.HeaderHighlights | streamlit_app.py:107-111 | one highlight flag per header cell |
| Pruning.RemoveAt | streamlit_app.py:105 | deleting one position shifts every later element down by one and keeps the others |
| Pruning.RemoveEach | streamlit_app.py:104-105 | each deletion removes exactly one element |
| Pruning.DeleteColumn | streamlit_app.py:105 | deleting a column keeps the sheet rectangular and keeps its rows |
| Pruning.DeleteColumns | streamlit_app.py:104-105 | a series of deletions keeps the sheet rectangular and keeps its rows |
| Pruning.SortDescending | streamlit_app.py:104 | the reversal of an ascending list is strictly descending with the same elements |
| Pruning.Prune | streamlit_app.py:92-105 | pruning keeps the sheet rectangular and keeps every row |
| Pruning.KeepFromAbove | streamlit_app.py:104-105 | keeping positions when no marked position is reached keeps everything |
| Pruning.RemoveAtKeep | streamlit_app.py:104-105 | deleting one position after every marked one is the same as marking it as well |
| Pruning.RemoveDescending | streamlit_app.py:104-105 | deleting positions largest first is the same as removing that set of positions |
| Pruning.KeepKeepsUnmarked | streamlit_app.py:96-105 | an unmarked position survives |
| Pruning.KeepFront | streamlit_app.py:96-105 | with neither of the first two positions marked, the first two elements stay in front |
| Pruning.DeleteColumnShifts | streamlit_app.py:105 | after a deletion, each column is the old one at the same or the next position, header and cells |
| Pruning.DeleteRetainedUpTo | streamlit_app.py:96-105 | deleting an empty unwanted column does not change the report |
| Pruning.RemovableAfterDelete | streamlit_app.py:104-105 | deleting the largest marked column leaves exactly the other marked columns removable |
| Pruning.DeleteColumnsCells | streamlit_app.py:104-105 | deleting a series of columns removes those positions from the header row and from every row |
| Pruning.DeleteRemovable | streamlit_app.py:104-111 | deleting all the marked columns leaves none removable and keeps the report |
| Pruning.PruneFacts | streamlit_app.py:92-111 | marked iff unwanted and all empty; the pruned sheet keeps every other column in order; the report is unchanged; highlighted headers are exactly the unwanted ones left |
| Pruning.WantedColumnsSurvive | streamlit_app.py:96-105 | a column not in the unwanted list is never marked, and its header and every one of its cells survive pruning |
| Widths.MaxLength | streamlit_app.py:119 | the longest non-empty cell's length, and 0 when every cell is empty |
| Widths.Width | streamlit_app.py:118-120 | every width lies in [2, 50] |
| Widths.ColumnWidths | streamlit_app.py:118-120 | one width per column, each the width of that column's header cell and data cells |
| Widths.WidthFits | streamlit_app.py:119-120 | the width covers every cell plus two up to the cap; below the cap it is some non-empty cell's length plus two, or 2; it reaches 50 only when some cell has 48 characters or more; and it is 2 for an empty column |
| Widths.ColumnWidthsBounded | streamlit_app.py:118-120 | every column's width is in [2, 50], and a header longer than 47 characters gives 50 |
| Pipeline.LayoutOfAccepted | streamlit_app.py:44-58 | accepted uploads with the same stripped headers give prepared sheets with the same headers |
| Pipeline.MergeInputs | streamlit_app.py:57-74 | with no errors, the merge inputs are every upload's prepared sheet, sharing one header row that starts with `S.I.` and `Material_ID` |
| Pipeline.MergedSheet | streamlit_app.py:74 | the merged sheet is rectangular with `S.I.` and `Material_ID` as columns A and B, and has as many rows as all the uploads together; its whole header row is stated by `MergedHeaders` |
| Pipeline.MergedHeaders | streamlit_app.py:44-74 | the merged header row is the prepared form of every upload's stripped header row |
| Pipeline.Run | streamlit_app.py:31-74 | no uploads iff the list is empty; a rejection's report is non-empty and names only refused uploads; a merge counts every upload as a file and keeps as many rows as all the uploads together |
| Pipeline.RunMerged | streamlit_app.py:64-74 | a merged run had uploads and an empty error report |
| Pipeline.AllOrNothingRun | streamlit_app.py:31-74 | no uploads iff the list is empty; rejected iff some upload is refused, with the collected report; otherwise every upload is merged |
| Pipeline.RowCountMatches | streamlit_app.py:74 | the prepared sheets together have as many rows as the uploads |
| Pipeline.MergedRows | streamlit_app.py:57-105 | the output keeps every uploaded row, in upload order then sheet order, with a blank `S.I.` cell and the upload's `Material_ID` in column B |
| Pipeline.PrunedRows | streamlit_app.py:74-105 | the same for the pruned merged sheet |
| Pipeline.MergedSheetRow | streamlit_app.py:57-74 | the same for the merged sheet before pruning |
| Pipeline.MergedSheetOrder | streamlit_app.py:74 | row i of upload k is the prepared row at offset (earlier uploads' rows) + i |
| Pipeline.ConcatRowOf | streamlit_app.py:74 | row positions in the concatenation, counted in upload rows |
| Pipeline.PreparedRow | streamlit_app.py:57-58 | a prepared row starts with the blank `S.I.` cell and then the upload's `Material_ID` cell |
| Pipeline.KeyColumnsSurvive | streamlit_app.py:96-105 | pruning keeps the `S.I.` and `Material_ID` columns in front, in every row |
| Pipeline.Assemble | streamlit_app.py:77-120 | the formatted sheet is the pruned merged sheet with every row; exactly the unwanted headers left are highlighted; each column's width is that of its header and cells, in [2, 50]; the report is that of the merged sheet before pruning, and names the same columns as one read after pruning |
| Pipeline.AssembleFacts | streamlit_app.py:85-120 | given `S.I.` and `Material_ID` as columns A and B, the workbook also flags exactly the rows whose key repeats, and names exactly the keys that repeat |
| Pipeline.KeysAnnotatedBy | streamlit_app.py:85-89 | flags and a duplicate set computed from a sheet's own column B flag exactly the rows whose key repeats and name exactly the repeating keys |
| Pipeline.AssembleKeys | streamlit_app.py:85-105 | key flags computed before pruning describe column B after pruning |
| Pipeline.MergedAnnotations | streamlit_app.py:31-120 | every merged run ends with such an annotated workbook |
| Pipeline.ConformingUploadAccepted | streamlit_app.py:39-59 | a workbook with exactly the expected header row is accepted |
| Pipeline.SingleUploadMerges | streamlit_app.py:31-74 | one accepted upload is merged alone: one file, all its rows |
| Pipeline.ConformingUploadMerges | streamlit_app.py:31-74 | one workbook with exactly the expected headers is merged with all its rows |
| Pipeline.MissingSheetRejects | streamlit_app.py:36-70 | one workbook without the sheet is rejected with exactly the missing-sheet message under its name |

## Left out

- The Streamlit user interface is not modelled: the title, the uploader, the error, success and warning messages, `st.stop` and the download button (lines 28-29, 65-72, 127-136). A rejected run is the `Rejected` outcome; the report's text formatting is not modelled.
- Spreadsheet parsing is not modelled: `pd.ExcelFile`, `xl.parse(dtype=str)` and `fillna("")` (lines 38, 43). An upload is an already-parsed sheet plus its list of sheet names. pandas renaming repeated headers on read is not modelled either.
- The catch-all `except` (lines 61-62) is modelled only for the failure the checked code itself can raise: inserting `S.I.` when a column of that name already exists. Read failures and other library errors come from the parser, which is not modelled.
- The BytesIO and openpyxl round trip is not modelled, and neither is the styling: fills, the table object, freeze panes and saving (lines 77-83, 114-116, 123-125). Highlights are boolean flags; widths are numbers.
- Pipeline.Run: for a run that merges (every upload accepted), requires that the accepted uploads share one stripped header row, because pandas `concat` aligns differing trailing columns by name and fills the gaps. That alignment is not modelled. Rejected runs and empty runs carry no such requirement.
- Pipeline.MergedRows: carries the same shared-header precondition as a merging `Pipeline.Run`.
- Pipeline.MergedAnnotations: carries the same shared-header precondition as a merging `Pipeline.Run`.
- Pipeline.AllOrNothingRun: carries the same shared-header precondition as `Pipeline.Run`, for merging runs only.
- The warning texts listing retained columns and duplicates (lines 127-133) are not modelled. Their content is the `retained` and `duplicates` fields of the workbook.
- Cell values are Unicode strings with no encoding. `str.isspace()` is modelled by its fixed list of whitespace code points.
- `config.py` is not part of this model: the app does not import it, and it only repeats the two constant lists and adds path plumbing.

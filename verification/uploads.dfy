/** Checking and preparing each upload in turn, and the all-or-nothing gate
    in front of the merge. */
module Uploads {
  import opened Schema
  import opened Tables
  import opened Validation
  import opened Preparation

  /** One uploaded workbook once parsed: its file name, the names of its
      sheets, and the contents of its "Standard Materials" sheet (ignored
      when there is no such sheet). */
  datatype Upload = Upload(name: string, sheetNames: seq<string>, sheet: Table)

  /** The fate of one upload: a prepared sheet ready to merge, or the
      messages reported against the file. */
  datatype FileResult = Accepted(table: Table) | Refused(messages: seq<Message>)

  /** Checks one upload and prepares it: the sheet must exist (exact name),
      its stripped header row must pass validation, and inserting the `S.I.`
      column must not clash with an existing column of that name. */
  function ProcessUpload(u: Upload): (r: FileResult)
    requires WellFormed(u.sheet)
    ensures r.Refused? ==> r.messages != []
    ensures r.Accepted? ==> WellFormed(r.table) && |r.table.rows| == |u.sheet.rows|
  {
    if SheetName !in u.sheetNames then
      Refused([MissingSheet])
    else
      var headers := StripHeaders(u.sheet.headers);
      var errors := HeaderErrors(headers);
      if errors != [] then
        Refused(errors)
      else if IndexHeader in headers then
        Refused([AlreadyExists(IndexHeader)])
      else
        Accepted(Prepare(Table(headers, u.sheet.rows), u.name))
  }

  /** A file without the sheet gets the one sheet message, whatever the rest
      of the workbook holds: its headers are never looked at. */
  lemma {:induction false} MissingSheetShortCircuits(u: Upload, sheet: Table)
    requires WellFormed(u.sheet) && WellFormed(sheet)
    requires SheetName !in u.sheetNames
    ensures ProcessUpload(u) == Refused([MissingSheet])
    ensures ProcessUpload(u.(sheet := sheet)) == ProcessUpload(u)
  {
  }

  /** The messages of a refusal: the one sheet message when the sheet is
      missing; otherwise the header messages, one per missing or misspelled
      expected position, when there are any; otherwise the `S.I.` clash. */
  lemma {:induction false} RefusalMessages(u: Upload)
    requires WellFormed(u.sheet)
    ensures SheetName !in u.sheetNames ==> ProcessUpload(u) == Refused([MissingSheet])
    ensures var headers := StripHeaders(u.sheet.headers);
      SheetName in u.sheetNames && HeaderErrors(headers) != [] ==>
        ProcessUpload(u) == Refused(HeaderErrors(headers))
    ensures var headers := StripHeaders(u.sheet.headers);
      SheetName in u.sheetNames && HeaderErrors(headers) == [] && IndexHeader in headers ==>
        ProcessUpload(u) == Refused([AlreadyExists(IndexHeader)])
  {
  }

  /** An upload is accepted exactly when the sheet is there, its stripped
      headers start with the 61 expected ones, and no column is already named
      `S.I.`; the prepared sheet then has `Material_ID` as its column B. */
  lemma {:induction false} AcceptedIff(u: Upload)
    requires WellFormed(u.sheet)
    ensures var headers := StripHeaders(u.sheet.headers);
      ProcessUpload(u).Accepted? <==>
        && SheetName in u.sheetNames
        && |headers| >= |ExpectedHeaders|
        && headers[..|ExpectedHeaders|] == ExpectedHeaders
        && IndexHeader !in headers
    ensures ProcessUpload(u).Accepted? ==>
      ProcessUpload(u).table == Prepare(Table(StripHeaders(u.sheet.headers), u.sheet.rows), u.name)
    ensures ProcessUpload(u).Accepted? ==>
      |ProcessUpload(u).table.headers| > |ExpectedHeaders| && ProcessUpload(u).table.headers[1] == KeyHeader
  {
    var headers := StripHeaders(u.sheet.headers);
    HeadersValidIff(headers);
    if ProcessUpload(u).Accepted? {
      PreparedKeyColumn(Table(headers, u.sheet.rows), u.name);
    }
  }

  /** Every upload's sheet is rectangular, as the spreadsheet parser
      guarantees. */
  predicate Parsed(us: seq<Upload>) {
    forall i :: 0 <= i < |us| ==> WellFormed(us[i].sheet)
  }

  /** Each upload's fate, in upload order. */
  function Results(us: seq<Upload>): (rs: seq<FileResult>)
    requires Parsed(us)
    ensures |rs| == |us|
    ensures forall i :: 0 <= i < |us| ==> rs[i] == ProcessUpload(us[i])
  {
    seq(|us|, i requires 0 <= i < |us| => ProcessUpload(us[i]))
  }

  /** The uploads' file names, in upload order. */
  function Names(us: seq<Upload>): (names: seq<string>)
    ensures |names| == |us|
    ensures forall i :: 0 <= i < |us| ==> names[i] == us[i].name
  {
    seq(|us|, i requires 0 <= i < |us| => us[i].name)
  }

  /** The error report, keyed by file name, built by going through the
      uploads in order: a refused upload's messages replace whatever an
      earlier upload of the same name left under that name. */
  function Report(names: seq<string>, results: seq<FileResult>): (errors: map<string, seq<Message>>)
    requires |names| == |results|
    ensures forall name :: name in errors <==>
      exists i :: 0 <= i < |names| && names[i] == name && results[i].Refused?
    ensures forall i :: 0 <= i < |names| && results[i].Refused? && LastOfName(names, results, i) ==>
      names[i] in errors && errors[names[i]] == results[i].messages
  {
    if |names| == 0 then map[]
    else
      var n := |names| - 1;
      var prior := Report(names[..n], results[..n]);
      ReportStep(names, results, prior);
      match results[n]
      case Refused(messages) => prior[names[n] := messages]
      case Accepted(_) => prior
  }

  /** One step of the report: what the report of all but the last upload
      says carries over to the report of all of them. */
  lemma {:induction false} ReportStep(names: seq<string>, results: seq<FileResult>, prior: map<string, seq<Message>>)
    requires |names| == |results| > 0
    requires var n := |names| - 1;
      && (forall name :: name in prior <==>
            exists i :: 0 <= i < n && names[..n][i] == name && results[..n][i].Refused?)
      && (forall i :: 0 <= i < n && results[..n][i].Refused? && LastOfName(names[..n], results[..n], i) ==>
            names[..n][i] in prior && prior[names[..n][i]] == results[..n][i].messages)
    ensures var n := |names| - 1;
      var errors := if results[n].Refused? then prior[names[n] := results[n].messages] else prior;
      && (forall name :: name in errors <==>
            exists i :: 0 <= i < |names| && names[i] == name && results[i].Refused?)
      && (forall i :: 0 <= i < |names| && results[i].Refused? && LastOfName(names, results, i) ==>
            names[i] in errors && errors[names[i]] == results[i].messages)
  {
    var n := |names| - 1;
    var errors := if results[n].Refused? then prior[names[n] := results[n].messages] else prior;
    forall name
      ensures name in errors <==> exists i :: 0 <= i < |names| && names[i] == name && results[i].Refused?
    {
      if name in errors && !(results[n].Refused? && name == names[n]) {
        var i :| 0 <= i < n && names[..n][i] == name && results[..n][i].Refused?;
        assert names[i] == name && results[i].Refused?;
      }
      if exists i :: 0 <= i < |names| && names[i] == name && results[i].Refused? {
        var i :| 0 <= i < |names| && names[i] == name && results[i].Refused?;
        if i < n {
          assert names[..n][i] == name && results[..n][i].Refused?;
        }
      }
    }
    forall i | 0 <= i < |names| && results[i].Refused? && LastOfName(names, results, i)
      ensures names[i] in errors && errors[names[i]] == results[i].messages
    {
      if i < n {
        assert LastOfName(names[..n], results[..n], i);
        assert names[..n][i] == names[i] && results[..n][i] == results[i];
        assert results[n].Refused? ==> names[n] != names[i];
      }
    }
  }

  /** No later upload of the same name is refused. */
  predicate LastOfName(names: seq<string>, results: seq<FileResult>, i: nat)
    requires |names| == |results| && i < |names|
  {
    forall j :: i < j < |names| && names[j] == names[i] ==> results[j].Accepted?
  }

  /** No later upload of the same file name is refused. */
  predicate LastRefusalOfName(us: seq<Upload>, i: nat)
    requires Parsed(us) && i < |us|
  {
    forall j :: i < j < |us| && us[j].name == us[i].name ==> ProcessUpload(us[j]).Accepted?
  }

  /** The report the merge step looks at: a file name is a key exactly when
      an upload of that name is refused, and it maps to the messages of the
      last refused upload of that name. */
  function CollectErrors(us: seq<Upload>): (errors: map<string, seq<Message>>)
    requires Parsed(us)
    ensures forall name :: name in errors <==>
      exists i :: 0 <= i < |us| && us[i].name == name && ProcessUpload(us[i]).Refused?
    ensures forall i :: 0 <= i < |us| && ProcessUpload(us[i]).Refused? && LastRefusalOfName(us, i) ==>
      us[i].name in errors && errors[us[i].name] == ProcessUpload(us[i]).messages
  {
    var names := Names(us);
    var results := Results(us);
    assert forall i :: 0 <= i < |us| ==> names[i] == us[i].name && results[i] == ProcessUpload(us[i]);
    assert forall i :: 0 <= i < |us| && LastRefusalOfName(us, i) ==> LastOfName(names, results, i);
    Report(names, results)
  }

  /** The prepared sheets of the accepted uploads, in upload order. */
  function AcceptedTables(results: seq<FileResult>): (ts: seq<Table>)
    ensures |ts| <= |results|
    ensures (forall i :: 0 <= i < |results| ==> results[i].Accepted?) ==>
      |ts| == |results| && forall k :: 0 <= k < |ts| ==> ts[k] == results[k].table
  {
    if |results| == 0 then []
    else
      var n := |results| - 1;
      var prior := AcceptedTables(results[..n]);
      match results[n]
      case Accepted(t) => prior + [t]
      case Refused(_) => prior
  }

  /** The report is empty exactly when no result is a refusal. */
  lemma {:induction false} ReportEmptyIff(names: seq<string>, results: seq<FileResult>)
    requires |names| == |results|
    ensures Report(names, results) == map[] <==> forall i :: 0 <= i < |results| ==> results[i].Accepted?
  {
    var errors := Report(names, results);
    if forall i :: 0 <= i < |results| ==> results[i].Accepted? {
      assert errors.Keys == {};
    } else {
      var i :| 0 <= i < |results| && results[i].Refused?;
      assert names[i] in errors;
    }
  }

  /** All or nothing: the report is empty exactly when every upload is
      accepted, and then the sheets to merge are the prepared sheets of all
      the uploads, one each, in upload order. */
  lemma {:induction false} AllOrNothing(us: seq<Upload>)
    requires Parsed(us)
    ensures CollectErrors(us) == map[] <==> forall i :: 0 <= i < |us| ==> ProcessUpload(us[i]).Accepted?
    ensures CollectErrors(us) == map[] ==>
      && |AcceptedTables(Results(us))| == |us|
      && forall k :: 0 <= k < |us| ==>
           ProcessUpload(us[k]).Accepted? && AcceptedTables(Results(us))[k] == ProcessUpload(us[k]).table
  {
    var results := Results(us);
    ReportEmptyIff(Names(us), results);
    assert (forall i :: 0 <= i < |us| ==> ProcessUpload(us[i]).Accepted?) <==>
      (forall i :: 0 <= i < |results| ==> results[i].Accepted?);
  }
}

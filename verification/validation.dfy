/** Positional header validation of one sheet against the expected layout. */
module Validation {
  import opened Text
  import opened Schema

  /** A problem reported for one uploaded file. Column numbers are 1-based,
      as the messages show them. */
  datatype Message =
    | MissingSheet                                               // Missing 'Standard Materials' sheet
    | MissingColumn(column: nat, expected: string)               // Missing column <column>: '<expected>'
    | WrongColumn(column: nat, found: string, expected: string)  // Column <column>: Found '<found>', expected '<expected>'
    | AlreadyExists(header: string)                              // cannot insert <header>, already exists

  /** The 0-based expected position a column message is about; -1 for the
      messages that are not about one position. */
  function Position(m: Message): int {
    match m
    case MissingColumn(c, _) => c - 1
    case WrongColumn(c, _, _) => c - 1
    case _ => -1
  }

  /** Each header stripped of surrounding whitespace, in place. */
  function StripHeaders(headers: seq<string>): (r: seq<string>)
    ensures |r| == |headers|
    ensures forall i :: 0 <= i < |r| ==> r[i] == Strip(headers[i])
    ensures forall i :: 0 <= i < |r| ==> Stripped(r[i])
  {
    seq(|headers|, i requires 0 <= i < |headers| => Strip(headers[i]))
  }

  /** Stripping a header row that was already stripped changes nothing. */
  lemma {:induction false} StripHeadersIdempotent(headers: seq<string>)
    ensures StripHeaders(StripHeaders(headers)) == StripHeaders(headers)
  {
    var once := StripHeaders(headers);
    forall i | 0 <= i < |once|
      ensures StripHeaders(once)[i] == once[i]
    {
      StripIdempotent(headers[i]);
    }
  }

  /** Expected position `i` is not matched: the sheet has no column there,
      or a differently spelled one (case matters). */
  predicate Diverges(cols: seq<string>, i: nat)
    requires i < |ExpectedHeaders|
  {
    i >= |cols| || cols[i] != ExpectedHeaders[i]
  }

  /** The message for a diverging expected position `i`. */
  function MessageAt(cols: seq<string>, i: nat): Message
    requires i < |ExpectedHeaders|
  {
    if i >= |cols| then MissingColumn(i + 1, ExpectedHeaders[i])
    else WrongColumn(i + 1, cols[i], ExpectedHeaders[i])
  }

  /** The messages for expected positions below `n`: one per diverging
      position, for no other position, in ascending position order. */
  function HeaderErrorsUpTo(cols: seq<string>, n: nat): (r: seq<Message>)
    requires n <= |ExpectedHeaders|
    ensures forall k :: 0 <= k < |r| ==>
      && 0 <= Position(r[k]) < n
      && Diverges(cols, Position(r[k]))
      && r[k] == MessageAt(cols, Position(r[k]))
    ensures forall j, k :: 0 <= j < k < |r| ==> Position(r[j]) < Position(r[k])
    ensures forall i :: 0 <= i < n && Diverges(cols, i) ==> MessageAt(cols, i) in r
  {
    if n == 0 then []
    else
      var prior := HeaderErrorsUpTo(cols, n - 1);
      if Diverges(cols, n - 1) then prior + [MessageAt(cols, n - 1)] else prior
  }

  /** The messages for a whole (already stripped) header row: one for each
      of the 61 expected positions the row misses or misspells, in position
      order, and none for any other position. */
  function HeaderErrors(cols: seq<string>): (r: seq<Message>)
    ensures forall k :: 0 <= k < |r| ==>
      && 0 <= Position(r[k]) < |ExpectedHeaders|
      && Diverges(cols, Position(r[k]))
      && r[k] == MessageAt(cols, Position(r[k]))
    ensures forall j, k :: 0 <= j < k < |r| ==> Position(r[j]) < Position(r[k])
    ensures forall i :: 0 <= i < |ExpectedHeaders| && Diverges(cols, i) ==> MessageAt(cols, i) in r
  {
    HeaderErrorsUpTo(cols, |ExpectedHeaders|)
  }

  /** The validation loop as written: walk the expected headers in order and
      append a message for every position that is missing or misspelled. */
  method ValidateHeaders(cols: seq<string>) returns (errors: seq<Message>)
    ensures errors == HeaderErrors(cols)
    ensures errors == [] <==> |cols| >= |ExpectedHeaders| && cols[..|ExpectedHeaders|] == ExpectedHeaders
  {
    errors := [];
    var i := 0;
    while i < |ExpectedHeaders|
      invariant 0 <= i <= |ExpectedHeaders|
      invariant errors == HeaderErrorsUpTo(cols, i)
    {
      var expected := ExpectedHeaders[i];
      if i >= |cols| {
        errors := errors + [MissingColumn(i + 1, expected)];
      } else if cols[i] != expected {
        errors := errors + [WrongColumn(i + 1, cols[i], expected)];
      }
      i := i + 1;
    }
    HeadersValidIff(cols);
  }

  /** A header row passes exactly when it starts with the 61 expected
      headers, spelled exactly; whatever follows them is not looked at. */
  lemma {:induction false} HeadersValidIff(cols: seq<string>)
    ensures HeaderErrors(cols) == [] <==>
      |cols| >= |ExpectedHeaders| && cols[..|ExpectedHeaders|] == ExpectedHeaders
  {
    var n := |ExpectedHeaders|;
    var r := HeaderErrors(cols);
    if |cols| >= n && cols[..n] == ExpectedHeaders {
      assert forall i :: 0 <= i < n ==> cols[..n][i] == cols[i];
      NothingDivergesUpTo(cols, n);
    } else {
      var i: nat;
      if |cols| < n {
        i := |cols|;
      } else {
        assert |cols[..n]| == |ExpectedHeaders|;
        i :| 0 <= i < n && cols[..n][i] != ExpectedHeaders[i];
      }
      assert Diverges(cols, i);
      assert MessageAt(cols, i) in r;
    }
  }

  lemma {:induction false} NothingDivergesUpTo(cols: seq<string>, n: nat)
    requires n <= |ExpectedHeaders|
    requires forall i :: 0 <= i < n ==> !Diverges(cols, i)
    ensures HeaderErrorsUpTo(cols, n) == []
  {
    if n > 0 {
      NothingDivergesUpTo(cols, n - 1);
    }
  }

  /** Columns after the 61st never produce a message. */
  lemma {:induction false} TrailingColumnsIgnored(cols: seq<string>, extra: seq<string>)
    requires |cols| >= |ExpectedHeaders|
    ensures HeaderErrors(cols + extra) == HeaderErrors(cols)
  {
    TrailingColumnsIgnoredUpTo(cols, extra, |ExpectedHeaders|);
  }

  lemma {:induction false} TrailingColumnsIgnoredUpTo(cols: seq<string>, extra: seq<string>, n: nat)
    requires |cols| >= |ExpectedHeaders| && n <= |ExpectedHeaders|
    ensures HeaderErrorsUpTo(cols + extra, n) == HeaderErrorsUpTo(cols, n)
  {
    if n > 0 {
      TrailingColumnsIgnoredUpTo(cols, extra, n - 1);
      assert (cols + extra)[n - 1] == cols[n - 1];
    }
  }

  /** Surrounding whitespace never makes a header fail: if each of the first
      61 raw headers is an expected header padded with whitespace, the
      stripped row passes. */
  lemma {:induction false} PaddedHeadersPass(raw: seq<string>, lead: seq<string>, trail: seq<string>)
    requires |raw| >= |ExpectedHeaders| && |lead| == |trail| == |ExpectedHeaders|
    requires forall i :: 0 <= i < |ExpectedHeaders| ==>
      AllSpace(lead[i]) && AllSpace(trail[i]) && raw[i] == lead[i] + ExpectedHeaders[i] + trail[i]
    ensures HeaderErrors(StripHeaders(raw)) == []
  {
    var cols := StripHeaders(raw);
    ExpectedHeadersStripped();
    forall i | 0 <= i < |ExpectedHeaders|
      ensures cols[i] == ExpectedHeaders[i]
    {
      StripPadded(lead[i], ExpectedHeaders[i], trail[i]);
    }
    assert cols[..|ExpectedHeaders|] == ExpectedHeaders;
    HeadersValidIff(cols);
  }
}

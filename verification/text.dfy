/** Whitespace stripping of header names, as Python's `str.strip()` does it. */
module Text {

  /** The characters for which Python's `str.isspace()` holds; `str.strip()`
      with no argument removes exactly these from both ends of a string. */
  predicate IsSpace(c: char) {
    || c == ' ' || c == '\t' || c == '\n' || c == '\r' || c == '\U{B}' || c == '\U{C}'
    || ('\U{1C}' <= c <= '\U{1F}')
    || c == '\U{85}' || c == '\U{A0}' || c == '\U{1680}'
    || ('\U{2000}' <= c <= '\U{200A}')
    || c == '\U{2028}' || c == '\U{2029}' || c == '\U{202F}' || c == '\U{205F}' || c == '\U{3000}'
  }

  /** Every character of `s` is whitespace (the empty string included). */
  predicate AllSpace(s: string) {
    forall i :: 0 <= i < |s| ==> IsSpace(s[i])
  }

  /** `s` neither starts nor ends with whitespace: nothing left to strip. */
  predicate Stripped(s: string) {
    |s| == 0 || (!IsSpace(s[0]) && !IsSpace(s[|s| - 1]))
  }

  /** Removes leading whitespace: the result is the suffix of `s` that starts
      at the first non-whitespace character. */
  function TrimStart(s: string): (r: string)
    ensures |r| <= |s|
    ensures r == s[|s| - |r|..]
    ensures AllSpace(s[..|s| - |r|])
    ensures |r| == 0 || !IsSpace(r[0])
  {
    if |s| > 0 && IsSpace(s[0]) then
      var r := TrimStart(s[1..]);
      var k := |s| - |r|;
      assert r == s[k..] by {
        assert s[1..][k - 1..] == s[k..];
      }
      assert AllSpace(s[..k]) by {
        var pre := s[1..][..k - 1];
        assert s[..k] == [s[0]] + pre;
        assert forall i :: 0 < i < k ==> s[..k][i] == pre[i - 1];
      }
      r
    else
      s
  }

  /** Removes trailing whitespace: the result is the prefix of `s` that ends
      at the last non-whitespace character. */
  function TrimEnd(s: string): (r: string)
    ensures |r| <= |s|
    ensures r == s[..|r|]
    ensures AllSpace(s[|r|..])
    ensures |r| == 0 || !IsSpace(r[|r| - 1])
  {
    if |s| > 0 && IsSpace(s[|s| - 1]) then
      var r := TrimEnd(s[..|s| - 1]);
      assert s[|r|..] == s[..|s| - 1][|r|..] + [s[|s| - 1]];
      r
    else
      s
  }

  /** Python's `str.strip()`: the longest infix of `s` that neither starts
      nor ends with whitespace, once surrounding whitespace is removed. */
  function Strip(s: string): (r: string)
    ensures |r| <= |s|
    ensures Stripped(r)
  {
    var t := TrimStart(s);
    var r := TrimEnd(t);
    assert |r| > 0 ==> r[0] == t[0];
    r
  }

  /** Trimming the start of `pre + rest` where `pre` is all whitespace and
      `rest` begins with a non-whitespace character yields `rest`. */
  lemma {:induction false} TrimStartPadded(pre: string, rest: string)
    requires AllSpace(pre)
    requires |rest| > 0 && !IsSpace(rest[0])
    ensures TrimStart(pre + rest) == rest
  {
    var s := pre + rest;
    var r := TrimStart(s);
    var k := |s| - |r|;
    assert s[|pre|] == rest[0];
    assert k == |pre|;
  }

  /** Trimming the end of `rest + post` where `post` is all whitespace and
      `rest` ends with a non-whitespace character yields `rest`. */
  lemma {:induction false} TrimEndPadded(rest: string, post: string)
    requires AllSpace(post)
    requires |rest| > 0 && !IsSpace(rest[|rest| - 1])
    ensures TrimEnd(rest + post) == rest
  {
    var s := rest + post;
    var r := TrimEnd(s);
    var k := |r|;
    assert s[|rest| - 1] == rest[|rest| - 1];
    assert k == |rest|;
  }

  /** Trimming an all-whitespace string leaves nothing. */
  lemma {:induction false} TrimAllSpace(s: string)
    requires AllSpace(s)
    ensures TrimStart(s) == []
  {
  }

  /** The characterisation of stripping: whatever whitespace surrounds a
      string that has none at its own ends, `Strip` recovers that string. */
  lemma {:induction false} StripPadded(pre: string, t: string, post: string)
    requires AllSpace(pre) && AllSpace(post) && Stripped(t)
    ensures Strip(pre + t + post) == t
  {
    if |t| == 0 {
      assert pre + t + post == pre + post;
      TrimAllSpace(pre + post);
    } else {
      assert pre + t + post == pre + (t + post);
      TrimStartPadded(pre, t + post);
      TrimEndPadded(t, post);
    }
  }

  /** A string with no whitespace at its ends is left as it is. */
  lemma {:induction false} StripStripped(t: string)
    requires Stripped(t)
    ensures Strip(t) == t
  {
    if |t| > 0 {
      assert !IsSpace(t[0]) && TrimStart(t) == t;
      assert !IsSpace(t[|t| - 1]) && TrimEnd(t) == t;
    }
  }

  /** Stripping twice is stripping once. */
  lemma {:induction false} StripIdempotent(s: string)
    ensures Strip(Strip(s)) == Strip(s)
  {
    StripStripped(Strip(s));
  }
}

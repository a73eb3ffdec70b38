/**
 * The two tokenizers of libjson.h: libjson_extractString, which copies a quoted
 * string up to its first unescaped closing quote, and libjson_extractRaw, which
 * copies a bracketed object or array token, skipping brackets inside strings.
 */
module Scanner {

  /*------------------------------------------------------------------------
   * Strings
   *------------------------------------------------------------------------*/

  /** The number of backslashes immediately before position `i`. */
  function BackslashRun(s: string, i: nat): nat
    requires i <= |s|
  {
    if i == 0 || s[i - 1] != '\\' then 0 else BackslashRun(s, i - 1) + 1
  }

  /** Position `i` holds a quote that ends a string opened at position 0. */
  predicate ClosesAt(s: string, i: int)
  {
    0 < i < |s| && s[i] == '"' && BackslashRun(s, i) % 2 == 0
  }

  /** The first closing quote at or after `i`. */
  function CloseFrom(s: string, i: nat): (r: Scan)
    requires i <= |s|
    ensures r.Matched? ==> i <= r.end < |s| && ClosesAt(s, r.end)
    ensures r.Matched? ==> forall j :: i <= j < r.end ==> !ClosesAt(s, j)
    ensures r.Unmatched? ==> forall j :: i <= j < |s| ==> !ClosesAt(s, j)
    decreases |s| - i
  {
    if i == |s| then Unmatched
    else if ClosesAt(s, i) then Matched(i)
    else CloseFrom(s, i + 1)
  }

  /** A position found by a scan, or none. */
  datatype Scan = Unmatched | Matched(end: nat)

  /**
   * libjson_extractString: the characters strictly between position 0 and the
   * first unescaped quote; the empty string when there is none.
   */
  function ExtractStringF(s: string): (r: string)
    ensures r != [] ==> |r| + 2 <= |s| && r == s[1..|r| + 1] && ClosesAt(s, |r| + 1)
    ensures r != [] ==> forall j :: 0 <= j <= |r| ==> !ClosesAt(s, j)
    ensures |r| + 2 <= |s| || r == []
  {
    match CloseFrom(s, 0)
    case Unmatched => ""
    case Matched(end) => s[1..end]
  }

  /**
   * libjson_extractString as written: one pass counting the backslashes in a row,
   * stopping at a quote (not the first character) after an even count, then a copy.
   */
  method ExtractString(s: string) returns (r: string)
    ensures r == ExtractStringF(s)
  {
    var escapes: nat := 0;
    var end: nat := 0;
    var i: nat := 0;
    while i < |s|
      invariant 0 <= i <= |s|
      invariant escapes == BackslashRun(s, i)
      invariant end == 0 ==> forall j :: 0 <= j < i ==> !ClosesAt(s, j)
      invariant end != 0 ==> end < |s| && ClosesAt(s, end) && forall j :: 0 <= j < end ==> !ClosesAt(s, j)
      decreases if end == 0 then |s| - i else 0
    {
      var c := s[i];
      if c == '\\' {
        escapes := escapes + 1;
      }
      if c == '"' && i > 0 && escapes % 2 == 0 {
        end := i;
        break;
      }
      if c != '\\' {
        escapes := 0;
      }
      i := i + 1;
    }
    CloseFromFirst(s, end);
    r := [];
    var k := 1;
    while k < end
      invariant 1 <= k && (end == 0 || k <= end)
      invariant end != 0 ==> r == s[1..k]
      invariant end == 0 ==> r == []
    {
      r := r + [s[k]];
      k := k + 1;
    }
  }

  /** The scan of ExtractString agrees with CloseFrom. */
  lemma CloseFromFirst(s: string, end: nat)
    requires end == 0 ==> forall j :: 0 <= j < |s| ==> !ClosesAt(s, j)
    requires end != 0 ==> end < |s| && ClosesAt(s, end) && forall j :: 0 <= j < end ==> !ClosesAt(s, j)
    ensures end == 0 ==> CloseFrom(s, 0).Unmatched?
    ensures end != 0 ==> CloseFrom(s, 0) == Matched(end)
  {
  }

  /**
   * The strings libjson can carry: every quote inside is escaped by an odd run
   * of backslashes, and the text does not end in an odd run (which would escape
   * the closing quote).
   */
  predicate WellFormedString(t: string)
  {
    && (forall j {:trigger BackslashRun(t, j)} :: 0 <= j < |t| && t[j] == '"' ==> BackslashRun(t, j) % 2 == 1)
    && BackslashRun(t, |t|) % 2 == 0
  }

  /** Inside a quoted string the characters are those of the text itself. */
  lemma QuotedChar(t: string, rest: string, j: nat)
    requires 1 <= j <= |t|
    ensures ("\"" + t + "\"" + rest)[j] == t[j - 1]
  {
    assert ("\"" + t + "\"" + rest)[j] == ("\"" + t)[j];
  }

  /** Inside a quoted string the backslash runs are those of the text itself. */
  lemma {:induction false} BackslashRunShift(t: string, rest: string, j: nat)
    requires 1 <= j <= |t| + 1
    ensures BackslashRun("\"" + t + "\"" + rest, j) == BackslashRun(t, j - 1)
    decreases j
  {
    var s := "\"" + t + "\"" + rest;
    if j == 1 {
    } else {
      QuotedChar(t, rest, j - 1);
      if t[j - 2] == '\\' {
        BackslashRunShift(t, rest, j - 1);
      }
    }
  }

  /** No quote inside a quoted well-formed string closes it. */
  lemma NoCloseInside(t: string, rest: string)
    requires WellFormedString(t)
    ensures forall j :: 0 <= j <= |t| ==> !ClosesAt("\"" + t + "\"" + rest, j)
  {
    var s := "\"" + t + "\"" + rest;
    forall j | 1 <= j <= |t|
      ensures !ClosesAt(s, j)
    {
      BackslashRunShift(t, rest, j);
      QuotedChar(t, rest, j);
    }
  }

  /** Extracting a quoted well-formed string gives back the text between the quotes. */
  lemma ExtractQuoted(t: string, rest: string)
    requires WellFormedString(t)
    ensures ExtractStringF("\"" + t + "\"" + rest) == t
  {
    var s := "\"" + t + "\"" + rest;
    NoCloseInside(t, rest);
    BackslashRunShift(t, rest, |t| + 1);
    assert s[|t| + 1] == '"';
    CloseFromFirst(s, |t| + 1);
    assert s[1..|t| + 1] == t;
  }

  /*------------------------------------------------------------------------
   * Bracketed tokens
   *------------------------------------------------------------------------*/

  /**
   * The scan of libjson_extractRaw from position `i` at nesting `depth`: `open`
   * deepens, `close` returns to the outer level and ends the token at depth 0, a
   * quote skips the extracted string and both its quotes.
   */
  function RawScan(s: string, open: char, close: char, i: nat, depth: int): (r: Scan)
    ensures r.Matched? ==> i <= r.end < |s| && s[r.end] == close
    decreases |s| - i
  {
    if i >= |s| then Unmatched
    else if s[i] == open then RawScan(s, open, close, i + 1, depth + 1)
    else if s[i] == close then
      (if depth - 1 == 0 then Matched(i) else RawScan(s, open, close, i + 1, depth - 1))
    else if s[i] == '"' then RawScan(s, open, close, SkipString(s, i), depth)
    else RawScan(s, open, close, i + 1, depth)
  }

  /** Position `j` holds a quote that no odd run of backslashes escapes. */
  predicate QuoteAt(s: string, j: nat)
  {
    j < |s| && s[j] == '"' && BackslashRun(s, j) % 2 == 0
  }

  /** The first unescaped quote at or after `j`, found in the whole text. */
  function QuoteFrom(s: string, j: nat): (r: Scan)
    requires j <= |s|
    ensures r.Matched? ==> j <= r.end < |s| && QuoteAt(s, r.end)
    ensures r.Matched? ==> forall k :: j <= k < r.end ==> !QuoteAt(s, k)
    ensures r.Unmatched? ==> forall k :: j <= k < |s| ==> !QuoteAt(s, k)
    decreases |s| - j
  {
    if j == |s| then Unmatched
    else if QuoteAt(s, j) then Matched(j)
    else QuoteFrom(s, j + 1)
  }

  /**
   * Where the extractRaw loop goes on after the string that opens at `i`: just
   * past its closing quote, or two past `i` when it is never closed.
   */
  function SkipString(s: string, i: nat): (r: nat)
    requires i < |s|
    ensures r > i
  {
    match QuoteFrom(s, i + 1)
    case Matched(e) => e + 1
    case Unmatched => i + 2
  }

  /** After a quote, the backslash runs of the rest are those of the whole text. */
  lemma {:induction false} BackslashRunSuffix(s: string, i: nat, j: nat)
    requires i < |s| && s[i] != '\\' && 1 <= j <= |s| - i
    ensures BackslashRun(s[i..], j) == BackslashRun(s, i + j)
    decreases j
  {
    assert s[i..][j - 1] == s[i + j - 1];
    if j > 1 && s[i + j - 1] == '\\' {
      BackslashRunSuffix(s, i, j - 1);
    }
  }

  /** The closing-quote search in the rest after a quote agrees with the search in the whole text. */
  lemma {:induction false} CloseFromSuffix(s: string, i: nat, j: nat)
    requires i < |s| && s[i] == '"' && 1 <= j <= |s| - i
    ensures CloseFrom(s[i..], j).Matched? <==> QuoteFrom(s, i + j).Matched?
    ensures CloseFrom(s[i..], j).Matched? ==> CloseFrom(s[i..], j).end + i == QuoteFrom(s, i + j).end
    decreases |s| - i - j
  {
    if j < |s| - i {
      BackslashRunSuffix(s, i, j);
      assert s[i..][j] == s[i + j];
      assert ClosesAt(s[i..], j) == QuoteAt(s, i + j);
      if !QuoteAt(s, i + j) {
        CloseFromSuffix(s, i, j + 1);
      }
    }
  }

  /**
   * libjson_extractRaw moves past a string by the length of the string that
   * libjson_extractString extracts from the rest, plus its two quotes.
   */
  lemma SkipStringExtract(s: string, i: nat)
    requires i < |s| && s[i] == '"'
    ensures SkipString(s, i) == i + |ExtractStringF(s[i..])| + 2
  {
    CloseFromSuffix(s, i, 1);
    assert !ClosesAt(s[i..], 0);
  }

  /**
   * libjson_extractRaw: the prefix up to and including the matching `close`;
   * without one, just the first character.
   */
  function ExtractRawF(s: string, open: char, close: char): (r: string)
    ensures |r| <= |s| && r == s[..|r|]
    ensures |s| > 0 ==> |r| >= 1
    ensures |r| > 1 ==> r[|r| - 1] == close
  {
    match RawScan(s, open, close, 0, 0)
    case Matched(end) => s[..end + 1]
    case Unmatched => if |s| == 0 then "" else s[..1]
  }

  /** A turn of the extractRaw loop that does not end the token leaves the rest of the scan unchanged. */
  lemma RawAdvances(s: string, open: char, close: char, i0: nat, depth0: int, i: nat, depth: int)
    requires i0 < |s|
    requires s[i0] == open ==> i == i0 + 1 && depth == depth0 + 1
    requires s[i0] != open && s[i0] == close ==> depth0 - 1 != 0 && i == i0 + 1 && depth == depth0 - 1
    requires s[i0] != open && s[i0] != close && s[i0] == '"' ==>
      i == SkipString(s, i0) && depth == depth0
    requires s[i0] != open && s[i0] != close && s[i0] != '"' ==> i == i0 + 1 && depth == depth0
    ensures RawScan(s, open, close, i0, depth0) == RawScan(s, open, close, i, depth)
  {
  }

  /** libjson_extractRaw as written: the depth-counting loop, then the copy. */
  method ExtractRaw(s: string, open: char, close: char) returns (token: string)
    ensures token == ExtractRawF(s, open, close)
  {
    var depth := 0;
    var end: nat := 0;
    var i: nat := 0;
    while i < |s|
      invariant i == 0 ==> depth == 0
      invariant end == 0 ==> RawScan(s, open, close, 0, 0) == RawScan(s, open, close, i, depth)
      invariant end != 0 ==> RawScan(s, open, close, 0, 0) == Matched(end)
      decreases if end == 0 then |s| - i else -1
    {
      ghost var i0, depth0 := i, depth;
      var c := s[i];
      if c == open {
        depth := depth + 1;
      } else if c == close {
        depth := depth - 1;
        if depth == 0 {
          end := i;
          break;
        }
      } else if c == '"' {
        var e := ExtractString(s[i..]);
        SkipStringExtract(s, i);
        i := i + |e| + 1;
      }
      i := i + 1;
      RawAdvances(s, open, close, i0, depth0, i, depth);
    }
    token := [];
    var k := 0;
    var stop := if |s| == 0 then 0 else end + 1;
    while k < stop
      invariant 0 <= k <= stop <= |s|
      invariant token == s[..k]
    {
      token := token + [s[k]];
      k := k + 1;
    }
  }

  /*------------------------------------------------------------------------
   * The nesting level of extractRaw
   *------------------------------------------------------------------------*/

  /** Where the extractRaw scan reads next after position `i`: past a string, or one on. */
  function NextPos(s: string, open: char, close: char, i: nat): (r: nat)
    requires i < |s|
    ensures r > i
  {
    if s[i] != open && s[i] != close && s[i] == '"' then SkipString(s, i) else i + 1
  }

  /** How reading position `i` changes the nesting level. */
  function Delta(s: string, open: char, close: char, i: nat): int
    requires i < |s|
  {
    if s[i] == open then 1 else if s[i] == close then -1 else 0
  }

  /** The scan started at `i` reads position `k`: `k` does not lie inside a skipped string. */
  predicate Visited(s: string, open: char, close: char, i: nat, k: nat)
    decreases |s| - i
  {
    i < |s| && i <= k && (i == k || Visited(s, open, close, NextPos(s, open, close, i), k))
  }

  /**
   * The nesting level of the scan started at `i` with level `d`, once it has read
   * every position it visits before `k`: opens minus closes outside strings.
   */
  function Depth(s: string, open: char, close: char, i: nat, d: int, k: nat): int
    decreases |s| - i
  {
    if i >= |s| || i >= k then d
    else Depth(s, open, close, NextPos(s, open, close, i), d + Delta(s, open, close, i), k)
  }

  /**
   * `e` ends the token of the scan started at `i` with level `d`: the first close
   * read outside strings at which the level returns to 0.
   */
  predicate TokenEnd(s: string, open: char, close: char, i: nat, d: int, e: nat)
  {
    && e < |s| && Visited(s, open, close, i, e) && s[e] == close
    && Depth(s, open, close, i, d, e) == 1
    && forall k :: i <= k < e && Visited(s, open, close, i, k) && s[k] == close ==>
         Depth(s, open, close, i, d, k) != 1
  }

  /** The extractRaw scan stops exactly at the end of the token. */
  lemma {:induction false} RawScanFirstClose(s: string, open: char, close: char, i: nat, d: int, e: nat)
    requires open != close
    ensures RawScan(s, open, close, i, d) == Matched(e) <==> TokenEnd(s, open, close, i, d, e)
    decreases |s| - i
  {
    if i >= |s| {
    } else if s[i] == close && s[i] != open && d - 1 == 0 {
      assert RawScan(s, open, close, i, d) == Matched(i);
      if e > i {
        assert Visited(s, open, close, i, i) && Depth(s, open, close, i, d, i) == 1;
      }
    } else {
      var n := NextPos(s, open, close, i);
      var d' := d + Delta(s, open, close, i);
      assert RawScan(s, open, close, i, d) == RawScan(s, open, close, n, d');
      RawScanFirstClose(s, open, close, n, d', e);
      if e < n {
        assert !Visited(s, open, close, n, e);
        if e > i {
          assert !Visited(s, open, close, i, e);
        }
      } else if e < |s| {
        assert Visited(s, open, close, i, e) == Visited(s, open, close, n, e);
        assert Depth(s, open, close, i, d, e) == Depth(s, open, close, n, d', e);
        forall k | i <= k < e
          ensures (Visited(s, open, close, i, k) && s[k] == close ==> Depth(s, open, close, i, d, k) != 1)
              <==> (n <= k ==> Visited(s, open, close, n, k) && s[k] == close ==> Depth(s, open, close, n, d', k) != 1)
        {
          if k < n && k > i {
            assert !Visited(s, open, close, n, k);
          }
        }
      }
    }
  }

  /**
   * libjson_extractRaw copies through the end of the token when there is one, and
   * just the first character when there is none.
   */
  lemma ExtractRawFirstClose(s: string, open: char, close: char)
    requires open != close
    ensures forall e :: TokenEnd(s, open, close, 0, 0, e) ==> ExtractRawF(s, open, close) == s[..e + 1]
    ensures (forall e :: !TokenEnd(s, open, close, 0, 0, e)) ==>
      ExtractRawF(s, open, close) == if |s| == 0 then "" else s[..1]
  {
    forall e | TokenEnd(s, open, close, 0, 0, e)
      ensures ExtractRawF(s, open, close) == s[..e + 1]
    {
      RawScanFirstClose(s, open, close, 0, 0, e);
    }
    if RawScan(s, open, close, 0, 0).Matched? {
      RawScanFirstClose(s, open, close, 0, 0, RawScan(s, open, close, 0, 0).end);
    }
  }

  /**
   * The text between an open and its close is balanced: reading from `j` at level
   * `d`, every string closes within it, no close takes the level below 0 and the
   * level ends at 0.
   */
  predicate Balanced(t: string, open: char, close: char, j: nat, d: int)
    decreases |t| - j
  {
    if j >= |t| then d == 0
    else if t[j] == open then Balanced(t, open, close, j + 1, d + 1)
    else if t[j] == close then d >= 1 && Balanced(t, open, close, j + 1, d - 1)
    else if t[j] == '"' then
      QuoteFrom(t, j + 1).Matched? && Balanced(t, open, close, QuoteFrom(t, j + 1).end + 1, d)
    else Balanced(t, open, close, j + 1, d)
  }

  /** Behind a character other than a backslash, backslash runs are those of the text alone. */
  lemma {:induction false} BackslashRunAfter(p: char, t: string, rest: string, k: nat)
    requires p != '\\' && k <= |t|
    ensures BackslashRun([p] + t + rest, k + 1) == BackslashRun(t, k)
    decreases k
  {
    var s := [p] + t + rest;
    assert s[k] == if k == 0 then p else t[k - 1];
    if k > 0 && t[k - 1] == '\\' {
      BackslashRunAfter(p, t, rest, k - 1);
    }
  }

  /** Behind such a character, a closing quote inside the text is found at the same place. */
  lemma {:induction false} QuoteFromAfter(p: char, t: string, rest: string, j: nat)
    requires p != '\\' && j <= |t| && QuoteFrom(t, j).Matched?
    ensures QuoteFrom([p] + t + rest, j + 1) == Matched(QuoteFrom(t, j).end + 1)
    decreases |t| - j
  {
    var s := [p] + t + rest;
    BackslashRunAfter(p, t, rest, j);
    assert s[j + 1] == t[j];
    assert QuoteAt(s, j + 1) == QuoteAt(t, j);
    if !QuoteAt(t, j) {
      QuoteFromAfter(p, t, rest, j + 1);
    }
  }

  /** The extractRaw scan through a balanced text stops at the close just after it. */
  lemma {:induction false} RawScanBalanced(t: string, rest: string, open: char, close: char, j: nat, d: int)
    requires open != close && open != '\\'
    requires j <= |t| && Balanced(t, open, close, j, d)
    ensures RawScan([open] + t + [close] + rest, open, close, j + 1, d + 1) == Matched(|t| + 1)
    decreases |t| - j
  {
    var s := [open] + t + [close] + rest;
    if j == |t| {
      assert s[j + 1] == close;
    } else {
      assert s[j + 1] == t[j];
      if t[j] == open {
        RawScanBalanced(t, rest, open, close, j + 1, d + 1);
      } else if t[j] == close {
        RawScanBalanced(t, rest, open, close, j + 1, d - 1);
      } else if t[j] == '"' {
        assert s == [open] + t + ([close] + rest);
        QuoteFromAfter(open, t, [close] + rest, j + 1);
        RawScanBalanced(t, rest, open, close, QuoteFrom(t, j + 1).end + 1, d);
      } else {
        RawScanBalanced(t, rest, open, close, j + 1, d);
      }
    }
  }

  /** libjson_extractRaw on an open, a balanced text and its close copies exactly those. */
  lemma ExtractBalanced(t: string, rest: string, open: char, close: char)
    requires open != close && open != '\\' && Balanced(t, open, close, 0, 0)
    ensures ExtractRawF([open] + t + [close] + rest, open, close) == [open] + t + [close]
  {
    var s := [open] + t + [close] + rest;
    RawScanBalanced(t, rest, open, close, 0, 0);
    assert RawScan(s, open, close, 0, 0) == RawScan(s, open, close, 1, 1);
    assert s[..|t| + 2] == [open] + t + [close];
  }
}

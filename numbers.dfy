/**
 * Numbers in libjson.h. Parsing copies a run of number characters into a
 * zero-filled staging buffer, skipping a second decimal point and any inner
 * minus sign, and reads the buffer with sscanf("%Lf"). Printing formats with
 * sprintf("%Lf") (six decimals) and cuts trailing zeros and a bare decimal point.
 * Numbers are exact reals here; the rounding of `long double` is not modelled.
 */
module Numbers {
  import opened Text

  /*------------------------------------------------------------------------
   * Digits and their values
   *------------------------------------------------------------------------*/

  predicate AllDigits(d: string)
  {
    forall k :: 0 <= k < |d| ==> IsDigit(d[k])
  }

  function Pow10(n: nat): (p: nat)
    ensures p >= 1
  {
    if n == 0 then 1 else 10 * Pow10(n - 1)
  }

  /** The six decimals of "%Lf". */
  const Scale: nat := 1000000

  lemma ScaleIsPow10()
    ensures Pow10(6) == Scale
  {
  }

  function DigitVal(c: char): nat
    requires IsDigit(c)
  {
    c as int - '0' as int
  }

  function Digit(n: nat): (c: char)
    requires n < 10
    ensures IsDigit(c) && DigitVal(c) == n && (c == '0' <==> n == 0)
  {
    ('0' as int + n) as char
  }

  /** The value of a string of decimal digits, most significant first. */
  function DigitsValue(d: string): (v: nat)
    requires AllDigits(d)
    ensures v < Pow10(|d|)
  {
    if |d| == 0 then 0 else 10 * DigitsValue(d[..|d| - 1]) + DigitVal(d[|d| - 1])
  }

  /** The decimal digits of `n`, without leading zeros ("0" for zero). */
  function NatToDigits(n: nat): (d: string)
    ensures |d| >= 1 && AllDigits(d) && DigitsValue(d) == n
    ensures |d| > 1 ==> d[0] != '0'
  {
    if n < 10 then [Digit(n)]
    else
      var front := NatToDigits(n / 10);
      var d := front + [Digit(n % 10)];
      assert d[..|d| - 1] == front;
      d
  }

  /** Exactly `w` decimal digits of `n`, zero-padded on the left. */
  function PadDigits(n: nat, w: nat): (d: string)
    requires n < Pow10(w)
    ensures |d| == w && AllDigits(d) && DigitsValue(d) == n
  {
    if w == 0 then ""
    else
      var front := PadDigits(n / 10, w - 1);
      var d := front + [Digit(n % 10)];
      assert d[..|d| - 1] == front;
      d
  }

  /*------------------------------------------------------------------------
   * Reading a number (the run loop of o_parseJSONObject / a_parseJSONArray)
   *------------------------------------------------------------------------*/

  /** The characters the run loop accepts. */
  predicate IsNumberChar(c: char)
  {
    c == '.' || IsDigit(c) || c == '-'
  }

  /** The length of the run of number characters starting at `i`. */
  function RunLength(s: string, i: nat): (n: nat)
    requires i <= |s|
    ensures i + n <= |s|
    decreases |s| - i
  {
    if i == |s| || !IsNumberChar(s[i]) then 0 else 1 + RunLength(s, i + 1)
  }

  /** The run is made of number characters and stops at the end or at another character. */
  lemma {:induction false} RunLengthChars(s: string, i: nat)
    requires i <= |s|
    ensures forall k :: i <= k < i + RunLength(s, i) ==> IsNumberChar(s[k])
    ensures i + RunLength(s, i) == |s| || !IsNumberChar(s[i + RunLength(s, i)])
    decreases |s| - i
  {
    if i < |s| && IsNumberChar(s[i]) {
      RunLengthChars(s, i + 1);
    }
  }

  /** The run of number characters starting at `i`. */
  function NumberRun(s: string, i: nat): string
    requires i <= |s|
  {
    s[i..i + RunLength(s, i)]
  }

  /** The value the parser reads for the number starting at `i`. */
  function NumberAt(s: string, i: nat): real
    requires i <= |s|
  {
    ScanDecimal(Staged(NumberRun(s, i)))
  }

  /** Whether a point occurs before position `k` of the run. */
  predicate PointBefore(run: string, k: nat)
    requires k <= |run|
  {
    k > 0 && (run[k - 1] == '.' || PointBefore(run, k - 1))
  }

  /** Whether the run loop copies position `k` of the run into the buffer. */
  predicate Kept(run: string, k: nat)
    requires k < |run|
  {
    IsDigit(run[k]) || (run[k] == '.' && !PointBefore(run, k)) || (run[k] == '-' && k == 0)
  }

  /** The staging buffer after the run loop: copied characters, NUL where one was skipped. */
  function StageBuffer(run: string): string
  {
    seq(|run|, k requires 0 <= k < |run| => if Kept(run, k) then run[k] else '\0')
  }

  /** The C string held by a buffer: everything before the first NUL. */
  function CString(buf: string): (r: string)
    ensures |r| <= |buf| && r == buf[..|r|] && '\0' !in r
    ensures |r| == |buf| || buf[|r|] == '\0'
  {
    if |buf| == 0 || buf[0] == '\0' then ""
    else
      var tail := CString(buf[1..]);
      assert buf[..|tail| + 1] == [buf[0]] + tail;
      [buf[0]] + tail
  }

  /** The text sscanf sees: the run up to the first character the loop skipped. */
  function Staged(run: string): string
  {
    StagedFrom(run, 0)
  }

  /** The staged text, given that the first `k` characters of the run were copied. */
  function StagedFrom(run: string, k: nat): string
    requires k <= |run|
    decreases |run| - k
  {
    if k < |run| && Kept(run, k) then StagedFrom(run, k + 1) else run[..k]
  }

  /** The staged text is the longest prefix of the run whose characters are all copied. */
  lemma {:induction false} StagedFromPrefix(run: string, k: nat)
    requires k <= |run|
    requires forall j :: 0 <= j < k ==> Kept(run, j)
    ensures k <= |StagedFrom(run, k)| <= |run|
    ensures StagedFrom(run, k) == run[..|StagedFrom(run, k)|]
    ensures |StagedFrom(run, k)| == |run| || !Kept(run, |StagedFrom(run, k)|)
    ensures forall j :: 0 <= j < |StagedFrom(run, k)| ==> Kept(run, j)
    decreases |run| - k
  {
    if k < |run| && Kept(run, k) {
      StagedFromPrefix(run, k + 1);
    }
  }

  /** A number as the serializer writes it: a text the run loop copies whole. */
  predicate Clean(t: string)
  {
    forall k :: 0 <= k < |t| ==> Kept(t, k)
  }

  /** A clean run passes through the staging buffer unchanged. */
  lemma StagedClean(run: string)
    requires Clean(run)
    ensures Staged(run) == run
  {
    StagedFromPrefix(run, 0);
  }

  lemma {:induction false} NoPointIn(t: string, k: nat)
    requires k <= |t|
    requires forall j :: 0 <= j < k ==> t[j] != '.'
    ensures !PointBefore(t, k)
    decreases k
  {
    if k > 0 {
      NoPointIn(t, k - 1);
    }
  }

  /** A sign, integer digits and optional fraction digits make a clean text. */
  lemma {:induction false} CleanParts(sign: string, a: string, c: string)
    requires sign == "" || sign == "-"
    requires |a| >= 1 && AllDigits(a) && AllDigits(c)
    ensures Clean(sign + a + PointAndDigits(c))
  {
    var t := sign + a + PointAndDigits(c);
    forall k | 0 <= k < |t|
      ensures Kept(t, k)
    {
      CleanPartAt(sign, a, c, k);
    }
  }

  /** Each character of a sign, integer digits and optional fraction digits is copied. */
  lemma CleanPartAt(sign: string, a: string, c: string, k: nat)
    requires sign == "" || sign == "-"
    requires |a| >= 1 && AllDigits(a) && AllDigits(c)
    requires k < |sign + a + PointAndDigits(c)|
    ensures Kept(sign + a + PointAndDigits(c), k)
  {
    var t := sign + a + PointAndDigits(c);
    var n := |sign + a|;
    if k < |sign| {
      assert t[k] == '-' && k == 0;
    } else if k < n {
      assert t[k] == a[k - |sign|];
      KeptDigit(t, k);
    } else if k == n {
      FirstPoint(sign, a, c);
    } else {
      assert t[k] == c[k - n - 1];
      KeptDigit(t, k);
    }
  }

  /** A digit is always copied. */
  lemma KeptDigit(t: string, k: nat)
    requires k < |t| && IsDigit(t[k])
    ensures Kept(t, k)
  {
  }

  /** The point after the integer digits is the first one. */
  lemma FirstPoint(sign: string, a: string, c: string)
    requires sign == "" || sign == "-"
    requires AllDigits(a) && c != ""
    ensures var t := sign + a + PointAndDigits(c);
      |sign + a| < |t| && t[|sign + a|] == '.' && !PointBefore(t, |sign + a|)
  {
    var t := sign + a + PointAndDigits(c);
    var n := |sign + a|;
    assert t[n] == '.';
    forall j | 0 <= j < n
      ensures t[j] != '.'
    {
      if j >= |sign| {
        assert t[j] == a[j - |sign|];
      }
    }
    NoPointIn(t, n);
  }

  /**
   * sscanf("%Lf") on a staged text: an optional minus sign, integer digits, and
   * optionally a point and fraction digits, read left to right; with no digit at
   * all nothing is converted and the number keeps its initial 0.
   */
  function ScanDecimal(t: string): (x: real)
    ensures x < 0.0 ==> |t| > 0 && t[0] == '-'
  {
    if |t| > 0 && t[0] == '-' then -ReadWhole(t, 1, 0) else ReadWhole(t, 0, 0)
  }

  /** Reading integer digits from `k`, with `whole` read so far. */
  function ReadWhole(t: string, k: nat, whole: nat): (x: real)
    requires k <= |t|
    ensures x >= 0.0
    decreases |t| - k
  {
    if k < |t| && IsDigit(t[k]) then ReadWhole(t, k + 1, 10 * whole + DigitVal(t[k]))
    else if k < |t| && t[k] == '.' then ReadFraction(t, k + 1, whole, 0, 0)
    else whole as real
  }

  /** Reading fraction digits from `k`, with `digits` of them worth `frac` read so far. */
  function ReadFraction(t: string, k: nat, whole: nat, frac: nat, digits: nat): (x: real)
    requires k <= |t|
    ensures x >= 0.0
    decreases |t| - k
  {
    if k < |t| && IsDigit(t[k]) then ReadFraction(t, k + 1, whole, 10 * frac + DigitVal(t[k]), digits + 1)
    else Decimal(whole, frac, digits)
  }

  /** The value of a decimal with integer part `whole` and `digits` fraction digits worth `frac`. */
  function Decimal(whole: nat, frac: nat, digits: nat): (x: real)
    ensures x >= whole as real
  {
    assert frac as real / Pow10(digits) as real >= 0.0;
    whole as real + frac as real / Pow10(digits) as real
  }

  /**
   * The run loop: copy the run of number characters starting at `start` into a
   * zero-filled buffer, skipping a second point and a minus sign after the first
   * position. Returns the buffer and the run length (the parser's cursor moves
   * past the run).
   */
  method StageNumber(s: string, start: nat) returns (buf: string, len: nat)
    requires start <= |s|
    ensures len == RunLength(s, start) && start + len <= |s|
    ensures CString(buf) == Staged(NumberRun(s, start))
  {
    ghost var n := RunLength(s, start);
    ghost var run := NumberRun(s, start);
    assert run == s[start..start + n];
    RunLengthChars(s, start);
    var tmp := new char[|s| - start + 1](_ => '\0');
    var hadPoint := false;
    var j: nat := 0;
    while start + j < |s|
      invariant j <= n
      invariant hadPoint == PointBefore(run, j)
      invariant forall k :: 0 <= k < j ==> tmp[k] == (if Kept(run, k) then run[k] else '\0')
      invariant forall k :: j <= k < tmp.Length ==> tmp[k] == '\0'
    {
      var d := s[start + j];
      if d != '.' && !IsDigit(d) && d != '-' {
        break;
      }
      assert j < n && run[j] == d;
      if d == '.' && !hadPoint {
        hadPoint := true;
        tmp[j] := d;
      } else if d != '.' {
        if !(d == '-' && j != 0) {
          tmp[j] := d;
        }
      }
      j := j + 1;
    }
    assert j == n;
    len := j;
    buf := tmp[..];
    StageBufferInTmp(run, buf);
  }

  /** The run loop and the sscanf call that follows it. */
  method ScanNumber(s: string, start: nat) returns (num: real, len: nat)
    requires start <= |s|
    ensures len == RunLength(s, start) && start + len <= |s|
    ensures num == NumberAt(s, start)
  {
    var buf;
    buf, len := StageNumber(s, start);
    num := ScanDecimal(CString(buf));
  }

  /** The zero-filled buffer past the run does not change the C string. */
  lemma {:induction false} StageBufferInTmp(run: string, buf: string)
    requires |run| < |buf|
    requires forall k :: 0 <= k < |run| ==> buf[k] == StageBuffer(run)[k]
    requires forall k :: |run| <= k < |buf| ==> buf[k] == '\0'
    ensures CString(buf) == Staged(run)
  {
    var t := Staged(run);
    StagedFromPrefix(run, 0);
    assert forall k :: 0 <= k < |t| ==> buf[k] == StageBuffer(run)[k] == t[k];
    assert buf[..|t|] == t;
    assert buf[|t|] == '\0' by {
      if |t| < |run| {
        assert buf[|t|] == StageBuffer(run)[|t|];
      }
    }
    CStringIs(buf, t);
  }

  /** A buffer holding `t` and then a NUL holds the C string `t`. */
  lemma {:induction false} CStringIs(buf: string, t: string)
    requires |t| < |buf| && buf[..|t|] == t && '\0' !in t && buf[|t|] == '\0'
    ensures CString(buf) == t
    decreases |t|
  {
    if |t| > 0 {
      assert buf[0] == t[0];
      assert buf[1..][..|t| - 1] == t[1..];
      CStringIs(buf[1..], t[1..]);
      assert t == [t[0]] + t[1..];
    }
  }

  /*------------------------------------------------------------------------
   * Printing a number (the number case of libjson_JSONElementToString)
   *------------------------------------------------------------------------*/

  function Abs(x: real): (a: real)
    ensures a >= 0.0 && (a == x || a == -x)
  {
    if x < 0.0 then -x else x
  }

  /** Rounding to the nearest integer, ties to even, as printf rounds. */
  function RoundHalfEven(y: real): (n: nat)
    requires y >= 0.0
    ensures n as real - 0.5 <= y <= n as real + 0.5
    ensures y == y.Floor as real ==> n == y.Floor
  {
    var f := y.Floor;
    var d := y - f as real;
    if d < 0.5 then f
    else if d > 0.5 then f + 1
    else if f % 2 == 0 then f else f + 1
  }

  /** sprintf("%Lf"): a sign for negative values, the integer part, a point, six decimals. */
  function FixedPoint(x: real): (t: string)
    ensures |t| >= 8 && (IsDigit(t[0]) || t[0] == '-')
    ensures t[|t| - 7] == '.'
  {
    var m := RoundHalfEven(Abs(x) * Scale as real);
    ScaleIsPow10();
    FixedParts(if x < 0.0 then "-" else "", NatToDigits(m / Scale), PadDigits(m % Scale, 6))
  }

  function FixedParts(sign: string, a: string, b: string): (t: string)
    requires sign == "" || sign == "-"
    requires |a| >= 1 && AllDigits(a) && |b| == 6 && AllDigits(b)
    ensures |t| >= 8 && (IsDigit(t[0]) || t[0] == '-')
    ensures t[|t| - 7] == '.'
  {
    var t := sign + a + "." + b;
    assert sign == "" ==> t[0] == a[0];
    t
  }

  /** Whether the text has a decimal point after its first character. */
  predicate HasInnerPoint(t: string)
  {
    exists j :: 1 <= j < |t| && t[j] == '.'
  }

  function DropTrailingZeros(t: string): (r: string)
    ensures |r| <= |t| && r == t[..|r|]
    ensures forall k :: |r| <= k < |t| ==> t[k] == '0'
    ensures |r| == 0 || r[|r| - 1] != '0'
  {
    if |t| > 0 && t[|t| - 1] == '0' then DropTrailingZeros(t[..|t| - 1]) else t
  }

  function DropTrailingPoint(t: string): string
  {
    if |t| > 0 && t[|t| - 1] == '.' then t[..|t| - 1] else t
  }

  /** The cut of libjson_JSONElementToString: trailing zeros after a point go, then a bare point. */
  function Trim(t: string): string
  {
    if HasInnerPoint(t) then DropTrailingPoint(DropTrailingZeros(t)) else t
  }

  /**
   * The cut as written: one pass records the last character other than '0' and
   * the last '.', then the string is cut after the former, or at the point when
   * the two coincide; nothing is cut when the last point is at position 0 or absent.
   */
  method TrimNumber(t: string) returns (r: string)
    ensures r == Trim(t)
  {
    var lastNonZero: nat := 0;
    var decimal: nat := 0;
    var i: nat := 0;
    while i < |t|
      invariant i <= |t|
      invariant lastNonZero == 0 || (lastNonZero < i && t[lastNonZero] != '0')
      invariant forall j :: lastNonZero < j < i ==> t[j] == '0'
      invariant decimal == 0 || (decimal < i && t[decimal] == '.')
      invariant forall j :: decimal < j < i ==> t[j] != '.'
      invariant decimal <= lastNonZero
    {
      if t[i] != '0' {
        lastNonZero := i;
        if t[i] == '.' {
          decimal := i;
        }
      }
      i := i + 1;
    }
    if decimal != 0 {
      assert HasInnerPoint(t);
      DropZerosAt(t, lastNonZero);
      if lastNonZero == decimal {
        r := t[..decimal];
      } else {
        r := t[..lastNonZero + 1];
      }
    } else {
      r := t;
    }
  }

  lemma {:induction false} DropZerosAt(t: string, k: nat)
    requires k < |t| && t[k] != '0'
    requires forall j :: k < j < |t| ==> t[j] == '0'
    ensures DropTrailingZeros(t) == t[..k + 1]
  {
    var r := DropTrailingZeros(t);
    assert |r| == k + 1;
  }

  /** libjson_JSONElementToString on a number. */
  function RenderNumber(x: real): string
  {
    Trim(FixedPoint(x))
  }

  /*------------------------------------------------------------------------
   * Printing, then reading
   *------------------------------------------------------------------------*/

  /** The numbers that survive six decimal places. */
  predicate Exact6(x: real)
  {
    (x * Scale as real).Floor as real == x * Scale as real
  }

  /** A point followed by the fraction digits, or nothing when there are none. */
  function PointAndDigits(c: string): string
  {
    if c == "" then "" else "." + c
  }

  /** Negation by the sign text. */
  function Signed(sign: string, v: real): real
  {
    if sign == "-" then -v else v
  }

  lemma {:induction false} DropTrailingZerosAppend(p: string, b: string)
    requires |p| > 0 && p[|p| - 1] != '0'
    ensures DropTrailingZeros(p + b) == p + DropTrailingZeros(b)
    decreases |b|
  {
    if |b| > 0 && b[|b| - 1] == '0' {
      assert (p + b)[..|p + b| - 1] == p + b[..|b| - 1];
      DropTrailingZerosAppend(p, b[..|b| - 1]);
    } else if |b| == 0 {
      assert p + b == p;
    }
  }

  /** The cut of a "%Lf" text keeps the sign, the integer digits and the significant decimals. */
  lemma {:induction false} TrimParts(sign: string, a: string, b: string)
    requires sign == "" || sign == "-"
    requires |a| >= 1 && AllDigits(a) && |b| == 6 && AllDigits(b)
    ensures Trim(FixedParts(sign, a, b)) == sign + a + PointAndDigits(DropTrailingZeros(b))
    ensures Clean(sign + a + PointAndDigits(DropTrailingZeros(b)))
    ensures (sign + a + PointAndDigits(DropTrailingZeros(b)))[0] == (sign + a)[0]
  {
    TrimText(sign, a, b);
    var c := DropTrailingZeros(b);
    CleanParts(sign, a, c);
  }

  lemma {:induction false} TrimText(sign: string, a: string, b: string)
    requires sign == "" || sign == "-"
    requires |a| >= 1 && AllDigits(a) && |b| == 6 && AllDigits(b)
    ensures Trim(FixedParts(sign, a, b)) == sign + a + PointAndDigits(DropTrailingZeros(b))
  {
    var t := FixedParts(sign, a, b);
    var p := sign + a + ".";
    assert t == p + b;
    assert HasInnerPoint(t) by {
      assert 1 <= |sign + a| < |t| && t[|sign + a|] == '.';
    }
    DropTrailingZerosAppend(p, b);
    var c := DropTrailingZeros(b);
    assert AllDigits(c) by {
      assert forall k :: 0 <= k < |c| ==> c[k] == b[k];
    }
    DropPointParts(sign + a, c);
  }

  /** The bare point goes exactly when no fraction digit is left. */
  lemma DropPointParts(w: string, c: string)
    requires AllDigits(c)
    ensures DropTrailingPoint(w + "." + c) == w + PointAndDigits(c)
  {
    if c == "" {
      assert w + "." + c == w + ".";
      assert (w + ".")[..|w|] == w;
    } else {
      assert (w + "." + c)[|w| + |c|] == c[|c| - 1];
      assert w + "." + c == w + ("." + c);
    }
  }

  /** Trailing zeros do not change the value of a fraction, stated cross-multiplied. */
  lemma {:induction false} FractionScaled(b: string)
    requires AllDigits(b)
    ensures AllDigits(DropTrailingZeros(b))
    ensures DigitsValue(b) * Pow10(|DropTrailingZeros(b)|)
         == DigitsValue(DropTrailingZeros(b)) * Pow10(|b|)
    decreases |b|
  {
    if |b| > 0 && b[|b| - 1] == '0' {
      var f := b[..|b| - 1];
      FractionScaled(f);
      var c := DropTrailingZeros(f);
      assert DropTrailingZeros(b) == c;
      assert DigitsValue(b) == 10 * DigitsValue(f);
      assert Pow10(|b|) == 10 * Pow10(|f|);
      ScaleByTen(DigitsValue(f), Pow10(|c|), DigitsValue(c), Pow10(|f|));
    }
  }

  lemma ScaleByTen(x: int, y: int, z: int, w: int)
    requires x * y == z * w
    ensures (10 * x) * y == z * (10 * w)
  {
    assert (10 * x) * y == 10 * (x * y);
    assert z * (10 * w) == 10 * (z * w);
  }

  /** Fractions with equal cross products are equal. */
  lemma CrossDivide(x: int, p: int, z: int, q: int)
    requires p > 0 && q > 0 && x * q == z * p
    ensures x as real / p as real == z as real / q as real
  {
    var a, pr, c, qr := x as real, p as real, z as real, q as real;
    assert (x * q) as real == a * qr;
    assert (z * p) as real == c * pr;
    assert a / pr == (a * qr) / (pr * qr);
    assert c / qr == (c * pr) / (pr * qr);
  }

  /** Trailing zeros do not change the value of a decimal. */
  lemma FractionValue(whole: nat, b: string)
    requires AllDigits(b)
    ensures AllDigits(DropTrailingZeros(b))
    ensures Decimal(whole, DigitsValue(b), |b|)
         == Decimal(whole, DigitsValue(DropTrailingZeros(b)), |DropTrailingZeros(b)|)
  {
    var c := DropTrailingZeros(b);
    FractionScaled(b);
    CrossDivide(DigitsValue(b), Pow10(|b|), DigitsValue(c), Pow10(|c|));
  }

  /** Appending a digit to an accumulated value: `acc * 10^n + d` one digit longer. */
  lemma ShiftDigit(acc: nat, a: string)
    requires |a| > 0 && AllDigits(a)
    ensures AllDigits(a[..|a| - 1])
    ensures 10 * (acc * Pow10(|a| - 1) + DigitsValue(a[..|a| - 1])) + DigitVal(a[|a| - 1])
         == acc * Pow10(|a|) + DigitsValue(a)
  {
    assert 10 * (acc * Pow10(|a| - 1)) == acc * (10 * Pow10(|a| - 1));
  }

  /** Reading a run of integer digits accumulates their value. */
  lemma {:induction false} ReadWholeDigits(t: string, k: nat, whole: nat, a: string)
    requires k + |a| <= |t| && t[k..k + |a|] == a && AllDigits(a)
    ensures ReadWhole(t, k, whole) == ReadWhole(t, k + |a|, whole * Pow10(|a|) + DigitsValue(a))
    decreases |a|
  {
    if |a| > 0 {
      var front := a[..|a| - 1];
      assert t[k..k + |front|] == front;
      ReadWholeDigits(t, k, whole, front);
      assert t[k + |front|] == a[|a| - 1];
      ShiftDigit(whole, a);
    }
  }

  /** Reading a run of fraction digits accumulates their value and their count. */
  lemma {:induction false} ReadFractionDigits(t: string, k: nat, whole: nat, frac: nat, digits: nat, c: string)
    requires k + |c| <= |t| && t[k..k + |c|] == c && AllDigits(c)
    ensures ReadFraction(t, k, whole, frac, digits)
         == ReadFraction(t, k + |c|, whole, frac * Pow10(|c|) + DigitsValue(c), digits + |c|)
    decreases |c|
  {
    if |c| > 0 {
      var front := c[..|c| - 1];
      assert t[k..k + |front|] == front;
      ReadFractionDigits(t, k, whole, frac, digits, front);
      assert t[k + |front|] == c[|c| - 1];
      ShiftDigit(frac, c);
    }
  }

  /** Reading back a text made of a sign, integer digits and optional fraction digits. */
  lemma {:induction false} ScanParts(sign: string, a: string, c: string)
    requires sign == "" || sign == "-"
    requires |a| >= 1 && AllDigits(a) && AllDigits(c)
    ensures ScanDecimal(sign + a + PointAndDigits(c)) == Signed(sign, Decimal(DigitsValue(a), DigitsValue(c), |c|))
  {
    var t := sign + a + PointAndDigits(c);
    var k := |sign|;
    assert t[k..k + |a|] == a && t[k + |a|..] == PointAndDigits(c);
    if sign == "" {
      assert t[0] == a[0] && IsDigit(a[0]);
    }
    ReadParts(t, k, a, c);
  }

  /** Reading integer digits and optional fraction digits that end the text. */
  lemma {:induction false} ReadParts(t: string, k: nat, a: string, c: string)
    requires k + |a| <= |t| && t[k..k + |a|] == a && t[k + |a|..] == PointAndDigits(c)
    requires AllDigits(a) && AllDigits(c)
    ensures ReadWhole(t, k, 0) == Decimal(DigitsValue(a), DigitsValue(c), |c|)
  {
    ReadWholeDigits(t, k, 0, a);
    assert 0 * Pow10(|a|) + DigitsValue(a) == DigitsValue(a);
    ReadAfterWhole(t, k + |a|, DigitsValue(a), c);
  }

  /** After the integer digits: the end of the text, or a point and the fraction digits. */
  lemma {:induction false} ReadAfterWhole(t: string, p: nat, w: nat, c: string)
    requires p <= |t| && t[p..] == PointAndDigits(c) && AllDigits(c)
    ensures ReadWhole(t, p, w) == Decimal(w, DigitsValue(c), |c|)
  {
    if c == "" {
      assert |t| == p;
    } else {
      assert t[p] == '.';
      assert t[p + 1..p + 1 + |c|] == c && |t| == p + 1 + |c|;
      ReadFractionDigits(t, p + 1, w, 0, 0, c);
      assert 0 * Pow10(|c|) + DigitsValue(c) == DigitsValue(c);
    }
  }

  /** A rounded multiple of the scale, for a number with at most six decimals. */
  lemma ExactScaled(x: real)
    requires Exact6(x)
    ensures RoundHalfEven(Abs(x) * Scale as real) as real == Abs(x) * Scale as real
  {
    var z := x * Scale as real;
    var y := Abs(x) * Scale as real;
    if x < 0.0 {
      assert y == -z;
      var k := z.Floor;
      assert y == (-k) as real;
      assert y.Floor == -k;
    }
  }

  lemma DecimalParts(m: nat)
    ensures Decimal(m / Scale, m % Scale, 6) == m as real / Scale as real
  {
    ScaleIsPow10();
    assert m == (m / Scale) * Scale + m % Scale;
  }

  /**
   * A number with at most six decimals prints as a clean text that reads back
   * as the same number.
   */
  lemma {:induction false} RenderNumberRoundTrip(x: real)
    requires Exact6(x)
    ensures Clean(RenderNumber(x)) && |RenderNumber(x)| >= 1
    ensures IsDigit(RenderNumber(x)[0]) || RenderNumber(x)[0] == '-'
    ensures ScanDecimal(Staged(RenderNumber(x))) == x
  {
    var m := RoundHalfEven(Abs(x) * Scale as real);
    ExactScaled(x);
    ScaleIsPow10();
    var sign := if x < 0.0 then "-" else "";
    var a := NatToDigits(m / Scale);
    var b := PadDigits(m % Scale, 6);
    var t := FixedPoint(x);
    assert t == FixedParts(sign, a, b);
    TrimParts(sign, a, b);
    var c := DropTrailingZeros(b);
    var r := RenderNumber(x);
    assert r == sign + a + PointAndDigits(c);
    StagedClean(r);
    ScanParts(sign, a, c);
    FractionValue(m / Scale, b);
    DecimalParts(m);
  }

  /** Integral numbers print with no decimal point at all. */
  lemma {:induction false} RenderIntegral(n: int)
    ensures RenderNumber(n as real) == (if n < 0 then "-" else "") + NatToDigits(if n < 0 then -n else n)
  {
    var x := n as real;
    var k: nat := if n < 0 then -n else n;
    IntegralScaled(n);
    var sign := if n < 0 then "-" else "";
    var b := PadDigits(0, 6);
    assert FixedPoint(x) == FixedParts(sign, NatToDigits(k), b);
    TrimParts(sign, NatToDigits(k), b);
    ZerosOnly(b);
  }

  /** An integer scales to a whole multiple of the scale. */
  lemma IntegralScaled(n: int)
    ensures RoundHalfEven(Abs(n as real) * Scale as real) / Scale == (if n < 0 then -n else n)
    ensures RoundHalfEven(Abs(n as real) * Scale as real) % Scale == 0
  {
    var x := n as real;
    var k: nat := if n < 0 then -n else n;
    assert Abs(x) * Scale as real == (k * Scale) as real;
    var m := RoundHalfEven(Abs(x) * Scale as real);
    assert m == k * Scale;
  }

  lemma {:induction false} ZerosOnly(b: string)
    requires AllDigits(b) && DigitsValue(b) == 0
    ensures DropTrailingZeros(b) == ""
    decreases |b|
  {
    if |b| > 0 {
      assert DigitVal(b[|b| - 1]) == 0;
      ZerosOnly(b[..|b| - 1]);
    }
  }
}

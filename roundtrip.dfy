/**
 * Printing, then parsing: the text a_JSONArrayToString and o_JSONObjectToString
 * print for an array or an object of scalar elements is read back by
 * a_parseJSONArray and o_parseJSONObject as the same elements, in the same order.
 */
module Roundtrip {
  import opened Values
  import opened Text
  import Scanner
  import Numbers
  import Objects
  import Arrays
  import Parser
  import Serializer

  /**
   * A scalar element the serializer prints faithfully: a string with every inner
   * quote already escaped (nothing is escaped on output), a number with at most
   * six decimals, a boolean or null.
   */
  predicate Scalar(v: Value)
  {
    match v
    case Number(x) => Numbers.Exact6(x)
    case Str(t) => Scanner.WellFormedString(t)
    case Object(_) => false
    case Array(_) => false
    case _ => true
  }

  /** Every element is such a scalar. */
  predicate ScalarValues(vs: seq<Value>)
  {
    forall j :: 0 <= j < |vs| ==> Scalar(vs[j])
  }

  /** A pair with a non-NULL, faithfully printed key and a scalar value. */
  predicate ScalarPair(p: Pair)
  {
    p.key.Some? && Scanner.WellFormedString(p.key.value) && Scalar(p.value)
  }

  predicate ScalarPairs(ps: seq<Pair>)
  {
    forall j :: 0 <= j < |ps| ==> ScalarPair(ps[j])
  }

  /*------------------------------------------------------------------------
   * Where a text occurs
   *------------------------------------------------------------------------*/

  /** The text `x` occurs in `s` starting at position `i`. */
  predicate TextAt(s: string, i: nat, x: string)
  {
    i + |x| <= |s| && forall j :: 0 <= j < |x| ==> s[i + j] == x[j]
  }

  /** A text occurs at `i` exactly when the slice of that length there is the text. */
  lemma TextAtSlice(s: string, i: nat, x: string)
    requires TextAt(s, i, x)
    ensures s[i..i + |x|] == x
  {
    assert forall j :: 0 <= j < |x| ==> s[i..i + |x|][j] == x[j];
  }

  /** The two halves of a text that occurs at `i`. */
  lemma TextAtSplit(s: string, i: nat, a: string, b: string)
    requires TextAt(s, i, a + b)
    ensures TextAt(s, i, a) && TextAt(s, i + |a|, b)
  {
    forall j | 0 <= j < |a|
      ensures s[i + j] == a[j]
    {
      assert (a + b)[j] == a[j];
    }
    forall j | 0 <= j < |b|
      ensures s[i + |a| + j] == b[j]
    {
      assert (a + b)[|a| + j] == b[j];
    }
  }

  lemma TextAtSplit3(s: string, i: nat, a: string, b: string, c: string)
    requires TextAt(s, i, a + b + c)
    ensures TextAt(s, i, a) && TextAt(s, i + |a|, b) && TextAt(s, i + |a| + |b|, c)
  {
    TextAtSplit(s, i, a + b, c);
    TextAtSplit(s, i, a, b);
  }

  /** A text made of an opening character, a body and a closing character. */
  lemma Framed(s: string, open: char, body: string, close: char)
    requires s == [open] + body + [close]
    ensures |s| == |body| + 2 && s[0] == open && s[|body| + 1] == close
    ensures TextAt(s, 1, body)
  {
    forall j | 0 <= j < |body|
      ensures s[1 + j] == body[j]
    {
      assert s[1 + j] == ([open] + body)[1 + j];
    }
  }

  /** libjson_extractString on a quoted well-formed string gives back the string. */
  lemma ExtractAt(s: string, i: nat, t: string)
    requires Scanner.WellFormedString(t) && TextAt(s, i, "\"" + t + "\"")
    ensures s[i] == '"' && Scanner.ExtractStringF(s[i..]) == t
  {
    var q := "\"" + t + "\"";
    var end := i + |q|;
    TextAtSlice(s, i, q);
    assert s[i..] == q + s[end..] by {
      assert s[i..] == s[i..end] + s[end..];
    }
    Scanner.ExtractQuoted(t, s[end..]);
    assert s[i + 0] == q[0];
  }

  /** The run of number characters is exactly `n` long when a non-number character follows it. */
  lemma {:induction false} RunLengthOver(s: string, i: nat, n: nat)
    requires i + n < |s| && !Numbers.IsNumberChar(s[i + n])
    requires forall k :: i <= k < i + n ==> Numbers.IsNumberChar(s[k])
    ensures Numbers.RunLength(s, i) == n
    decreases n
  {
    if n > 0 {
      RunLengthOver(s, i + 1, n - 1);
    }
  }

  /*------------------------------------------------------------------------
   * The printed texts, piece by piece
   *------------------------------------------------------------------------*/

  /** A printed pair: the quoted key, a colon, the printed value. */
  lemma PairText(p: Pair)
    requires p.key.Some?
    ensures Serializer.RenderPair(p) == "\"" + p.key.value + "\"" + ":" + Serializer.RenderValue(p.value)
  {
  }

  /** The comma-joined texts: the first, then a comma and the rest when there is more. */
  lemma JoinFirst(parts: seq<string>)
    requires |parts| >= 1
    ensures Serializer.Join(parts) ==
      parts[0] + (if |parts| == 1 then "" else "," + Serializer.Join(parts[1..]))
  {
  }

  lemma PairTextsTail(ps: seq<Pair>)
    requires |ps| >= 1
    ensures Serializer.PairTexts(ps)[1..] == Serializer.PairTexts(ps[1..])
  {
    var a := Serializer.PairTexts(ps)[1..];
    var b := Serializer.PairTexts(ps[1..]);
    forall j | 0 <= j < |a|
      ensures a[j] == b[j]
    {
      assert ps[1..][j] == ps[j + 1];
    }
  }

  lemma ValueTextsTail(vs: seq<Value>)
    requires |vs| >= 1
    ensures Serializer.ValueTexts(vs)[1..] == Serializer.ValueTexts(vs[1..])
  {
    var a := Serializer.ValueTexts(vs)[1..];
    var b := Serializer.ValueTexts(vs[1..]);
    forall j | 0 <= j < |a|
      ensures a[j] == b[j]
    {
      assert vs[1..][j] == vs[j + 1];
    }
  }

  /** A single printed pair. */
  lemma OnePair(ps: seq<Pair>)
    requires |ps| == 1
    ensures Serializer.Join(Serializer.PairTexts(ps)) == Serializer.RenderPair(ps[0])
  {
  }

  /** A single printed element. */
  lemma OneValue(vs: seq<Value>)
    requires |vs| == 1
    ensures Serializer.Join(Serializer.ValueTexts(vs)) == Serializer.RenderValue(vs[0])
  {
  }

  lemma ScalarPairsTail(ps: seq<Pair>)
    requires |ps| >= 1 && ScalarPairs(ps)
    ensures ScalarPair(ps[0]) && ScalarPairs(ps[1..])
  {
    assert forall j :: 0 <= j < |ps| - 1 ==> ps[1..][j] == ps[j + 1];
  }

  lemma ScalarValuesTail(vs: seq<Value>)
    requires |vs| >= 1 && ScalarValues(vs)
    ensures Scalar(vs[0]) && ScalarValues(vs[1..])
  {
    assert forall j :: 0 <= j < |vs| - 1 ==> vs[1..][j] == vs[j + 1];
  }

  /** Where two texts joined by a comma occur: the first, the comma, the second. */
  lemma CommaSplit(s: string, i: nat, first: string, tail: string)
    requires TextAt(s, i, first + "," + tail)
    ensures TextAt(s, i, first) && TextAt(s, i + |first| + 1, tail)
    ensures i + |first| < |s| && s[i + |first|] == ','
  {
    TextAtSplit3(s, i, first, ",", tail);
    assert s[i + |first| + 0] == ","[0];
  }

  /** Where several comma-joined texts occur: the first, a comma, the others. */
  lemma JoinSplit(s: string, i: nat, parts: seq<string>)
    requires |parts| > 1 && TextAt(s, i, Serializer.Join(parts))
    ensures |Serializer.Join(parts)| == |parts[0]| + 1 + |Serializer.Join(parts[1..])|
    ensures TextAt(s, i, parts[0]) && TextAt(s, i + |parts[0]| + 1, Serializer.Join(parts[1..]))
    ensures i + |parts[0]| < |s| && s[i + |parts[0]|] == ','
  {
    JoinFirst(parts);
    CommaSplit(s, i, parts[0], Serializer.Join(parts[1..]));
  }

  /** A printed number is made of the characters the parsers' run loop accepts. */
  lemma NumberText(x: real)
    requires Numbers.Exact6(x)
    ensures var r := Numbers.RenderNumber(x);
      |r| >= 1 && (IsDigit(r[0]) || r[0] == '-') &&
      forall j :: 0 <= j < |r| ==> Numbers.IsNumberChar(r[j])
  {
    Numbers.RenderNumberRoundTrip(x);
    var r := Numbers.RenderNumber(x);
    forall j | 0 <= j < |r|
      ensures Numbers.IsNumberChar(r[j])
    {
      assert Numbers.Kept(r, j);
    }
  }

  /*------------------------------------------------------------------------
   * Reading one printed scalar
   *------------------------------------------------------------------------*/

  /** A printed literal starts with the letter the parsers test, and is four or five letters long. */
  lemma LiteralAt(s: string, i: nat, v: Value)
    requires (v.Null? || v.Bool?) && TextAt(s, i, Serializer.RenderValue(v))
    ensures i < |s| && s[i] == (if v.Null? then 'n' else if v.b then 't' else 'f')
    ensures |Serializer.RenderValue(v)| == if v == Bool(false) then 5 else 4
  {
    var r := Serializer.RenderValue(v);
    assert s[i + 0] == r[0];
  }

  /** The scanner measures a printed number's run and reads it back as the number. */
  lemma NumberAtRendered(s: string, i: nat, x: real)
    requires Numbers.Exact6(x) && TextAt(s, i, Numbers.RenderNumber(x))
    requires var end := i + |Numbers.RenderNumber(x)|;
      end < |s| && !Numbers.IsNumberChar(s[end])
    ensures i < |s| && (IsDigit(s[i]) || s[i] == '-')
    ensures Numbers.RunLength(s, i) == |Numbers.RenderNumber(x)| && Numbers.NumberAt(s, i) == x
  {
    var r := Numbers.RenderNumber(x);
    NumberText(x);
    Numbers.RenderNumberRoundTrip(x);
    Numbers.StagedClean(r);
    NumberRunAt(s, i, r);
    TextAtSlice(s, i, r);
    assert s[i + 0] == r[0];
  }

  /** A run of number characters written at `i` and followed by another character is the run the scanner measures. */
  lemma NumberRunAt(s: string, i: nat, r: string)
    requires TextAt(s, i, r) && forall j :: 0 <= j < |r| ==> Numbers.IsNumberChar(r[j])
    requires i + |r| < |s| && !Numbers.IsNumberChar(s[i + |r|])
    ensures Numbers.RunLength(s, i) == |r|
  {
    forall k | i <= k < i + |r|
      ensures Numbers.IsNumberChar(s[k])
    {
      assert s[i + (k - i)] == r[k - i];
    }
    RunLengthOver(s, i, |r|);
  }

  /** The separators that follow a printed value end a number. */
  lemma Delimiter(c: char)
    requires c in ",}]"
    ensures !Numbers.IsNumberChar(c)
  {
  }

  /*------------------------------------------------------------------------
   * The object pass over printed pairs
   *------------------------------------------------------------------------*/

  /** Moving the first pending pair onto the read ones keeps the whole and its keys unique. */
  lemma Shifted(acc: seq<Pair>, qs: seq<Pair>)
    requires |qs| >= 1 && Objects.UniqueKeys(acc + qs)
    ensures (acc + [qs[0]]) + qs[1..] == acc + qs
    ensures Objects.UniqueKeys((acc + [qs[0]]) + qs[1..])
  {
    assert (acc + [qs[0]]) + qs[1..] == acc + qs;
  }

  /** A key absent from the pairs before it: storing it appends the pair. */
  lemma FreshKey(acc: seq<Pair>, qs: seq<Pair>)
    requires |qs| >= 1 && qs[0].key.Some? && Objects.UniqueKeys(acc + qs)
    ensures Objects.SetKey(acc, qs[0].key, qs[0].value) == acc + [qs[0]]
  {
    var key := qs[0].key;
    forall j | 0 <= j < |acc|
      ensures !KeyMatches(key, acc[j].key)
    {
      assert (acc + qs)[j] == acc[j] && (acc + qs)[|acc|] == qs[0];
    }
    Objects.RemoveKeyShape(acc, key);
  }

  /** o_parseJSONObject over a quoted key and its colon: the key is pending, a value announced. */
  lemma ScanKey(s: string, i: nat, acc: seq<Pair>, k: string)
    requires i > 0 && Scanner.WellFormedString(k)
    requires TextAt(s, i, "\"" + k + "\"") && TextAt(s, i + |k| + 2, ":")
    ensures Parser.ObjectScan(s, Parser.ObjectState(i, acc, None, false, false)) ==
      Parser.ObjectScan(s, Parser.ObjectState(i + |k| + 3, acc, Some(k), true, false))
  {
    var colon := i + |k| + 2;
    ExtractAt(s, i, k);
    KeyNamed(s, i, acc, k);
    assert s[colon + 0] == ":"[0];
    ColonAnnounced(s, colon, acc, k);
  }

  /** A turn of the object pass on a quote names the pending key. */
  lemma KeyNamed(s: string, i: nat, acc: seq<Pair>, k: string)
    requires 0 < i < |s| && s[i] == '"' && Scanner.ExtractStringF(s[i..]) == k
    ensures Parser.ObjectScan(s, Parser.ObjectState(i, acc, None, false, false)) ==
      Parser.ObjectScan(s, Parser.ObjectState(i + |k| + 2, acc, Some(k), false, false))
  {
    var st := Parser.ObjectState(i, acc, None, false, false);
    var st' := Parser.ObjectState(i + |k| + 2, acc, Some(k), false, false);
    Parser.ObjectNamesKey(s, st, k, st');
    Parser.ObjectAdvances(s, st, st');
  }

  /** A turn of the object pass on a colon announces a value. */
  lemma ColonAnnounced(s: string, i: nat, acc: seq<Pair>, k: string)
    requires 0 < i < |s| && s[i] == ':'
    ensures Parser.ObjectScan(s, Parser.ObjectState(i, acc, Some(k), false, false)) ==
      Parser.ObjectScan(s, Parser.ObjectState(i + 1, acc, Some(k), true, false))
  {
    var st := Parser.ObjectState(i, acc, Some(k), false, false);
    var st' := Parser.ObjectState(i + 1, acc, Some(k), true, false);
    Parser.ObjectAnnounces(s, st, st');
    Parser.ObjectAdvances(s, st, st');
  }

  /**
   * After a value the object pass stands on the following comma or closing
   * brace, or one past it after a number; either way it goes on after it.
   */
  lemma ObjectAfterValue(s: string, next: nat, end: nat, acc: seq<Pair>)
    requires 0 < end && (next == end || next == end + 1)
    requires end < |s| && (s[end] == ',' || (s[end] == '}' && end + 1 == |s|))
    ensures Parser.ObjectScan(s, Parser.ObjectState(next, acc, None, false, false)) ==
      Parser.ObjectScan(s, Parser.ObjectState(end + 1, acc, None, false, false))
  {
    if next == end && s[end] == ',' {
      var st := Parser.ObjectState(end, acc, None, false, false);
      var st' := Parser.ObjectState(end + 1, acc, None, false, false);
      Parser.ObjectMoves(s, st, st');
      Parser.ObjectAdvances(s, st, st');
    }
  }

  /**
   * A turn of the object pass on `null`, `true` or `false` under the pending key
   * stores the literal, and the pass goes on after the separator that follows it.
   */
  lemma ObjectTakesLiteral(s: string, i: nat, end: nat, acc: seq<Pair>, key: Option<string>, v: Value)
    requires 0 < i < |s| && (v.Null? || v.Bool?)
    requires s[i] == (if v.Null? then 'n' else if v.b then 't' else 'f')
    requires end == i + if v == Bool(false) then 5 else 4
    requires end < |s| && (s[end] == ',' || (s[end] == '}' && end + 1 == |s|))
    ensures Parser.ObjectScan(s, Parser.ObjectState(i, acc, key, true, false)) ==
      Parser.ObjectScan(s, Parser.ObjectState(end + 1, Objects.SetKey(acc, key, v), None, false, false))
  {
    Parser.ReadsLiteral(s, i);
    var st := Parser.ObjectState(i, acc, key, true, false);
    var st' := Parser.ObjectState(end, Objects.SetKey(acc, key, v), None, false, false);
    Parser.ObjectStores(s, st, Parser.Read(v, end), st');
    Parser.ObjectAdvances(s, st, st');
    ObjectAfterValue(s, end, end, Objects.SetKey(acc, key, v));
  }

  /** The same for a string, extracted between its quotes. */
  lemma ObjectTakesString(s: string, i: nat, end: nat, acc: seq<Pair>, key: Option<string>, t: string)
    requires 0 < i < |s| && s[i] == '"' && Scanner.ExtractStringF(s[i..]) == t && end == i + |t| + 2
    requires end < |s| && (s[end] == ',' || (s[end] == '}' && end + 1 == |s|))
    ensures Parser.ObjectScan(s, Parser.ObjectState(i, acc, key, true, false)) ==
      Parser.ObjectScan(s, Parser.ObjectState(end + 1, Objects.SetKey(acc, key, Str(t)), None, false, false))
  {
    Parser.ReadsString(s, i);
    var st := Parser.ObjectState(i, acc, key, true, false);
    var st' := Parser.ObjectState(end, Objects.SetKey(acc, key, Str(t)), None, false, false);
    Parser.ObjectStores(s, st, Parser.Read(Str(t), end), st');
    Parser.ObjectAdvances(s, st, st');
    ObjectAfterValue(s, end, end, Objects.SetKey(acc, key, Str(t)));
  }

  /** The same for a number, whose reading already moves the cursor past the separator. */
  lemma ObjectTakesNumber(s: string, i: nat, end: nat, acc: seq<Pair>, key: Option<string>, x: real)
    requires 0 < i < |s| && (IsDigit(s[i]) || s[i] == '-') && Numbers.NumberAt(s, i) == x
    requires end == i + Numbers.RunLength(s, i)
    ensures Parser.ObjectScan(s, Parser.ObjectState(i, acc, key, true, false)) ==
      Parser.ObjectScan(s, Parser.ObjectState(end + 1, Objects.SetKey(acc, key, Number(x)), None, false, false))
  {
    Parser.ReadsNumber(s, i);
    var st := Parser.ObjectState(i, acc, key, true, false);
    var st' := Parser.ObjectState(end + 1, Objects.SetKey(acc, key, Number(x)), None, false, false);
    Parser.ObjectStores(s, st, Parser.Read(Number(x), end + 1), st');
    Parser.ObjectAdvances(s, st, st');
  }

  /** o_parseJSONObject over a printed scalar under a pending key: the pair is stored. */
  lemma ScanPairValue(s: string, i: nat, end: nat, acc: seq<Pair>, key: Option<string>, v: Value)
    requires i > 0 && Scalar(v)
    requires TextAt(s, i, Serializer.RenderValue(v)) && end == i + |Serializer.RenderValue(v)|
    requires end < |s| && (s[end] == ',' || (s[end] == '}' && end + 1 == |s|))
    ensures Parser.ObjectScan(s, Parser.ObjectState(i, acc, key, true, false)) ==
      Parser.ObjectScan(s, Parser.ObjectState(end + 1, Objects.SetKey(acc, key, v), None, false, false))
  {
    if v.Number? {
      Delimiter(s[end]);
      NumberAtRendered(s, i, v.x);
      ObjectTakesNumber(s, i, end, acc, key, v.x);
    } else if v.Str? {
      ExtractAt(s, i, v.s);
      ObjectTakesString(s, i, end, acc, key, v.s);
    } else {
      LiteralAt(s, i, v);
      ObjectTakesLiteral(s, i, end, acc, key, v);
    }
  }

  /**
   * o_parseJSONObject over one printed pair followed by a comma, or by the
   * closing brace that ends the text: the key is named, the colon announces the
   * value, the value is stored, and the pass goes on after the following character.
   */
  lemma ScanPair(s: string, i: nat, end: nat, acc: seq<Pair>, qs: seq<Pair>)
    requires i > 0 && |qs| >= 1 && ScalarPair(qs[0]) && Objects.UniqueKeys(acc + qs)
    requires TextAt(s, i, Serializer.RenderPair(qs[0])) && end == i + |Serializer.RenderPair(qs[0])|
    requires end < |s| && (s[end] == ',' || (s[end] == '}' && end + 1 == |s|))
    ensures Parser.ObjectScan(s, Parser.ObjectState(i, acc, None, false, false)) ==
      Parser.ObjectScan(s, Parser.ObjectState(end + 1, acc + [qs[0]], None, false, false))
  {
    var q := qs[0];
    var k := q.key.value;
    PairText(q);
    TextAtSplit3(s, i, "\"" + k + "\"", ":", Serializer.RenderValue(q.value));
    ScanKey(s, i, acc, k);
    ScanPairValue(s, i + |k| + 3, end, acc, q.key, q.value);
    FreshKey(acc, qs);
  }

  /** o_parseJSONObject over the printed pairs and the closing brace that ends the text. */
  lemma {:induction false} ScanPairs(s: string, i: nat, acc: seq<Pair>, qs: seq<Pair>)
    requires i > 0 && ScalarPairs(qs) && Objects.UniqueKeys(acc + qs)
    requires TextAt(s, i, Serializer.Join(Serializer.PairTexts(qs)))
    requires var end := i + |Serializer.Join(Serializer.PairTexts(qs))|;
      end + 1 == |s| && s[end] == '}'
    ensures Parser.ObjectScan(s, Parser.ObjectState(i, acc, None, false, false)) == acc + qs
    decreases qs, 1
  {
    if |qs| == 0 {
      assert acc + qs == acc;
    } else if |qs| == 1 {
      OnePair(qs);
      ScalarPairsTail(qs);
      ScanPair(s, i, |s| - 1, acc, qs);
      assert acc + [qs[0]] == acc + qs;
    } else {
      ScanPairThenMore(s, i, acc, qs);
    }
  }

  /** One pair, its comma, and the rest. */
  lemma {:induction false} ScanPairThenMore(s: string, i: nat, acc: seq<Pair>, qs: seq<Pair>)
    requires i > 0 && ScalarPairs(qs) && Objects.UniqueKeys(acc + qs) && |qs| > 1
    requires TextAt(s, i, Serializer.Join(Serializer.PairTexts(qs)))
    requires var end := i + |Serializer.Join(Serializer.PairTexts(qs))|;
      end + 1 == |s| && s[end] == '}'
    ensures Parser.ObjectScan(s, Parser.ObjectState(i, acc, None, false, false)) == acc + qs
    decreases qs, 0
  {
    var comma := i + |Serializer.RenderPair(qs[0])|;
    JoinSplit(s, i, Serializer.PairTexts(qs));
    PairTextsTail(qs);
    ScalarPairsTail(qs);
    ScanPair(s, i, comma, acc, qs);
    Shifted(acc, qs);
    ScanPairs(s, comma + 1, acc + [qs[0]], qs[1..]);
  }

  /** o_parseJSONObject's first turn on the opening brace. */
  lemma ObjectOpening(s: string)
    requires |s| > 0 && s[0] == '{'
    ensures Parser.ParseObjectF(s) == Parser.ObjectScan(s, Parser.ObjectState(1, [], None, false, false))
  {
    var st0 := Parser.ObjectState(0, [], None, false, true);
    var st1 := Parser.ObjectState(1, [], None, false, false);
    Parser.ObjectOpens(s, st0, st1);
    Parser.ObjectAdvances(s, st0, st1);
  }

  /**
   * o_parseJSONObject reads the text o_JSONObjectToString prints for an object
   * of scalar members as the same pairs, in the same order.
   */
  lemma ObjectRoundTrip(ps: seq<Pair>)
    requires Objects.UniqueKeys(ps) && ScalarPairs(ps)
    ensures Parser.ParseObjectF(Serializer.RenderObject(ps)) == ps
  {
    var s := Serializer.RenderObject(ps);
    var body := Serializer.Join(Serializer.PairTexts(ps));
    Framed(s, '{', body, '}');
    ObjectOpening(s);
    assert [] + ps == ps;
    ScanPairs(s, 1, [], ps);
  }

  /*------------------------------------------------------------------------
   * The array pass over printed elements
   *------------------------------------------------------------------------*/

  /**
   * After an element the array pass stands on the following comma or closing
   * bracket, or one past it after a number; either way it goes on after it.
   */
  lemma ArrayAfterValue(s: string, next: nat, end: nat, acc: seq<Value>)
    requires 0 < end && (next == end || next == end + 1)
    requires end < |s| && (s[end] == ',' || (s[end] == ']' && end + 1 == |s|))
    ensures Parser.ArrayScan(s, Parser.ArrayState(next, acc, false)) ==
      Parser.ArrayScan(s, Parser.ArrayState(end + 1, acc, false))
  {
    if next == end && s[end] == ',' {
      var st := Parser.ArrayState(end, acc, false);
      var st' := Parser.ArrayState(end + 1, acc, false);
      Parser.ArrayMoves(s, st, st');
      Parser.ArrayAdvances(s, st, st');
    }
  }

  /**
   * A turn of the array pass on `null`, `true` or `false` appends the literal,
   * and the pass goes on after the separator that follows it.
   */
  lemma ArrayTakesLiteral(s: string, i: nat, end: nat, acc: seq<Value>, v: Value)
    requires 0 < i < |s| && (v.Null? || v.Bool?)
    requires s[i] == (if v.Null? then 'n' else if v.b then 't' else 'f')
    requires end == i + if v == Bool(false) then 5 else 4
    requires end < |s| && (s[end] == ',' || (s[end] == ']' && end + 1 == |s|))
    ensures Parser.ArrayScan(s, Parser.ArrayState(i, acc, false)) ==
      Parser.ArrayScan(s, Parser.ArrayState(end + 1, acc + [v], false))
  {
    Parser.ReadsLiteral(s, i);
    Arrays.ArraySetProperties(acc, |acc|, v);
    var st := Parser.ArrayState(i, acc, false);
    var st' := Parser.ArrayState(end, acc + [v], false);
    Parser.ArrayAppends(s, st, Parser.Read(v, end), st');
    Parser.ArrayAdvances(s, st, st');
    ArrayAfterValue(s, end, end, acc + [v]);
  }

  /** The same for a string, extracted between its quotes. */
  lemma ArrayTakesString(s: string, i: nat, end: nat, acc: seq<Value>, t: string)
    requires 0 < i < |s| && s[i] == '"' && Scanner.ExtractStringF(s[i..]) == t && end == i + |t| + 2
    requires end < |s| && (s[end] == ',' || (s[end] == ']' && end + 1 == |s|))
    ensures Parser.ArrayScan(s, Parser.ArrayState(i, acc, false)) ==
      Parser.ArrayScan(s, Parser.ArrayState(end + 1, acc + [Str(t)], false))
  {
    Parser.ReadsString(s, i);
    Arrays.ArraySetProperties(acc, |acc|, Str(t));
    var st := Parser.ArrayState(i, acc, false);
    var st' := Parser.ArrayState(end, acc + [Str(t)], false);
    Parser.ArrayAppends(s, st, Parser.Read(Str(t), end), st');
    Parser.ArrayAdvances(s, st, st');
    ArrayAfterValue(s, end, end, acc + [Str(t)]);
  }

  /** The same for a number, whose reading already moves the cursor past the separator. */
  lemma ArrayTakesNumber(s: string, i: nat, end: nat, acc: seq<Value>, x: real)
    requires 0 < i < |s| && (IsDigit(s[i]) || s[i] == '-') && Numbers.NumberAt(s, i) == x
    requires end == i + Numbers.RunLength(s, i)
    ensures Parser.ArrayScan(s, Parser.ArrayState(i, acc, false)) ==
      Parser.ArrayScan(s, Parser.ArrayState(end + 1, acc + [Number(x)], false))
  {
    Parser.ReadsNumber(s, i);
    Arrays.ArraySetProperties(acc, |acc|, Number(x));
    var st := Parser.ArrayState(i, acc, false);
    var st' := Parser.ArrayState(end + 1, acc + [Number(x)], false);
    Parser.ArrayAppends(s, st, Parser.Read(Number(x), end + 1), st');
    Parser.ArrayAdvances(s, st, st');
  }

  /**
   * a_parseJSONArray over one printed scalar followed by a comma, or by the
   * closing bracket that ends the text: the element is appended, and the pass
   * goes on after the following character.
   */
  lemma ScanValue(s: string, i: nat, end: nat, acc: seq<Value>, v: Value)
    requires i > 0 && Scalar(v)
    requires TextAt(s, i, Serializer.RenderValue(v)) && end == i + |Serializer.RenderValue(v)|
    requires end < |s| && (s[end] == ',' || (s[end] == ']' && end + 1 == |s|))
    ensures Parser.ArrayScan(s, Parser.ArrayState(i, acc, false)) ==
      Parser.ArrayScan(s, Parser.ArrayState(end + 1, acc + [v], false))
  {
    if v.Number? {
      Delimiter(s[end]);
      NumberAtRendered(s, i, v.x);
      ArrayTakesNumber(s, i, end, acc, v.x);
    } else if v.Str? {
      ExtractAt(s, i, v.s);
      ArrayTakesString(s, i, end, acc, v.s);
    } else {
      LiteralAt(s, i, v);
      ArrayTakesLiteral(s, i, end, acc, v);
    }
  }

  /** a_parseJSONArray over the printed elements and the closing bracket that ends the text. */
  lemma {:induction false} ScanValues(s: string, i: nat, acc: seq<Value>, vs: seq<Value>)
    requires i > 0 && ScalarValues(vs)
    requires TextAt(s, i, Serializer.Join(Serializer.ValueTexts(vs)))
    requires var end := i + |Serializer.Join(Serializer.ValueTexts(vs))|;
      end + 1 == |s| && s[end] == ']'
    ensures Parser.ArrayScan(s, Parser.ArrayState(i, acc, false)) == acc + vs
    decreases vs, 1
  {
    if |vs| == 0 {
      assert acc + vs == acc;
    } else if |vs| == 1 {
      OneValue(vs);
      ScalarValuesTail(vs);
      ScanValue(s, i, |s| - 1, acc, vs[0]);
      assert acc + [vs[0]] == acc + vs;
    } else {
      ScanValueThenMore(s, i, acc, vs);
    }
  }

  /** One element, its comma, and the rest. */
  lemma {:induction false} ScanValueThenMore(s: string, i: nat, acc: seq<Value>, vs: seq<Value>)
    requires i > 0 && ScalarValues(vs) && |vs| > 1
    requires TextAt(s, i, Serializer.Join(Serializer.ValueTexts(vs)))
    requires var end := i + |Serializer.Join(Serializer.ValueTexts(vs))|;
      end + 1 == |s| && s[end] == ']'
    ensures Parser.ArrayScan(s, Parser.ArrayState(i, acc, false)) == acc + vs
    decreases vs, 0
  {
    var comma := i + |Serializer.RenderValue(vs[0])|;
    JoinSplit(s, i, Serializer.ValueTexts(vs));
    ValueTextsTail(vs);
    ScalarValuesTail(vs);
    ScanValue(s, i, comma, acc, vs[0]);
    ShiftedValues(acc, vs);
    ScanValues(s, comma + 1, acc + [vs[0]], vs[1..]);
  }

  /** Moving the first pending element onto the read ones keeps the whole. */
  lemma ShiftedValues(acc: seq<Value>, vs: seq<Value>)
    requires |vs| >= 1
    ensures (acc + [vs[0]]) + vs[1..] == acc + vs
  {
  }

  /** a_parseJSONArray's first turn on the opening bracket. */
  lemma ArrayOpening(s: string)
    requires |s| > 0 && s[0] == '['
    ensures Parser.ParseArrayF(s) == Parser.ArrayScan(s, Parser.ArrayState(1, [], false))
  {
    var st0 := Parser.ArrayState(0, [], true);
    var st1 := Parser.ArrayState(1, [], false);
    Parser.ArrayMoves(s, st0, st1);
    Parser.ArrayAdvances(s, st0, st1);
  }

  /**
   * a_parseJSONArray reads the text a_JSONArrayToString prints for an array of
   * scalars as the same elements, in the same order.
   */
  lemma ArrayRoundTrip(vs: seq<Value>)
    requires ScalarValues(vs)
    ensures Parser.ParseArrayF(Serializer.RenderArray(vs)) == vs
  {
    var s := Serializer.RenderArray(vs);
    var body := Serializer.Join(Serializer.ValueTexts(vs));
    Framed(s, '[', body, ']');
    ArrayOpening(s);
    assert [] + vs == vs;
    ScanValues(s, 1, [], vs);
  }
}

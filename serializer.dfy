/**
 * The serializer of libjson.h: o_JSONObjectToString, a_JSONArrayToString,
 * libjson_JSONElementToString and libjson_JSONPairToString. Output is compact:
 * no whitespace, members separated by ',', strings and keys printed between
 * quotes exactly as stored (nothing is escaped).
 */
module Serializer {
  import opened Values
  import Numbers
  import Objects
  import Arrays

  /**
   * The text printed for a key. A NULL key is passed to "%s", which C leaves
   * undefined; the GNU C library prints "(null)", and so does this model.
   */
  function KeyText(key: Option<string>): string
  {
    match key
    case Some(k) => k
    case None => "(null)"
  }

  /** libjson_JSONElementToString */
  function RenderValue(v: Value): (r: string)
    ensures |r| >= 1
    decreases v
  {
    match v
    case Null => "null"
    case Bool(b) => if b then "true" else "false"
    case Number(x) => Numbers.RenderNumber(x)
    case Str(s) => "\"" + s + "\""
    case Object(ps) => RenderObject(ps)
    case Array(vs) => RenderArray(vs)
  }

  /** libjson_JSONPairToString: the quoted key, a colon, the value. */
  function RenderPair(p: Pair): string
    decreases p
  {
    "\"" + KeyText(p.key) + "\":" + RenderValue(p.value)
  }

  /** o_JSONObjectToString on the object's pairs. */
  function RenderObject(ps: seq<Pair>): (r: string)
    ensures |r| >= 2 && r[0] == '{' && r[|r| - 1] == '}'
    decreases ps, 1
  {
    "{" + Join(PairTexts(ps)) + "}"
  }

  /** The printed pairs of an object, in order. */
  function PairTexts(ps: seq<Pair>): (r: seq<string>)
    ensures |r| == |ps|
    decreases ps, 0
  {
    seq(|ps|, i requires 0 <= i < |ps| => RenderPair(ps[i]))
  }

  /** The printed elements of an array, in order. */
  function ValueTexts(vs: seq<Value>): (r: seq<string>)
    ensures |r| == |vs|
    decreases vs, 0
  {
    seq(|vs|, i requires 0 <= i < |vs| => RenderValue(vs[i]))
  }

  /** a_JSONArrayToString on the array's elements. */
  function RenderArray(vs: seq<Value>): (r: string)
    ensures |r| >= 2 && r[0] == '[' && r[|r| - 1] == ']'
    decreases vs, 1
  {
    "[" + Join(ValueTexts(vs)) + "]"
  }

  /** Texts separated by commas. */
  function Join(parts: seq<string>): string
  {
    if |parts| == 0 then ""
    else if |parts| == 1 then parts[0]
    else parts[0] + "," + Join(parts[1..])
  }

  /**
   * What the serializer loops hold before their last member: the opening
   * bracket, then every text so far followed by a comma.
   */
  function Opened(open: string, parts: seq<string>): string
  {
    if |parts| == 0 then open else Opened(open, parts[..|parts| - 1]) + parts[|parts| - 1] + ","
  }

  /** The first text can be moved into the opening. */
  lemma {:induction false} OpenedCons(open: string, x: string, ys: seq<string>)
    ensures Opened(open, [x] + ys) == Opened(open + x + ",", ys)
    decreases |ys|
  {
    if |ys| == 0 {
      assert ([x] + ys)[..0] == [];
    } else {
      var front := ys[..|ys| - 1];
      assert ([x] + ys)[..|ys|] == [x] + front;
      OpenedCons(open, x, front);
    }
  }

  /** The joined texts after the opening are the comma-terminated ones before the last, then the last. */
  lemma {:induction false} JoinIsOpened(open: string, parts: seq<string>)
    requires |parts| >= 1
    ensures Opened(open, parts[..|parts| - 1]) + parts[|parts| - 1] == open + Join(parts)
    decreases |parts|
  {
    if |parts| > 1 {
      var tail := parts[1..];
      var open' := open + parts[0] + ",";
      JoinIsOpened(open', tail);
      assert parts[..|parts| - 1] == [parts[0]] + tail[..|tail| - 1];
      OpenedCons(open, parts[0], tail[..|tail| - 1]);
      assert open' + Join(tail) == open + (parts[0] + "," + Join(tail));
    } else {
      assert parts[..0] == [];
    }
  }

  /** A turn of the serializer loops before the last member. */
  lemma OpenedStep(open: string, parts: seq<string>, i: nat)
    requires i < |parts|
    ensures Opened(open, parts[..i + 1]) == Opened(open, parts[..i]) + parts[i] + ","
  {
    assert parts[..i + 1][..i] == parts[..i];
  }

  /**
   * o_JSONObjectToString as written: open with "{" ("{}" when empty), then append
   * each pair followed by "," or, after the last one, "}".
   */
  method ObjectToString(json: Objects.JsonObject) returns (str: string)
    requires json.Valid()
    ensures str == RenderObject(json.Pairs())
  {
    ghost var ps := json.Pairs();
    ghost var parts := PairTexts(ps);
    var n := json.numberOfElements;
    str := "{";
    if n == 0 {
      str := str + "}";
    }
    var i := 0;
    while i < n
      invariant 0 <= i <= n
      invariant i < n ==> str == Opened("{", parts[..i])
      invariant i == n && n > 0 ==> str == "{" + Join(parts) + "}"
      invariant n == 0 ==> str == "{}"
    {
      var pair := RenderPair(json.elements[i]);
      assert parts[i] == RenderPair(json.elements[i]);
      if i < n - 1 {
        OpenedStep("{", parts, i);
        str := str + pair + ",";
      } else {
        JoinIsOpened("{", parts);
        str := str + pair + "}";
      }
      i := i + 1;
    }
    assert n == 0 ==> Join(parts) == "";
  }

  /**
   * a_JSONArrayToString as written: open with "[" ("[]" when empty), then append
   * each element followed by "," or, after the last one, "]".
   */
  method ArrayToString(json: Arrays.JsonArray) returns (str: string)
    requires json.Valid()
    ensures str == RenderArray(json.Contents())
  {
    ghost var vs := json.Contents();
    ghost var parts := ValueTexts(vs);
    var n := json.numberOfElements;
    str := "[";
    if n == 0 {
      str := str + "]";
    }
    var i := 0;
    while i < n
      invariant 0 <= i <= n
      invariant i < n ==> str == Opened("[", parts[..i])
      invariant i == n && n > 0 ==> str == "[" + Join(parts) + "]"
      invariant n == 0 ==> str == "[]"
    {
      var elem := RenderValue(json.elements[i]);
      assert parts[i] == RenderValue(json.elements[i]);
      if i < n - 1 {
        OpenedStep("[", parts, i);
        str := str + elem + ",";
      } else {
        JoinIsOpened("[", parts);
        str := str + elem + "]";
      }
      i := i + 1;
    }
    assert n == 0 ==> Join(parts) == "";
  }
}

/**
 * The JSON value of libjson.h: the tagged JSONElement, the key/value pair of an
 * object, and the views the typed accessors take of one element.
 */
module Values {

  datatype Option<+T> = None | Some(value: T)

  /** A JSONPair. A NULL key is `None`. */
  datatype Pair = Pair(key: Option<string>, value: Value)

  /**
   * A JSONElement. The C struct carries every payload field at once; the setters
   * start from the empty element and fill in only the field of the tag, so an
   * inactive field always holds the empty element's value (see the As* views).
   * A number is held as an exact real (the C type is long double).
   */
  datatype Value =
    | Null
    | Bool(b: bool)
    | Number(x: real)
    | Str(s: string)
    | Object(pairs: seq<Pair>)
    | Array(elems: seq<Value>)

  /** libjson_emptyJSONElement: the null element, with every payload at its default. */
  function EmptyElement(): (e: Value)
    ensures e.Null?
    ensures AsObject(e) == [] && AsArray(e) == [] && !AsBoolean(e)
    ensures AsDouble(e) == 0.0 && AsInt(e) == 0 && AsString(e) == None
  {
    Null
  }

  /** The `object` field of an element: empty unless the element is an object. */
  function AsObject(e: Value): (r: seq<Pair>)
    ensures r != [] ==> e.Object?
  {
    if e.Object? then e.pairs else []
  }

  /** The `array` field of an element: empty unless the element is an array. */
  function AsArray(e: Value): (r: seq<Value>)
    ensures r != [] ==> e.Array?
  {
    if e.Array? then e.elems else []
  }

  /** The `boolean` field of an element: false unless the element is `true`. */
  function AsBoolean(e: Value): (r: bool)
    ensures r <==> e == Bool(true)
  {
    e.Bool? && e.b
  }

  /** The `number` field of an element: 0 unless the element is a number. */
  function AsDouble(e: Value): (r: real)
    ensures r != 0.0 ==> e.Number?
  {
    if e.Number? then e.x else 0.0
  }

  /** The `(long)` cast of the `number` field (the width of `long` is not modelled). */
  function AsInt(e: Value): (r: int)
    ensures r != 0 ==> e.Number?
  {
    Trunc(AsDouble(e))
  }

  /** The `string` field of an element: NULL unless the element is a string. */
  function AsString(e: Value): (r: Option<string>)
    ensures r.Some? <==> e.Str?
  {
    if e.Str? then Some(e.s) else None
  }

  /** A C cast of a floating value to an integer: truncation toward zero. */
  function Trunc(x: real): (t: int)
    ensures 0.0 <= x ==> t as real <= x < t as real + 1.0
    ensures x < 0.0 ==> t as real - 1.0 < x <= t as real
  {
    if x >= 0.0 then x.Floor else -((-x).Floor)
  }

  /** The "is an integer" test of o_isInt/a_isInt: a number equal to its libjson_floor. */
  predicate IsIntegral(e: Value)
  {
    e.Number? && e.x == Trunc(e.x) as real
  }

  lemma {:induction false} IntegralNumbers(e: Value)
    ensures IsIntegral(e) <==> e.Number? && e.x == e.x.Floor as real
  {
    if e.Number? && e.x < 0.0 && e.x == e.x.Floor as real {
      assert (-e.x).Floor == -e.x.Floor;
    }
  }
}

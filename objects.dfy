/**
 * JSONObject: an ordered sequence of key/value pairs. The functions here take the
 * object by value (the C accessors take the struct by value); the class
 * `JsonObject` is the struct behind a `JSONObject*`, which the mutators update in
 * place.
 */
module Objects {
  import opened Values
  import opened Text
  import Buffers

  /*------------------------------------------------------------------------
   * Key search, shared by o_has, o_getJSONElement and o_remove
   *------------------------------------------------------------------------*/

  /** The index of the first pair at or after `from` whose key matches `key`. */
  function FindKeyFrom(json: seq<Pair>, key: Option<string>, from: nat): (r: Option<nat>)
    decreases |json| - from
    ensures r.Some? ==> from <= r.value < |json| && KeyMatches(key, json[r.value].key)
    ensures r.Some? ==> forall j :: from <= j < r.value ==> !KeyMatches(key, json[j].key)
    ensures r.None? ==> forall j :: from <= j < |json| ==> !KeyMatches(key, json[j].key)
  {
    if from >= |json| then None
    else if KeyMatches(key, json[from].key) then Some(from)
    else FindKeyFrom(json, key, from + 1)
  }

  /** The index of the first pair whose key matches `key`, if any. */
  function FindKey(json: seq<Pair>, key: Option<string>): Option<nat>
  {
    FindKeyFrom(json, key, 0)
  }

  /** At most one pair carries any given (non-NULL) key. */
  ghost predicate UniqueKeys(json: seq<Pair>)
  {
    forall i, j :: 0 <= i < j < |json| ==> !KeyMatches(json[i].key, json[j].key)
  }

  /** The keys of an object, NULL keys excluded. */
  ghost function KeySet(json: seq<Pair>): set<string>
  {
    set i | 0 <= i < |json| && json[i].key.Some? :: json[i].key.value
  }

  /** o_has: some pair carries `key`; a NULL key is never present. */
  predicate HasKey(json: seq<Pair>, key: Option<string>)
  {
    FindKey(json, key).Some?
  }

  lemma HasKeyInKeySet(json: seq<Pair>, key: Option<string>)
    ensures HasKey(json, key) <==> key.Some? && key.value in KeySet(json)
  {
    if key.Some? && key.value in KeySet(json) {
      var i :| 0 <= i < |json| && json[i].key.Some? && json[i].key.value == key.value;
      assert KeyMatches(key, json[i].key);
    }
  }

  /**
   * o_getJSONElement: the value of the first pair whose key matches, or the empty
   * (null) element when no pair does.
   */
  function Lookup(json: seq<Pair>, key: Option<string>): (r: Value)
    ensures !HasKey(json, key) ==> r == EmptyElement()
    ensures UniqueKeys(json) ==>
      forall i :: 0 <= i < |json| && KeyMatches(key, json[i].key) ==> r == json[i].value
  {
    match FindKey(json, key)
    case Some(i) => json[i].value
    case None => EmptyElement()
  }

  /*------------------------------------------------------------------------
   * Mutations as functions on the pair sequence
   *------------------------------------------------------------------------*/

  /** o_remove: drop the first pair carrying `key`, shifting the later pairs left. */
  function RemoveKey(json: seq<Pair>, key: Option<string>): seq<Pair>
  {
    match FindKey(json, key)
    case Some(i) => json[..i] + json[i + 1..]
    case None => json
  }

  /** o_setJSONElement: remove the key, then append the new pair at the end. */
  function SetKey(json: seq<Pair>, key: Option<string>, v: Value): seq<Pair>
  {
    RemoveKey(json, key) + [Pair(key, v)]
  }

  lemma {:induction false} RemoveKeyShape(json: seq<Pair>, key: Option<string>)
    ensures HasKey(json, key) ==> |RemoveKey(json, key)| == |json| - 1
    ensures !HasKey(json, key) ==> RemoveKey(json, key) == json
    ensures UniqueKeys(json) ==> UniqueKeys(RemoveKey(json, key))
    ensures UniqueKeys(json) ==> !HasKey(RemoveKey(json, key), key)
    ensures UniqueKeys(json) ==>
      KeySet(RemoveKey(json, key)) == (if key.Some? then KeySet(json) - {key.value} else KeySet(json))
  {
    var r := RemoveKey(json, key);
    match FindKey(json, key)
    case None =>
      if key.Some? {
        assert key.value !in KeySet(json) by { HasKeyInKeySet(json, key); }
      }
    case Some(i) =>
      assert forall j :: 0 <= j < i ==> r[j] == json[j];
      assert forall j :: i <= j < |r| ==> r[j] == json[j + 1];
      if UniqueKeys(json) {
        forall a, b | 0 <= a < b < |r|
          ensures !KeyMatches(r[a].key, r[b].key)
        {
          var a', b' := if a < i then a else a + 1, if b < i then b else b + 1;
          assert r[a] == json[a'] && r[b] == json[b'];
        }
        forall j | 0 <= j < |r|
          ensures !KeyMatches(key, r[j].key)
        {
          var j' := if j < i then j else j + 1;
          assert r[j] == json[j'];
          assert j' != i;
        }
        assert FindKey(r, key).None?;
        var removed := json[i].key.value;
        assert key.value == removed;
        forall k | k in KeySet(r)
          ensures k in KeySet(json) && k != removed
        {
          var j :| 0 <= j < |r| && r[j].key.Some? && r[j].key.value == k;
          var j' := if j < i then j else j + 1;
          assert r[j] == json[j'];
        }
        forall k | k in KeySet(json) && k != removed
          ensures k in KeySet(r)
        {
          var j :| 0 <= j < |json| && json[j].key.Some? && json[j].key.value == k;
          assert j != i;
          var j' := if j < i then j else j - 1;
          assert r[j'] == json[j];
        }
      }
  }

  /**
   * The properties of o_set* on an object whose keys are unique: the key now occurs
   * exactly once, as the last pair, a lookup of it gives the new value, the other
   * pairs keep their relative order, and the keys stay unique.
   */
  lemma {:induction false} SetKeyProperties(json: seq<Pair>, key: Option<string>, v: Value)
    requires UniqueKeys(json)
    ensures var r := SetKey(json, key, v);
      && r[|r| - 1] == Pair(key, v)
      && r[..|r| - 1] == RemoveKey(json, key)
      && |r| == (if HasKey(json, key) then |json| else |json| + 1)
      && (forall j :: 0 <= j < |r| - 1 ==> !KeyMatches(key, r[j].key))
      && UniqueKeys(r)
      && (key.Some? ==> Lookup(r, key) == v && HasKey(r, key))
      && KeySet(r) == KeySet(json) + (if key.Some? then {key.value} else {})
  {
    var r := SetKey(json, key, v);
    var rest := RemoveKey(json, key);
    RemoveKeyShape(json, key);
    assert r[..|r| - 1] == rest;
    forall j | 0 <= j < |r| - 1
      ensures !KeyMatches(key, r[j].key)
    {
      assert r[j] == rest[j];
    }
    forall a, b | 0 <= a < b < |r|
      ensures !KeyMatches(r[a].key, r[b].key)
    {
      if b < |r| - 1 {
        assert r[a] == rest[a] && r[b] == rest[b];
      } else {
        assert !KeyMatches(key, r[a].key);
      }
    }
    if key.Some? {
      assert KeyMatches(key, r[|r| - 1].key);
      assert FindKey(r, key) == Some(|r| - 1);
    }
    assert KeySet(r) == KeySet(rest) + (if key.Some? then {key.value} else {}) by {
      forall k | k in KeySet(r)
        ensures k in KeySet(rest) + (if key.Some? then {key.value} else {})
      {
        var j :| 0 <= j < |r| && r[j].key.Some? && r[j].key.value == k;
        if j < |r| - 1 { assert r[j] == rest[j]; }
      }
      forall k | k in KeySet(rest)
        ensures k in KeySet(r)
      {
        var j :| 0 <= j < |rest| && rest[j].key.Some? && rest[j].key.value == k;
        assert r[j] == rest[j];
      }
      if key.Some? {
        assert r[|r| - 1].key.value == key.value;
      }
    }
  }

  /** A set under one key does not change what a lookup of any other key finds. */
  lemma {:induction false} SetKeyOtherKeys(json: seq<Pair>, key: Option<string>, v: Value, other: Option<string>)
    requires !KeyMatches(key, other)
    ensures Lookup(SetKey(json, key, v), other) == Lookup(json, other)
    ensures HasKey(SetKey(json, key, v), other) == HasKey(json, other)
  {
    var r := SetKey(json, key, v);
    var rest := RemoveKey(json, key);
    assert r == rest + [Pair(key, v)];
    assert !KeyMatches(other, Pair(key, v).key);
    if FindKey(json, key).None? {
      assert rest == json;
      if FindKey(json, other).Some? {
        var i := FindKey(json, other).value;
        assert r[i] == json[i];
        assert FindKey(r, other) == Some(i);
      }
    } else {
      var i := FindKey(json, key).value;
      assert !KeyMatches(other, json[i].key);
      if FindKey(json, other).None? {
        forall j | 0 <= j < |r|
          ensures !KeyMatches(other, r[j].key)
        {
          if j < |r| - 1 {
            var j' := if j < i then j else j + 1;
            assert r[j] == json[j'];
          }
        }
      } else {
        var f := FindKey(json, other).value;
        var f' := if f < i then f else f - 1;
        assert f != i;
        assert r[f'] == json[f];
        forall j | 0 <= j < f'
          ensures !KeyMatches(other, r[j].key)
        {
          var j' := if j < i then j else j + 1;
          assert r[j] == json[j'];
        }
        assert FindKey(r, other) == Some(f');
      }
    }
  }

  /*------------------------------------------------------------------------
   * Type checks and typed accessors (o_is*, o_get*, o_opt*)
   *------------------------------------------------------------------------*/

  function IsObject(json: seq<Pair>, key: Option<string>): (r: bool)
    ensures r ==> HasKey(json, key)
  {
    Lookup(json, key).Object?
  }

  function IsArray(json: seq<Pair>, key: Option<string>): (r: bool)
    ensures r ==> HasKey(json, key)
  {
    Lookup(json, key).Array?
  }

  function IsBoolean(json: seq<Pair>, key: Option<string>): (r: bool)
    ensures r ==> HasKey(json, key)
  {
    Lookup(json, key).Bool?
  }

  function IsInt(json: seq<Pair>, key: Option<string>): (r: bool)
    ensures r ==> IsDouble(json, key) && HasKey(json, key)
  {
    IsIntegral(Lookup(json, key))
  }

  function IsDouble(json: seq<Pair>, key: Option<string>): (r: bool)
    ensures r ==> HasKey(json, key)
  {
    Lookup(json, key).Number?
  }

  function IsString(json: seq<Pair>, key: Option<string>): (r: bool)
    ensures r ==> HasKey(json, key)
  {
    Lookup(json, key).Str?
  }

  /** True for a stored null and for a missing key alike. */
  function IsNull(json: seq<Pair>, key: Option<string>): (r: bool)
    ensures !HasKey(json, key) ==> r
    ensures r <==> !IsObject(json, key) && !IsArray(json, key) && !IsBoolean(json, key)
                   && !IsDouble(json, key) && !IsString(json, key)
  {
    Lookup(json, key).Null?
  }

  function GetObject(json: seq<Pair>, key: Option<string>): (r: seq<Pair>)
    ensures r != [] ==> IsObject(json, key)
  {
    AsObject(Lookup(json, key))
  }

  function GetArray(json: seq<Pair>, key: Option<string>): (r: seq<Value>)
    ensures r != [] ==> IsArray(json, key)
  {
    AsArray(Lookup(json, key))
  }

  function GetBoolean(json: seq<Pair>, key: Option<string>): (r: bool)
    ensures r ==> IsBoolean(json, key)
  {
    AsBoolean(Lookup(json, key))
  }

  function GetInt(json: seq<Pair>, key: Option<string>): (r: int)
    ensures r != 0 ==> IsDouble(json, key)
  {
    AsInt(Lookup(json, key))
  }

  function GetDouble(json: seq<Pair>, key: Option<string>): (r: real)
    ensures r != 0.0 ==> IsDouble(json, key)
  {
    AsDouble(Lookup(json, key))
  }

  function GetString(json: seq<Pair>, key: Option<string>): (r: Option<string>)
    ensures r.Some? <==> IsString(json, key)
  {
    AsString(Lookup(json, key))
  }

  function OptObject(json: seq<Pair>, key: Option<string>, dflt: seq<Pair>): (r: seq<Pair>)
    ensures IsNull(json, key) ==> r == dflt
    ensures !IsNull(json, key) ==> r == GetObject(json, key)
  {
    var element := Lookup(json, key);
    if element.Null? then dflt else AsObject(element)
  }

  function OptArray(json: seq<Pair>, key: Option<string>, dflt: seq<Value>): (r: seq<Value>)
    ensures IsNull(json, key) ==> r == dflt
    ensures !IsNull(json, key) ==> r == GetArray(json, key)
  {
    var element := Lookup(json, key);
    if element.Null? then dflt else AsArray(element)
  }

  function OptBoolean(json: seq<Pair>, key: Option<string>, dflt: bool): (r: bool)
    ensures IsNull(json, key) ==> r == dflt
    ensures !IsNull(json, key) ==> r == GetBoolean(json, key)
  {
    var element := Lookup(json, key);
    if element.Null? then dflt else AsBoolean(element)
  }

  function OptInt(json: seq<Pair>, key: Option<string>, dflt: int): (r: int)
    ensures IsNull(json, key) ==> r == dflt
    ensures !IsNull(json, key) ==> r == GetInt(json, key)
  {
    var element := Lookup(json, key);
    if element.Null? then dflt else AsInt(element)
  }

  function OptDouble(json: seq<Pair>, key: Option<string>, dflt: real): (r: real)
    ensures IsNull(json, key) ==> r == dflt
    ensures !IsNull(json, key) ==> r == GetDouble(json, key)
  {
    var element := Lookup(json, key);
    if element.Null? then dflt else AsDouble(element)
  }

  function OptString(json: seq<Pair>, key: Option<string>, dflt: Option<string>): (r: Option<string>)
    ensures IsNull(json, key) ==> r == dflt
    ensures !IsNull(json, key) ==> r == GetString(json, key)
  {
    var element := Lookup(json, key);
    if element.Null? then dflt else AsString(element)
  }

  /**
   * A missing key never faults: every get* gives the empty element's field
   * (empty object, empty array, false, 0, NULL) and every opt* gives its default.
   */
  lemma MissingKey(json: seq<Pair>, key: Option<string>,
                   o: seq<Pair>, a: seq<Value>, b: bool, n: int, d: real, s: Option<string>)
    requires !HasKey(json, key)
    ensures IsNull(json, key)
    ensures GetObject(json, key) == [] && GetArray(json, key) == [] && !GetBoolean(json, key)
    ensures GetInt(json, key) == 0 && GetDouble(json, key) == 0.0 && GetString(json, key) == None
    ensures OptObject(json, key, o) == o && OptArray(json, key, a) == a && OptBoolean(json, key, b) == b
    ensures OptInt(json, key, n) == n && OptDouble(json, key, d) == d && OptString(json, key, s) == s
  {
  }

  /** A get right after a set of the same key returns the value just set. */
  lemma {:induction false} GetAfterSet(json: seq<Pair>, key: string, v: Value)
    requires UniqueKeys(json)
    ensures Lookup(SetKey(json, Some(key), v), Some(key)) == v
    ensures v.Bool? ==> GetBoolean(SetKey(json, Some(key), v), Some(key)) == v.b
    ensures v.Number? ==> GetDouble(SetKey(json, Some(key), v), Some(key)) == v.x
    ensures v.Number? ==> GetInt(SetKey(json, Some(key), v), Some(key)) == Trunc(v.x)
    ensures v.Str? ==> GetString(SetKey(json, Some(key), v), Some(key)) == Some(v.s)
    ensures v.Object? ==> GetObject(SetKey(json, Some(key), v), Some(key)) == v.pairs
    ensures v.Array? ==> GetArray(SetKey(json, Some(key), v), Some(key)) == v.elems
  {
    SetKeyProperties(json, Some(key), v);
  }

  /*------------------------------------------------------------------------
   * The struct behind a JSONObject*
   *------------------------------------------------------------------------*/

  class JsonObject {
    var elements: array<Pair>
    var numberOfElements: nat

    /** The C code reallocates to the exact count on every change. */
    ghost predicate Valid()
      reads this
    {
      elements.Length == numberOfElements
    }

    /** The pairs, in storage order. */
    function Pairs(): seq<Pair>
      reads this, elements
    {
      elements[..]
    }

    /** o_emptyJSONObject */
    constructor ()
      ensures Valid() && Pairs() == [] && fresh(elements)
    {
      elements := new Pair[0];
      numberOfElements := 0;
    }

    /** o_destroyJSONObject: the storage is released and the count becomes 0. */
    method Destroy()
      modifies this
      ensures Valid() && Pairs() == [] && fresh(elements)
    {
      elements := new Pair[0];
      numberOfElements := 0;
    }

    /** o_has: a linear scan comparing keys with libjson_strcmp. */
    method Has(key: Option<string>) returns (has: bool)
      requires Valid()
      ensures has == HasKey(Pairs(), key)
    {
      has := false;
      var i := 0;
      while i < numberOfElements
        invariant 0 <= i <= numberOfElements
        invariant forall j :: 0 <= j < i ==> !KeyMatches(key, elements[j].key)
      {
        var temp := elements[i];
        var same := StrCmp(key, temp.key);
        if same {
          has := true;
          break;
        }
        i := i + 1;
      }
    }

    /** o_getJSONElement: the value of the first matching pair, or the empty element. */
    method GetElement(key: Option<string>) returns (element: Value)
      requires Valid()
      ensures element == Lookup(Pairs(), key)
    {
      element := EmptyElement();
      var i := 0;
      while i < numberOfElements
        invariant 0 <= i <= numberOfElements
        invariant forall j :: 0 <= j < i ==> !KeyMatches(key, elements[j].key)
      {
        var temp := elements[i];
        var same := StrCmp(key, temp.key);
        if same {
          assert FindKey(Pairs(), key) == Some(i);
          element := temp.value;
          break;
        }
        i := i + 1;
      }
    }

    /**
     * o_remove: find the first pair with the key, shift every later pair one slot
     * left and shrink the storage; an absent key leaves the object unchanged.
     */
    method Remove(key: Option<string>)
      requires Valid()
      modifies this, elements
      ensures Valid()
      ensures Pairs() == RemoveKey(old(Pairs()), key)
      ensures elements == old(elements) || fresh(elements)
    {
      ghost var before := elements[..];
      var index := 0;
      var found := false;
      var i := 0;
      while i < numberOfElements
        invariant 0 <= i <= numberOfElements
        invariant Valid() && elements == old(elements) && elements[..] == before
        invariant forall j :: 0 <= j < i ==> !KeyMatches(key, elements[j].key)
      {
        var temp := elements[i];
        var same := StrCmp(key, temp.key);
        if same {
          index := i;
          found := true;
          break;
        }
        i := i + 1;
      }
      if found {
        assert FindKey(before, key) == Some(index);
        Buffers.ShiftDown(elements, index, numberOfElements);
        ghost var shifted := elements[..numberOfElements - 1];
        assert shifted == RemoveKey(before, key) by {
          assert before[index + 1..numberOfElements] == before[index + 1..];
        }
        numberOfElements := numberOfElements - 1;
        elements := Buffers.Realloc(elements, numberOfElements, Pair(None, Null));
        assert elements[..] == shifted;
      } else {
        assert FindKey(before, key).None?;
      }
    }

    /** o_setJSONElement: remove the key, grow the storage by one and append the pair. */
    method SetElement(key: Option<string>, value: Value)
      requires Valid()
      modifies this, elements
      ensures Valid() && fresh(elements)
      ensures Pairs() == SetKey(old(Pairs()), key, value)
    {
      Remove(key);
      var tmp := Buffers.Realloc(elements, numberOfElements + 1, Pair(None, Null));
      elements := tmp;
      elements[numberOfElements] := Pair(key, value);
      numberOfElements := numberOfElements + 1;
    }

    /** o_setJSONObject: the object is moved in. */
    method SetObject(key: Option<string>, value: seq<Pair>)
      requires Valid()
      modifies this, elements
      ensures Valid() && fresh(elements)
      ensures Pairs() == SetKey(old(Pairs()), key, Object(value))
    {
      SetElement(key, Object(value));
    }

    /** o_setJSONArray: the array is moved in. */
    method SetArray(key: Option<string>, value: seq<Value>)
      requires Valid()
      modifies this, elements
      ensures Valid() && fresh(elements)
      ensures Pairs() == SetKey(old(Pairs()), key, Array(value))
    {
      SetElement(key, Array(value));
    }

    /** o_setBoolean */
    method SetBoolean(key: Option<string>, value: bool)
      requires Valid()
      modifies this, elements
      ensures Valid() && fresh(elements)
      ensures Pairs() == SetKey(old(Pairs()), key, Bool(value))
    {
      SetElement(key, Bool(value));
    }

    /** o_setInt: the integer is converted to a floating value. */
    method SetInt(key: Option<string>, value: int)
      requires Valid()
      modifies this, elements
      ensures Valid() && fresh(elements)
      ensures Pairs() == SetKey(old(Pairs()), key, Number(value as real))
    {
      SetElement(key, Number(value as real));
    }

    /** o_setDouble */
    method SetDouble(key: Option<string>, value: real)
      requires Valid()
      modifies this, elements
      ensures Valid() && fresh(elements)
      ensures Pairs() == SetKey(old(Pairs()), key, Number(value))
    {
      SetElement(key, Number(value));
    }

    /** o_setString: the text is copied (libjson_strcpy), which for values is the text itself. */
    method SetString(key: Option<string>, value: string)
      requires Valid()
      modifies this, elements
      ensures Valid() && fresh(elements)
      ensures Pairs() == SetKey(old(Pairs()), key, Str(value))
    {
      SetElement(key, Str(value));
    }

    /** o_setNull */
    method SetNull(key: Option<string>)
      requires Valid()
      modifies this, elements
      ensures Valid() && fresh(elements)
      ensures Pairs() == SetKey(old(Pairs()), key, EmptyElement())
    {
      SetElement(key, EmptyElement());
    }
  }
}

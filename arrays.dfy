/**
 * JSONArray: an ordered sequence of values addressed by position. The functions
 * here take the array by value; the class `JsonArray` is the struct behind a
 * `JSONArray*`, which the mutators update in place.
 */
module Arrays {
  import opened Values
  import Buffers

  /*------------------------------------------------------------------------
   * Positions and mutations as functions on the value sequence
   *------------------------------------------------------------------------*/

  /** The insertion point of a_setJSONElement: below 0 becomes 0, above the length becomes the length. */
  function Clamp(index: int, n: nat): nat
  {
    if index < 0 then 0 else if index > n then n else index
  }

  function InsertAt(json: seq<Value>, k: nat, v: Value): seq<Value>
    requires k <= |json|
  {
    json[..k] + [v] + json[k..]
  }

  /** a_setJSONElement: insert at the clamped index, later elements move up one slot. */
  function ArraySet(json: seq<Value>, index: int, v: Value): seq<Value>
  {
    InsertAt(json, Clamp(index, |json|), v)
  }

  /** a_remove: later elements move down one slot. */
  function RemoveAt(json: seq<Value>, k: nat): seq<Value>
    requires k < |json|
  {
    json[..k] + json[k + 1..]
  }

  /**
   * The slot a_remove drops from a non-empty array: the index itself, or the last
   * slot when the index is past the end (the shift loop does not run, and the
   * count still goes down by one).
   */
  function RemovedSlot(index: nat, n: nat): (k: nat)
    requires n >= 1
    ensures k < n
    ensures index < n ==> k == index
    ensures index >= n ==> k == n - 1
  {
    if index < n then index else n - 1
  }

  /** a_remove past the end drops the last element and keeps all the others. */
  lemma RemovePastEnd(json: seq<Value>, index: nat)
    requires |json| >= 1 && index >= |json|
    ensures RemoveAt(json, RemovedSlot(index, |json|)) == json[..|json| - 1]
  {
  }

  /** a_getJSONElement: the element at the index, or the empty (null) element outside [0, n). */
  function Get(json: seq<Value>, index: int): Value
  {
    if index < 0 || index >= |json| then EmptyElement() else json[index]
  }

  /**
   * The clamped insert: negative indices prepend, indices past the end append, the
   * length grows by one, the new value sits at the clamped index, earlier elements
   * stay, later ones shift up by one.
   */
  lemma ArraySetProperties(json: seq<Value>, index: int, v: Value)
    ensures var r := ArraySet(json, index, v);
      var k := Clamp(index, |json|);
      && (index <= 0 ==> k == 0 && r == [v] + json)
      && (index >= |json| ==> k == |json| && r == json + [v])
      && |r| == |json| + 1
      && r[k] == v
      && (forall j :: 0 <= j < k ==> r[j] == json[j])
      && (forall j :: k <= j < |json| ==> r[j + 1] == json[j])
  {
    var k := Clamp(index, |json|);
    if index <= 0 {
      assert json[..k] == [] && json[k..] == json;
    }
    if index >= |json| {
      assert json[..k] == json && json[k..] == [];
    }
  }

  /** The storage after growing, shifting up from `k` and storing at `k` holds the insert. */
  lemma Inserted(before: seq<Value>, grown: seq<Value>, shifted: seq<Value>, k: nat, v: Value)
    requires k <= |before| && |grown| == |before| + 1 == |shifted|
    requires grown[..|before|] == before
    requires shifted[..k + 1] == grown[..k + 1] && shifted[k + 1..] == grown[k..|before|]
    ensures shifted[k := v] == InsertAt(before, k, v)
  {
    var r := shifted[k := v];
    assert r[..k] == before[..k] by {
      assert shifted[..k + 1][..k] == grown[..|before|][..k];
    }
    assert r[k + 1..] == before[k..] by {
      assert grown[k..|before|] == grown[..|before|][k..];
    }
    assert r == r[..k] + [r[k]] + r[k + 1..];
  }

  /** Removing what was just inserted gives back the original array. */
  lemma {:induction false} RemoveUndoesSet(json: seq<Value>, index: int, v: Value)
    ensures RemoveAt(ArraySet(json, index, v), Clamp(index, |json|)) == json
    ensures Get(ArraySet(json, index, v), Clamp(index, |json|)) == v
  {
    var k := Clamp(index, |json|);
    var r := ArraySet(json, index, v);
    assert r[..k] == json[..k];
    assert r[k + 1..] == json[k..];
    assert json == json[..k] + json[k..];
  }

  /** a_remove on a valid index: one shorter, earlier elements stay, later ones move down one. */
  lemma RemoveAtProperties(json: seq<Value>, k: nat)
    requires k < |json|
    ensures var r := RemoveAt(json, k);
      && |r| == |json| - 1
      && (forall j :: 0 <= j < k ==> r[j] == json[j])
      && (forall j :: k <= j < |r| ==> r[j] == json[j + 1])
  {
  }

  /*------------------------------------------------------------------------
   * Type checks and typed accessors (a_is*, a_get*, a_opt*)
   *------------------------------------------------------------------------*/

  function IsObject(json: seq<Value>, index: int): (r: bool)
    ensures r ==> 0 <= index < |json|
  {
    Get(json, index).Object?
  }

  function IsArray(json: seq<Value>, index: int): (r: bool)
    ensures r ==> 0 <= index < |json|
  {
    Get(json, index).Array?
  }

  function IsBoolean(json: seq<Value>, index: int): (r: bool)
    ensures r ==> 0 <= index < |json|
  {
    Get(json, index).Bool?
  }

  function IsInt(json: seq<Value>, index: int): (r: bool)
    ensures r ==> IsDouble(json, index)
  {
    IsIntegral(Get(json, index))
  }

  function IsDouble(json: seq<Value>, index: int): (r: bool)
    ensures r ==> 0 <= index < |json|
  {
    Get(json, index).Number?
  }

  function IsString(json: seq<Value>, index: int): (r: bool)
    ensures r ==> 0 <= index < |json|
  {
    Get(json, index).Str?
  }

  /** True for a stored null and for an index outside the array alike. */
  function IsNull(json: seq<Value>, index: int): (r: bool)
    ensures !(0 <= index < |json|) ==> r
    ensures r <==> !IsObject(json, index) && !IsArray(json, index) && !IsBoolean(json, index)
                   && !IsDouble(json, index) && !IsString(json, index)
  {
    Get(json, index).Null?
  }

  function GetObject(json: seq<Value>, index: int): (r: seq<Pair>)
    ensures r != [] ==> IsObject(json, index)
  {
    AsObject(Get(json, index))
  }

  function GetArray(json: seq<Value>, index: int): (r: seq<Value>)
    ensures r != [] ==> IsArray(json, index)
  {
    AsArray(Get(json, index))
  }

  function GetBoolean(json: seq<Value>, index: int): (r: bool)
    ensures r ==> IsBoolean(json, index)
  {
    AsBoolean(Get(json, index))
  }

  function GetInt(json: seq<Value>, index: int): (r: int)
    ensures r != 0 ==> IsDouble(json, index)
  {
    AsInt(Get(json, index))
  }

  function GetDouble(json: seq<Value>, index: int): (r: real)
    ensures r != 0.0 ==> IsDouble(json, index)
  {
    AsDouble(Get(json, index))
  }

  function GetString(json: seq<Value>, index: int): (r: Option<string>)
    ensures r.Some? <==> IsString(json, index)
  {
    AsString(Get(json, index))
  }

  function OptObject(json: seq<Value>, index: int, dflt: seq<Pair>): (r: seq<Pair>)
    ensures IsNull(json, index) ==> r == dflt
    ensures !IsNull(json, index) ==> r == GetObject(json, index)
  {
    var element := Get(json, index);
    if element.Null? then dflt else AsObject(element)
  }

  function OptArray(json: seq<Value>, index: int, dflt: seq<Value>): (r: seq<Value>)
    ensures IsNull(json, index) ==> r == dflt
    ensures !IsNull(json, index) ==> r == GetArray(json, index)
  {
    var element := Get(json, index);
    if element.Null? then dflt else AsArray(element)
  }

  function OptBoolean(json: seq<Value>, index: int, dflt: bool): (r: bool)
    ensures IsNull(json, index) ==> r == dflt
    ensures !IsNull(json, index) ==> r == GetBoolean(json, index)
  {
    var element := Get(json, index);
    if element.Null? then dflt else AsBoolean(element)
  }

  function OptInt(json: seq<Value>, index: int, dflt: int): (r: int)
    ensures IsNull(json, index) ==> r == dflt
    ensures !IsNull(json, index) ==> r == GetInt(json, index)
  {
    var element := Get(json, index);
    if element.Null? then dflt else AsInt(element)
  }

  function OptDouble(json: seq<Value>, index: int, dflt: real): (r: real)
    ensures IsNull(json, index) ==> r == dflt
    ensures !IsNull(json, index) ==> r == GetDouble(json, index)
  {
    var element := Get(json, index);
    if element.Null? then dflt else AsDouble(element)
  }

  function OptString(json: seq<Value>, index: int, dflt: Option<string>): (r: Option<string>)
    ensures IsNull(json, index) ==> r == dflt
    ensures !IsNull(json, index) ==> r == GetString(json, index)
  {
    var element := Get(json, index);
    if element.Null? then dflt else AsString(element)
  }

  /**
   * An index outside [0, n) never faults: every get* gives the empty element's
   * field (empty object, empty array, false, 0, NULL) and every opt* its default.
   */
  lemma OutOfRange(json: seq<Value>, index: int,
                   o: seq<Pair>, a: seq<Value>, b: bool, n: int, d: real, s: Option<string>)
    requires index < 0 || |json| <= index
    ensures IsNull(json, index)
    ensures GetObject(json, index) == [] && GetArray(json, index) == [] && !GetBoolean(json, index)
    ensures GetInt(json, index) == 0 && GetDouble(json, index) == 0.0 && GetString(json, index) == None
    ensures OptObject(json, index, o) == o && OptArray(json, index, a) == a && OptBoolean(json, index, b) == b
    ensures OptInt(json, index, n) == n && OptDouble(json, index, d) == d && OptString(json, index, s) == s
  {
  }

  /*------------------------------------------------------------------------
   * The struct behind a JSONArray*
   *------------------------------------------------------------------------*/

  class JsonArray {
    var elements: array<Value>
    var numberOfElements: nat

    /** The C code reallocates to the exact count on every change. */
    ghost predicate Valid()
      reads this
    {
      elements.Length == numberOfElements
    }

    /** The values, in index order. */
    function Contents(): seq<Value>
      reads this, elements
    {
      elements[..]
    }

    /** a_emptyJSONArray */
    constructor ()
      ensures Valid() && Contents() == [] && fresh(elements)
    {
      elements := new Value[0];
      numberOfElements := 0;
    }

    /** a_destroyJSONArray: the storage is released and the count becomes 0. */
    method Destroy()
      modifies this
      ensures Valid() && Contents() == [] && fresh(elements)
    {
      elements := new Value[0];
      numberOfElements := 0;
    }

    /**
     * a_setJSONElement, as intended: clamp the index, grow the storage by one,
     * shift the elements at and after the index up one slot in the new storage,
     * and store the value at the index.
     */
    method SetElement(index: int, value: Value)
      requires Valid()
      modifies this
      ensures Valid() && fresh(elements)
      ensures Contents() == ArraySet(old(Contents()), index, value)
    {
      ghost var before := elements[..];
      var n := numberOfElements;
      var k := index;
      if k < 0 {
        k := 0;
      } else if k > n {
        k := n;
      }
      var tmp := Buffers.Realloc(elements, n + 1, EmptyElement());
      ghost var grown := tmp[..];
      Buffers.ShiftUp(tmp, k);
      ghost var shifted := tmp[..];
      tmp[k] := value;
      Inserted(before, grown, shifted, k, value);
      assert tmp[..] == shifted[k := value];
      numberOfElements := n + 1;
      elements := tmp;
    }

    /** a_setJSONObject: the object is moved in. */
    method SetObject(index: int, value: seq<Pair>)
      requires Valid()
      modifies this
      ensures Valid() && fresh(elements)
      ensures Contents() == ArraySet(old(Contents()), index, Object(value))
    {
      SetElement(index, Object(value));
    }

    /** a_setJSONArray: the array is moved in. */
    method SetArray(index: int, value: seq<Value>)
      requires Valid()
      modifies this
      ensures Valid() && fresh(elements)
      ensures Contents() == ArraySet(old(Contents()), index, Array(value))
    {
      SetElement(index, Array(value));
    }

    /** a_setBoolean */
    method SetBoolean(index: int, value: bool)
      requires Valid()
      modifies this
      ensures Valid() && fresh(elements)
      ensures Contents() == ArraySet(old(Contents()), index, Bool(value))
    {
      SetElement(index, Bool(value));
    }

    /** a_setInt: the integer is converted to a floating value. */
    method SetInt(index: int, value: int)
      requires Valid()
      modifies this
      ensures Valid() && fresh(elements)
      ensures Contents() == ArraySet(old(Contents()), index, Number(value as real))
    {
      SetElement(index, Number(value as real));
    }

    /** a_setDouble */
    method SetDouble(index: int, value: real)
      requires Valid()
      modifies this
      ensures Valid() && fresh(elements)
      ensures Contents() == ArraySet(old(Contents()), index, Number(value))
    {
      SetElement(index, Number(value));
    }

    /** a_setString: the text is copied, which for values is the text itself. */
    method SetString(index: int, value: string)
      requires Valid()
      modifies this
      ensures Valid() && fresh(elements)
      ensures Contents() == ArraySet(old(Contents()), index, Str(value))
    {
      SetElement(index, Str(value));
    }

    /** a_setNull */
    method SetNull(index: int)
      requires Valid()
      modifies this
      ensures Valid() && fresh(elements)
      ensures Contents() == ArraySet(old(Contents()), index, EmptyElement())
    {
      SetElement(index, EmptyElement());
    }

    /**
     * a_remove: shift every later element one slot down and shrink the storage.
     * The C code checks no bounds: a negative index writes before the buffer and an
     * empty array ends with a count of -1, so both are excluded; an index past the
     * end drops the last element.
     */
    method Remove(index: int)
      requires Valid() && 0 <= index && numberOfElements >= 1
      modifies this, elements
      ensures Valid() && fresh(elements)
      ensures Contents() == RemoveAt(old(Contents()), RemovedSlot(index, old(numberOfElements)))
      ensures numberOfElements == old(numberOfElements) - 1
      ensures forall j :: 0 <= j < index && j < numberOfElements ==> elements[j] == old(elements[j])
      ensures forall j :: index <= j < numberOfElements ==> elements[j] == old(elements[j + 1])
    {
      ghost var before := elements[..];
      // Past the end the shift loop does not run, as when it starts at the last slot.
      var k := RemovedSlot(index, numberOfElements);
      Buffers.ShiftDown(elements, k, numberOfElements);
      numberOfElements := numberOfElements - 1;
      elements := Buffers.Realloc(elements, numberOfElements, EmptyElement());
      assert elements[..] == before[..k] + before[k + 1..];
    }
  }

  /*------------------------------------------------------------------------
   * a_setJSONElement as written
   *------------------------------------------------------------------------*/

  /**
   * What a_setJSONElement leaves behind when realloc moves the block: the new
   * block holds the old elements plus one slot of whatever (`junk`), only the slot
   * at the insertion point is overwritten, and nothing is shifted.
   */
  function StaleInsert(json: seq<Value>, junk: Value, k: nat, v: Value): seq<Value>
    requires k <= |json|
  {
    (json + [junk])[k := v]
  }

  /**
   * a_setJSONElement as the C code is written: the shift loop runs through
   * `json->elements`, the pointer from before the realloc, and the new block is
   * stored only afterwards. When realloc moves the block, the shifts land in the
   * released block. Here `stale` is that released block: its first `n` slots are
   * the old elements and its slot `n` is the memory just past it, which the loop's
   * first shift overwrites and which the moved block's new slot happens to copy.
   */
  method SetElementAsWritten(stale: array<Value>, n: nat, index: int, value: Value)
    returns (elements: array<Value>)
    requires n < stale.Length
    modifies stale
    ensures fresh(elements)
    ensures elements[..] == StaleInsert(old(stale[..n]), old(stale[n]), Clamp(index, n), value)
  {
    ghost var block := stale[..n + 1];
    var k := index;
    if k < 0 {
      k := 0;
    } else if k > n {
      k := n;
    }
    var tmp := Buffers.Realloc(stale, n + 1, EmptyElement());
    var i := n;
    while i > k
      invariant k <= i <= n
      invariant tmp[..] == block
    {
      stale[i] := stale[i - 1];
      i := i - 1;
    }
    elements := tmp;
    elements[k] := value;
    assert old(stale[..n]) + [old(stale[n])] == block;
  }

  /**
   * The stale-pointer insert loses an element whenever the insertion point is
   * followed by two different elements; the intended insert keeps them all.
   */
  lemma {:induction false} StaleInsertLosesElement(json: seq<Value>, junk: Value, k: nat, v: Value)
    requires k + 1 < |json| && json[k] != json[k + 1]
    ensures StaleInsert(json, junk, k, v) != InsertAt(json, k, v)
  {
    var bad := StaleInsert(json, junk, k, v);
    var good := InsertAt(json, k, v);
    assert bad[k + 1] == json[k + 1];
    assert good[k + 1] == json[k];
  }

  /** The concrete case: inserting at 0 into [true, false] gives [v, false, junk], not [v, true, false]. */
  lemma StaleInsertExample(junk: Value, v: Value)
    ensures StaleInsert([Bool(true), Bool(false)], junk, 0, v) == [v, Bool(false), junk]
    ensures ArraySet([Bool(true), Bool(false)], 0, v) == [v, Bool(true), Bool(false)]
  {
  }
}

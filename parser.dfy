/**
 * The parsers of libjson.h: o_parseJSONObject and a_parseJSONArray. Each is one
 * pass over the text with a cursor; a nested object or array is cut out with
 * libjson_extractRaw and parsed on its own. The functions here follow that pass
 * step by step, and the methods are the loops of the C code proved equal to them.
 */
module Parser {
  import opened Values
  import opened Text
  import Scanner
  import Numbers
  import Objects
  import Arrays

  /*------------------------------------------------------------------------
   * The pass as functions
   *------------------------------------------------------------------------*/

  /**
   * A parse of a text that starts with its own opening bracket ranks below one
   * that does not: the object parser hands a text starting with '[' whole to the
   * array parser, and the array parser hands a text starting with '{' whole to
   * the object parser, but neither goes back.
   */
  function ObjectRank(s: string): nat
  {
    if |s| > 0 && s[0] == '{' then 0 else 1
  }

  function ArrayRank(s: string): nat
  {
    if |s| > 0 && s[0] == '[' then 0 else 1
  }

  /** The state of the object pass: the C loop's local variables and the object built so far. */
  datatype ObjectState = ObjectState(i: nat, acc: seq<Pair>, key: Option<string>, onValue: bool, firstBrace: bool)

  /** The state of the array pass. */
  datatype ArrayState = ArrayState(i: nat, acc: seq<Value>, firstBrace: bool)

  /** o_parseJSONObject: the pairs of the object, in the order they were set. */
  function ParseObjectF(s: string): seq<Pair>
    decreases |s|, ObjectRank(s), |s| + 1, 1
  {
    ObjectScan(s, ObjectState(0, [], None, false, true))
  }

  /**
   * The object pass from a state: it stops at the end of the text or at a '}',
   * and otherwise takes one step.
   */
  function ObjectScan(s: string, st: ObjectState): seq<Pair>
    requires st.firstBrace || st.i > 0
    decreases |s|, ObjectRank(s), |s| - st.i, 1
  {
    if st.i >= |s| || s[st.i] == '}' then st.acc
    else ObjectScan(s, ObjectStep(s, st))
  }

  /** A value read by either parser, and the cursor after it. */
  datatype Read = Read(value: Value, next: nat)

  /**
   * The value starting at `i`, as both loops read it: a nested container is cut
   * out with libjson_extractRaw and parsed on its own, a string is extracted, a
   * literal is recognised by its first letter alone, and a number is read from
   * its run of number characters, the cursor then skipping one more character.
   * Any other character starts no value.
   */
  function ValueAt(s: string, i: nat): (r: Option<Read>)
    requires i < |s|
    ensures r.Some? ==> r.value.next > i
    decreases |s|, if i == 0 then 1 else 0, 0, 0
  {
    var c := s[i];
    if c == '{' then
      var child := Scanner.ExtractRawF(s[i..], '{', '}');
      assert |child| == |s| ==> i == 0 && child == s;
      Some(Read(Object(ParseObjectF(child)), i + |child|))
    else if c == '[' then
      var child := Scanner.ExtractRawF(s[i..], '[', ']');
      assert |child| == |s| ==> i == 0 && child == s;
      Some(Read(Array(ParseArrayF(child)), i + |child|))
    else if c == '"' then
      var t := Scanner.ExtractStringF(s[i..]);
      Some(Read(Str(t), i + |t| + 2))
    else if c == 'n' then Some(Read(EmptyElement(), i + 4))
    else if c == 't' then Some(Read(Bool(true), i + 4))
    else if c == 'f' then Some(Read(Bool(false), i + 5))
    else if IsDigit(c) || c == '-' then Some(Read(Number(Numbers.NumberAt(s, i)), i + Numbers.RunLength(s, i) + 1))
    else None
  }

  /**
   * One turn of the object loop at a character other than '}'. The first '{'
   * opens the object itself; a string before the ':' becomes the pending key;
   * every value is stored under the pending key, which then becomes NULL.
   */
  function ObjectStep(s: string, st: ObjectState): (r: ObjectState)
    requires st.firstBrace || st.i > 0
    requires st.i < |s| && s[st.i] != '}'
    ensures r.i > st.i
    decreases |s|, ObjectRank(s), |s| - st.i, 0
  {
    var i := st.i;
    var c := s[i];
    if IsSpace(c) then st.(i := i + 1)
    else if c == '{' && st.firstBrace then st.(i := i + 1, firstBrace := false)
    else if c == '"' && !st.onValue then
      var t := Scanner.ExtractStringF(s[i..]);
      st.(i := i + |t| + 2, key := Some(t))
    else if c == ':' then st.(i := i + 1, onValue := true)
    else
      match ValueAt(s, i)
      case Some(r) => ObjectState(r.next, Objects.SetKey(st.acc, st.key, r.value), None, false, st.firstBrace)
      case None => st.(i := i + 1)
  }

  /** a_parseJSONArray: the elements of the array, in order. */
  function ParseArrayF(s: string): seq<Value>
    decreases |s|, ArrayRank(s), |s| + 1, 1
  {
    ArrayScan(s, ArrayState(0, [], true))
  }

  /** The array pass from a state: it stops at the end of the text or at a ']'. */
  function ArrayScan(s: string, st: ArrayState): seq<Value>
    requires st.firstBrace || st.i > 0
    decreases |s|, ArrayRank(s), |s| - st.i, 1
  {
    if st.i >= |s| || s[st.i] == ']' then st.acc
    else ArrayScan(s, ArrayStep(s, st))
  }

  /** One turn of the array loop at a character other than ']': the first '[' opens the array itself, every value is appended. */
  function ArrayStep(s: string, st: ArrayState): (r: ArrayState)
    requires st.firstBrace || st.i > 0
    requires st.i < |s| && s[st.i] != ']'
    ensures r.i > st.i
    decreases |s|, ArrayRank(s), |s| - st.i, 0
  {
    var i := st.i;
    var c := s[i];
    if IsSpace(c) then st.(i := i + 1)
    else if c == '[' && st.firstBrace then st.(i := i + 1, firstBrace := false)
    else
      match ValueAt(s, i)
      case Some(r) => st.(i := r.next, acc := Arrays.ArraySet(st.acc, |st.acc|, r.value))
      case None => st.(i := i + 1)
  }

  /*------------------------------------------------------------------------
   * One turn at a time
   *------------------------------------------------------------------------*/

  lemma ReadsObject(s: string, i: nat)
    requires i < |s| && s[i] == '{'
    ensures var child := Scanner.ExtractRawF(s[i..], '{', '}');
            ValueAt(s, i) == Some(Read(Object(ParseObjectF(child)), i + |child|))
  {
  }

  lemma ReadsArray(s: string, i: nat)
    requires i < |s| && s[i] == '['
    ensures var child := Scanner.ExtractRawF(s[i..], '[', ']');
            ValueAt(s, i) == Some(Read(Array(ParseArrayF(child)), i + |child|))
  {
  }

  lemma ReadsString(s: string, i: nat)
    requires i < |s| && s[i] == '"'
    ensures var t := Scanner.ExtractStringF(s[i..]);
            ValueAt(s, i) == Some(Read(Str(t), i + |t| + 2))
  {
  }

  lemma ReadsLiteral(s: string, i: nat)
    requires i < |s| && (s[i] == 'n' || s[i] == 't' || s[i] == 'f')
    ensures ValueAt(s, i) == Some(Read(if s[i] == 'n' then EmptyElement() else Bool(s[i] == 't'), i + if s[i] == 'f' then 5 else 4))
  {
  }

  lemma ReadsNumber(s: string, i: nat)
    requires i < |s| && (IsDigit(s[i]) || s[i] == '-')
    ensures ValueAt(s, i) == Some(Read(Number(Numbers.NumberAt(s, i)), i + Numbers.RunLength(s, i) + 1))
  {
  }

  lemma ReadsNothing(s: string, i: nat)
    requires i < |s| && !StartsValue(s[i])
    ensures ValueAt(s, i) == None
  {
  }

  /** A turn of the object loop at the start of a value stores it under the pending key. */
  lemma ObjectStores(s: string, st: ObjectState, r: Read, next: ObjectState)
    requires st.firstBrace || st.i > 0
    requires st.i < |s| && !IsSpace(s[st.i]) && s[st.i] !in "}:"
    requires !(s[st.i] == '{' && st.firstBrace) && !(s[st.i] == '"' && !st.onValue)
    requires ValueAt(s, st.i) == Some(r)
    requires next == ObjectState(r.next, Objects.SetKey(st.acc, st.key, r.value), None, false, st.firstBrace)
    ensures ObjectStep(s, st) == next
  {
  }

  /** A turn of the object loop that only moves the cursor: blanks, commas and stray characters. */
  lemma ObjectMoves(s: string, st: ObjectState, next: ObjectState)
    requires st.firstBrace || st.i > 0
    requires st.i < |s| && !StartsValue(s[st.i]) && s[st.i] !in ":}"
    requires next == st.(i := st.i + 1)
    ensures ObjectStep(s, st) == next
  {
    if !IsSpace(s[st.i]) {
      ReadsNothing(s, st.i);
    }
  }

  /** The first '{' opens the object itself. */
  lemma ObjectOpens(s: string, st: ObjectState, next: ObjectState)
    requires st.firstBrace && st.i < |s| && s[st.i] == '{'
    requires next == st.(i := st.i + 1, firstBrace := false)
    ensures ObjectStep(s, st) == next
  {
  }

  /** A string before the ':' becomes the pending key. */
  lemma ObjectNamesKey(s: string, st: ObjectState, t: string, next: ObjectState)
    requires st.firstBrace || st.i > 0
    requires st.i < |s| && s[st.i] == '"' && !st.onValue
    requires t == Scanner.ExtractStringF(s[st.i..])
    requires next == st.(i := st.i + |t| + 2, key := Some(t))
    ensures ObjectStep(s, st) == next
  {
  }

  /** A ':' announces a value. */
  lemma ObjectAnnounces(s: string, st: ObjectState, next: ObjectState)
    requires st.firstBrace || st.i > 0
    requires st.i < |s| && s[st.i] == ':'
    requires next == st.(i := st.i + 1, onValue := true)
    ensures ObjectStep(s, st) == next
  {
  }

  /** A turn of the array loop at the start of a value appends it. */
  lemma ArrayAppends(s: string, st: ArrayState, r: Read, next: ArrayState)
    requires st.firstBrace || st.i > 0
    requires st.i < |s| && !IsSpace(s[st.i]) && s[st.i] != ']'
    requires !(s[st.i] == '[' && st.firstBrace)
    requires ValueAt(s, st.i) == Some(r)
    requires next == st.(i := r.next, acc := Arrays.ArraySet(st.acc, |st.acc|, r.value))
    ensures ArrayStep(s, st) == next
  {
  }

  /** A turn of the array loop that only moves the cursor, or opens the array. */
  lemma ArrayMoves(s: string, st: ArrayState, next: ArrayState)
    requires st.firstBrace || st.i > 0
    requires st.i < |s| && s[st.i] != ']'
    requires (s[st.i] == '[' && st.firstBrace) || !StartsValue(s[st.i])
    requires next == st.(i := st.i + 1, firstBrace := st.firstBrace && s[st.i] != '[')
    ensures ArrayStep(s, st) == next
  {
    if !IsSpace(s[st.i]) && s[st.i] != '[' {
      ReadsNothing(s, st.i);
    }
  }

  /** A turn of the object loop leaves the rest of the pass unchanged. */
  lemma ObjectAdvances(s: string, st: ObjectState, next: ObjectState)
    requires st.firstBrace || st.i > 0
    requires st.i < |s| && s[st.i] != '}'
    requires ObjectStep(s, st) == next
    ensures ObjectScan(s, st) == ObjectScan(s, next)
  {
  }

  /** A turn of the array loop leaves the rest of the pass unchanged. */
  lemma ArrayAdvances(s: string, st: ArrayState, next: ArrayState)
    requires st.firstBrace || st.i > 0
    requires st.i < |s| && s[st.i] != ']'
    requires ArrayStep(s, st) == next
    ensures ArrayScan(s, st) == ArrayScan(s, next)
  {
  }

  /*------------------------------------------------------------------------
   * What the object pass guarantees
   *------------------------------------------------------------------------*/

  /** A turn of the object loop keeps the keys unique: a value is stored with o_setJSONElement, which first removes its key. */
  lemma ObjectStepUnique(s: string, st: ObjectState)
    requires st.firstBrace || st.i > 0
    requires st.i < |s| && s[st.i] != '}'
    requires Objects.UniqueKeys(st.acc)
    ensures Objects.UniqueKeys(ObjectStep(s, st).acc)
  {
    var c := s[st.i];
    if !IsSpace(c) && !(c == '{' && st.firstBrace) && !(c == '"' && !st.onValue) && c != ':' {
      match ValueAt(s, st.i)
      case Some(r) => Objects.SetKeyProperties(st.acc, st.key, r.value);
      case None =>
    }
  }

  /** The rest of the object pass keeps the keys unique. */
  lemma {:induction false} ObjectScanUnique(s: string, st: ObjectState)
    requires st.firstBrace || st.i > 0
    requires Objects.UniqueKeys(st.acc)
    ensures Objects.UniqueKeys(ObjectScan(s, st))
    decreases |s| - st.i
  {
    if st.i < |s| && s[st.i] != '}' {
      ObjectStepUnique(s, st);
      ObjectScanUnique(s, ObjectStep(s, st));
    }
  }

  /** A parsed object never holds two pairs with the same key. */
  lemma ParsedKeysUnique(s: string)
    ensures Objects.UniqueKeys(ParseObjectF(s))
  {
    ObjectScanUnique(s, ObjectState(0, [], None, false, true));
  }

  /*------------------------------------------------------------------------
   * The pass as written
   *------------------------------------------------------------------------*/

  /** The characters at which both loops read a value. */
  predicate StartsValue(c: char)
  {
    c in "{[\"ntf-" || IsDigit(c)
  }

  /**
   * The branches both loops share, at a character that starts a value: a nested
   * container is cut out with libjson_extractRaw and parsed on its own, a string
   * is extracted, a literal is known by its first letter, a number is scanned.
   * `next` is the cursor after the loop's own increment.
   */
  method ReadValue(s: string, i: nat) returns (v: Value, next: nat)
    requires i < |s| && StartsValue(s[i])
    ensures ValueAt(s, i) == Some(Read(v, next))
    decreases |s|, if i == 0 then 1 else 0, 0
  {
    var c := s[i];
    if c == '{' {
      var child := Scanner.ExtractRaw(s[i..], '{', '}');
      assert |child| == |s| ==> i == 0 && child == s;
      var parsed := ParseObject(child);
      ReadsObject(s, i);
      v, next := Object(parsed.Pairs()), i + |child|;
    } else if c == '[' {
      var child := Scanner.ExtractRaw(s[i..], '[', ']');
      assert |child| == |s| ==> i == 0 && child == s;
      var parsed := ParseArray(child);
      ReadsArray(s, i);
      v, next := Array(parsed.Contents()), i + |child|;
    } else if c == '"' {
      var t := Scanner.ExtractString(s[i..]);
      ReadsString(s, i);
      v, next := Str(t), i + |t| + 2;
    } else if c == 'n' {
      ReadsLiteral(s, i);
      v, next := EmptyElement(), i + 4;
    } else if c == 't' || c == 'f' {
      ReadsLiteral(s, i);
      v, next := Bool(c == 't'), i + 4 + if c == 'f' then 1 else 0;
    } else {
      var num, n := Numbers.ScanNumber(s, i);
      ReadsNumber(s, i);
      v, next := Number(num), i + n + 1;
    }
  }

  /** The typed setter the object loop calls for each kind of value. */
  method StoreInObject(o: Objects.JsonObject, key: Option<string>, v: Value)
    requires o.Valid()
    modifies o, o.elements
    ensures o.Valid() && fresh(o.elements)
    ensures o.Pairs() == Objects.SetKey(old(o.Pairs()), key, v)
  {
    match v
    case Object(ps) => o.SetObject(key, ps);
    case Array(vs) => o.SetArray(key, vs);
    case Str(t) => o.SetString(key, t);
    case Null => o.SetNull(key);
    case Bool(b) => o.SetBoolean(key, b);
    case Number(x) => o.SetDouble(key, x);
  }

  /** The typed setter the array loop calls for each kind of value, at the end of the array. */
  method StoreInArray(a: Arrays.JsonArray, v: Value)
    requires a.Valid()
    modifies a
    ensures a.Valid() && fresh(a.elements)
    ensures a.Contents() == Arrays.ArraySet(old(a.Contents()), |old(a.Contents())|, v)
  {
    var n := a.numberOfElements;
    match v
    case Object(ps) => a.SetObject(n, ps);
    case Array(vs) => a.SetArray(n, vs);
    case Str(t) => a.SetString(n, t);
    case Null => a.SetNull(n);
    case Bool(b) => a.SetBoolean(n, b);
    case Number(x) => a.SetDouble(n, x);
  }

  /**
   * o_parseJSONObject as written: a for-loop over the text whose cursor each
   * branch moves past what it consumed, recursing into nested containers.
   */
  method ParseObject(s: string) returns (o: Objects.JsonObject)
    ensures fresh(o) && fresh(o.elements) && o.Valid()
    ensures o.Pairs() == ParseObjectF(s)
    decreases |s|, ObjectRank(s), 1
  {
    var firstBrace := true;
    o := new Objects.JsonObject();
    var key: Option<string> := None;
    var onValue := false;
    var len := |s|;
    var i: nat := 0;
    while i < len
      invariant firstBrace || i > 0
      invariant fresh(o) && fresh(o.elements) && o.Valid()
      invariant ObjectScan(s, ObjectState(i, o.Pairs(), key, onValue, firstBrace)) == ParseObjectF(s)
      decreases len - i
    {
      ghost var st := ObjectState(i, o.Pairs(), key, onValue, firstBrace);
      var c := s[i];
      if IsSpace(c) {
        ObjectMoves(s, st, ObjectState(i + 1, o.Pairs(), key, onValue, firstBrace));
      } else if c == '{' && firstBrace {
        firstBrace := false;
        ObjectOpens(s, st, ObjectState(i + 1, o.Pairs(), key, onValue, firstBrace));
      } else if c == '}' {
        break;
      } else if c == '"' && !onValue {
        var t := Scanner.ExtractString(s[i..]);
        i := i + |t| + 1;
        key := Some(t);
        ObjectNamesKey(s, st, t, ObjectState(i + 1, o.Pairs(), key, onValue, firstBrace));
      } else if c == ':' {
        onValue := true;
        ObjectAnnounces(s, st, ObjectState(i + 1, o.Pairs(), key, onValue, firstBrace));
      } else if StartsValue(c) {
        var v, next := ReadValue(s, i);
        StoreInObject(o, key, v);
        key := None;
        onValue := false;
        i := next - 1;
        ObjectStores(s, st, Read(v, next), ObjectState(i + 1, o.Pairs(), key, onValue, firstBrace));
      } else {
        ObjectMoves(s, st, ObjectState(i + 1, o.Pairs(), key, onValue, firstBrace));
      }
      i := i + 1;
      ObjectAdvances(s, st, ObjectState(i, o.Pairs(), key, onValue, firstBrace));
    }
  }

  /** a_parseJSONArray as written. */
  method ParseArray(s: string) returns (a: Arrays.JsonArray)
    ensures fresh(a) && a.Valid()
    ensures a.Contents() == ParseArrayF(s)
    decreases |s|, ArrayRank(s), 1
  {
    var firstBrace := true;
    a := new Arrays.JsonArray();
    var len := |s|;
    var i: nat := 0;
    while i < len
      invariant firstBrace || i > 0
      invariant fresh(a) && a.Valid()
      invariant ArrayScan(s, ArrayState(i, a.Contents(), firstBrace)) == ParseArrayF(s)
      decreases len - i
    {
      ghost var st := ArrayState(i, a.Contents(), firstBrace);
      var c := s[i];
      if IsSpace(c) {
        ArrayMoves(s, st, ArrayState(i + 1, a.Contents(), firstBrace));
      } else if c == '[' && firstBrace {
        firstBrace := false;
        ArrayMoves(s, st, ArrayState(i + 1, a.Contents(), firstBrace));
      } else if c == ']' {
        break;
      } else if StartsValue(c) {
        var v, next := ReadValue(s, i);
        StoreInArray(a, v);
        i := next - 1;
        ArrayAppends(s, st, Read(v, next), ArrayState(i + 1, a.Contents(), firstBrace));
      } else {
        ArrayMoves(s, st, ArrayState(i + 1, a.Contents(), firstBrace));
      }
      i := i + 1;
      ArrayAdvances(s, st, ArrayState(i, a.Contents(), firstBrace));
    }
  }
}

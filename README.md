# libjson.h in Dafny

This project models libjson.h, a single-header C library for JSON trees, and
proves properties of the model. It covers:

- the tagged element (`JSONElement`) with its object (`JSONObject`: pairs of a
  key and an element) and array (`JSONArray`: elements by position);
- the object and array mutators (`o_set*`, `o_remove`, `a_set*`, `a_remove`),
  which update an `elements` buffer and a `numberOfElements` count in place;
- the lookups and typed accessors (`o_has`, `o_is*`, `o_get*`, `o_opt*` and their
  `a_` counterparts), which never fault;
- the two tokenizers `libjson_extractString` and `libjson_extractRaw`;
- the two parsers `o_parseJSONObject` and `a_parseJSONArray`, each one cursor
  pass that cuts nested containers out with `libjson_extractRaw` and recurses;
- the serializers `o_JSONObjectToString`, `a_JSONArrayToString`,
  `libjson_JSONElementToString` and `libjson_JSONPairToString`, with the
  trimming of the `%Lf` number text;
- the string helpers `libjson_strcmp`, `libjson_isspace` and `libjson_isdigit`.

C strings are `string` (`seq<char>`), so `libjson_strlen` is `|s|` and
`libjson_strcpy` is the identity on the text of a non-NULL string; a
NULL `char*` key is `Option<string>.None`. A string element always holds
a text here: the NULL string a C caller can store is left out (below). Numbers are exact `real`s.

Modules, one per file:

- `Values` (values.dfy): the `Value` and `Pair` datatypes, the empty element, and the
  views the typed accessors take of one element.
- `Text` (text.dfy): `libjson_isspace`, `libjson_isdigit` and `libjson_strcmp`.
- `Buffers` (buffers.dfy): `realloc` and the shift loops of the mutators.
- `Objects` (objects.dfy): object lookups and mutations as functions on `seq<Pair>`,
  and the `JsonObject` class whose methods are the C mutators.
- `Arrays` (arrays.dfy): the same for arrays, `JsonArray`, and the defect in
  `a_setJSONElement` (see Findings).
- `Scanner` (scanner.dfy): both tokenizers, as specification functions and as the C loops,
  and the nesting level that decides where `libjson_extractRaw` stops.
- `Numbers` (numbers.dfy): the number run loop of the parsers, `sscanf("%Lf")` on
  its buffer, `sprintf("%Lf")` and the cut of trailing zeros.
- `Serializer` (serializer.dfy): rendering as functions, and the two container loops.
- `Parser` (parser.dfy): both parsers as functions that follow the C pass turn by
  turn, and the C loops proved equal to them.
- `Roundtrip` (roundtrip.dfy): printing an array or an object of scalars and parsing
  the text back gives the same elements, proved one turn of the parser at a time.

Each C loop is a Dafny `method` with a `while` loop whose `ensures` ties its result to
a specification function. Properties of the library are lemmas about those functions.

## Model

| member | source | states |
|---|---|---|
| Values.EmptyElement | libjson.h:1272-1283 | the empty element is null, and every typed view of it is empty: no object, no array, false, 0, 0.0, NULL string |
| Values.AsBoolean | libjson.h:66-74 | the `boolean` field reads true exactly for the element `true` |
| Values.AsString | libjson.h:66-74 | for the strings the model holds, the `string` field is non-NULL exactly for string elements |
| Values.AsInt | libjson.h:522-524 | the `(long)` cast of the number field is 0 for every non-number |
| Values.Trunc | libjson.h:1625-1627 | `(long)d` truncates toward zero: for d >= 0, t <= d < t + 1; for d < 0, t - 1 < d <= t |
| Values.IntegralNumbers | libjson.h:443-446 | the o_isInt/a_isInt test (a number equal to its libjson_floor) holds exactly for numbers with an integral value |
| Text.StrCmp | libjson.h:1683-1697 | true exactly when both strings are non-NULL and equal; a NULL on either side gives false |
| Buffers.Realloc | libjson.h:1530 | the new block has the requested size and keeps the old contents up to the smaller of the two sizes |
| Buffers.ShiftDown | libjson.h:758-760 | after the removal loop, the first n-1 slots are the old first n without the slot at `index` |
| Buffers.ShiftUp | libjson.h:1597-1599 | after the insertion loop, the slots after `k` hold the old slots from `k` on, and the slots up to `k` are unchanged |
| Objects.FindKeyFrom | libjson.h:1509-1519 | the first index at or after `from` whose key matches; no earlier index matches; None exactly when no index matches |
| Objects.HasKeyInKeySet | libjson.h:391-401 | o_has holds exactly when the key is non-NULL and in the object's key set |
| Objects.Lookup | libjson.h:1509-1519 | a missing key gives the empty element; with unique keys, the value of the pair holding the key |
| Objects.RemoveKeyShape | libjson.h:745-765 | removing a present key shortens the object by one and an absent key changes nothing; keys stay unique, the key is gone, and the key set loses exactly that key |
| Objects.SetKeyProperties | libjson.h:1528-1545 | after a set, the new pair is last, the rest is the object with the key removed, the length grows only for a new key, the key occurs once, lookup returns the value, and the key set gains the key |
| Objects.SetKeyOtherKeys | libjson.h:1528-1545 | a set leaves lookup and membership of every other key unchanged |
| Objects.IsObject | libjson.h:410-412 | true only for a present key |
| Objects.IsArray | libjson.h:421-423 | true only for a present key |
| Objects.IsBoolean | libjson.h:432-434 | true only for a present key |
| Objects.IsInt | libjson.h:443-446 | an integral number is also a double, under a present key |
| Objects.IsDouble | libjson.h:455-457 | true only for a present key |
| Objects.IsString | libjson.h:466-468 | true only for a present key |
| Objects.IsNull | libjson.h:477-479 | true for a missing key, and true exactly when no other type test holds |
| Objects.GetObject | libjson.h:489-491 | a non-empty result means the key holds an object |
| Objects.GetArray | libjson.h:500-502 | a non-empty result means the key holds an array |
| Objects.GetBoolean | libjson.h:511-513 | true only when the key holds a boolean |
| Objects.GetInt | libjson.h:522-524 | non-zero only when the key holds a number |
| Objects.GetDouble | libjson.h:533-535 | non-zero only when the key holds a number |
| Objects.GetString | libjson.h:544-546 | for the strings the model holds, non-NULL exactly when the key holds a string |
| Objects.OptObject | libjson.h:556-562 | the default exactly when the element is null-typed, the stored object otherwise |
| Objects.OptArray | libjson.h:572-578 | the default exactly when the element is null-typed, the stored array otherwise |
| Objects.OptBoolean | libjson.h:588-594 | the default exactly when the element is null-typed, o_getBoolean otherwise |
| Objects.OptInt | libjson.h:604-610 | the default exactly when the element is null-typed, o_getInt otherwise |
| Objects.OptDouble | libjson.h:620-626 | the default exactly when the element is null-typed, o_getDouble otherwise |
| Objects.OptString | libjson.h:636-642 | the default exactly when the element is null-typed, o_getString otherwise |
| Objects.MissingKey | libjson.h:1509-1519 | a missing key never faults: every get gives the empty element's field and every opt gives its default |
| Objects.GetAfterSet | libjson.h:1528-1545 | a get right after a set of the same key returns the value just set, through each typed getter: the object, array, string, boolean, the number as a double and the number truncated by the int getter |
| Objects.JsonObject.constructor | libjson.h:223-230 | a new object is empty |
| Objects.JsonObject.Destroy | libjson.h:238-244 | a destroyed object is empty |
| Objects.JsonObject.Has | libjson.h:391-401 | the scan answers whether some pair carries the key |
| Objects.JsonObject.GetElement | libjson.h:1509-1519 | the scan returns the value of the first matching pair, or the empty element |
| Objects.JsonObject.Remove | libjson.h:745-765 | the new pairs are the old ones with the first match removed |
| Objects.JsonObject.SetElement | libjson.h:1528-1545 | the new pairs are the old ones with the key removed and the new pair appended |
| Objects.JsonObject.SetObject | libjson.h:652-657 | o_setJSONElement with an object element |
| Objects.JsonObject.SetArray | libjson.h:666-671 | o_setJSONElement with an array element |
| Objects.JsonObject.SetBoolean | libjson.h:680-685 | o_setJSONElement with a boolean element |
| Objects.JsonObject.SetInt | libjson.h:694-699 | o_setJSONElement with the integer as a number |
| Objects.JsonObject.SetDouble | libjson.h:708-713 | o_setJSONElement with a number element |
| Objects.JsonObject.SetString | libjson.h:722-727 | o_setJSONElement with a string element |
| Objects.JsonObject.SetNull | libjson.h:735-737 | o_setJSONElement with the empty element |
| Arrays.ArraySetProperties | libjson.h:1586-1605 | an insert clamps the index to [0, n], grows the length by one, puts the value at the clamped index, keeps earlier elements and shifts later ones up by one; a negative index prepends and one past the end appends |
| Arrays.RemoveUndoesSet | libjson.h:1256-1263 | removing at the clamped index right after an insert gives back the array, and a get there returns the inserted value |
| Arrays.RemoveAtProperties | libjson.h:1256-1263 | a removal shortens the array by one, keeps earlier elements and moves later ones down by one |
| Arrays.IsObject | libjson.h:920-922 | true only for an index in [0, n) |
| Arrays.IsArray | libjson.h:931-933 | true only for an index in [0, n) |
| Arrays.IsBoolean | libjson.h:942-944 | true only for an index in [0, n) |
| Arrays.IsInt | libjson.h:953-956 | an integral number is also a double |
| Arrays.IsDouble | libjson.h:965-967 | true only for an index in [0, n) |
| Arrays.IsString | libjson.h:976-978 | true only for an index in [0, n) |
| Arrays.IsNull | libjson.h:987-989 | true outside [0, n), and true exactly when no other type test holds |
| Arrays.GetObject | libjson.h:999-1001 | a non-empty result means the element is an object |
| Arrays.GetArray | libjson.h:1010-1012 | a non-empty result means the element is an array |
| Arrays.GetBoolean | libjson.h:1021-1023 | true only for a boolean element |
| Arrays.GetInt | libjson.h:1032-1034 | non-zero only for a number element |
| Arrays.GetDouble | libjson.h:1043-1045 | non-zero only for a number element |
| Arrays.GetString | libjson.h:1054-1056 | for the strings the model holds, non-NULL exactly for a string element |
| Arrays.OptObject | libjson.h:1066-1072 | the default exactly when the element is null-typed, the stored object otherwise |
| Arrays.OptArray | libjson.h:1082-1088 | the default exactly when the element is null-typed, the stored array otherwise |
| Arrays.OptBoolean | libjson.h:1098-1104 | the default exactly when the element is null-typed, a_getBoolean otherwise |
| Arrays.OptInt | libjson.h:1114-1120 | the default exactly when the element is null-typed, a_getInt otherwise |
| Arrays.OptDouble | libjson.h:1130-1136 | the default exactly when the element is null-typed, a_getDouble otherwise |
| Arrays.OptString | libjson.h:1146-1152 | the default exactly when the element is null-typed, a_getString otherwise |
| Arrays.OutOfRange | libjson.h:1569-1574 | an index outside [0, n) never faults: every get gives the empty element's field and every opt its default |
| Arrays.JsonArray.constructor | libjson.h:777-784 | a new array is empty |
| Arrays.JsonArray.Destroy | libjson.h:792-798 | a destroyed array is empty |
| Arrays.JsonArray.SetElement | libjson.h:1586-1605 | the new contents are the clamped insert of the value into the old contents (the intended behaviour, see Findings) |
| Arrays.JsonArray.SetObject | libjson.h:1162-1167 | a_setJSONElement with an object element |
| Arrays.JsonArray.SetArray | libjson.h:1176-1181 | a_setJSONElement with an array element |
| Arrays.JsonArray.SetBoolean | libjson.h:1190-1195 | a_setJSONElement with a boolean element |
| Arrays.JsonArray.SetInt | libjson.h:1204-1209 | a_setJSONElement with the integer as a number |
| Arrays.JsonArray.SetDouble | libjson.h:1218-1223 | a_setJSONElement with a number element |
| Arrays.JsonArray.SetString | libjson.h:1232-1237 | a_setJSONElement with a string element |
| Arrays.JsonArray.SetNull | libjson.h:1245-1248 | a_setJSONElement with the empty element |
| Arrays.JsonArray.Remove | libjson.h:1256-1263 | on a non-empty array and a non-negative index, the new contents are the old ones without the element at RemovedSlot (the index, or the last element for an index past the end), one shorter, with earlier elements in place and later ones moved down |
| Arrays.RemovedSlot | libjson.h:1256-1263 | the slot a removal drops: the index itself when it is in range, the last slot when it is past the end |
| Arrays.RemovePastEnd | libjson.h:1256-1263 | removing past the end keeps every element but the last, in order |
| Arrays.SetElementAsWritten | libjson.h:1586-1605 | the code as written, when realloc moves the block: the new block is the old elements plus one junk slot, overwritten only at the clamped index |
| Arrays.StaleInsertLosesElement | libjson.h:1597-1602 | whenever the two elements at and after the insertion point differ, the as-written result differs from the intended insert |
| Arrays.StaleInsertExample | libjson.h:1597-1602 | inserting v at 0 into [true, false] gives [v, false, junk] as written and [v, true, false] as intended |
| Scanner.CloseFrom | libjson.h:1365-1377 | the first closing quote at or after `i`: a quote after position 0 preceded by an even run of backslashes; none earlier |
| Scanner.ExtractStringF | libjson.h:1355-1384 | a non-empty result is exactly the characters between position 0 and the first closing quote, and no earlier quote closes |
| Scanner.ExtractString | libjson.h:1355-1384 | the escape-counting loop and the copy give ExtractStringF |
| Scanner.ExtractQuoted | libjson.h:1355-1384 | a well-formed string (every inner quote escaped by an odd backslash run, no odd run at the end) between quotes is extracted unchanged, escapes included, whatever follows |
| Scanner.RawScan | libjson.h:1403-1420 | a match is a `close` character at or after the start |
| Scanner.NextPos | libjson.h:1403-1420 | the scan always moves forward: one on, or past a whole string |
| Scanner.RawScanFirstClose | libjson.h:1403-1420 | the scan matches at `e` exactly when `e` is the first close read outside strings at which the nesting level (opens minus closes, strings skipped) returns to 0 |
| Scanner.ExtractRawFirstClose | libjson.h:1399-1429 | the token runs through the first close at which the nesting level returns to 0; without one, it is the first character |
| Scanner.BackslashRunAfter | libjson.h:1365-1377 | behind a character that is not a backslash, escape runs are counted as in the text alone |
| Scanner.QuoteFromAfter | libjson.h:1413-1418 | behind such a character, the closing quote of a string is found at the same place |
| Scanner.RawScanBalanced | libjson.h:1403-1420 | through a balanced text (strings closed, no close below level 0, ending at level 0) the scan stops at the close right after it |
| Scanner.ExtractBalanced | libjson.h:1399-1429 | an open, a balanced text and its close are extracted exactly, brackets inside strings ignored, whatever follows |
| Scanner.QuoteFrom | libjson.h:1365-1377 | the first quote at or after `j` that no odd run of backslashes escapes, counted in the whole text; no such quote before it, and none at all when there is no match |
| Scanner.SkipStringExtract | libjson.h:1413-1418 | on a quote, the scan resumes exactly past the string libjson_extractString extracts from that point and its two quotes |
| Scanner.ExtractRawF | libjson.h:1399-1429 | the token is a prefix of the text, at least one character long when the text is non-empty, and ends with `close` when longer than one |
| Scanner.ExtractRaw | libjson.h:1399-1429 | the depth-counting loop and the copy give ExtractRawF |
| Numbers.RunLength | libjson.h:356-370 | the run of number characters stays within the text |
| Numbers.RunLengthChars | libjson.h:356-370 | every character of the run is a digit, '.' or '-', and the run stops at the end or at another character |
| Numbers.CString | libjson.h:351 | the C string of a buffer is its prefix before the first NUL, NUL-free |
| Numbers.StagedFromPrefix | libjson.h:356-370 | the staged text is the longest prefix of the run whose characters the loop copies |
| Numbers.StagedClean | libjson.h:356-370 | a run the loop copies whole reaches sscanf unchanged |
| Numbers.StageNumber | libjson.h:349-372 | the run loop returns the run length and a buffer whose C string is the staged run |
| Numbers.ScanNumber | libjson.h:349-373 | the cursor moves by the run length and the value is sscanf's reading of the staged run |
| Numbers.ScanDecimal | libjson.h:373 | a negative reading comes only from a leading minus sign |
| Numbers.ReadWhole | libjson.h:373 | the digits after an optional sign read as a non-negative value |
| Numbers.RoundHalfEven | libjson.h:1457 | the six-decimal scaling rounds to the nearest integer, exactly for integral values |
| Numbers.FixedPoint | libjson.h:1457 | the `%Lf` text starts with a digit or '-' and has its point seven characters from the end |
| Numbers.DropTrailingZeros | libjson.h:1458-1478 | the result is a prefix, only zeros were cut, and it does not end in '0' |
| Numbers.TrimNumber | libjson.h:1458-1479 | the lastNonZero/decimal pass and the cut give Trim: trailing zeros after an inner point go, then a bare point |
| Numbers.RenderNumberRoundTrip | libjson.h:1457-1479 | a number with at most six decimals prints as a text the run loop copies whole, starting with a digit or '-', that reads back as the same number |
| Numbers.RenderIntegral | libjson.h:1457-1479 | an integral number prints as its sign and digits with no point, so 3 prints "3" |
| Serializer.RenderValue | libjson.h:1438-1490 | every element prints as at least one character |
| Serializer.RenderObject | libjson.h:254-278 | an object prints between '{' and '}'; Roundtrip.ObjectRoundTrip reads that text back as the same pairs for scalar values |
| Serializer.RenderArray | libjson.h:808-831 | an array prints between '[' and ']'; Roundtrip.ArrayRoundTrip reads that text back as the same elements for scalars |
| Serializer.JoinIsOpened | libjson.h:262-273 | the loop's text before the last member, plus the last member, is the opening followed by the comma-joined members |
| Serializer.ObjectToString | libjson.h:254-278 | the loop over the pairs produces RenderObject of the object |
| Serializer.ArrayToString | libjson.h:808-831 | the loop over the elements produces RenderArray of the array |
| Parser.ValueAt | libjson.h:316-373 | a value read always moves the cursor forward |
| Parser.ObjectStep | libjson.h:295-377 | a turn of the object loop always moves the cursor forward |
| Parser.ArrayStep | libjson.h:846-906 | a turn of the array loop always moves the cursor forward |
| Parser.ReadsObject | libjson.h:302-311 | at '{' the value is the object parsed from the token extractRaw cuts out, and the cursor moves past the token |
| Parser.ReadsArray | libjson.h:329-335 | at '[' the value is the array parsed from the token, and the cursor moves past the token |
| Parser.ReadsString | libjson.h:318-325 | at '"' the value is the extracted string and the cursor moves past both quotes |
| Parser.ReadsLiteral | libjson.h:336-345 | `n`, `t` and `f` give null, true and false and move the cursor 4, 4 and 5 characters |
| Parser.ReadsNumber | libjson.h:348-376 | at a digit or '-' the value is the staged run's reading and the cursor moves past the run and one more character |
| Parser.ReadsNothing | libjson.h:346-349 | any other character starts no value |
| Parser.ObjectOpens | libjson.h:302-304 | the first '{' only clears firstBrace |
| Parser.ObjectNamesKey | libjson.h:318-328 | a string while no ':' is pending becomes the key, and the cursor moves past it |
| Parser.ObjectAnnounces | libjson.h:346-347 | a ':' marks that a value follows |
| Parser.ObjectStores | libjson.h:302-376 | a value is stored under the pending key with o_setJSONElement, and the key and the ':' mark are cleared |
| Parser.ObjectMoves | libjson.h:298-349 | blanks, ',' and stray characters only move the cursor |
| Parser.ArrayAppends | libjson.h:855-905 | a value is appended at index numberOfElements |
| Parser.ArrayMoves | libjson.h:849-881 | blanks, the first '[', ',' and stray characters only move the cursor |
| Parser.ObjectStepUnique | libjson.h:302-376 | a turn of the object loop keeps the keys unique |
| Parser.ObjectScanUnique | libjson.h:295-378 | the rest of the object pass keeps the keys unique |
| Parser.ParsedKeysUnique | libjson.h:288-381 | a parsed object never holds two pairs with the same key |
| Parser.ReadValue | libjson.h:302-376 | the value branches both loops share read what ValueAt reads |
| Parser.StoreInObject | libjson.h:302-376 | the typed o_set* calls of the object loop store the value under the key |
| Parser.StoreInArray | libjson.h:855-905 | the typed a_set* calls of the array loop append the value |
| Parser.ParseObject | libjson.h:288-381 | the loop builds exactly the pairs of ParseObjectF |
| Parser.ParseArray | libjson.h:841-910 | the loop builds exactly the elements of ParseArrayF |
| Roundtrip.ArrayRoundTrip | libjson.h:841-910 | a_parseJSONArray reads the text a_JSONArrayToString prints for an array of scalars (null, booleans, numbers with at most six decimals, strings whose inner quotes are already escaped) as the same elements, in the same order |
| Roundtrip.ObjectRoundTrip | libjson.h:288-381 | o_parseJSONObject reads the text o_JSONObjectToString prints for an object with unique, non-NULL, well-formed keys and scalar values as the same pairs, in the same order |
| Roundtrip.ScanValues | libjson.h:846-908 | the array pass over comma-joined printed scalars, up to the final ']', appends exactly those scalars after what it already holds |
| Roundtrip.ScanValueThenMore | libjson.h:846-908 | the same pass over one printed scalar, a comma and the rest: the first is appended, then the rest |
| Roundtrip.ScanValue | libjson.h:864-907 | a printed scalar followed by ',' or the final ']' is appended, and the pass goes on after that character |
| Roundtrip.ArrayTakesLiteral | libjson.h:874-881 | at 'n', 't' or 'f' the literal is appended, and the cursor skips the word and then the comma |
| Roundtrip.ArrayTakesString | libjson.h:864-868 | at '"' the extracted string is appended, and the cursor skips both quotes and then the comma |
| Roundtrip.ArrayTakesNumber | libjson.h:882-906 | at a digit or '-' the number read is appended, and the cursor ends one past the run, beyond the separator |
| Roundtrip.ArrayAfterValue | libjson.h:880-881 | after an element the pass goes on after the following ',' whether it stands on it or already past it |
| Roundtrip.ArrayOpening | libjson.h:851-854 | the first '[' only opens the array |
| Roundtrip.ScanPairs | libjson.h:295-379 | the object pass over comma-joined printed pairs with fresh keys, up to the final '}', appends exactly those pairs after what it already holds |
| Roundtrip.ScanPairThenMore | libjson.h:295-379 | the same pass over one printed pair, a comma and the rest: the first is stored, then the rest |
| Roundtrip.ScanPair | libjson.h:317-378 | a printed pair followed by ',' or the final '}' is stored at the end, its key being new, and the pass goes on after that character |
| Roundtrip.ScanKey | libjson.h:317-347 | a quoted key and its colon leave the key pending and a value announced |
| Roundtrip.KeyNamed | libjson.h:317-328 | a string while no value is announced becomes the pending key |
| Roundtrip.ColonAnnounced | libjson.h:346-347 | a ':' announces a value and keeps the pending key |
| Roundtrip.ScanPairValue | libjson.h:317-378 | a printed scalar under a pending key is stored under it, and the pass goes on after the following ',' or '}' |
| Roundtrip.ObjectTakesLiteral | libjson.h:336-349 | at 'n', 't' or 'f' the literal is stored under the pending key, and the cursor skips the word and then the comma |
| Roundtrip.ObjectTakesString | libjson.h:317-328 | at '"' with a value announced the extracted string is stored under the pending key, and the cursor skips both quotes and then the comma |
| Roundtrip.ObjectTakesNumber | libjson.h:350-378 | at a digit or '-' the number read is stored under the pending key, and the cursor ends one past the run, beyond the separator |
| Roundtrip.ObjectAfterValue | libjson.h:348-349 | after a value the pass goes on after the following ',' whether it stands on it or already past it |
| Roundtrip.ObjectOpening | libjson.h:302-304 | the first '{' only opens the object |
| Roundtrip.FreshKey | libjson.h:1528-1545 | storing a key absent from the object appends the pair: o_remove finds nothing to drop |
| Roundtrip.ExtractAt | libjson.h:1355-1384 | a well-formed string printed between quotes is extracted unchanged, whatever follows |
| Roundtrip.NumberAtRendered | libjson.h:350-373 | the run loop measures exactly the printed number when a separator follows, and reads it back as the same number |
| Roundtrip.LiteralAt | libjson.h:1438-1490 | null, true and false print as four, four and five letters starting with the letter the parsers test |
| Roundtrip.JoinSplit | libjson.h:262-273 | comma-joined texts are the first, a comma, and the rest joined |

## Left out

- Memory: `malloc`, `free`, `libjson_deallocate`, `libjson_extendString`, `libjson_emptyString` and the destroy functions beyond "the count becomes 0"; Dafny's memory is managed.
- Allocation failure: the branches that print to stderr when `realloc` returns NULL are not modelled; `realloc` always succeeds here.
- Floating point: numbers are exact reals. The rounding of `long double`, negative zero, infinities and NaN are not modelled; `sprintf("%Lf")` is modelled as exact rounding to six decimals, ties to even.
- The width of `long`: `(long)` casts truncate toward zero but do not wrap.
- The 128-byte staging buffer of the number loop and its overflow: the buffer here is as long as the run.
- Objects.JsonObject.SetString: a NULL `set` is not modelled. C copies it with `libjson_strcpy`, which returns NULL (libjson.h:1660-1662), and stores a string-typed element whose `string` is NULL (libjson.h:722-727); o_isString then holds, o_getString returns NULL and the serializer passes NULL to `"\"%s\""` (libjson.h:1482-1483). Here a string element always holds a text.
- Arrays.JsonArray.SetString: likewise, a NULL `set` stored by a_setString (libjson.h:1232-1237) as a string element with a NULL `string` is not modelled.
- Serializer.RenderValue: the 128-byte buffer `tmp` into which the number is printed with `%Lf` (libjson.h:1440, 1457) is not modelled. A number whose `%Lf` text needs more than 127 characters, roughly |x| >= 10^120, overflows it in C; here every real prints in full.
- NUL characters inside strings: a `string` may contain them, which a C string cannot.
- Values.Trunc: the cast to `long` is modelled without its overflow.
- Serializer.RenderPair: a NULL key is printed as "(null)", as the GNU C library prints a NULL `%s`; C leaves this undefined.
- Arrays.JsonArray.Remove: requires a non-negative index and a non-empty array. With a negative index the C shift loop writes before the buffer (`elements[-1]`), and on an empty array the count becomes -1; neither is modelled. An index past the end is modelled: the last element is dropped.
- Aliasing: o_getJSONObject, o_getJSONArray, a_getJSONObject and a_getJSONArray (libjson.h:489, 500, 999, 1010) return the C struct by value, so the copy shares the `elements` buffer of the stored container, and o_setJSONObject, o_setJSONArray, a_setJSONObject and a_setJSONArray (libjson.h:652, 666, 1162, 1176) store the caller's struct shallowly. Here containers are values, so a change through one copy is not seen through the other.
- Destroying the removed element in `o_remove` and keeping it in `a_remove` are memory effects and are not modelled.
- The overlapping `sprintf(str, "%s%s%s", str, ...)` of both container serializers is modelled as the concatenation it is meant to be.
- Serializer.RenderArray: its round trip (Roundtrip.ArrayRoundTrip) is proved for arrays of scalars only. For an element that is itself an object or an array, the model would also have to show that the printed text of the container is balanced, so that libjson_extractRaw cuts out exactly that container (Scanner.ExtractBalanced); that step is not proved.
- Serializer.RenderObject: as for arrays, the round trip (Roundtrip.ObjectRoundTrip) covers objects whose values are scalars; nested containers are not covered, for the same reason.
- Serializer.RenderValue: printing a single value and reading it back is covered only through the containers above, for scalars. Strings are printed without escaping, so a string with an unescaped inner quote does not read back; numbers are printed with six decimals, so one with more does not read back either. Both cases are excluded by Roundtrip.Scalar.
- The CLI driver test.c is not part of this model.

## Findings

| source | as written | input that shows it | evidently intended | confidence | as-written member | corrected member |
|---|---|---|---|---|---|---|
| libjson.h:1597-1602 | the shift loop of a_setJSONElement writes through `json->elements` before the new block `tmp` is stored; when realloc moves the block, the shifts land in the released block | inserting at index 0 into [true, false] when realloc moves the block yields [v, false, junk] | shift inside the new block, giving [v, true, false] | not executed | Arrays.SetElementAsWritten, Arrays.StaleInsertLosesElement | Arrays.JsonArray.SetElement |

/**
 * The character and C-string helpers of libjson.h. A Dafny `string` stands for
 * the characters of a C string before its terminating NUL, so libjson_strlen is
 * `|s|` and libjson_strcpy is the identity on values; a NULL `char*` is `None`.
 */
module Text {
  import opened Values

  /** libjson_isspace: the six C whitespace characters. */
  predicate IsSpace(c: char)
  {
    c == ' ' || c == '\t' || c == '\n' || c == '\r' || c == '\U{000C}' || c == '\U{000B}'
  }

  /** libjson_isdigit: an ASCII decimal digit. */
  predicate IsDigit(c: char)
  {
    '0' <= c <= '9'
  }

  /** Two keys are the same key: both non-NULL and equal (the result of libjson_strcmp). */
  predicate KeyMatches(k1: Option<string>, k2: Option<string>)
  {
    k1.Some? && k2.Some? && k1.value == k2.value
  }

  /** libjson_strcmp: walk both strings while neither has ended, then compare the terminators. */
  method StrCmp(s1: Option<string>, s2: Option<string>) returns (same: bool)
    ensures same <==> KeyMatches(s1, s2)
  {
    if s1.None? || s2.None? {
      return false;
    }
    var a, b := s1.value, s2.value;
    var i := 0;
    while i < |a| && i < |b|
      invariant 0 <= i <= |a| && i <= |b|
      invariant a[..i] == b[..i]
    {
      if a[i] != b[i] {
        assert a[i] == a[..i + 1][i] && b[i] == b[..i + 1][i];
        return false;
      }
      assert a[..i + 1] == a[..i] + [a[i]] && b[..i + 1] == b[..i] + [b[i]];
      i := i + 1;
    }
    // one string has reached its terminator; they are equal when both have
    same := |a| == |b|;
    assert |a| == |b| ==> a == a[..i] && b == b[..i];
    assert |a| != |b| ==> a != b;
  }
}

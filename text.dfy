/** String helpers shared by the backend (Python) and the frontend
    (TypeScript) models: substring search, digits, whitespace stripping,
    joining, decimal rendering and lexicographic order. */
module Text {

  /** `needle in haystack` for Python strs (and `includes` in JavaScript). */
  predicate IsSubstring(needle: string, haystack: string) {
    exists i | 0 <= i <= |haystack| :: OccursAt(needle, haystack, i)
  }

  predicate OccursAt(needle: string, haystack: string, i: int) {
    0 <= i <= |haystack| - |needle| && haystack[i..i + |needle|] == needle
  }

  predicate IsDigit(c: char) {
    '0' <= c <= '9'
  }

  predicate AllDigits(s: string) {
    forall i :: 0 <= i < |s| ==> IsDigit(s[i])
  }

  /** The characters Python's `str.strip()` removes: those for which
      `str.isspace()` holds. */
  predicate IsPySpace(c: char) {
    '\t' <= c <= '\r' || '\U{1c}' <= c <= '\U{1f}' || c == ' ' || c == '\U{85}'
    || c == '\U{a0}' || c == '\U{1680}' || '\U{2000}' <= c <= '\U{200a}'
    || c == '\U{2028}' || c == '\U{2029}' || c == '\U{202f}' || c == '\U{205f}' || c == '\U{3000}'
  }

  /** The characters JavaScript's `String.prototype.trim()` removes: the
      WhiteSpace and LineTerminator productions of ECMAScript. */
  predicate IsJsSpace(c: char) {
    '\t' <= c <= '\r' || c == ' ' || c == '\U{a0}'
    || c == '\U{1680}' || '\U{2000}' <= c <= '\U{200a}'
    || c == '\U{2028}' || c == '\U{2029}' || c == '\U{202f}' || c == '\U{205f}' || c == '\U{3000}'
    || c == '\U{feff}'
  }

  function TrimStart(s: string, space: char -> bool): (r: string)
    ensures |r| <= |s| && r == s[|s| - |r|..]
    ensures r != [] ==> !space(r[0])
    ensures forall i :: 0 <= i < |s| - |r| ==> space(s[i])
  {
    if s != [] && space(s[0]) then TrimStart(s[1..], space) else s
  }

  function TrimEnd(s: string, space: char -> bool): (r: string)
    ensures |r| <= |s| && r == s[..|r|]
    ensures r != [] ==> !space(r[|r| - 1])
    ensures forall i :: |r| <= i < |s| ==> space(s[i])
  {
    if s != [] && space(s[|s| - 1]) then TrimEnd(s[..|s| - 1], space) else s
  }

  /** Both ends stripped of the characters `space` accepts: the result is the
      slice of `s` left when every leading and trailing such character is
      removed, and it neither starts nor ends with one. */
  function Strip(s: string, space: char -> bool): (r: string)
    ensures r != [] ==> !space(r[0]) && !space(r[|r| - 1])
    ensures exists i, j :: 0 <= i <= j <= |s| && r == s[i..j]
              && (forall k :: 0 <= k < i ==> space(s[k])) && (forall k :: j <= k < |s| ==> space(s[k]))
    ensures IsSubstring(r, s)
  {
    var t := TrimStart(s, space);
    var r := TrimEnd(t, space);
    var i := |s| - |t|;
    var j := i + |r|;
    TrimmedSlice(s, t, r, space);
    assert 0 <= i <= j <= |s| && r == s[i..j]
           && (forall k :: 0 <= k < i ==> space(s[k])) && (forall k :: j <= k < |s| ==> space(s[k]));
    assert OccursAt(r, s, i);
    r
  }

  /** Trimming the end of a trimmed start leaves a slice of the original,
      with only `space` characters after it. */
  lemma TrimmedSlice(s: string, t: string, r: string, space: char -> bool)
    requires |t| <= |s| && t == s[|s| - |t|..]
    requires |r| <= |t| && r == t[..|r|] && forall k :: |r| <= k < |t| ==> space(t[k])
    ensures r == s[|s| - |t|..|s| - |t| + |r|]
    ensures forall k :: |s| - |t| + |r| <= k < |s| ==> space(s[k])
  {
    var i := |s| - |t|;
    forall k | i + |r| <= k < |s| ensures space(s[k]) {
      assert s[k] == t[k - i];
    }
  }

  /** Keeps the decimal digits of `s`, in order: `s.replace(/[^0-9]/g, '')`. */
  function DigitsOnly(s: string): (r: string)
    ensures AllDigits(r)
    ensures |r| <= |s|
    ensures AllDigits(s) ==> r == s
  {
    if s == [] then []
    else if IsDigit(s[0]) then [s[0]] + DigitsOnly(s[1..])
    else DigitsOnly(s[1..])
  }

  /** Every digit of `s` is kept, as often as it occurs, and nothing else. */
  lemma {:induction false} DigitsOnlyCounts(s: string)
    ensures forall c :: multiset(DigitsOnly(s))[c] == (if IsDigit(c) then multiset(s)[c] else 0)
  {
    if s != [] {
      DigitsOnlyCounts(s[1..]);
      assert s == [s[0]] + s[1..];
    }
  }

  /** Filtering distributes over concatenation, so the digits are kept in
      their order. */
  lemma {:induction false} DigitsOnlyAppend(a: string, b: string)
    ensures DigitsOnly(a + b) == DigitsOnly(a) + DigitsOnly(b)
    decreases |a|
  {
    if a == [] {
      assert a + b == b;
    } else {
      var ab := a + b;
      assert ab[0] == a[0] && ab[1..] == a[1..] + b;
      DigitsOnlyAppend(a[1..], b);
      assert DigitsOnly(ab) == (if IsDigit(a[0]) then [a[0]] else []) + DigitsOnly(a[1..] + b);
      assert DigitsOnly(a) == (if IsDigit(a[0]) then [a[0]] else []) + DigitsOnly(a[1..]);
    }
  }

  /** `sep.join(parts)` / `parts.join(sep)`. */
  function JoinWith(sep: string, parts: seq<string>): string {
    if parts == [] then ""
    else if |parts| == 1 then parts[0]
    else parts[0] + sep + JoinWith(sep, parts[1..])
  }

  /** Concatenation of all parts, `parts.join('')`. */
  function Concat(parts: seq<string>): (r: string)
    ensures parts == [] ==> r == ""
  {
    if parts == [] then "" else parts[0] + Concat(parts[1..])
  }

  function DigitChar(d: nat): (c: char)
    requires d < 10
    ensures IsDigit(c)
  {
    ['0', '1', '2', '3', '4', '5', '6', '7', '8', '9'][d]
  }

  /** The decimal rendering of `n`, as `str(n)` and `String(n)` give it. */
  function NatToString(n: nat): (r: string)
    ensures r != [] && AllDigits(r)
    decreases n
  {
    if n < 10 then [DigitChar(n)] else NatToString(n / 10) + [DigitChar(n % 10)]
  }

  function IntToString(n: int): string {
    if n < 0 then "-" + NatToString(-n) else NatToString(n)
  }

  /** Lexicographic order by character code, as JavaScript's `<` orders strings. */
  predicate StrLess(a: string, b: string)
    decreases |a|
  {
    if a == [] then b != []
    else if b == [] then false
    else if a[0] != b[0] then a[0] < b[0]
    else StrLess(a[1..], b[1..])
  }

  lemma {:induction false} StrLessIrreflexive(a: string)
    ensures !StrLess(a, a)
    decreases |a|
  {
    if a != [] {
      StrLessIrreflexive(a[1..]);
    }
  }

  lemma {:induction false} StrLessAsymmetric(a: string, b: string)
    requires StrLess(a, b)
    ensures !StrLess(b, a)
    decreases |a|
  {
    if a != [] && b != [] && a[0] == b[0] {
      StrLessAsymmetric(a[1..], b[1..]);
    }
  }

  lemma {:induction false} StrLessTotal(a: string, b: string)
    ensures a == b || StrLess(a, b) || StrLess(b, a)
    decreases |a|
  {
    if a != [] && b != [] && a[0] == b[0] {
      StrLessTotal(a[1..], b[1..]);
      if a[1..] == b[1..] {
        assert a == [a[0]] + a[1..] && b == [b[0]] + b[1..];
      }
    }
  }

  lemma {:induction false} StrLessTransitive(a: string, b: string, c: string)
    requires StrLess(a, b) && StrLess(b, c)
    ensures StrLess(a, c)
    decreases |a|
  {
    if a != [] && a[0] == b[0] && b[0] == c[0] {
      StrLessTransitive(a[1..], b[1..], c[1..]);
    }
  }
}

/**
 * The PHP string primitives the version helper relies on: `strpos`,
 * `strtoupper` and the truthiness of a string (`empty()`, `if ($s)`).
 */
module PhpString {
  import opened Wrappers

  /** `needle` occurs in `haystack` starting at index `i`. */
  predicate IsAt(haystack: string, needle: string, i: int)
  {
    0 <= i && i + |needle| <= |haystack| && haystack[i..i + |needle|] == needle
  }

  /**
   * `strpos($haystack, $needle, $offset)`: the first index at or after
   * `offset` where `needle` occurs, compared character by character (so
   * case-sensitive); `None` stands for PHP's `false`.
   */
  function StrPosFrom(haystack: string, needle: string, offset: nat): (r: Option<nat>)
    requires offset <= |haystack|
    ensures r.Some? ==> offset <= r.value && IsAt(haystack, needle, r.value)
    ensures r.Some? ==> forall j :: offset <= j < r.value ==> !IsAt(haystack, needle, j)
    ensures r.None? ==> forall j :: offset <= j ==> !IsAt(haystack, needle, j)
    decreases |haystack| - offset
  {
    if offset + |needle| > |haystack| then None
    else if haystack[offset..offset + |needle|] == needle then Some(offset)
    else StrPosFrom(haystack, needle, offset + 1)
  }

  /** `strpos($haystack, $needle)`, searching from the start. */
  function StrPos(haystack: string, needle: string): (r: Option<nat>)
    ensures r.Some? ==> IsAt(haystack, needle, r.value)
    ensures r.Some? ==> forall j :: 0 <= j < r.value ==> !IsAt(haystack, needle, j)
    ensures r.None? ==> forall j :: !IsAt(haystack, needle, j)
  {
    StrPosFrom(haystack, needle, 0)
  }

  /** `strpos($haystack, $needle) !== false`. */
  predicate Contains(haystack: string, needle: string)
  {
    StrPos(haystack, needle).Some?
  }

  /** `strpos` finds a needle exactly when it occurs somewhere. */
  lemma ContainsIffOccurs(haystack: string, needle: string)
    ensures Contains(haystack, needle) <==> exists i :: IsAt(haystack, needle, i)
  {
  }

  /** An occurrence at a known index is found. */
  lemma ContainsAt(haystack: string, needle: string, i: int)
    requires IsAt(haystack, needle, i)
    ensures Contains(haystack, needle)
  {
  }

  /** A haystack that contains a non-empty needle contains the needle's first character. */
  lemma ContainsFirstChar(haystack: string, needle: string)
    requires needle != [] && Contains(haystack, needle)
    ensures needle[0] in haystack
  {
    var i := StrPos(haystack, needle).value;
    assert haystack[i..i + |needle|][0] == haystack[i];
  }

  /** A string is found in any concatenation it is part of. */
  lemma Placed(prefix: string, needle: string, suffix: string)
    ensures Contains(prefix + needle + suffix, needle)
  {
    var s := prefix + needle + suffix;
    assert s[|prefix|..|prefix| + |needle|] == needle;
    ContainsAt(s, needle, |prefix|);
  }

  predicate IsAsciiUpper(c: char) { 'A' <= c <= 'Z' }

  predicate IsAsciiLower(c: char) { 'a' <= c <= 'z' }

  /** `strtoupper` on one character: ASCII letters only, independent of the locale. */
  function UpperChar(c: char): char
  {
    if IsAsciiLower(c) then (c as int - 32) as char else c
  }

  /** `strtoupper($s)`. */
  function ToUpper(s: string): (r: string)
    ensures |r| == |s|
    ensures forall i :: 0 <= i < |s| ==> r[i] == UpperChar(s[i])
    ensures forall i :: 0 <= i < |r| ==> !IsAsciiLower(r[i])
  {
    if s == [] then [] else [UpperChar(s[0])] + ToUpper(s[1..])
  }

  /** PHP's `empty($s)` on a string, i.e. the string converts to `false`: `""` or `"0"`. */
  predicate Falsy(s: string)
    ensures |s| >= 2 ==> !Falsy(s)
    ensures |s| == 1 ==> (Falsy(s) <==> s[0] == '0')
  {
    s == "" || s == "0"
  }
}

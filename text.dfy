/** The string operations the service relies on: Java's `isBlank`, and the
    case mapping behind `toUpperCase` and a case-insensitive
    substring match. Case mapping covers the ASCII letters and the basic
    Cyrillic alphabet; every other character maps to itself. */
module Text {

  /** `Character.isWhitespace`: the ASCII separators and the Unicode space,
      line and paragraph separators other than the non-breaking ones. */
  predicate IsWhitespace(c: char) {
    || ('\U{9}' <= c <= '\U{D}')
    || ('\U{1C}' <= c <= '\U{20}')
    || c == '\U{1680}'
    || ('\U{2000}' <= c <= '\U{2006}')
    || ('\U{2008}' <= c <= '\U{200A}')
    || c == '\U{2028}' || c == '\U{2029}' || c == '\U{205F}' || c == '\U{3000}'
  }

  /** `String.isBlank`: empty, or whitespace only. */
  predicate IsBlank(s: string) {
    forall i :: 0 <= i < |s| ==> IsWhitespace(s[i])
  }

  predicate IsUpperLetter(c: char) {
    ('A' <= c <= 'Z') || ('\U{400}' <= c <= '\U{42F}')
  }

  predicate IsLowerLetter(c: char) {
    ('a' <= c <= 'z') || ('\U{430}' <= c <= '\U{45F}')
  }

  /** The upper-case form of one character: each lower-case letter becomes
      its own capital (`a` to `A`, `а` to `А`, `ё` to `Ё`). */
  function UpperChar(c: char): (u: char)
    ensures 'a' <= c <= 'z' ==> u as int == c as int - 32
    ensures '\U{430}' <= c <= '\U{44F}' ==> u as int == c as int - 32
    ensures '\U{450}' <= c <= '\U{45F}' ==> u as int == c as int - 80
    ensures IsLowerLetter(c) ==> IsUpperLetter(u)
    ensures !IsLowerLetter(c) ==> u == c
  {
    if 'a' <= c <= 'z' then (c as int - 32) as char
    else if '\U{430}' <= c <= '\U{44F}' then (c as int - 32) as char
    else if '\U{450}' <= c <= '\U{45F}' then (c as int - 80) as char
    else c
  }

  /** The lower-case form of one character, the inverse of `UpperChar` on
      letters. */
  function LowerChar(c: char): (l: char)
    ensures IsUpperLetter(c) ==> IsLowerLetter(l)
    ensures !IsUpperLetter(c) ==> l == c
  {
    if 'A' <= c <= 'Z' then (c as int + 32) as char
    else if '\U{410}' <= c <= '\U{42F}' then (c as int + 32) as char
    else if '\U{400}' <= c <= '\U{40F}' then (c as int + 80) as char
    else c
  }

  /** Upper-casing a lower-case letter and lowering it again gives the letter
      back, so no two lower-case letters share a capital. */
  lemma LowerOfUpper(c: char)
    requires IsLowerLetter(c)
    ensures LowerChar(UpperChar(c)) == c
  {
  }

  /** Two different lower-case letters have different capitals. */
  lemma UpperCharInjective(c: char, d: char)
    requires IsLowerLetter(c) && IsLowerLetter(d) && c != d
    ensures UpperChar(c) != UpperChar(d)
  {
    LowerOfUpper(c);
    LowerOfUpper(d);
  }

  /** `String.toUpperCase`, character by character. */
  function Upper(s: string): (r: string)
    ensures |r| == |s|
    ensures forall i :: 0 <= i < |s| ==> r[i] == UpperChar(s[i])
  {
    seq(|s|, i requires 0 <= i < |s| => UpperChar(s[i]))
  }

  /** Upper-casing twice is upper-casing once. */
  lemma UpperIdempotent(s: string)
    ensures Upper(Upper(s)) == Upper(s)
  {
    forall i | 0 <= i < |s| ensures Upper(Upper(s))[i] == Upper(s)[i] {
      assert !IsLowerLetter(UpperChar(s[i]));
    }
  }

  /** A string made of upper-case letters and underscores is its own upper
      case. */
  lemma UpperOfUpperCase(s: string)
    requires forall i :: 0 <= i < |s| ==> 'A' <= s[i] <= 'Z' || s[i] == '_'
    ensures Upper(s) == s
  {
    forall i | 0 <= i < |s| ensures Upper(s)[i] == s[i] {
      assert !IsLowerLetter(s[i]);
    }
  }

  /** `needle` occurs in `hay` at position `i`. */
  predicate OccursAt(hay: string, needle: string, i: int) {
    0 <= i <= |hay| - |needle| && hay[i..i + |needle|] == needle
  }

  /** `String.contains`. */
  predicate Contains(hay: string, needle: string) {
    exists i :: 0 <= i <= |hay| - |needle| && OccursAt(hay, needle, i)
  }

  /** The case-insensitive `LIKE '%text%'` test, which compares the upper-case
      forms of the column and the text. */
  predicate ContainsIgnoreCase(hay: string, needle: string) {
    Contains(Upper(hay), Upper(needle))
  }

  /** The empty text occurs in every string. */
  lemma ContainsEmpty(hay: string)
    ensures ContainsIgnoreCase(hay, "")
  {
    assert OccursAt(Upper(hay), Upper(""), 0);
  }

  /** Matching ignores the case in which the text is written. */
  lemma ContainsIgnoreCaseOfUpper(hay: string, needle: string)
    ensures ContainsIgnoreCase(hay, Upper(needle)) <==> ContainsIgnoreCase(hay, needle)
  {
    UpperIdempotent(needle);
  }
}

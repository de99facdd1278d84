/**
 * String helpers shared by the scripts: Python's `str.lower()` and the
 * substring test `needle in haystack`.
 */
module Text {

  /** True when `ch` is an upper-case letter that `LowerChar` folds:
      ASCII A-Z and the Latin-1 capitals U+00C0..U+00DE except U+00D7 (multiplication sign). */
  predicate IsUpperChar(ch: char) {
    ('A' <= ch <= 'Z') || (0xC0 <= ch as int <= 0xDE && ch as int != 0xD7)
  }

  /** Lower-case one character; every other character is left alone. */
  function LowerChar(ch: char): (r: char)
    ensures IsUpperChar(ch) ==> r as int == ch as int + 32
    ensures !IsUpperChar(ch) ==> r == ch
    ensures !IsUpperChar(r)
  {
    if IsUpperChar(ch) then (ch as int + 32) as char else ch
  }

  /** `s.lower()`: the string with every upper-case letter folded. */
  function Lower(s: string): (r: string)
    ensures |r| == |s|
    ensures forall i :: 0 <= i < |s| ==> r[i] == LowerChar(s[i])
  {
    if s == [] then [] else [LowerChar(s[0])] + Lower(s[1..])
  }

  /** Lower-casing twice is lower-casing once. */
  lemma LowerIdempotent(s: string)
    ensures Lower(Lower(s)) == Lower(s)
  {
  }

  /** `needle` occurs in `haystack` starting at index `i`. */
  predicate OccursAt(haystack: string, needle: string, i: nat) {
    i + |needle| <= |haystack| && haystack[i..i + |needle|] == needle
  }

  /** Some occurrence of `needle` starts at an index `>= from`. */
  function ContainsFrom(haystack: string, needle: string, from: nat): (b: bool)
    ensures b <==> exists i :: from <= i && OccursAt(haystack, needle, i)
    decreases |haystack| - from
  {
    if from + |needle| > |haystack| then
      assert forall i :: from <= i ==> !OccursAt(haystack, needle, i);
      false
    else if haystack[from..from + |needle|] == needle then
      assert OccursAt(haystack, needle, from);
      true
    else
      ContainsFrom(haystack, needle, from + 1)
  }

  /** Python's `needle in haystack` on strings. */
  function Contains(haystack: string, needle: string): (b: bool)
    ensures b <==> exists i :: OccursAt(haystack, needle, i)
  {
    ContainsFrom(haystack, needle, 0)
  }
}

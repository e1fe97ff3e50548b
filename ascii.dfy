/**
 * Letter case of handles. The source compares handles with Python's
 * `str.lower()`, which folds the whole of Unicode; this model folds only the
 * ASCII letters 'A'..'Z' and leaves every other character as it is, so it
 * agrees with Python on handles made of ASCII characters.
 */
module Ascii {

  predicate IsUpper(c: char) { 'A' <= c <= 'Z' }

  predicate IsLower(c: char) { 'a' <= c <= 'z' }

  function LowerChar(c: char): char
  {
    if IsUpper(c) then (c as int + 32) as char else c
  }

  function UpperChar(c: char): char
  {
    if IsLower(c) then (c as int - 32) as char else c
  }

  /** `s.lower()` restricted to ASCII letters. */
  function Lower(s: string): (r: string)
    ensures |r| == |s|
    ensures forall i :: 0 <= i < |s| ==> r[i] == LowerChar(s[i])
  {
    if s == [] then [] else [LowerChar(s[0])] + Lower(s[1..])
  }

  /** `s.upper()` restricted to ASCII letters: one way of changing a handle's case. */
  function Upper(s: string): (r: string)
    ensures |r| == |s|
    ensures forall i :: 0 <= i < |s| ==> r[i] == UpperChar(s[i])
  {
    if s == [] then [] else [UpperChar(s[0])] + Upper(s[1..])
  }

  /** Two handles are the same handle when their lowercase forms are equal. */
  predicate SameIgnoringCase(a: string, b: string)
  {
    Lower(a) == Lower(b)
  }

  // The two facts below follow from the element-wise contracts of Lower and Upper.

  /** Lowercasing twice is lowercasing once. */
  lemma LowerIdempotent(s: string)
    ensures Lower(Lower(s)) == Lower(s)
  {
  }

  /** Upper-casing a handle does not change which handle it is. */
  lemma LowerOfUpper(s: string)
    ensures Lower(Upper(s)) == Lower(s)
  {
  }

  /** Case-insensitive equality identifies a handle with its upper- and lower-case variants. */
  lemma CaseVariantsAreSame(s: string)
    ensures SameIgnoringCase(s, Upper(s))
    ensures SameIgnoringCase(s, Lower(s))
  {
    LowerOfUpper(s);
    LowerIdempotent(s);
  }
}

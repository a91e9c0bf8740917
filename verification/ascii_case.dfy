/**
  ASCII letter case.

  The classifier lower-cases an agent's display name before comparing it
  with the known default names. This module gives that lower-casing for the
  ASCII letters A-Z, and an independent, character-by-character notion of
  "equal apart from letter case" that the lower-casing is proved to decide.
 */
module AsciiCase {

  /** Distance between an upper-case ASCII letter and its lower-case partner. */
  const CaseOffset: int := 'a' as int - 'A' as int

  predicate IsUpper(c: char) {
    'A' <= c <= 'Z'
  }

  /** `a` and `b` are the same character, or the two cases of one ASCII letter. */
  ghost predicate CaseVariants(a: char, b: char) {
    || a == b
    || (IsUpper(a) && b as int == a as int + CaseOffset)
    || (IsUpper(b) && a as int == b as int + CaseOffset)
  }

  /** `s` and `t` have the same length and differ at most in ASCII letter case. */
  ghost predicate EqualIgnoringCase(s: string, t: string) {
    |s| == |t| && forall i :: 0 <= i < |s| ==> CaseVariants(s[i], t[i])
  }

  /** Lower-cases one character: an upper-case ASCII letter becomes its
      lower-case partner; every other character is left as it is. */
  function LowerChar(c: char): (d: char)
    ensures !IsUpper(d)
    ensures CaseVariants(c, d)
  {
    if IsUpper(c) then (c as int + CaseOffset) as char else c
  }

  /** Lower-cases a string, character by character. */
  function Lower(s: string): (r: string)
    ensures |r| == |s|
    ensures forall i :: 0 <= i < |s| ==> r[i] == LowerChar(s[i])
    ensures forall i :: 0 <= i < |r| ==> !IsUpper(r[i])
  {
    if s == [] then [] else [LowerChar(s[0])] + Lower(s[1..])
  }

  /** Two characters lower-case to the same character exactly when they are
      case variants of each other. */
  lemma LowerCharEqualIff(a: char, b: char)
    ensures LowerChar(a) == LowerChar(b) <==> CaseVariants(a, b)
  {
  }

  /** Lower-casing decides equality ignoring case, in both directions. */
  lemma {:induction false} LowerEqualIff(s: string, t: string)
    ensures Lower(s) == Lower(t) <==> EqualIgnoringCase(s, t)
  {
    if Lower(s) == Lower(t) {
      forall i | 0 <= i < |s| ensures CaseVariants(s[i], t[i]) {
        assert Lower(s)[i] == Lower(t)[i];
        LowerCharEqualIff(s[i], t[i]);
      }
    }
    if EqualIgnoringCase(s, t) {
      forall i | 0 <= i < |s| ensures Lower(s)[i] == Lower(t)[i] {
        LowerCharEqualIff(s[i], t[i]);
      }
    }
  }

  /** Lower-casing twice is lower-casing once. */
  lemma LowerIdempotent(s: string)
    ensures Lower(Lower(s)) == Lower(s)
  {
  }

  /** A string with no upper-case ASCII letter is its own lower-casing. */
  lemma LowerFixesLowercase(s: string)
    requires forall i :: 0 <= i < |s| ==> !IsUpper(s[i])
    ensures Lower(s) == s
  {
  }
}

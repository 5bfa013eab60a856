/**
 * Base-36 numerals as Ruby writes them with Integer#to_s(36) and reads them
 * with String#to_i(36).
 */
module Radix36 {

  /** A character String#to_i(36) accepts as a digit (either case). */
  predicate IsDigit(c: char) {
    '0' <= c <= '9' || 'a' <= c <= 'z' || 'A' <= c <= 'Z'
  }

  /** A digit as Integer#to_s(36) writes it (lower case). */
  predicate IsLowerDigit(c: char) {
    '0' <= c <= '9' || 'a' <= c <= 'z'
  }

  predicate AllDigits(s: string) {
    forall i | 0 <= i < |s| :: IsDigit(s[i])
  }

  function DigitValue(c: char): (v: nat)
    requires IsDigit(c)
    ensures v < 36
  {
    if c <= '9' then c as nat - '0' as nat
    else if 'a' <= c then c as nat - 'a' as nat + 10
    else c as nat - 'A' as nat + 10
  }

  function DigitChar(v: nat): (c: char)
    requires v < 36
    ensures IsLowerDigit(c) && IsDigit(c) && DigitValue(c) == v
  {
    if v < 10 then ('0' as int + v) as char else ('a' as int + v - 10) as char
  }

  /** Integer#to_s(36) of a non-negative integer: lower-case digits, most significant first. */
  function ToBase36(n: nat): (s: string)
    ensures |s| > 0
    ensures forall i | 0 <= i < |s| :: IsLowerDigit(s[i])
    ensures AllDigits(s)
    ensures n > 0 ==> s[0] != '0'
    decreases n
  {
    if n < 36 then [DigitChar(n)] else ToBase36(n / 36) + [DigitChar(n % 36)]
  }

  /** The value of a string of digits, most significant first; the empty string is 0. */
  function Value(s: string): nat
    requires AllDigits(s)
  {
    if s == [] then 0 else Value(s[..|s| - 1]) * 36 + DigitValue(s[|s| - 1])
  }

  /** The longest prefix of s made of digits. */
  function LeadingDigits(s: string): (p: string)
    ensures AllDigits(p)
    ensures |p| <= |s| && p == s[..|p|]
    ensures |p| < |s| ==> !IsDigit(s[|p|])
  {
    if s == [] || !IsDigit(s[0]) then [] else [s[0]] + LeadingDigits(s[1..])
  }

  /**
   * String#to_i(36): the value of the leading digits; text after them is
   * ignored and a string that starts with none reads as 0.
   */
  function ToI(s: string): nat {
    Value(LeadingDigits(s))
  }

  /** Reading back what ToBase36 wrote gives the number. */
  lemma {:induction false} ValueOfToBase36(n: nat)
    ensures Value(ToBase36(n)) == n
    decreases n
  {
    var s := ToBase36(n);
    if n >= 36 {
      ValueOfToBase36(n / 36);
      assert s[..|s| - 1] == ToBase36(n / 36);
    }
  }

  /** A string made only of digits is its own leading-digit run. */
  lemma LeadingDigitsOfDigits(s: string)
    requires AllDigits(s)
    ensures LeadingDigits(s) == s
  {
  }

  /** String#to_i(36) inverts Integer#to_s(36). */
  lemma ToIOfToBase36(n: nat)
    ensures ToI(ToBase36(n)) == n
  {
    LeadingDigitsOfDigits(ToBase36(n));
    ValueOfToBase36(n);
  }
}

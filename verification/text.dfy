/** Character-level helpers: decimal digits and case folding. */
module Text {

  predicate IsDigit(c: char) {
    '0' <= c <= '9'
  }

  predicate IsDigits(s: string) {
    forall i :: 0 <= i < |s| ==> IsDigit(s[i])
  }

  /** The number a string of decimal digits spells, leading zeros allowed. */
  function Decimal(s: string): (n: nat)
    requires IsDigits(s)
  {
    if |s| == 0 then 0
    else 10 * Decimal(s[..|s| - 1]) + (s[|s| - 1] as int - '0' as int)
  }

  /** Two-digit strings spell 0 to 99: "07" is 7. */
  lemma {:induction false} DecimalTwoDigits(s: string)
    requires |s| == 2 && IsDigits(s)
    ensures Decimal(s) == 10 * (s[0] as int - '0' as int) + (s[1] as int - '0' as int)
  {
    var first := s[..1];
    assert first[..0] == [] && first[0] == s[0];
    assert Decimal(first) == s[0] as int - '0' as int;
    assert Decimal(s) == 10 * Decimal(first) + (s[1] as int - '0' as int);
  }

  function LowerChar(c: char): char {
    if 'A' <= c <= 'Z' then (c as int - 'A' as int + 'a' as int) as char else c
  }

  /** `str.lower()` restricted to ASCII letters; every other character is kept. */
  function Lower(s: string): (r: string)
    ensures |r| == |s|
    ensures forall i :: 0 <= i < |s| ==> r[i] == LowerChar(s[i])
  {
    if |s| == 0 then [] else [LowerChar(s[0])] + Lower(s[1..])
  }

  /** Strings that differ at most in the case of their first letter are equal ignoring case. */
  lemma SameIgnoringCaseOfHead(a: string, b: string)
    requires |a| == |b| > 0 && a[1..] == b[1..] && LowerChar(a[0]) == LowerChar(b[0])
    ensures Lower(a) == Lower(b)
  {
    assert Lower(a) == [LowerChar(a[0])] + Lower(a[1..]);
    assert Lower(b) == [LowerChar(b[0])] + Lower(b[1..]);
  }

  /** Case-insensitive equality, as `a.lower() == b.lower()`. */
  predicate SameIgnoringCase(a: string, b: string) {
    Lower(a) == Lower(b)
  }
}

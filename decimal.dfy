/**
 * Decimal rendering of natural numbers, as the templates' `{{idx}}`
 * placeholders print a loop index (Python's `str` on a non-negative int).
 * `Parse` is the inverse used to show that the rendering is injective, so
 * that `a_dim1` and `a_dim10` can never name the same parameter.
 */
module Decimal {

  predicate IsDigit(c: char) {
    '0' <= c <= '9'
  }

  predicate AllDigits(s: string) {
    forall k :: 0 <= k < |s| ==> IsDigit(s[k])
  }

  function DigitChar(d: nat): (c: char)
    requires d < 10
    ensures IsDigit(c)
    ensures c as int - '0' as int == d
  {
    ('0' as int + d) as char
  }

  function DigitValue(c: char): (d: nat)
    requires IsDigit(c)
    ensures d < 10
    ensures DigitChar(d) == c
  {
    c as int - '0' as int
  }

  /** The decimal text of `n`: one or more digits, no leading zero. */
  function Format(n: nat): (s: string)
    ensures |s| >= 1
    ensures AllDigits(s)
    ensures s[0] == '0' <==> n == 0
    ensures n < 10 <==> |s| == 1
    decreases n
  {
    if n < 10 then [DigitChar(n)] else Format(n / 10) + [DigitChar(n % 10)]
  }

  /** Reads a string of digits back as the number it denotes. */
  function Parse(s: string): nat
    requires AllDigits(s)
    decreases |s|
  {
    if s == [] then 0 else 10 * Parse(s[..|s| - 1]) + DigitValue(s[|s| - 1])
  }

  lemma {:induction false} ParseFormat(n: nat)
    ensures Parse(Format(n)) == n
    decreases n
  {
    var s := Format(n);
    if n < 10 {
      assert s[..|s| - 1] == [];
    } else {
      assert s[..|s| - 1] == Format(n / 10);
      ParseFormat(n / 10);
    }
  }

  lemma FormatInjective(m: nat, n: nat)
    ensures Format(m) == Format(n) <==> m == n
  {
    ParseFormat(m);
    ParseFormat(n);
  }
}

/** Numbers in decimal digits.

    - `Digits` prints a number without leading zeros, `ValueOf` reads digits;
    - reading undoes printing, so different numbers print differently;
    - `DigitRun` is how far a text begins with digits. */
module Decimals {

  predicate IsDigit(c: char) {
    '0' <= c <= '9'
  }

  predicate AllDigits(s: string) {
    forall i :: 0 <= i < |s| ==> IsDigit(s[i])
  }

  function Digit(n: nat): (c: char)
    requires n < 10
    ensures IsDigit(c) && c as int - '0' as int == n
  {
    ('0' as int + n) as char
  }

  function Digits(n: nat): (s: string)
    ensures s != "" && AllDigits(s) && (|s| > 1 ==> s[0] != '0')
  {
    if n < 10 then [Digit(n)] else Digits(n / 10) + [Digit(n % 10)]
  }

  function ValueOf(s: string): nat
    requires AllDigits(s)
  {
    if s == "" then 0 else 10 * ValueOf(s[..|s| - 1]) + (s[|s| - 1] as int - '0' as int)
  }

  lemma {:induction false} DigitsRoundTrip(n: nat)
    ensures ValueOf(Digits(n)) == n
    decreases n
  {
    var s := Digits(n);
    if n < 10 {
      assert s[..0] == "" && ValueOf(s[..0]) == 0;
    } else {
      assert s[..|s| - 1] == Digits(n / 10) && s[|s| - 1] == Digit(n % 10);
      DigitsRoundTrip(n / 10);
    }
  }

  lemma DigitsInjective(m: nat, n: nat)
    requires Digits(m) == Digits(n)
    ensures m == n
  {
    DigitsRoundTrip(m);
    DigitsRoundTrip(n);
  }

  /** How many digits the text begins with. */
  function DigitRun(t: string): (n: nat)
    ensures n <= |t| && AllDigits(t[..n]) && (n < |t| ==> !IsDigit(t[n]))
  {
    if t != "" && IsDigit(t[0]) then
      assert t[..1 + DigitRun(t[1..])] == [t[0]] + t[1..][..DigitRun(t[1..])];
      1 + DigitRun(t[1..])
    else 0
  }

  lemma {:induction false} RunOfDigits(s: string, rest: string)
    requires AllDigits(s) && (rest != "" ==> !IsDigit(rest[0]))
    ensures DigitRun(s + rest) == |s| && (s + rest)[..|s|] == s && (s + rest)[|s|..] == rest
    decreases |s|
  {
    if s == "" {
      assert s + rest == rest;
    } else {
      assert (s + rest)[1..] == s[1..] + rest;
      RunOfDigits(s[1..], rest);
    }
  }
}

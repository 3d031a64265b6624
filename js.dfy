/** JavaScript conventions shared by the modules of this model: missing values,
    thrown exceptions, and the few string built-ins the core relies on. */
module Js {

  /** `undefined`/`null` versus a present value. */
  datatype Option<+T> = None | Some(value: T)

  /** The completion of evaluating a piece of JavaScript: either it returns a
      value normally, or it throws. The only exception the modelled code can
      raise is a TypeError (a property read on `undefined` or `null`). */
  datatype Completion<+T> = Normal(value: T) | TypeError

  /** `s.endsWith(suffix)`; equivalently, the regular expression `/suffix$/`
      without the multiline flag matching `s`. */
  predicate EndsWith(s: string, suffix: string) {
    |suffix| <= |s| && s[|s| - |suffix|..] == suffix
  }

  /** `pat` occurs in `s` starting at position `i`. */
  predicate OccursAt(s: string, pat: string, i: nat) {
    i + |pat| <= |s| && s[i..i + |pat|] == pat
  }

  /** `s.indexOf(pat)`: the first position at which `pat` occurs, or -1. */
  function IndexOf(s: string, pat: string): (r: int)
    ensures -1 <= r <= |s|
    ensures r == -1 <==> forall i: nat :: !OccursAt(s, pat, i)
    ensures r >= 0 ==> OccursAt(s, pat, r) && forall i: nat :: i < r ==> !OccursAt(s, pat, i)
  {
    IndexFrom(s, pat, 0)
  }

  /** The first occurrence of `pat` in `s` at or after `from`, or -1. */
  function IndexFrom(s: string, pat: string, from: nat): (r: int)
    requires from <= |s| + 1
    ensures -1 <= r <= |s|
    ensures r == -1 <==> forall i: nat :: from <= i ==> !OccursAt(s, pat, i)
    ensures r >= 0 ==> from <= r && OccursAt(s, pat, r) && forall i: nat :: from <= i < r ==> !OccursAt(s, pat, i)
    decreases |s| + 1 - from
  {
    if from + |pat| > |s| then -1
    else if OccursAt(s, pat, from) then from
    else IndexFrom(s, pat, from + 1)
  }

  /** The decimal digits of `n`, most significant first, without leading zeros. */
  function DecimalDigits(n: nat): (r: string)
    ensures |r| > 0
    ensures forall i :: 0 <= i < |r| ==> '0' <= r[i] <= '9'
  {
    if n < 10 then ["0123456789"[n]] else DecimalDigits(n / 10) + ["0123456789"[n % 10]]
  }

  /** `String(n)` for an integral JavaScript number. */
  function NumberToString(n: int): (r: string)
    ensures |r| > 0
    ensures (r[0] == '-') <==> n < 0
  {
    if n < 0 then "-" + DecimalDigits(-n) else DecimalDigits(n)
  }

  /** The value of a string of decimal digits, most significant first. */
  function DigitsValue(s: string): int {
    if s == [] then 0
    else DigitsValue(s[..|s| - 1]) * 10 + (s[|s| - 1] as int - '0' as int)
  }

  /** The number a string produced by `String(n)` denotes, as `Number(s)`
      reads it back. */
  function NumberValue(s: string): int {
    if |s| > 0 && s[0] == '-' then -DigitsValue(s[1..]) else DigitsValue(s)
  }

  /** The digit character of `d` denotes `d`. */
  lemma DigitCharValue(d: nat)
    requires d < 10
    ensures "0123456789"[d] as int - '0' as int == d
  {
  }

  /** The decimal digits of `n` denote `n`, and have no leading zero. */
  lemma {:induction false} DecimalDigitsValue(n: nat)
    ensures DigitsValue(DecimalDigits(n)) == n
    ensures DecimalDigits(n)[0] == '0' ==> n == 0
  {
    DigitCharValue(n % 10);
    if n >= 10 {
      DecimalDigitsValue(n / 10);
      var r := DecimalDigits(n);
      assert r[..|r| - 1] == DecimalDigits(n / 10);
    }
  }

  /** `Number(String(n)) == n`: the string of an integer denotes it. */
  lemma NumberToStringRoundTrip(n: int)
    ensures NumberValue(NumberToString(n)) == n
  {
    var r := NumberToString(n);
    if n < 0 {
      var d := DecimalDigits(-n);
      assert r == "-" + d;
      assert r[1..] == d;
      DecimalDigitsValue(-n);
      assert NumberValue(r) == -DigitsValue(d);
    } else {
      var d := DecimalDigits(n);
      assert r == d && '0' <= d[0] <= '9';
      DecimalDigitsValue(n);
      assert NumberValue(r) == DigitsValue(d);
    }
  }

  /** Different integers have different strings. */
  lemma NumberToStringInjective(a: int, b: int)
    ensures NumberToString(a) == NumberToString(b) <==> a == b
  {
    NumberToStringRoundTrip(a);
    NumberToStringRoundTrip(b);
  }
}

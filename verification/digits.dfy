/** Decimal digit strings and their values. */
module Digits {

  predicate IsDigit(c: char) {
    '0' <= c <= '9'
  }

  predicate AllDigits(s: string) {
    forall i :: 0 <= i < |s| ==> IsDigit(s[i])
  }

  function DigitValue(c: char): (d: nat)
    requires IsDigit(c)
    ensures d < 10
  {
    c as int - '0' as int
  }

  function DigitChar(d: nat): (c: char)
    requires d < 10
    ensures IsDigit(c) && DigitValue(c) == d
  {
    ('0' as int + d) as char
  }

  /** The value of a digit string read most significant digit first. */
  function WholeValue(s: string): nat
    requires AllDigits(s)
    decreases |s|
  {
    if |s| == 0 then 0 else 10 * WholeValue(s[..|s| - 1]) + DigitValue(s[|s| - 1])
  }

  /** `x` with its decimal point moved `places` places to the right: `x` times ten to the `places`. */
  function Shift(x: real, places: nat): real {
    if places == 0 then x else 10.0 * Shift(x, places - 1)
  }

  /** Moving the point distributes over a sum. */
  lemma {:induction false} ShiftAdd(a: real, b: real, places: nat)
    ensures Shift(a + b, places) == Shift(a, places) + Shift(b, places)
  {
    if places > 0 {
      ShiftAdd(a, b, places - 1);
    }
  }

  /** Moving the point commutes with negation. */
  lemma {:induction false} ShiftNegate(x: real, places: nat)
    ensures Shift(-x, places) == -Shift(x, places)
  {
    if places > 0 {
      ShiftNegate(x, places - 1);
    }
  }

  /** Moving the point of a tenth one place further gives back the unshifted value. */
  lemma {:induction false} ShiftTenth(x: real, places: nat)
    ensures Shift(x / 10.0, places + 1) == Shift(x, places)
  {
    if places > 0 {
      ShiftTenth(x, places - 1);
    }
  }

  /** Read from the front, the first digit is worth its place value. */
  lemma {:induction false} WholeValueFront(s: string)
    requires |s| > 0 && AllDigits(s)
    ensures WholeValue(s) as real == Shift(DigitValue(s[0]) as real, |s| - 1) + WholeValue(s[1..]) as real
    decreases |s|
  {
    if |s| > 1 {
      var p := s[..|s| - 1];
      var t := s[1..];
      WholeValueFront(p);
      assert p[0] == s[0] && p[1..] == t[..|t| - 1] && t[|t| - 1] == s[|s| - 1];
    } else {
      assert s[..0] == [] && s[1..] == [];
    }
  }

  /** The digits of `a` followed by those of `b` are worth `a` shifted past `b`, plus `b`. */
  lemma {:induction false} WholeValueConcat(a: string, b: string)
    requires AllDigits(a) && AllDigits(b)
    ensures AllDigits(a + b)
    ensures WholeValue(a + b) as real == Shift(WholeValue(a) as real, |b|) + WholeValue(b) as real
    decreases |b|
  {
    if |b| == 0 {
      assert a + b == a;
    } else {
      var b' := b[..|b| - 1];
      WholeValueConcat(a, b');
      assert (a + b)[..|a + b| - 1] == a + b';
    }
  }

  /** The value of the digits after a decimal point: "25" is 0.25. */
  function FractionValue(s: string): (r: real)
    requires AllDigits(s)
    ensures 0.0 <= r < 1.0
  {
    if |s| == 0 then 0.0 else (DigitValue(s[0]) as real + FractionValue(s[1..])) / 10.0
  }

  /** Moved past all its digits, the point of a fraction leaves the digits' whole value. */
  lemma {:induction false} FractionScaled(s: string)
    requires AllDigits(s)
    ensures Shift(FractionValue(s), |s|) == WholeValue(s) as real
    decreases |s|
  {
    if |s| > 0 {
      var t := s[1..];
      var d := DigitValue(s[0]) as real;
      FractionScaled(t);
      ShiftTenth(d + FractionValue(t), |t|);
      ShiftAdd(d, FractionValue(t), |t|);
      WholeValueFront(s);
    }
  }

  /** The shortest decimal rendering of a natural number; reading it back gives the number. */
  function DecimalText(n: nat): (s: string)
    ensures |s| > 0 && AllDigits(s)
    ensures WholeValue(s) == n
  {
    if n < 10 then [DigitChar(n)]
    else
      var prefix := DecimalText(n / 10);
      var s := prefix + [DigitChar(n % 10)];
      assert s[..|s| - 1] == prefix;
      s
  }

  /** The decimal rendering of an integer, with a leading '-' when it is negative. */
  function SignedText(k: int): string {
    (if k < 0 then "-" else "") + DecimalText(if k < 0 then -k else k)
  }
}

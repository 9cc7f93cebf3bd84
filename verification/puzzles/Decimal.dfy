/** Decimal digits, as `%d` prints them. */
module Decimal {

  /** The digits of a number, most significant first. */
  function Digits(n: nat): (r: seq<nat>)
    ensures r != [] && forall i :: 0 <= i < |r| ==> r[i] < 10
  {
    if n < 10 then [n] else Digits(n / 10) + [n % 10]
  }

  function Value(digits: seq<nat>): nat {
    if digits == [] then 0 else 10 * Value(digits[..|digits| - 1]) + digits[|digits| - 1]
  }

  function Pow10(k: nat): (r: nat)
    ensures r >= 1
  {
    if k == 0 then 1 else 10 * Pow10(k - 1)
  }

  lemma {:induction false} ValueDigits(n: nat)
    ensures Value(Digits(n)) == n
  {
    if n >= 10 {
      ValueDigits(n / 10);
      assert Digits(n)[..|Digits(n)| - 1] == Digits(n / 10);
    } else {
      assert [n][..0] == [];
    }
  }

  lemma DigitsInjective(m: nat, n: nat)
    requires Digits(m) == Digits(n)
    ensures m == n
  {
    ValueDigits(m);
    ValueDigits(n);
  }

  /** No leading zero, but for zero itself. */
  lemma {:induction false} NoLeadingZero(n: nat)
    ensures Digits(n)[0] == 0 <==> n == 0
  {
    if n >= 10 { NoLeadingZero(n / 10); }
  }

  /** Digits without a leading zero are the digits of their value. */
  lemma {:induction false} DigitsOfValue(digits: seq<nat>)
    requires digits != [] && (forall i :: 0 <= i < |digits| ==> digits[i] < 10) && (digits[0] == 0 ==> |digits| == 1)
    ensures Digits(Value(digits)) == digits
    decreases |digits|
  {
    var init, last := digits[..|digits| - 1], digits[|digits| - 1];
    assert digits == init + [last];
    if init == [] {
      assert Value(digits) == last;
    } else {
      DigitsOfValue(init);
      NoLeadingZero(Value(init));
      assert Value(digits) / 10 == Value(init) && Value(digits) % 10 == last;
    }
  }

  lemma {:induction false} DigitCount(n: nat, k: nat)
    requires k >= 1 && n < Pow10(k) && (k == 1 || n >= Pow10(k - 1))
    ensures |Digits(n)| == k
  {
    if k == 1 {
      assert Pow10(1) == 10 * Pow10(0);
    } else {
      assert Pow10(k) == 10 * Pow10(k - 1) && Pow10(k - 1) == 10 * Pow10(k - 2);
      DigitCount(n / 10, k - 1);
    }
  }

  lemma LastDigit(n: nat)
    ensures Digits(n)[|Digits(n)| - 1] == n % 10
  {
  }
}

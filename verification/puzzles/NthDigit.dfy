/** nth_digit.c: the digit at a place of the text 0123456789101112... */
module NthDigit {
  import opened Decimal

  const INT_MAX := 0x7FFF_FFFF

  /** The numbers below `k`, written one after the other. */
  function Text(k: nat): seq<nat> {
    if k == 0 then [] else Text(k - 1) + Digits(k - 1)
  }

  /** The digit at place `n` of the infinite text. */
  function DigitAt(n: nat): nat {
    TextLongEnough(n + 1);
    Text(n + 1)[n]
  }

  lemma {:induction false} TextLongEnough(k: nat)
    ensures |Text(k)| >= k
  {
    if k > 0 { TextLongEnough(k - 1); }
  }

  lemma {:induction false} TextExtends(j: nat, k: nat)
    requires j <= k
    ensures |Text(j)| <= |Text(k)| && Text(k)[..|Text(j)|] == Text(j)
    decreases k - j
  {
    if j < k {
      TextExtends(j, k - 1);
      assert Text(k)[..|Text(j)|] == Text(k - 1)[..|Text(j)|];
    }
  }

  /** Every part of the text that is long enough has that digit there. */
  lemma DigitAtAny(n: nat, k: nat)
    requires n < |Text(k)|
    ensures DigitAt(n) == Text(k)[n]
  {
    TextLongEnough(n + 1);
    if k <= n + 1 {
      TextExtends(k, n + 1);
      assert Text(n + 1)[..|Text(k)|][n] == Text(k)[n];
    } else {
      TextExtends(n + 1, k);
      assert Text(k)[..|Text(n + 1)|][n] == Text(n + 1)[n];
    }
  }

  lemma DigitOfNumber(m: nat, j: nat)
    requires j < |Digits(m)|
    ensures DigitAt(|Text(m)| + j) == Digits(m)[j]
  {
    hide DigitAt, Digits;
    assert Text(m + 1) == Text(m) + Digits(m);
    DigitAtAny(|Text(m)| + j, m + 1);
  }

  /** The numbers with `i` digits lie in blocks of `i` places. */
  lemma {:induction false} BlockStart(i: nat, q: nat)
    requires i >= 1 && q <= 9 * Pow10(i - 1)
    ensures |Text(Pow10(i - 1) + q)| == |Text(Pow10(i - 1))| + i * q
    decreases q
  {
    hide Digits, Pow10;
    if q > 0 {
      var f := Pow10(i - 1);
      BlockStart(i, q - 1);
      NextPow(i);
      DigitCount(f + q - 1, i);
      MulSucc(i, q - 1);
      assert Text(f + q) == Text(f + (q - 1)) + Digits(f + q - 1);
    }
  }

  lemma MulSucc(i: nat, q: nat)
    ensures i * (q + 1) == i * q + i
  {
  }

  lemma Reorder(i: nat, f: nat)
    ensures i * (9 * f) == f * 9 * i
  {
  }

  lemma BlockEnd(i: nat)
    requires i >= 1
    ensures |Text(Pow10(i))| == |Text(Pow10(i - 1))| + Pow10(i - 1) * 9 * i
  {
    hide Digits, Pow10, Text;
    var f := Pow10(i - 1);
    NextPow(i);
    BlockStart(i, 9 * f);
    Reorder(i, f);
  }

  /** get_offset. */
  function GetOffset(a: nat, idx: nat): nat
    requires idx == 0 || idx - 1 < |Digits(a + 1)|
  {
    if idx == 0 then a % 10 else Digits(a + 1)[idx - 1]
  }

  /** The places before the block of `i`-digit numbers, shifted by the one of the zero. */
  ghost function Before(i: nat): int
    requires i >= 1
  {
    |Text(Pow10(i - 1))| - 1
  }

  /** In the block of the `i`-digit numbers the loop's answer is the digit. */
  lemma AnswerInBlock(i: nat, rest: nat)
    requires i >= 1 && rest < Pow10(i - 1) * 9 * i && Before(i) + rest >= 0
    ensures var a := rest / i + Pow10(i - 1) - 1;
      (rest % i == 0 || rest % i - 1 < |Digits(a + 1)|) &&
      GetOffset(a, rest % i) == DigitAt(Before(i) + rest)
  {
    hide DigitAt, Digits, Text, Pow10;
    var f, q, idx := Pow10(i - 1), rest / i, rest % i;
    Division(rest, i, q, idx, f);
    BlockStart(i, q);
    if idx == 0 {
      LastPlace(f + q);
      LastDigit(f + q - 1);
    } else {
      NextPow(i);
      DigitCount(f + q, i);
      DigitOfNumber(f + q, idx - 1);
    }
  }

  lemma NextPow(i: nat)
    requires i >= 1
    ensures Pow10(i) == 10 * Pow10(i - 1)
  {
  }

  lemma Division(rest: nat, i: nat, q: nat, idx: nat, f: nat)
    requires i >= 1 && rest < f * 9 * i && q == rest / i && idx == rest % i
    ensures rest == i * q + idx && idx < i && q < 9 * f
  {
    Reorder(i, f);
    if q >= 9 * f {
      MulMono(i, 9 * f, q);
    }
  }

  lemma MulMono(i: nat, a: nat, b: nat)
    requires a <= b
    ensures i * a <= i * b
  {
  }

  lemma LastPlace(m: nat)
    requires m >= 1
    ensures |Text(m)| >= 1 && DigitAt(|Text(m)| - 1) == Digits(m - 1)[|Digits(m - 1)| - 1]
  {
    hide DigitAt, Digits;
    assert Text(m) == Text(m - 1) + Digits(m - 1);
    DigitOfNumber(m - 1, |Digits(m - 1)| - 1);
  }

  /** The loop of findNthDigit from its round `i` on, in unbounded integers. */
  function FindFrom(n: nat, i: nat): int
    requires 1 <= i <= 12
    decreases 12 - i
  {
    if i == 12 then -1
    else
      var factor := Pow10(i - 1);
      var count := factor * 9 * i;
      if n < count then
        var a := n / i + factor - 1;
        if n % i == 0 || n % i - 1 < |Digits(a + 1)| then GetOffset(a, n % i) else -1
      else FindFrom(n - count, i + 1)
  }

  lemma {:induction false} FindFromCorrect(n: nat, i: nat)
    requires 1 <= i <= 12 && Before(i) + n >= 0
    ensures if Before(i) + n < Before(12) then FindFrom(n, i) == DigitAt(Before(i) + n)
            else FindFrom(n, i) == -1
    decreases 12 - i
  {
    hide DigitAt, Digits, Text, Pow10, GetOffset;
    if i < 12 {
      BlockEnd(i);
      if n < Pow10(i - 1) * 9 * i {
        PowMono(i, 11);
        TextExtends(Pow10(i), Pow10(11));
        AnswerInBlock(i, n);
      } else {
        FindFromCorrect(n - Pow10(i - 1) * 9 * i, i + 1);
      }
    }
  }

  lemma {:induction false} PowMono(i: nat, j: nat)
    requires i <= j
    ensures Pow10(i) <= Pow10(j)
    decreases j
  {
    if i < j { PowMono(i, j - 1); }
  }

  /** In unbounded integers the answer is the digit for every place the eleven rounds reach,
      and -1 beyond. */
  lemma FindsTheDigit(n: nat)
    ensures FindFrom(n, 1) == if n < |Text(Pow10(11))| - 1 then DigitAt(n) else -1
  {
    hide DigitAt, Digits, Text, Pow10, FindFrom;
    FirstBlock();
    FindFromCorrect(n, 1);
  }

  /** findNthDigit on 32-bit integers: `count` is unsigned, and in round nine it wraps. */
  method FindNthDigit(n: nat) returns (r: int)
    requires n <= INT_MAX
    ensures r == DigitAt(n)
  {
    hide DigitAt, GetOffset, Text, Digits, Pow10;
    var rest, factor := n, 1;
    PowZero();
    FirstBlock();
    for i := 1 to 12
      invariant i <= 9 && factor == Pow10(i - 1) && 0 <= rest <= n
      invariant Before(i) + rest == n
    {
      RoundCount(i);
      var count := (factor * 9 * i) % 0x1_0000_0000;
      if rest < count {
        AnswerInBlock(i, rest);
        factor := factor - 1;
        var findVal := rest / i + factor;
        return GetOffset(findVal, rest % i);
      }
      BlockEnd(i);
      NextPow(i);
      rest := rest - count;
      factor := factor * 10;
    }
    assert false;
  }

  lemma FirstBlock()
    ensures Before(1) == 0
  {
    assert Text(1) == Text(0) + Digits(0);
  }

  lemma PowZero()
    ensures Pow10(0) == 1
  {
  }

  lemma PowersUpTo9()
    ensures Pow10(0) == 1 && Pow10(1) == 10 && Pow10(2) == 100 && Pow10(3) == 1000 && Pow10(4) == 10000
    ensures Pow10(5) == 100000 && Pow10(6) == 1000000 && Pow10(7) == 10000000 && Pow10(8) == 100000000
  {
    assert Pow10(1) == 10 * Pow10(0);
    assert Pow10(2) == 10 * Pow10(1);
    assert Pow10(3) == 10 * Pow10(2);
    assert Pow10(4) == 10 * Pow10(3);
    assert Pow10(5) == 10 * Pow10(4);
    assert Pow10(6) == 10 * Pow10(5);
    assert Pow10(7) == 10 * Pow10(6);
    assert Pow10(8) == 10 * Pow10(7);
  }

  /** The first eight counts fit an int; the ninth wraps, to more than any int. */
  lemma RoundCount(i: nat)
    requires 1 <= i <= 9
    ensures var count := Pow10(i - 1) * 9 * i;
      count % 0x1_0000_0000 <= count &&
      if i <= 8 then count % 0x1_0000_0000 == count else count % 0x1_0000_0000 > INT_MAX
  {
    PowersUpTo9();
  }
}

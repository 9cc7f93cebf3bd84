/** The parser reads a number exactly where a numeral of the grammar is written. */
module GrammarNumbers {
  import opened Bytes
  import Decimal
  import opened Grammar
  import opened Parser
  import opened RoundTrip
  import opened Values

  lemma SameLookahead(s: Bytes)
    ensures DigitAt(s, 0) <==> IsDigit(At(s, 0))
    ensures PointAt(s) <==> At(s, 0) == DOT
    ensures ExponentAt(s) <==> ExponentFollows(s)
    ensures HexAt(s) <==> HexFollows(s)
  {
    if s != [] { assert PointAt(s[1..]) <==> At(s, 1) == DOT; }
  }

  // Digits

  lemma {:induction false} DigitsWritten(digits: seq<nat>)
    requires Digital(digits)
    ensures AllDigits(WriteDigits(digits)) && DigitValues(WriteDigits(digits)) == digits
    ensures digits != [] ==> WriteDigits(digits)[0] == ZERO + digits[0]
  {
    if digits != [] {
      var s := WriteDigits(digits);
      DigitByte(digits[0]);
      DigitsWritten(digits[1..]);
      assert s[1..] == WriteDigits(digits[1..]);
    }
  }

  lemma DigitByte(d: nat)
    requires d < 10
    ensures Ascii("0123456789")[d] == ZERO + d
  {
  }

  lemma {:induction false} DigitsFound(s: Bytes)
    requires AllDigits(s)
    ensures Digital(DigitValues(s)) && WriteDigits(DigitValues(s)) == s
  {
    hide Ascii, AllDigits, WriteDigits, DigitValues, Digital;
    if s == [] {
      NoDigits();
    } else {
      FirstDigitFound(s);
      DigitsFound(s[1..]);
      DigitInFront(DigitValue(s[0]), DigitValues(s[1..]));
      assert s == [s[0]] + s[1..];
    }
  }

  lemma NoDigits()
    ensures AllDigits([]) && DigitValues([]) == [] && Digital([]) && WriteDigits([]) == []
  {
  }

  lemma DigitInFront(d: nat, digits: seq<nat>)
    requires d < 10 && Digital(digits)
    ensures Digital([d] + digits) && WriteDigits([d] + digits) == [Ascii("0123456789")[d]] + WriteDigits(digits)
  {
    assert ([d] + digits)[1..] == digits;
  }

  lemma FirstDigitFound(s: Bytes)
    requires AllDigits(s) && s != []
    ensures AllDigits(s[1..]) && IsDigit(s[0]) && DigitValue(s[0]) < 10
    ensures DigitValues(s) == [DigitValue(s[0])] + DigitValues(s[1..])
    ensures Ascii("0123456789")[DigitValue(s[0])] == s[0]
  {
    DigitByte(DigitValue(s[0]));
  }

  lemma AfterDigits(digits: seq<nat>, u: Bytes)
    requires Digital(digits) && !DigitAt(u, 0)
    ensures DigitRun(WriteDigits(digits) + u) == |digits| && (WriteDigits(digits) + u)[|digits|..] == u
  {
    hide DigitRun, WriteDigits, DigitValues;
    SameLookahead(u);
    DigitsWritten(digits);
    RunOfDigits(WriteDigits(digits), u);
  }

  lemma RunFound(s: Bytes) returns (digits: seq<nat>)
    ensures Digital(digits) && s == WriteDigits(digits) + s[DigitRun(s)..] && |digits| == DigitRun(s)
    ensures !DigitAt(s[DigitRun(s)..], 0)
  {
    hide WriteDigits, DigitValues;
    digits := DigitValues(s[..DigitRun(s)]);
    DigitsFound(s[..DigitRun(s)]);
  }

  // Numerals with a point or an exponent

  lemma MarkRead(e: Exponent, u: Bytes)
    requires u != [] && IsDigit(u[0])
    ensures var m := ExponentMark(e); var s := m + u;
      m != [] && !IsDigit(m[0]) && m[0] != DOT && s[|m|..] == u && ExponentLength(s) == |m| + DigitRun(u)
  {
    hide DigitRun;
    var m := ExponentMark(e);
    assert (m + u)[|m|..] == u;
  }

  lemma ExponentRead(e: Exponent, rest: Bytes)
    requires GoodExponent(e) && !DigitAt(rest, 0)
    ensures var s := WriteExponent(e);
      s != [] && !IsDigit(s[0]) && s[0] != DOT && ExponentLength(s + rest) == |s| && (s + rest)[|s|..] == rest
  {
    hide WriteDigits, DigitRun, ExponentLength, ExponentMark;
    var d := WriteDigits(e.digits);
    DigitsWritten(e.digits);
    MarkRead(e, d + rest);
    assert WriteExponent(e) + rest == ExponentMark(e) + (d + rest);
    AfterDigits(e.digits, rest);
  }

  lemma ExponentFound(s: Bytes) returns (exponent: Option<Exponent>)
    ensures exponent.Some? ==> GoodExponent(exponent.value)
    ensures |WritePower(exponent)| == ExponentLength(s) && s == WritePower(exponent) + s[ExponentLength(s)..]
    ensures if exponent == None then !ExponentAt(s) else !DigitAt(s[ExponentLength(s)..], 0)
  {
    hide DigitRun, WriteDigits, ExponentMark, DigitAt, ExponentFollows, ExponentLength, ExponentAt;
    SameLookahead(s);
    MarkLength(s);
    if !ExponentFollows(s) {
      exponent := None;
    } else {
      var k := if IsDigit(s[1]) then 1 else 2;
      var digits := RunFound(s[k..]);
      exponent := Some(Exponent(s[0] == 69, if k == 1 then None else Some(s[1] == MINUS), digits));
      MarkFound(s, exponent.value, k);
      JoinParts(s, s[..k], WriteDigits(digits), s[k..][|digits|..]);
    }
  }

  lemma MarkLength(s: Bytes)
    ensures !ExponentFollows(s) ==> ExponentLength(s) == 0
    ensures ExponentFollows(s) ==>
      |s| >= 2 && var k := if IsDigit(s[1]) then 1 else 2;
      k < |s| && DigitRun(s[k..]) > 0 && ExponentLength(s) == k + DigitRun(s[k..])
  {
  }

  lemma MarkFound(s: Bytes, e: Exponent, k: nat)
    requires ExponentFollows(s) && k == (if IsDigit(s[1]) then 1 else 2)
    requires e.upper == (s[0] == 69) && e.sign == if k == 1 then None else Some(s[1] == MINUS)
    ensures k <= |s| && ExponentMark(e) == s[..k]
  {
  }

  /** A mantissa and an exponent are read to their end. */
  lemma DecimalRead(whole: seq<nat>, fraction: Option<seq<nat>>, exponent: Option<Exponent>, rest: Bytes)
    requires Digital(whole) && (fraction.Some? ==> Digital(fraction.value)) &&
      (exponent.Some? ==> GoodExponent(exponent.value))
    requires whole == [] ==> fraction.Some? && fraction.value != []
    requires !DigitAt(rest, 0) && (exponent == None ==> !ExponentAt(rest) && (fraction == None ==> !PointAt(rest)))
    ensures var m := WriteDigits(whole) + WriteFraction(fraction); var s := m + (WritePower(exponent) + rest);
      && 0 < MantissaLength(s) == |m| && s[|m|..] == WritePower(exponent) + rest
      && ExponentLength(s[|m|..]) == |WritePower(exponent)|
  {
    hide WriteDigits, DigitRun, WriteExponent, ExponentLength;
    var u := WritePower(exponent) + rest;
    PowerRead(exponent, rest);
    MantissaRead(whole, fraction, u);
    assert (WriteDigits(whole) + WriteFraction(fraction) + u)[|WriteDigits(whole) + WriteFraction(fraction)|..] == u;
  }

  lemma PowerRead(exponent: Option<Exponent>, rest: Bytes)
    requires exponent.Some? ==> GoodExponent(exponent.value)
    requires !DigitAt(rest, 0) && (exponent == None ==> !ExponentAt(rest))
    ensures var u := WritePower(exponent) + rest;
      && ExponentLength(u) == |WritePower(exponent)| && !DigitAt(u, 0)
      && (PointAt(u) ==> exponent == None && PointAt(rest))
  {
    hide WriteExponent, ExponentFollows;
    SameLookahead(rest);
    match exponent
    case None => assert [] + rest == rest;
    case Some(e) => ExponentRead(e, rest);
  }

  lemma MantissaRead(whole: seq<nat>, fraction: Option<seq<nat>>, u: Bytes)
    requires Digital(whole) && (fraction.Some? ==> Digital(fraction.value))
    requires whole == [] ==> fraction.Some? && fraction.value != []
    requires !DigitAt(u, 0) && (fraction == None ==> !PointAt(u))
    ensures var m := WriteDigits(whole) + WriteFraction(fraction);
      0 < MantissaLength(m + u) == |m|
  {
    hide WriteDigits, DigitRun, MantissaLength, DigitAt;
    match fraction
    case None =>
      SameLookahead(u);
      AfterDigits(whole, u);
      assert WriteDigits(whole) + [] + u == WriteDigits(whole) + u;
      NoPoint(WriteDigits(whole) + u, |whole|);
    case Some(digits) => PointRead(whole, digits, u);
  }

  lemma PointRead(whole: seq<nat>, digits: seq<nat>, u: Bytes)
    requires Digital(whole) && Digital(digits) && (whole == [] ==> digits != []) && !DigitAt(u, 0)
    ensures var m := WriteDigits(whole) + (Ascii(".") + WriteDigits(digits)); 0 < MantissaLength(m + u) == |m|
  {
    hide WriteDigits, DigitRun, MantissaLength, DigitAt, Ascii;
    var dot := Ascii(".");
    assert |dot| == 1 && dot[0] == DOT;
    var f := dot + (WriteDigits(digits) + u);
    NotADigit(f);
    AfterDigits(whole, f);
    AfterDigits(digits, u);
    Regroup(WriteDigits(whole), dot, WriteDigits(digits), u);
    assert f[1..] == WriteDigits(digits) + u;
    WithPoint(WriteDigits(whole) + f, |whole|);
  }

  lemma Regroup(a: Bytes, b: Bytes, c: Bytes, d: Bytes)
    ensures a + (b + c) + d == a + (b + (c + d))
  {
  }

  lemma NotADigit(f: Bytes)
    requires f != [] && f[0] == DOT
    ensures !DigitAt(f, 0)
  {
  }

  lemma NoPoint(s: Bytes, k: nat)
    requires DigitRun(s) == k && At(s[k..], 0) != DOT
    ensures MantissaLength(s) == k
  {
  }

  lemma WithPoint(s: Bytes, k: nat)
    requires DigitRun(s) == k && s[k..] != [] && s[k] == DOT
    ensures MantissaLength(s) == if k + DigitRun(s[k..][1..]) == 0 then 0 else k + 1 + DigitRun(s[k..][1..])
  {
    hide DigitRun;
    assert s[k..][1..] == s[k + 1..];
  }

  lemma MantissaFound(s: Bytes) returns (whole: seq<nat>, fraction: Option<seq<nat>>)
    requires MantissaLength(s) > 0
    ensures Digital(whole) && (fraction.Some? ==> Digital(fraction.value))
    ensures |whole| == DigitRun(s) && (whole == [] ==> fraction.Some? && fraction.value != [])
    ensures var m := WriteDigits(whole) + WriteFraction(fraction); |m| == MantissaLength(s) && s == m + s[|m|..]
    ensures var u := s[MantissaLength(s)..]; !DigitAt(u, 0) && (fraction == None ==> !PointAt(u))
  {
    hide WriteDigits, DigitRun;
    whole := RunFound(s);
    var k := DigitRun(s);
    SameLookahead(s[k..]);
    assert At(s, k) == At(s[k..], 0);
    if At(s, k) != DOT {
      fraction := None;
      assert WriteDigits(whole) + [] == WriteDigits(whole);
    } else {
      var digits := RunFound(s[k + 1..]);
      fraction := Some(digits);
      FractionFound(s, k, whole, digits);
    }
  }

  lemma FractionFound(s: Bytes, k: nat, whole: seq<nat>, digits: seq<nat>)
    requires k < |s| && s[k] == DOT && Digital(whole) && Digital(digits) && |whole| == k && |digits| <= |s| - k - 1
    requires s == WriteDigits(whole) + s[k..] && s[k + 1..] == WriteDigits(digits) + s[k + 1..][|digits|..]
    ensures var m := WriteDigits(whole) + (Ascii(".") + WriteDigits(digits));
      |m| == k + 1 + |digits| && s == m + s[|m|..] && s[k + 1..][|digits|..] == s[|m|..]
  {
    hide WriteDigits;
    assert s[k..] == Ascii(".") + s[k + 1..];
  }

  // Words

  lemma LetterCases(word: string, upper: seq<bool>, rest: Bytes, lower: Bytes)
    requires LowerCase(word) && |upper| == |word| == |lower|
    requires forall i :: 0 <= i < |word| ==> lower[i] == Code(word[i])
    ensures Spells(WriteWord(word, upper) + rest, lower)
  {
  }

  lemma WordFound(word: string, s: Bytes, lower: Bytes) returns (upper: seq<bool>)
    requires LowerCase(word) && |word| == |lower| && forall i :: 0 <= i < |word| ==> lower[i] == Code(word[i])
    requires (forall i :: 0 <= i < |lower| ==> 97 <= lower[i] <= 122) && Spells(s, lower)
    ensures |upper| == |word| <= |s| && WriteWord(word, upper) == s[..|word|]
  {
    upper := seq(|word|, i requires 0 <= i < |word| => s[i] < 97);
  }

  lemma {:induction false} WordRunIs(body: Bytes, rest: Bytes)
    requires WordBytes(body) && rest != [] && !WordByte(rest[0])
    ensures WordRun(body + rest) == |body|
  {
    if body == [] {
      assert body + rest == rest;
    } else {
      assert (body + rest)[1..] == body[1..] + rest;
      WordRunIs(body[1..], rest);
    }
  }

  lemma {:induction false} RunIsWord(s: Bytes)
    ensures WordBytes(s[..WordRun(s)])
  {
    if WordRun(s) > 0 { RunIsWord(s[1..]); assert s[..WordRun(s)] == [s[0]] + s[1..][..WordRun(s[1..])]; }
  }

  // A numeral is read as what it is

  predicate NoX(s: Bytes) { forall i :: 0 <= i < |s| ==> !IsLetter(s[i], 120) }

  lemma DigitsNoX(digits: seq<nat>)
    requires Digital(digits)
    ensures NoX(WriteDigits(digits))
  {
    DigitsWritten(digits);
  }

  /** The parts of a decimal numeral: an exact integer has neither point nor exponent. */
  ghost predicate DecimalParts(whole: seq<nat>, fraction: Option<seq<nat>>, exponent: Option<Exponent>, integer: bool) {
    && Digital(whole) && (fraction.Some? ==> Digital(fraction.value)) && (exponent.Some? ==> GoodExponent(exponent.value))
    && (whole == [] ==> fraction.Some? && fraction.value != [])
    && (whole != [] && whole[0] == 0 ==> |whole| == 1 && (fraction.Some? || integer))
    && (integer ==> fraction == None && exponent == None)
  }

  function DecimalText(neg: bool, whole: seq<nat>, fraction: Option<seq<nat>>, exponent: Option<Exponent>): Bytes
    requires Digital(whole) && (fraction.Some? ==> Digital(fraction.value)) &&
      (exponent.Some? ==> GoodExponent(exponent.value))
  {
    WriteSign(neg) + (WriteDigits(whole) + WriteFraction(fraction) + WritePower(exponent))
  }

  lemma DecimalLength(neg: bool, whole: seq<nat>, fraction: Option<seq<nat>>, exponent: Option<Exponent>,
                      integer: bool, rest: Bytes)
    requires DecimalParts(whole, fraction, exponent, integer) && (whole == [] ==> neg)
    requires !DigitAt(rest, 0) && (exponent == None ==> !ExponentAt(rest) && (fraction == None ==> !PointAt(rest)))
    requires integer && whole == [0] ==> !HexAt(rest)
    ensures var w := DecimalText(neg, whole, fraction, exponent); NumeralLength(w + rest) == |w|
  {
    hide WriteDigits, WriteExponent, DigitRun, MantissaLength, ExponentLength, HexFollows, HexAt, ExponentAt,
      DigitAt, WordLength;
    var w := DecimalText(neg, whole, fraction, exponent);
    var s := w + rest;
    var m := WriteDigits(whole) + WriteFraction(fraction);
    var t := m + (WritePower(exponent) + rest);
    DecimalRead(whole, fraction, exponent, rest);
    SignJoins(WriteSign(neg), m, WritePower(exponent), rest);
    NotHex(whole, fraction, exponent, integer, rest);
    FirstOf(neg, t);
    LengthFrom(s, t, |m|);
  }

  lemma SignJoins(a: Bytes, m: Bytes, p: Bytes, rest: Bytes)
    ensures a + (m + p) + rest == a + (m + (p + rest))
  {
  }

  lemma LengthFrom(s: Bytes, t: Bytes, m: nat)
    requires t == s[SignLength(s)..] && t != [] && !(t[0] == ZERO && HexFollows(t[1..])) && 0 < MantissaLength(t) == m
    ensures NumeralLength(s) == SignLength(s) + m + ExponentLength(t[m..])
  {
    hide HexFollows, MantissaLength, ExponentLength, WordLength, SignLength;
  }

  lemma FirstOf(neg: bool, t: Bytes)
    requires t != [] && (t[0] == MINUS ==> neg)
    ensures var s := WriteSign(neg) + t; SignLength(s) == |WriteSign(neg)| && s[SignLength(s)..] == t
  {
  }

  lemma NotHex(whole: seq<nat>, fraction: Option<seq<nat>>, exponent: Option<Exponent>, integer: bool, rest: Bytes)
    requires DecimalParts(whole, fraction, exponent, integer) && (integer && whole == [0] ==> !HexAt(rest))
    ensures var t := WriteDigits(whole) + WriteFraction(fraction) + (WritePower(exponent) + rest);
      && t != [] && t[0] != MINUS
      && !(t[0] == ZERO && HexFollows(t[1..]))
  {
    hide WriteDigits, HexFollows, HexAt, WriteExponent;
    DigitsWritten(whole);
    SameLookahead(rest);
    var t := WriteDigits(whole) + WriteFraction(fraction) + (WritePower(exponent) + rest);
    if whole == [] {
      assert t[0] == DOT;
    } else {
      assert t[0] == WriteDigits(whole)[0] == ZERO + whole[0];
      if whole[0] == 0 {
        if fraction.Some? {
          assert t[1..][0] == DOT;
          PointIsNoHex(t[1..]);
        } else {
          assert t[1..] == rest;
        }
      }
    }
  }

  lemma PointIsNoHex(s: Bytes)
    requires s != [] && s[0] == DOT
    ensures !HexFollows(s)
  {
  }

  lemma DecimalNoX(neg: bool, whole: seq<nat>, fraction: Option<seq<nat>>, exponent: Option<Exponent>, integer: bool)
    requires DecimalParts(whole, fraction, exponent, integer)
    ensures NoX(DecimalText(neg, whole, fraction, exponent))
  {
    hide WriteDigits;
    DigitsNoX(whole);
    if fraction.Some? { DigitsNoX(fraction.value); }
    if exponent.Some? { DigitsNoX(exponent.value.digits); }
    assert NoX(WriteFraction(fraction)) && NoX(WritePower(exponent));
  }

  lemma DecimalIsDecimal(neg: bool, whole: seq<nat>, fraction: Option<seq<nat>>, exponent: Option<Exponent>, integer: bool)
    requires DecimalParts(whole, fraction, exponent, integer)
    ensures IsDecimal(DecimalText(neg, whole, fraction, exponent))
  {
    hide WriteDigits, WriteExponent;
    DecimalNoX(neg, whole, fraction, exponent, integer);
    DecimalFirst(whole, fraction, exponent, integer);
    DigitsWritten(whole);
    var body := WriteDigits(whole) + WriteFraction(fraction) + WritePower(exponent);
    if whole != [] && whole[0] == 0 && fraction.Some? {
      assert body[1] == DOT;
    }
    AfterSign(neg, body);
  }

  lemma AfterSign(neg: bool, body: Bytes)
    requires NoX(WriteSign(neg) + body) && body != [] && body[0] != MINUS
    requires body[0] == ZERO && |body| > 1 ==> body[1] == DOT
    ensures IsDecimal(WriteSign(neg) + body)
  {
    assert neg ==> forall i :: 0 <= i < |body| ==> (WriteSign(neg) + body)[i + 1] == body[i];
    assert !neg ==> WriteSign(neg) + body == body;
  }

  lemma DecimalValue(neg: bool, whole: seq<nat>, fraction: Option<seq<nat>>, exponent: Option<Exponent>, integer: bool)
    requires DecimalParts(whole, fraction, exponent, integer)
    ensures NumberOf(DecimalText(neg, whole, fraction, exponent)) ==
      if fraction.Some? || exponent.Some? || Decimal.Value(whole) > EXACT then OTHER
      else if neg then -(Decimal.Value(whole) as int)
      else Decimal.Value(whole)
  {
    hide WriteDigits, DigitValues, Decimal.Value, SignLength, ExponentMark;
    DigitsWritten(whole);
    var body := WriteDigits(whole) + WriteFraction(fraction) + WritePower(exponent);
    DecimalFirst(whole, fraction, exponent, integer);
    FirstOf(neg, body);
    if fraction.Some? || exponent.Some? {
      MarkIsNoDigit(exponent);
      assert !IsDigit(body[|whole|]);
    } else {
      assert body == WriteDigits(whole);
    }
  }

  lemma DecimalFirst(whole: seq<nat>, fraction: Option<seq<nat>>, exponent: Option<Exponent>, integer: bool)
    requires DecimalParts(whole, fraction, exponent, integer)
    ensures var body := WriteDigits(whole) + WriteFraction(fraction) + WritePower(exponent); body != [] && body[0] != MINUS
  {
    hide WriteDigits;
    DigitsWritten(whole);
  }

  lemma MarkIsNoDigit(exponent: Option<Exponent>)
    requires exponent.Some? ==> GoodExponent(exponent.value)
    ensures exponent.Some? ==> WritePower(exponent) != [] && !IsDigit(WritePower(exponent)[0])
  {
    hide WriteDigits;
  }

  lemma WordNoX(word: string, upper: seq<bool>)
    requires LowerCase(word) && |upper| <= |word| && 'x' !in word
    ensures NoX(WriteWord(word, upper))
  {
    forall i | 0 <= i < |upper| ensures !IsLetter(WriteWord(word, upper)[i], 120) {
      assert word[i] in word;
    }
  }

  /** A word after the sign is no decimal numeral. */
  lemma WordAfterSign(t: Bytes)
    requires t != [] && (IsLetter(t[0], 105) || IsLetter(t[0], 110))
    ensures var s := Ascii("-") + t; NumeralLength(s) == if WordLength(t) > 0 then 1 + WordLength(t) else 0
    ensures SignLength(Ascii("-") + t) == 1
  {
    hide WordLength;
    var s := Ascii("-") + t;
    assert s[1..] == t;
  }

  lemma WordValue(t: Bytes)
    requires t != [] && (IsLetter(t[0], 105) || IsLetter(t[0], 110))
    ensures NumberOf(Ascii("-") + t) == OTHER
  {
    assert (Ascii("-") + t)[1..] == t && !IsDigit(t[0]);
  }

  const INITY: Bytes := [105, 110, 105, 116, 121]

  lemma SpellsRest(w: Bytes, rest: Bytes)
    requires |w| == 3 && Spells(w + rest, INFINITY)
    ensures Spells(rest, INITY)
  {
    forall i | 0 <= i < 5 ensures IsLetter(rest[i], INITY[i]) {
      assert (w + rest)[i + 3] == rest[i] && INFINITY[i + 3] == INITY[i];
    }
  }

  lemma SpellsWhole(w: Bytes, rest: Bytes)
    requires |w| == 3 && Spells(w, INF) && Spells(rest, INITY)
    ensures Spells(w + rest, INFINITY)
  {
    forall i | 0 <= i < 8 ensures IsLetter((w + rest)[i], INFINITY[i]) {
      if i >= 3 { assert (w + rest)[i] == rest[i - 3] && INFINITY[i] == INITY[i - 3]; }
    }
  }

  lemma ShortInfiniteRead(upper: seq<bool>, rest: Bytes)
    requires |upper| == 3
    requires forall more: seq<bool> :: |more| == 5 ==> !(WriteWord("inity", more) <= rest)
    ensures WordLength(WriteWord("inf", upper) + rest) == 3
  {
    hide Spells, WriteWord;
    var w := WriteWord("inf", upper);
    LetterCases("inf", upper, rest, INF);
    if Spells(w + rest, INFINITY) {
      SpellsRest(w, rest);
      var more := WordFound("inity", rest, INITY);
      assert false;
    }
  }

  lemma InfiniteRead(upper: seq<bool>, rest: Bytes)
    requires |upper| == 3 || |upper| == 8
    requires |upper| == 3 ==> forall more: seq<bool> :: |more| == 5 ==> !(WriteWord("inity", more) <= rest)
    ensures WordLength(WriteWord("infinity", upper) + rest) == |upper|
  {
    hide Spells, WriteWord;
    if |upper| == 8 {
      LetterCases("infinity", upper, rest, INFINITY);
    } else {
      ShortWord(upper);
      ShortInfiniteRead(upper, rest);
    }
  }

  lemma PayloadFound(s: Bytes)
    requires At(s, 0) == 40 && At(s, 1 + WordRun(s[1..])) == 41
    ensures var k := WordRun(s[1..]);
      && k + 2 <= |s| && WordBytes(s[1..1 + k]) && s == Ascii("(") + s[1..1 + k] + Ascii(")") + s[k + 2..]
      && PayloadAt(s)
  {
    var k := WordRun(s[1..]);
    RunIsWord(s[1..]);
    assert s[1..][..k] == s[1..1 + k];
    assert Ascii("(") + s[1..1 + k] + Ascii(")") <= s;
  }

  lemma PayloadRead(body: Bytes, rest: Bytes)
    requires WordBytes(body)
    ensures var s := Ascii("(") + body + Ascii(")") + rest;
      At(s, 0) == 40 && WordRun(s[1..]) == |body| && At(s, 1 + |body|) == 41
  {
    var s := Ascii("(") + body + Ascii(")") + rest;
    assert s[1..] == body + (Ascii(")") + rest);
    WordRunIs(body, Ascii(")") + rest);
  }

  lemma NanLength(n: Bytes, s: Bytes)
    requires |n| == 3 && Spells(n + s, NAN)
    ensures WordLength(n + s) == if At(s, 0) == 40 && At(s, 1 + WordRun(s[1..])) == 41 then 5 + WordRun(s[1..]) else 3
  {
    hide WordRun;
    var t := n + s;
    assert IsLetter(t[0], NAN[0]) && !IsLetter(t[0], INF[0]) && !IsLetter(t[0], INFINITY[0]);
    assert t[3..] == s && At(t, 3) == At(s, 0);
    if At(s, 0) == 40 {
      assert t[4..] == s[1..];
      assert At(t, 4 + WordRun(t[4..])) == At(s, 1 + WordRun(s[1..]));
    }
  }

  lemma NotANumberRead(upper: seq<bool>, payload: Option<Bytes>, rest: Bytes)
    requires |upper| == 3 && (payload.Some? ==> WordBytes(payload.value)) && (payload == None ==> !PayloadAt(rest))
    ensures var w := WriteWord("nan", upper) + WritePayload(payload); WordLength(w + rest) == |w|
  {
    hide WordRun, WriteWord, WordBytes, PayloadAt, WordLength, Spells, Ascii;
    var n := WriteWord("nan", upper);
    var s := WritePayload(payload) + rest;
    assert Ascii("(")[0] == 40 && Ascii(")")[0] == 41;
    LetterCases("nan", upper, s, NAN);
    assert n + WritePayload(payload) + rest == n + s;
    NanLength(n, s);
    if payload.Some? {
      PayloadRead(payload.value, rest);
    } else {
      assert s == rest;
      if At(s, 0) == 40 && At(s, 1 + WordRun(s[1..])) == 41 { PayloadFound(s); }
    }
  }

  /** Any numeral, followed by something that does not go on it. */
  lemma NumeralReads(num: Numeral, rest: Bytes)
    requires GoodNumeral(num) && Stops(num, rest)
    ensures ParseNumber(WriteNumeral(num) + rest) == Got(JNum(ReadNumeral(num)), rest)
  {
    hide NumeralLength, IsDecimal, NumberOf, GoodNumeral, Stops;
    NumeralSpan(num, rest);
    NumeralPasses(num);
    var w := WriteNumeral(num);
    assert (w + rest)[..|w|] == w && (w + rest)[|w|..] == rest;
  }

  lemma NumeralSpan(num: Numeral, rest: Bytes)
    requires GoodNumeral(num) && Stops(num, rest)
    ensures NumeralLength(WriteNumeral(num) + rest) == |WriteNumeral(num)|
  {
    hide NumeralLength, WriteDigits, WriteExponent, WriteWord, WordLength, ExponentAt, HexAt, DigitAt, Decimal.Digits;
    match num
    case Integer(neg, n) =>
      Decimal.NoLeadingZero(n);
      SingleZero(n);
      IntegerText(neg, n);
      DecimalLength(neg, Decimal.Digits(n), None, None, true, rest);
    case Decimals(neg, whole, fraction, exponent) =>
      DecimalLength(neg, whole, fraction, exponent, false, rest);
    case Infinite(upper) =>
      InfiniteRead(upper, rest);
      assert WriteWord("infinity", upper) + [] == WriteWord("infinity", upper);
      AfterMinus("infinity", upper, [], rest);
    case NotANumber(upper, payload) =>
      NotANumberRead(upper, payload, rest);
      AfterMinus("nan", upper, WritePayload(payload), rest);
  }

  lemma IntegerText(neg: bool, n: nat)
    ensures Digital(Decimal.Digits(n)) && Decimal.Digits(n) != []
    ensures DecimalText(neg, Decimal.Digits(n), None, None) == WriteSign(neg) + WriteDigits(Decimal.Digits(n))
  {
    hide WriteDigits, Decimal.Digits;
    assert WriteDigits(Decimal.Digits(n)) + [] + [] == WriteDigits(Decimal.Digits(n));
  }

  lemma SingleZero(n: nat)
    ensures Decimal.Digits(n) == [0] <==> n == 0
    ensures Decimal.Digits(n)[0] == 0 ==> |Decimal.Digits(n)| == 1
  {
    Decimal.NoLeadingZero(n);
  }

  lemma AfterMinus(word: string, upper: seq<bool>, more: Bytes, rest: Bytes)
    requires word == "infinity" || word == "nan"
    requires 0 < |upper| <= |word|
    ensures var t := WriteWord(word, upper) + more + rest; var s := Ascii("-") + (WriteWord(word, upper) + more) + rest;
      && s == Ascii("-") + t && t == WriteWord(word, upper) + (more + rest)
      && NumeralLength(s) == if WordLength(t) > 0 then 1 + WordLength(t) else 0
    ensures NumberOf(Ascii("-") + (WriteWord(word, upper) + more)) == OTHER
  {
    hide WordLength, NumeralLength, NumberOf;
    var w := WriteWord(word, upper);
    assert w[0] == Code(word[0]) || w[0] == Code(word[0]) - 32;
    assert Ascii("-") + (w + more) + rest == Ascii("-") + (w + more + rest);
    assert w + more + rest == w + (more + rest);
    WordAfterSign(w + more + rest);
    WordValue(w + more);
  }

  lemma NumeralPasses(num: Numeral)
    requires GoodNumeral(num)
    ensures IsDecimal(WriteNumeral(num)) && NumberOf(WriteNumeral(num)) == ReadNumeral(num)
  {
    hide IsDecimal, NumberOf, WriteDigits, WriteExponent, WriteWord, Decimal.Digits, Decimal.Value;
    match num
    case Integer(neg, n) =>
      SingleZero(n);
      IntegerText(neg, n);
      DecimalIsDecimal(neg, Decimal.Digits(n), None, None, true);
      DecimalValue(neg, Decimal.Digits(n), None, None, true);
      Decimal.ValueDigits(n);
    case Decimals(neg, whole, fraction, exponent) =>
      DecimalIsDecimal(neg, whole, fraction, exponent, false);
      DecimalValue(neg, whole, fraction, exponent, false);
    case Infinite(_) => WordNumeralPasses(num);
    case NotANumber(_, _) => WordNumeralPasses(num);
  }

  lemma WordNumeralPasses(num: Numeral)
    requires (num.Infinite? || num.NotANumber?) && GoodNumeral(num)
    ensures IsDecimal(WriteNumeral(num)) && NumberOf(WriteNumeral(num)) == ReadNumeral(num)
  {
    hide IsDecimal, NumberOf, WriteWord;
    if num.Infinite? {
      var w := WriteWord("infinity", num.upper);
      assert w + [] == w;
      WordPasses("infinity", num.upper, []);
      AfterMinus("infinity", num.upper, [], []);
    } else {
      if num.payload.Some? { PayloadNoX(num.payload.value); }
      WordPasses("nan", num.upper, WritePayload(num.payload));
      AfterMinus("nan", num.upper, WritePayload(num.payload), []);
    }
  }

  lemma PayloadNoX(body: Bytes)
    requires Code('x') !in body && Code('X') !in body
    ensures NoX(WritePayload(Some(body)))
  {
    forall i | 0 <= i < |body| ensures !IsLetter(body[i], 120) {
      assert body[i] in body;
    }
  }

  lemma WordPasses(word: string, upper: seq<bool>, more: Bytes)
    requires (word == "infinity" || word == "nan") && 0 < |upper| <= |word| && NoX(more)
    ensures IsDecimal(Ascii("-") + (WriteWord(word, upper) + more))
  {
    var w := WriteWord(word, upper);
    WordNoX(word, upper);
    assert w[0] == Code(word[0]) || w[0] == Code(word[0]) - 32;
    var s := Ascii("-") + (w + more);
    assert NoX(s);
    assert s[1] == w[0] && s[0] == MINUS;
  }

  // A number that is read is a numeral

  /** Where `strtod` reads something and `is_decimal` lets it through, a numeral is written, as far as it goes. */
  lemma NumeralFound(s: Bytes) returns (num: Numeral)
    requires s != [] && (s[0] == MINUS || IsDigit(s[0]))
    requires NumeralLength(s) > 0 && IsDecimal(s[..NumeralLength(s)])
    ensures GoodNumeral(num) && WriteNumeral(num) == s[..NumeralLength(s)] && Stops(num, s[NumeralLength(s)..])
  {
    hide MantissaLength, ExponentLength, WordLength, HexFollows, IsDecimal, GoodNumeral, Stops, WriteNumeral;
    var sign := SignLength(s);
    var t := s[sign..];
    if At(t, 0) == ZERO && HexFollows(t[1..]) {
      HexRefused(s);
    } else if MantissaLength(t) > 0 {
      num := DecimalFound(s);
    } else {
      num := WordNumeralFound(s);
    }
  }

  lemma HexRefused(s: Bytes)
    requires var t := s[SignLength(s)..]; At(t, 0) == ZERO && HexFollows(t[1..])
    ensures SignLength(s) + 2 <= |s| && !IsDecimal(s[..SignLength(s) + 2])
  {
    var sign := SignLength(s);
    assert s[sign..][1..][0] == s[sign + 1] == s[..sign + 2][sign + 1];
  }

  /** The unsigned part of a decimal numeral, and what can be said of what follows. */
  lemma UnsignedFound(t: Bytes) returns (whole: seq<nat>, fraction: Option<seq<nat>>, exponent: Option<Exponent>)
    requires MantissaLength(t) > 0 && !(At(t, 0) == ZERO && HexFollows(t[1..]))
    ensures Digital(whole) && (fraction.Some? ==> Digital(fraction.value)) &&
      (exponent.Some? ==> GoodExponent(exponent.value))
    ensures |whole| == DigitRun(t) && (whole == [] ==> fraction.Some? && fraction.value != [])
    ensures var n := MantissaLength(t) + ExponentLength(t[MantissaLength(t)..]);
      n <= |t| && t[..n] == WriteDigits(whole) + WriteFraction(fraction) + WritePower(exponent) &&
        Follows(whole, fraction, exponent, t[n..])
  {
    hide MantissaLength, ExponentLength, HexFollows, WriteDigits, WriteExponent, DigitRun, ExponentAt, DigitAt,
      HexAt, PointAt;
    whole, fraction := MantissaFound(t);
    var m := MantissaLength(t);
    exponent := ExponentFound(t[m..]);
    var e := ExponentLength(t[m..]);
    JoinParts(t, WriteDigits(whole) + WriteFraction(fraction), WritePower(exponent), t[m..][e..]);
    if exponent.Some? {
      MarkIsNoPoint(exponent);
    } else {
      assert t[m..][0..] == t[m..];
    }
    if whole == [0] && fraction == None && exponent == None {
      ZeroFirst(t, m);
    }
  }

  /** What stands behind a decimal numeral is no part of it. */
  ghost predicate Follows(whole: seq<nat>, fraction: Option<seq<nat>>, exponent: Option<Exponent>, rest: Bytes) {
    && !DigitAt(rest, 0)
    && (exponent == None ==> !ExponentAt(rest) && (fraction == None ==> !PointAt(rest)))
    && (whole == [0] && fraction == None && exponent == None ==> !HexAt(rest))
  }

  lemma JoinParts(t: Bytes, a: Bytes, b: Bytes, rest: Bytes)
    requires |a| <= |t| && t == a + t[|a|..] && t[|a|..] == b + rest
    ensures |a| + |b| <= |t| && t[..|a| + |b|] == a + b && t[|a| + |b|..] == rest
  {
  }

  lemma ZeroFirst(t: Bytes, m: nat)
    requires m <= |t| && t[..m] == WriteDigits([0]) && !(At(t, 0) == ZERO && HexFollows(t[1..]))
    ensures !HexAt(t[m..])
  {
    hide HexFollows, HexAt;
    DigitByte(0);
    assert WriteDigits([0]) == [ZERO];
    assert t[0] == t[..m][0];
    SameLookahead(t[1..]);
  }

  lemma DecimalFound(s: Bytes) returns (num: Numeral)
    requires s != [] && (s[0] == MINUS || IsDigit(s[0]))
    requires var t := s[SignLength(s)..]; MantissaLength(t) > 0 && !(At(t, 0) == ZERO && HexFollows(t[1..]))
    requires IsDecimal(s[..NumeralLength(s)])
    ensures GoodNumeral(num) && WriteNumeral(num) == s[..NumeralLength(s)] && Stops(num, s[NumeralLength(s)..])
  {
    hide MantissaLength, ExponentLength, WordLength, HexFollows, IsDecimal, GoodNumeral, Stops, WriteNumeral, WriteDigits,
         DigitRun, Follows, WriteExponent;
    var neg, t := SignLength(s) == 1, s[SignLength(s)..];
    var n := MantissaLength(t) + ExponentLength(t[MantissaLength(t)..]);
    var whole, fraction, exponent := UnsignedFound(t);
    Unsigned(s, n);
    NoLeadingZeros(neg, whole, fraction, exponent);
    WholeUnlessSigned(s);
    num := DecimalNumeral(neg, whole, fraction, exponent);
    DecimalNumeralGood(neg, whole, fraction, exponent, t[n..]);
  }

  lemma Unsigned(s: Bytes, n: nat)
    requires SignLength(s) + n <= |s|
    ensures s[..SignLength(s) + n] == WriteSign(SignLength(s) == 1) + s[SignLength(s)..][..n]
    ensures s[SignLength(s)..][n..] == s[SignLength(s) + n..]
  {
  }

  lemma WholeUnlessSigned(s: Bytes)
    requires s != [] && (s[0] == MINUS || IsDigit(s[0]))
    ensures DigitRun(s[SignLength(s)..]) == 0 ==> SignLength(s) == 1
  {
    assert s[0..] == s;
  }

  /** The digits of a small integer, or a numeral as it is written. */
  function DecimalNumeral(neg: bool, whole: seq<nat>, fraction: Option<seq<nat>>, exponent: Option<Exponent>): Numeral {
    if fraction == None && exponent == None && Decimal.Value(whole) <= EXACT then Integer(neg, Decimal.Value(whole))
    else Decimals(neg, whole, fraction, exponent)
  }

  lemma NoLeadingZeros(neg: bool, whole: seq<nat>, fraction: Option<seq<nat>>, exponent: Option<Exponent>)
    requires Digital(whole) && (fraction.Some? ==> Digital(fraction.value)) &&
      (exponent.Some? ==> GoodExponent(exponent.value))
    requires IsDecimal(DecimalText(neg, whole, fraction, exponent))
    ensures whole != [] && whole[0] == 0 ==> |whole| == 1 && (fraction.Some? || exponent == None)
  {
    hide WriteDigits, WriteExponent, IsDecimal, WriteSign;
    if whole != [] && whole[0] == 0 {
      var more := WriteFraction(fraction) + WritePower(exponent);
      assert WriteDigits(whole) + WriteFraction(fraction) + WritePower(exponent) == WriteDigits(whole) + more;
      DigitsWritten(whole);
      MarkIsNoPoint(exponent);
      SecondDigit(whole, more);
      if |WriteDigits(whole) + more| > 1 { ZeroThenPoint(neg, WriteDigits(whole) + more); }
      if |whole| == 1 && fraction == None && exponent.Some? {
        assert (WriteDigits(whole) + more)[1] == more[0];
      }
    }
  }

  lemma ZeroThenPoint(neg: bool, body: Bytes)
    requires IsDecimal(WriteSign(neg) + body) && body != [] && body[0] == ZERO && |body| > 1
    ensures body[1] == DOT
  {
    assert neg ==> (WriteSign(neg) + body)[1] == body[0] && (WriteSign(neg) + body)[2] == body[1];
    assert !neg ==> WriteSign(neg) + body == body;
  }

  lemma SecondDigit(whole: seq<nat>, more: Bytes)
    requires Digital(whole)
    ensures |whole| > 1 ==> (WriteDigits(whole) + more)[1] != DOT
  {
    hide WriteDigits;
    DigitsWritten(whole);
    assert |whole| > 1 ==> (WriteDigits(whole) + more)[1] == WriteDigits(whole)[1];
  }

  lemma MarkIsNoPoint(exponent: Option<Exponent>)
    requires exponent.Some? ==> GoodExponent(exponent.value)
    ensures exponent.Some? ==> WritePower(exponent) != [] && WritePower(exponent)[0] != DOT
  {
    hide WriteDigits;
  }

  lemma DecimalNumeralGood(neg: bool, whole: seq<nat>, fraction: Option<seq<nat>>, exponent: Option<Exponent>, rest: Bytes)
    requires Digital(whole) && (fraction.Some? ==> Digital(fraction.value)) &&
      (exponent.Some? ==> GoodExponent(exponent.value))
    requires whole == [] ==> neg && fraction.Some? && fraction.value != []
    requires whole != [] && whole[0] == 0 ==> |whole| == 1 && (fraction.Some? || exponent == None)
    requires Follows(whole, fraction, exponent, rest)
    ensures var num := DecimalNumeral(neg, whole, fraction, exponent);
      GoodNumeral(num) && WriteNumeral(num) == DecimalText(neg, whole, fraction, exponent) && Stops(num, rest)
  {
    hide WriteDigits, WriteExponent, ExponentAt, HexAt, DigitAt, PointAt, Decimal.Digits, Decimal.Value;
    if fraction == None && exponent == None {
      Decimal.DigitsOfValue(whole);
      SingleZero(Decimal.Value(whole));
      ZeroValue();
      IntegerText(neg, Decimal.Value(whole));
    }
  }

  lemma ZeroValue()
    ensures Decimal.Value([0]) == 0
  {
    assert [0][..0] == [];
  }

  lemma WordNumeralFound(s: Bytes) returns (num: Numeral)
    requires s != [] && (s[0] == MINUS || IsDigit(s[0]))
    requires var t := s[SignLength(s)..]; MantissaLength(t) == 0 && !(At(t, 0) == ZERO && HexFollows(t[1..]))
    requires NumeralLength(s) > 0 && IsDecimal(s[..NumeralLength(s)])
    ensures GoodNumeral(num) && WriteNumeral(num) == s[..NumeralLength(s)] && Stops(num, s[NumeralLength(s)..])
  {
    hide MantissaLength, HexFollows, IsDecimal, GoodNumeral, Stops, WriteNumeral, Spells;
    SignThere(s);
    var t := s[1..];
    AfterOne(s, WordLength(t));
    if Spells(t, INFINITY) || Spells(t, INF) {
      num := InfiniteFound(t);
    } else {
      num := NotANumberFound(t);
    }
    assert WriteNumeral(num) == Ascii("-") + t[..WordLength(t)];
  }

  lemma SignThere(s: Bytes)
    requires s != [] && (s[0] == MINUS || IsDigit(s[0])) && MantissaLength(s[SignLength(s)..]) == 0
    ensures s[0] == MINUS && SignLength(s) == 1
  {
    assert s[0..] == s;
  }

  lemma AfterOne(s: Bytes, k: nat)
    requires s != [] && s[0] == MINUS && k < |s|
    ensures s[..1 + k] == Ascii("-") + s[1..][..k] && s[1..][k..] == s[1 + k..]
  {
  }

  lemma InfiniteFound(t: Bytes) returns (num: Numeral)
    requires Spells(t, INFINITY) || Spells(t, INF)
    ensures GoodNumeral(num) && WriteNumeral(num) == Ascii("-") + t[..WordLength(t)] && Stops(num, t[WordLength(t)..])
  {
    hide Spells, WriteWord;
    if Spells(t, INFINITY) {
      var upper := WordFound("infinity", t, INFINITY);
      num := Infinite(upper);
    } else {
      var upper := WordFound("inf", t, INF);
      num := Infinite(upper);
      ShortWord(upper);
      assert t == t[..3] + t[3..];
      NoMore(t);
    }
  }

  lemma ShortWord(upper: seq<bool>)
    requires |upper| == 3
    ensures WriteWord("infinity", upper) == WriteWord("inf", upper)
  {
  }

  lemma NoMore(t: Bytes)
    requires Spells(t, INF) && !Spells(t, INFINITY)
    ensures forall more: seq<bool> :: |more| == 5 ==> !(WriteWord("inity", more) <= t[3..])
  {
    hide WriteWord;
    forall more: seq<bool> | |more| == 5 ensures !(WriteWord("inity", more) <= t[3..]) {
      var w := WriteWord("inity", more);
      if w <= t[3..] {
        LetterCases("inity", more, t[3..][5..], INITY);
        assert t[3..] == w + t[3..][5..];
        assert t == t[..3] + t[3..];
        SpellsWhole(t[..3], t[3..]);
      }
    }
  }

  lemma NotANumberFound(t: Bytes) returns (num: Numeral)
    requires !Spells(t, INFINITY) && !Spells(t, INF) && WordLength(t) > 0
    requires IsDecimal(Ascii("-") + t[..WordLength(t)])
    ensures GoodNumeral(num) && WriteNumeral(num) == Ascii("-") + t[..WordLength(t)] && Stops(num, t[WordLength(t)..])
  {
    hide Spells, WriteWord, WordRun, PayloadAt, IsDecimal, WordBytes;
    var upper := WordFound("nan", t, NAN);
    var body := PayloadOf(t);
    num := NotANumber(upper, body);
    if body.Some? {
      BodyNoX(t[..WordLength(t)], body.value);
    } else {
      assert WriteWord("nan", upper) + [] == WriteWord("nan", upper);
    }
  }

  lemma PayloadOf(t: Bytes) returns (payload: Option<Bytes>)
    requires |t| >= 3 && !Spells(t, INFINITY) && !Spells(t, INF) && WordLength(t) > 0
    ensures t[..WordLength(t)] == t[..3] + WritePayload(payload)
    ensures if payload.Some? then WordBytes(payload.value) else WordLength(t) == 3 && !PayloadAt(t[3..])
  {
    hide Spells, WordRun, PayloadAt, WordBytes;
    assert At(t, 3) == At(t[3..], 0);
    if At(t, 3) == 40 && At(t, 4 + WordRun(t[4..])) == 41 {
      var k := WordRun(t[4..]);
      assert t[4..] == t[3..][1..] && At(t, 4 + k) == At(t[3..], 1 + k);
      PayloadFound(t[3..]);
      payload := Some(t[3..][1..1 + k]);
      assert t[..5 + k] == t[..3] + t[3..][..k + 2];
    } else {
      payload := None;
      NoPayload(t);
    }
  }

  lemma BodyNoX(w: Bytes, body: Bytes)
    requires IsDecimal(Ascii("-") + w) && |w| == 5 + |body| && w == w[..3] + WritePayload(Some(body))
    ensures Code('x') !in body && Code('X') !in body
  {
    forall i | 0 <= i < |body| ensures !IsLetter(body[i], 120) {
      assert (Ascii("-") + w)[5 + i] == w[4 + i] == body[i];
    }
  }

  lemma NoPayload(t: Bytes)
    requires |t| >= 3 && !(At(t, 3) == 40 && At(t, 4 + WordRun(t[4..])) == 41)
    ensures !PayloadAt(t[3..])
  {
    hide WordRun;
    var s := t[3..];
    if PayloadAt(s) {
      var body: Bytes :| WordBytes(body) && Ascii("(") + body + Ascii(")") <= s;
      var w := Ascii("(") + body + Ascii(")");
      assert s[0] == t[3] && s[1..] == t[4..] && At(s, 1 + |body|) == At(t, 4 + |body|);
      assert s == w + s[|w|..];
      PayloadRead(body, s[|w|..]);
    }
  }
}

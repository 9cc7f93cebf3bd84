/** What parson's recursive parser makes of a text. */
module Parser {
  import opened Bytes
  import Decimal
  import opened Strings
  import opened Values

  /** A value and what follows it, or no value. */
  datatype Parsed = Got(value: Value, rest: Bytes) | Fail

  /** The integers up to this are doubles. */
  const EXACT: int := 0x20_0000_0000_0000

  /** Stands for any other number: a fraction, one with an exponent, a larger one, an infinity, a not-a-number. */
  const OTHER: int := EXACT + 1

  // Numerals

  function DigitRun(s: Bytes): (r: nat)
    ensures r <= |s| && forall i :: 0 <= i < r ==> IsDigit(s[i])
    ensures r < |s| ==> !IsDigit(s[r])
  {
    if s == [] || !IsDigit(s[0]) then 0 else 1 + DigitRun(s[1..])
  }

  function DigitValue(b: byte): nat
    requires IsDigit(b)
  {
    b - ZERO
  }

  predicate AllDigits(s: Bytes) { forall i :: 0 <= i < |s| ==> IsDigit(s[i]) }

  function DigitValues(s: Bytes): (r: seq<nat>)
    requires AllDigits(s)
    ensures |r| == |s|
  {
    if s == [] then [] else [DigitValue(s[0])] + DigitValues(s[1..])
  }

  predicate IsLetter(b: byte, lower: byte)
    requires 97 <= lower <= 122
  {
    b == lower || b + 32 == lower
  }

  function SignLength(s: Bytes): (r: nat)
    ensures r <= |s|
  {
    if s != [] && s[0] == MINUS then 1 else 0
  }

  /** An x and a hex digit, which make a zero before them hexadecimal. */
  predicate HexFollows(s: Bytes) {
    s != [] && IsLetter(s[0], 120) && (IsHex(At(s, 1)) || (At(s, 1) == DOT && IsHex(At(s, 2))))
  }

  predicate ExponentFollows(s: Bytes) {
    && s != [] && IsLetter(s[0], 101)
    && (IsDigit(At(s, 1)) || ((At(s, 1) == MINUS || At(s, 1) == 43) && IsDigit(At(s, 2))))
  }

  function ExponentLength(s: Bytes): (r: nat)
    ensures r <= |s|
  {
    if !ExponentFollows(s) then 0
    else
      var k := if IsDigit(s[1]) then 1 else 2;
      k + DigitRun(s[k..])
  }

  /** Digits, or digits with a point before, between or behind them. */
  function MantissaLength(s: Bytes): (r: nat)
    ensures r <= |s|
  {
    var k := DigitRun(s);
    if At(s, k) != DOT then k
    else
      var f := DigitRun(s[k + 1..]);
      if k + f == 0 then 0 else k + 1 + f
  }

  /** Letters, digits and underscores. */
  function WordRun(s: Bytes): (r: nat)
    ensures r <= |s|
  {
    if s != [] && (IsDigit(s[0]) || 65 <= s[0] <= 90 || s[0] == 95 || 97 <= s[0] <= 122) then 1 + WordRun(s[1..]) else 0
  }

  /** The word is there, in letters of either case. */
  predicate Spells(s: Bytes, word: Bytes)
    requires forall i :: 0 <= i < |word| ==> 97 <= word[i] <= 122
  {
    |word| <= |s| && forall i :: 0 <= i < |word| ==> IsLetter(s[i], word[i])
  }

  const INF: Bytes := [105, 110, 102]
  const INFINITY: Bytes := [105, 110, 102, 105, 110, 105, 116, 121]
  const NAN: Bytes := [110, 97, 110]

  /** Infinities, and not-a-numbers with or without a payload in parentheses. */
  function WordLength(s: Bytes): (r: nat)
    ensures r <= |s|
  {
    if Spells(s, INFINITY) then 8
    else if Spells(s, INF) then 3
    else if !Spells(s, NAN) then 0
    else if At(s, 3) == 40 && At(s, 4 + WordRun(s[4..])) == 41 then 5 + WordRun(s[4..])
    else 3
  }

  /** What `strtod` reads here; of a hexadecimal numeral only as much as `is_decimal` needs to refuse it. */
  function NumeralLength(s: Bytes): (r: nat)
    ensures r <= |s|
  {
    var sign := SignLength(s);
    var t := s[sign..];
    var m := MantissaLength(t);
    if At(t, 0) == ZERO && HexFollows(t[1..]) then sign + 2
    else if m > 0 then sign + m + ExponentLength(t[m..])
    else if WordLength(t) > 0 then sign + WordLength(t)
    else 0
  }

  predicate IsDecimal(t: Bytes) {
    && !(|t| > 1 && t[0] == ZERO && t[1] != DOT)
    && !(|t| > 2 && t[0] == MINUS && t[1] == ZERO && t[2] != DOT)
    && forall i :: 0 <= i < |t| ==> !IsLetter(t[i], 120)
  }

  /** The number a numeral stands for; nothing at all reads as zero. */
  function NumberOf(numeral: Bytes): int {
    var sign := SignLength(numeral);
    var digits := numeral[sign..];
    if numeral == [] then 0
    else if digits == [] || !AllDigits(digits) then OTHER
    else
      var n := Decimal.Value(DigitValues(digits));
      if n > EXACT then OTHER else if sign == 1 then -(n as int) else n
  }

  function ParseNumber(s: Bytes): (r: Parsed)
    ensures r.Got? ==> |r.rest| <= |s| && r.value.JNum?
  {
    var n := NumeralLength(s);
    if IsDecimal(s[..n]) then Got(JNum(NumberOf(s[..n])), s[n..]) else Fail
  }

  // The rest

  const TRUE: Bytes := [116, 114, 117, 101]
  const FALSE: Bytes := [102, 97, 108, 115, 101]
  const NULL: Bytes := [110, 117, 108, 108]

  function ParseWord(s: Bytes, word: Bytes, v: Value): (r: Parsed)
    ensures r.Got? ==> |r.rest| <= |s|
  {
    if word <= s then Got(v, s[|word|..]) else Fail
  }

  function ParseBoolean(s: Bytes): (r: Parsed)
    ensures r.Got? ==> |r.rest| <= |s|
  {
    if TRUE <= s then ParseWord(s, TRUE, JBool(true)) else ParseWord(s, FALSE, JBool(false))
  }

  function ParseString(s: Bytes): (r: Parsed)
    ensures r.Got? ==> |r.rest| <= |s|
  {
    match QuotedString(s)
    case None => Fail
    case Some((text, rest)) => Got(JStr(text), rest)
  }

  function ParseValue(s: Bytes, nesting: nat): (r: Parsed)
    ensures r.Got? ==> |r.rest| <= |s|
    decreases |s|, 3
  {
    if nesting > MAX_NESTING then Fail
    else
      var t := SkipSpaces(s);
      if t == [] then Fail
      else if t[0] == OPEN_BRACE then ParseObject(t, nesting + 1)
      else if t[0] == OPEN_BRACKET then ParseArray(t, nesting + 1)
      else if t[0] == QUOTE then ParseString(t)
      else if t[0] == FALSE[0] || t[0] == TRUE[0] then ParseBoolean(t)
      else if t[0] == MINUS || IsDigit(t[0]) then ParseNumber(t)
      else if t[0] == NULL[0] then ParseWord(t, NULL, JNull)
      else Fail
  }

  function ParseArray(s: Bytes, nesting: nat): (r: Parsed)
    requires s != [] && s[0] == OPEN_BRACKET
    ensures r.Got? ==> |r.rest| <= |s|
    decreases |s|, 2
  {
    var t := SkipSpaces(s[1..]);
    if t != [] && t[0] == CLOSE_BRACKET then Got(JArr([], 0), t[1..])
    else ParseItems(t, nesting, [], 0)
  }

  /** The rest of an array, at an item. */
  function ParseItems(s: Bytes, nesting: nat, items: seq<Value>, cap: nat): (r: Parsed)
    ensures r.Got? ==> |r.rest| <= |s|
    decreases |s|, 4
  {
    if s == [] then Fail
    else
      match ParseValue(s, nesting)
      case Fail => Fail
      case Got(v, rest) =>
        match AddItem(items, cap, v)
        case None => Fail
        case Some((more, room)) =>
          var t := SkipSpaces(rest);
          if t != [] && t[0] == COMMA then ParseItems(SkipSpaces(t[1..]), nesting, more, room)
          else if t != [] && t[0] == CLOSE_BRACKET then Got(JArr(more, |more|), t[1..])
          else Fail
  }

  function ParseObject(s: Bytes, nesting: nat): (r: Parsed)
    requires s != [] && s[0] == OPEN_BRACE
    ensures r.Got? ==> |r.rest| <= |s|
    decreases |s|, 2
  {
    var t := SkipSpaces(s[1..]);
    if t != [] && t[0] == CLOSE_BRACE then Got(JObj([], 0), t[1..])
    else ParseEntries(t, nesting, [], 0)
  }

  /** The rest of an object, at a key. */
  function ParseEntries(s: Bytes, nesting: nat, entries: seq<Entry>, cap: nat): (r: Parsed)
    ensures r.Got? ==> |r.rest| <= |s|
    decreases |s|, 4
  {
    match QuotedString(s)
    case None => Fail
    case Some((key, afterKey)) =>
      var u := SkipSpaces(afterKey);
      if u == [] || u[0] != COLON then Fail
      else
        match ParseValue(u[1..], nesting)
        case Fail => Fail
          case Got(v, rest) =>
          match AddEntry(entries, cap, key, v)
          case None => Fail
          case Some((more, room)) =>
            var t := SkipSpaces(rest);
            if t != [] && t[0] == COMMA then ParseEntries(SkipSpaces(t[1..]), nesting, more, room)
            else if t != [] && t[0] == CLOSE_BRACE then Got(JObj(more, |more|), t[1..])
            else Fail
  }

  /** `json_parse_string`; what follows the value is not looked at. */
  function ParseText(s: Bytes): Parsed { ParseValue(s, 0) }
}

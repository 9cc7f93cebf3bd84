/** The texts parson reads, as syntax trees written out byte by byte.  Nothing here says how they are read. */
module Grammar {
  import opened Bytes
  import Decimal
  import opened Utf8
  import opened Values

  function Code(c: char): (b: byte)
    requires c as int < 128
  {
    c as int
  }

  predicate IsAscii(s: string) { forall i :: 0 <= i < |s| ==> s[i] as int < 128 }

  function Ascii(s: string): (r: Bytes)
    requires IsAscii(s)
    ensures |r| == |s| && forall i :: 0 <= i < |s| ==> r[i] == Code(s[i])
  {
    seq(|s|, i requires 0 <= i < |s| => Code(s[i]))
  }

  // Between the tokens

  /** A blank, or, where comments are allowed, a comment without its tokens. */
  datatype Space = White(b: byte) | Block(body: Bytes) | Line(body: Bytes)

  function WriteSpace(s: Space): Bytes {
    match s
    case White(b) => [b]
    case Block(body) => Ascii("/*") + body + Ascii("*/")
    case Line(body) => Ascii("//") + body + Ascii("\n")
  }

  function WriteSpaces(sp: seq<Space>): Bytes {
    if sp == [] then [] else WriteSpace(sp[0]) + WriteSpaces(sp[1..])
  }

  /** Blank, tab, line feed, vertical tab, form feed and carriage return. */
  predicate Blank(b: byte) { b in {32, 9, 10, 11, 12, 13} }

  predicate AllWhite(sp: seq<Space>) { forall i :: 0 <= i < |sp| ==> sp[i].White? && Blank(sp[i].b) }

  // Literals

  /** A hexadecimal digit and the case it is written in. */
  datatype Hex = Hex(value: nat, upper: bool)

  /** A byte as it is, an escape of one letter, the escape of a code point, or of a surrogate pair. */
  datatype Char =
    | Plain(b: byte)
    | Short(letter: char)
    | Unit(digits: seq<Hex>)
    | Surrogates(lead: seq<Hex>, trail: seq<Hex>)

  predicate FourDigits(digits: seq<Hex>) { |digits| == 4 && forall i :: 0 <= i < 4 ==> digits[i].value < 16 }

  function Unit16(digits: seq<Hex>): nat
    requires FourDigits(digits)
  {
    digits[0].value * 0x1000 + digits[1].value * 0x100 + digits[2].value * 0x10 + digits[3].value
  }

  function WriteHex(h: Hex): byte
    requires h.value < 16
  {
    Ascii(if h.upper then "0123456789ABCDEF" else "0123456789abcdef")[h.value]
  }

  function WriteUnit(digits: seq<Hex>): (r: Bytes)
    requires FourDigits(digits)
    ensures |r| == 6
  {
    Ascii("\\u") + [WriteHex(digits[0]), WriteHex(digits[1]), WriteHex(digits[2]), WriteHex(digits[3])]
  }

  /** The byte an escape of one letter stands for (section 7 of RFC 8259). */
  function ShortByte(letter: char): Option<byte> {
    match letter
    case '"' => Some(0x22)
    case '\\' => Some(0x5C)
    case '/' => Some(0x2F)
    case 'b' => Some(8)
    case 'f' => Some(12)
    case 'n' => Some(10)
    case 'r' => Some(13)
    case 't' => Some(9)
    case _ => None
  }

  /** Surrogates stand in pairs only (section 2.2 of RFC 2781). */
  predicate GoodChar(c: Char) {
    match c
    case Plain(b) => b >= 32 && b != Code('"') && b != Code('\\')
    case Short(letter) => ShortByte(letter).Some?
    case Unit(digits) => FourDigits(digits) && !(0xD800 <= Unit16(digits) <= 0xDFFF)
    case Surrogates(lead, trail) =>
      FourDigits(lead) && FourDigits(trail) && 0xD800 <= Unit16(lead) <= 0xDBFF && 0xDC00 <= Unit16(trail) <= 0xDFFF
  }

  predicate GoodChars(chars: seq<Char>) { forall i :: 0 <= i < |chars| ==> GoodChar(chars[i]) }

  function WriteChar(c: Char): (r: Bytes)
    requires GoodChar(c)
    ensures r != []
  {
    match c
    case Plain(b) => [b]
    case Short(letter) => Ascii("\\") + [Code(letter)]
    case Unit(digits) => WriteUnit(digits)
    case Surrogates(lead, trail) => WriteUnit(lead) + WriteUnit(trail)
  }

  function WriteChars(chars: seq<Char>): Bytes
    requires GoodChars(chars)
  {
    if chars == [] then [] else WriteChar(chars[0]) + WriteChars(chars[1..])
  }

  function WriteText(chars: seq<Char>): Bytes
    requires GoodChars(chars)
  {
    Ascii("\"") + WriteChars(chars) + Ascii("\"")
  }

  function ReadChar(c: Char): Bytes
    requires GoodChar(c)
  {
    match c
    case Plain(b) => [b]
    case Short(letter) => [ShortByte(letter).value]
    case Unit(digits) => Encode(Unit16(digits))
    case Surrogates(lead, trail) => Encode(0x10000 + (Unit16(lead) - 0xD800) * 0x400 + (Unit16(trail) - 0xDC00))
  }

  function ReadChars(chars: seq<Char>): Bytes
    requires GoodChars(chars)
  {
    if chars == [] then [] else ReadChar(chars[0]) + ReadChars(chars[1..])
  }

  /** A literal is the C string that its bytes hold. */
  function ReadText(chars: seq<Char>): Bytes
    requires GoodChars(chars)
  {
    CString(ReadChars(chars))
  }

  // Numerals

  datatype Exponent = Exponent(upper: bool, sign: Option<bool>, digits: seq<nat>)

  /** Integers that doubles hold exactly; the other decimal numerals; and, after a minus sign, what else `strtod` reads:
      letters of either case. */
  datatype Numeral =
    | Integer(neg: bool, n: nat)
    | Decimals(neg: bool, whole: seq<nat>, fraction: Option<seq<nat>>, exponent: Option<Exponent>)
    | Infinite(upper: seq<bool>)
    | NotANumber(upper: seq<bool>, payload: Option<Bytes>)

  predicate Digital(digits: seq<nat>) { forall i :: 0 <= i < |digits| ==> digits[i] < 10 }

  function WriteDigits(digits: seq<nat>): (r: Bytes)
    requires Digital(digits)
    ensures |r| == |digits|
  {
    if digits == [] then [] else [Ascii("0123456789")[digits[0]]] + WriteDigits(digits[1..])
  }

  predicate GoodExponent(e: Exponent) { Digital(e.digits) && e.digits != [] }

  function ExponentMark(e: Exponent): Bytes {
    match e.sign
    case None => Ascii(if e.upper then "E" else "e")
    case Some(minus) => Ascii(if e.upper then "E" else "e") + Ascii(if minus then "-" else "+")
  }

  function WriteExponent(e: Exponent): Bytes
    requires GoodExponent(e)
  {
    ExponentMark(e) + WriteDigits(e.digits)
  }

  function WritePower(exponent: Option<Exponent>): Bytes
    requires exponent.Some? ==> GoodExponent(exponent.value)
  {
    match exponent
    case None => []
    case Some(e) => WriteExponent(e)
  }

  function WriteFraction(fraction: Option<seq<nat>>): Bytes
    requires fraction.Some? ==> Digital(fraction.value)
  {
    match fraction
    case None => []
    case Some(digits) => Ascii(".") + WriteDigits(digits)
  }

  predicate WordByte(b: byte) {
    Code('0') <= b <= Code('9') || Code('A') <= b <= Code('Z') || b == Code('_') || Code('a') <= b <= Code('z')
  }

  predicate WordBytes(s: Bytes) { forall i :: 0 <= i < |s| ==> WordByte(s[i]) }

  /** `is_decimal` lets no leading zero through but before a point, and no x. */
  predicate GoodNumeral(num: Numeral) {
    match num
    case Integer(_, n) => n <= 0x20_0000_0000_0000
    case Decimals(neg, whole, fraction, exponent) =>
      && Digital(whole) && (fraction.Some? ==> Digital(fraction.value)) && (exponent.Some? ==> GoodExponent(exponent.value))
      && (whole == [] ==> neg && fraction.Some? && fraction.value != [])
      && (whole != [] && whole[0] == 0 ==> |whole| == 1 && fraction.Some?)
      && (fraction == None && exponent == None ==> Decimal.Value(whole) > 0x20_0000_0000_0000)
    case Infinite(upper) => |upper| == 3 || |upper| == 8
    case NotANumber(upper, payload) =>
      |upper| == 3 &&
      (payload.Some? ==> WordBytes(payload.value) && Code('x') !in payload.value && Code('X') !in payload.value)
  }

  function WritePayload(payload: Option<Bytes>): Bytes {
    match payload
    case None => []
    case Some(body) => Ascii("(") + body + Ascii(")")
  }

  function WriteSign(neg: bool): Bytes { if neg then Ascii("-") else [] }

  predicate LowerCase(word: string) { forall i :: 0 <= i < |word| ==> 'a' <= word[i] <= 'z' }

  function WriteWord(word: string, upper: seq<bool>): (r: Bytes)
    requires LowerCase(word) && |upper| <= |word|
    ensures |r| == |upper|
  {
    seq(|upper|, i requires 0 <= i < |upper| => if upper[i] then Code(word[i]) - 32 else Code(word[i]))
  }

  function WriteNumeral(num: Numeral): Bytes
    requires GoodNumeral(num)
  {
    match num
    case Integer(neg, n) => WriteSign(neg) + WriteDigits(Decimal.Digits(n))
    case Decimals(neg, whole, fraction, exponent) =>
      WriteSign(neg) + (WriteDigits(whole) + WriteFraction(fraction) + WritePower(exponent))
    case Infinite(upper) => Ascii("-") + WriteWord("infinity", upper)
    case NotANumber(upper, payload) => Ascii("-") + (WriteWord("nan", upper) + WritePayload(payload))
  }

  /** Only the exact integers have a value here; one number beyond them stands for all others. */
  function ReadNumeral(num: Numeral): int {
    match num
    case Integer(neg, n) => if neg then -(n as int) else n
    case _ => 0x20_0000_0000_0001
  }

  // What cannot follow a numeral, because it would be part of it

  predicate DigitAt(s: Bytes, i: nat) { i < |s| && Code('0') <= s[i] <= Code('9') }

  predicate ExponentAt(s: Bytes) {
    s != [] && s[0] in {Code('e'), Code('E')} &&
    (DigitAt(s, 1) || (|s| > 1 && s[1] in {Code('+'), Code('-')} && DigitAt(s, 2)))
  }

  predicate PointAt(s: Bytes) { s != [] && s[0] == Code('.') }

  predicate HexDigitAt(s: Bytes, i: nat) {
    DigitAt(s, i) || (i < |s| && (Code('a') <= s[i] <= Code('f') || Code('A') <= s[i] <= Code('F')))
  }

  predicate HexAt(s: Bytes) {
    s != [] && s[0] in {Code('x'), Code('X')} && (HexDigitAt(s, 1) || (PointAt(s[1..]) && HexDigitAt(s, 2)))
  }

  ghost predicate PayloadAt(s: Bytes) {
    exists body: Bytes :: WordBytes(body) && Ascii("(") + body + Ascii(")") <= s
  }

  ghost predicate Stops(num: Numeral, rest: Bytes) {
    match num
    case Integer(_, n) =>
      !DigitAt(rest, 0) && !PointAt(rest) && !ExponentAt(rest) && (n == 0 ==> !HexAt(rest))
    case Decimals(_, _, fraction, exponent) =>
      !DigitAt(rest, 0) && (exponent == None ==> !ExponentAt(rest) && (fraction == None ==> !PointAt(rest)))
    case Infinite(upper) =>
      |upper| == 3 ==> forall more: seq<bool> :: |more| == 5 ==> !(WriteWord("inity", more) <= rest)
    case NotANumber(_, payload) => payload == None ==> !PayloadAt(rest)
  }

  // Values

  datatype Node =
    | Null
    | Bool(b: bool)
    | Number(num: Numeral)
    | Text(chars: seq<Char>)
    | List(gap: seq<Space>, items: seq<Item>)
    | Dict(gap: seq<Space>, pairs: seq<Pair>)

  datatype Item = Item(before: seq<Space>, node: Node, after: seq<Space>)

  datatype Pair = Pair(before: seq<Space>, key: seq<Char>, mid: seq<Space>, gap: seq<Space>, node: Node, after: seq<Space>)

  /** Literals and numerals are in order, and only an empty container has a gap. */
  predicate Spelled(node: Node) {
    match node
    case Number(num) => GoodNumeral(num)
    case Text(chars) => GoodChars(chars)
    case List(gap, items) => (items != [] ==> gap == []) && forall i :: 0 <= i < |items| ==> Spelled(items[i].node)
    case Dict(gap, pairs) =>
      (pairs != [] ==> gap == []) && forall i :: 0 <= i < |pairs| ==> GoodChars(pairs[i].key) && Spelled(pairs[i].node)
    case _ => true
  }

  function Write(node: Node): Bytes
    requires Spelled(node)
    decreases node, 0
  {
    match node
    case Null => Ascii("null")
    case Bool(b) => Ascii(if b then "true" else "false")
    case Number(num) => WriteNumeral(num)
    case Text(chars) => WriteText(chars)
    case List(gap, items) => Ascii("[") + WriteSpaces(gap) + WriteItems(items) + Ascii("]")
    case Dict(gap, pairs) => Ascii("{") + WriteSpaces(gap) + WritePairs(pairs) + Ascii("}")
  }

  function WriteItems(items: seq<Item>): Bytes
    requires forall i :: 0 <= i < |items| ==> Spelled(items[i].node)
  {
    if items == [] then []
    else WriteItem(items[0]) + if |items| == 1 then [] else Ascii(",") + WriteItems(items[1..])
  }

  function WriteItem(item: Item): Bytes
    requires Spelled(item.node)
    decreases item, 1
  {
    WriteSpaces(item.before) + Write(item.node) + WriteSpaces(item.after)
  }

  function WritePairs(pairs: seq<Pair>): Bytes
    requires forall i :: 0 <= i < |pairs| ==> GoodChars(pairs[i].key) && Spelled(pairs[i].node)
  {
    if pairs == [] then []
    else WritePair(pairs[0]) + if |pairs| == 1 then [] else Ascii(",") + WritePairs(pairs[1..])
  }

  function WritePair(pair: Pair): Bytes
    requires GoodChars(pair.key) && Spelled(pair.node)
    decreases pair, 1
  {
    WriteSpaces(pair.before) + WriteText(pair.key) + WriteSpaces(pair.mid) + Ascii(":") +
    WriteSpaces(pair.gap) + Write(pair.node) + WriteSpaces(pair.after)
  }

  /** What the tree stands for: arrays and objects without spare capacity. */
  function Read(node: Node): Value
    requires Spelled(node)
    decreases node, 0
  {
    match node
    case Null => JNull
    case Bool(b) => JBool(b)
    case Number(num) => JNum(ReadNumeral(num))
    case Text(chars) => JStr(ReadText(chars))
    case List(_, items) => JArr(ReadItems(items), |items|)
    case Dict(_, pairs) => JObj(ReadPairs(pairs), |pairs|)
  }

  function ReadItems(items: seq<Item>): (r: seq<Value>)
    requires forall i :: 0 <= i < |items| ==> Spelled(items[i].node)
    ensures |r| == |items|
  {
    if items == [] then [] else [Read(items[0].node)] + ReadItems(items[1..])
  }

  function ReadPairs(pairs: seq<Pair>): (r: seq<Entry>)
    requires forall i :: 0 <= i < |pairs| ==> GoodChars(pairs[i].key) && Spelled(pairs[i].node)
    ensures |r| == |pairs|
  {
    if pairs == [] then []
    else [Entry(ReadText(pairs[0].key), Read(pairs[0].node))] + ReadPairs(pairs[1..])
  }

  /** Keeps the limits, at that depth: nesting 19, sizes 122880 and 960, no key twice. */
  ghost predicate Legal(node: Node, depth: nat)
    requires Spelled(node)
  {
    depth <= 19 &&
    match node
    case List(_, items) => |items| <= 122880 && forall i :: 0 <= i < |items| ==> Legal(items[i].node, depth + 1)
    case Dict(_, pairs) =>
      && |pairs| <= 960 && (forall i :: 0 <= i < |pairs| ==> Legal(pairs[i].node, depth + 1))
      && forall i, j :: 0 <= i < j < |pairs| ==> ReadText(pairs[i].key) != ReadText(pairs[j].key)
    case _ => true
  }

  /** Nothing but blanks between its tokens. */
  predicate Plainly(node: Node) {
    match node
    case List(gap, items) => AllWhite(gap) && forall i :: 0 <= i < |items| ==> PlainItem(items[i])
    case Dict(gap, pairs) => AllWhite(gap) && forall i :: 0 <= i < |pairs| ==> PlainPair(pairs[i])
    case _ => true
  }

  predicate PlainItem(item: Item) { AllWhite(item.before) && AllWhite(item.after) && Plainly(item.node) }

  predicate PlainPair(pair: Pair) {
    AllWhite(pair.before) && AllWhite(pair.mid) && AllWhite(pair.gap) && AllWhite(pair.after) && Plainly(pair.node)
  }

  /** Numbers within the tree stop where they should, whatever their neighbours. */
  ghost predicate Ends(node: Node, rest: Bytes) { node.Number? ==> Stops(node.num, rest) }

  // Whole texts

  /** A minus sign that begins no numeral. */
  ghost predicate OnlyMinus(s: Bytes) {
    && s != [] && s[0] == Code('-') && !DigitAt(s, 1) && !(PointAt(s[1..]) && DigitAt(s, 2))
    && forall upper: seq<bool> :: |upper| == 3 ==>
      !(WriteWord("inf", upper) <= s[1..]) && !(WriteWord("nan", upper) <= s[1..])
  }

  /** The tree is written there, after some blanks, and stands for `v`. */
  ghost predicate Writes(sp: seq<Space>, node: Node, s: Bytes, v: Value, rest: Bytes, depth: nat) {
    && AllWhite(sp) && Spelled(node) && Legal(node, depth) && Plainly(node) && Ends(node, rest)
    && Read(node) == v && s == WriteSpaces(sp) + Write(node) + rest
  }

  /** The quirk of the lone minus sign: it stands for zero and is left where it is. */
  ghost predicate StaysAt(sp: seq<Space>, s: Bytes, v: Value, rest: Bytes) {
    AllWhite(sp) && s == WriteSpaces(sp) + rest && OnlyMinus(rest) && v == JNum(0)
  }

  /** The text begins with a value, and `rest` is what is left. */
  ghost predicate IsText(s: Bytes, v: Value, rest: Bytes, depth: nat) {
    || (exists sp: seq<Space>, node: Node :: Writes(sp, node, s, v, rest, depth))
    || (depth <= 19 && exists sp: seq<Space> :: StaysAt(sp, s, v, rest))
  }
}

/** What parson's serializer writes for a value, plain or pretty. */
module Printer {
  import opened Bytes
  import Decimal
  import opened Parser
  import opened Strings
  import opened Values

  function Numerals(digits: seq<nat>): (s: Bytes)
    requires forall i :: 0 <= i < |digits| ==> digits[i] < 10
    ensures |s| == |digits| && AllDigits(s)
  {
    if digits == [] then [] else [48 + digits[0]] + Numerals(digits[1..])
  }

  /** `sprintf("%d")` */
  function PrintNumber(n: int): (s: Bytes)
    ensures s != [] && (s[0] == MINUS || IsDigit(s[0]))
  {
    if n < 0 then [MINUS] + Numerals(Decimal.Digits(-n)) else Numerals(Decimal.Digits(n))
  }

  /** `append_indent`: four spaces for each level. */
  function Indent(level: nat, pretty: bool): (s: Bytes)
    ensures AllSpaces(s)
  {
    if !pretty || level == 0 then [] else [SPACE, SPACE, SPACE, SPACE] + Indent(level - 1, pretty)
  }

  function LineEnd(pretty: bool): (s: Bytes)
    ensures AllSpaces(s)
  {
    if pretty then [NEWLINE] else []
  }

  function Colon(pretty: bool): Bytes { if pretty then [COLON, SPACE] else [COLON] }

  /** After an item: a comma, but for the last. */
  function Separator(last: bool, pretty: bool): Bytes {
    (if last then [] else [COMMA]) + LineEnd(pretty)
  }

  function Print(v: Value, level: nat, pretty: bool): Bytes
    decreases v, 0
  {
    match v
    case JNull => NULL
    case JBool(b) => if b then TRUE else FALSE
    case JNum(n) => PrintNumber(n)
    case JStr(s) => Quoted(s)
    case JArr(items, _) =>
      if items == [] then [OPEN_BRACKET, CLOSE_BRACKET]
      else [OPEN_BRACKET] + LineEnd(pretty) + PrintItems(items, level, pretty) + Indent(level, pretty) + [CLOSE_BRACKET]
    case JObj(entries, _) =>
      if entries == [] then [OPEN_BRACE, CLOSE_BRACE]
      else [OPEN_BRACE] + LineEnd(pretty) + PrintEntries(entries, level, pretty) + Indent(level, pretty) + [CLOSE_BRACE]
  }

  function PrintItems(items: seq<Value>, level: nat, pretty: bool): Bytes {
    if items == [] then []
    else PrintItem(items[0], |items| == 1, level, pretty) + PrintItems(items[1..], level, pretty)
  }

  function PrintItem(v: Value, last: bool, level: nat, pretty: bool): Bytes
    decreases v, 1
  {
    Indent(level + 1, pretty) + Print(v, level + 1, pretty) + Separator(last, pretty)
  }

  function PrintEntries(entries: seq<Entry>, level: nat, pretty: bool): Bytes {
    if entries == [] then []
    else PrintEntry(entries[0], |entries| == 1, level, pretty) + PrintEntries(entries[1..], level, pretty)
  }

  function PrintEntry(e: Entry, last: bool, level: nat, pretty: bool): Bytes
    decreases e, 2
  {
    Indent(level + 1, pretty) + PrintPair(e, level, pretty) + Separator(last, pretty)
  }

  function PrintPair(e: Entry, level: nat, pretty: bool): Bytes
    decreases e, 1
  {
    Quoted(e.name) + Colon(pretty) + Print(e.value, level + 1, pretty)
  }
}

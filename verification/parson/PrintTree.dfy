/** What the serializer writes, said of the grammar's trees: which spelling is chosen, and how it is laid out. */
module PrintTree {
  import opened Bytes
  import Decimal
  import opened Grammar
  import N = GrammarNumbers
  import T = GrammarTexts
  import opened Printer
  import Parser
  import S = Strings
  import opened Utf8
  import opened Values

  // Literals

  /** The spelling of a byte: the escape of one letter where there is one, the lower-case escape of its number for other
      control bytes, and otherwise the byte itself. */
  ghost predicate Chosen(c: Char, b: byte) {
    && GoodChar(c) && ReadChar(c) == [b]
    && if exists letter :: ShortByte(letter) == Some(b) then c.Short?
       else if b < 32 then c.Unit? && forall i :: 0 <= i < 4 ==> !c.digits[i].upper
       else c.Plain?
  }

  ghost predicate AllChosen(chars: seq<Char>, s: Bytes) {
    |chars| == |s| && GoodChars(chars) && forall i :: 0 <= i < |s| ==> Chosen(chars[i], s[i])
  }

  /** A C string, spelled so. */
  ghost predicate WellChosen(chars: seq<Char>) { exists s: Bytes :: NoNul(s) && AllChosen(chars, s) }

  lemma HasShort(b: byte)
    ensures (exists letter :: ShortByte(letter) == Some(b)) <==> b in {0x22, 0x5C, 0x2F, 8, 12, 10, 13, 9}
  {
    if b == 0x22 { assert ShortByte('"') == Some(b); }
    if b == 0x5C { assert ShortByte('\\') == Some(b); }
    if b == 0x2F { assert ShortByte('/') == Some(b); }
    if b == 8 { assert ShortByte('b') == Some(b); }
    if b == 12 { assert ShortByte('f') == Some(b); }
    if b == 10 { assert ShortByte('n') == Some(b); }
    if b == 13 { assert ShortByte('r') == Some(b); }
    if b == 9 { assert ShortByte('t') == Some(b); }
  }

  lemma ByteWritten(b: byte) returns (c: Char)
    ensures Chosen(c, b) && WriteChar(c) == S.EscapeByte(b)
  {
    HasShort(b);
    if b in {0x22, 0x5C, 0x2F, 8, 12, 10, 13, 9} {
      c := Short(if b == 0x22 then '"' else if b == 0x5C then '\\' else if b == 0x2F then '/' else if b == 8 then 'b'
        else if b == 12 then 'f' else if b == 10 then 'n' else if b == 13 then 'r' else 't');
    } else if b < 32 {
      c := ControlWritten(b);
    } else {
      c := Plain(b);
    }
  }

  lemma ControlWritten(b: byte) returns (c: Char)
    requires b < 32
    ensures c.Unit? && GoodChar(c) && ReadChar(c) == [b] && forall i :: 0 <= i < 4 ==> !c.digits[i].upper
    ensures WriteChar(c) == [BACKSLASH, 117, ZERO, ZERO, S.HexDigit(b / 16), S.HexDigit(b % 16)]
  {
    c := Unit([Hex(0, false), Hex(0, false), Hex(b / 16, false), Hex(b % 16, false)]);
    LowerDigit(0);
    LowerDigit(b / 16);
    LowerDigit(b % 16);
  }

  lemma LowerDigit(v: nat)
    requires v < 16
    ensures WriteHex(Hex(v, false)) == S.HexDigit(v)
  {
    assert v < 10 ==> Ascii("0123456789abcdef")[v] == 48 + v;
    assert v >= 10 ==> Ascii("0123456789abcdef")[v] == 87 + v;
  }

  /** Each byte is written in the chosen spelling. */
  lemma {:induction false} QuotedIsChosen(s: Bytes) returns (chars: seq<Char>)
    ensures AllChosen(chars, s) && S.Quoted(s) == WriteText(chars)
  {
    chars := EscapedIsChosen(s);
  }

  lemma {:induction false} EscapedIsChosen(s: Bytes) returns (chars: seq<Char>)
    ensures AllChosen(chars, s) && S.Escape(s) == WriteChars(chars)
  {
    hide Chosen, GoodChar, WriteChar, S.EscapeByte;
    if s == [] {
      chars := [];
    } else {
      var c := ByteWritten(s[0]);
      var more := EscapedIsChosen(s[1..]);
      chars := [c] + more;
      ChosenInFront(c, more, s);
    }
  }

  lemma ChosenInFront(c: Char, more: seq<Char>, s: Bytes)
    requires s != [] && Chosen(c, s[0]) && AllChosen(more, s[1..])
    ensures AllChosen([c] + more, s) && WriteChars([c] + more) == WriteChar(c) + WriteChars(more)
  {
    hide WriteChar, GoodChar, ReadChar;
    var chars := [c] + more;
    assert chars[1..] == more;
    forall i | 0 <= i < |chars| ensures GoodChar(chars[i]) && Chosen(chars[i], s[i]) {
      assert i > 0 ==> chars[i] == more[i - 1] && s[i] == s[1..][i - 1];
    }
  }

  lemma {:induction false} ChosenRead(chars: seq<Char>, s: Bytes)
    requires AllChosen(chars, s)
    ensures ReadChars(chars) == s
  {
    hide ReadChar, GoodChar;
    if s != [] {
      assert AllChosen(chars[1..], s[1..]) by { RestChosen(chars, s); }
      ChosenRead(chars[1..], s[1..]);
      assert Chosen(chars[0], s[0]);
      assert s == [s[0]] + s[1..];
    }
  }

  lemma RestChosen(chars: seq<Char>, s: Bytes)
    requires AllChosen(chars, s) && s != []
    ensures AllChosen(chars[1..], s[1..])
  {
    hide ReadChar, GoodChar;
  }

  /** There is only one such spelling. */
  lemma ChosenOnce(c: Char, d: Char, b: byte)
    requires Chosen(c, b) && Chosen(d, b)
    ensures WriteChar(c) == WriteChar(d)
  {
    if c.Short? {
      assert d.Short?;
      HasShort(b);
      SameLetter(c.letter, d.letter);
    } else if c.Unit? {
      assert d.Unit?;
      SmallUnit(c.digits, b);
      SmallUnit(d.digits, b);
      SameDigits(c.digits, d.digits);
    }
  }

  lemma SameLetter(l: char, m: char)
    requires ShortByte(l).Some? && ShortByte(l) == ShortByte(m)
    ensures l == m
  {
  }

  lemma SmallUnit(digits: seq<Hex>, b: byte)
    requires GoodChar(Unit(digits)) && ReadChar(Unit(digits)) == [b]
    ensures Unit16(digits) == b
  {
  }

  lemma SameDigits(c: seq<Hex>, d: seq<Hex>)
    requires FourDigits(c) && FourDigits(d) && Unit16(c) == Unit16(d)
    requires forall i :: 0 <= i < 4 ==> !c[i].upper && !d[i].upper
    ensures c == d
  {
    SameParts(c[0].value, c[1].value, c[2].value, c[3].value, d[0].value, d[1].value, d[2].value, d[3].value);
    assert forall i :: 0 <= i < 4 ==> c[i].value == d[i].value;
  }

  lemma SameParts(a: nat, b: nat, c: nat, d: nat, e: nat, f: nat, g: nat, h: nat)
    requires a < 16 && b < 16 && c < 16 && d < 16 && e < 16 && f < 16 && g < 16 && h < 16
    requires a * 0x1000 + b * 0x100 + c * 0x10 + d == e * 0x1000 + f * 0x100 + g * 0x10 + h
    ensures a == e && b == f && c == g && d == h
  {
  }

  // Layout

  /** A new line, with four blanks for each bracket that is open, or nothing. */
  function Break(level: nat, pretty: bool): seq<Space> {
    if pretty then [White(Code('\n'))] + seq(4 * level, _ => White(Code(' '))) else []
  }

  function Gap(pretty: bool): seq<Space> { if pretty then [White(Code(' '))] else [] }

  /** Within `level` open brackets: chosen spellings, numbers without a needless sign, each item on a line of its own and
      the closing bracket on another, and no other blank than the one after a colon; or none at all. */
  ghost predicate Laid(node: Node, level: nat, pretty: bool) {
    match node
    case Number(num) => num.Integer? && (num.neg ==> num.n > 0)
    case Text(chars) => WellChosen(chars)
    case List(gap, items) =>
      gap == [] && forall i :: 0 <= i < |items| ==>
        && items[i].before == Break(level + 1, pretty)
        && items[i].after == (if i == |items| - 1 then Break(level, pretty) else [])
        && Laid(items[i].node, level + 1, pretty)
    case Dict(gap, pairs) =>
      gap == [] && forall i :: 0 <= i < |pairs| ==>
        && pairs[i].before == Break(level + 1, pretty) && WellChosen(pairs[i].key)
        && pairs[i].mid == [] && pairs[i].gap == Gap(pretty)
        && pairs[i].after == (if i == |pairs| - 1 then Break(level, pretty) else [])
        && Laid(pairs[i].node, level + 1, pretty)
    case _ => true
  }

  ghost predicate Printing(node: Node, v: Value, level: nat, pretty: bool) {
    Spelled(node) && Laid(node, level, pretty) && Read(node) == Trim(v) && Write(node) == Print(v, level, pretty)
  }

  lemma {:induction false} BlanksWritten(n: nat)
    ensures AllWhite(seq(4 * n, _ => White(32))) && WriteSpaces(seq(4 * n, _ => White(32))) == Indent(n, true)
  {
    if n > 0 {
      var more := seq(4 * (n - 1), _ => White(32));
      var four := [White(32), White(32), White(32), White(32)];
      BlanksWritten(n - 1);
      assert seq(4 * n, _ => White(32)) == four + more;
      T.SpacesJoin(four, more);
      FourBlanks();
    }
  }

  lemma FourBlanks()
    ensures WriteSpaces([White(32), White(32), White(32), White(32)]) == [SPACE, SPACE, SPACE, SPACE]
  {
    var one, two, three := [White(32)], [White(32), White(32)], [White(32), White(32), White(32)];
    assert one[1..] == [] && two[1..] == one && three[1..] == two && (three + one)[1..] == three;
    assert three + one == [White(32), White(32), White(32), White(32)];
    assert WriteSpaces(one) == [SPACE] && WriteSpaces(two) == [SPACE, SPACE] && WriteSpaces(three) == [SPACE, SPACE, SPACE];
  }

  lemma BreakWritten(level: nat, pretty: bool)
    ensures AllWhite(Break(level, pretty)) && WriteSpaces(Break(level, pretty)) == LineEnd(pretty) + Indent(level, pretty)
  {
    if pretty {
      BlanksWritten(level);
      var blanks := seq(4 * level, _ => White(32));
      assert Break(level, pretty)[1..] == blanks;
    }
  }

  lemma GapWritten(pretty: bool)
    ensures AllWhite(Gap(pretty)) && [COLON] + WriteSpaces(Gap(pretty)) == Colon(pretty)
  {
    if pretty {
      assert Gap(pretty)[1..] == [];
    }
  }

  // Every value is printed so

  lemma NumberPrinted(n: int) returns (num: Numeral)
    requires -0x8000_0000 <= n < 0x8000_0000
    ensures GoodNumeral(num) && num.Integer? && (num.neg ==> num.n > 0) && ReadNumeral(num) == n
    ensures WriteNumeral(num) == PrintNumber(n)
  {
    var m: nat := if n < 0 then -n else n;
    num := Integer(n < 0, m);
    SignedPrinted(n, m);
  }

  lemma SignedPrinted(n: int, m: nat)
    requires m == if n < 0 then -n else n
    ensures WriteSign(n < 0) + WriteDigits(Decimal.Digits(m)) == PrintNumber(n)
  {
    hide Decimal.Digits, Numerals, WriteDigits;
    SameNumerals(Decimal.Digits(m));
    assert [] + WriteDigits(Decimal.Digits(m)) == WriteDigits(Decimal.Digits(m));
    assert Ascii("-") == [MINUS];
  }

  lemma {:induction false} SameNumerals(digits: seq<nat>)
    requires Digital(digits)
    ensures WriteDigits(digits) == Numerals(digits)
  {
    if digits != [] {
      N.DigitByte(digits[0]);
      SameNumerals(digits[1..]);
    }
  }

  lemma StringPrinted(s: Bytes) returns (chars: seq<Char>)
    requires NoNul(s)
    ensures GoodChars(chars) && WellChosen(chars) && ReadText(chars) == s && WriteText(chars) == S.Quoted(s)
  {
    hide ReadChars, WriteChars, S.Escape, Chosen;
    chars := QuotedIsChosen(s);
    ChosenRead(chars, s);
    CStringOfNoNul(s);
  }

  ghost predicate Fit(v: Value) { WellFormed(v) && AllInt32(v) }

  lemma {:induction false} Printed(v: Value, level: nat, pretty: bool) returns (node: Node)
    requires Fit(v)
    ensures Printing(node, v, level, pretty)
    decreases v, 1
  {
    hide PrintItems, PrintEntries, PrintNumber, S.Quoted, WriteText, ReadText, WriteNumeral, WellChosen, Printing;
    match v
    case JNull => node := Null; LeafPrinted(node, v, level, pretty);
    case JBool(b) => node := Bool(b); LeafPrinted(node, v, level, pretty);
    case JNum(n) =>
      var num := NumberPrinted(n);
      node := Number(num);
      LeafPrinted(node, v, level, pretty);
    case JStr(s) =>
      var chars := StringPrinted(s);
      node := Text(chars);
      LeafPrinted(node, v, level, pretty);
    case JArr(items, _) => node := ArrayPrinted(v, level, pretty);
    case JObj(entries, _) => node := ObjectPrinted(v, level, pretty);
  }

  lemma LeafPrinted(node: Node, v: Value, level: nat, pretty: bool)
    requires match v
      case JNull => node == Null
      case JBool(b) => node == Bool(b)
      case JNum(n) => node.Number? && GoodNumeral(node.num) && node.num.Integer? && (node.num.neg ==> node.num.n > 0)
        && ReadNumeral(node.num) == n && WriteNumeral(node.num) == PrintNumber(n)
      case JStr(s) => node.Text? && GoodChars(node.chars) && WellChosen(node.chars) && ReadText(node.chars) == s &&
        WriteText(node.chars) == S.Quoted(s)
      case _ => false
    ensures Printing(node, v, level, pretty)
  {
    hide PrintNumber, S.Quoted, WriteText, ReadText, WriteNumeral, WellChosen;
    assert Ascii("null") == Parser.NULL && Ascii("true") == Parser.TRUE && Ascii("false") == Parser.FALSE;
  }

  ghost predicate LaidItems(items: seq<Item>, level: nat, pretty: bool) {
    forall i :: 0 <= i < |items| ==>
      && items[i].before == Break(level + 1, pretty)
      && items[i].after == (if i == |items| - 1 then Break(level, pretty) else [])
      && Laid(items[i].node, level + 1, pretty)
  }

  lemma {:induction false} ArrayPrinted(v: Value, level: nat, pretty: bool) returns (node: Node)
    requires v.JArr? && Fit(v)
    ensures Printing(node, v, level, pretty)
    decreases v, 0
  {
    hide PrintItems, Indent, LineEnd, WriteItems, ReadItems, LaidItems;
    if v.items == [] {
      node := List([], []);
      EmptyPrinted(v, level, pretty);
    } else {
      var items := ItemsPrinted(v.items, level, pretty);
      node := List([], items);
      T.ListText(items);
      ListLaid(items, v, level, pretty);
    }
  }

  lemma EmptyPrinted(v: Value, level: nat, pretty: bool)
    requires (v.JArr? && v.items == []) || (v.JObj? && v.entries == [])
    ensures v.JArr? ==> Printing(List([], []), v, level, pretty)
    ensures v.JObj? ==> Printing(Dict([], []), v, level, pretty)
  {
    T.NoItems();
    T.NoPairs();
    T.NoSpaces();
    assert Ascii("[") + [] + [] + Ascii("]") == [OPEN_BRACKET, CLOSE_BRACKET];
    assert Ascii("{") + [] + [] + Ascii("}") == [OPEN_BRACE, CLOSE_BRACE];
  }

  lemma {:induction false} ListLaid(items: seq<Item>, v: Value, level: nat, pretty: bool)
    requires v.JArr? && v.items != [] && LaidItems(items, level, pretty) && Spelled(List([], items))
    requires Write(List([], items)) == [OPEN_BRACKET] + WriteItems(items) + [CLOSE_BRACKET]
    requires ReadItems(items) == TrimItems(v.items)
    requires WriteItems(items) == LineEnd(pretty) + PrintItems(v.items, level, pretty) + Indent(level, pretty)
    ensures Printing(List([], items), v, level, pretty)
  {
    hide PrintItems, Indent, LineEnd, WriteItems, Write, Spelled;
    assert [OPEN_BRACKET] + (LineEnd(pretty) + PrintItems(v.items, level, pretty) + Indent(level, pretty)) + [CLOSE_BRACKET]
      == [OPEN_BRACKET] + LineEnd(pretty) + PrintItems(v.items, level, pretty) + Indent(level, pretty) + [CLOSE_BRACKET];
  }

  lemma {:induction false} ItemsPrinted(items: seq<Value>, level: nat, pretty: bool) returns (its: seq<Item>)
    requires items != [] && forall i :: 0 <= i < |items| ==> Fit(items[i])
    ensures |its| == |items| && LaidItems(its, level, pretty) && Spelled(List([], its))
    ensures forall i :: 0 <= i < |its| ==> Spelled(its[i].node)
    ensures ReadItems(its) == TrimItems(items)
    ensures WriteItems(its) == LineEnd(pretty) + PrintItems(items, level, pretty) + Indent(level, pretty)
    decreases items
  {
    hide PrintItems, WriteItems, ReadItems, Fit, LaidItems, LineEnd, Indent, Break, Print;
    var node := Printed(items[0], level + 1, pretty);
    BreakWritten(level + 1, pretty);
    BreakWritten(level, pretty);
    if |items| == 1 {
      its := [Item(Break(level + 1, pretty), node, Break(level, pretty))];
      OneItemPrinted(items, its, level, pretty);
    } else {
      var more := ItemsPrinted(items[1..], level, pretty);
      its := [Item(Break(level + 1, pretty), node, [])] + more;
      MoreItemsPrinted(items, its, more, level, pretty);
    }
  }

  lemma {:induction false} OneItemPrinted(items: seq<Value>, its: seq<Item>, level: nat, pretty: bool)
    requires |items| == 1 && |its| == 1 && Printing(its[0].node, items[0], level + 1, pretty)
    requires its[0].before == Break(level + 1, pretty) && its[0].after == Break(level, pretty)
    ensures LaidItems(its, level, pretty) && Spelled(List([], its)) && Spelled(its[0].node)
    ensures ReadItems(its) == TrimItems(items)
    ensures WriteItems(its) == LineEnd(pretty) + PrintItems(items, level, pretty) + Indent(level, pretty)
  {
    hide LineEnd, Indent, Break, Print, Write, Read, Trim;
    BreakWritten(level + 1, pretty);
    BreakWritten(level, pretty);
    assert items[1..] == [] && its[1..] == [];
    var a, b, p, c := LineEnd(pretty), Indent(level + 1, pretty), Print(items[0], level + 1, pretty), Indent(level, pretty);
    assert WriteItems(its) == (a + b) + p + (a + c) + [];
    assert PrintItems(items, level, pretty) == b + p + ([] + a) + [];
    LastLine(a, b, p, c);
  }

  lemma {:induction false} MoreItemsPrinted(items: seq<Value>, its: seq<Item>, more: seq<Item>, level: nat, pretty: bool)
    requires |items| > 1 && its != [] && its[1..] == more != [] && Printing(its[0].node, items[0], level + 1, pretty)
    requires its[0].before == Break(level + 1, pretty) && its[0].after == []
    requires LaidItems(more, level, pretty) && forall i :: 0 <= i < |more| ==> Spelled(more[i].node)
    requires ReadItems(more) == TrimItems(items[1..])
    requires WriteItems(more) == LineEnd(pretty) + PrintItems(items[1..], level, pretty) + Indent(level, pretty)
    ensures LaidItems(its, level, pretty) && Spelled(List([], its)) && forall i :: 0 <= i < |its| ==> Spelled(its[i].node)
    ensures ReadItems(its) == TrimItems(items)
    ensures WriteItems(its) == LineEnd(pretty) + PrintItems(items, level, pretty) + Indent(level, pretty)
  {
    hide LineEnd, Indent, Break, Print, Write, Read, Trim, Laid, Spelled;
    BreakWritten(level + 1, pretty);
    T.NoSpaces();
    SpelledInFront(its);
    ItemsSpelled(its);
    LaidInFront(its, more, level, pretty);
    var a, b, p, c := LineEnd(pretty), Indent(level + 1, pretty), Print(items[0], level + 1, pretty), Indent(level, pretty);
    var q := PrintItems(items[1..], level, pretty);
    assert WriteItems(its) == (a + b) + p + [] + (Ascii(",") + (a + q + c));
    assert PrintItems(items, level, pretty) == b + p + ([COMMA] + a) + q;
    CommaLine(a, b, p, q, c);
  }

  lemma SpelledInFront(its: seq<Item>)
    requires its != [] && Spelled(its[0].node) && forall i :: 0 <= i < |its[1..]| ==> Spelled(its[1..][i].node)
    ensures forall i :: 0 <= i < |its| ==> Spelled(its[i].node)
  {
    hide Spelled;
    forall i | 0 < i < |its| ensures its[i] == its[1..][i - 1] {
    }
  }

  lemma LastLine(a: Bytes, b: Bytes, p: Bytes, c: Bytes)
    ensures (a + b) + p + (a + c) + [] == a + (b + p + ([] + a) + []) + c
  {
  }

  lemma CommaLine(a: Bytes, b: Bytes, p: Bytes, q: Bytes, c: Bytes)
    ensures (a + b) + p + [] + (Ascii(",") + (a + q + c)) == a + (b + p + ([COMMA] + a) + q) + c
  {
    assert Ascii(",") == [COMMA];
  }

  lemma {:induction false} ItemsSpelled(its: seq<Item>)
    requires forall i :: 0 <= i < |its| ==> Spelled(its[i].node)
    ensures Spelled(List([], its))
  {
  }

  lemma {:induction false} LaidInFront(its: seq<Item>, more: seq<Item>, level: nat, pretty: bool)
    requires its != [] && its[1..] == more != [] && LaidItems(more, level, pretty)
    requires its[0].before == Break(level + 1, pretty) && its[0].after == [] && Laid(its[0].node, level + 1, pretty)
    ensures LaidItems(its, level, pretty)
  {
    hide Break, Laid;
    forall i | 0 < i < |its| ensures its[i] == more[i - 1] {
    }
  }

  // Objects

  ghost predicate LaidPairs(pairs: seq<Pair>, level: nat, pretty: bool) {
    forall i :: 0 <= i < |pairs| ==>
      && pairs[i].before == Break(level + 1, pretty) && WellChosen(pairs[i].key)
      && pairs[i].mid == [] && pairs[i].gap == Gap(pretty)
      && pairs[i].after == (if i == |pairs| - 1 then Break(level, pretty) else [])
      && Laid(pairs[i].node, level + 1, pretty)
  }

  ghost predicate FitEntry(e: Entry) { NoNul(e.name) && Fit(e.value) }

  lemma {:induction false} ObjectPrinted(v: Value, level: nat, pretty: bool) returns (node: Node)
    requires v.JObj? && Fit(v)
    ensures Printing(node, v, level, pretty)
    decreases v, 0
  {
    hide PrintEntries, Indent, LineEnd, WritePairs, ReadPairs, LaidPairs;
    if v.entries == [] {
      node := Dict([], []);
      EmptyPrinted(v, level, pretty);
    } else {
      var pairs := EntriesPrinted(v.entries, level, pretty);
      node := Dict([], pairs);
      T.DictText(pairs);
      DictLaid(pairs, v, level, pretty);
    }
  }

  lemma {:induction false} DictLaid(pairs: seq<Pair>, v: Value, level: nat, pretty: bool)
    requires v.JObj? && v.entries != [] && LaidPairs(pairs, level, pretty) && Spelled(Dict([], pairs))
    requires forall i :: 0 <= i < |pairs| ==> GoodChars(pairs[i].key) && Spelled(pairs[i].node)
    requires Write(Dict([], pairs)) == [OPEN_BRACE] + WritePairs(pairs) + [CLOSE_BRACE]
    requires ReadPairs(pairs) == TrimEntries(v.entries)
    requires WritePairs(pairs) == LineEnd(pretty) + PrintEntries(v.entries, level, pretty) + Indent(level, pretty)
    ensures Printing(Dict([], pairs), v, level, pretty)
  {
    hide PrintEntries, Indent, LineEnd, WritePairs, Write, Spelled, WellChosen;
    assert [OPEN_BRACE] + (LineEnd(pretty) + PrintEntries(v.entries, level, pretty) + Indent(level, pretty)) + [CLOSE_BRACE]
      == [OPEN_BRACE] + LineEnd(pretty) + PrintEntries(v.entries, level, pretty) + Indent(level, pretty) + [CLOSE_BRACE];
  }

  /** One pair, but for the blanks around it. */
  ghost predicate PairPrinting(pair: Pair, e: Entry, level: nat, pretty: bool) {
    && GoodChars(pair.key) && ReadText(pair.key) == e.name && WriteText(pair.key) == S.Quoted(e.name)
    && WellChosen(pair.key) && pair.mid == [] && pair.gap == Gap(pretty)
    && Printing(pair.node, e.value, level + 1, pretty)
  }

  lemma {:induction false} EntriesPrinted(entries: seq<Entry>, level: nat, pretty: bool) returns (pairs: seq<Pair>)
    requires entries != [] && forall i :: 0 <= i < |entries| ==> FitEntry(entries[i])
    ensures |pairs| == |entries| && LaidPairs(pairs, level, pretty) && Spelled(Dict([], pairs))
    ensures forall i :: 0 <= i < |pairs| ==> GoodChars(pairs[i].key) && Spelled(pairs[i].node)
    ensures ReadPairs(pairs) == TrimEntries(entries)
    ensures WritePairs(pairs) == LineEnd(pretty) + PrintEntries(entries, level, pretty) + Indent(level, pretty)
    decreases entries
  {
    hide PrintEntries, WritePairs, ReadPairs, Fit, LaidPairs, LineEnd, Indent, Break, Print, WellChosen, WriteText, ReadText,
         S.Quoted;
    assert FitEntry(entries[0]);
    var node := Printed(entries[0].value, level + 1, pretty);
    var chars := StringPrinted(entries[0].name);
    if |entries| == 1 {
      pairs := [Pair(Break(level + 1, pretty), chars, [], Gap(pretty), node, Break(level, pretty))];
      assert PairPrinting(pairs[0], entries[0], level, pretty);
      OnePairPrinted(entries, pairs, level, pretty);
    } else {
      var more := EntriesPrinted(entries[1..], level, pretty);
      pairs := [Pair(Break(level + 1, pretty), chars, [], Gap(pretty), node, [])] + more;
      assert PairPrinting(pairs[0], entries[0], level, pretty);
      MorePairsPrinted(entries, pairs, more, level, pretty);
    }
  }

  /** The key, the colon and the value. */
  lemma PairText(pair: Pair, e: Entry, level: nat, pretty: bool)
    requires PairPrinting(pair, e, level, pretty)
    ensures WritePair(pair) == WriteSpaces(pair.before) + PrintPair(e, level, pretty) + WriteSpaces(pair.after)
  {
    hide WriteSpaces, Print, Write, WriteText, S.Quoted, WellChosen, Gap, Colon, Laid, Read, Trim;
    GapWritten(pretty);
    assert WriteSpaces([]) == [] by { T.NoSpaces(); }
    var a, k, g, w, z := WriteSpaces(pair.before), WriteText(pair.key), WriteSpaces(Gap(pretty)), Write(pair.node),
      WriteSpaces(pair.after);
    assert a + k + [] + Ascii(":") + g + w + z == a + (k + ([COLON] + g) + w) + z by { assert Ascii(":") == [COLON]; }
  }

  lemma {:induction false} OnePairPrinted(entries: seq<Entry>, pairs: seq<Pair>, level: nat, pretty: bool)
    requires |entries| == 1 && |pairs| == 1 && PairPrinting(pairs[0], entries[0], level, pretty)
    requires pairs[0].before == Break(level + 1, pretty) && pairs[0].after == Break(level, pretty)
    ensures LaidPairs(pairs, level, pretty) && Spelled(Dict([], pairs))
    ensures ReadPairs(pairs) == TrimEntries(entries)
    ensures WritePairs(pairs) == LineEnd(pretty) + PrintEntries(entries, level, pretty) + Indent(level, pretty)
  {
    hide LineEnd, Indent, Break, PrintPair, WritePair, Write, Read, Trim, WellChosen, WriteText, ReadText, S.Quoted,
      Gap, Laid;
    BreakWritten(level + 1, pretty);
    BreakWritten(level, pretty);
    PairText(pairs[0], entries[0], level, pretty);
    assert entries[1..] == [] && pairs[1..] == [];
    var a, b, p, c := LineEnd(pretty), Indent(level + 1, pretty), PrintPair(entries[0], level, pretty), Indent(level,
      pretty);
    assert WritePairs(pairs) == (a + b) + p + (a + c) + [];
    assert PrintEntries(entries, level, pretty) == b + p + ([] + a) + [];
    LastLine(a, b, p, c);
  }

  lemma {:induction false} MorePairsPrinted(entries: seq<Entry>, pairs: seq<Pair>, more: seq<Pair>, level: nat, pretty: bool)
    requires |entries| > 1 && pairs != [] && pairs[1..] == more != [] && PairPrinting(pairs[0], entries[0], level, pretty)
    requires pairs[0].before == Break(level + 1, pretty) && pairs[0].after == []
    requires LaidPairs(more, level, pretty)
    requires forall i :: 0 <= i < |more| ==> GoodChars(more[i].key) && Spelled(more[i].node)
    requires ReadPairs(more) == TrimEntries(entries[1..])
    requires WritePairs(more) == LineEnd(pretty) + PrintEntries(entries[1..], level, pretty) + Indent(level, pretty)
    ensures LaidPairs(pairs, level, pretty) && Spelled(Dict([], pairs))
    ensures forall i :: 0 <= i < |pairs| ==> GoodChars(pairs[i].key) && Spelled(pairs[i].node)
    ensures ReadPairs(pairs) == TrimEntries(entries)
    ensures WritePairs(pairs) == LineEnd(pretty) + PrintEntries(entries, level, pretty) + Indent(level, pretty)
  {
    hide LineEnd, Indent, Break, PrintPair, WritePair, Write, Read, Trim, WellChosen, WriteText, ReadText, S.Quoted,
      Gap, Laid,
         Spelled, GoodChars;
    BreakWritten(level + 1, pretty);
    T.NoSpaces();
    PairText(pairs[0], entries[0], level, pretty);
    PairsSpelledInFront(pairs);
    PairsSpelled(pairs);
    LaidPairInFront(pairs, more, level, pretty);
    var a, b, p, c := LineEnd(pretty), Indent(level + 1, pretty), PrintPair(entries[0], level, pretty), Indent(level,
      pretty);
    var q := PrintEntries(entries[1..], level, pretty);
    assert WritePairs(pairs) == (a + b) + p + [] + (Ascii(",") + (a + q + c));
    assert PrintEntries(entries, level, pretty) == b + p + ([COMMA] + a) + q;
    CommaLine(a, b, p, q, c);
  }

  lemma {:induction false} PairsSpelledInFront(pairs: seq<Pair>)
    requires pairs != [] && GoodChars(pairs[0].key) && Spelled(pairs[0].node)
    requires forall i :: 0 <= i < |pairs[1..]| ==> GoodChars(pairs[1..][i].key) && Spelled(pairs[1..][i].node)
    ensures forall i :: 0 <= i < |pairs| ==> GoodChars(pairs[i].key) && Spelled(pairs[i].node)
  {
    hide Spelled, GoodChars;
    forall i | 0 < i < |pairs| ensures pairs[i] == pairs[1..][i - 1] {
    }
  }

  lemma {:induction false} PairsSpelled(pairs: seq<Pair>)
    requires forall i :: 0 <= i < |pairs| ==> GoodChars(pairs[i].key) && Spelled(pairs[i].node)
    ensures Spelled(Dict([], pairs))
  {
    hide GoodChars;
  }

  lemma {:induction false} LaidPairInFront(pairs: seq<Pair>, more: seq<Pair>, level: nat, pretty: bool)
    requires pairs != [] && pairs[1..] == more != [] && LaidPairs(more, level, pretty)
    requires pairs[0].before == Break(level + 1, pretty) && WellChosen(pairs[0].key)
    requires pairs[0].mid == [] && pairs[0].gap == Gap(pretty) && pairs[0].after == []
    requires Laid(pairs[0].node, level + 1, pretty)
    ensures LaidPairs(pairs, level, pretty)
  {
    hide Break, Laid, WellChosen, Gap;
    forall i | 0 < i < |pairs| ensures pairs[i] == more[i - 1] {
    }
  }

  // There is only one such text

  lemma {:induction false} AllChosenOnce(c: seq<Char>, d: seq<Char>, s: Bytes)
    requires AllChosen(c, s) && AllChosen(d, s)
    ensures WriteChars(c) == WriteChars(d)
  {
    hide Chosen, WriteChar, GoodChar;
    if s != [] {
      RestChosen(c, s);
      RestChosen(d, s);
      AllChosenOnce(c[1..], d[1..], s[1..]);
      ChosenOnce(c[0], d[0], s[0]);
    }
  }

  lemma TextOnce(c: seq<Char>, d: seq<Char>)
    requires GoodChars(c) && GoodChars(d) && WellChosen(c) && WellChosen(d) && ReadText(c) == ReadText(d)
    ensures WriteText(c) == WriteText(d)
  {
    hide AllChosen, ReadChars, WriteChars;
    var s: Bytes :| NoNul(s) && AllChosen(c, s);
    var u: Bytes :| NoNul(u) && AllChosen(d, u);
    ChosenRead(c, s);
    ChosenRead(d, u);
    CStringOfNoNul(s);
    CStringOfNoNul(u);
    AllChosenOnce(c, d, s);
  }

  lemma {:induction false} ReadAt(items: seq<Item>, i: nat)
    requires i < |items| && forall j :: 0 <= j < |items| ==> Spelled(items[j].node)
    ensures ReadItems(items)[i] == Read(items[i].node)
  {
    hide Read, Spelled;
    if i > 0 { ReadAt(items[1..], i - 1); }
  }

  lemma {:induction false} ReadPairAt(pairs: seq<Pair>, i: nat)
    requires i < |pairs| && forall j :: 0 <= j < |pairs| ==> GoodChars(pairs[j].key) && Spelled(pairs[j].node)
    ensures ReadPairs(pairs)[i] == Entry(ReadText(pairs[i].key), Read(pairs[i].node))
  {
    hide Read, Spelled, ReadText, GoodChars;
    if i > 0 { ReadPairAt(pairs[1..], i - 1); }
  }

  /** Two items written alike. */
  ghost predicate SameItem(a: Item, b: Item) {
    Spelled(a.node) && Spelled(b.node) && a.before == b.before && a.after == b.after && Write(a.node) == Write(b.node)
  }

  lemma {:induction false} SameItems(a: seq<Item>, b: seq<Item>)
    requires |a| == |b| && forall i :: 0 <= i < |a| ==> SameItem(a[i], b[i])
    ensures forall i :: 0 <= i < |a| ==> Spelled(a[i].node) && Spelled(b[i].node)
    ensures WriteItems(a) == WriteItems(b)
  {
    hide Write, Spelled;
    if a != [] {
      assert SameItem(a[0], b[0]);
      SameItems(a[1..], b[1..]);
    }
  }

  ghost predicate SamePair(a: Pair, b: Pair) {
    && GoodChars(a.key) && GoodChars(b.key) && Spelled(a.node) && Spelled(b.node)
    && a.before == b.before && a.mid == b.mid && a.gap == b.gap && a.after == b.after
    && WriteText(a.key) == WriteText(b.key) && Write(a.node) == Write(b.node)
  }

  lemma {:induction false} SamePairs(a: seq<Pair>, b: seq<Pair>)
    requires |a| == |b| && forall i :: 0 <= i < |a| ==> SamePair(a[i], b[i])
    ensures forall i :: 0 <= i < |a| ==>
      GoodChars(a[i].key) && GoodChars(b[i].key) && Spelled(a[i].node) && Spelled(b[i].node)
    ensures WritePairs(a) == WritePairs(b)
  {
    hide Write, Spelled, GoodChars, WriteText;
    if a != [] {
      assert SamePair(a[0], b[0]);
      SamePairs(a[1..], b[1..]);
    }
  }

  /** Trees laid out in this way that stand for the same value are written the same. */
  lemma {:induction false} LaidOnce(a: Node, b: Node, level: nat, pretty: bool)
    requires Spelled(a) && Spelled(b) && Laid(a, level, pretty) && Laid(b, level, pretty) && Read(a) == Read(b)
    ensures Write(a) == Write(b)
    decreases a, 1
  {
    hide WriteItems, WritePairs, ReadItems, ReadPairs, WriteText, ReadText, WellChosen, Break, Gap;
    match a
    case Text(chars) => TextOnce(chars, b.chars);
    case List(_, items) => ItemsOnce(a, b, level, pretty);
    case Dict(_, pairs) => PairsOnce(a, b, level, pretty);
    case _ =>
  }

  lemma {:induction false} ItemsOnce(a: Node, b: Node, level: nat, pretty: bool)
    requires a.List? && b.List? && Spelled(a) && Spelled(b) && Laid(a, level, pretty) && Laid(b, level, pretty)
    requires Read(a) == Read(b)
    ensures Write(a) == Write(b)
    decreases a, 0
  {
    hide WriteItems, ReadItems, Break, Gap;
    var x, y := a.items, b.items;
    assert |ReadItems(x)| == |ReadItems(y)|;
    forall i | 0 <= i < |x| ensures SameItem(x[i], y[i]) {
      ReadAt(x, i);
      ReadAt(y, i);
      LaidOnce(x[i].node, y[i].node, level + 1, pretty);
    }
    SameItems(x, y);
  }

  lemma {:induction false} PairsOnce(a: Node, b: Node, level: nat, pretty: bool)
    requires a.Dict? && b.Dict? && Spelled(a) && Spelled(b) && Laid(a, level, pretty) && Laid(b, level, pretty)
    requires Read(a) == Read(b)
    ensures Write(a) == Write(b)
    decreases a, 0
  {
    hide WritePairs, ReadPairs, Break, Gap, WellChosen, WriteText, ReadText, GoodChars;
    var x, y := a.pairs, b.pairs;
    assert |ReadPairs(x)| == |ReadPairs(y)|;
    forall i | 0 <= i < |x| ensures SamePair(x[i], y[i]) {
      ReadPairAt(x, i);
      ReadPairAt(y, i);
      TextOnce(x[i].key, y[i].key);
      LaidOnce(x[i].node, y[i].node, level + 1, pretty);
    }
    SamePairs(x, y);
  }

  /** So a value prints as the one text of any tree for it that is laid out so. */
  lemma PrintIsLaid(v: Value, node: Node, level: nat, pretty: bool)
    requires WellFormed(v) && AllInt32(v) && Spelled(node) && Laid(node, level, pretty) && Read(node) == Trim(v)
    ensures Print(v, level, pretty) == Write(node)
  {
    hide Print, Write, Read, Laid, Spelled, Trim, WellFormed, AllInt32;
    var own := Printed(v, level, pretty);
    LaidOnce(own, node, level, pretty);
  }

  // No slash and no control byte stands alone

  predicate EmbedsAt(t: Bytes, i: nat, pretty: bool)
    requires i < |t|
  {
    && (t[i] == Code('/') ==> i > 0 && t[i - 1] == Code('\\'))
    && (t[i] >= 32 || (pretty && t[i] == Code('\n')))
  }

  /** Every slash has a backslash before it, and the only control byte is the end of a line in a pretty print. */
  predicate Embeddable(t: Bytes, pretty: bool) { forall i :: 0 <= i < |t| ==> EmbedsAt(t, i, pretty) }

  lemma EmbedBoth(a: Bytes, b: Bytes, pretty: bool)
    requires Embeddable(a, pretty) && Embeddable(b, pretty)
    ensures Embeddable(a + b, pretty)
  {
    forall i | 0 <= i < |a + b| ensures EmbedsAt(a + b, i, pretty) {
      if i < |a| {
        assert EmbedsAt(a, i, pretty);
      } else {
        assert EmbedsAt(b, i - |a|, pretty);
      }
    }
  }

  lemma PlainEmbeds(t: Bytes, pretty: bool)
    requires forall i :: 0 <= i < |t| ==> t[i] != 0x2F && (t[i] >= 32 || (pretty && t[i] == NEWLINE))
    ensures Embeddable(t, pretty)
  {
  }

  lemma {:induction false} EscapeEmbeds(s: Bytes, pretty: bool)
    ensures Embeddable(S.Escape(s), pretty)
  {
    if s != [] {
      EscapeEmbeds(s[1..], pretty);
      EmbedBoth(S.EscapeByte(s[0]), S.Escape(s[1..]), pretty);
    }
  }

  lemma QuotedEmbeds(s: Bytes, pretty: bool)
    ensures Embeddable(S.Quoted(s), pretty)
  {
    hide S.Escape, Embeddable;
    EscapeEmbeds(s, pretty);
    PlainEmbeds([QUOTE], pretty);
    EmbedBoth([QUOTE], S.Escape(s), pretty);
    EmbedBoth([QUOTE] + S.Escape(s), [QUOTE], pretty);
  }

  lemma {:induction false} BlanksEmbed(level: nat, pretty: bool)
    ensures Embeddable(Indent(level, pretty), pretty) && Embeddable(LineEnd(pretty), pretty)
  {
    hide Embeddable;
    PlainEmbeds(LineEnd(pretty), pretty);
    PlainEmbeds([], pretty);
    if level > 0 {
      BlanksEmbed(level - 1, pretty);
      PlainEmbeds([SPACE, SPACE, SPACE, SPACE], pretty);
      EmbedBoth([SPACE, SPACE, SPACE, SPACE], Indent(level - 1, pretty), pretty);
    }
  }

  lemma NumberEmbeds(n: int, pretty: bool)
    ensures Embeddable(PrintNumber(n), pretty)
  {
    hide Decimal.Digits, Numerals;
    PlainEmbeds(PrintNumber(n), pretty);
  }

  lemma WrappedEmbeds(inner: Bytes, open: byte, close: byte, level: nat, pretty: bool)
    requires Embeddable(inner, pretty) && open > 47 && close > 47
    ensures Embeddable([open] + LineEnd(pretty) + inner + Indent(level, pretty) + [close], pretty)
  {
    hide Indent, LineEnd, Embeddable;
    BlanksEmbed(level, pretty);
    PlainEmbeds([open], pretty);
    PlainEmbeds([close], pretty);
    EmbedBoth([open], LineEnd(pretty), pretty);
    EmbedBoth([open] + LineEnd(pretty), inner, pretty);
    EmbedBoth([open] + LineEnd(pretty) + inner, Indent(level, pretty), pretty);
    EmbedBoth([open] + LineEnd(pretty) + inner + Indent(level, pretty), [close], pretty);
  }

  lemma PaddedEmbeds(t: Bytes, last: bool, level: nat, pretty: bool)
    requires Embeddable(t, pretty)
    ensures Embeddable(Indent(level + 1, pretty) + t + Separator(last, pretty), pretty)
  {
    hide Indent, Embeddable;
    BlanksEmbed(level + 1, pretty);
    PlainEmbeds(Separator(last, pretty), pretty);
    EmbedBoth(Indent(level + 1, pretty), t, pretty);
    EmbedBoth(Indent(level + 1, pretty) + t, Separator(last, pretty), pretty);
  }

  /** So a printed text can stand inside a script or a tag: `</` does not occur in it. */
  lemma {:induction false} PrintEmbeds(v: Value, level: nat, pretty: bool)
    ensures Embeddable(Print(v, level, pretty), pretty)
    decreases v, 0
  {
    hide PrintItems, PrintEntries, PrintNumber, S.Quoted, Indent, LineEnd, Embeddable;
    WordsEmbed(pretty);
    match v
    case JStr(s) => QuotedEmbeds(s, pretty);
    case JNum(n) => NumberEmbeds(n, pretty);
    case JArr(items, _) =>
      ItemsEmbed(items, level, pretty);
      WrappedEmbeds(PrintItems(items, level, pretty), OPEN_BRACKET, CLOSE_BRACKET, level, pretty);
    case JObj(entries, _) =>
      EntriesEmbed(entries, level, pretty);
      WrappedEmbeds(PrintEntries(entries, level, pretty), OPEN_BRACE, CLOSE_BRACE, level, pretty);
    case _ =>
  }

  lemma WordsEmbed(pretty: bool)
    ensures Embeddable(Parser.NULL, pretty) && Embeddable(Parser.TRUE, pretty) && Embeddable(Parser.FALSE, pretty)
    ensures Embeddable([OPEN_BRACKET, CLOSE_BRACKET], pretty) && Embeddable([OPEN_BRACE, CLOSE_BRACE], pretty)
  {
  }

  lemma {:induction false} ItemsEmbed(items: seq<Value>, level: nat, pretty: bool)
    ensures Embeddable(PrintItems(items, level, pretty), pretty)
    decreases items
  {
    hide Print, Embeddable;
    if items == [] {
      PlainEmbeds([], pretty);
    } else {
      PrintEmbeds(items[0], level + 1, pretty);
      PaddedEmbeds(Print(items[0], level + 1, pretty), |items| == 1, level, pretty);
      ItemsEmbed(items[1..], level, pretty);
      EmbedBoth(PrintItem(items[0], |items| == 1, level, pretty), PrintItems(items[1..], level, pretty), pretty);
    }
  }

  lemma {:induction false} EntriesEmbed(entries: seq<Entry>, level: nat, pretty: bool)
    ensures Embeddable(PrintEntries(entries, level, pretty), pretty)
    decreases entries
  {
    hide Print, Embeddable, PrintPair;
    if entries == [] {
      PlainEmbeds([], pretty);
    } else {
      PairEmbeds(entries[0], level, pretty);
      PaddedEmbeds(PrintPair(entries[0], level, pretty), |entries| == 1, level, pretty);
      EntriesEmbed(entries[1..], level, pretty);
      EmbedBoth(PrintEntry(entries[0], |entries| == 1, level, pretty), PrintEntries(entries[1..], level, pretty), pretty);
    }
  }

  lemma {:induction false} PairEmbeds(e: Entry, level: nat, pretty: bool)
    ensures Embeddable(PrintPair(e, level, pretty), pretty)
    decreases e, 1
  {
    hide Print, S.Quoted, Embeddable;
    PlainEmbeds(Colon(pretty), pretty);
    QuotedEmbeds(e.name, pretty);
    EmbedBoth(S.Quoted(e.name), Colon(pretty), pretty);
    PrintEmbeds(e.value, level + 1, pretty);
    EmbedBoth(S.Quoted(e.name) + Colon(pretty), Print(e.value, level + 1, pretty), pretty);
  }
}

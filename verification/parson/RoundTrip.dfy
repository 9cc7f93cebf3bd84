/** What is printed reads back: parsing after printing gives the value again. */
module RoundTrip {
  import opened Bytes
  import Decimal
  import opened Parser
  import opened Printer
  import opened Strings
  import opened Values

  // Numbers

  /** Nothing here goes on a numeral. */
  predicate NumberEnds(rest: Bytes) {
    !IsDigit(At(rest, 0)) && At(rest, 0) != DOT && !HexFollows(rest) && !ExponentFollows(rest)
  }

  lemma {:induction false} RunOfDigits(s: Bytes, rest: Bytes)
    requires AllDigits(s) && !IsDigit(At(rest, 0))
    ensures DigitRun(s + rest) == |s|
  {
    if s == [] {
      assert s + rest == rest;
    } else {
      assert (s + rest)[1..] == s[1..] + rest;
      RunOfDigits(s[1..], rest);
    }
  }

  lemma {:induction false} NumeralsBack(digits: seq<nat>)
    requires forall i :: 0 <= i < |digits| ==> digits[i] < 10
    ensures DigitValues(Numerals(digits)) == digits
  {
    if digits != [] {
      assert Numerals(digits)[1..] == Numerals(digits[1..]);
      NumeralsBack(digits[1..]);
    }
  }

  /** The digits of a number, wherever they stand, read as that number. */
  lemma DigitsBack(n: nat, sign: nat, s: Bytes, rest: Bytes)
    requires sign <= |s| && s[sign..] == Numerals(Decimal.Digits(n)) + rest && NumberEnds(rest)
    ensures var k := DigitRun(s[sign..]);
      && k > 0 && s[sign..sign + k] == Numerals(Decimal.Digits(n)) && s[sign + k..] == rest
      && Decimal.Value(DigitValues(s[sign..sign + k])) == n
  {
    hide Numerals, Decimal.Digits, HexFollows, ExponentFollows, DigitRun, DigitValues;
    var d := Numerals(Decimal.Digits(n));
    RunOfDigits(d, rest);
    NumeralsBack(Decimal.Digits(n));
    Decimal.ValueDigits(n);
    assert s[sign..][..|d|] == d && s[sign..][|d|..] == rest;
    assert s[sign..][|d|..] == s[sign + |d|..] && s[sign..][..|d|] == s[sign..sign + |d|];
  }

  lemma PrintedIsDecimal(n: int)
    ensures IsDecimal(PrintNumber(n))
  {
    hide Decimal.Digits, Numerals;
    var m := if n < 0 then -n else n;
    var d := Numerals(Decimal.Digits(m));
    FirstNumeral(m);
    assert n < 0 ==> PrintNumber(n)[1] == d[0];
  }

  lemma FirstNumeral(n: nat)
    ensures Numerals(Decimal.Digits(n))[0] == ZERO <==> n == 0
    ensures Numerals(Decimal.Digits(n))[0] == ZERO ==> |Numerals(Decimal.Digits(n))| == 1
  {
    Decimal.NoLeadingZero(n);
  }

  lemma NumberBack(n: int, rest: Bytes)
    requires -EXACT <= n <= EXACT && NumberEnds(rest)
    ensures ParseNumber(PrintNumber(n) + rest) == Got(JNum(n), rest)
  {
    hide NumberEnds, NumeralLength, NumberOf, IsDecimal, PrintNumber;
    NumeralRead(n, rest);
    NumberOfPrinted(n);
    PrintedIsDecimal(n);
    assert (PrintNumber(n) + rest)[..|PrintNumber(n)|] == PrintNumber(n);
    assert (PrintNumber(n) + rest)[|PrintNumber(n)|..] == rest;
  }

  /** `strtod` reads exactly the numeral. */
  lemma NumeralRead(n: int, rest: Bytes)
    requires NumberEnds(rest)
    ensures NumeralLength(PrintNumber(n) + rest) == |PrintNumber(n)|
  {
    hide Numerals, Decimal.Digits, DigitRun, DigitValues, SignLength, HexFollows, ExponentFollows, PrintNumber;
    var s, m := PrintNumber(n) + rest, if n < 0 then -n else n;
    var sign := SignLength(s);
    SignOf(n, rest);
    DigitsBack(m, sign, s, rest);
    var t, k := s[sign..], DigitRun(s[sign..]);
    FirstNumeral(m);
    assert t[k..] == rest && At(t, k) == At(rest, 0);
    assert t[0] == Numerals(Decimal.Digits(m))[0];
    assert k == 1 ==> t[1..] == rest;
  }

  lemma NumberOfPrinted(n: int)
    requires -EXACT <= n <= EXACT
    ensures NumberOf(PrintNumber(n)) == n
  {
    hide Numerals, Decimal.Digits, DigitValues, Decimal.Value, PrintNumber, SignLength;
    var m: nat := if n < 0 then -n else n;
    SignOf(n, []);
    assert PrintNumber(n) + [] == PrintNumber(n) && Numerals(Decimal.Digits(m)) + [] == Numerals(Decimal.Digits(m));
    NumeralsBack(Decimal.Digits(m));
    Decimal.ValueDigits(m);
  }

  lemma SignOf(n: int, rest: Bytes)
    ensures var m: nat := if n < 0 then -n else n; var sign := if n < 0 then 1 else 0; var s := PrintNumber(n) + rest;
      && SignLength(s) == sign
      && s[sign..] == Numerals(Decimal.Digits(m)) + rest
      && |PrintNumber(n)| == sign + |Numerals(Decimal.Digits(m))|
  {
    hide Numerals, Decimal.Digits;
  }

  // Values

  /** After some spaces, the bracket that closes, and then `rest`. */
  ghost predicate Closes(tail: Bytes, close: byte, rest: Bytes) {
    SkipSpaces(tail) == [close] + rest && NumberEnds(tail)
  }

  lemma SpacesThenClose(spaces: Bytes, close: byte, rest: Bytes)
    requires AllSpaces(spaces) && (close == CLOSE_BRACKET || close == CLOSE_BRACE)
    ensures Closes(spaces + ([close] + rest), close, rest)
  {
    SkipsAll(spaces, [close] + rest);
    if spaces == [] { assert spaces + ([close] + rest) == [close] + rest; }
  }

  /** No value begins with a space. */
  lemma PrintBegins(v: Value, level: nat, pretty: bool)
    ensures var p := Print(v, level, pretty);
      p != [] && !IsSpace(p[0]) && p[0] != CLOSE_BRACKET && p[0] != CLOSE_BRACE
  {
    hide PrintItems, PrintEntries, Escape;
  }

  lemma SkipsTo(spaces: Bytes, s: Bytes)
    requires AllSpaces(spaces) && s != [] && !IsSpace(s[0])
    ensures SkipSpaces(spaces + s) == s
  {
    SkipsAll(spaces, s);
  }

  lemma SpacesBeforeValue(spaces: Bytes, s: Bytes, nesting: nat)
    requires AllSpaces(spaces)
    ensures ParseValue(spaces + s, nesting) == ParseValue(s, nesting)
  {
    hide ParseObject, ParseArray, ParseNumber, ParseString, ParseBoolean, ParseWord;
    SkipsAll(spaces, s);
  }

  /** The value again, or failure when it is too deep. */
  function Expected(v: Value, nesting: nat, rest: Bytes): Parsed {
    if nesting + Height(v) <= MAX_NESTING then Got(Trim(v), rest) else Fail
  }

  lemma {:induction false} PrintedBack(v: Value, level: nat, pretty: bool, rest: Bytes, nesting: nat)
    requires WellFormed(v) && AllInt32(v) && NumberEnds(rest)
    ensures ParseValue(Print(v, level, pretty) + rest, nesting) == Expected(v, nesting, rest)
    decreases v, 1
  {
    hide ParseArray, ParseObject, ParseNumber, NumberEnds, PrintItems, PrintEntries, QuotedString, Escape,
         PrintNumber, WellFormed, AllInt32, Closes, RawLength;
    PrintBegins(v, level, pretty);
    var s := Print(v, level, pretty) + rest;
    if nesting <= MAX_NESTING {
      match v
      case JNull => assert s[4..] == rest;
      case JBool(b) => WordsBack(rest);
      case JNum(n) => NumberFits(v); NumberBack(n, rest);
      case JStr(text) => StringFits(v); QuotedBack(text, rest);
      case JArr(_, _) => ArrayBack(v, level, pretty, rest, nesting + 1);
      case JObj(_, _) => ObjectBack(v, level, pretty, rest, nesting + 1);
    }
  }

  lemma WordsBack(rest: Bytes)
    ensures ParseBoolean(TRUE + rest) == Got(JBool(true), rest)
    ensures ParseBoolean(FALSE + rest) == Got(JBool(false), rest)
  {
    assert (TRUE + rest)[4..] == rest && (FALSE + rest)[5..] == rest;
    assert (FALSE + rest)[0] != TRUE[0];
  }

  lemma NumberFits(v: Value)
    requires v.JNum? && AllInt32(v)
    ensures -EXACT <= v.n <= EXACT
  {
  }

  lemma StringFits(v: Value)
    requires v.JStr? && WellFormed(v)
    ensures NoNul(v.s)
  {
  }

  // Arrays

  ghost predicate ItemsFit(items: seq<Value>) {
    forall i :: 0 <= i < |items| ==> WellFormed(items[i]) && AllInt32(items[i])
  }

  lemma {:induction false} ArrayBack(v: Value, level: nat, pretty: bool, rest: Bytes, nesting: nat)
    requires WellFormed(v) && AllInt32(v) && v.JArr? && 0 < nesting <= MAX_NESTING + 1
    ensures var s := Print(v, level, pretty) + rest;
      s[0] == OPEN_BRACKET && ParseArray(s, nesting) == Expected(v, nesting - 1, rest)
    decreases v, 0
  {
    hide ParseItems, PrintItems, NumberEnds, Closes, WellFormed, AllInt32;
    var s := Print(v, level, pretty) + rest;
    if v.items == [] {
      assert s[1..] == [CLOSE_BRACKET] + rest && s[2..] == rest;
    } else {
      var tail := Indent(level, pretty) + ([CLOSE_BRACKET] + rest);
      var text := PrintItems(v.items, level, pretty) + tail;
      TailCloses(level, pretty, CLOSE_BRACKET, rest);
      assert s[1..] == LineEnd(pretty) + text;
      SkipsAll(LineEnd(pretty), text);
      ItemsOf(v);
      ItemsBack(v.items, level, pretty, tail, rest, nesting, [], 0);
      assert [] + TrimItems(v.items) == TrimItems(v.items);
    }
  }

  lemma TailCloses(level: nat, pretty: bool, close: byte, rest: Bytes)
    requires close == CLOSE_BRACKET || close == CLOSE_BRACE
    ensures Closes(LineEnd(pretty) + (Indent(level, pretty) + ([close] + rest)), close, rest)
  {
    hide Closes, LineEnd, Indent;
    var spaces := LineEnd(pretty) + Indent(level, pretty);
    SpacesThenClose(spaces, close, rest);
    assert spaces + ([close] + rest) == LineEnd(pretty) + (Indent(level, pretty) + ([close] + rest));
  }

  lemma ItemsOf(v: Value)
    requires v.JArr? && WellFormed(v) && AllInt32(v)
    ensures ItemsFit(v.items) && |v.items| <= ARRAY_MAX_CAPACITY
  {
  }

  /** What is printed after an item: a comma and the items to come, or the end. */
  lemma AfterItem(tail: Bytes, more: Bytes, pretty: bool, last: bool, close: byte, rest: Bytes)
    requires Closes(LineEnd(pretty) + tail, close, rest) && (last ==> more == [])
    requires close == CLOSE_BRACKET || close == CLOSE_BRACE
    ensures var r := Separator(last, pretty) + (more + tail);
      && NumberEnds(r)
      && (last ==> SkipSpaces(r) == [close] + rest)
      && (!last ==> SkipSpaces(r) == r && r[0] == COMMA && SkipSpaces(r[1..]) == SkipSpaces(more + tail))
  {
    var r := Separator(last, pretty) + (more + tail);
    if last {
      assert r == LineEnd(pretty) + tail;
    } else {
      assert r[1..] == LineEnd(pretty) + (more + tail);
      SkipsAll(LineEnd(pretty), more + tail);
    }
  }

  function ExpectedItems(done: seq<Value>, items: seq<Value>, nesting: nat, rest: Bytes): Parsed {
    if nesting + HeightOfItems(items) <= MAX_NESTING
    then Got(JArr(done + TrimItems(items), |done| + |items|), rest)
    else Fail
  }

  lemma ExpectedFirst(done: seq<Value>, items: seq<Value>, nesting: nat, rest: Bytes)
    requires items != []
    ensures ExpectedItems(done, items, nesting, rest) ==
      if nesting + Height(items[0]) > MAX_NESTING then Fail
      else ExpectedItems(done + [Trim(items[0])], items[1..], nesting, rest)
  {
    hide Height, Trim;
    assert done + [Trim(items[0])] + TrimItems(items[1..]) == done + TrimItems(items);
  }

  lemma ExpectedNone(done: seq<Value>, nesting: nat, rest: Bytes)
    requires nesting <= MAX_NESTING
    ensures ExpectedItems(done, [], nesting, rest) == Got(JArr(done, |done|), rest)
  {
    assert done + [] == done;
  }

  /** An item read, and then a comma and the items to come, or the end. */
  lemma ParseItemsOn(t: Bytes, nesting: nat, done: seq<Value>, cap: nat, v: Value, r: Bytes)
    requires t != [] && ParseValue(t, nesting) == Got(v, r) && AddItem(done, cap, v).Some?
    ensures var (now, room) := AddItem(done, cap, v).value; var u := SkipSpaces(r);
      && (u != [] && u[0] == COMMA ==>
        ParseItems(t, nesting, done, cap) == ParseItems(SkipSpaces(u[1..]), nesting, now, room))
      && (u != [] && u[0] == CLOSE_BRACKET ==>
        ParseItems(t, nesting, done, cap) == Got(JArr(now, |now|), u[1..]))
  {
    hide ParseValue, SkipSpaces, AddItem;
  }

  lemma Regroup(a: Bytes, b: Bytes, c: Bytes, d: Bytes, e: Bytes)
    ensures a + b + c + d + e == a + (b + (c + (d + e)))
  {
  }

  lemma ItemsText(items: seq<Value>, level: nat, pretty: bool, tail: Bytes)
    requires items != []
    ensures var p, r := Print(items[0], level + 1, pretty), AfterFirst(items, level, pretty, tail);
      && SkipSpaces(PrintItems(items, level, pretty) + tail) == p + r
      && p != [] && p[0] != CLOSE_BRACKET
  {
    hide Print, Indent, Separator, SkipSpaces, AllSpaces;
    var p, r := Print(items[0], level + 1, pretty), AfterFirst(items, level, pretty, tail);
    Regroup(Indent(level + 1, pretty), p, Separator(|items| == 1, pretty), PrintItems(items[1..], level, pretty), tail);
    PrintBegins(items[0], level + 1, pretty);
    SkipsTo(Indent(level + 1, pretty), p + r);
  }

  function AfterFirst(items: seq<Value>, level: nat, pretty: bool, tail: Bytes): Bytes
    requires items != []
  {
    Separator(|items| == 1, pretty) + (PrintItems(items[1..], level, pretty) + tail)
  }

  lemma {:induction false} ItemsBack(items: seq<Value>, level: nat, pretty: bool, tail: Bytes, rest: Bytes,
                                    nesting: nat, done: seq<Value>, cap: nat)
    requires items != [] && ItemsFit(items)
    requires Doubled(cap) && |done| <= cap && |done| + |items| <= ARRAY_MAX_CAPACITY && cap <= ARRAY_MAX_CAPACITY
    requires Closes(LineEnd(pretty) + tail, CLOSE_BRACKET, rest)
    ensures var t := SkipSpaces(PrintItems(items, level, pretty) + tail);
      t != [] && t[0] != CLOSE_BRACKET && ParseItems(t, nesting, done, cap) == ExpectedItems(done, items, nesting, rest)
    decreases items
  {
    hide ParseValue, Closes, Print, PrintItems, NumberEnds, LineEnd, Indent, Doubled, Height, Trim, SkipSpaces,
         WellFormed, AllInt32, Separator, ExpectedItems;
    var p, more, last := Print(items[0], level + 1, pretty), PrintItems(items[1..], level, pretty), |items| == 1;
    var r := AfterFirst(items, level, pretty, tail);
    NothingMore(items, level, pretty);
    ItemsText(items, level, pretty, tail);
    AfterItem(tail, more, pretty, last, CLOSE_BRACKET, rest);
    PrintedBack(items[0], level + 1, pretty, r, nesting);
    ExpectedFirst(done, items, nesting, rest);
    if nesting + Height(items[0]) <= MAX_NESTING {
      GrowsToTheLimit(|done|, cap, ARRAY_MAX_CAPACITY);
      var (now, room) := AddItem(done, cap, Trim(items[0])).value;
      ParseItemsOn(p + r, nesting, done, cap, Trim(items[0]), r);
      if last {
        ExpectedNone(now, nesting, rest);
      } else {
        ItemsBack(items[1..], level, pretty, tail, rest, nesting, now, room);
      }
    }
  }

  lemma NothingMore(items: seq<Value>, level: nat, pretty: bool)
    requires items != []
    ensures |items| == 1 ==> items[1..] == [] && PrintItems(items[1..], level, pretty) == []
  {
  }

  // Objects

  ghost predicate EntriesFit(entries: seq<Entry>) {
    && Unique(entries)
    && forall i :: 0 <= i < |entries| ==>
      NoNul(entries[i].name) && WellFormed(entries[i].value) && AllInt32(entries[i].value)
  }

  lemma {:induction false} ObjectBack(v: Value, level: nat, pretty: bool, rest: Bytes, nesting: nat)
    requires WellFormed(v) && AllInt32(v) && v.JObj? && 0 < nesting <= MAX_NESTING + 1
    ensures var s := Print(v, level, pretty) + rest;
      s[0] == OPEN_BRACE && ParseObject(s, nesting) == Expected(v, nesting - 1, rest)
    decreases v, 0
  {
    hide ParseEntries, PrintEntries, NumberEnds, Closes, WellFormed, AllInt32;
    var s := Print(v, level, pretty) + rest;
    if v.entries == [] {
      assert s[1..] == [CLOSE_BRACE] + rest && s[2..] == rest;
    } else {
      var tail := Indent(level, pretty) + ([CLOSE_BRACE] + rest);
      var text := PrintEntries(v.entries, level, pretty) + tail;
      TailCloses(level, pretty, CLOSE_BRACE, rest);
      assert s[1..] == LineEnd(pretty) + text;
      SkipsAll(LineEnd(pretty), text);
      EntriesOf(v);
      EntriesBack(v.entries, level, pretty, tail, rest, nesting, [], 0);
      assert [] + TrimEntries(v.entries) == TrimEntries(v.entries);
    }
  }

  lemma EntriesOf(v: Value)
    requires v.JObj? && WellFormed(v) && AllInt32(v)
    ensures EntriesFit(v.entries) && |v.entries| <= OBJECT_MAX_CAPACITY
  {
  }

  function ExpectedEntries(done: seq<Entry>, entries: seq<Entry>, nesting: nat, rest: Bytes): Parsed {
    if nesting + HeightOfEntries(entries) <= MAX_NESTING
    then Got(JObj(done + TrimEntries(entries), |done| + |entries|), rest)
    else Fail
  }

  lemma ExpectedFirstEntry(done: seq<Entry>, entries: seq<Entry>, nesting: nat, rest: Bytes)
    requires entries != []
    ensures ExpectedEntries(done, entries, nesting, rest) ==
      if nesting + Height(entries[0].value) > MAX_NESTING then Fail
      else ExpectedEntries(done + [Entry(entries[0].name, Trim(entries[0].value))], entries[1..], nesting, rest)
  {
    hide Height, Trim;
    var first := Entry(entries[0].name, Trim(entries[0].value));
    assert done + [first] + TrimEntries(entries[1..]) == done + TrimEntries(entries);
  }

  lemma ExpectedNoEntries(done: seq<Entry>, nesting: nat, rest: Bytes)
    requires nesting <= MAX_NESTING
    ensures ExpectedEntries(done, [], nesting, rest) == Got(JObj(done, |done|), rest)
  {
    assert done + [] == done;
  }

  /** A key and its value read, and then a comma and the entries to come, or the end. */
  lemma ParseEntriesOn(t: Bytes, nesting: nat, done: seq<Entry>, cap: nat, name: Bytes, u: Bytes, v: Value, r: Bytes)
    requires QuotedString(t) == Some((name, [COLON] + u)) && ParseValue(u, nesting) == Got(v, r)
    requires AddEntry(done, cap, name, v).Some?
    ensures var (now, room) := AddEntry(done, cap, name, v).value; var w := SkipSpaces(r);
      && (w != [] && w[0] == COMMA ==>
        ParseEntries(t, nesting, done, cap) == ParseEntries(SkipSpaces(w[1..]), nesting, now, room))
      && (w != [] && w[0] == CLOSE_BRACE ==>
        ParseEntries(t, nesting, done, cap) == Got(JObj(now, |now|), w[1..]))
  {
    hide ParseValue, AddEntry, QuotedString;
    assert ([COLON] + u)[1..] == u && SkipSpaces([COLON] + u) == [COLON] + u;
  }

  lemma ParseEntriesFails(t: Bytes, nesting: nat, done: seq<Entry>, cap: nat, name: Bytes, u: Bytes)
    requires QuotedString(t) == Some((name, [COLON] + u)) && ParseValue(u, nesting) == Fail
    ensures ParseEntries(t, nesting, done, cap) == Fail
  {
    hide ParseValue, AddEntry, QuotedString;
    assert ([COLON] + u)[1..] == u && SkipSpaces([COLON] + u) == [COLON] + u;
  }

  function AfterFirstEntry(entries: seq<Entry>, level: nat, pretty: bool, tail: Bytes): Bytes
    requires entries != []
  {
    Separator(|entries| == 1, pretty) + (PrintEntries(entries[1..], level, pretty) + tail)
  }

  /** The space after the colon. */
  function Gap(pretty: bool): (s: Bytes)
    ensures AllSpaces(s) && Colon(pretty) == [COLON] + s
  {
    if pretty then [SPACE] else []
  }

  /** The text of the first entry, from its key on. */
  function FromKey(entries: seq<Entry>, level: nat, pretty: bool, tail: Bytes): Bytes
    requires entries != []
  {
    Quoted(entries[0].name) +
    ([COLON] + (Gap(pretty) + (Print(entries[0].value, level + 1, pretty) + AfterFirstEntry(entries, level, pretty, tail))))
  }

  lemma EntriesText(entries: seq<Entry>, level: nat, pretty: bool, tail: Bytes)
    requires entries != []
    ensures var t := FromKey(entries, level, pretty, tail);
      && SkipSpaces(PrintEntries(entries, level, pretty) + tail) == t
      && t != [] && t[0] == QUOTE
  {
    hide Print, Indent, Separator, SkipSpaces, AllSpaces, Gap, Escape;
    var e := entries[0];
    Regroup(Indent(level + 1, pretty), PrintPair(e, level, pretty), Separator(|entries| == 1, pretty),
            PrintEntries(entries[1..], level, pretty), tail);
    RegroupEntry(Quoted(e.name), Gap(pretty), Print(e.value, level + 1, pretty),
                 AfterFirstEntry(entries, level, pretty, tail));
    SkipsTo(Indent(level + 1, pretty), FromKey(entries, level, pretty, tail));
  }

  lemma RegroupEntry(a: Bytes, b: Bytes, c: Bytes, d: Bytes)
    ensures a + ([COLON] + b) + c + d == a + ([COLON] + (b + (c + d)))
  {
  }

  ghost predicate Apart(done: seq<Entry>, entries: seq<Entry>) {
    forall i, j :: 0 <= i < |done| && 0 <= j < |entries| ==> done[i].name != entries[j].name
  }

  lemma NextApart(done: seq<Entry>, entries: seq<Entry>, v: Value)
    requires entries != [] && EntriesFit(entries) && Apart(done, entries)
    ensures EntriesFit(entries[1..]) && Apart(done + [Entry(entries[0].name, v)], entries[1..])
    ensures Find(done, entries[0].name) == |done|
  {
  }

  lemma {:induction false} EntriesBack(entries: seq<Entry>, level: nat, pretty: bool, tail: Bytes, rest: Bytes,
                                      nesting: nat, done: seq<Entry>, cap: nat)
    requires entries != [] && EntriesFit(entries) && Apart(done, entries)
    requires Doubled(cap) && |done| <= cap && |done| + |entries| <= OBJECT_MAX_CAPACITY && cap <= OBJECT_MAX_CAPACITY
    requires Closes(LineEnd(pretty) + tail, CLOSE_BRACE, rest)
    ensures var t := SkipSpaces(PrintEntries(entries, level, pretty) + tail);
      && t != [] && t[0] == QUOTE
      && ParseEntries(t, nesting, done, cap) == ExpectedEntries(done, entries, nesting, rest)
    decreases entries
  {
    hide ParseValue, ParseEntries, Closes, Print, PrintEntries, NumberEnds, LineEnd, Indent, Doubled, Height, Trim,
      SkipSpaces,
         WellFormed, AllInt32, Separator, ExpectedEntries, Quoted, QuotedString, Apart, Unique, Gap;
    var e, more, last := entries[0], PrintEntries(entries[1..], level, pretty), |entries| == 1;
    var r := AfterFirstEntry(entries, level, pretty, tail);
    var p := Print(e.value, level + 1, pretty);
    NoMoreEntries(entries, level, pretty);
    EntriesText(entries, level, pretty, tail);
    AfterItem(tail, more, pretty, last, CLOSE_BRACE, rest);
    QuotedBack(e.name, [COLON] + (Gap(pretty) + (p + r)));
    SpacesBeforeValue(Gap(pretty), p + r, nesting);
    PrintedBack(e.value, level + 1, pretty, r, nesting);
    ExpectedFirstEntry(done, entries, nesting, rest);
    var t := FromKey(entries, level, pretty, tail);
    NextApart(done, entries, Trim(e.value));
    if nesting + Height(e.value) <= MAX_NESTING {
      GrowsToTheLimit(|done|, cap, OBJECT_MAX_CAPACITY);
      var (now, room) := AddEntry(done, cap, e.name, Trim(e.value)).value;
      ParseEntriesOn(t, nesting, done, cap, e.name, Gap(pretty) + (p + r), Trim(e.value), r);
      if last {
        ExpectedNoEntries(now, nesting, rest);
      } else {
        EntriesBack(entries[1..], level, pretty, tail, rest, nesting, now, room);
      }
    } else {
      ParseEntriesFails(t, nesting, done, cap, e.name, Gap(pretty) + (p + r));
    }
  }

  lemma NoMoreEntries(entries: seq<Entry>, level: nat, pretty: bool)
    requires entries != []
    ensures |entries| == 1 ==> entries[1..] == [] && PrintEntries(entries[1..], level, pretty) == []
  {
  }

  // Whole texts

  /** Parsing a printed value gives it back, with no spare capacity, exactly when it nests no deeper than 19. */
  lemma TextBack(v: Value, pretty: bool)
    requires WellFormed(v) && AllInt32(v)
    ensures ParseText(Print(v, 0, pretty)) == if Height(v) <= MAX_NESTING then Got(Trim(v), []) else Fail
  {
    hide Print, ParseValue, WellFormed, AllInt32, Height, Trim;
    PrintedBack(v, 0, pretty, [], 0);
    assert Print(v, 0, pretty) + [] == Print(v, 0, pretty);
  }

  // What the parser builds

  /** Well formed, without spare capacity, and no deeper than is allowed. */
  ghost predicate Sound(v: Value, nesting: nat) {
    WellFormed(v) && Trim(v) == v && nesting + Height(v) <= MAX_NESTING
  }

  ghost predicate SoundResult(r: Parsed, nesting: nat) { r.Got? ==> Sound(r.value, nesting) }

  lemma {:induction false} ParsedIsSound(s: Bytes, nesting: nat)
    ensures SoundResult(ParseValue(s, nesting), nesting)
    decreases |s|, 3
  {
    hide Sound, ParseArray, ParseObject, ParseNumber, ParseBoolean, ParseString, ParseWord, SkipSpaces;
    if nesting <= MAX_NESTING {
      var t := SkipSpaces(s);
      LeavesAreSound(t, nesting);
      if t != [] && t[0] == OPEN_BRACE { ObjectIsSound(t, nesting + 1); }
      if t != [] && t[0] == OPEN_BRACKET { ArrayIsSound(t, nesting + 1); }
    }
  }

  lemma LeavesAreSound(t: Bytes, nesting: nat)
    requires nesting <= MAX_NESTING
    ensures SoundResult(ParseNumber(t), nesting) && SoundResult(ParseBoolean(t), nesting)
    ensures SoundResult(ParseString(t), nesting) && SoundResult(ParseWord(t, NULL, JNull), nesting)
  {
    hide QuotedString, NumeralLength, NumberOf, IsDecimal;
  }

  lemma {:induction false} ArrayIsSound(s: Bytes, nesting: nat)
    requires s != [] && s[0] == OPEN_BRACKET && 0 < nesting <= MAX_NESTING + 1
    ensures SoundResult(ParseArray(s, nesting), nesting - 1)
    decreases |s|, 2
  {
    hide ParseItems;
    ItemsAreSound(SkipSpaces(s[1..]), nesting, [], 0);
  }

  ghost predicate SoundItems(items: seq<Value>, nesting: nat) {
    forall i :: 0 <= i < |items| ==> Sound(items[i], nesting)
  }

  lemma {:induction false} ItemsAreSound(s: Bytes, nesting: nat, items: seq<Value>, cap: nat)
    requires SoundItems(items, nesting) && |items| <= cap <= ARRAY_MAX_CAPACITY && nesting > 0
    ensures SoundResult(ParseItems(s, nesting, items, cap), nesting - 1)
    decreases |s|, 4
  {
    hide Sound, ParseValue, SkipSpaces;
    if s != [] && ParseValue(s, nesting).Got? {
      var r := ParseValue(s, nesting);
      ParsedIsSound(s, nesting);
      var added := AddItem(items, cap, r.value);
      var t := SkipSpaces(r.rest);
      if added.Some? && t != [] {
        if t[0] == COMMA {
          ItemsAreSound(SkipSpaces(t[1..]), nesting, added.value.0, added.value.1);
        } else if t[0] == CLOSE_BRACKET {
          ArrayOfSound(added.value.0, nesting);
        }
      }
    }
  }

  lemma ArrayOfSound(items: seq<Value>, nesting: nat)
    requires items != [] && SoundItems(items, nesting) && |items| <= ARRAY_MAX_CAPACITY && nesting > 0
    ensures Sound(JArr(items, |items|), nesting - 1)
  {
    forall i | 0 <= i < |items| ensures TrimItems(items)[i] == items[i] { TrimmedItem(items, i); }
    HeightOfSound(items, nesting);
  }

  lemma {:induction false} HeightOfSound(items: seq<Value>, nesting: nat)
    requires items != [] && SoundItems(items, nesting)
    ensures nesting + HeightOfItems(items) <= MAX_NESTING
  {
    assert Sound(items[0], nesting);
    if |items| > 1 { HeightOfSound(items[1..], nesting); } else { assert items[1..] == []; }
  }

  lemma {:induction false} ObjectIsSound(s: Bytes, nesting: nat)
    requires s != [] && s[0] == OPEN_BRACE && 0 < nesting <= MAX_NESTING + 1
    ensures SoundResult(ParseObject(s, nesting), nesting - 1)
    decreases |s|, 2
  {
    hide ParseEntries;
    EntriesAreSound(SkipSpaces(s[1..]), nesting, [], 0);
  }

  ghost predicate SoundEntries(entries: seq<Entry>, nesting: nat) {
    Unique(entries) && forall i :: 0 <= i < |entries| ==> NoNul(entries[i].name) && Sound(entries[i].value, nesting)
  }

  lemma {:induction false} EntriesAreSound(s: Bytes, nesting: nat, entries: seq<Entry>, cap: nat)
    requires SoundEntries(entries, nesting) && |entries| <= cap <= OBJECT_MAX_CAPACITY && nesting > 0
    ensures SoundResult(ParseEntries(s, nesting, entries, cap), nesting - 1)
    decreases |s|, 4
  {
    hide Sound, ParseValue, SkipSpaces, QuotedString, NoNul, SoundEntries, AddEntry;
    if QuotedString(s).Some? {
      var (key, afterKey) := QuotedString(s).value;
      var u := SkipSpaces(afterKey);
      if u != [] && u[0] == COLON && ParseValue(u[1..], nesting).Got? {
        var r := ParseValue(u[1..], nesting);
        ParsedIsSound(u[1..], nesting);
        var added := AddEntry(entries, cap, key, r.value);
        var t := SkipSpaces(r.rest);
        if added.Some? && t != [] {
          SoundWithOneMore(entries, cap, key, r.value, nesting);
          if t[0] == COMMA {
            EntriesAreSound(SkipSpaces(t[1..]), nesting, added.value.0, added.value.1);
          } else if t[0] == CLOSE_BRACE {
            ObjectOfSound(added.value.0, nesting);
          }
        }
      }
    }
  }

  lemma SoundWithOneMore(entries: seq<Entry>, cap: nat, name: Bytes, v: Value, nesting: nat)
    requires SoundEntries(entries, nesting) && |entries| <= cap <= OBJECT_MAX_CAPACITY
    requires NoNul(name) && Sound(v, nesting) && AddEntry(entries, cap, name, v).Some?
    ensures var (now, room) := AddEntry(entries, cap, name, v).value;
      SoundEntries(now, nesting) && now != [] && |now| <= room <= OBJECT_MAX_CAPACITY
  {
    hide Sound, NoNul;
  }

  lemma ObjectOfSound(entries: seq<Entry>, nesting: nat)
    requires entries != [] && SoundEntries(entries, nesting) && |entries| <= OBJECT_MAX_CAPACITY && nesting > 0
    ensures Sound(JObj(entries, |entries|), nesting - 1)
  {
    forall i | 0 <= i < |entries| ensures TrimEntries(entries)[i] == entries[i] { TrimmedEntry(entries, i); }
    HeightOfSoundEntries(entries, nesting);
  }

  lemma {:induction false} HeightOfSoundEntries(entries: seq<Entry>, nesting: nat)
    requires entries != [] && SoundEntries(entries, nesting)
    ensures nesting + HeightOfEntries(entries) <= MAX_NESTING
  {
    assert Sound(entries[0].value, nesting);
    if |entries| > 1 { HeightOfSoundEntries(entries[1..], nesting); } else { assert entries[1..] == []; }
  }

  /** Whatever text a value was read from, its printed form reads as the same value. */
  lemma ReadPrintedRead(s: Bytes, pretty: bool)
    requires ParseText(s).Got? && AllInt32(ParseText(s).value)
    ensures ParseText(Print(ParseText(s).value, 0, pretty)) == Got(ParseText(s).value, [])
  {
    hide Print, ParseValue, WellFormed, AllInt32, Height, Trim;
    ParsedIsSound(s, 0);
    TextBack(ParseText(s).value, pretty);
  }

  // Printed texts are C strings

  lemma {:induction false} EscapedHasNoNul(s: Bytes)
    requires NoNul(s)
    ensures NoNul(Escape(s))
  {
    if s != [] { EscapedHasNoNul(s[1..]); }
  }

  lemma {:induction false} SpacesHaveNoNul(level: nat, pretty: bool)
    ensures NoNul(Indent(level, pretty)) && NoNul(LineEnd(pretty))
  {
    if level > 0 { SpacesHaveNoNul(level - 1, pretty); }
  }

  /** No byte of the text is NUL, so what is written is what a C string holds. */
  lemma {:induction false} PrintHasNoNul(v: Value, level: nat, pretty: bool)
    requires WellFormed(v)
    ensures NoNul(Print(v, level, pretty))
    decreases v, 0
  {
    hide PrintItems, PrintEntries, Indent, LineEnd, Quoted, PrintNumber;
    match v
    case JStr(s) => QuotedHasNoNul(s);
    case JNum(n) => NumberHasNoNul(n);
    case JArr(items, _) =>
      ItemsHaveNoNul(items, level, pretty);
      WrappedHasNoNul(PrintItems(items, level, pretty), level, pretty);
    case JObj(entries, _) =>
      EntriesHaveNoNul(entries, level, pretty);
      WrappedHasNoNul(PrintEntries(entries, level, pretty), level, pretty);
    case _ =>
  }

  lemma WrappedHasNoNul(inner: Bytes, level: nat, pretty: bool)
    requires NoNul(inner)
    ensures NoNul([OPEN_BRACKET] + LineEnd(pretty) + inner + Indent(level, pretty) + [CLOSE_BRACKET])
    ensures NoNul([OPEN_BRACE] + LineEnd(pretty) + inner + Indent(level, pretty) + [CLOSE_BRACE])
  {
    hide Indent, LineEnd;
    SpacesHaveNoNul(level, pretty);
  }

  lemma NumberHasNoNul(n: int)
    ensures NoNul(PrintNumber(n))
  {
    hide Numerals, Decimal.Digits;
  }

  lemma QuotedHasNoNul(s: Bytes)
    requires NoNul(s)
    ensures NoNul(Quoted(s))
  {
    hide Escape;
    EscapedHasNoNul(s);
  }

  lemma {:induction false} ItemsHaveNoNul(items: seq<Value>, level: nat, pretty: bool)
    requires forall i :: 0 <= i < |items| ==> WellFormed(items[i])
    ensures NoNul(PrintItems(items, level, pretty))
    decreases items
  {
    hide Print, Indent, LineEnd, WellFormed;
    if items != [] {
      SpacesHaveNoNul(level + 1, pretty);
      PrintHasNoNul(items[0], level + 1, pretty);
      ItemsHaveNoNul(items[1..], level, pretty);
    }
  }

  lemma {:induction false} EntriesHaveNoNul(entries: seq<Entry>, level: nat, pretty: bool)
    requires forall i :: 0 <= i < |entries| ==> NoNul(entries[i].name) && WellFormed(entries[i].value)
    ensures NoNul(PrintEntries(entries, level, pretty))
    decreases entries
  {
    hide Print, Indent, LineEnd, WellFormed, Quoted, Separator;
    if entries != [] {
      SpacesHaveNoNul(level + 1, pretty);
      QuotedHasNoNul(entries[0].name);
      PrintHasNoNul(entries[0].value, level + 1, pretty);
      SeparatorHasNoNul(|entries| == 1, pretty);
      assert NoNul(PrintPair(entries[0], level, pretty));
      EntriesHaveNoNul(entries[1..], level, pretty);
    }
  }

  lemma SeparatorHasNoNul(last: bool, pretty: bool)
    ensures NoNul(Separator(last, pretty))
  {
  }
}

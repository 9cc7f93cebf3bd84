/** The parser accepts exactly the texts of the grammar, and reads them as what they stand for. */
module GrammarTexts {
  import opened Bytes
  import Decimal
  import opened G = Grammar
  import N = GrammarNumbers
  import S = GrammarStrings
  import opened Parser
  import R = RoundTrip
  import opened Strings
  import opened Values

  // Blanks

  lemma {:induction false} WhiteWritten(sp: seq<Space>)
    requires AllWhite(sp)
    ensures AllSpaces(WriteSpaces(sp))
  {
    if sp != [] { WhiteWritten(sp[1..]); }
  }

  lemma BlankIsSpace(b: byte)
    ensures Blank(b) <==> IsSpace(b)
  {
  }

  lemma {:induction false} WhiteFound(s: Bytes) returns (sp: seq<Space>)
    ensures AllWhite(sp) && s == WriteSpaces(sp) + SkipSpaces(s)
  {
    hide Blank, IsSpace;
    if s == [] || !IsSpace(s[0]) {
      sp := [];
    } else {
      BlankIsSpace(s[0]);
      var more := WhiteFound(s[1..]);
      sp := [White(s[0])] + more;
      assert sp[1..] == more;
      FrontJoins(s, WriteSpaces(more), SkipSpaces(s[1..]));
    }
  }

  lemma FrontJoins(s: Bytes, a: Bytes, b: Bytes)
    requires s != [] && s[1..] == a + b
    ensures s == [s[0]] + a + b
  {
    assert s == [s[0]] + s[1..];
  }

  /** Blanks before something that is none. */
  lemma SkipsWhite(sp: seq<Space>, u: Bytes)
    requires AllWhite(sp)
    ensures SkipSpaces(WriteSpaces(sp) + u) == SkipSpaces(u)
    ensures u != [] && !IsSpace(u[0]) ==> SkipSpaces(WriteSpaces(sp) + u) == u
  {
    WhiteWritten(sp);
    SkipsAll(WriteSpaces(sp), u);
  }

  /** What may stand behind a value inside an array or object. */
  predicate Delimits(s: Bytes) { s != [] && (Blank(s[0]) || s[0] in {COMMA, CLOSE_BRACKET, CLOSE_BRACE}) }

  lemma BlanksDelimit(sp: seq<Space>, tail: Bytes)
    requires AllWhite(sp) && tail != [] && tail[0] in {COMMA, CLOSE_BRACKET, CLOSE_BRACE}
    ensures Delimits(WriteSpaces(sp) + tail)
  {
    if sp == [] { assert WriteSpaces(sp) + tail == tail; }
  }

  lemma StopsBefore(num: Numeral, s: Bytes)
    requires Delimits(s)
    ensures Stops(num, s)
  {
    if num.Infinite? {
      forall more: seq<bool> | |more| == 5 ensures !(WriteWord("inity", more) <= s) {
        assert WriteWord("inity", more)[0] == 105 || WriteWord("inity", more)[0] == 73;
      }
    }
  }

  // The first byte

  lemma NumeralBegins(num: Numeral)
    requires GoodNumeral(num)
    ensures var s := WriteNumeral(num); s != [] && (s[0] == MINUS || IsDigit(s[0]))
  {
    hide WriteDigits, WriteExponent, WriteWord, Decimal.Digits, Decimal.Value;
    match num
    case Integer(neg, n) => N.DigitsWritten(Decimal.Digits(n));
    case Decimals(neg, whole, _, _) => N.DigitsWritten(whole);
    case _ =>
  }

  lemma NodeBegins(node: Node)
    requires Spelled(node)
    ensures var s := Write(node);
      && s != [] && !IsSpace(s[0]) && s[0] != CLOSE_BRACKET && s[0] != CLOSE_BRACE
      && (node.Number? ==> s[0] == MINUS || IsDigit(s[0]))
  {
    hide WriteNumeral, WriteItems, WritePairs, WriteChars, WriteSpaces;
    if node.Number? { NumeralBegins(node.num); }
  }

  // What is written is read

  ghost predicate GoodItems(items: seq<Item>, depth: nat) {
    forall i :: 0 <= i < |items| ==> Spelled(items[i].node) && Legal(items[i].node, depth) && PlainItem(items[i])
  }

  lemma WordsRead(node: Node, rest: Bytes, depth: nat)
    requires (node.Null? || node.Bool?) && depth <= 19
    ensures ParseValue(Write(node) + rest, depth) == Got(Read(node), rest)
  {
    match node
    case Null =>
      assert Ascii("null") == NULL;
      assert (NULL + rest)[4..] == rest;
    case Bool(b) =>
      assert Ascii("true") == TRUE && Ascii("false") == FALSE;
      R.WordsBack(rest);
  }

  lemma {:induction false} NodeReads(sp: seq<Space>, node: Node, rest: Bytes, depth: nat)
    requires AllWhite(sp) && Spelled(node) && Legal(node, depth) && Plainly(node) && Ends(node, rest)
    ensures ParseValue(WriteSpaces(sp) + Write(node) + rest, depth) == Got(Read(node), rest)
    decreases node, 1
  {
    hide ParseArray, ParseObject, ParseNumber, QuotedString, WriteNumeral, WriteItems, WritePairs, WriteChars, SkipSpaces,
         Stops, ReadText, Legal, Plainly;
    WhiteWritten(sp);
    var s := Write(node) + rest;
    assert WriteSpaces(sp) + Write(node) + rest == WriteSpaces(sp) + s;
    R.SpacesBeforeValue(WriteSpaces(sp), s, depth);
    NotTooDeep(node, depth);
    NodeBegins(node);
    FirstStays(s);
    match node
    case Null => WordsRead(node, rest, depth);
    case Bool(_) => WordsRead(node, rest, depth);
    case Number(num) => N.NumeralReads(num, rest);
    case Text(chars) => S.TextReads(chars, rest);
    case List(_, _) => ListReads(node, rest, depth);
    case Dict(_, _) => DictReads(node, rest, depth);
  }

  lemma FirstStays(s: Bytes)
    requires s != [] && !IsSpace(s[0])
    ensures SkipSpaces(s) == s
  {
  }

  lemma NotTooDeep(node: Node, depth: nat)
    requires Spelled(node) && Legal(node, depth)
    ensures depth <= 19
  {
  }

  lemma ItemsOf(node: Node, depth: nat)
    requires node.List? && Spelled(node) && Legal(node, depth) && Plainly(node)
    ensures AllWhite(node.gap) && GoodItems(node.items, depth + 1) && |node.items| <= ARRAY_MAX_CAPACITY
    ensures node.items != [] ==> node.gap == []
  {
  }

  lemma {:induction false} ListReads(node: Node, rest: Bytes, depth: nat)
    requires node.List? && Spelled(node) && Legal(node, depth) && Plainly(node) && depth <= 19
    ensures var s := Write(node) + rest; s[0] == OPEN_BRACKET && ParseArray(s, depth + 1) == Got(Read(node), rest)
    decreases node, 0
  {
    hide ParseItems, WriteItems, SkipSpaces, Legal, Plainly, GoodItems, AllWhite;
    ItemsOf(node, depth);
    var items, s := node.items, Write(node) + rest;
    var close := [CLOSE_BRACKET] + rest;
    if items == [] {
      assert WriteItems(items) == [] by { NoItems(); }
      assert s[1..] == WriteSpaces(node.gap) + close;
      SkipsWhite(node.gap, close);
      assert close[1..] == rest;
      assert ReadItems(items) == [];
    } else {
      assert s[1..] == WriteItems(items) + close;
      ItemsRead(items, rest, depth + 1, [], 0);
      assert [] + ReadItems(items) == ReadItems(items);
    }
  }

  lemma NoItems()
    ensures WriteItems([]) == []
  {
  }

  /** What follows the first item. */
  function AfterItem(items: seq<Item>, rest: Bytes): Bytes
    requires items != [] && forall i :: 0 <= i < |items| ==> Spelled(items[i].node)
  {
    if |items| == 1 then [CLOSE_BRACKET] + rest else [COMMA] + (WriteItems(items[1..]) + ([CLOSE_BRACKET] + rest))
  }

  lemma FirstItem(items: seq<Item>, rest: Bytes)
    requires items != [] && forall i :: 0 <= i < |items| ==> Spelled(items[i].node)
    ensures WriteItems(items) + ([CLOSE_BRACKET] + rest) ==
      WriteSpaces(items[0].before) + (Write(items[0].node) + (WriteSpaces(items[0].after) + AfterItem(items, rest)))
  {
    hide WriteSpaces, Write, WriteItem, AfterItem;
    ItemSplit(items, rest);
    ItemParts(items[0], AfterItem(items, rest));
  }

  lemma {:induction false} ItemSplit(items: seq<Item>, rest: Bytes)
    requires items != [] && forall i :: 0 <= i < |items| ==> Spelled(items[i].node)
    ensures WriteItems(items) + ([CLOSE_BRACKET] + rest) == WriteItem(items[0]) + AfterItem(items, rest)
  {
    hide WriteItem, Spelled;
    var w, close := WriteItem(items[0]), [CLOSE_BRACKET] + rest;
    if |items| == 1 {
      assert WriteItems(items) == w + [] == w;
    } else {
      assert WriteItems(items) == w + (Ascii(",") + WriteItems(items[1..]));
      CommaJoins(w, WriteItems(items[1..]), close);
    }
  }

  lemma CommaJoins(w: Bytes, more: Bytes, close: Bytes)
    ensures w + (Ascii(",") + more) + close == w + ([COMMA] + (more + close))
  {
    assert Ascii(",") == [COMMA];
  }

  lemma ItemParts(item: Item, tail: Bytes)
    requires Spelled(item.node)
    ensures WriteItem(item) + tail == WriteSpaces(item.before) + (Write(item.node) + (WriteSpaces(item.after) + tail))
  {
    hide WriteSpaces, Write;
    var a, b, c := WriteSpaces(item.before), Write(item.node), WriteSpaces(item.after);
    assert a + b + c + tail == a + (b + (c + tail));
  }

  lemma {:induction false} ItemsRead(items: seq<Item>, rest: Bytes, depth: nat, done: seq<Value>, cap: nat)
    requires items != [] && GoodItems(items, depth)
    requires Doubled(cap) && |done| <= cap <= ARRAY_MAX_CAPACITY && |done| + |items| <= ARRAY_MAX_CAPACITY
    ensures var t := SkipSpaces(WriteItems(items) + ([CLOSE_BRACKET] + rest));
      && t != [] && t[0] != CLOSE_BRACKET
      && ParseItems(t, depth, done, cap) == Got(JArr(done + ReadItems(items), |done| + |items|), rest)
    decreases items
  {
    hide ParseValue, ParseItems, Write, WriteItems, WriteSpaces, SkipSpaces, Legal, Plainly, Doubled, AllWhite,
      Delimits, Stops, Read;
    var item := items[0];
    assert AllWhite(item.before) && AllWhite(item.after) && Plainly(item.node);
    var tail := AfterItem(items, rest);
    var r := WriteSpaces(item.after) + tail;
    var t := Write(item.node) + r;
    FirstItem(items, rest);
    NodeBegins(item.node);
    SkipsWhite(item.before, t);
    BlanksDelimit(item.after, tail);
    if item.node.Number? { StopsBefore(item.node.num, r); }
    NoSpaces();
    NodeReads([], item.node, r, depth);
    assert WriteSpaces([]) + Write(item.node) + r == t;
    SkipsWhite(item.after, tail);
    GrowsToTheLimit(|done|, cap, ARRAY_MAX_CAPACITY);
    var (now, room) := AddItem(done, cap, Read(item.node)).value;
    R.ParseItemsOn(t, depth, done, cap, Read(item.node), r);
    ItemsGrow(items, done);
    if |items| == 1 {
      assert tail[1..] == rest;
    } else {
      assert tail[1..] == WriteItems(items[1..]) + ([CLOSE_BRACKET] + rest);
      ItemsRead(items[1..], rest, depth, now, room);
    }
  }

  lemma NoSpaces()
    ensures WriteSpaces([]) == [] && AllWhite([])
  {
  }

  lemma {:induction false} ItemsGrow(items: seq<Item>, done: seq<Value>)
    requires items != [] && forall i :: 0 <= i < |items| ==> Spelled(items[i].node)
    ensures done + [Read(items[0].node)] + ReadItems(items[1..]) == done + ReadItems(items)
    ensures |items| == 1 ==> done + [Read(items[0].node)] == done + ReadItems(items)
  {
    hide Read, Spelled;
    var first := [Read(items[0].node)];
    assert done + first + ReadItems(items[1..]) == done + (first + ReadItems(items[1..]));
    assert ReadItems(items) == first + ReadItems(items[1..]);
  }

  // Objects

  ghost predicate GoodPairs(pairs: seq<Pair>, depth: nat) {
    && (forall i :: 0 <= i < |pairs| ==>
      GoodChars(pairs[i].key) && Spelled(pairs[i].node) && Legal(pairs[i].node, depth) && PlainPair(pairs[i]))
    && forall i, j :: 0 <= i < j < |pairs| ==> ReadText(pairs[i].key) != ReadText(pairs[j].key)
  }

  lemma PairsOf(node: Node, depth: nat)
    requires node.Dict? && Spelled(node) && Legal(node, depth) && Plainly(node)
    ensures AllWhite(node.gap) && GoodPairs(node.pairs, depth + 1) && |node.pairs| <= OBJECT_MAX_CAPACITY
    ensures node.pairs != [] ==> node.gap == []
  {
  }

  lemma {:induction false} DictReads(node: Node, rest: Bytes, depth: nat)
    requires node.Dict? && Spelled(node) && Legal(node, depth) && Plainly(node) && depth <= 19
    ensures var s := Write(node) + rest; s[0] == OPEN_BRACE && ParseObject(s, depth + 1) == Got(Read(node), rest)
    decreases node, 0
  {
    hide ParseEntries, WritePairs, SkipSpaces, Legal, Plainly, GoodPairs, AllWhite, Apart;
    PairsOf(node, depth);
    var pairs, s := node.pairs, Write(node) + rest;
    var close := [CLOSE_BRACE] + rest;
    if pairs == [] {
      assert WritePairs(pairs) == [] by { NoPairs(); }
      assert s[1..] == WriteSpaces(node.gap) + close;
      SkipsWhite(node.gap, close);
      assert close[1..] == rest;
      assert ReadPairs(pairs) == [];
    } else {
      assert s[1..] == WritePairs(pairs) + close;
      ApartFromNone(pairs);
      PairsRead(pairs, rest, depth + 1, [], 0);
      assert [] + ReadPairs(pairs) == ReadPairs(pairs);
    }
  }

  lemma NoPairs()
    ensures WritePairs([]) == []
  {
  }

  ghost predicate NewKey(done: seq<Entry>, key: seq<Char>) {
    GoodChars(key) ==> forall i :: 0 <= i < |done| ==> done[i].name != ReadText(key)
  }

  /** No key was there before. */
  ghost predicate Apart(done: seq<Entry>, pairs: seq<Pair>) {
    forall j :: 0 <= j < |pairs| ==> NewKey(done, pairs[j].key)
  }

  lemma ApartFromNone(pairs: seq<Pair>)
    ensures Apart([], pairs)
  {
  }

  lemma NextApart(done: seq<Entry>, pairs: seq<Pair>, depth: nat, v: Value)
    requires pairs != [] && GoodPairs(pairs, depth) && Apart(done, pairs)
    ensures GoodPairs(pairs[1..], depth) && Apart(done + [Entry(ReadText(pairs[0].key), v)], pairs[1..])
    ensures Find(done, ReadText(pairs[0].key)) == |done|
  {
    hide ReadText, Legal, PlainPair, Spelled, GoodChars;
  }

  function AfterPair(pairs: seq<Pair>, rest: Bytes): Bytes
    requires pairs != [] && forall i :: 0 <= i < |pairs| ==> GoodChars(pairs[i].key) && Spelled(pairs[i].node)
  {
    if |pairs| == 1 then [CLOSE_BRACE] + rest else [COMMA] + (WritePairs(pairs[1..]) + ([CLOSE_BRACE] + rest))
  }

  /** From the colon on. */
  function FromColon(pairs: seq<Pair>, rest: Bytes): Bytes
    requires pairs != [] && forall i :: 0 <= i < |pairs| ==> GoodChars(pairs[i].key) && Spelled(pairs[i].node)
  {
    [COLON] + (WriteSpaces(pairs[0].gap) + Write(pairs[0].node) + (WriteSpaces(pairs[0].after) + AfterPair(pairs, rest)))
  }

  lemma FirstPair(pairs: seq<Pair>, rest: Bytes)
    requires pairs != [] && forall i :: 0 <= i < |pairs| ==> GoodChars(pairs[i].key) && Spelled(pairs[i].node)
    ensures WritePairs(pairs) + ([CLOSE_BRACE] + rest) ==
      WriteSpaces(pairs[0].before) + (WriteText(pairs[0].key) + (WriteSpaces(pairs[0].mid) + FromColon(pairs, rest)))
  {
    hide WriteSpaces, Write, WriteText, WritePair, AfterPair;
    PairSplit(pairs, rest);
    PairParts(pairs[0], AfterPair(pairs, rest));
  }

  lemma {:induction false} PairSplit(pairs: seq<Pair>, rest: Bytes)
    requires pairs != [] && forall i :: 0 <= i < |pairs| ==> GoodChars(pairs[i].key) && Spelled(pairs[i].node)
    ensures WritePairs(pairs) + ([CLOSE_BRACE] + rest) == WritePair(pairs[0]) + AfterPair(pairs, rest)
  {
    hide WritePair, Spelled, GoodChars;
    var w, close := WritePair(pairs[0]), [CLOSE_BRACE] + rest;
    if |pairs| == 1 {
      assert WritePairs(pairs) == w + [] == w;
    } else {
      assert WritePairs(pairs) == w + (Ascii(",") + WritePairs(pairs[1..]));
      CommaJoins(w, WritePairs(pairs[1..]), close);
    }
  }

  lemma PairParts(p: Pair, tail: Bytes)
    requires GoodChars(p.key) && Spelled(p.node)
    ensures WritePair(p) + tail == WriteSpaces(p.before) + (WriteText(p.key) + (WriteSpaces(p.mid) +
      ([COLON] + (WriteSpaces(p.gap) + Write(p.node) + (WriteSpaces(p.after) + tail)))))
  {
    hide WriteSpaces, Write, WriteText;
    Regroup(WriteSpaces(p.before), WriteText(p.key), WriteSpaces(p.mid), WriteSpaces(p.gap), Write(p.node),
            WriteSpaces(p.after), tail);
  }

  lemma Regroup(a: Bytes, b: Bytes, c: Bytes, d: Bytes, e: Bytes, f: Bytes, g: Bytes)
    ensures a + b + c + Ascii(":") + d + e + f + g == a + (b + (c + ([COLON] + (d + e + (f + g)))))
  {
    assert Ascii(":") == [COLON];
  }

  lemma PairsOn(t: Bytes, depth: nat, done: seq<Entry>, cap: nat, name: Bytes, k: Bytes, u: Bytes, v: Value, r: Bytes)
    requires QuotedString(t) == Some((name, k)) && SkipSpaces(k) == [COLON] + u && ParseValue(u, depth) == Got(v, r)
    requires AddEntry(done, cap, name, v).Some?
    ensures var (now, room) := AddEntry(done, cap, name, v).value; var w := SkipSpaces(r);
      && (w != [] && w[0] == COMMA ==>
        ParseEntries(t, depth, done, cap) == ParseEntries(SkipSpaces(w[1..]), depth, now, room))
      && (w != [] && w[0] == CLOSE_BRACE ==>
        ParseEntries(t, depth, done, cap) == Got(JObj(now, |now|), w[1..]))
  {
    hide ParseValue, AddEntry, QuotedString, SkipSpaces;
    assert ([COLON] + u)[1..] == u;
  }

  lemma {:induction false} PairsRead(pairs: seq<Pair>, rest: Bytes, depth: nat, done: seq<Entry>, cap: nat)
    requires pairs != [] && GoodPairs(pairs, depth) && Apart(done, pairs)
    requires Doubled(cap) && |done| <= cap <= OBJECT_MAX_CAPACITY && |done| + |pairs| <= OBJECT_MAX_CAPACITY
    ensures var t := SkipSpaces(WritePairs(pairs) + ([CLOSE_BRACE] + rest));
      && t != [] && t[0] != CLOSE_BRACE
      && ParseEntries(t, depth, done, cap) == Got(JObj(done + ReadPairs(pairs), |done| + |pairs|), rest)
    decreases pairs, 1
  {
    hide ParseEntries, WritePairs, SkipSpaces, Doubled, Read, ReadText, ReadPairs, Apart, AddEntry, Legal, PlainPair,
      Spelled,
         GoodChars;
    var e := Entry(ReadText(pairs[0].key), Read(pairs[0].node));
    NextApart(done, pairs, depth, e.value);
    EntryFits(done, cap, e.name, e.value);
    FirstPairRead(pairs, rest, depth, done, cap);
    PairsGrow(pairs, done);
    if |pairs| > 1 {
      PairsRead(pairs[1..], rest, depth, done + [e], AddEntry(done, cap, e.name, e.value).value.1);
    }
  }

  /** One key and value, and then a comma and the pairs to come, or the end. */
  lemma {:induction false} FirstPairRead(pairs: seq<Pair>, rest: Bytes, depth: nat, done: seq<Entry>, cap: nat)
    requires pairs != [] && GoodPairs(pairs, depth)
    requires AddEntry(done, cap, ReadText(pairs[0].key), Read(pairs[0].node)).Some?
    ensures var t := SkipSpaces(WritePairs(pairs) + ([CLOSE_BRACE] + rest));
      var (now, room) := AddEntry(done, cap, ReadText(pairs[0].key), Read(pairs[0].node)).value;
      && t != [] && t[0] == QUOTE
      && ParseEntries(t, depth, done, cap) ==
        if |pairs| == 1 then Got(JObj(now, |now|), rest)
        else ParseEntries(SkipSpaces(WritePairs(pairs[1..]) + ([CLOSE_BRACE] + rest)), depth, now, room)
    decreases pairs, 0
  {
    hide ParseValue, ParseEntries, Write, WritePairs, WriteSpaces, SkipSpaces, Legal, Plainly, AllWhite, Delimits,
         Stops, Read, QuotedString, WriteChars, ReadText, AddEntry, FromColon;
    var p := pairs[0];
    assert PlainPair(p);
    var name, tail, colon := ReadText(p.key), AfterPair(pairs, rest), FromColon(pairs, rest);
    var r := WriteSpaces(p.after) + tail;
    var t := WriteText(p.key) + (WriteSpaces(p.mid) + colon);
    FirstPair(pairs, rest);
    SkipsWhite(p.before, t);
    S.TextReads(p.key, WriteSpaces(p.mid) + colon);
    ColonFirst(pairs, rest);
    SkipsWhite(p.mid, colon);
    BlanksDelimit(p.after, tail);
    if p.node.Number? { StopsBefore(p.node.num, r); }
    NodeReads(p.gap, p.node, r, depth);
    SkipsWhite(p.after, tail);
    PairsOn(t, depth, done, cap, name, WriteSpaces(p.mid) + colon, WriteSpaces(p.gap) + Write(p.node) + r, Read(p.node), r);
    if |pairs| == 1 {
      assert tail[1..] == rest;
    } else {
      assert tail[1..] == WritePairs(pairs[1..]) + ([CLOSE_BRACE] + rest);
    }
  }

  lemma ColonFirst(pairs: seq<Pair>, rest: Bytes)
    requires pairs != [] && forall i :: 0 <= i < |pairs| ==> GoodChars(pairs[i].key) && Spelled(pairs[i].node)
    ensures var colon := FromColon(pairs, rest);
      && colon != [] && !IsSpace(colon[0])
      && colon == [COLON] + (WriteSpaces(pairs[0].gap) + Write(pairs[0].node) +
        (WriteSpaces(pairs[0].after) + AfterPair(pairs, rest)))
  {
    hide WriteSpaces, Write, AfterPair;
  }

  lemma EntryFits(done: seq<Entry>, cap: nat, name: Bytes, v: Value)
    requires Find(done, name) == |done| && Doubled(cap) && |done| <= cap <= OBJECT_MAX_CAPACITY &&
      |done| < OBJECT_MAX_CAPACITY
    ensures AddEntry(done, cap, name, v).Some?
    ensures var (now, room) := AddEntry(done, cap, name, v).value;
      now == done + [Entry(name, v)] && Doubled(room) && |now| <= room <= OBJECT_MAX_CAPACITY
  {
    GrowsToTheLimit(|done|, cap, OBJECT_MAX_CAPACITY);
  }

  lemma {:induction false} PairsGrow(pairs: seq<Pair>, done: seq<Entry>)
    requires pairs != [] && forall i :: 0 <= i < |pairs| ==> GoodChars(pairs[i].key) && Spelled(pairs[i].node)
    ensures var e := Entry(ReadText(pairs[0].key), Read(pairs[0].node));
      done + [e] + ReadPairs(pairs[1..]) == done + ReadPairs(pairs) &&
      (|pairs| == 1 ==> done + [e] == done + ReadPairs(pairs))
  {
    hide Read, ReadText, Spelled, GoodChars;
    var first := [Entry(ReadText(pairs[0].key), Read(pairs[0].node))];
    assert done + first + ReadPairs(pairs[1..]) == done + (first + ReadPairs(pairs[1..]));
    assert ReadPairs(pairs) == first + ReadPairs(pairs[1..]);
  }

  // What is read is written

  /** A minus sign of which `strtod` makes nothing. */
  predicate MinusAlone(t: Bytes) { t != [] && t[0] == MINUS && NumeralLength(t) == 0 }

  lemma DigitIsNumeral(t: Bytes)
    requires t != [] && IsDigit(t[0])
    ensures NumeralLength(t) > 0
  {
    assert t[0..] == t;
  }

  /** The tree, right at the front. */
  ghost predicate Stands(node: Node, t: Bytes, r: Parsed, depth: nat) {
    && r.Got? && Spelled(node) && Legal(node, depth) && Plainly(node) && Ends(node, r.rest)
    && Read(node) == r.value && t == Write(node) + r.rest
  }

  lemma WordFound(t: Bytes, depth: nat) returns (node: Node)
    requires depth <= 19 && t != []
    requires ParseBoolean(t).Got? || ParseWord(t, NULL, JNull).Got?
    ensures ParseBoolean(t).Got? ==> Stands(node, t, ParseBoolean(t), depth)
    ensures !ParseBoolean(t).Got? ==> Stands(node, t, ParseWord(t, NULL, JNull), depth)
  {
    assert Ascii("null") == NULL && Ascii("true") == TRUE && Ascii("false") == FALSE;
    node := if TRUE <= t then Bool(true) else if FALSE <= t then Bool(false) else Null;
  }

  lemma NumberFound(t: Bytes, depth: nat) returns (node: Node)
    requires depth <= 19 && t != [] && (t[0] == MINUS || IsDigit(t[0])) && !MinusAlone(t) && ParseNumber(t).Got?
    ensures Stands(node, t, ParseNumber(t), depth)
  {
    hide NumeralLength, IsDecimal, NumberOf, Stops, GoodNumeral, WriteNumeral;
    if IsDigit(t[0]) { DigitIsNumeral(t); }
    var num := N.NumeralFound(t);
    N.NumeralPasses(num);
    node := Number(num);
  }

  lemma StringFound(t: Bytes, depth: nat) returns (node: Node)
    requires depth <= 19 && t != [] && ParseString(t).Got?
    ensures Stands(node, t, ParseString(t), depth)
  {
    hide QuotedString, WriteText, ReadText;
    var chars := S.TextFound(t);
    node := Text(chars);
  }

  lemma {:induction false} NodeFound(s: Bytes, depth: nat) returns (sp: seq<Space>, node: Node)
    requires ParseValue(s, depth).Got? && !MinusAlone(SkipSpaces(s))
    ensures AllWhite(sp) && Stands(node, SkipSpaces(s), ParseValue(s, depth), depth)
    ensures s == WriteSpaces(sp) + SkipSpaces(s)
    decreases |s|, 3
  {
    hide ParseArray, ParseObject, ParseNumber, ParseString, ParseBoolean, ParseWord, SkipSpaces, Stands, AllWhite,
      MinusAlone;
    sp := WhiteFound(s);
    var t := SkipSpaces(s);
    if t[0] == OPEN_BRACE {
      node := DictFound(t, depth);
    } else if t[0] == OPEN_BRACKET {
      node := ListFound(t, depth);
    } else if t[0] == QUOTE {
      node := StringFound(t, depth);
    } else if t[0] == FALSE[0] || t[0] == TRUE[0] {
      node := WordFound(t, depth);
    } else if t[0] == MINUS || IsDigit(t[0]) {
      node := NumberFound(t, depth);
    } else {
      NoBoolean(t);
      node := WordFound(t, depth);
    }
  }

  lemma NoBoolean(t: Bytes)
    requires t != [] && t[0] != TRUE[0] && t[0] != FALSE[0]
    ensures ParseBoolean(t) == Fail
  {
  }

  lemma {:induction false} ListFound(t: Bytes, depth: nat) returns (node: Node)
    requires t != [] && t[0] == OPEN_BRACKET && depth <= 19 && ParseArray(t, depth + 1).Got?
    ensures Stands(node, t, ParseArray(t, depth + 1), depth)
    decreases |t|, 2
  {
    hide ParseItems, SkipSpaces, WriteItems, ReadItems, AllWhite, Legal, Plainly, GoodItems, Write, Prefix, Stands;
    var u := SkipSpaces(t[1..]);
    var before := WhiteFound(t[1..]);
    if u != [] && u[0] == CLOSE_BRACKET {
      node := List(before, []);
      EmptyList(before, t, u, depth);
    } else {
      var items := ItemsFound(u, depth + 1, [], 0);
      Prefixed(before, items, depth + 1, [CLOSE_BRACKET] + ParseArray(t, depth + 1).rest);
      NothingBefore(items, depth + 1);
      items := Prefix(before, items);
      node := List([], items);
      WholeList(items, t, ParseArray(t, depth + 1), depth);
    }
  }

  lemma EmptyText(t: Bytes, open: byte, gap: Bytes, close: byte, u: Bytes)
    requires t != [] && t[0] == open && t[1..] == gap + u && u != [] && u[0] == close
    ensures t == [open] + gap + [] + [close] + u[1..]
  {
    assert t == [open] + (gap + ([close] + u[1..]));
  }

  lemma NothingBefore(items: seq<Item>, depth: nat)
    requires GoodItems(items, depth)
    ensures [] + ReadItems(items) == ReadItems(items)
  {
  }

  lemma {:induction false} EmptyList(gap: seq<Space>, t: Bytes, u: Bytes, depth: nat)
    requires AllWhite(gap) && depth <= 19 && t != [] && t[0] == OPEN_BRACKET && t[1..] == WriteSpaces(gap) + u
    requires u != [] && u[0] == CLOSE_BRACKET
    ensures Stands(List(gap, []), t, Got(JArr([], 0), u[1..]), depth)
  {
    hide WriteSpaces, AllWhite;
    NoItems();
    EmptyText(t, OPEN_BRACKET, WriteSpaces(gap), CLOSE_BRACKET, u);
    assert Ascii("[") == [OPEN_BRACKET] && Ascii("]") == [CLOSE_BRACKET];
  }

  lemma {:induction false} WholeList(items: seq<Item>, t: Bytes, r: Parsed, depth: nat)
    requires items != [] && GoodItems(items, depth + 1) && |items| <= ARRAY_MAX_CAPACITY && depth <= 19
    requires t != [] && t[0] == OPEN_BRACKET && r.Got? && t[1..] == WriteItems(items) + ([CLOSE_BRACKET] + r.rest)
    requires r.value == JArr(ReadItems(items), |items|)
    ensures Stands(List([], items), t, r, depth)
  {
    hide WriteItems, ReadItems, WriteSpaces, Legal, Plainly, Spelled, GoodItems;
    ListIsGood(items, depth);
    ListText(items);
    var w := WriteItems(items);
    assert [OPEN_BRACKET] + w + [CLOSE_BRACKET] + r.rest == [OPEN_BRACKET] + (w + ([CLOSE_BRACKET] + r.rest));
    assert t == [OPEN_BRACKET] + t[1..];
  }

  lemma {:induction false} ListIsGood(items: seq<Item>, depth: nat)
    requires GoodItems(items, depth + 1) && |items| <= ARRAY_MAX_CAPACITY && depth <= 19
    ensures var node := List([], items); Spelled(node) && Legal(node, depth) && Plainly(node)
  {
  }

  lemma {:induction false} ListText(items: seq<Item>)
    requires Spelled(List([], items)) && forall i :: 0 <= i < |items| ==> Spelled(items[i].node)
    ensures Write(List([], items)) == [OPEN_BRACKET] + WriteItems(items) + [CLOSE_BRACKET]
  {
    hide WriteItems, Spelled;
    NoSpaces();
    assert Ascii("[") + [] + WriteItems(items) + Ascii("]") == [OPEN_BRACKET] + WriteItems(items) + [CLOSE_BRACKET];
  }

  /** Blanks put before the first item. */
  function Prefix(before: seq<Space>, items: seq<Item>): seq<Item>
    requires items != []
  {
    [Item(before + items[0].before, items[0].node, items[0].after)] + items[1..]
  }

  lemma {:induction false} SpacesJoin(a: seq<Space>, b: seq<Space>)
    ensures WriteSpaces(a + b) == WriteSpaces(a) + WriteSpaces(b)
  {
    if a == [] {
      assert a + b == b;
    } else {
      assert (a + b)[1..] == a[1..] + b;
      SpacesJoin(a[1..], b);
      assert WriteSpace(a[0]) + (WriteSpaces(a[1..]) + WriteSpaces(b)) == WriteSpaces(a) + WriteSpaces(b);
    }
  }

  lemma {:induction false} Prefixed(before: seq<Space>, items: seq<Item>, depth: nat, tail: Bytes)
    requires AllWhite(before) && items != [] && GoodItems(items, depth)
    ensures var now := Prefix(before, items);
      && GoodItems(now, depth) && |now| == |items| && ReadItems(now) == ReadItems(items)
      && WriteItems(now) + tail == WriteSpaces(before) + (WriteItems(items) + tail)
  {
    hide WriteSpaces, Write, Read, Legal, Plainly, Spelled, AllWhite;
    var now := Prefix(before, items);
    SpacesJoin(before, items[0].before);
    assert AllWhite(before + items[0].before) by { WhiteJoin(before, items[0].before, items, depth); }
    assert now[1..] == items[1..];
    var w := if |items| == 1 then [] else Ascii(",") + WriteItems(items[1..]);
    PrefixJoins(WriteSpaces(before), WriteSpaces(items[0].before), Write(items[0].node), WriteSpaces(items[0].after),
      w, tail);
  }

  lemma WhiteJoin(a: seq<Space>, b: seq<Space>, items: seq<Item>, depth: nat)
    requires AllWhite(a) && items != [] && b == items[0].before && GoodItems(items, depth)
    ensures AllWhite(a + b)
  {
    assert PlainItem(items[0]);
  }

  lemma PrefixJoins(a: Bytes, b: Bytes, c: Bytes, d: Bytes, e: Bytes, tail: Bytes)
    ensures (a + b) + c + d + e + tail == a + (b + c + d + e + tail)
  {
  }

  /** A lone minus sign stays in the way of the comma or bracket. */
  lemma MinusFails(s: Bytes, depth: nat)
    requires MinusAlone(SkipSpaces(s)) && ParseValue(s, depth).Got?
    ensures var u := SkipSpaces(ParseValue(s, depth).rest); u != [] && u[0] == MINUS
  {
    hide NumeralLength, ParseArray, ParseObject, ParseString, ParseBoolean, ParseWord;
    SkipsOnce(s);
    var t := SkipSpaces(s);
    assert t[0..] == t;
  }

  lemma RoomLeft(done: seq<Value>, cap: nat, v: Value)
    requires Doubled(cap) && |done| <= cap <= ARRAY_MAX_CAPACITY && AddItem(done, cap, v).Some?
    ensures var (now, room) := AddItem(done, cap, v).value;
      now == done + [v] && Doubled(room) && |now| <= room <= ARRAY_MAX_CAPACITY
  {
    GrowsToTheLimit(|done|, cap, ARRAY_MAX_CAPACITY);
  }

  /** How the rest of an array was read. */
  lemma ItemsReadSo(s: Bytes, depth: nat, done: seq<Value>, cap: nat)
    requires ParseItems(s, depth, done, cap).Got?
    ensures ParseValue(s, depth).Got? && AddItem(done, cap, ParseValue(s, depth).value).Some?
    ensures var r := ParseValue(s, depth); var t := SkipSpaces(r.rest);
      var (now, room) := AddItem(done, cap, r.value).value;
      && t != [] && t[0] in {COMMA, CLOSE_BRACKET} && |t| <= |s| && s != []
      && ParseItems(s, depth, done, cap) ==
        if t[0] == COMMA then ParseItems(SkipSpaces(t[1..]), depth, now, room) else Got(JArr(now, |now|), t[1..])
  {
    hide ParseValue, SkipSpaces, AddItem;
  }

  lemma {:induction false} ItemsFound(s: Bytes, depth: nat, done: seq<Value>, cap: nat) returns (items: seq<Item>)
    requires ParseItems(s, depth, done, cap).Got? && Doubled(cap) && |done| <= cap <= ARRAY_MAX_CAPACITY
    ensures items != [] && GoodItems(items, depth) && |done| + |items| <= ARRAY_MAX_CAPACITY
    ensures var r := ParseItems(s, depth, done, cap);
      && s == WriteItems(items) + ([CLOSE_BRACKET] + r.rest)
      && r.value == JArr(done + ReadItems(items), |done| + |items|)
    decreases |s|, 4
  {
    hide ParseValue, ParseItems, SkipSpaces, WriteItems, ReadItems, Stands, AllWhite, Doubled, AddItem, GoodItems,
      MinusAlone,
         Prefix;
    ItemsReadSo(s, depth, done, cap);
    var r := ParseValue(s, depth);
    if MinusAlone(SkipSpaces(s)) { MinusFails(s, depth); }
    var sp, node := NodeFound(s, depth);
    var after := WhiteFound(r.rest);
    var t := SkipSpaces(r.rest);
    RoomLeft(done, cap, r.value);
    var (now, room) := AddItem(done, cap, r.value).value;
    if t[0] == COMMA {
      var before := WhiteFound(t[1..]);
      var more := ItemsFound(SkipSpaces(t[1..]), depth, now, room);
      var rest := ParseItems(s, depth, done, cap).rest;
      Prefixed(before, more, depth, [CLOSE_BRACKET] + rest);
      items := MoreItems(sp, node, after, Prefix(before, more), s, r, t, rest, depth, done);
    } else {
      items := LastItem(sp, node, after, s, r, t, depth, done);
    }
  }

  lemma {:induction false} LastItem(sp: seq<Space>, node: Node, after: seq<Space>, s: Bytes, r: Parsed, t: Bytes,
                                   depth: nat, done: seq<Value>) returns (items: seq<Item>)
    requires AllWhite(sp) && AllWhite(after) && r.Got?
    requires Stands(node, SkipSpaces(s), r, depth) && s == WriteSpaces(sp) + SkipSpaces(s)
    requires r.rest == WriteSpaces(after) + t && t != [] && t[0] == CLOSE_BRACKET
    ensures items != [] && |items| == 1 && GoodItems(items, depth)
    ensures s == WriteItems(items) + ([CLOSE_BRACKET] + t[1..]) && done + [r.value] == done + ReadItems(items)
  {
    hide WriteSpaces, Write, Read, AllWhite, Legal, Plainly, Spelled, Ends, SkipSpaces;
    var item := Item(sp, node, after);
    items := [item];
    assert t == [CLOSE_BRACKET] + t[1..];
    ItemParts(item, t);
    assert WriteItems(items) == WriteItem(item) + [] == WriteItem(item);
    assert items[1..] == [] && ReadItems(items) == [Read(node)] + [];
  }

  lemma {:induction false} MoreItems(sp: seq<Space>, node: Node, after: seq<Space>, more: seq<Item>, s: Bytes, r: Parsed,
                                    t: Bytes, rest: Bytes, depth: nat, done: seq<Value>) returns (items: seq<Item>)
    requires AllWhite(sp) && AllWhite(after) && r.Got? && more != [] && GoodItems(more, depth)
    requires Stands(node, SkipSpaces(s), r, depth) && s == WriteSpaces(sp) + SkipSpaces(s)
    requires r.rest == WriteSpaces(after) + t && t != [] && t[0] == COMMA
    requires t[1..] == WriteItems(more) + ([CLOSE_BRACKET] + rest)
    ensures items != [] && |items| == 1 + |more| && GoodItems(items, depth)
    ensures s == WriteItems(items) + ([CLOSE_BRACKET] + rest)
    ensures done + [r.value] + ReadItems(more) == done + ReadItems(items)
  {
    hide WriteSpaces, Write, Read, AllWhite, Legal, Plainly, Spelled, Ends, WriteItem, SkipSpaces;
    var item := Item(sp, node, after);
    items := [item] + more;
    assert items[1..] == more;
    assert t == [COMMA] + t[1..];
    ItemParts(item, t);
    var w, m, close := WriteItem(item), WriteItems(more), [CLOSE_BRACKET] + rest;
    assert WriteItems(items) == w + (Ascii(",") + m);
    CommaJoins(w, m, close);
    assert done + [r.value] + ReadItems(more) == done + ([r.value] + ReadItems(more));
  }

  lemma {:induction false} DictFound(t: Bytes, depth: nat) returns (node: Node)
    requires t != [] && t[0] == OPEN_BRACE && depth <= 19 && ParseObject(t, depth + 1).Got?
    ensures Stands(node, t, ParseObject(t, depth + 1), depth)
    decreases |t|, 2
  {
    hide ParseEntries, SkipSpaces, WritePairs, ReadPairs, AllWhite, Legal, Plainly, GoodPairs, Write, PrefixPair,
      Stands, Apart;
    var u := SkipSpaces(t[1..]);
    var before := WhiteFound(t[1..]);
    if u != [] && u[0] == CLOSE_BRACE {
      node := Dict(before, []);
      EmptyDict(before, t, u, depth);
    } else {
      var pairs := PairsFound(u, depth + 1, [], 0);
      PrefixedPair(before, pairs, depth + 1, [CLOSE_BRACE] + ParseObject(t, depth + 1).rest);
      NoPairBefore(pairs, depth + 1);
      pairs := PrefixPair(before, pairs);
      node := Dict([], pairs);
      WholeDict(pairs, t, ParseObject(t, depth + 1), depth);
    }
  }

  lemma NoPairBefore(pairs: seq<Pair>, depth: nat)
    requires GoodPairs(pairs, depth)
    ensures [] + ReadPairs(pairs) == ReadPairs(pairs)
  {
  }

  lemma {:induction false} EmptyDict(gap: seq<Space>, t: Bytes, u: Bytes, depth: nat)
    requires AllWhite(gap) && depth <= 19 && t != [] && t[0] == OPEN_BRACE && t[1..] == WriteSpaces(gap) + u
    requires u != [] && u[0] == CLOSE_BRACE
    ensures Stands(Dict(gap, []), t, Got(JObj([], 0), u[1..]), depth)
  {
    hide WriteSpaces, AllWhite;
    NoPairs();
    EmptyText(t, OPEN_BRACE, WriteSpaces(gap), CLOSE_BRACE, u);
    assert Ascii("{") == [OPEN_BRACE] && Ascii("}") == [CLOSE_BRACE];
  }

  lemma {:induction false} WholeDict(pairs: seq<Pair>, t: Bytes, r: Parsed, depth: nat)
    requires pairs != [] && GoodPairs(pairs, depth + 1) && |pairs| <= OBJECT_MAX_CAPACITY && depth <= 19
    requires t != [] && t[0] == OPEN_BRACE && r.Got? && t[1..] == WritePairs(pairs) + ([CLOSE_BRACE] + r.rest)
    requires r.value == JObj(ReadPairs(pairs), |pairs|)
    ensures Stands(Dict([], pairs), t, r, depth)
  {
    hide WritePairs, ReadPairs, WriteSpaces, Legal, Plainly, Spelled, GoodPairs;
    DictIsGood(pairs, depth);
    DictText(pairs);
    var w := WritePairs(pairs);
    assert [OPEN_BRACE] + w + [CLOSE_BRACE] + r.rest == [OPEN_BRACE] + (w + ([CLOSE_BRACE] + r.rest));
    assert t == [OPEN_BRACE] + t[1..];
  }

  lemma {:induction false} DictIsGood(pairs: seq<Pair>, depth: nat)
    requires GoodPairs(pairs, depth + 1) && |pairs| <= OBJECT_MAX_CAPACITY && depth <= 19
    ensures var node := Dict([], pairs); Spelled(node) && Legal(node, depth) && Plainly(node)
  {
  }

  lemma {:induction false} DictText(pairs: seq<Pair>)
    requires Spelled(Dict([], pairs))
    requires forall i :: 0 <= i < |pairs| ==> GoodChars(pairs[i].key) && Spelled(pairs[i].node)
    ensures Write(Dict([], pairs)) == [OPEN_BRACE] + WritePairs(pairs) + [CLOSE_BRACE]
  {
    hide WritePairs, Spelled, GoodChars;
    NoSpaces();
    assert Ascii("{") + [] + WritePairs(pairs) + Ascii("}") == [OPEN_BRACE] + WritePairs(pairs) + [CLOSE_BRACE];
  }

  function PrefixPair(before: seq<Space>, pairs: seq<Pair>): seq<Pair>
    requires pairs != []
  {
    [pairs[0].(before := before + pairs[0].before)] + pairs[1..]
  }

  lemma {:induction false} PrefixedPair(before: seq<Space>, pairs: seq<Pair>, depth: nat, tail: Bytes)
    requires AllWhite(before) && pairs != [] && GoodPairs(pairs, depth)
    ensures var now := PrefixPair(before, pairs);
      && GoodPairs(now, depth) && |now| == |pairs| && ReadPairs(now) == ReadPairs(pairs)
      && (forall i :: 0 <= i < |now| ==> now[i].key == pairs[i].key)
      && WritePairs(now) + tail == WriteSpaces(before) + (WritePairs(pairs) + tail)
  {
    hide WriteSpaces, Write, Read, Legal, Plainly, Spelled, AllWhite, WriteText, ReadText, GoodChars;
    var now, p := PrefixPair(before, pairs), pairs[0];
    SpacesJoin(before, p.before);
    assert AllWhite(before + p.before) by { WhitePairJoin(before, p.before, pairs, depth); }
    assert now[1..] == pairs[1..];
    var w := if |pairs| == 1 then [] else Ascii(",") + WritePairs(pairs[1..]);
    PairParts(now[0], w + tail);
    PairParts(p, w + tail);
    var x := WriteText(p.key) + (WriteSpaces(p.mid) +
      ([COLON] + (WriteSpaces(p.gap) + Write(p.node) + (WriteSpaces(p.after) + (w + tail)))));
    PairPrefixJoins(WriteSpaces(before), WriteSpaces(p.before), x, WritePair(now[0]), WritePair(p), w, tail);
  }

  lemma PairPrefixJoins(a: Bytes, b: Bytes, x: Bytes, p0: Bytes, p1: Bytes, w: Bytes, tail: Bytes)
    requires p0 + (w + tail) == a + b + x && p1 + (w + tail) == b + x
    ensures p0 + w + tail == a + (p1 + w + tail)
  {
    assert a + b + x == a + (b + x);
    assert p0 + w + tail == p0 + (w + tail) && p1 + w + tail == p1 + (w + tail);
  }

  lemma WhitePairJoin(a: seq<Space>, b: seq<Space>, pairs: seq<Pair>, depth: nat)
    requires AllWhite(a) && pairs != [] && b == pairs[0].before && GoodPairs(pairs, depth)
    ensures AllWhite(a + b)
  {
    assert PlainPair(pairs[0]);
  }

  /** How the rest of an object was read. */
  lemma PairsReadSo(s: Bytes, depth: nat, done: seq<Entry>, cap: nat)
    requires ParseEntries(s, depth, done, cap).Got?
    ensures QuotedString(s).Some?
    ensures var (key, afterKey) := QuotedString(s).value; var u := SkipSpaces(afterKey);
      && u != [] && u[0] == COLON && |u| < |s| && ParseValue(u[1..], depth).Got?
      && var r := ParseValue(u[1..], depth); var t := SkipSpaces(r.rest);
      && AddEntry(done, cap, key, r.value).Some?
      && var (now, room) := AddEntry(done, cap, key, r.value).value;
      && t != [] && t[0] in {COMMA, CLOSE_BRACE} && |t| <= |s|
      && ParseEntries(s, depth, done, cap) ==
        if t[0] == COMMA then ParseEntries(SkipSpaces(t[1..]), depth, now, room) else Got(JObj(now, |now|), t[1..])
  {
    hide ParseValue, SkipSpaces, AddEntry, QuotedString;
  }

  lemma EntryRoom(done: seq<Entry>, cap: nat, name: Bytes, v: Value)
    requires Doubled(cap) && |done| <= cap <= OBJECT_MAX_CAPACITY && AddEntry(done, cap, name, v).Some?
    ensures var (now, room) := AddEntry(done, cap, name, v).value;
      && now == done + [Entry(name, v)] && Doubled(room) && |now| <= room <= OBJECT_MAX_CAPACITY
      && forall i :: 0 <= i < |done| ==> done[i].name != name
  {
    GrowsToTheLimit(|done|, cap, OBJECT_MAX_CAPACITY);
  }

  lemma {:induction false} PairsFound(s: Bytes, depth: nat, done: seq<Entry>, cap: nat) returns (pairs: seq<Pair>)
    requires ParseEntries(s, depth, done, cap).Got? && Doubled(cap) && |done| <= cap <= OBJECT_MAX_CAPACITY
    ensures pairs != [] && GoodPairs(pairs, depth) && Apart(done, pairs) && |done| + |pairs| <= OBJECT_MAX_CAPACITY
    ensures var r := ParseEntries(s, depth, done, cap);
      && s == WritePairs(pairs) + ([CLOSE_BRACE] + r.rest)
      && r.value == JObj(done + ReadPairs(pairs), |done| + |pairs|)
    decreases |s|, 4
  {
    hide ParseValue, ParseEntries, SkipSpaces, WritePairs, ReadPairs, Stands, AllWhite, Doubled, AddEntry, GoodPairs,
      MinusAlone,
         PrefixPair, QuotedString, Apart, ReadText, WriteText, Pairing;
    PairsReadSo(s, depth, done, cap);
    var (key, afterKey) := QuotedString(s).value;
    var u := SkipSpaces(afterKey);
    var r := ParseValue(u[1..], depth);
    var t := SkipSpaces(r.rest);
    var chars := S.TextFound(s);
    var mid := WhiteFound(afterKey);
    if MinusAlone(SkipSpaces(u[1..])) { MinusFails(u[1..], depth); }
    var gap, node := NodeFound(u[1..], depth);
    var after := WhiteFound(r.rest);
    EntryRoom(done, cap, key, r.value);
    var (now, room) := AddEntry(done, cap, key, r.value).value;
    var pair := Pair([], chars, mid, gap, node, after);
    PairFound(pair, s, key, afterKey, u, r, t, depth);
    if t[0] == COMMA {
      var before := WhiteFound(t[1..]);
      var more := PairsFound(SkipSpaces(t[1..]), depth, now, room);
      var rest := ParseEntries(s, depth, done, cap).rest;
      PrefixedPair(before, more, depth, [CLOSE_BRACE] + rest);
      StillApart(now, more, before);
      pairs := MorePairs(pair, PrefixPair(before, more), s, key, r.value, t, rest, depth, done);
    } else {
      pairs := LastPair(pair, s, key, r.value, t, depth, done);
    }
  }

  /** A key and a value, written as the pair. */
  ghost predicate Pairing(pair: Pair, s: Bytes, key: Bytes, v: Value, t: Bytes, depth: nat) {
    && GoodChars(pair.key) && Spelled(pair.node) && Legal(pair.node, depth) && PlainPair(pair)
    && ReadText(pair.key) == key && Read(pair.node) == v && s == WritePair(pair) + t
  }

  lemma PairFound(pair: Pair, s: Bytes, key: Bytes, afterKey: Bytes, u: Bytes, r: Parsed, t: Bytes, depth: nat)
    requires pair.before == [] && GoodChars(pair.key) && ReadText(pair.key) == key && s == WriteText(pair.key) + afterKey
    requires AllWhite(pair.mid) && afterKey == WriteSpaces(pair.mid) + u && u != [] && u[0] == COLON
    requires AllWhite(pair.gap) && Stands(pair.node, SkipSpaces(u[1..]), r, depth)
    requires u[1..] == WriteSpaces(pair.gap) + SkipSpaces(u[1..])
    requires AllWhite(pair.after) && r.rest == WriteSpaces(pair.after) + t
    ensures Pairing(pair, s, key, r.value, t, depth)
  {
    hide Write, WriteText, Read, ReadText, AllWhite, Legal, Plainly, Spelled, Ends, WritePair, SkipSpaces, GoodChars;
    NoSpaces();
    PairParts(pair, t);
    assert u == [COLON] + u[1..];
    ColonJoins(WriteSpaces(pair.gap), Write(pair.node), WriteSpaces(pair.after), t);
    assert [] + s == s;
  }

  lemma ColonJoins(a: Bytes, b: Bytes, c: Bytes, t: Bytes)
    ensures a + (b + (c + t)) == a + b + (c + t)
  {
  }

  lemma {:induction false} StillApart(done: seq<Entry>, pairs: seq<Pair>, before: seq<Space>)
    requires pairs != [] && Apart(done, pairs)
    ensures Apart(done, PrefixPair(before, pairs))
  {
    hide NewKey;
    var now := PrefixPair(before, pairs);
    forall j | 0 <= j < |now| ensures NewKey(done, now[j].key) {
      assert NewKey(done, pairs[j].key);
    }
  }

  lemma {:induction false} LastPair(pair: Pair, s: Bytes, key: Bytes, v: Value, t: Bytes, depth: nat, done: seq<Entry>)
      returns (pairs: seq<Pair>)
    requires Pairing(pair, s, key, v, t, depth) && t != [] && t[0] == CLOSE_BRACE
    requires forall i :: 0 <= i < |done| ==> done[i].name != key
    ensures |pairs| == 1 && GoodPairs(pairs, depth) && Apart(done, pairs)
    ensures s == WritePairs(pairs) + ([CLOSE_BRACE] + t[1..]) && done + [Entry(key, v)] == done + ReadPairs(pairs)
  {
    hide WritePair, Read, ReadText, Legal, Plainly, Spelled, PlainPair, GoodChars;
    pairs := [pair];
    assert t == [CLOSE_BRACE] + t[1..];
    assert WritePairs(pairs) == WritePair(pair) + [] == WritePair(pair);
    assert pairs[1..] == [] && ReadPairs(pairs) == [Entry(key, v)] + [];
  }

  lemma {:induction false} MorePairs(pair: Pair, more: seq<Pair>, s: Bytes, key: Bytes, v: Value, t: Bytes, rest: Bytes,
                                    depth: nat, done: seq<Entry>) returns (pairs: seq<Pair>)
    requires Pairing(pair, s, key, v, t, depth) && t != [] && t[0] == COMMA
    requires more != [] && GoodPairs(more, depth) && Apart(done + [Entry(key, v)], more)
    requires forall i :: 0 <= i < |done| ==> done[i].name != key
    requires t[1..] == WritePairs(more) + ([CLOSE_BRACE] + rest)
    ensures |pairs| == 1 + |more| && GoodPairs(pairs, depth) && Apart(done, pairs)
    ensures s == WritePairs(pairs) + ([CLOSE_BRACE] + rest)
    ensures done + [Entry(key, v)] + ReadPairs(more) == done + ReadPairs(pairs)
  {
    hide WritePair, WritePairs, Read, ReadPairs, ReadText, Legal, Plainly, Spelled, PlainPair, GoodChars, Apart;
    pairs := [pair] + more;
    MoreApart(pair, more, key, v, depth, done);
    PairInFront(pair, more);
    CommaJoins(WritePair(pair), WritePairs(more), [CLOSE_BRACE] + rest);
    assert t == [COMMA] + t[1..];
    assert done + [Entry(key, v)] + ReadPairs(more) == done + ([Entry(key, v)] + ReadPairs(more));
  }

  lemma {:induction false} PairInFront(pair: Pair, more: seq<Pair>)
    requires GoodChars(pair.key) && Spelled(pair.node) && more != []
    requires forall i :: 0 <= i < |more| ==> GoodChars(more[i].key) && Spelled(more[i].node)
    ensures WritePairs([pair] + more) == WritePair(pair) + (Ascii(",") + WritePairs(more))
    ensures ReadPairs([pair] + more) == [Entry(ReadText(pair.key), Read(pair.node))] + ReadPairs(more)
  {
    hide WritePair, Read, ReadText, Spelled, GoodChars;
    assert ([pair] + more)[1..] == more;
  }

  lemma {:induction false} MoreApart(pair: Pair, more: seq<Pair>, key: Bytes, v: Value, depth: nat, done: seq<Entry>)
    requires GoodChars(pair.key) && Spelled(pair.node) && Legal(pair.node, depth) && PlainPair(pair) &&
      ReadText(pair.key) == key
    requires GoodPairs(more, depth) && Apart(done + [Entry(key, v)], more)
    requires forall i :: 0 <= i < |done| ==> done[i].name != key
    ensures GoodPairs([pair] + more, depth) && Apart(done, [pair] + more)
  {
    hide ReadText, Legal, Plainly, Spelled, PlainPair, GoodChars;
    var now, pairs := done + [Entry(key, v)], [pair] + more;
    forall j | 0 <= j < |more| ensures ReadText(more[j].key) != key && NewKey(done, more[j].key) {
      assert NewKey(now, more[j].key) && now[|done|].name == key;
      assert forall i :: 0 <= i < |done| ==> now[i] == done[i];
    }
    forall j | 0 <= j < |pairs| ensures NewKey(done, pairs[j].key) {
      assert j > 0 ==> pairs[j] == more[j - 1];
    }
  }

  // The main result

  lemma MinusIsOnly(t: Bytes)
    requires t != [] && t[0] == MINUS
    ensures NumeralLength(t) == 0 <==> OnlyMinus(t)
  {
    hide Spells, WriteWord, DigitRun;
    var u := t[1..];
    SignAlone(t);
    if NumeralLength(t) == 0 {
      forall upper: seq<bool> | |upper| == 3 ensures !(WriteWord("inf", upper) <= u) && !(WriteWord("nan", upper) <= u) {
        if WriteWord("inf", upper) <= u {
          assert u == WriteWord("inf", upper) + u[3..];
          N.LetterCases("inf", upper, u[3..], INF);
        }
        if WriteWord("nan", upper) <= u {
          assert u == WriteWord("nan", upper) + u[3..];
          N.LetterCases("nan", upper, u[3..], NAN);
        }
      }
    } else if OnlyMinus(t) {
      if Spells(u, INF) { var upper := N.WordFound("inf", u, INF); }
      if Spells(u, NAN) { var upper := N.WordFound("nan", u, NAN); }
    }
  }

  lemma SignAlone(t: Bytes)
    requires t != [] && t[0] == MINUS
    ensures var u := t[1..];
      NumeralLength(t) == 0 <==>
        !DigitAt(t, 1) && !(PointAt(u) && DigitAt(t, 2)) && !Spells(u, INF) && !Spells(u, NAN)
  {
  }

  lemma MinusReads(sp: seq<Space>, rest: Bytes, depth: nat)
    requires AllWhite(sp) && OnlyMinus(rest) && depth <= 19
    ensures ParseValue(WriteSpaces(sp) + rest, depth) == Got(JNum(0), rest)
  {
    hide ParseArray, ParseObject, ParseString, ParseBoolean, ParseWord, NumeralLength, OnlyMinus, SkipSpaces;
    MinusFirst(rest);
    MinusIsOnly(rest);
    SkipsWhite(sp, rest);
    assert rest[..0] == [] && rest[0..] == rest;
  }

  lemma MinusFirst(t: Bytes)
    requires OnlyMinus(t)
    ensures t != [] && t[0] == MINUS
  {
  }

  /** A text is accepted as a value, with something left over, exactly when the grammar says so. */
  lemma ParsesExactly(s: Bytes, v: Value, rest: Bytes, depth: nat)
    ensures ParseValue(s, depth) == Got(v, rest) <==> IsText(s, v, rest, depth)
  {
    hide ParseValue, Writes, StaysAt;
    if ParseValue(s, depth) == Got(v, rest) { ParsedIsText(s, v, rest, depth); }
    if IsText(s, v, rest, depth) { TextIsParsed(s, v, rest, depth); }
  }

  lemma TextIsParsed(s: Bytes, v: Value, rest: Bytes, depth: nat)
    requires IsText(s, v, rest, depth)
    ensures ParseValue(s, depth) == Got(v, rest)
  {
    hide ParseValue, WriteSpaces, Write, Read, Legal, Plainly, AllWhite, Ends, OnlyMinus;
    if depth <= 19 && exists sp: seq<Space> :: StaysAt(sp, s, v, rest) {
      var sp: seq<Space> :| StaysAt(sp, s, v, rest);
      MinusReads(sp, rest, depth);
    } else {
      var sp: seq<Space>, node: Node :| Writes(sp, node, s, v, rest, depth);
      NodeReads(sp, node, rest, depth);
    }
  }

  lemma ParsedIsText(s: Bytes, v: Value, rest: Bytes, depth: nat)
    requires ParseValue(s, depth) == Got(v, rest)
    ensures IsText(s, v, rest, depth)
  {
    hide ParseValue, WriteSpaces, Write, Read, Legal, Plainly, AllWhite, Ends, SkipSpaces, NumeralLength, OnlyMinus;
    var t := SkipSpaces(s);
    if MinusAlone(t) {
      var sp := WhiteFound(s);
      MinusIsOnly(t);
      MinusStays(s, depth);
      assert StaysAt(sp, s, v, rest);
    } else {
      var sp, node := NodeFound(s, depth);
      assert WriteSpaces(sp) + (Write(node) + rest) == WriteSpaces(sp) + Write(node) + rest;
      assert Writes(sp, node, s, v, rest, depth);
    }
  }

  lemma MinusStays(s: Bytes, depth: nat)
    requires ParseValue(s, depth).Got? && MinusAlone(SkipSpaces(s))
    ensures depth <= 19 && ParseValue(s, depth) == Got(JNum(0), SkipSpaces(s))
  {
    hide ParseArray, ParseObject, ParseString, ParseBoolean, ParseWord, NumeralLength, SkipSpaces;
    var t := SkipSpaces(s);
    assert t[..0] == [] && t[0..] == t;
  }

  /** And refused, exactly when the grammar knows no value for it. */
  lemma RefusesExactly(s: Bytes)
    ensures ParseText(s) == Fail <==> forall v: Value, rest: Bytes :: !IsText(s, v, rest, 0)
  {
    hide ParseValue, IsText;
    if ParseText(s) == Fail {
      forall v: Value, rest: Bytes ensures !IsText(s, v, rest, 0) { ParsesExactly(s, v, rest, 0); }
    } else {
      ParsesExactly(s, ParseText(s).value, ParseText(s).rest, 0);
    }
  }
}

/** The recursive parser as it runs: a cursor, and arrays and objects that grow. */
module ParserCode {
  import opened Bytes
  import opened Containers
  import Decimal
  import opened Parser
  import opened StringCode
  import opened Strings
  import opened Values

  datatype Outcome = Built(value: Value) | NoValue

  /** The cursor code did what the specification says. */
  ghost predicate Did(r: Outcome, c: Cursor, expected: Parsed)
    reads c
  {
    && (expected.Got? ==> r == Built(expected.value) && c.pos <= |c.text| && c.Rest() == expected.rest)
    && (expected.Fail? ==> r == NoValue)
  }

  /** `is_decimal` */
  method CheckDecimal(t: Bytes) returns (r: bool)
    ensures r <==> IsDecimal(t)
  {
    if |t| > 1 && t[0] == ZERO && t[1] != DOT { return false; }
    if |t| > 2 && t[0] == MINUS && t[1] == ZERO && t[2] != DOT { return false; }
    var length := |t|;
    while length > 0
      invariant 0 <= length <= |t| && forall i :: length <= i < |t| ==> !IsLetter(t[i], 120)
    {
      length := length - 1;
      if IsLetter(t[length], 120) { return false; }
    }
    r := true;
  }

  /** `parse_number_value`, with `strtod` as the specification has it. */
  method ParseNumberValue(c: Cursor) returns (r: Outcome)
    requires c.Valid()
    modifies c
    ensures c.Valid() && Did(r, c, ParseNumber(old(c.Rest())))
  {
    hide NumeralLength, IsDecimal, NumberOf;
    var s := c.Rest();
    var n := NumeralLength(s);
    var decimal := CheckDecimal(s[..n]);
    if !decimal { return NoValue; }
    c.pos := c.pos + n;
    assert c.Rest() == s[n..];
    r := Built(JNum(NumberOf(s[..n])));
  }

  /** `strncmp` with a word, and past it. */
  method ParseWordValue(c: Cursor, word: Bytes, v: Value) returns (r: Outcome)
    requires c.Valid()
    modifies c
    ensures c.Valid() && Did(r, c, ParseWord(old(c.Rest()), word, v))
    ensures r == NoValue ==> c.Rest() == old(c.Rest())
  {
    ghost var s := c.Rest();
    if !(word <= c.Rest()) { return NoValue; }
    c.pos := c.pos + |word|;
    assert c.Rest() == s[|word|..];
    r := Built(v);
  }

  method ParseBooleanValue(c: Cursor) returns (r: Outcome)
    requires c.Valid()
    modifies c
    ensures c.Valid() && Did(r, c, ParseBoolean(old(c.Rest())))
  {
    r := ParseWordValue(c, TRUE, JBool(true));
    if r == NoValue {
      r := ParseWordValue(c, FALSE, JBool(false));
    }
  }

  method ParseStringValue(c: Cursor) returns (r: Outcome)
    requires c.Valid()
    modifies c
    ensures c.Valid() && Did(r, c, ParseString(old(c.Rest())))
  {
    var text := c.GetQuotedString();
    r := if text == None then NoValue else Built(JStr(text.value));
  }

  method ParseJson(c: Cursor, nesting: nat) returns (r: Outcome)
    requires c.Valid()
    modifies c
    ensures c.Valid() && Did(r, c, ParseValue(old(c.Rest()), nesting))
    decreases |c.text| - c.pos, 3
  {
    hide ParseArray, ParseObject, ParseString, ParseBoolean, ParseNumber, ParseWord, SkipSpaces, NoNul;
    if nesting > MAX_NESTING { return NoValue; }
    c.SkipWhitespaces();
    var b := c.Peek();
    if b == OPEN_BRACE {
      r := ParseObjectValue(c, nesting + 1);
    } else if b == OPEN_BRACKET {
      r := ParseArrayValue(c, nesting + 1);
    } else if b == QUOTE {
      r := ParseStringValue(c);
    } else if b == FALSE[0] || b == TRUE[0] {
      r := ParseBooleanValue(c);
    } else if b == MINUS || IsDigit(b) {
      r := ParseNumberValue(c);
    } else if b == NULL[0] {
      r := ParseWordValue(c, NULL, JNull);
    } else {
      r := NoValue;
    }
  }

  method ParseArrayValue(c: Cursor, nesting: nat) returns (r: Outcome)
    requires c.Valid() && c.Rest() != [] && c.Rest()[0] == OPEN_BRACKET
    modifies c
    ensures c.Valid() && Did(r, c, ParseArray(old(c.Rest()), nesting))
    decreases |c.text| - c.pos, 2
  {
    hide ParseItems, ParseValue, SkipSpaces, NoNul, AddItem;
    var a := new JsonArray();
    c.SkipChar();
    c.SkipWhitespaces();
    if c.Peek() == CLOSE_BRACKET {
      c.SkipChar();
      return Built(JArr([], 0));
    }
    ghost var expected := ParseItems(c.Rest(), nesting, [], 0);
    while c.Peek() != 0
      invariant c.Valid() && a.Valid() && fresh(a) && fresh(a.items) && c.pos > old(c.pos)
      invariant ParseItems(c.Rest(), nesting, a.Contents(), a.Capacity()) == expected
      decreases |c.text| - c.pos
    {
      r := ParseItem(c, a, nesting);
      if !r.Built? { return; }
      SkipsOnce(c.Rest());
      c.SkipWhitespaces();
      if c.Peek() != COMMA { break; }
      c.SkipChar();
      c.SkipWhitespaces();
    }
    NothingLeft(nesting, a.Contents(), a.Capacity());
    assert ArrayEnd(SkipSpaces(c.Rest()), a.Contents()) == expected;
    r := FinishArray(c, a);
  }

  /** A value, added to the array. */
  method ParseItem(c: Cursor, a: JsonArray, nesting: nat) returns (r: Outcome)
    requires c.Valid() && a.Valid() && c.Rest() != []
    modifies c, a, a.items
    ensures c.Valid() && a.Valid() && (a.items == old(a.items) || fresh(a.items))
    ensures var expected := ParseItems(old(c.Rest()), nesting, old(a.Contents()), old(a.Capacity()));
      if r.Built?
      then a.count > 0 && c.pos >= old(c.pos) && expected == ItemsOn(c.Rest(), nesting, a.Contents(), a.Capacity())
      else Did(r, c, expected)
    decreases |c.text| - c.pos, 4
  {
    hide ParseItems, ParseValue, SkipSpaces, NoNul, AddItem, ItemsOn;
    ItemsUnfold(c.Rest(), nesting, a.Contents(), a.Capacity());
    r := ParseJson(c, nesting);
    if !r.Built? { return; }
    var ok := a.Add(r.value);
    if !ok { return NoValue; }
  }

  /** Past the closing bracket; the array keeps no more room than it needs. */
  method FinishArray(c: Cursor, a: JsonArray) returns (r: Outcome)
    requires c.Valid() && a.Valid()
    requires c.Rest() != [] ==> a.count > 0
    modifies c, a
    ensures c.Valid() && Did(r, c, ArrayEnd(SkipSpaces(old(c.Rest())), old(a.Contents())))
  {
    hide SkipSpaces, NoNul;
    NothingToSkip();
    c.SkipWhitespaces();
    if c.Peek() != CLOSE_BRACKET { return NoValue; }
    var ok := a.Resize(a.count);
    if !ok { return NoValue; }
    c.SkipChar();
    r := Built(JArr(a.Contents(), a.Capacity()));
  }

  lemma NothingToSkip()
    ensures SkipSpaces([]) == []
  {
  }

  lemma ItemsUnfold(s: Bytes, nesting: nat, items: seq<Value>, cap: nat)
    requires s != []
    ensures ParseItems(s, nesting, items, cap) == ItemOn(ParseValue(s, nesting), nesting, items, cap)
  {
  }

  lemma NothingLeft(nesting: nat, items: seq<Value>, cap: nat)
    ensures SkipSpaces([]) == [] && ParseItems([], nesting, items, cap) == Fail
  {
  }

  function ItemOn(r: Parsed, nesting: nat, items: seq<Value>, cap: nat): Parsed {
    if !r.Got? then r
    else
      var added := AddItem(items, cap, r.value);
      if added == None then Fail else ItemsOn(r.rest, nesting, added.value.0, added.value.1)
  }

  /** After an item. */
  function ItemsOn(rest: Bytes, nesting: nat, items: seq<Value>, cap: nat): Parsed {
    var t := SkipSpaces(rest);
    if t != [] && t[0] == COMMA then ParseItems(SkipSpaces(t[1..]), nesting, items, cap)
    else ArrayEnd(t, items)
  }

  function ArrayEnd(t: Bytes, items: seq<Value>): Parsed {
    if t != [] && t[0] == CLOSE_BRACKET then Got(JArr(items, |items|), t[1..]) else Fail
  }

  method ParseObjectValue(c: Cursor, nesting: nat) returns (r: Outcome)
    requires c.Valid() && c.Rest() != [] && c.Rest()[0] == OPEN_BRACE
    modifies c
    ensures c.Valid() && Did(r, c, ParseObject(old(c.Rest()), nesting))
    decreases |c.text| - c.pos, 2
  {
    hide ParseEntries, ParseValue, SkipSpaces, NoNul, AddEntry, QuotedString;
    var o := new JsonObject();
    c.SkipChar();
    c.SkipWhitespaces();
    if c.Peek() == CLOSE_BRACE {
      c.SkipChar();
      return Built(JObj([], 0));
    }
    ghost var expected := ParseEntries(c.Rest(), nesting, [], 0);
    while c.Peek() != 0
      invariant c.Valid() && o.Valid() && fresh(o) && fresh(o.names) && fresh(o.values) && c.pos > old(c.pos)
      invariant ParseEntries(c.Rest(), nesting, o.Entries(), o.Capacity()) == expected
      decreases |c.text| - c.pos
    {
      r := ParseEntry(c, o, nesting);
      if !r.Built? { return; }
      SkipsOnce(c.Rest());
      c.SkipWhitespaces();
      if c.Peek() != COMMA { break; }
      c.SkipChar();
      c.SkipWhitespaces();
    }
    NoEntryLeft(nesting, o.Entries(), o.Capacity());
    assert ObjectEnd(SkipSpaces(c.Rest()), o.Entries()) == expected;
    r := FinishObject(c, o);
  }

  /** A key and its value, added to the object. */
  method ParseEntry(c: Cursor, o: JsonObject, nesting: nat) returns (r: Outcome)
    requires c.Valid() && o.Valid()
    modifies c, o, o.names, o.values
    ensures c.Valid() && o.Valid()
    ensures (o.names == old(o.names) && o.values == old(o.values)) || (fresh(o.names) && fresh(o.values))
    ensures var expected := ParseEntries(old(c.Rest()), nesting, old(o.Entries()), old(o.Capacity()));
      if r.Built?
      then o.count > 0 && c.pos >= old(c.pos) && expected == EntriesOn(c.Rest(), nesting, o.Entries(), o.Capacity())
      else Did(r, c, expected)
    decreases |c.text| - c.pos, 4
  {
    hide ParseEntries, ParseValue, SkipSpaces, NoNul, AddEntry, QuotedString, EntriesOn;
    EntriesUnfold(c.Rest(), nesting, o.Entries(), o.Capacity());
    var key := c.GetQuotedString();
    if key == None { return NoValue; }
    c.SkipWhitespaces();
    if c.Peek() != COLON { return NoValue; }
    c.SkipChar();
    r := ParseJson(c, nesting);
    if !r.Built? { return; }
    var ok := o.Add(key.value, r.value);
    if !ok { return NoValue; }
  }

  /** Past the closing brace; the object keeps no more room than it needs. */
  method FinishObject(c: Cursor, o: JsonObject) returns (r: Outcome)
    requires c.Valid() && o.Valid()
    requires c.Rest() != [] ==> o.count > 0
    modifies c, o
    ensures c.Valid() && Did(r, c, ObjectEnd(SkipSpaces(old(c.Rest())), old(o.Entries())))
  {
    hide SkipSpaces, NoNul;
    NothingToSkip();
    c.SkipWhitespaces();
    if c.Peek() != CLOSE_BRACE { return NoValue; }
    var ok := o.Resize(o.count);
    if !ok { return NoValue; }
    c.SkipChar();
    r := Built(JObj(o.Entries(), o.Capacity()));
  }

  lemma EntriesUnfold(s: Bytes, nesting: nat, entries: seq<Entry>, cap: nat)
    ensures QuotedString(s) == None ==> ParseEntries(s, nesting, entries, cap) == Fail
    ensures QuotedString(s).Some? ==>
      var (key, afterKey) := QuotedString(s).value;
      ParseEntries(s, nesting, entries, cap) == ValueOn(SkipSpaces(afterKey), nesting, entries, cap, key)
  {
  }

  lemma NoEntryLeft(nesting: nat, entries: seq<Entry>, cap: nat)
    ensures SkipSpaces([]) == [] && ParseEntries([], nesting, entries, cap) == Fail
  {
  }

  /** After a key. */
  function ValueOn(u: Bytes, nesting: nat, entries: seq<Entry>, cap: nat, key: Bytes): Parsed {
    if u == [] || u[0] != COLON then Fail
    else
      var r := ParseValue(u[1..], nesting);
      if !r.Got? then r
      else
        var added := AddEntry(entries, cap, key, r.value);
        if added == None then Fail else EntriesOn(r.rest, nesting, added.value.0, added.value.1)
  }

  /** After an entry. */
  function EntriesOn(rest: Bytes, nesting: nat, entries: seq<Entry>, cap: nat): Parsed {
    var t := SkipSpaces(rest);
    if t != [] && t[0] == COMMA then ParseEntries(SkipSpaces(t[1..]), nesting, entries, cap)
    else ObjectEnd(t, entries)
  }

  function ObjectEnd(t: Bytes, entries: seq<Entry>): Parsed {
    if t != [] && t[0] == CLOSE_BRACE then Got(JObj(entries, |entries|), t[1..]) else Fail
  }

  /** `json_parse_string` */
  method JsonParseString(text: Bytes) returns (r: Outcome)
    requires NoNul(text)
    ensures match ParseText(text)
      case Got(v, _) => r == Built(v)
      case Fail => r == NoValue
  {
    var c := new Cursor(text);
    r := ParseJson(c, 0);
  }
}

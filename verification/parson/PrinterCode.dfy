/** The serializer as it runs: once without a buffer to count the bytes, and once to write them. */
module PrinterCode {
  import opened Bytes
  import opened Parser
  import opened Printer
  import opened Strings
  import opened Values

  /** From `at` on, `now` holds `text`; one byte after it may have been used for a NUL. */
  ghost predicate Wrote(now: Bytes, before: Bytes, at: nat, text: Bytes) {
    && at + |text| < |now| == |before|
    && now[..at] == before[..at]
    && now[at..at + |text|] == text
    && now[at + |text| + 1..] == before[at + |text| + 1..]
  }

  lemma WroteMore(now: Bytes, earlier: Bytes, before: Bytes, from: nat, done: Bytes, text: Bytes)
    requires Wrote(earlier, before, from, done) && |now| == |earlier| && from + |done| + |text| < |now|
    requires now[..from + |done|] == earlier[..from + |done|]
    requires now[from + |done|..from + |done| + |text|] == text
    requires now[from + |done| + |text| + 1..] == earlier[from + |done| + |text| + 1..]
    ensures Wrote(now, before, from, done + text)
  {
    var mid := from + |done|;
    assert now[from..mid] == now[..mid][from..] == earlier[..mid][from..] == earlier[from..mid];
    assert now[from..mid + |text|] == now[from..mid] + now[mid..mid + |text|];
    assert now[..from] == now[..mid][..from] == earlier[..mid][..from] == earlier[..from];
    assert earlier[mid + 1..][|text|..] == earlier[mid + |text| + 1..];
    assert before[mid + 1..][|text|..] == before[mid + |text| + 1..];
  }

  lemma {:induction false} IndentGrows(i: nat, level: nat)
    requires i < level
    ensures Indent(i + 1, true) == Indent(i, true) + [SPACE, SPACE, SPACE, SPACE]
    ensures |Indent(i, true)| + 4 <= |Indent(level, true)|
  {
    if i > 0 { IndentGrows(i - 1, level - 1); } else if level > 1 { IndentGrows(0, level - 1); }
  }

  /** The `buf` pointer as it moves: a place in a buffer, or NULL. */
  class Sink {
    const buf: array?<byte>
    var at: nat
    ghost const from: nat
    ghost const before: Bytes
    ghost var done: Bytes

    ghost predicate Valid()
      reads this, buf
    {
      && at == from + |done|
      && (buf != null ==> Wrote(buf[..], before, from, done))
    }

    constructor (buf: array?<byte>)
      requires buf != null ==> buf.Length > 0
      ensures Valid() && this.buf == buf && from == 0 && done == []
      ensures before == if buf == null then [] else buf[..]
    {
      this.buf, at, from, done := buf, 0, 0, [];
      before := if buf == null then [] else buf[..];
    }

    /** There is room for `n` bytes and a NUL. */
    predicate Room(n: nat)
      reads this
    {
      buf != null ==> at + n < buf.Length
    }

    /** `text` is written, and counted. */
    twostate predicate Appended(text: Bytes, written: nat)
      reads this, buf
    {
      Valid() && done == old(done) + text && at == old(at) + |text| && written == |text|
    }

    predicate Terminated()
      reads this, buf
    {
      buf != null ==> at < buf.Length && buf[at] == 0
    }

    /** `append_string`: `sprintf` of the text and its NUL, or only its length. */
    method Append(text: Bytes) returns (written: nat)
      requires Valid() && Room(|text|)
      modifies this, buf
      ensures Appended(text, written) && Terminated()
    {
      written := |text|;
      if buf != null {
        ghost var earlier := buf[..];
        forall k | 0 <= k < |text| { buf[at + k] := text[k]; }
        buf[at + |text|] := 0;
        WroteMore(buf[..], earlier, before, from, done, text);
      }
      at := at + written;
      done := done + text;
    }

    /** A byte stored as it is, with no NUL after it. */
    method Store(c: byte) returns (written: nat)
      requires Valid() && Room(1)
      modifies this, buf
      ensures Appended([c], written)
    {
      if buf != null {
        ghost var earlier := buf[..];
        buf[at] := c;
        WroteMore(buf[..], earlier, before, from, done, [c]);
      }
      written := 1;
      at := at + 1;
      done := done + [c];
    }

    /** `append_indent` */
    method AppendIndent(level: nat) returns (written: nat)
      requires Valid() && Room(|Indent(level, true)|)
      modifies this, buf
      ensures Appended(Indent(level, true), written)
    {
      hide Wrote;
      written := 0;
      var i := 0;
      while i < level
        invariant 0 <= i <= level && Appended(Indent(i, true), written)
      {
        IndentGrows(i, level);
        var w := Append([SPACE, SPACE, SPACE, SPACE]);
        written := written + w;
        i := i + 1;
      }
    }

    /** `json_serialize_string` */
    method SerializeString(s: Bytes) returns (written: nat)
      requires Valid() && Room(|Quoted(s)|)
      modifies this, buf
      ensures Appended(Quoted(s), written) && Terminated()
    {
      hide EscapeByte, Wrote;
      written := Append([QUOTE]);
      var i := 0;
      ghost var head: Bytes := [QUOTE];
      while i < |s|
        invariant 0 <= i <= |s| && Appended(head, written)
        invariant head + Escape(s[i..]) + [QUOTE] == Quoted(s)
      {
        ghost var piece := EscapeByte(s[i]);
        assert s[i..][1..] == s[i + 1..];
        assert head + (piece + Escape(s[i + 1..])) + [QUOTE] == head + piece + Escape(s[i + 1..]) + [QUOTE];
        var w := SerializeByte(s[i]);
        head := head + piece;
        written := written + w;
        i := i + 1;
      }
      assert head + [QUOTE] == Quoted(s);
      var w := Append([QUOTE]);
      written := written + w;
    }

    /** The switch of `json_serialize_string`. */
    method SerializeByte(c: byte) returns (written: nat)
      requires Valid() && Room(|EscapeByte(c)|)
      modifies this, buf
      ensures Appended(EscapeByte(c), written)
    {
      hide Wrote;
      if c == QUOTE || c == BACKSLASH || c == SLASH || c < 32 {
        written := Append(EscapeByte(c));
      } else {
        written := Store(c);
      }
    }

    /** `json_serialize_to_buffer_r`: without a buffer it returns what it would write with one. */
    method SerializeValue(v: Value, level: nat, pretty: bool) returns (written: nat)
      requires WellFormed(v) && Valid() && Room(|Print(v, level, pretty)|)
      modifies this, buf
      ensures Appended(Print(v, level, pretty), written) && Terminated()
      decreases v, 2
    {
      hide Wrote, PrintItems, PrintEntries, PrintNumber, Indent, Quoted;
      match v
      case JArr(items, _) =>
        written := SerializeArray(v, level, pretty);
      case JObj(entries, _) =>
        written := SerializeObject(v, level, pretty);
      case JStr(s) =>
        written := SerializeString(s);
      case JBool(b) =>
        if b { written := Append(TRUE); } else { written := Append(FALSE); }
      case JNum(n) =>
        written := Append(PrintNumber(n));
      case JNull =>
        written := Append(NULL);
    }

    method MaybeIndent(level: nat, pretty: bool) returns (written: nat)
      requires Valid() && Room(|Indent(level, pretty)|)
      modifies this, buf
      ensures Appended(Indent(level, pretty), written)
    {
      hide Wrote;
      written := 0;
      if pretty { written := AppendIndent(level); }
    }

    method MaybeAppend(text: Bytes, wanted: bool) returns (written: nat)
      requires Valid() && (wanted ==> Room(|text|))
      modifies this, buf
      ensures Appended(if wanted then text else [], written)
    {
      hide Wrote;
      written := 0;
      if wanted { written := Append(text); }
    }

    method SerializeArray(v: Value, level: nat, pretty: bool) returns (written: nat)
      requires v.JArr? && WellFormed(v) && Valid() && Room(|Print(v, level, pretty)|)
      modifies this, buf
      ensures Appended(Print(v, level, pretty), written) && Terminated()
      decreases v, 1
    {
      hide Wrote, PrintItems, PrintEntries, Print, Indent;
      ArrayText(v, level, pretty);
      var filled := |v.items| > 0 && pretty;
      written := Append([OPEN_BRACKET]);
      var w := MaybeAppend([NEWLINE], filled);
      written := written + w;
      w := SerializeItems(v.items, level, pretty);
      written := written + w;
      w := MaybeIndent(level, filled);
      written := written + w;
      w := Append([CLOSE_BRACKET]);
      written := written + w;
    }

    /** The loop over an array. */
    method SerializeItems(items: seq<Value>, level: nat, pretty: bool) returns (written: nat)
      requires (forall k :: 0 <= k < |items| ==> WellFormed(items[k]))
      requires Valid() && Room(|PrintItems(items, level, pretty)|)
      modifies this, buf
      ensures Appended(PrintItems(items, level, pretty), written)
      decreases items, 4
    {
      hide Wrote, WellFormed, PrintItem, PrintItems;
      written := 0;
      ghost var head: Bytes := [];
      var i := 0;
      assert items[0..] == items;
      while i < |items|
        invariant 0 <= i <= |items| && Appended(head, written)
        invariant head + PrintItems(items[i..], level, pretty) == PrintItems(items, level, pretty)
      {
        ItemsStep(items, i, level, pretty);
        var w := SerializeItem(items[i], i == |items| - 1, level, pretty);
        head := head + PrintItem(items[i], i == |items| - 1, level, pretty);
        written := written + w;
        i := i + 1;
      }
      assert items[i..] == [];
      NoItems(level, pretty);
      assert head + [] == head;
    }

    method SerializeItem(v: Value, last: bool, level: nat, pretty: bool) returns (written: nat)
      requires WellFormed(v) && Valid() && Room(|PrintItem(v, last, level, pretty)|)
      modifies this, buf
      ensures Appended(PrintItem(v, last, level, pretty), written)
      decreases v, 3
    {
      hide Wrote, Print, Indent, WellFormed;
      written := MaybeIndent(level + 1, pretty);
      var w := SerializeValue(v, level + 1, pretty);
      written := written + w;
      w := AppendSeparator(last, pretty);
      written := written + w;
    }

    method AppendSeparator(last: bool, pretty: bool) returns (written: nat)
      requires Valid() && Room(|Separator(last, pretty)|)
      modifies this, buf
      ensures Appended(Separator(last, pretty), written)
    {
      hide Wrote;
      written := MaybeAppend([COMMA], !last);
      var w := MaybeAppend([NEWLINE], pretty);
      written := written + w;
    }

    method SerializeObject(v: Value, level: nat, pretty: bool) returns (written: nat)
      requires v.JObj? && WellFormed(v) && Valid() && Room(|Print(v, level, pretty)|)
      modifies this, buf
      ensures Appended(Print(v, level, pretty), written) && Terminated()
      decreases v, 1
    {
      hide Wrote, PrintItems, PrintEntries, Print, Indent;
      ObjectText(v, level, pretty);
      var filled := |v.entries| > 0 && pretty;
      written := Append([OPEN_BRACE]);
      var w := MaybeAppend([NEWLINE], filled);
      written := written + w;
      w := SerializeEntries(v.entries, level, pretty);
      written := written + w;
      w := MaybeIndent(level, filled);
      written := written + w;
      w := Append([CLOSE_BRACE]);
      written := written + w;
    }

    /** The loop over an object; each value is looked up by its key. */
    method SerializeEntries(entries: seq<Entry>, level: nat, pretty: bool) returns (written: nat)
      requires (forall k :: 0 <= k < |entries| ==> WellFormed(entries[k].value)) && Unique(entries)
      requires Valid() && Room(|PrintEntries(entries, level, pretty)|)
      modifies this, buf
      ensures Appended(PrintEntries(entries, level, pretty), written)
      decreases entries, 4
    {
      hide Wrote, WellFormed, PrintEntry, PrintEntries;
      written := 0;
      ghost var head: Bytes := [];
      var i := 0;
      assert entries[0..] == entries;
      while i < |entries|
        invariant 0 <= i <= |entries| && Appended(head, written)
        invariant head + PrintEntries(entries[i..], level, pretty) == PrintEntries(entries, level, pretty)
      {
        EntriesStep(entries, i, level, pretty);
        var key := entries[i].name;
        GetOwn(entries, i);
        var w := SerializeEntry(Entry(key, Get(entries, key).value), i == |entries| - 1, level, pretty);
        head := head + PrintEntry(entries[i], i == |entries| - 1, level, pretty);
        written := written + w;
        i := i + 1;
      }
      assert entries[i..] == [];
      NoItems(level, pretty);
      assert head + [] == head;
    }

    method SerializeEntry(e: Entry, last: bool, level: nat, pretty: bool) returns (written: nat)
      requires WellFormed(e.value) && Valid() && Room(|PrintEntry(e, last, level, pretty)|)
      modifies this, buf
      ensures Appended(PrintEntry(e, last, level, pretty), written)
      decreases e, 3
    {
      hide Wrote, Print, Indent, WellFormed, PrintPair;
      written := MaybeIndent(level + 1, pretty);
      var w := SerializePair(e, level, pretty);
      written := written + w;
      w := AppendSeparator(last, pretty);
      written := written + w;
    }

    method SerializePair(e: Entry, level: nat, pretty: bool) returns (written: nat)
      requires WellFormed(e.value) && Valid() && Room(|PrintPair(e, level, pretty)|)
      modifies this, buf
      ensures Appended(PrintPair(e, level, pretty), written)
      decreases e, 2
    {
      hide Wrote, Print, WellFormed, Quoted;
      written := SerializeString(e.name);
      var w := Append([COLON]);
      written := written + w;
      w := MaybeAppend([SPACE], pretty);
      written := written + w;
      w := SerializeValue(e.value, level + 1, pretty);
      written := written + w;
    }
  }

  lemma ArrayText(v: Value, level: nat, pretty: bool)
    requires v.JArr?
    ensures var filled := |v.items| > 0 && pretty;
      Print(v, level, pretty) == [OPEN_BRACKET] + (if filled then [NEWLINE] else []) +
        PrintItems(v.items, level, pretty) + Indent(level, filled) + [CLOSE_BRACKET]
  {
  }

  lemma ObjectText(v: Value, level: nat, pretty: bool)
    requires v.JObj?
    ensures var filled := |v.entries| > 0 && pretty;
      Print(v, level, pretty) == [OPEN_BRACE] + (if filled then [NEWLINE] else []) +
        PrintEntries(v.entries, level, pretty) + Indent(level, filled) + [CLOSE_BRACE]
  {
  }

  lemma ItemsStep(items: seq<Value>, i: nat, level: nat, pretty: bool)
    requires i < |items|
    ensures PrintItems(items[i..], level, pretty) ==
      PrintItem(items[i], i == |items| - 1, level, pretty) + PrintItems(items[i + 1..], level, pretty)
  {
    hide PrintItem;
    assert items[i..][1..] == items[i + 1..];
  }

  lemma EntriesStep(entries: seq<Entry>, i: nat, level: nat, pretty: bool)
    requires i < |entries|
    ensures PrintEntries(entries[i..], level, pretty) ==
      PrintEntry(entries[i], i == |entries| - 1, level, pretty) + PrintEntries(entries[i + 1..], level, pretty)
  {
    hide PrintEntry;
    assert entries[i..][1..] == entries[i + 1..];
  }

  lemma NoItems(level: nat, pretty: bool)
    ensures PrintItems([], level, pretty) == [] && PrintEntries([], level, pretty) == []
  {
  }

  // The callers

  /** `json_serialization_size` and its pretty form. */
  method SerializationSize(v: Value, pretty: bool) returns (size: nat)
    requires WellFormed(v)
    ensures size == |Print(v, 0, pretty)| + 1
  {
    var sink := new Sink(null);
    var written := sink.SerializeValue(v, 0, pretty);
    size := written + 1;
  }

  /** `json_serialize_to_buffer`: what the sizing pass counted is what is written, and it fits. */
  method SerializeToBuffer(v: Value, buf: array<byte>, pretty: bool) returns (ok: bool)
    requires WellFormed(v)
    modifies buf
    ensures ok <==> buf.Length > |Print(v, 0, pretty)|
    ensures ok ==> buf[..|Print(v, 0, pretty)|] == Print(v, 0, pretty) && buf[|Print(v, 0, pretty)|] == 0
    ensures ok ==> buf[|Print(v, 0, pretty)| + 1..] == old(buf[|Print(v, 0, pretty)| + 1..])
    ensures !ok ==> buf[..] == old(buf[..])
  {
    hide Print, WellFormed;
    var needed := SerializationSize(v, pretty);
    if buf.Length < needed { return false; }
    var sink := new Sink(buf);
    var written := sink.SerializeValue(v, 0, pretty);
    assert [] + Print(v, 0, pretty) == Print(v, 0, pretty);
    ok := true;
  }

  /** `json_serialize_to_string`: the text and its NUL fill the buffer exactly. */
  method SerializeToString(v: Value, pretty: bool) returns (text: array<byte>)
    requires WellFormed(v)
    ensures fresh(text) && text[..] == Print(v, 0, pretty) + [0]
  {
    hide Print, WellFormed;
    var size := SerializationSize(v, pretty);
    text := new byte[size];
    var ok := SerializeToBuffer(v, text, pretty);
  }
}

/** The parser reads a string exactly where a literal of the grammar is written. */
module GrammarStrings {
  import opened Bytes
  import G = Grammar
  import opened Strings
  import opened Utf8

  // Hexadecimal digits

  lemma HexWritten(h: G.Hex)
    requires h.value < 16
    ensures IsHex(G.WriteHex(h)) && HexValue(G.WriteHex(h)) == h.value
    ensures G.WriteHex(h) != QUOTE && G.WriteHex(h) != BACKSLASH
  {
    var v := h.value;
    if v < 10 {
      assert G.WriteHex(h) == 48 + v;
    } else {
      assert G.WriteHex(h) == if h.upper then 55 + v else 87 + v;
    }
  }

  lemma HexFound(b: byte) returns (h: G.Hex)
    requires IsHex(b)
    ensures h.value < 16 && G.WriteHex(h) == b
  {
    h := G.Hex(HexValue(b), b <= 70);
    var v := h.value;
    if v < 10 {
      assert G.WriteHex(h) == 48 + v;
    } else {
      assert G.WriteHex(h) == if h.upper then 55 + v else 87 + v;
    }
  }

  lemma UnitWritten(digits: seq<G.Hex>, u: Bytes)
    requires G.FourDigits(digits)
    ensures var s := G.WriteUnit(digits) + u;
      && s[0] == BACKSLASH && s[1] == LETTER_U && FourHex(s[2..]) && HexNumber(s[2..]) == G.Unit16(digits) && s[6..] == u
      && RawLength(s) == Plus(6, RawLength(u))
  {
    hide RawLength, G.WriteHex, HexValue, IsHex;
    var s := G.WriteUnit(digits) + u;
    forall i | 0 <= i < 4
      ensures s[2..][i] == G.WriteHex(digits[i]) && IsHex(s[2..][i]) && HexValue(s[2..][i]) == digits[i].value
      ensures s[2..][i] != QUOTE && s[2..][i] != BACKSLASH
    {
      HexWritten(digits[i]);
    }
    Unit16Is(s[2..], digits);
    RawStep(s);
    var four := s[2..6];
    assert s[2..] == four + u && forall i :: 0 <= i < 4 ==> four[i] == s[2..][i];
    RawPastPlain(four, u);
  }

  lemma Unit16Is(s: Bytes, digits: seq<G.Hex>)
    requires FourHex(s) && G.FourDigits(digits) && forall i :: 0 <= i < 4 ==> HexValue(s[i]) == digits[i].value
    ensures HexNumber(s) == G.Unit16(digits)
  {
    hide HexValue, IsHex;
  }

  lemma UnitFound(s: Bytes) returns (digits: seq<G.Hex>)
    requires |s| >= 6 && s[0] == BACKSLASH && s[1] == LETTER_U && FourHex(s[2..])
    ensures G.FourDigits(digits) && s == G.WriteUnit(digits) + s[6..] && HexNumber(s[2..]) == G.Unit16(digits)
  {
    hide HexValue, IsHex, RawLength, G.WriteHex, HexNumber;
    var a := HexFound(s[2..][0]);
    var b := HexFound(s[2..][1]);
    var c := HexFound(s[2..][2]);
    var d := HexFound(s[2..][3]);
    digits := [a, b, c, d];
    assert s[..6] == G.WriteUnit(digits);
    UnitWritten(digits, s[6..]);
  }

  // One byte or escape

  lemma ShortWritten(letter: char)
    requires G.ShortByte(letter).Some?
    ensures Simple(G.Code(letter)) == Some(G.ShortByte(letter).value) && G.Code(letter) != LETTER_U
  {
  }

  lemma ShortFound(b: byte) returns (letter: char)
    requires Simple(b).Some?
    ensures G.ShortByte(letter).Some? && G.Code(letter) == b && G.ShortByte(letter) == Simple(b)
  {
    letter := if b == QUOTE then '"' else if b == BACKSLASH then '\\' else if b == SLASH then '/'
      else if b == LETTER_B then 'b' else if b == LETTER_F then 'f' else if b == LETTER_N then 'n'
      else if b == LETTER_R then 'r' else 't';
  }

  lemma CharWritten(c: G.Char, u: Bytes)
    requires G.GoodChar(c)
    ensures var s := G.WriteChar(c) + u;
      && s[|G.WriteChar(c)|..] == u && s[0] != QUOTE
      && RawLength(s) == Plus(|G.WriteChar(c)|, RawLength(u))
      && Unescape(s) == Prepend(G.ReadChar(c), Unescape(u))
  {
    hide RawLength, Encode, G.WriteUnit, G.Unit16, FourHex, HexNumber;
    var s := G.WriteChar(c) + u;
    RawStep(s);
    match c
    case Plain(b) => SimpleWritten(c, u);
    case Short(letter) => SimpleWritten(c, u);
    case Unit(digits) => UnitWritten(digits, u);
    case Surrogates(lead, trail) =>
      UnitWritten(trail, u);
      assert s == G.WriteUnit(lead) + (G.WriteUnit(trail) + u);
      UnitWritten(lead, G.WriteUnit(trail) + u);
      PairRead(s, lead, trail, u);
  }

  lemma SimpleWritten(c: G.Char, u: Bytes)
    requires G.GoodChar(c) && (c.Plain? || c.Short?)
    ensures var s := G.WriteChar(c) + u;
      && s[|G.WriteChar(c)|..] == u && s[0] != QUOTE
      && RawLength(s) == Plus(|G.WriteChar(c)|, RawLength(u))
      && Unescape(s) == Prepend(G.ReadChar(c), Unescape(u))
  {
    hide RawLength;
    var s := G.WriteChar(c) + u;
    RawStep(s);
    if c.Plain? {
      assert s[1..] == u;
    } else {
      ShortWritten(c.letter);
      assert s[2..] == u;
    }
  }

  lemma PairRead(s: Bytes, lead: seq<G.Hex>, trail: seq<G.Hex>, u: Bytes)
    requires G.GoodChar(G.Surrogates(lead, trail)) && s == G.WriteUnit(lead) + (G.WriteUnit(trail) + u)
    ensures CodePoint(s).Some? && CodePoint(s).value.1 == 12
    ensures CodePoint(s).value.0 == 0x10000 + (G.Unit16(lead) - 0xD800) * 0x400 + (G.Unit16(trail) - 0xDC00)
    ensures s[0] == BACKSLASH && s[1] == LETTER_U && s[12..] == u
  {
    hide RawLength, G.WriteUnit, G.Unit16, FourHex, HexNumber;
    var t := G.WriteUnit(trail) + u;
    UnitWritten(lead, t);
    UnitWritten(trail, u);
    assert s[6..] == t && s[6] == t[0] && s[7] == t[1];
    assert s[8..] == t[2..] && s[12..] == t[6..];
  }

  lemma CharFound(raw: Bytes) returns (c: G.Char)
    requires raw != [] && raw[0] != QUOTE && Unescape(raw).Some?
    ensures G.GoodChar(c) && G.WriteChar(c) <= raw
  {
    hide RawLength, Encode, G.WriteUnit, G.Unit16, FourHex, HexNumber;
    if raw[0] != BACKSLASH {
      c := G.Plain(raw[0]);
    } else if raw[1] != LETTER_U {
      var letter := ShortFound(raw[1]);
      c := G.Short(letter);
    } else {
      c := EscapeFound(raw);
    }
  }

  lemma EscapeFound(raw: Bytes) returns (c: G.Char)
    requires |raw| >= 2 && raw[0] == BACKSLASH && raw[1] == LETTER_U && CodePoint(raw).Some?
    ensures G.GoodChar(c) && G.WriteChar(c) <= raw
  {
    hide RawLength, G.WriteUnit, G.Unit16, FourHex, HexNumber;
    var lead := UnitFound(raw);
    if CodePoint(raw).value.1 == 6 {
      c := G.Unit(lead);
    } else {
      var t := raw[6..];
      assert t[2..] == raw[8..];
      var trail := UnitFound(t);
      c := G.Surrogates(lead, trail);
      assert t[6..] == raw[12..];
      assert raw == G.WriteUnit(lead) + G.WriteUnit(trail) + raw[12..];
    }
  }

  // Whole literals

  lemma {:induction false} CharsWritten(chars: seq<G.Char>, rest: Bytes)
    requires G.GoodChars(chars)
    ensures RawLength(G.WriteChars(chars) + [QUOTE] + rest) == Some(|G.WriteChars(chars)|)
    ensures Unescape(G.WriteChars(chars)) == Some(G.ReadChars(chars))
  {
    hide RawLength, Unescape, G.WriteChar, G.ReadChar, G.GoodChar;
    if chars == [] {
      assert [] + [QUOTE] + rest == [QUOTE] + rest;
      RawStep([QUOTE] + rest);
      assert Unescape([]) == Some([]) by { UnescapeNothing(); }
    } else {
      CharsWritten(chars[1..], rest);
      var u := G.WriteChars(chars[1..]) + [QUOTE] + rest;
      assert G.WriteChars(chars) + [QUOTE] + rest == G.WriteChar(chars[0]) + u;
      CharWritten(chars[0], u);
      CharWritten(chars[0], G.WriteChars(chars[1..]));
    }
  }

  lemma UnescapeNothing()
    ensures Unescape([]) == Some([])
  {
  }

  lemma {:induction false} CharsFound(raw: Bytes, rest: Bytes) returns (chars: seq<G.Char>)
    requires RawLength(raw + [QUOTE] + rest) == Some(|raw|) && Unescape(raw).Some?
    ensures G.GoodChars(chars) && raw == G.WriteChars(chars) && Unescape(raw) == Some(G.ReadChars(chars))
    decreases |raw|
  {
    hide RawLength, Unescape, G.WriteChar, G.ReadChar, G.GoodChar;
    if raw == [] {
      chars := [];
      UnescapeNothing();
    } else {
      RawStep(raw + [QUOTE] + rest);
      assert (raw + [QUOTE] + rest)[0] == raw[0];
      var c := CharFound(raw);
      var later := raw[|G.WriteChar(c)|..];
      assert raw == G.WriteChar(c) + later;
      CharWritten(c, later);
      CharWritten(c, later + [QUOTE] + rest);
      assert raw + [QUOTE] + rest == G.WriteChar(c) + (later + [QUOTE] + rest);
      var more := CharsFound(later, rest);
      chars := [c] + more;
      assert chars[1..] == more;
    }
  }

  /** A literal is read as the string it stands for, */
  lemma TextReads(chars: seq<G.Char>, rest: Bytes)
    requires G.GoodChars(chars)
    ensures QuotedString(G.WriteText(chars) + rest) == Some((G.ReadText(chars), rest))
  {
    hide RawLength, Unescape, G.WriteChars, G.ReadChars;
    var w := G.WriteChars(chars);
    var s := G.WriteText(chars) + rest;
    CharsWritten(chars, rest);
    assert s[1..] == w + [QUOTE] + rest;
    assert s[1..|w| + 1] == w && s[|w| + 2..] == rest;
  }

  /** and nothing else is read as a string. */
  lemma TextFound(s: Bytes) returns (chars: seq<G.Char>)
    requires QuotedString(s).Some?
    ensures G.GoodChars(chars) && QuotedString(s).value.0 == G.ReadText(chars)
    ensures s == G.WriteText(chars) + QuotedString(s).value.1
  {
    hide RawLength, Unescape, G.WriteChars, G.ReadChars;
    var n := RawLength(s[1..]).value;
    var raw, rest := s[1..n + 1], s[n + 2..];
    assert s[1..] == raw + [QUOTE] + rest;
    chars := CharsFound(raw, rest);
  }
}

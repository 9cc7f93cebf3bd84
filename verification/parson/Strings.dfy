/** String literals: escaping, and reading the escapes back (RFC 8259, section 7). */
module Strings {
  import opened Bytes
  import opened Utf8

  // Writing

  const LETTER_B: byte := 98
  const LETTER_F: byte := 102
  const LETTER_N: byte := 110
  const LETTER_R: byte := 114
  const LETTER_T: byte := 116
  const LETTER_U: byte := 117

  function HexDigit(d: nat): (r: byte)
    requires d < 16
    ensures IsHex(r) && HexValue(r) == d
  {
    if d < 10 then 48 + d else 87 + d
  }

  /** What `json_serialize_string` writes for a byte. */
  function EscapeByte(b: byte): Bytes {
    if b == QUOTE || b == BACKSLASH || b == SLASH then [BACKSLASH, b]
    else if b == 8 then [BACKSLASH, LETTER_B]
    else if b == 12 then [BACKSLASH, LETTER_F]
    else if b == 10 then [BACKSLASH, LETTER_N]
    else if b == 13 then [BACKSLASH, LETTER_R]
    else if b == 9 then [BACKSLASH, LETTER_T]
    else if b < 32 then [BACKSLASH, LETTER_U, ZERO, ZERO, HexDigit(b / 16), HexDigit(b % 16)]
    else [b]
  }

  function Escape(s: Bytes): Bytes {
    if s == [] then [] else EscapeByte(s[0]) + Escape(s[1..])
  }

  function Quoted(s: Bytes): Bytes { [QUOTE] + Escape(s) + [QUOTE] }

  // Reading

  function Plus(k: nat, r: Option<nat>): Option<nat> {
    match r
    case None => None
    case Some(n) => Some(k + n)
  }

  /** How many bytes there are before the closing quote. */
  function RawLength(s: Bytes): (r: Option<nat>)
    ensures r.Some? ==> r.value < |s| && s[r.value] == QUOTE
  {
    if s == [] then None
    else if s[0] == QUOTE then Some(0)
    else if s[0] == BACKSLASH then
      if |s| == 1 then None else Plus(2, RawLength(s[2..]))
    else Plus(1, RawLength(s[1..]))
  }

  lemma RawStep(s: Bytes)
    ensures s == [] ==> RawLength(s) == None
    ensures s != [] && s[0] == QUOTE ==> RawLength(s) == Some(0)
    ensures s != [] && s[0] == BACKSLASH ==> RawLength(s) == if |s| == 1 then None else Plus(2, RawLength(s[2..]))
    ensures s != [] && s[0] != QUOTE && s[0] != BACKSLASH ==> RawLength(s) == Plus(1, RawLength(s[1..]))
  {
  }

  predicate FourHex(s: Bytes) { |s| >= 4 && forall i :: 0 <= i < 4 ==> IsHex(s[i]) }

  function HexNumber(s: Bytes): (r: nat)
    requires FourHex(s)
    ensures r < 0x10000
  {
    ((HexValue(s[0]) * 16 + HexValue(s[1])) * 16 + HexValue(s[2])) * 16 + HexValue(s[3])
  }

  /** The code point of the escape or surrogate pair at the front, and the length it takes. */
  function CodePoint(s: Bytes): (r: Option<(nat, nat)>)
    requires |s| >= 2
    ensures r.Some? ==> IsScalar(r.value.0) && 6 <= r.value.1 <= |s|
  {
    if !FourHex(s[2..]) then None
    else
      var lead := HexNumber(s[2..]);
      if lead < 0xD800 || lead > 0xDFFF then Some((lead, 6))
      else if lead > 0xDBFF then None
      else if |s| < 8 || s[6] != BACKSLASH || s[7] != LETTER_U || !FourHex(s[8..]) then None
      else
        var trail := HexNumber(s[8..]);
        if trail < 0xDC00 || trail > 0xDFFF then None
        else Some((0x10000 + (lead - 0xD800) * 0x400 + (trail - 0xDC00), 12))
  }

  /** The byte an escape of one letter stands for. */
  function Simple(b: byte): Option<byte> {
    if b == QUOTE || b == BACKSLASH || b == SLASH then Some(b)
    else if b == LETTER_B then Some(8)
    else if b == LETTER_F then Some(12)
    else if b == LETTER_N then Some(10)
    else if b == LETTER_R then Some(13)
    else if b == LETTER_T then Some(9)
    else None
  }

  function Prepend(s: Bytes, r: Option<Bytes>): Option<Bytes> {
    match r
    case None => None
    case Some(t) => Some(s + t)
  }

  /** What `process_string` makes of the bytes between the quotes. */
  function Unescape(raw: Bytes): Option<Bytes>
    decreases |raw|
  {
    if raw == [] then Some([])
    else if raw[0] == BACKSLASH then
      if |raw| == 1 then None
      else if raw[1] == LETTER_U then
        match CodePoint(raw)
        case None => None
        case Some((cp, used)) => Prepend(Encode(cp), Unescape(raw[used..]))
      else
        match Simple(raw[1])
        case None => None
        case Some(b) => Prepend([b], Unescape(raw[2..]))
    else if raw[0] < 32 then None
    else Prepend([raw[0]], Unescape(raw[1..]))
  }

  /** `get_quoted_string`: the string, as C sees it, and what follows its closing quote. */
  function QuotedString(s: Bytes): (r: Option<(Bytes, Bytes)>)
    ensures r.Some? ==> NoNul(r.value.0) && |r.value.1| < |s|
  {
    if s == [] || s[0] != QUOTE then None
    else
      match RawLength(s[1..])
      case None => None
      case Some(n) =>
        match Unescape(s[1..n + 1])
        case None => None
        case Some(text) => Some((CString(text), s[n + 2..]))
  }

  // Reading back what was written

  lemma RawPastByte(b: byte, rest: Bytes)
    ensures RawLength(EscapeByte(b) + rest) == Plus(|EscapeByte(b)|, RawLength(rest))
  {
    hide RawLength;
    var e := EscapeByte(b);
    RawStep(e + rest);
    if e[0] == BACKSLASH {
      assert (e + rest)[2..] == e[2..] + rest;
      if |e| == 6 {
        RawPastPlain(e[2..], rest);
      } else {
        assert e[2..] + rest == rest;
      }
    } else {
      assert (e + rest)[1..] == rest;
    }
  }

  lemma {:induction false} RawPastPlain(s: Bytes, rest: Bytes)
    requires forall i :: 0 <= i < |s| ==> s[i] != QUOTE && s[i] != BACKSLASH
    ensures RawLength(s + rest) == Plus(|s|, RawLength(rest))
  {
    if s == [] {
      assert s + rest == rest;
    } else {
      assert (s + rest)[1..] == s[1..] + rest;
      RawPastPlain(s[1..], rest);
    }
  }

  lemma {:induction false} RawOfEscaped(s: Bytes, rest: Bytes)
    ensures RawLength(Escape(s) + [QUOTE] + rest) == Some(|Escape(s)|)
  {
    hide EscapeByte;
    if s == [] {
      assert Escape(s) + [QUOTE] + rest == [QUOTE] + rest;
    } else {
      RawOfEscaped(s[1..], rest);
      RawPastByte(s[0], Escape(s[1..]) + [QUOTE] + rest);
      assert Escape(s) + [QUOTE] + rest == EscapeByte(s[0]) + (Escape(s[1..]) + [QUOTE] + rest);
    }
  }

  lemma UnescapeByte(b: byte, rest: Bytes)
    ensures Unescape(EscapeByte(b) + rest) == Prepend([b], Unescape(rest))
  {
    var raw := EscapeByte(b) + rest;
    if |EscapeByte(b)| == 6 {
      assert HexNumber(raw[2..]) == b;
      assert CodePoint(raw).value == (b as nat, 6);
      assert raw[6..] == rest;
    } else if |EscapeByte(b)| == 2 {
      assert raw[2..] == rest;
    } else {
      assert raw[1..] == rest;
    }
  }

  lemma {:induction false} UnescapeEscaped(s: Bytes)
    ensures Unescape(Escape(s)) == Some(s)
  {
    if s != [] {
      UnescapeByte(s[0], Escape(s[1..]));
      UnescapeEscaped(s[1..]);
      assert [s[0]] + s[1..] == s;
    }
  }

  /** A written string reads back as itself. */
  lemma QuotedBack(s: Bytes, rest: Bytes)
    requires NoNul(s)
    ensures QuotedString(Quoted(s) + rest) == Some((s, rest))
  {
    hide Escape, Unescape, RawLength;
    var t, n := Quoted(s) + rest, |Escape(s)|;
    assert t[1..] == Escape(s) + [QUOTE] + rest;
    RawOfEscaped(s, rest);
    assert t[1..n + 1] == Escape(s);
    UnescapeEscaped(s);
    CStringOfNoNul(s);
    assert t[n + 2..] == rest;
  }

  // The escapes of a code point

  function FourDigits(n: nat): (r: Bytes)
    requires n < 0x10000
    ensures |r| == 4
  {
    [HexDigit(n / 0x1000), HexDigit(n / 0x100 % 16), HexDigit(n / 16 % 16), HexDigit(n % 16)]
  }

  /** The four digits of a number, each in either case. */
  ghost predicate Spelt(digits: Bytes, n: nat) {
    n < 0x10000 && |digits| == 4 && forall i :: 0 <= i < 4 ==> LowerCase(digits[i]) == FourDigits(n)[i]
  }

  function LowerCase(b: byte): byte { if 65 <= b <= 90 then b + 32 else b }

  /** A code point as section 7 of RFC 8259 escapes it: beyond 0xFFFF as a surrogate pair (section 2.2 of RFC 2781). */
  ghost predicate EscapesPoint(e: Bytes, cp: nat)
    requires IsScalar(cp)
  {
    if cp < 0x10000 then |e| == 6 && e[..2] == [BACKSLASH, LETTER_U] && Spelt(e[2..], cp)
    else
      var u := cp - 0x10000;
      && |e| == 12 && e[..2] == [BACKSLASH, LETTER_U] && Spelt(e[2..6], 0xD800 + u / 0x400)
      && e[6..8] == [BACKSLASH, LETTER_U] && Spelt(e[8..], 0xDC00 + u % 0x400)
  }

  lemma EitherCase(b: byte, v: nat)
    requires v < 16 && LowerCase(b) == HexDigit(v)
    ensures IsHex(b) && HexValue(b) == v
  {
  }

  lemma DigitsOf(digits: Bytes, n: nat)
    requires Spelt(digits, n)
    ensures FourHex(digits) && HexNumber(digits) == n
  {
    hide LowerCase, HexValue, HexDigit, IsHex;
    var a, b, c := n / 0x1000, n / 0x100, n / 16;
    assert b == a * 16 + b % 16 && c == b * 16 + c % 16 && n == c * 16 + n % 16;
    EitherCase(digits[0], a);
    EitherCase(digits[1], b % 16);
    EitherCase(digits[2], c % 16);
    EitherCase(digits[3], n % 16);
  }

  lemma FirstFour(s: Bytes, rest: Bytes)
    requires |s| == 4
    ensures FourHex(s + rest) <==> FourHex(s)
    ensures FourHex(s) ==> HexNumber(s + rest) == HexNumber(s)
  {
    assert forall i :: 0 <= i < 4 ==> (s + rest)[i] == s[i];
  }

  /** Every code point's escape, with digits in either case, is read as that code point, and its UTF-8 is what is
      written for it. */
  lemma PointBack(cp: nat, e: Bytes, rest: Bytes)
    requires IsScalar(cp) && EscapesPoint(e, cp)
    ensures var s := e + rest;
      && CodePoint(s).Some? && CodePoint(s).value.0 == cp && CodePoint(s).value.1 == |e|
      && Unescape(s) == Prepend(Encode(cp), Unescape(rest))
  {
    hide FourDigits, FourHex, HexNumber, Encode, Spelt;
    var s := e + rest;
    assert s[|e|..] == rest && s[0] == e[..2][0] && s[1] == e[..2][1];
    if cp < 0x10000 {
      assert s[2..] == e[2..] + rest;
      DigitsOf(e[2..], cp);
      FirstFour(e[2..], rest);
    } else {
      var lead, trail := 0xD800 + (cp - 0x10000) / 0x400, 0xDC00 + (cp - 0x10000) % 0x400;
      assert s[2..] == e[2..6] + (e[6..] + rest) && s[8..] == e[8..] + rest;
      assert s[6] == e[6..8][0] && s[7] == e[6..8][1];
      DigitsOf(e[2..6], lead);
      DigitsOf(e[8..], trail);
      FirstFour(e[2..6], e[6..] + rest);
      FirstFour(e[8..], rest);
    }
  }

  // What the escapes mean

  /** The code points of a literal, each escape read by `CodePoint`; `PointBack` says that these are the escapes
      of section 7 of RFC 8259. */
  function Meaning(raw: Bytes): Option<seq<nat>>
    decreases |raw|
  {
    if raw == [] then Some([])
    else if raw[0] == BACKSLASH then
      if |raw| == 1 then None
      else if raw[1] == LETTER_U then
        match CodePoint(raw)
        case None => None
        case Some((cp, used)) => Then(cp, Meaning(raw[used..]))
      else
        match Simple(raw[1])
        case None => None
        case Some(b) => Then(b, Meaning(raw[2..]))
    else if raw[0] < 32 then None
    else
      match Verify(raw)
      case None => None
      case Some((cp, len)) => Accepted(raw); Then(cp, Meaning(raw[len..]))
  }

  function Then(cp: nat, r: Option<seq<nat>>): Option<seq<nat>> {
    match r
    case None => None
    case Some(cps) => Some([cp] + cps)
  }

  lemma {:induction false} UnescapeCopies(s: Bytes, rest: Bytes)
    requires forall i :: 0 <= i < |s| ==> s[i] >= 32 && s[i] != BACKSLASH
    ensures Unescape(s + rest) == Prepend(s, Unescape(rest))
  {
    if s == [] {
      assert s + rest == rest;
      assert Unescape(rest).Some? ==> s + Unescape(rest).value == Unescape(rest).value;
    } else {
      assert (s + rest)[1..] == s[1..] + rest;
      UnescapeCopies(s[1..], rest);
      assert Unescape(rest).Some? ==> [s[0]] + (s[1..] + Unescape(rest).value) == s + Unescape(rest).value;
    }
  }

  ghost predicate Encodes(r: Option<Bytes>, m: Option<seq<nat>>) {
    match m
    case None => r == None
    case Some(cps) => AllScalar(cps) && r == Some(EncodeAll(cps))
  }

  lemma EncodesMore(cp: nat, r: Option<Bytes>, m: Option<seq<nat>>)
    requires IsScalar(cp) && Encodes(r, m)
    ensures Encodes(Prepend(Encode(cp), r), Then(cp, m))
  {
    if m.Some? {
      assert ([cp] + m.value)[1..] == m.value;
    }
  }

  /** On valid UTF-8, the result is the encoding of what the literal means. */
  lemma {:induction false} UnescapeMeans(raw: Bytes)
    requires IsValid(raw)
    ensures Encodes(Unescape(raw), Meaning(raw))
    decreases |raw|
  {
    hide CodePoint, Verify, Encodes, Encode, IsValid;
    if raw == [] {
      EncodesNothing();
    } else if raw[0] == BACKSLASH {
      if |raw| > 1 { UnescapeMeansEscape(raw); } else { EncodesNothing(); }
    } else {
      UnescapeMeansPlain(raw);
    }
  }

  lemma EncodesNothing()
    ensures Encodes(Some([]), Some([])) && Encodes(None, None)
  {
  }

  lemma {:induction false} UnescapeMeansEscape(raw: Bytes)
    requires IsValid(raw) && |raw| > 1 && raw[0] == BACKSLASH
    ensures Encodes(Unescape(raw), Meaning(raw))
    decreases |raw|, 0
  {
    hide CodePoint, Verify, Encodes, Encode, IsValid;
    EncodesNothing();
    if raw[1] == LETTER_U {
      if CodePoint(raw).Some? {
        var (cp, used) := CodePoint(raw).value;
        EscapeIsAscii(raw);
        AfterAscii(raw, used);
        UnescapeMeans(raw[used..]);
        EncodesMore(cp, Unescape(raw[used..]), Meaning(raw[used..]));
      }
    } else if Simple(raw[1]).Some? {
      AfterAscii(raw, 2);
      UnescapeMeans(raw[2..]);
      OneByte(Simple(raw[1]).value);
      EncodesMore(Simple(raw[1]).value, Unescape(raw[2..]), Meaning(raw[2..]));
    }
  }

  lemma EscapeIsAscii(raw: Bytes)
    requires |raw| > 1 && raw[0] == BACKSLASH && raw[1] == LETTER_U && CodePoint(raw).Some?
    ensures forall i :: 0 <= i < CodePoint(raw).value.1 ==> raw[i] < 0x80
    ensures forall i :: 1 <= i < CodePoint(raw).value.1 ==> raw[i] != QUOTE
  {
    var used := CodePoint(raw).value.1;
    forall i | 0 <= i < used ensures raw[i] < 0x80 && (i >= 1 ==> raw[i] != QUOTE) {
      if 2 <= i < 6 {
        assert raw[i] == raw[2..][i - 2];
      } else if 8 <= i < 12 {
        assert raw[i] == raw[8..][i - 8];
      }
    }
  }

  lemma {:induction false} UnescapeMeansPlain(raw: Bytes)
    requires IsValid(raw) && raw != [] && raw[0] != BACKSLASH
    ensures Encodes(Unescape(raw), Meaning(raw))
    decreases |raw|, 0
  {
    hide CodePoint, Encodes, Encode;
    EncodesNothing();
    Accepted(raw);
    var (cp, len) := Verify(raw).value;
    if raw[0] >= 32 {
      assert forall i :: 0 <= i < len ==> raw[i] >= 32 && raw[i] != BACKSLASH;
      UnescapeCopies(raw[..len], raw[len..]);
      assert raw == raw[..len] + raw[len..];
      UnescapeMeans(raw[len..]);
      EncodesMore(cp, Unescape(raw[len..]), Meaning(raw[len..]));
    }
  }

  /** So a string read from valid UTF-8 is valid UTF-8. */
  lemma StaysValid(raw: Bytes)
    requires IsValid(raw) && Unescape(raw).Some?
    ensures IsValid(Unescape(raw).value) && IsValid(CString(Unescape(raw).value))
  {
    UnescapeMeans(raw);
    DecodeEncode(Meaning(raw).value);
    ValidToNul(Unescape(raw).value);
  }
}

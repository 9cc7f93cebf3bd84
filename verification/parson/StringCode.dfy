/** `skip_quotes`, `parse_utf_16`, `process_string` and `get_quoted_string` as they run. */
module StringCode {
  import opened Bytes
  import opened Utf8
  import opened Strings

  /** A C string and a place in it. */
  class Cursor {
    const text: Bytes
    var pos: nat

    ghost predicate Valid()
      reads this
    {
      pos <= |text| && NoNul(text)
    }

    function Rest(): Bytes
      reads this
      requires pos <= |text|
    {
      text[pos..]
    }

    /** The byte at the cursor, NUL at the end. */
    function Peek(): (b: byte)
      requires Valid()
      reads this
      ensures b == 0 <==> Rest() == []
      ensures Rest() != [] ==> b == Rest()[0]
    {
      At(text, pos)
    }

    constructor (text: Bytes)
      requires NoNul(text)
      ensures Valid() && this.text == text && Rest() == text
    {
      this.text, pos := text, 0;
    }

    /** `SKIP_CHAR` */
    method SkipChar()
      requires Valid() && Rest() != []
      modifies this
      ensures Valid() && Rest() == old(Rest())[1..]
    {
      pos := pos + 1;
    }

    /** `SKIP_WHITESPACES` */
    method SkipWhitespaces()
      requires Valid()
      modifies this
      ensures Valid() && Rest() == SkipSpaces(old(Rest()))
    {
      while IsSpace(Peek())
        invariant Valid() && SkipSpaces(Rest()) == SkipSpaces(old(Rest()))
        decreases |text| - pos
      {
        assert Rest()[1..] == text[pos + 1..];
        pos := pos + 1;
      }
    }

    /** Past the closing quote of the literal here, if it has one. */
    method SkipQuotes() returns (ok: bool)
      requires Valid()
      modifies this
      ensures Valid()
      ensures ok <==> old(Peek()) == QUOTE && RawLength(old(Rest())[1..]).Some?
      ensures ok ==> pos == old(pos) + RawLength(old(Rest())[1..]).value + 2
    {
      hide RawLength, At, NoNul, Cursor.Peek;
      if Peek() != QUOTE { return false; }
      pos := pos + 1;
      ghost var raw := Rest();
      assert raw == old(Rest())[1..];
      while Peek() != QUOTE
        invariant Valid() && old(pos) < pos
        invariant RawLength(raw) == Plus(pos - old(pos) - 1, RawLength(Rest()))
        decreases |text| - pos
      {
        RawStep(Rest());
        if Peek() == 0 { return false; }
        ghost var from := pos;
        if Peek() == BACKSLASH {
          pos := pos + 1;
          if Peek() == 0 { return false; }
        }
        pos := pos + 1;
        assert Rest() == text[from..][pos - from..];
      }
      RawStep(Rest());
      pos := pos + 1;
      ok := true;
    }

    method GetQuotedString() returns (r: Option<Bytes>)
      requires Valid()
      modifies this
      ensures Valid()
      ensures match QuotedString(old(Rest()))
        case None => r == None
        case Some((s, rest)) => r == Some(s) && Rest() == rest
    {
      hide RawLength, Unescape, CString, Cursor.Peek, NoNul;
      var start := pos;
      var ok := SkipQuotes();
      if !ok { return None; }
      var len := pos - start - 2;
      ghost var s := old(Rest());
      Slices(text, start, len);
      RawLengthOfPart(s[1..], len);
      var a := ProcessString(text[start + 1..pos], len);
      if a == None { return None; }
      CStringOfTerminated(Unescape(s[1..len + 1]).value);
      r := Some(CString(a.value[..]));
    }
  }

  lemma Slices(text: Bytes, start: nat, len: nat)
    requires start + len + 2 <= |text|
    ensures text[start + 1..start + len + 2][..len] == text[start..][1..len + 1]
    ensures text[start..][1..][..len + 1] == text[start + 1..start + len + 2]
    ensures text[start..][len + 2..] == text[start + len + 2..]
    ensures NoNul(text) ==> NoNul(text[start + 1..start + len + 2])
  {
  }

  lemma {:induction false} RawLengthOfPart(s: Bytes, n: nat)
    requires RawLength(s) == Some(n)
    ensures RawLength(s[..n + 1]) == Some(n)
  {
    if n > 0 {
      var k := if s[0] == BACKSLASH then 2 else 1;
      RawLengthOfPart(s[k..], n - k);
      assert s[..n + 1][k..] == s[k..][..n - k + 1];
    }
  }

  lemma {:induction false} CStringOfTerminated(s: Bytes)
    ensures CString(s + [0]) == CString(s)
  {
    if s != [] {
      assert (s + [0])[1..] == s[1..] + [0];
      CStringOfTerminated(s[1..]);
    }
  }

  /** Four hex digits: no byte past the closing quote is looked at. */
  predicate IsUtf16Hex(input: Bytes, i: nat)
    requires i < |input| && input[|input| - 1] == QUOTE
  {
    IsHex(input[i]) && IsHex(input[i + 1]) && IsHex(input[i + 2]) && IsHex(input[i + 3])
  }

  /** `sscanf("%4x")` on four hex digits. */
  function Scan(input: Bytes, i: nat): (r: nat)
    requires i + 4 <= |input| && FourHex(input[i..])
    ensures r < 0x10000
  {
    HexNumber(input[i..])
  }

  /** The bytes of the literal from `at` on: all of `input` but its closing quote. */
  function Raw(input: Bytes, at: nat): Bytes
    requires at < |input|
  {
    input[at..|input| - 1]
  }

  lemma HexInRaw(input: Bytes, at: nat, k: nat)
    requires at + k < |input| && input[|input| - 1] == QUOTE
    ensures IsUtf16Hex(input, at + k) <==> at + k < |input| && k <= |Raw(input, at)| && FourHex(Raw(input, at)[k..])
    ensures IsUtf16Hex(input, at + k) ==>
      at + k + 4 < |input| && FourHex(input[at + k..]) && HexNumber(Raw(input, at)[k..]) == Scan(input, at + k)
  {
    if IsUtf16Hex(input, at + k) {
      assert forall i :: 0 <= i < 4 ==> Raw(input, at)[k..][i] == input[at + k..][i];
    }
    if k <= |Raw(input, at)| && FourHex(Raw(input, at)[k..]) {
      assert forall i :: 0 <= i < 4 ==> Raw(input, at)[k..][i] == input[at + k + i];
    }
  }

  /** The escape whose `u` is at `at`, by the places in the literal. */
  lemma PointAt(input: Bytes, at: nat)
    requires 0 < at < |input| - 1 && input[|input| - 1] == QUOTE
    requires input[at - 1] == BACKSLASH && input[at] == LETTER_U
    ensures var p := CodePoint(Raw(input, at - 1));
      if !IsUtf16Hex(input, at + 1) then p == None
      else
        at + 5 < |input| && FourHex(input[at + 1..]) &&
        var lead := Scan(input, at + 1);
        if lead < 0xD800 || lead > 0xDFFF then p == Some((lead, 6))
        else if lead > 0xDBFF || input[at + 5] != BACKSLASH then p == None
        else
          at + 6 < |input| &&
          if input[at + 6] != LETTER_U then p == None
          else
            at + 7 < |input| &&
            if !IsUtf16Hex(input, at + 7) then p == None
            else
              at + 11 < |input| && FourHex(input[at + 7..]) &&
              var trail := Scan(input, at + 7);
              if trail < 0xDC00 || trail > 0xDFFF then p == None
              else p == Some((Combined(lead, trail), 12))
  {
    hide FourHex, HexNumber, IsHex;
    HexInRaw(input, at - 1, 2);
    if IsUtf16Hex(input, at + 1) && input[at + 5] == BACKSLASH && at + 7 < |input| { HexInRaw(input, at - 1, 8); }
  }

  /** The escape whose `u` is at `at`; on return both places are at the last byte read or written. */
  method ParseUtf16(input: Bytes, at: nat, output: array<byte>, out: nat)
    returns (ok: bool, at': nat, out': nat)
    requires 0 < at < |input| - 1 && input[|input| - 1] == QUOTE
    requires input[at - 1] == BACKSLASH && input[at] == LETTER_U
    requires out < at && output.Length == |input|
    modifies output
    ensures ok <==> CodePoint(Raw(input, at - 1)).Some?
    ensures ok ==> var (cp, used) := CodePoint(Raw(input, at - 1)).value;
      at' + 1 == at - 1 + used && out' + 1 == out + |Encode(cp)| && at' < |input| - 1 && out' <= at'
      && output[..out' + 1] == old(output[..out]) + Encode(cp)
  {
    hide Encode, FourHex, HexNumber, IsHex, Scan, CodePoint, Raw, IsUtf16Hex;
    PointAt(input, at);
    at', out' := at + 1, out;
    if !IsUtf16Hex(input, at') { return false, at, out; }
    var cp: nat := Scan(input, at');
    if cp < 0xD800 || cp > 0xDFFF {
      out' := PutUpToThree(cp, output, out);
    } else if cp <= 0xDBFF {
      var lead := cp;
      at' := at' + 4;
      if input[at'] != BACKSLASH { return false, at, out; }
      if input[at' + 1] != LETTER_U { return false, at, out; }
      if !IsUtf16Hex(input, at' + 2) { return false, at, out; }
      at' := at' + 2;
      var trail: nat := Scan(input, at');
      if trail < 0xDC00 || trail > 0xDFFF { return false, at, out; }
      cp := Combined(lead, trail);
      out' := PutFour(cp, output, out);
    } else {
      return false, at, out;
    }
    at' := at' + 3;
    ok := true;
  }

  function Combined(lead: nat, trail: nat): (r: nat)
    requires 0xD800 <= lead <= 0xDBFF && 0xDC00 <= trail <= 0xDFFF
    ensures r == 0x10000 + (lead - 0xD800) * 0x400 + (trail - 0xDC00) && 0x10000 <= r <= 0x10FFFF
  {
    (lead - 0xD800) % 0x400 * 0x400 + (trail - 0xDC00) % 0x400 + 0x10000
  }

  /** The first three ways to write a code point. */
  method PutUpToThree(cp: nat, output: array<byte>, out: nat) returns (out': nat)
    requires cp < 0x10000 && IsScalar(cp) && out + 3 <= output.Length
    modifies output
    ensures out' + 1 == out + |Encode(cp)| && |Encode(cp)| <= 3
    ensures output[..out' + 1] == old(output[..out]) + Encode(cp)
  {
    out' := out;
    if cp < 0x80 {
      output[out'] := cp;
    } else if cp < 0x800 {
      output[out'] := 0xC0 + cp / 0x40 % 0x20;
      out' := out' + 1;
      output[out'] := 0x80 + cp % 0x40;
    } else {
      output[out'] := 0xE0 + cp / 0x1000 % 0x10;
      out' := out' + 1;
      output[out'] := 0x80 + cp / 0x40 % 0x40;
      out' := out' + 1;
      output[out'] := 0x80 + cp % 0x40;
    }
  }

  /** And the last. */
  method PutFour(cp: nat, output: array<byte>, out: nat) returns (out': nat)
    requires 0x10000 <= cp <= 0x10FFFF && out + 4 <= output.Length
    modifies output
    ensures out' + 1 == out + |Encode(cp)| && |Encode(cp)| == 4
    ensures output[..out' + 1] == old(output[..out]) + Encode(cp)
  {
    out' := out;
    output[out'] := 0xF0 + cp / 0x40000 % 8;
    out' := out' + 1;
    output[out'] := 0x80 + cp / 0x1000 % 0x40;
    out' := out' + 1;
    output[out'] := 0x80 + cp / 0x40 % 0x40;
    out' := out' + 1;
    output[out'] := 0x80 + cp % 0x40;
  }

  /** Reading on from one byte or escape. */
  lemma UnescapeStep(input: Bytes, at: nat)
    requires at < |input| - 1 && input[|input| - 1] == QUOTE && RawLength(input[at..]) == Some(|input| - 1 - at)
    ensures input[at] == BACKSLASH ==> at + 2 < |input|
    ensures input[at] == BACKSLASH && input[at + 1] != LETTER_U && Simple(input[at + 1]).Some? ==>
      && RawLength(input[at + 2..]) == Some(|input| - 3 - at)
      && Unescape(Raw(input, at)) == Prepend([Simple(input[at + 1]).value], Unescape(Raw(input, at + 2)))
    ensures input[at] == BACKSLASH && input[at + 1] != LETTER_U && Simple(input[at + 1]).None? ==>
      Unescape(Raw(input, at)) == None
    ensures input[at] != BACKSLASH && input[at] < 32 ==> Unescape(Raw(input, at)) == None
    ensures input[at] != BACKSLASH && input[at] >= 32 ==>
      && RawLength(input[at + 1..]) == Some(|input| - 2 - at)
      && Unescape(Raw(input, at)) == Prepend([input[at]], Unescape(Raw(input, at + 1)))
  {
    hide CodePoint, Simple, RawLength;
    RawStep(input[at..]);
    assert input[at..][1..] == input[at + 1..] && Raw(input, at)[1..] == Raw(input, at + 1);
    if input[at] == BACKSLASH {
      assert input[at..][2..] == input[at + 2..] && Raw(input, at)[2..] == Raw(input, at + 2);
    }
  }

  lemma UnicodeStep(input: Bytes, at: nat)
    requires at + 2 < |input| && input[|input| - 1] == QUOTE && RawLength(input[at..]) == Some(|input| - 1 - at)
    requires input[at] == BACKSLASH && input[at + 1] == LETTER_U
    ensures CodePoint(Raw(input, at)) == None ==> Unescape(Raw(input, at)) == None
    ensures CodePoint(Raw(input, at)).Some? ==>
      var (cp, used) := CodePoint(Raw(input, at)).value;
      && at + used < |input|
      && RawLength(input[at + used..]) == Some(|input| - 1 - at - used)
      && Unescape(Raw(input, at)) == Prepend(Encode(cp), Unescape(Raw(input, at + used)))
  {
    hide CodePoint, Encode, RawLength, Prepend;
    var raw := Raw(input, at);
    if CodePoint(raw).Some? {
      var (cp, used) := CodePoint(raw).value;
      assert raw[used..] == Raw(input, at + used);
      HexRuns(input, at, used);
    }
  }

  lemma HexRuns(input: Bytes, at: nat, used: nat)
    requires at + 2 < |input| && RawLength(input[at..]) == Some(|input| - 1 - at)
    requires input[at] == BACKSLASH && input[at + 1] == LETTER_U && CodePoint(Raw(input, at)).Some?
    requires used == CodePoint(Raw(input, at)).value.1
    ensures at + used < |input| && RawLength(input[at + used..]) == Some(|input| - 1 - at - used)
  {
    var s, raw := input[at..], Raw(input, at);
    assert s[..|raw|] == raw;
    FourHexRuns(s);
    if used == 12 {
      assert s[6..][2..] == s[8..];
      FourHexRuns(s[6..]);
      assert s[6..][6..] == s[12..];
    }
    assert s[used..] == input[at + used..];
  }

  lemma FourHexRuns(s: Bytes)
    requires |s| > 6 && s[0] == BACKSLASH && FourHex(s[2..])
    ensures RawLength(s) == Plus(6, RawLength(s[6..]))
  {
    var hex := s[2..][..4];
    forall i | 0 <= i < 4 ensures hex[i] != QUOTE && hex[i] != BACKSLASH {
      assert IsHex(s[2..][i]);
    }
    RawPastPlain(hex, s[6..]);
    assert s[2..] == hex + s[6..];
  }

  lemma PrependTwice(a: Bytes, b: Bytes, r: Option<Bytes>)
    ensures Prepend(a, Prepend(b, r)) == Prepend(a + b, r)
  {
    if r.Some? { assert a + (b + r.value) == a + b + r.value; }
  }

  /**
   * `input` is the literal without its opening quote, `len` the bytes before the closing one.
   * The result holds the string and a NUL; nothing after the closing quote is read.
   */
  method ProcessString(input: Bytes, len: nat) returns (r: Option<array<byte>>)
    requires |input| == len + 1 && RawLength(input) == Some(len) && NoNul(input)
    ensures r == None <==> Unescape(input[..len]) == None
    ensures r.Some? ==> fresh(r.value) && r.value[..] == Unescape(input[..len]).value + [0]
  {
    hide Unescape, CodePoint, Encode, Simple, RawLength, Prepend;
    var output := new byte[len + 1];
    var at, out := 0, 0;
    Starts(input);
    while input[at] != 0 && at < len
      invariant 0 <= out <= at <= len
      invariant RawLength(input[at..]) == Some(len - at)
      invariant Unescape(input[..len]) == Prepend(output[..out], Unescape(Raw(input, at)))
      decreases len - at
    {
      ghost var kept := output[..out];
      UnescapeStep(input, at);
      if input[at] == BACKSLASH {
        at := at + 1;
        if input[at] == LETTER_U {
          UnicodeStep(input, at - 1);
          var ok, at', out' := ParseUtf16(input, at, output, out);
          if !ok {
            NothingPrepended(kept);
            return None;
          }
          PrependTwice(kept, Encode(CodePoint(Raw(input, at - 1)).value.0), Unescape(Raw(input, at' + 1)));
          at, out := at', out';
        } else {
          match Simple(input[at])
          case None =>
            NothingPrepended(kept);
            return None;
          case Some(b) =>
            PrependTwice(kept, [b], Unescape(Raw(input, at + 1)));
            output[out] := b;
            assert output[..out + 1] == kept + [b];
        }
      } else if input[at] < 32 {
        NothingPrepended(kept);
        return None;
      } else {
        PrependTwice(kept, [input[at]], Unescape(Raw(input, at + 1)));
        output[out] := input[at];
        assert output[..out + 1] == kept + [input[at]];
      }
      out := out + 1;
      at := at + 1;
    }
    output[out] := 0;
    Ends(input, output[..out]);
    var resized := new byte[out + 1];
    forall k | 0 <= k <= out { resized[k] := output[k]; }
    assert resized[..] == output[..out] + [0];
    r := Some(resized);
  }

  lemma Starts(input: Bytes)
    requires input != []
    ensures input[0..] == input && Raw(input, 0) == input[..|input| - 1]
    ensures Unescape(input[..|input| - 1]) == Prepend([], Unescape(Raw(input, 0)))
  {
    var r := Unescape(Raw(input, 0));
    if r.Some? { assert [] + r.value == r.value; }
  }

  lemma NothingPrepended(s: Bytes)
    ensures Prepend(s, None) == None
  {
  }

  lemma Ends(input: Bytes, kept: Bytes)
    requires input != []
    ensures Prepend(kept, Unescape(Raw(input, |input| - 1))) == Some(kept)
  {
    assert kept + [] == kept;
  }
}

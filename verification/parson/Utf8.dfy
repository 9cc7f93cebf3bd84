/** UTF-8 (RFC 3629, section 3), as parson checks it and writes it. */
module Utf8 {
  import opened Bytes

  predicate IsScalar(cp: nat) { cp < 0xD800 || 0xDFFF < cp <= 0x10FFFF }

  /** The bytes of a code point. */
  function Encode(cp: nat): (r: Bytes)
    requires IsScalar(cp)
    ensures 1 <= |r| <= 4
  {
    if cp < 0x80 then [cp]
    else if cp < 0x800 then [0xC0 + cp / 0x40, 0x80 + cp % 0x40]
    else if cp < 0x10000 then [0xE0 + cp / 0x1000, 0x80 + cp / 0x40 % 0x40, 0x80 + cp % 0x40]
    else [0xF0 + cp / 0x40000, 0x80 + cp / 0x1000 % 0x40, 0x80 + cp / 0x40 % 0x40, 0x80 + cp % 0x40]
  }

  predicate AllScalar(cps: seq<nat>) { forall i :: 0 <= i < |cps| ==> IsScalar(cps[i]) }

  function EncodeAll(cps: seq<nat>): Bytes
    requires AllScalar(cps)
  {
    if cps == [] then [] else Encode(cps[0]) + EncodeAll(cps[1..])
  }

  predicate IsCont(b: byte) { b / 0x40 == 2 }

  /** `num_bytes_in_utf8_sequence`, by the first byte. */
  function SequenceLength(c: byte): nat {
    if c == 0xC0 || c == 0xC1 || c > 0xF4 || IsCont(c) then 0
    else if c < 0x80 then 1
    else if c < 0xE0 then 2
    else if c < 0xF0 then 3
    else 4
  }

  /** The low bits of a byte: the mask is `m - 1`. */
  function Low(b: byte, m: nat): (r: nat)
    requires m > 0
    ensures r < m
  {
    b % m
  }

  /** The code point put together from the bytes, before it is checked. */
  function Assembled(s: Bytes): Option<nat>
    requires s != []
  {
    var len := SequenceLength(s[0]);
    if len == 1 then Some(s[0])
    else if len == 2 && IsCont(At(s, 1)) then Some(Two(s[0], s[1]))
    else if len == 3 && IsCont(At(s, 1)) && IsCont(At(s, 2)) then Some(Three(s[0], s[1], s[2]))
    else if len == 4 && IsCont(At(s, 1)) && IsCont(At(s, 2)) && IsCont(At(s, 3)) then
      Some(Four(s[0], s[1], s[2], s[3]))
    else None
  }

  function Two(a: byte, b: byte): nat { Low(a, 0x20) * 0x40 + Low(b, 0x40) }

  function Three(a: byte, b: byte, c: byte): nat {
    (Low(a, 0x10) * 0x40 + Low(b, 0x40)) * 0x40 + Low(c, 0x40)
  }

  function Four(a: byte, b: byte, c: byte, d: byte): nat {
    ((Low(a, 8) * 0x40 + Low(b, 0x40)) * 0x40 + Low(c, 0x40)) * 0x40 + Low(d, 0x40)
  }

  /** `verify_utf8_sequence`: the code point at the front and its length. */
  function Verify(s: Bytes): Option<(nat, nat)>
    requires s != []
  {
    var len := SequenceLength(s[0]);
    match Assembled(s)
    case None => None
    case Some(cp) =>
      if (cp < 0x80 && len > 1) || (cp < 0x800 && len > 2) || (cp < 0x10000 && len > 3) then None
      else if cp > 0x10FFFF then None
      else if 0xD800 <= cp <= 0xDFFF then None
      else Some((cp, len))
  }

  lemma TwoBytes(a: byte, b: byte)
    requires 0xC0 <= a < 0xE0 && IsCont(b) && Two(a, b) >= 0x80
    ensures Two(a, b) < 0x800 && Encode(Two(a, b)) == [a, b]
  {
    assert Two(a, b) / 0x40 == Low(a, 0x20);
  }

  lemma ThreeBytes(a: byte, b: byte, c: byte)
    requires 0xE0 <= a < 0xF0 && IsCont(b) && IsCont(c)
    requires Three(a, b, c) >= 0x800 && IsScalar(Three(a, b, c))
    ensures Three(a, b, c) < 0x10000 && Encode(Three(a, b, c)) == [a, b, c]
  {
    assert Three(a, b, c) / 0x40 == Low(a, 0x10) * 0x40 + Low(b, 0x40);
    assert Three(a, b, c) / 0x1000 == Low(a, 0x10);
  }

  lemma FourBytes(a: byte, b: byte, c: byte, d: byte)
    requires 0xF0 <= a <= 0xF4 && IsCont(b) && IsCont(c) && IsCont(d)
    requires Four(a, b, c, d) >= 0x10000 && IsScalar(Four(a, b, c, d))
    ensures Encode(Four(a, b, c, d)) == [a, b, c, d]
  {
    hide Low, IsCont, Encode;
    LeadLow(a);
    ContLow(b);
    ContLow(c);
    ContLow(d);
    var x1 := Low(a, 8) * 0x40 + Low(b, 0x40);
    var x2 := x1 * 0x40 + Low(c, 0x40);
    var x3 := x2 * 0x40 + Low(d, 0x40);
    SplitOff(Low(a, 8), Low(b, 0x40));
    SplitOff(x1, Low(c, 0x40));
    SplitOff(x2, Low(d, 0x40));
    Shifts(x3);
    assert x3 == Four(a, b, c, d);
    LongForm(x3);
  }

  lemma LongForm(cp: nat)
    requires IsScalar(cp) && cp >= 0x10000
    ensures Encode(cp) == [0xF0 + cp / 0x40000, 0x80 + cp / 0x1000 % 0x40, 0x80 + cp / 0x40 % 0x40, 0x80 + cp % 0x40]
  {
  }

  lemma LeadLow(a: byte)
    requires 0xF0 <= a <= 0xF4
    ensures a == 0xF0 + Low(a, 8)
  {
  }

  lemma ContLow(b: byte)
    requires IsCont(b)
    ensures b == 0x80 + Low(b, 0x40)
  {
  }

  lemma SplitOff(q: nat, r: nat)
    requires r < 0x40
    ensures (q * 0x40 + r) / 0x40 == q && (q * 0x40 + r) % 0x40 == r
  {
  }

  lemma Shifts(x: nat)
    ensures x / 0x40 / 0x40 == x / 0x1000 && x / 0x1000 / 0x40 == x / 0x40000
    ensures x == x / 0x40 * 0x40 + x % 0x40
    ensures x / 0x40 == x / 0x1000 * 0x40 + x / 0x40 % 0x40
    ensures x / 0x1000 == x / 0x40000 * 0x40 + x / 0x1000 % 0x40
  {
  }

  /** What is accepted is the encoding of a code point, and no other bytes are. */
  lemma Accepted(s: Bytes)
    requires s != [] && Verify(s).Some?
    ensures var (cp, len) := Verify(s).value;
      IsScalar(cp) && len == |Encode(cp)| <= |s| && s[..len] == Encode(cp)
  {
    hide Encode, Two, Three, Four;
    var (cp, len) := Verify(s).value;
    if len == 1 {
      OneByte(s[0]);
      assert s[..1] == [s[0]];
    } else if len == 2 {
      TwoBytes(s[0], s[1]);
      assert s[..2] == [s[0], s[1]];
    } else if len == 3 {
      ThreeBytes(s[0], s[1], s[2]);
      assert s[..3] == [s[0], s[1], s[2]];
    } else {
      FourBytes(s[0], s[1], s[2], s[3]);
      assert s[..4] == [s[0], s[1], s[2], s[3]];
    }
  }

  lemma OneByte(a: byte)
    requires a < 0x80
    ensures Encode(a) == [a]
  {
  }

  /** The bytes written are put together to the same code point. */
  lemma Reassembled(cp: nat)
    requires IsScalar(cp)
    ensures var e := Encode(cp);
      && |e| == SequenceLength(e[0])
      && (forall i :: 1 <= i < |e| ==> IsCont(e[i]))
      && (|e| == 1 ==> cp < 0x80 && e[0] == cp)
      && (|e| == 2 ==> 0x80 <= cp && Two(e[0], e[1]) == cp)
      && (|e| == 3 ==> 0x800 <= cp && Three(e[0], e[1], e[2]) == cp)
      && (|e| == 4 ==> 0x10000 <= cp && Four(e[0], e[1], e[2], e[3]) == cp)
  {
    hide Two, Three, Four;
    if cp < 0x80 {
    } else if cp < 0x800 {
      ReassembledTwo(cp);
    } else if cp < 0x10000 {
      ReassembledThree(cp);
    } else {
      ReassembledFour(cp);
    }
  }

  lemma ReassembledTwo(cp: nat)
    requires 0x80 <= cp < 0x800
    ensures Two(0xC0 + cp / 0x40, 0x80 + cp % 0x40) == cp
  {
  }

  lemma ReassembledThree(cp: nat)
    requires 0x800 <= cp < 0x10000
    ensures Three(0xE0 + cp / 0x1000, 0x80 + cp / 0x40 % 0x40, 0x80 + cp % 0x40) == cp
  {
    Shifts(cp);
    assert Low(0xE0 + cp / 0x1000, 0x10) == cp / 0x1000;
    LowSix(cp / 0x40);
    LowSix(cp);
  }

  lemma ReassembledFour(cp: nat)
    requires 0x10000 <= cp < 0x110000
    ensures Four(0xF0 + cp / 0x40000, 0x80 + cp / 0x1000 % 0x40, 0x80 + cp / 0x40 % 0x40, 0x80 + cp % 0x40) == cp
  {
    Shifts(cp);
    assert Low(0xF0 + cp / 0x40000, 8) == cp / 0x40000;
    LowSix(cp / 0x1000);
    LowSix(cp / 0x40);
    LowSix(cp);
  }

  lemma LowSix(x: nat)
    ensures Low(0x80 + x % 0x40, 0x40) == x % 0x40
  {
  }

  lemma AcceptsEncoded(cp: nat, rest: Bytes)
    requires IsScalar(cp)
    ensures Verify(Encode(cp) + rest) == Some((cp, |Encode(cp)|))
  {
    hide Encode, Two, Three, Four, IsCont, SequenceLength;
    Reassembled(cp);
  }

  /** `is_valid_utf8` */
  predicate IsValid(s: Bytes)
    decreases |s|
  {
    s == [] ||
    (Verify(s).Some? &&
     var (cp, len) := Verify(s).value;
     Accepted(s);
     IsValid(s[len..]))
  }

  function Decode(s: Bytes): (r: seq<nat>)
    requires IsValid(s)
    ensures AllScalar(r)
    decreases |s|
  {
    if s == [] then []
    else
      Accepted(s);
      [Verify(s).value.0] + Decode(s[Verify(s).value.1..])
  }

  /** What `is_valid_utf8` accepts is exactly the encodings of code points, */
  lemma {:induction false} EncodeDecode(s: Bytes)
    requires IsValid(s)
    ensures EncodeAll(Decode(s)) == s
    decreases |s|
  {
    if s != [] {
      Accepted(s);
      var (cp, len) := Verify(s).value;
      EncodeDecode(s[len..]);
      assert Decode(s)[1..] == Decode(s[len..]);
      assert s == s[..len] + s[len..];
    }
  }

  /** and the code points can be read back. */
  lemma {:induction false} DecodeEncode(cps: seq<nat>)
    requires AllScalar(cps)
    ensures IsValid(EncodeAll(cps)) && Decode(EncodeAll(cps)) == cps
  {
    if cps != [] {
      var s := EncodeAll(cps);
      AcceptsEncoded(cps[0], EncodeAll(cps[1..]));
      assert s[|Encode(cps[0])|..] == EncodeAll(cps[1..]);
      DecodeEncode(cps[1..]);
    }
  }

  /** `is_valid_utf8` looks at one sequence after the other. */
  method IsValidUtf8(s: Bytes) returns (valid: bool)
    ensures valid <==> exists cps: seq<nat> :: AllScalar(cps) && EncodeAll(cps) == s
  {
    hide Verify, Encode;
    var at := 0;
    while at < |s|
      invariant 0 <= at <= |s|
      invariant IsValid(s) <==> IsValid(s[at..])
    {
      match Verify(s[at..])
      case None =>
        forall cps: seq<nat> | AllScalar(cps) ensures EncodeAll(cps) != s {
          if EncodeAll(cps) == s { DecodeEncode(cps); }
        }
        return false;
      case Some((cp, len)) =>
        Accepted(s[at..]);
        assert s[at..][len..] == s[at + len..];
        at := at + len;
    }
    assert s[at..] == [];
    EncodeDecode(s);
    valid := true;
  }

  /** The bytes of plain text are each a sequence of one. */
  lemma {:induction false} AfterAscii(s: Bytes, n: nat)
    requires IsValid(s) && n <= |s| && forall i :: 0 <= i < n ==> s[i] < 0x80
    ensures IsValid(s[n..])
  {
    if n > 0 {
      assert Verify(s) == Some((s[0], 1));
      AfterAscii(s[1..], n - 1);
      assert s[1..][n - 1..] == s[n..];
    } else {
      assert s[0..] == s;
    }
  }

  /** Cutting a text off at a NUL leaves it valid. */
  lemma {:induction false} ValidToNul(s: Bytes)
    requires IsValid(s)
    ensures IsValid(CString(s))
    decreases |s|
  {
    if s != [] && s[0] != 0 {
      Accepted(s);
      var (cp, len) := Verify(s).value;
      ValidToNul(s[len..]);
      NoNulInside(cp);
      CStringOver(Encode(cp), s[len..]);
      assert s == Encode(cp) + s[len..];
      AcceptsEncoded(cp, CString(s[len..]));
      assert CString(s)[len..] == CString(s[len..]);
    }
  }

  lemma NoNulInside(cp: nat)
    requires IsScalar(cp) && cp != 0
    ensures NoNul(Encode(cp))
  {
  }

  lemma {:induction false} CStringOver(s: Bytes, rest: Bytes)
    requires NoNul(s)
    ensures CString(s + rest) == s + CString(rest)
  {
    if s == [] {
      assert s + rest == rest;
    } else {
      assert (s + rest)[1..] == s[1..] + rest;
      CStringOver(s[1..], rest);
    }
  }
}

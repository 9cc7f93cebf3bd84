/** Bytes, as C strings hold them. */
module Bytes {

  type byte = b: int | 0 <= b < 256

  type Bytes = seq<byte>

  const NEWLINE: byte := 10
  const SPACE: byte := 32
  const QUOTE: byte := 34
  const COMMA: byte := 44
  const MINUS: byte := 45
  const DOT: byte := 46
  const SLASH: byte := 47
  const ZERO: byte := 48
  const COLON: byte := 58
  const OPEN_BRACKET: byte := 91
  const BACKSLASH: byte := 92
  const CLOSE_BRACKET: byte := 93
  const OPEN_BRACE: byte := 123
  const CLOSE_BRACE: byte := 125

  datatype Option<T> = None | Some(value: T)

  /** The byte at `i`, or the NUL that ends a C string. */
  function At(s: Bytes, i: nat): byte { if i < |s| then s[i] else 0 }

  predicate NoNul(s: Bytes) { forall i :: 0 <= i < |s| ==> s[i] != 0 }

  /** What `isspace` accepts in the C locale. */
  predicate IsSpace(b: byte) { b == SPACE || 9 <= b <= 13 }

  predicate IsDigit(b: byte) { ZERO <= b <= 57 }

  predicate IsHex(b: byte) { IsDigit(b) || 65 <= b <= 70 || 97 <= b <= 102 }

  function HexValue(b: byte): (r: nat)
    requires IsHex(b)
    ensures r < 16
  {
    if IsDigit(b) then b - ZERO else if b <= 70 then b - 55 else b - 87
  }

  function SkipSpaces(s: Bytes): (r: Bytes)
    ensures |r| <= |s| && (r == [] || !IsSpace(r[0]))
  {
    if s != [] && IsSpace(s[0]) then SkipSpaces(s[1..]) else s
  }

  lemma SkipsOnce(s: Bytes)
    ensures SkipSpaces(SkipSpaces(s)) == SkipSpaces(s)
  {
  }

  predicate AllSpaces(s: Bytes) { forall i :: 0 <= i < |s| ==> IsSpace(s[i]) }

  lemma {:induction false} SkipsAll(spaces: Bytes, s: Bytes)
    requires AllSpaces(spaces)
    ensures SkipSpaces(spaces + s) == SkipSpaces(s)
  {
    if spaces == [] {
      assert spaces + s == s;
    } else {
      assert (spaces + s)[1..] == spaces[1..] + s;
      SkipsAll(spaces[1..], s);
    }
  }

  /** The text up to the first NUL. */
  function CString(s: Bytes): (r: Bytes)
    ensures NoNul(r)
  {
    if s == [] || s[0] == 0 then [] else [s[0]] + CString(s[1..])
  }

  lemma {:induction false} CStringOfNoNul(s: Bytes)
    requires NoNul(s)
    ensures CString(s) == s
  {
    if s != [] { CStringOfNoNul(s[1..]); }
  }
}

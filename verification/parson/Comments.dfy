/** `remove_comments`: comments are overwritten with spaces, string literals are left alone. */
module Comments {
  import opened Bytes
  import opened Strings

  /** `strstr`: where the token first occurs. */
  function IndexOf(token: Bytes, s: Bytes): (r: Option<nat>)
    ensures r.Some? ==> r.value + |token| <= |s|
  {
    if token <= s then Some(0)
    else if s == [] then None
    else match IndexOf(token, s[1..]) case None => None case Some(p) => Some(p + 1)
  }

  function Spaces(n: nat): (r: Bytes)
    ensures |r| == n && forall i :: 0 <= i < n ==> r[i] == SPACE
  {
    seq(n, _ => SPACE)
  }

  /** A token that may begin a comment; the code's own are slash-star and slash-slash. */
  predicate StartToken(token: Bytes) {
    token != [] && SPACE !in token && QUOTE !in token && BACKSLASH !in token
  }

  /** The text as it is left, from a place inside or outside a literal, after a backslash or not. */
  function Strip(s: Bytes, start: Bytes, end: Bytes, inString: bool, escaped: bool): (r: Bytes)
    requires start != [] && end != []
    ensures |r| == |s|
    decreases |s|
  {
    if s == [] then []
    else if s[0] == BACKSLASH && !escaped then [s[0]] + Strip(s[1..], start, end, inString, true)
    else if s[0] == QUOTE && !escaped then [s[0]] + Strip(s[1..], start, end, !inString, false)
    else if !inString && start <= s then
      match IndexOf(end, s[|start|..])
      case None => Spaces(|start|) + s[|start|..]
      case Some(p) =>
        var n := |start| + p + |end|;
        Spaces(n) + Strip(s[n..], start, end, false, false)
    else [s[0]] + Strip(s[1..], start, end, inString, false)
  }

  /** What follows the start of a comment that never ends, if the scan meets one. */
  function Unclosed(s: Bytes, start: Bytes, end: Bytes, inString: bool, escaped: bool): (r: Option<Bytes>)
    requires start != [] && end != []
    ensures r.Some? ==> |r.value| < |s|
    decreases |s|
  {
    if s == [] then None
    else if s[0] == BACKSLASH && !escaped then Unclosed(s[1..], start, end, inString, true)
    else if s[0] == QUOTE && !escaped then Unclosed(s[1..], start, end, !inString, false)
    else if !inString && start <= s then
      match IndexOf(end, s[|start|..])
      case None => Some(s[|start|..])
      case Some(p) => Unclosed(s[|start| + p + |end|..], start, end, false, false)
    else Unclosed(s[1..], start, end, inString, false)
  }

  /** The scan meets the start of a comment. */
  predicate HasComment(s: Bytes, start: Bytes, inString: bool, escaped: bool)
    decreases |s|
  {
    if s == [] then false
    else if s[0] == BACKSLASH && !escaped then HasComment(s[1..], start, inString, true)
    else if s[0] == QUOTE && !escaped then HasComment(s[1..], start, !inString, false)
    else (!inString && start <= s) || HasComment(s[1..], start, inString, false)
  }

  // How the scan goes on

  predicate NextInString(b: byte, inString: bool, escaped: bool) { inString != (b == QUOTE && !escaped) }

  predicate NextEscaped(b: byte, escaped: bool) { b == BACKSLASH && !escaped }

  /** A comment begins here. */
  predicate Begins(s: Bytes, start: Bytes, inString: bool, escaped: bool) {
    s != [] && (escaped || (s[0] != BACKSLASH && s[0] != QUOTE)) && !inString && start <= s
  }

  lemma AtByte(s: Bytes, start: Bytes, end: Bytes, q: bool, e: bool)
    requires s != [] && start != [] && end != [] && !Begins(s, start, q, e)
    ensures var q', e' := NextInString(s[0], q, e), NextEscaped(s[0], e);
      && Strip(s, start, end, q, e) == [s[0]] + Strip(s[1..], start, end, q', e')
      && Unclosed(s, start, end, q, e) == Unclosed(s[1..], start, end, q', e')
      && HasComment(s, start, q, e) == HasComment(s[1..], start, q', e')
  {
  }

  /** One comment: blanked to its end, or only its start. */
  lemma AtComment(s: Bytes, start: Bytes, end: Bytes, q: bool, e: bool)
    requires start != [] && end != [] && Begins(s, start, q, e)
    ensures HasComment(s, start, q, e)
    ensures var at := IndexOf(end, s[|start|..]);
      && (at == None ==>
        && Strip(s, start, end, q, e) == Spaces(|start|) + s[|start|..]
        && Unclosed(s, start, end, q, e) == Some(s[|start|..]))
      && (at.Some? ==>
        var n := |start| + at.value + |end|;
        && n <= |s|
        && Strip(s, start, end, q, e) == Spaces(n) + Strip(s[n..], start, end, false, false)
        && Unclosed(s, start, end, q, e) == Unclosed(s[n..], start, end, false, false))
  {
    hide IndexOf, Spaces;
  }

  /** Whatever is changed is changed to a space. */
  lemma {:induction false} OnlyBlanks(s: Bytes, start: Bytes, end: Bytes, q: bool, e: bool, i: nat)
    requires start != [] && end != [] && i < |s|
    ensures Strip(s, start, end, q, e)[i] == s[i] || Strip(s, start, end, q, e)[i] == SPACE
    decreases |s|
  {
    hide Strip, IndexOf, Begins;
    if Begins(s, start, q, e) {
      AtComment(s, start, end, q, e);
      var at := IndexOf(end, s[|start|..]);
      if at.Some? {
        var n := |start| + at.value + |end|;
        if i >= n { OnlyBlanks(s[n..], start, end, false, false, i - n); }
      }
    } else {
      AtByte(s, start, end, q, e);
      if i > 0 { OnlyBlanks(s[1..], start, end, NextInString(s[0], q, e), NextEscaped(s[0], e), i - 1); }
    }
  }

  /** A token that is not in the text is not in what is left of it. */
  lemma NoNewToken(c: byte, s: Bytes, start: Bytes, end: Bytes, q: bool, e: bool)
    requires StartToken(start) && end != [] && !(start <= [c] + s)
    ensures !(start <= [c] + Strip(s, start, end, q, e))
  {
    var out := [c] + Strip(s, start, end, q, e);
    if start <= out {
      forall i | 0 <= i < |start| ensures start[i] == ([c] + s)[i] {
        assert start[i] == out[i] && start[i] in start;
        if i > 0 { OnlyBlanks(s, start, end, q, e, i - 1); }
      }
    }
  }

  /** Spaces are passed over, whatever came before them. */
  lemma {:induction false} PastSpaces(n: nat, s: Bytes, start: Bytes, end: Bytes, e: bool)
    requires StartToken(start) && end != [] && n > 0
    ensures Strip(Spaces(n) + s, start, end, false, e) == Spaces(n) + Strip(s, start, end, false, false)
    decreases n
  {
    var t := Spaces(n) + s;
    assert start[0] in start;
    assert t[1..] == Spaces(n - 1) + s;
    if n > 1 {
      PastSpaces(n - 1, s, start, end, false);
      assert [SPACE] + (Spaces(n - 1) + Strip(s, start, end, false, false)) ==
        Spaces(n) + Strip(s, start, end, false, false);
    } else {
      assert t[1..] == s && [SPACE] == Spaces(1);
    }
  }

  /** A byte at which no comment begins is no beginning in the stripped text either. */
  lemma StillNone(s: Bytes, start: Bytes, end: Bytes, q: bool, e: bool)
    requires StartToken(start) && end != [] && s != [] && !Begins(s, start, q, e)
    ensures var q', e' := NextInString(s[0], q, e), NextEscaped(s[0], e);
      !Begins([s[0]] + Strip(s[1..], start, end, q', e'), start, q, e)
  {
    hide Strip;
    assert s == [s[0]] + s[1..];
    if !(start <= s) {
      NoNewToken(s[0], s[1..], start, end, NextInString(s[0], q, e), NextEscaped(s[0], e));
    }
  }

  /** What a second pass leaves: it does again what the first did, and goes on behind a comment that never ends. */
  ghost predicate Again(s: Bytes, start: Bytes, end: Bytes, q: bool, e: bool)
    requires start != [] && end != []
  {
    var once, open := Strip(s, start, end, q, e), Unclosed(s, start, end, q, e);
    if open == None then Strip(once, start, end, q, e) == once
    else
      var k := |s| - |open.value|;
      once[k..] == open.value && Strip(once, start, end, q, e) == once[..k] + Strip(open.value, start, end, false, false)
  }

  lemma {:induction false} SecondPass(s: Bytes, start: Bytes, end: Bytes, q: bool, e: bool)
    requires StartToken(start) && end != []
    ensures Again(s, start, end, q, e)
    decreases |s|
  {
    if s != [] {
      if Begins(s, start, q, e) {
        SecondPassComment(s, start, end, q, e);
      } else {
        SecondPassByte(s, start, end, q, e);
      }
    }
  }

  lemma {:induction false} SecondPassByte(s: Bytes, start: Bytes, end: Bytes, q: bool, e: bool)
    requires StartToken(start) && start != [] && end != [] && s != [] && !Begins(s, start, q, e)
    ensures Again(s, start, end, q, e)
    decreases |s|, 0
  {
    hide Strip, Unclosed, HasComment, StartToken, Begins, NextInString, NextEscaped, Again;
    var q', e' := NextInString(s[0], q, e), NextEscaped(s[0], e);
    AtByte(s, start, end, q, e);
    StillNone(s, start, end, q, e);
    SecondPass(s[1..], start, end, q', e');
    AgainByte(s, start, end, q, e, q', e');
  }

  lemma AgainByte(s: Bytes, start: Bytes, end: Bytes, q: bool, e: bool, q': bool, e': bool)
    requires start != [] && end != [] && s != [] && q' == NextInString(s[0], q, e) && e' == NextEscaped(s[0], e)
    requires Strip(s, start, end, q, e) == [s[0]] + Strip(s[1..], start, end, q', e')
    requires Unclosed(s, start, end, q, e) == Unclosed(s[1..], start, end, q', e')
    requires !Begins([s[0]] + Strip(s[1..], start, end, q', e'), start, q, e) && Again(s[1..], start, end, q', e')
    ensures Again(s, start, end, q, e)
  {
    hide Strip, Unclosed, HasComment, Begins, NextInString, NextEscaped;
    var later := Strip(s[1..], start, end, q', e');
    AtByte([s[0]] + later, start, end, q, e);
    assert ([s[0]] + later)[1..] == later;
    var open := Unclosed(s[1..], start, end, q', e');
    if open.Some? { SplitLater([s[0]], later, |s| - 1 - |open.value|, Strip(open.value, start, end, false, false)); }
  }

  lemma {:induction false} SecondPassComment(s: Bytes, start: Bytes, end: Bytes, q: bool, e: bool)
    requires StartToken(start) && start != [] && end != [] && Begins(s, start, q, e)
    ensures Again(s, start, end, q, e)
    decreases |s|, 0
  {
    hide Strip, Unclosed, HasComment, IndexOf, Spaces, StartToken;
    AtComment(s, start, end, q, e);
    var rest := s[|start|..];
    match IndexOf(end, rest)
    case None =>
      PastSpaces(|start|, rest, start, end, e);
      assert (Spaces(|start|) + rest)[..|start|] == Spaces(|start|) && (Spaces(|start|) + rest)[|start|..] == rest;
    case Some(p) =>
      var n := |start| + p + |end|;
      var later := Strip(s[n..], start, end, false, false);
      PastSpaces(n, later, start, end, e);
      SecondPass(s[n..], start, end, false, false);
      var open := Unclosed(s[n..], start, end, false, false);
      if open.Some? { SplitLater(Spaces(n), later, |s| - n - |open.value|, Strip(open.value, start, end, false, false)); }
  }

  lemma SplitLater(a: Bytes, b: Bytes, k: nat, c: Bytes)
    requires k <= |b|
    ensures (a + b)[..|a| + k] + c == a + (b[..k] + c) && (a + b)[|a| + k..] == b[k..]
  {
  }

  /** A text is left as it is exactly when no comment begins in it. */
  lemma {:induction false} UnchangedWithout(s: Bytes, start: Bytes, end: Bytes, q: bool, e: bool)
    requires StartToken(start) && end != []
    ensures Strip(s, start, end, q, e) == s <==> !HasComment(s, start, q, e)
    decreases |s|
  {
    if s != [] {
      if Begins(s, start, q, e) {
        assert s[0] == start[0] && start[0] in start;
        AtComment(s, start, end, q, e);
        assert Strip(s, start, end, q, e)[0] == SPACE;
      } else {
        AtByte(s, start, end, q, e);
        UnchangedWithout(s[1..], start, end, NextInString(s[0], q, e), NextEscaped(s[0], e));
        assert s == [s[0]] + s[1..];
      }
    }
  }

  /** A pass done twice is a pass done once, unless a comment never ends and another begins inside it. */
  lemma Idempotent(s: Bytes, start: Bytes, end: Bytes)
    requires StartToken(start) && end != []
    ensures var once := Strip(s, start, end, false, false); var open := Unclosed(s, start, end, false, false);
      Strip(once, start, end, false, false) == once <==> open == None || !HasComment(open.value, start, false, false)
  {
    hide Strip, Unclosed, HasComment;
    var once, open := Strip(s, start, end, false, false), Unclosed(s, start, end, false, false);
    SecondPass(s, start, end, false, false);
    if open.Some? {
      var k := |s| - |open.value|;
      var later := Strip(open.value, start, end, false, false);
      assert once == once[..k] + open.value;
      assert (once[..k] + later)[k..] == later && once[k..] == open.value;
      UnchangedWithout(open.value, start, end, false, false);
    }
  }

  const SLASH_STAR: Bytes := [SLASH, 42]
  const STAR_SLASH: Bytes := [42, SLASH]
  const SLASH_SLASH: Bytes := [SLASH, SLASH]
  const LINE_END: Bytes := [NEWLINE]

  /** The case where it does not hold: slash-star twice. */
  lemma TwiceIsNotOnce()
    ensures var s := SLASH_STAR + SLASH_STAR; var once := Strip(s, SLASH_STAR, STAR_SLASH, false, false);
      once == [SPACE, SPACE] + SLASH_STAR && Strip(once, SLASH_STAR, STAR_SLASH, false, false) == Spaces(4)
  {
    var s := SLASH_STAR + SLASH_STAR;
    assert s[2..] == SLASH_STAR;
    NeverEnds();
    assert Strip(s, SLASH_STAR, STAR_SLASH, false, false) == [SPACE, SPACE] + SLASH_STAR;
    var once := [SPACE, SPACE] + SLASH_STAR;
    PastSpaces(2, SLASH_STAR, SLASH_STAR, STAR_SLASH, false);
    assert once == Spaces(2) + SLASH_STAR;
    assert SLASH_STAR[2..] == [];
    assert Strip(SLASH_STAR, SLASH_STAR, STAR_SLASH, false, false) == Spaces(2) + [];
  }

  lemma NeverEnds()
    ensures IndexOf(STAR_SLASH, SLASH_STAR) == None && IndexOf(STAR_SLASH, []) == None
  {
    var star: Bytes := [42];
    assert SLASH_STAR[1..] == star && star[1..] == [];
    assert IndexOf(STAR_SLASH, []) == None;
    assert IndexOf(STAR_SLASH, star) == None;
    assert SLASH_STAR[0] != STAR_SLASH[0];
  }

  // Literals and comments as pieces of a text

  /** A byte outside literals and comments, one with a backslash before it, a literal without its quotes, or a comment
      without its tokens. */
  datatype Piece = Code(b: byte) | Escaped(b: byte) | Literal(body: Bytes) | Comment(body: Bytes)

  function Render(ps: seq<Piece>, start: Bytes, end: Bytes): Bytes {
    if ps == [] then [] else RenderPiece(ps[0], start, end) + Render(ps[1..], start, end)
  }

  function RenderPiece(p: Piece, start: Bytes, end: Bytes): Bytes {
    match p
    case Code(b) => [b]
    case Escaped(b) => [BACKSLASH, b]
    case Literal(body) => [QUOTE] + body + [QUOTE]
    case Comment(body) => start + body + end
  }

  /** The pieces are what the text says: literals end where `skip_quotes` would end them, comments at their first end. */
  ghost predicate Fits(ps: seq<Piece>, start: Bytes, end: Bytes) {
    ps == [] ||
    (Fits(ps[1..], start, end) &&
     var rest := Render(ps[1..], start, end);
     match ps[0]
     case Code(b) => b != QUOTE && b != BACKSLASH && !(start <= [b] + rest)
     case Escaped(b) => !(start <= [b] + rest)
     case Literal(body) => RawLength(body + [QUOTE]) == Some(|body|)
     case Comment(body) => IndexOf(end, body + end + rest) == Some(|body|))
  }

  /** The text with its comments blanked and everything else as it was. */
  function Blanked(ps: seq<Piece>, start: Bytes, end: Bytes): Bytes {
    if ps == [] then []
    else
      (if ps[0].Comment? then Spaces(|start| + |ps[0].body| + |end|) else RenderPiece(ps[0], start, end)) +
      Blanked(ps[1..], start, end)
  }

  /** A literal is passed over. */
  lemma {:induction false} PastLiteral(body: Bytes, rest: Bytes, start: Bytes, end: Bytes)
    requires start != [] && end != [] && RawLength(body + [QUOTE]) == Some(|body|)
    ensures Strip(body + [QUOTE] + rest, start, end, true, false) ==
      body + [QUOTE] + Strip(rest, start, end, false, false)
    decreases |body|
  {
    hide RawLength, Strip, Unclosed, HasComment;
    var s := body + [QUOTE] + rest;
    AtByte(s, start, end, true, false);
    if body == [] {
      assert s[1..] == rest;
      assert body + [QUOTE] + Strip(rest, start, end, false, false) == [QUOTE] + Strip(rest, start, end, false, false);
    } else {
      LiteralStep(body);
      var k := if body[0] == BACKSLASH then 2 else 1;
      if k == 2 { AtByte(s[1..], start, end, true, true); }
      assert (body + [QUOTE])[k..] == body[k..] + [QUOTE];
      PastLiteral(body[k..], rest, start, end);
      LiteralParts(body, rest, k, Strip(rest, start, end, false, false));
    }
  }

  lemma LiteralParts(body: Bytes, rest: Bytes, k: nat, later: Bytes)
    requires 1 <= k <= 2 && k <= |body|
    ensures var s := body + [QUOTE] + rest;
      && s[1..][k - 1..] == body[k..] + [QUOTE] + rest
      && s[0] == body[0] && (k == 2 ==> s[1..][0] == body[1])
    ensures k == 1 ==> [body[0]] + (body[1..] + [QUOTE] + later) == body + [QUOTE] + later
    ensures k == 2 ==> [body[0]] + ([body[1]] + (body[2..] + [QUOTE] + later)) == body + [QUOTE] + later
  {
    var s := body + [QUOTE] + rest;
    assert s[1..][k - 1..] == s[k..];
    if k == 2 { TwoOff(body, [QUOTE] + later); } else { OneOff(body, [QUOTE] + later); }
    assert body + ([QUOTE] + later) == body + [QUOTE] + later;
    assert body[k..] + ([QUOTE] + later) == body[k..] + [QUOTE] + later;
  }

  lemma OneOff(a: Bytes, b: Bytes)
    requires |a| >= 1
    ensures [a[0]] + (a[1..] + b) == a + b
  {
  }

  lemma TwoOff(a: Bytes, b: Bytes)
    requires |a| >= 2
    ensures [a[0]] + ([a[1]] + (a[2..] + b)) == a + b
  {
  }

  lemma LiteralStep(body: Bytes)
    requires body != [] && RawLength(body + [QUOTE]) == Some(|body|)
    ensures body[0] != QUOTE
    ensures body[0] == BACKSLASH ==> |body| >= 2 && RawLength((body + [QUOTE])[2..]) == Some(|body| - 2)
    ensures body[0] != BACKSLASH ==> RawLength((body + [QUOTE])[1..]) == Some(|body| - 1)
  {
    hide RawLength;
    RawStep(body + [QUOTE]);
    if |body| == 1 && body[0] == BACKSLASH { RawStep((body + [QUOTE])[2..]); }
  }

  /** Literals are kept byte for byte, and so is all that is in no comment. */
  lemma {:induction false} LiteralsKept(ps: seq<Piece>, start: Bytes, end: Bytes)
    requires StartToken(start) && end != [] && Fits(ps, start, end)
    ensures Strip(Render(ps, start, end), start, end, false, false) == Blanked(ps, start, end)
    decreases |ps|
  {
    hide Strip, Unclosed, HasComment, IndexOf, RawLength, Spaces;
    if ps == [] {
      NothingToStrip(start, end);
    } else {
      var rest := Render(ps[1..], start, end);
      LiteralsKept(ps[1..], start, end);
      match ps[0]
      case Code(b) => CodeFirst(b, rest, start, end);
      case Escaped(b) => EscapedFirst(b, rest, start, end);
      case Literal(body) => LiteralFirst(body, rest, start, end);
      case Comment(body) => CommentFirst(body, rest, start, end);
    }
  }

  lemma NothingToStrip(start: Bytes, end: Bytes)
    requires start != [] && end != []
    ensures Strip([], start, end, false, false) == []
  {
  }

  lemma CodeFirst(b: byte, rest: Bytes, start: Bytes, end: Bytes)
    requires start != [] && end != [] && b != QUOTE && b != BACKSLASH && !(start <= [b] + rest)
    ensures Strip([b] + rest, start, end, false, false) == [b] + Strip(rest, start, end, false, false)
  {
    hide Strip, Unclosed, HasComment;
    AtByte([b] + rest, start, end, false, false);
    assert ([b] + rest)[1..] == rest;
  }

  lemma EscapedFirst(b: byte, rest: Bytes, start: Bytes, end: Bytes)
    requires StartToken(start) && start != [] && end != [] && !(start <= [b] + rest)
    ensures Strip([BACKSLASH, b] + rest, start, end, false, false) == [BACKSLASH, b] + Strip(rest, start, end, false, false)
  {
    hide Strip, Unclosed, HasComment;
    var s := [BACKSLASH, b] + rest;
    assert s[1..] == [b] + rest && ([b] + rest)[1..] == rest;
    AtByte(s, start, end, false, false);
    AtByte([b] + rest, start, end, false, true);
  }

  lemma LiteralFirst(body: Bytes, rest: Bytes, start: Bytes, end: Bytes)
    requires StartToken(start) && end != [] && RawLength(body + [QUOTE]) == Some(|body|)
    ensures Strip([QUOTE] + body + [QUOTE] + rest, start, end, false, false) ==
      [QUOTE] + body + [QUOTE] + Strip(rest, start, end, false, false)
  {
    hide Strip, Unclosed, HasComment, RawLength;
    var s := [QUOTE] + body + [QUOTE] + rest;
    assert s[1..] == body + [QUOTE] + rest;
    AtByte(s, start, end, false, false);
    PastLiteral(body, rest, start, end);
    assert [QUOTE] + (body + [QUOTE] + Strip(rest, start, end, false, false)) ==
      [QUOTE] + body + [QUOTE] + Strip(rest, start, end, false, false);
  }

  lemma CommentSlices(start: Bytes, body: Bytes, end: Bytes, rest: Bytes)
    ensures var s := start + body + end + rest;
      start <= s && s[|start|..] == body + end + rest && s[|start| + |body| + |end|..] == rest
  {
    var s := start + body + end + rest;
    assert s == start + (body + end + rest);
    assert s == (start + body + end) + rest;
  }

  lemma BeginsAt(s: Bytes, start: Bytes)
    requires StartToken(start) && start <= s
    ensures Begins(s, start, false, false)
  {
    assert s[0] == start[0] && start[0] in start;
  }

  lemma CommentFirst(body: Bytes, rest: Bytes, start: Bytes, end: Bytes)
    requires StartToken(start) && start != [] && end != [] && IndexOf(end, body + end + rest) == Some(|body|)
    ensures Strip(start + body + end + rest, start, end, false, false) ==
      Spaces(|start| + |body| + |end|) + Strip(rest, start, end, false, false)
  {
    hide Strip, Unclosed, IndexOf, Spaces, StartToken;
    var s := start + body + end + rest;
    CommentSlices(start, body, end, rest);
    BeginsAt(s, start);
    AtComment(s, start, end, false, false);
  }
}

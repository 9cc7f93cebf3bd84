/** Texts with comments of both kinds, and what the two passes make of them. */
module CommentKinds {
  import opened Bytes
  import opened Comments
  import opened CommentCode
  import opened Strings

  /** A byte outside literals and comments, one with a backslash before it, a literal without its quotes, or a comment of
      either kind without its tokens. */
  datatype Part = Byte(b: byte) | Backslashed(b: byte) | Quote(body: Bytes) | Block(body: Bytes) | Line(body: Bytes)

  function RenderPart(p: Part): Bytes {
    match p
    case Byte(b) => [b]
    case Backslashed(b) => [BACKSLASH, b]
    case Quote(body) => [QUOTE] + body + [QUOTE]
    case Block(body) => SLASH_STAR + body + STAR_SLASH
    case Line(body) => SLASH_SLASH + body + LINE_END
  }

  function RenderParts(ps: seq<Part>): Bytes {
    if ps == [] then [] else RenderPart(ps[0]) + RenderParts(ps[1..])
  }

  /** The comments blanked, and everything else as it was. */
  function BlankPart(p: Part): Bytes {
    if p.Block? || p.Line? then Spaces(|RenderPart(p)|) else RenderPart(p)
  }

  function BlankParts(ps: seq<Part>): Bytes {
    if ps == [] then [] else BlankPart(ps[0]) + BlankParts(ps[1..])
  }

  /** Nothing in a line comment that the pass for the other kind, which runs first, would take for something: no quote,
      no backslash, no slash-star. */
  predicate LineBody(body: Bytes) {
    NEWLINE !in body && QUOTE !in body && BACKSLASH !in body && IndexOf(SLASH_STAR, SLASH_SLASH + body) == None
  }

  predicate BeginsNone(s: Bytes) { !(SLASH_STAR <= s) && !(SLASH_SLASH <= s) }

  /** The parts are what the text says; a block comment may hold anything but its end. */
  ghost predicate FitParts(ps: seq<Part>) {
    ps == [] ||
    (FitParts(ps[1..]) &&
     var rest := RenderParts(ps[1..]);
     match ps[0]
     case Byte(b) => b != QUOTE && b != BACKSLASH && BeginsNone([b] + rest)
     case Backslashed(b) => BeginsNone([b] + rest)
     case Quote(body) => RawLength(body + [QUOTE]) == Some(|body|)
     case Block(body) => IndexOf(STAR_SLASH, body + STAR_SLASH + rest) == Some(|body|)
     case Line(body) => LineBody(body))
  }

  function Codes(t: Bytes): seq<Piece> { seq(|t|, i requires 0 <= i < |t| => Code(t[i])) }

  /** As the first pass sees the text, and as the second sees what is left. */
  function First(p: Part): seq<Piece> {
    match p
    case Byte(b) => [Code(b)]
    case Backslashed(b) => [Escaped(b)]
    case Quote(body) => [Literal(body)]
    case Block(body) => [Comment(body)]
    case Line(body) => Codes(RenderPart(p))
  }

  function Second(p: Part): seq<Piece> {
    match p
    case Byte(b) => [Code(b)]
    case Backslashed(b) => [Escaped(b)]
    case Quote(body) => [Literal(body)]
    case Block(body) => Codes(BlankPart(p))
    case Line(body) => [Comment(body)]
  }

  function AllFirst(ps: seq<Part>): seq<Piece> { if ps == [] then [] else First(ps[0]) + AllFirst(ps[1..]) }

  function AllSecond(ps: seq<Part>): seq<Piece> { if ps == [] then [] else Second(ps[0]) + AllSecond(ps[1..]) }

  lemma {:induction false} RenderJoin(a: seq<Piece>, b: seq<Piece>, start: Bytes, end: Bytes)
    ensures Render(a + b, start, end) == Render(a, start, end) + Render(b, start, end)
    ensures Blanked(a + b, start, end) == Blanked(a, start, end) + Blanked(b, start, end)
  {
    hide Spaces, RenderPiece;
    if a == [] {
      assert a + b == b;
    } else {
      assert (a + b)[1..] == a[1..] + b;
      RenderJoin(a[1..], b, start, end);
      var x := RenderPiece(a[0], start, end);
      assert x + (Render(a[1..], start, end) + Render(b, start, end)) ==
        x + Render(a[1..], start, end) + Render(b, start, end);
      var y := if a[0].Comment? then Spaces(|start| + |a[0].body| + |end|) else x;
      assert y + (Blanked(a[1..], start, end) + Blanked(b, start, end)) ==
        y + Blanked(a[1..], start, end) + Blanked(b, start, end);
    }
  }

  lemma {:induction false} RenderCodes(t: Bytes, start: Bytes, end: Bytes)
    ensures Render(Codes(t), start, end) == t && Blanked(Codes(t), start, end) == t
  {
    if t != [] {
      assert Codes(t)[1..] == Codes(t[1..]);
      RenderCodes(t[1..], start, end);
    }
  }

  lemma RenderOne(p: Piece, start: Bytes, end: Bytes)
    ensures Render([p], start, end) == RenderPiece(p, start, end)
    ensures Blanked([p], start, end) ==
      if p.Comment? then Spaces(|start| + |p.body| + |end|) else RenderPiece(p, start, end)
  {
    hide Spaces;
    assert [p][1..] == [];
  }

  /** The text between the passes. */
  function MidPart(p: Part): Bytes { if p.Block? then BlankPart(p) else RenderPart(p) }

  function MidParts(ps: seq<Part>): Bytes { if ps == [] then [] else MidPart(ps[0]) + MidParts(ps[1..]) }

  lemma {:induction false} PassesRender(ps: seq<Part>)
    ensures Render(AllFirst(ps), SLASH_STAR, STAR_SLASH) == RenderParts(ps)
    ensures Blanked(AllFirst(ps), SLASH_STAR, STAR_SLASH) == MidParts(ps)
    ensures Render(AllSecond(ps), SLASH_SLASH, LINE_END) == MidParts(ps)
    ensures Blanked(AllSecond(ps), SLASH_SLASH, LINE_END) == BlankParts(ps)
  {
    hide Spaces, First, Second;
    if ps != [] {
      PassesRender(ps[1..]);
      OnePart(ps[0]);
      RenderJoin(First(ps[0]), AllFirst(ps[1..]), SLASH_STAR, STAR_SLASH);
      RenderJoin(Second(ps[0]), AllSecond(ps[1..]), SLASH_SLASH, LINE_END);
    }
  }

  lemma OnePart(p: Part)
    ensures Render(First(p), SLASH_STAR, STAR_SLASH) == RenderPart(p)
    ensures Blanked(First(p), SLASH_STAR, STAR_SLASH) == MidPart(p)
    ensures Render(Second(p), SLASH_SLASH, LINE_END) == MidPart(p)
    ensures Blanked(Second(p), SLASH_SLASH, LINE_END) == BlankPart(p)
  {
    hide Spaces, Render, Blanked;
    match p
    case Line(body) =>
      RenderCodes(RenderPart(p), SLASH_STAR, STAR_SLASH);
      RenderOne(Comment(body), SLASH_SLASH, LINE_END);
    case Block(body) =>
      RenderOne(Comment(body), SLASH_STAR, STAR_SLASH);
      RenderCodes(BlankPart(p), SLASH_SLASH, LINE_END);
    case _ =>
      RenderOne(First(p)[0], SLASH_STAR, STAR_SLASH);
      RenderOne(First(p)[0], SLASH_SLASH, LINE_END);
  }

  // Both passes find the parts where they are

  lemma OneCodeFits(b: byte, qs: seq<Piece>, start: Bytes, end: Bytes)
    requires Fits(qs, start, end) && b != QUOTE && b != BACKSLASH && !(start <= [b] + Render(qs, start, end))
    ensures Fits([Code(b)] + qs, start, end)
  {
    assert ([Code(b)] + qs)[1..] == qs;
  }

  lemma {:induction false} CodesFit(t: Bytes, qs: seq<Piece>, start: Bytes, end: Bytes)
    requires Fits(qs, start, end)
    requires forall i :: 0 <= i < |t| ==> t[i] != QUOTE && t[i] != BACKSLASH && !(start <= t[i..] + Render(qs, start, end))
    ensures Fits(Codes(t) + qs, start, end)
  {
    hide Render, Fits;
    var rest := Render(qs, start, end);
    if t == [] {
      assert Codes(t) + qs == qs;
    } else {
      forall i | 0 <= i < |t[1..]| ensures t[1..][i] != QUOTE && t[1..][i] != BACKSLASH && !(start <= t[1..][i..] + rest) {
        assert t[1..][i..] == t[i + 1..] && t[1..][i] == t[i + 1];
      }
      CodesFit(t[1..], qs, start, end);
      RenderJoin(Codes(t[1..]), qs, start, end);
      RenderCodes(t[1..], start, end);
      FirstOff(t, rest);
      OneCodeFits(t[0], Codes(t[1..]) + qs, start, end);
      assert Codes(t) + qs == [Code(t[0])] + (Codes(t[1..]) + qs);
    }
  }

  lemma FirstOff(t: Bytes, rest: Bytes)
    requires t != []
    ensures t[0..] + rest == [t[0]] + (t[1..] + rest)
  {
  }

  /** Whether a token of two bytes is at a place. */
  lemma TwoAt(token: Bytes, t: Bytes, i: nat, rest: Bytes)
    requires |token| == 2 && i < |t|
    ensures i + 1 < |t| ==> (token <= t[i..] + rest <==> t[i] == token[0] && t[i + 1] == token[1])
    ensures i + 1 == |t| ==> (token <= t[i..] + rest <==> t[i] == token[0] && rest != [] && rest[0] == token[1])
  {
    var u := t[i..] + rest;
    assert u[0] == t[i];
    if i + 1 < |t| {
      assert u[1] == t[i + 1];
    } else if rest != [] {
      assert u[1] == rest[0];
    }
    if |u| >= 2 && u[0] == token[0] && u[1] == token[1] { assert u[..2] == token; }
  }

  lemma {:induction false} NotWithin(token: Bytes, s: Bytes, i: nat)
    requires IndexOf(token, s) == None && i <= |s|
    ensures !(token <= s[i..])
  {
    if i > 0 {
      NotWithin(token, s[1..], i - 1);
      assert s[1..][i - 1..] == s[i..];
    }
  }

  /** A token of two bytes that is not in the text is at none of its places. */
  lemma NoneAt(token: Bytes, w: Bytes, i: nat)
    requires |token| == 2 && IndexOf(token, w) == None && i + 1 < |w|
    ensures !(w[i] == token[0] && w[i + 1] == token[1])
  {
    hide IndexOf;
    NotWithin(token, w, i);
    TwoAt(token, w, i, []);
    assert w[i..] + [] == w[i..];
  }

  /** No block comment begins in a line comment. */
  lemma LineHasNoBlock(body: Bytes, i: nat, rest: Bytes)
    requires LineBody(body) && i < |body| + 3
    ensures var t := SLASH_SLASH + body + LINE_END;
      t[i] != QUOTE && t[i] != BACKSLASH && !(SLASH_STAR <= t[i..] + rest)
  {
    hide IndexOf;
    var w, t := SLASH_SLASH + body, SLASH_SLASH + body + LINE_END;
    if 2 <= i < |body| + 2 { assert t[i] == body[i - 2] && body[i - 2] in body; }
    TwoAt(SLASH_STAR, t, i, rest);
    if i + 1 < |w| { NoneAt(SLASH_STAR, w, i); }
  }

  lemma {:induction false} FirstFits(ps: seq<Part>)
    requires FitParts(ps)
    ensures Fits(AllFirst(ps), SLASH_STAR, STAR_SLASH)
  {
    hide IndexOf, RawLength, LineBody;
    if ps != [] {
      var qs := AllFirst(ps[1..]);
      FirstFits(ps[1..]);
      PassesRender(ps[1..]);
      match ps[0]
      case Line(body) =>
        forall i | 0 <= i < |body| + 3
          ensures var t := RenderPart(ps[0]);
            t[i] != QUOTE && t[i] != BACKSLASH && !(SLASH_STAR <= t[i..] + Render(qs, SLASH_STAR, STAR_SLASH))
        {
          LineHasNoBlock(body, i, RenderParts(ps[1..]));
        }
        CodesFit(RenderPart(ps[0]), qs, SLASH_STAR, STAR_SLASH);
      case _ =>
        assert (First(ps[0]) + qs)[1..] == qs;
    }
  }

  /** The first pass leaves a byte as it is, or a blank. */
  lemma MidIsOld(ps: seq<Part>)
    requires FitParts(ps)
    ensures |MidParts(ps)| == |RenderParts(ps)|
    ensures forall i :: 0 <= i < |MidParts(ps)| ==> MidParts(ps)[i] == RenderParts(ps)[i] || MidParts(ps)[i] == SPACE
    ensures Strip(RenderParts(ps), SLASH_STAR, STAR_SLASH, false, false) == MidParts(ps)
  {
    hide Strip, Fits;
    FirstFits(ps);
    PassesRender(ps);
    LiteralsKept(AllFirst(ps), SLASH_STAR, STAR_SLASH);
    var s := RenderParts(ps);
    forall i | 0 <= i < |s| ensures MidParts(ps)[i] == s[i] || MidParts(ps)[i] == SPACE {
      OnlyBlanks(s, SLASH_STAR, STAR_SLASH, false, false, i);
    }
  }

  lemma StillNoLine(b: byte, ps: seq<Part>)
    requires FitParts(ps) && BeginsNone([b] + RenderParts(ps))
    ensures !(SLASH_SLASH <= [b] + MidParts(ps))
  {
    hide FitParts, RenderParts, MidParts;
    MidIsOld(ps);
    assert [b][0..] == [b];
    TwoAt(SLASH_SLASH, [b], 0, MidParts(ps));
    TwoAt(SLASH_SLASH, [b], 0, RenderParts(ps));
  }

  lemma {:induction false} FirstNewline(body: Bytes, rest: Bytes)
    requires NEWLINE !in body
    ensures IndexOf(LINE_END, body + LINE_END + rest) == Some(|body|)
  {
    var s := body + LINE_END + rest;
    if body == [] {
      assert s == LINE_END + rest;
    } else {
      assert s[0] == body[0] && body[0] in body;
      assert s[1..] == body[1..] + LINE_END + rest;
      FirstNewline(body[1..], rest);
    }
  }

  lemma {:induction false} SecondFits(ps: seq<Part>)
    requires FitParts(ps)
    ensures Fits(AllSecond(ps), SLASH_SLASH, LINE_END)
  {
    hide IndexOf, RawLength, LineBody, BeginsNone;
    if ps != [] {
      var qs := AllSecond(ps[1..]);
      SecondFits(ps[1..]);
      PassesRender(ps[1..]);
      match ps[0]
      case Block(body) =>
        SpacesFit(|RenderPart(ps[0])|, qs);
      case Line(body) =>
        HasNoNewline(body);
        FirstNewline(body, MidParts(ps[1..]));
        assert (Second(ps[0]) + qs)[1..] == qs;
      case Byte(b) =>
        StillNoLine(b, ps[1..]);
        assert (Second(ps[0]) + qs)[1..] == qs;
      case Backslashed(b) =>
        StillNoLine(b, ps[1..]);
        assert (Second(ps[0]) + qs)[1..] == qs;
      case Quote(body) =>
        assert (Second(ps[0]) + qs)[1..] == qs;
    }
  }

  lemma HasNoNewline(body: Bytes)
    requires LineBody(body)
    ensures NEWLINE !in body
  {
  }

  lemma SpacesFit(n: nat, qs: seq<Piece>)
    requires Fits(qs, SLASH_SLASH, LINE_END)
    ensures Fits(Codes(Spaces(n)) + qs, SLASH_SLASH, LINE_END)
  {
    hide Fits, Render;
    var t, rest := Spaces(n), Render(qs, SLASH_SLASH, LINE_END);
    forall i | 0 <= i < |t| ensures t[i] != QUOTE && t[i] != BACKSLASH && !(SLASH_SLASH <= t[i..] + rest) {
      assert (t[i..] + rest)[0] == t[i];
    }
    CodesFit(t, qs, SLASH_SLASH, LINE_END);
  }

  /** The two passes together blank the comments of either kind and keep every other byte. */
  lemma BothKindsBlanked(ps: seq<Part>)
    requires FitParts(ps)
    ensures WithoutComments(RenderParts(ps)) == BlankParts(ps)
  {
    hide Strip, Fits, FitParts;
    MidIsOld(ps);
    SecondFits(ps);
    PassesRender(ps);
    LiteralsKept(AllSecond(ps), SLASH_SLASH, LINE_END);
  }

  lemma {:induction false} CodesPassed(t: Bytes, u: Bytes, start: Bytes, end: Bytes)
    requires start != [] && end != []
    requires forall i :: 0 <= i < |t| ==> t[i] != QUOTE && t[i] != BACKSLASH && !(start <= t[i..] + u)
    ensures Strip(t + u, start, end, false, false) == t + Strip(u, start, end, false, false)
  {
    hide Strip;
    if t == [] {
      assert t + u == u && t + Strip(u, start, end, false, false) == Strip(u, start, end, false, false);
    } else {
      forall i | 0 <= i < |t[1..]|
        ensures t[1..][i] != QUOTE && t[1..][i] != BACKSLASH && !(start <= t[1..][i..] + u)
      {
        assert t[1..][i..] == t[i + 1..] && t[1..][i] == t[i + 1];
      }
      CodesPassed(t[1..], u, start, end);
      assert t[0..] == t && t + u == [t[0]] + (t[1..] + u);
      CodeFirst(t[0], t[1..] + u, start, end);
      assert [t[0]] + (t[1..] + Strip(u, start, end, false, false)) == t + Strip(u, start, end, false, false);
    }
  }

  lemma FirstPassOverLine(a: Bytes, b: Bytes, rest: Bytes)
    requires LineBody(a) && IndexOf(STAR_SLASH, b + STAR_SLASH + rest) == Some(|b|)
    ensures Strip(SLASH_SLASH + a + (SLASH_STAR + b + STAR_SLASH + rest), SLASH_STAR, STAR_SLASH, false, false) ==
      SLASH_SLASH + a + (Spaces(|b| + 4) + Strip(rest, SLASH_STAR, STAR_SLASH, false, false))
  {
    hide Strip, IndexOf, Spaces;
    var t, u := SLASH_SLASH + a, SLASH_STAR + b + STAR_SLASH + rest;
    forall i | 0 <= i < |t| ensures t[i] != QUOTE && t[i] != BACKSLASH && !(SLASH_STAR <= t[i..] + u) {
      CodeInLine(a, i, u);
    }
    CodesPassed(t, u, SLASH_STAR, STAR_SLASH);
    CommentFirst(b, rest, SLASH_STAR, STAR_SLASH);
  }

  lemma CodeInLine(a: Bytes, i: nat, u: Bytes)
    requires LineBody(a) && i < |a| + 2 && u != [] && u[0] == SLASH
    ensures var t := SLASH_SLASH + a; t[i] != QUOTE && t[i] != BACKSLASH && !(SLASH_STAR <= t[i..] + u)
  {
    hide IndexOf;
    var t := SLASH_SLASH + a;
    if 2 <= i { assert t[i] == a[i - 2] && a[i - 2] in a; }
    TwoAt(SLASH_STAR, t, i, u);
    if i + 1 < |t| { NoneAt(SLASH_STAR, t, i); }
  }

  lemma {:induction false} NewlineBehind(m: Bytes, left: Bytes)
    requires NEWLINE !in m
    ensures IndexOf(LINE_END, m + left) == match IndexOf(LINE_END, left) case None => None case Some(q) => Some(|m| + q)
  {
    if m == [] {
      assert m + left == left;
    } else {
      assert (m + left)[0] == m[0] && m[0] in m;
      assert (m + left)[1..] == m[1..] + left;
      NewlineBehind(m[1..], left);
    }
  }

  lemma OpenLine(m: Bytes, left: Bytes)
    requires NEWLINE !in m && IndexOf(LINE_END, left) == None
    ensures Strip(SLASH_SLASH + (m + left), SLASH_SLASH, LINE_END, false, false) == Spaces(2) + (m + left)
  {
    hide Strip, IndexOf, Spaces, Unclosed, HasComment, Begins;
    var s := SLASH_SLASH + (m + left);
    assert s[|SLASH_SLASH|..] == m + left;
    NewlineBehind(m, left);
    BeginsAt(s, SLASH_SLASH);
    AtComment(s, SLASH_SLASH, LINE_END, false, false);
  }

  lemma ClosedLine(m: Bytes, left: Bytes, q: nat)
    requires NEWLINE !in m && IndexOf(LINE_END, left) == Some(q)
    ensures q < |left|
    ensures Strip(SLASH_SLASH + (m + left), SLASH_SLASH, LINE_END, false, false) ==
      Spaces(|m| + q + 3) + Strip(left[q + 1..], SLASH_SLASH, LINE_END, false, false)
  {
    hide Strip, IndexOf, Spaces, Unclosed, HasComment, Begins;
    var s := SLASH_SLASH + (m + left);
    assert s[|SLASH_SLASH|..] == m + left;
    NewlineBehind(m, left);
    BeginsAt(s, SLASH_SLASH);
    ClosedComment(s, SLASH_SLASH, LINE_END, false, |m| + q + 3);
    Behind(SLASH_SLASH, m, left, q + 1);
  }

  lemma Behind(a: Bytes, m: Bytes, left: Bytes, k: nat)
    requires k <= |left|
    ensures (a + (m + left))[|a| + |m| + k..] == left[k..]
  {
  }

  lemma Rejoin(x: Bytes, a: Bytes, b: Bytes, c: Bytes)
    ensures x + a + (b + c) == x + (a + b + c)
  {
  }

  lemma AfterFirstPass(a: Bytes, b: Bytes, rest: Bytes, left: Bytes)
    requires LineBody(a) && IndexOf(STAR_SLASH, b + STAR_SLASH + rest) == Some(|b|)
    requires left == Strip(rest, SLASH_STAR, STAR_SLASH, false, false)
    ensures WithoutComments(SLASH_SLASH + a + (SLASH_STAR + b + STAR_SLASH + rest)) ==
      Strip(SLASH_SLASH + (a + Spaces(|b| + 4) + left), SLASH_SLASH, LINE_END, false, false)
  {
    hide Strip, IndexOf, LineBody, Spaces;
    FirstPassOverLine(a, b, rest);
    Rejoin(SLASH_SLASH, a, Spaces(|b| + 4), left);
  }

  /** What becomes of a line comment that begins with `m`: blanked up to its end, or only at its start if it has none. */
  function LineBlanked(m: Bytes, left: Bytes): Bytes {
    match IndexOf(LINE_END, left)
    case None => Spaces(2) + (m + left)
    case Some(q) => Spaces(|m| + q + 3) + Strip(left[q + 1..], SLASH_SLASH, LINE_END, false, false)
  }

  /** A block comment that begins within a line comment is read as one all the same: it is blanked first, whatever lines
      it goes over, and the line comment ends at the first line end behind it. */
  lemma BlockWithinLine(a: Bytes, b: Bytes, rest: Bytes)
    requires LineBody(a) && IndexOf(STAR_SLASH, b + STAR_SLASH + rest) == Some(|b|)
    ensures WithoutComments(SLASH_SLASH + a + (SLASH_STAR + b + STAR_SLASH + rest)) ==
      LineBlanked(a + Spaces(|b| + 4), Strip(rest, SLASH_STAR, STAR_SLASH, false, false))
  {
    hide Strip, IndexOf, LineBody, Spaces, WithoutComments, LineBlanked;
    var left := Strip(rest, SLASH_STAR, STAR_SLASH, false, false);
    AfterFirstPass(a, b, rest, left);
    HasNoNewline(a);
    NoNewlineInBlanks(a, |b| + 4);
    WholeLine(a + Spaces(|b| + 4), left);
  }

  lemma WholeLine(m: Bytes, left: Bytes)
    requires NEWLINE !in m
    ensures Strip(SLASH_SLASH + (m + left), SLASH_SLASH, LINE_END, false, false) == LineBlanked(m, left)
  {
    hide Strip, IndexOf, Spaces;
    match IndexOf(LINE_END, left)
    case None => OpenLine(m, left);
    case Some(q) => ClosedLine(m, left, q);
  }

  /** A quote in a line comment begins a literal for the first pass: block comments behind it stay, up to the next quote. */
  lemma QuoteInLineComment(rest: Bytes)
    requires QUOTE !in rest && BACKSLASH !in rest
    ensures WithoutComments(SLASH_SLASH + ([QUOTE] + ([NEWLINE] + rest))) ==
      Spaces(4) + Strip(rest, SLASH_SLASH, LINE_END, false, false)
  {
    hide Spaces, IndexOf;
    var left := [NEWLINE] + rest;
    var s := SLASH_SLASH + ([QUOTE] + left);
    InsideKept(left, SLASH_STAR, STAR_SLASH);
    assert s[1..][1..] == [QUOTE] + left && ([QUOTE] + left)[1..] == left;
    assert s[1] == SLASH && s[2] == QUOTE;
    assert Strip([QUOTE] + left, SLASH_STAR, STAR_SLASH, false, false) == [QUOTE] + left;
    assert Strip(s[1..], SLASH_STAR, STAR_SLASH, false, false) == s[1..];
    assert Strip(s, SLASH_STAR, STAR_SLASH, false, false) == s;
    LineEndFirst(rest);
    ClosedLine([QUOTE], left, 0);
    assert left[1..] == rest;
  }

  lemma LineEndFirst(rest: Bytes)
    ensures IndexOf(LINE_END, [NEWLINE] + rest) == Some(0)
  {
    assert LINE_END <= [NEWLINE] + rest;
  }

  lemma {:induction false} InsideKept(s: Bytes, start: Bytes, end: Bytes)
    requires QUOTE !in s && BACKSLASH !in s && start != [] && end != []
    ensures Strip(s, start, end, true, false) == s
  {
    if s != [] {
      InsideKept(s[1..], start, end);
      assert s == [s[0]] + s[1..];
    }
  }

  lemma NoNewlineInBlanks(a: Bytes, n: nat)
    requires NEWLINE !in a
    ensures NEWLINE !in a + Spaces(n)
  {
  }
}

/** Trees with comments between their tokens are read as the same trees without. */
module GrammarComments {
  import opened Bytes
  import C = Comments
  import CommentCode
  import K = CommentKinds
  import Decimal
  import opened Grammar
  import N = GrammarNumbers
  import S = GrammarStrings
  import T = GrammarTexts
  import opened Parser
  import P = PrintTree
  import Printer
  import Strings
  import opened Values

  /** A blank, a block comment that ends where it should, or a line comment the first pass sees nothing in. */
  predicate GoodSpace(s: Space) {
    match s
    case White(b) => Blank(b)
    case Block(body) => C.IndexOf(C.STAR_SLASH, body + C.STAR_SLASH) == Some(|body|)
    case Line(body) => K.LineBody(body)
  }

  predicate GoodSpaces(sp: seq<Space>) { forall i :: 0 <= i < |sp| ==> GoodSpace(sp[i]) }

  /** Blanks and comments between the tokens. */
  predicate Commented(node: Node) {
    match node
    case List(gap, items) =>
      GoodSpaces(gap) && forall i :: 0 <= i < |items| ==>
        GoodSpaces(items[i].before) && GoodSpaces(items[i].after) && Commented(items[i].node)
    case Dict(gap, pairs) =>
      GoodSpaces(gap) && forall i :: 0 <= i < |pairs| ==>
        && GoodSpaces(pairs[i].before) && GoodSpaces(pairs[i].mid) && GoodSpaces(pairs[i].gap) && GoodSpaces(pairs[i].after)
        && Commented(pairs[i].node)
    case _ => true
  }

  /** The same with each comment replaced by as many blanks as it has bytes. */
  function Blanks(n: nat): seq<Space> { seq(n, _ => White(32)) }

  function BareSpaces(sp: seq<Space>): seq<Space> {
    if sp == [] then []
    else (if sp[0].White? then [sp[0]] else Blanks(|WriteSpace(sp[0])|)) + BareSpaces(sp[1..])
  }

  function Bare(node: Node): Node
    decreases node, 0
  {
    match node
    case List(gap, items) => List(BareSpaces(gap), BareItems(items))
    case Dict(gap, pairs) => Dict(BareSpaces(gap), BarePairs(pairs))
    case _ => node
  }

  function BareItems(items: seq<Item>): (r: seq<Item>)
    ensures |r| == |items|
  {
    if items == [] then []
    else [Item(BareSpaces(items[0].before), Bare(items[0].node), BareSpaces(items[0].after))] + BareItems(items[1..])
  }

  function BarePairs(pairs: seq<Pair>): (r: seq<Pair>)
    ensures |r| == |pairs|
  {
    if pairs == [] then []
    else
      var p := pairs[0];
      [Pair(BareSpaces(p.before), p.key, BareSpaces(p.mid), BareSpaces(p.gap), Bare(p.node), BareSpaces(p.after))] +
      BarePairs(pairs[1..])
  }

  lemma {:induction false} BareItemAt(items: seq<Item>, i: nat)
    requires i < |items|
    ensures var item := items[i];
      BareItems(items)[i] == Item(BareSpaces(item.before), Bare(item.node), BareSpaces(item.after))
  {
    hide Bare, BareSpaces;
    if i > 0 { BareItemAt(items[1..], i - 1); }
  }

  lemma {:induction false} BarePairAt(pairs: seq<Pair>, i: nat)
    requires i < |pairs|
    ensures var p := pairs[i];
      BarePairs(pairs)[i] ==
        Pair(BareSpaces(p.before), p.key, BareSpaces(p.mid), BareSpaces(p.gap), Bare(p.node), BareSpaces(p.after))
  {
    hide Bare, BareSpaces;
    if i > 0 { BarePairAt(pairs[1..], i - 1); }
  }

  // A bare tree has only blanks, and stands for the same

  lemma {:induction false} BareIsWhite(sp: seq<Space>)
    requires GoodSpaces(sp)
    ensures AllWhite(BareSpaces(sp))
  {
    if sp != [] {
      BareIsWhite(sp[1..]);
      assert sp[0].White? ==> Blank(sp[0].b) by { assert GoodSpace(sp[0]); }
    }
  }

  lemma {:induction false} BareSpelled(node: Node)
    requires Spelled(node) && Commented(node)
    ensures Spelled(Bare(node)) && Plainly(Bare(node)) && Read(Bare(node)) == Read(node)
    decreases node
  {
    match node
    case List(gap, items) =>
      BareIsWhite(gap);
      forall i | 0 <= i < |items|
        ensures var b := BareItems(items)[i]; Spelled(b.node) && PlainItem(b) && Read(b.node) == Read(items[i].node)
      {
        BareItemAt(items, i);
        BareIsWhite(items[i].before);
        BareIsWhite(items[i].after);
        BareSpelled(items[i].node);
      }
      SameReads(items, BareItems(items));
    case Dict(gap, pairs) =>
      BareIsWhite(gap);
      forall i | 0 <= i < |pairs|
        ensures var b := BarePairs(pairs)[i];
          b.key == pairs[i].key && Spelled(b.node) && PlainPair(b) && Read(b.node) == Read(pairs[i].node)
      {
        BarePairAt(pairs, i);
        BarePairIsPlain(pairs[i]);
        BareSpelled(pairs[i].node);
      }
      SamePairReads(pairs, BarePairs(pairs));
    case _ =>
  }

  lemma BarePairIsPlain(p: Pair)
    requires GoodSpaces(p.before) && GoodSpaces(p.mid) && GoodSpaces(p.gap) && GoodSpaces(p.after)
    ensures AllWhite(BareSpaces(p.before)) && AllWhite(BareSpaces(p.mid)) && AllWhite(BareSpaces(p.gap))
    ensures AllWhite(BareSpaces(p.after))
  {
    BareIsWhite(p.before);
    BareIsWhite(p.mid);
    BareIsWhite(p.gap);
    BareIsWhite(p.after);
  }

  lemma {:induction false} SameReads(a: seq<Item>, b: seq<Item>)
    requires |a| == |b| && forall i :: 0 <= i < |a| ==>
      Spelled(a[i].node) && Spelled(b[i].node) && Read(a[i].node) == Read(b[i].node)
    ensures ReadItems(a) == ReadItems(b)
  {
    hide Read, Spelled;
    if a != [] { SameReads(a[1..], b[1..]); }
  }

  lemma {:induction false} SamePairReads(a: seq<Pair>, b: seq<Pair>)
    requires |a| == |b| && forall i :: 0 <= i < |a| ==>
      && GoodChars(a[i].key) && Spelled(a[i].node) && Spelled(b[i].node) && a[i].key == b[i].key
      && Read(a[i].node) == Read(b[i].node)
    ensures ReadPairs(a) == ReadPairs(b)
  {
    hide Read, Spelled, GoodChars, ReadText;
    if a != [] { SamePairReads(a[1..], b[1..]); }
  }

  lemma {:induction false} BareLegal(node: Node, depth: nat)
    requires Spelled(node) && Commented(node) && Legal(node, depth)
    ensures Spelled(Bare(node)) && Legal(Bare(node), depth)
    decreases node
  {
    BareSpelled(node);
    match node
    case List(gap, items) =>
      forall i | 0 <= i < |items| ensures Legal(BareItems(items)[i].node, depth + 1) {
        BareItemAt(items, i);
        BareLegal(items[i].node, depth + 1);
      }
    case Dict(gap, pairs) =>
      forall i | 0 <= i < |pairs|
        ensures BarePairs(pairs)[i].key == pairs[i].key && Legal(BarePairs(pairs)[i].node, depth + 1)
      {
        BarePairAt(pairs, i);
        BareLegal(pairs[i].node, depth + 1);
      }
    case _ =>
  }

  // The passes make the one of the other

  predicate Local(p: K.Part) {
    match p
    case Byte(b) => b != QUOTE && b != BACKSLASH && b != SLASH
    case Backslashed(_) => false
    case Quote(body) => Strings.RawLength(body + [QUOTE]) == Some(|body|)
    case Block(body) => C.IndexOf(C.STAR_SLASH, body + C.STAR_SLASH) == Some(|body|)
    case Line(body) => K.LineBody(body)
  }

  predicate AllLocal(ps: seq<K.Part>) { forall i :: 0 <= i < |ps| ==> Local(ps[i]) }

  lemma {:induction false} IndexOfMore(token: Bytes, s: Bytes, more: Bytes)
    requires token != [] && C.IndexOf(token, s).Some?
    ensures C.IndexOf(token, s + more) == C.IndexOf(token, s)
  {
    if token <= s {
      assert token <= s + more;
    } else {
      assert |token| <= |s|;
      assert (s + more)[..|token|] == s[..|token|];
      assert (s + more)[1..] == s[1..] + more;
      IndexOfMore(token, s[1..], more);
    }
  }

  lemma {:induction false} LocalFits(ps: seq<K.Part>)
    requires AllLocal(ps)
    ensures K.FitParts(ps)
  {
    hide K.LineBody, Strings.RawLength, C.IndexOf, K.RenderParts;
    if ps != [] {
      assert Local(ps[0]);
      LocalFits(ps[1..]);
      var rest := K.RenderParts(ps[1..]);
      match ps[0]
      case Byte(b) => assert ([b] + rest)[0] == b;
      case Block(body) => IndexOfMore(C.STAR_SLASH, body + C.STAR_SLASH, rest);
      case _ =>
    }
  }

  ghost predicate Becomes(t: Bytes, u: Bytes) {
    exists ps: seq<K.Part> :: AllLocal(ps) && K.RenderParts(ps) == t && K.BlankParts(ps) == u
  }

  lemma Blanked(t: Bytes, u: Bytes)
    requires Becomes(t, u)
    ensures CommentCode.WithoutComments(t) == u
  {
    hide CommentCode.WithoutComments, AllLocal, K.RenderParts, K.BlankParts;
    var ps: seq<K.Part> :| AllLocal(ps) && K.RenderParts(ps) == t && K.BlankParts(ps) == u;
    LocalFits(ps);
    K.BothKindsBlanked(ps);
  }

  lemma {:induction false} PartsJoin(a: seq<K.Part>, b: seq<K.Part>)
    ensures K.RenderParts(a + b) == K.RenderParts(a) + K.RenderParts(b)
    ensures K.BlankParts(a + b) == K.BlankParts(a) + K.BlankParts(b)
  {
    hide K.RenderPart, K.BlankPart;
    if a == [] {
      assert a + b == b;
    } else {
      assert (a + b)[1..] == a[1..] + b;
      PartsJoin(a[1..], b);
      var x, y := K.RenderPart(a[0]), K.BlankPart(a[0]);
      assert x + (K.RenderParts(a[1..]) + K.RenderParts(b)) == x + K.RenderParts(a[1..]) + K.RenderParts(b);
      assert y + (K.BlankParts(a[1..]) + K.BlankParts(b)) == y + K.BlankParts(a[1..]) + K.BlankParts(b);
    }
  }

  lemma BecomesBoth(t: Bytes, u: Bytes, x: Bytes, y: Bytes)
    requires Becomes(t, u) && Becomes(x, y)
    ensures Becomes(t + x, u + y)
  {
    hide K.RenderParts, K.BlankParts, Local;
    var a: seq<K.Part> :| AllLocal(a) && K.RenderParts(a) == t && K.BlankParts(a) == u;
    var b: seq<K.Part> :| AllLocal(b) && K.RenderParts(b) == x && K.BlankParts(b) == y;
    PartsJoin(a, b);
    assert AllLocal(a + b);
  }

  lemma PartBecomes(p: K.Part)
    requires Local(p)
    ensures Becomes(K.RenderPart(p), K.BlankPart(p))
  {
    hide Local, K.RenderPart, K.BlankPart;
    var ps := [p];
    assert ps[1..] == [];
    assert AllLocal(ps) && K.RenderParts(ps) == K.RenderPart(p) + [] && K.BlankParts(ps) == K.BlankPart(p) + [];
    assert K.RenderPart(p) + [] == K.RenderPart(p) && K.BlankPart(p) + [] == K.BlankPart(p);
  }

  lemma NothingBecomes()
    ensures Becomes([], [])
  {
    assert AllLocal([]) && K.RenderParts([]) == [] && K.BlankParts([]) == [];
  }

  lemma {:induction false} PlainBecomes(t: Bytes)
    requires CommentCode.NoMarks(t)
    ensures Becomes(t, t)
  {
    hide Becomes;
    if t == [] {
      NothingBecomes();
    } else {
      PlainBecomes(t[1..]);
      PartBecomes(K.Byte(t[0]));
      BecomesBoth([t[0]], [t[0]], t[1..], t[1..]);
      assert t == [t[0]] + t[1..];
    }
  }

  lemma {:induction false} BlanksWritten(n: nat)
    ensures WriteSpaces(Blanks(n)) == C.Spaces(n)
  {
    if n > 0 {
      assert Blanks(n)[1..] == Blanks(n - 1);
      BlanksWritten(n - 1);
      assert C.Spaces(n) == [SPACE] + C.Spaces(n - 1);
    }
  }

  lemma SpaceBecomes(s: Space)
    requires GoodSpace(s)
    ensures Becomes(WriteSpace(s), if s.White? then WriteSpace(s) else C.Spaces(|WriteSpace(s)|))
  {
    hide Becomes, C.Spaces;
    assert Ascii("/*") == C.SLASH_STAR && Ascii("*/") == C.STAR_SLASH;
    assert Ascii("//") == C.SLASH_SLASH && Ascii("\n") == C.LINE_END;
    match s
    case White(b) => PartBecomes(K.Byte(b));
    case Block(body) => PartBecomes(K.Block(body));
    case Line(body) => PartBecomes(K.Line(body));
  }

  lemma {:induction false} SpacesBecome(sp: seq<Space>)
    requires GoodSpaces(sp)
    ensures Becomes(WriteSpaces(sp), WriteSpaces(BareSpaces(sp)))
  {
    hide Becomes, GoodSpace, WriteSpace, C.Spaces, Blanks;
    if sp == [] {
      NothingBecomes();
    } else {
      SpaceBecomes(sp[0]);
      SpacesBecome(sp[1..]);
      var one := if sp[0].White? then [sp[0]] else Blanks(|WriteSpace(sp[0])|);
      BlanksWritten(|WriteSpace(sp[0])|);
      OneSpace(sp[0]);
      T.SpacesJoin(one, BareSpaces(sp[1..]));
      BecomesBoth(WriteSpace(sp[0]), WriteSpaces(one), WriteSpaces(sp[1..]), WriteSpaces(BareSpaces(sp[1..])));
    }
  }

  lemma OneSpace(s: Space)
    ensures WriteSpaces([s]) == WriteSpace(s)
  {
    hide WriteSpace;
    assert [s][1..] == [];
    assert WriteSpace(s) + [] == WriteSpace(s);
  }

  lemma TextBecomes(chars: seq<Char>)
    requires GoodChars(chars)
    ensures Becomes(WriteText(chars), WriteText(chars))
  {
    hide Becomes, WriteChars, Strings.RawLength, Strings.Unescape;
    var body := WriteChars(chars);
    S.CharsWritten(chars, []);
    assert body + [QUOTE] + [] == body + [QUOTE];
    assert Ascii("\"") == [QUOTE];
    PartBecomes(K.Quote(body));
  }

  // Numerals hold no quote, backslash or slash

  lemma {:induction false} DigitsUnmarked(digits: seq<nat>)
    requires Digital(digits)
    ensures CommentCode.NoMarks(WriteDigits(digits))
  {
    N.DigitsWritten(digits);
  }

  lemma MarksJoin(a: Bytes, b: Bytes)
    requires CommentCode.NoMarks(a) && CommentCode.NoMarks(b)
    ensures CommentCode.NoMarks(a + b)
  {
  }

  lemma WordUnmarked(word: string, upper: seq<bool>)
    requires LowerCase(word) && |upper| <= |word|
    ensures CommentCode.NoMarks(WriteWord(word, upper))
  {
  }

  lemma NumeralUnmarked(num: Numeral)
    requires GoodNumeral(num)
    ensures CommentCode.NoMarks(WriteNumeral(num))
  {
    hide WriteDigits, WriteWord, Decimal.Digits, Decimal.Value, CommentCode.NoMarks, WriteExponent;
    SignUnmarked();
    match num
    case Integer(neg, n) =>
      DigitsUnmarked(Decimal.Digits(n));
      MarksJoin(WriteSign(neg), WriteDigits(Decimal.Digits(n)));
    case Decimals(neg, whole, fraction, exponent) =>
      DigitsUnmarked(whole);
      TailUnmarked(fraction, exponent);
      MarksJoin(WriteDigits(whole), WriteFraction(fraction));
      MarksJoin(WriteDigits(whole) + WriteFraction(fraction), WritePower(exponent));
      MarksJoin(WriteSign(neg), WriteDigits(whole) + WriteFraction(fraction) + WritePower(exponent));
    case Infinite(upper) =>
      WordUnmarked("infinity", upper);
      MarksJoin(Ascii("-"), WriteWord("infinity", upper));
    case NotANumber(upper, payload) =>
      WordUnmarked("nan", upper);
      PayloadUnmarked(payload);
      MarksJoin(WriteWord("nan", upper), WritePayload(payload));
      MarksJoin(Ascii("-"), WriteWord("nan", upper) + WritePayload(payload));
  }

  lemma SignUnmarked()
    ensures CommentCode.NoMarks([]) && CommentCode.NoMarks(Ascii("-"))
  {
  }

  lemma TailUnmarked(fraction: Option<seq<nat>>, exponent: Option<Exponent>)
    requires (fraction.Some? ==> Digital(fraction.value)) && (exponent.Some? ==> GoodExponent(exponent.value))
    ensures CommentCode.NoMarks(WriteFraction(fraction)) && CommentCode.NoMarks(WritePower(exponent))
  {
    hide WriteDigits;
    if fraction.Some? { DigitsUnmarked(fraction.value); }
    if exponent.Some? { DigitsUnmarked(exponent.value.digits); }
  }

  lemma PayloadUnmarked(payload: Option<Bytes>)
    requires payload.Some? ==> WordBytes(payload.value)
    ensures CommentCode.NoMarks(WritePayload(payload))
  {
  }

  // Whole trees

  lemma WordBecomes(s: string)
    requires s in {"null", "true", "false", "[", "]", "{", "}", ",", ":"}
    ensures Becomes(Ascii(s), Ascii(s))
  {
    hide Becomes;
    PlainBecomes(Ascii(s));
  }

  lemma BracketsBecome()
    ensures Becomes(Ascii("["), Ascii("[")) && Becomes(Ascii("]"), Ascii("]"))
    ensures Becomes(Ascii("{"), Ascii("{")) && Becomes(Ascii("}"), Ascii("}"))
    ensures Becomes(Ascii(","), Ascii(",")) && Becomes(Ascii(":"), Ascii(":"))
  {
    hide Becomes;
    WordBecomes("[");
    WordBecomes("]");
    WordBecomes("{");
    WordBecomes("}");
    WordBecomes(",");
    WordBecomes(":");
  }

  lemma {:induction false} NodeBecomes(node: Node)
    requires Spelled(node) && Commented(node)
    ensures Spelled(Bare(node)) && Becomes(Write(node), Write(Bare(node)))
    decreases node, 1
  {
    hide Becomes, WriteNumeral, WriteText, WriteItems, WritePairs, WriteSpaces, BareSpaces, BareItems, BarePairs, GoodSpaces;
    BareSpelled(node);
    match node
    case Null => WordBecomes("null");
    case Bool(b) => WordBecomes("true"); WordBecomes("false");
    case Number(num) => NumeralUnmarked(num); PlainBecomes(WriteNumeral(num));
    case Text(chars) => TextBecomes(chars);
    case List(gap, items) =>
      ItemsSpelled(items);
      ItemsBecome(items);
      ContainerBecomes("[", gap, WriteItems(items), WriteItems(BareItems(items)), "]");
    case Dict(gap, pairs) =>
      PairsSpelled(pairs);
      PairsBecome(pairs);
      ContainerBecomes("{", gap, WritePairs(pairs), WritePairs(BarePairs(pairs)), "}");
  }

  lemma ContainerBecomes(open: string, gap: seq<Space>, t: Bytes, u: Bytes, close: string)
    requires (open == "[" || open == "{") && (close == "]" || close == "}") && GoodSpaces(gap) && Becomes(t, u)
    ensures Becomes(Ascii(open) + WriteSpaces(gap) + t + Ascii(close),
      Ascii(open) + WriteSpaces(BareSpaces(gap)) + u + Ascii(close))
  {
    hide Becomes, WriteSpaces, BareSpaces;
    WordBecomes(open);
    WordBecomes(close);
    SpacesBecome(gap);
    var g, h := WriteSpaces(gap), WriteSpaces(BareSpaces(gap));
    BecomesBoth(Ascii(open), Ascii(open), g, h);
    BecomesBoth(Ascii(open) + g, Ascii(open) + h, t, u);
    BecomesBoth(Ascii(open) + g + t, Ascii(open) + h + u, Ascii(close), Ascii(close));
  }

  ghost predicate GoodItem(item: Item) {
    Spelled(item.node) && Commented(item.node) && GoodSpaces(item.before) && GoodSpaces(item.after)
  }

  lemma {:induction false} ItemsSpelled(items: seq<Item>)
    requires forall i :: 0 <= i < |items| ==> GoodItem(items[i])
    ensures forall i :: 0 <= i < |items| ==> Spelled(BareItems(items)[i].node)
  {
    hide Spelled, Bare, BareItems, GoodSpaces;
    forall i | 0 <= i < |items| ensures Spelled(BareItems(items)[i].node) {
      assert GoodItem(items[i]);
      BareItemAt(items, i);
      BareSpelled(items[i].node);
    }
  }

  lemma {:induction false} ItemsBecome(items: seq<Item>)
    requires forall i :: 0 <= i < |items| ==> GoodItem(items[i])
    requires forall i :: 0 <= i < |items| ==> Spelled(items[i].node) && Spelled(BareItems(items)[i].node)
    ensures Becomes(WriteItems(items), WriteItems(BareItems(items)))
    decreases items
  {
    hide Becomes, Spelled, Commented, Bare, WriteItem, GoodSpaces;
    if items == [] {
      NothingBecomes();
    } else {
      assert GoodItem(items[0]);
      var b := BareItems(items);
      assert b[1..] == BareItems(items[1..]);
      ItemBecomes(items[0]);
      if |items| == 1 {
        assert WriteItem(items[0]) + [] == WriteItem(items[0]) && WriteItem(b[0]) + [] == WriteItem(b[0]);
      } else {
        forall i | 0 <= i < |items[1..]|
          ensures GoodItem(items[1..][i]) && Spelled(items[1..][i].node) && Spelled(BareItems(items[1..])[i].node)
        {
          assert items[1..][i] == items[i + 1] && b[1..][i] == b[i + 1];
        }
        ItemsBecome(items[1..]);
        BracketsBecome();
        BecomesBoth(Ascii(","), Ascii(","), WriteItems(items[1..]), WriteItems(b[1..]));
        BecomesBoth(WriteItem(items[0]), WriteItem(b[0]), Ascii(",") + WriteItems(items[1..]),
          Ascii(",") + WriteItems(b[1..]));
      }
    }
  }

  lemma {:induction false} ItemBecomes(item: Item)
    requires GoodItem(item)
    ensures var b := Item(BareSpaces(item.before), Bare(item.node), BareSpaces(item.after));
      Spelled(b.node) && Becomes(WriteItem(item), WriteItem(b))
    decreases item
  {
    hide Becomes, WriteSpaces, BareSpaces, Spelled, Commented, Bare, Write, GoodSpaces;
    SpacesBecome(item.before);
    NodeBecomes(item.node);
    SpacesBecome(item.after);
    var w, x := WriteSpaces(item.before), WriteSpaces(BareSpaces(item.before));
    BecomesBoth(w, x, Write(item.node), Write(Bare(item.node)));
    BecomesBoth(w + Write(item.node), x + Write(Bare(item.node)), WriteSpaces(item.after),
      WriteSpaces(BareSpaces(item.after)));
  }

  ghost predicate GoodPair(p: Pair) {
    && GoodChars(p.key) && Spelled(p.node) && Commented(p.node)
    && GoodSpaces(p.before) && GoodSpaces(p.mid) && GoodSpaces(p.gap) && GoodSpaces(p.after)
  }

  lemma {:induction false} PairsSpelled(pairs: seq<Pair>)
    requires forall i :: 0 <= i < |pairs| ==> GoodPair(pairs[i])
    ensures forall i :: 0 <= i < |pairs| ==> GoodChars(BarePairs(pairs)[i].key) && Spelled(BarePairs(pairs)[i].node)
  {
    hide Spelled, Bare, BarePairs, GoodSpaces, GoodChars;
    forall i | 0 <= i < |pairs| ensures GoodChars(BarePairs(pairs)[i].key) && Spelled(BarePairs(pairs)[i].node) {
      assert GoodPair(pairs[i]);
      BarePairAt(pairs, i);
      BareSpelled(pairs[i].node);
    }
  }

  lemma {:induction false} PairsBecome(pairs: seq<Pair>)
    requires forall i :: 0 <= i < |pairs| ==> GoodPair(pairs[i])
    requires forall i :: 0 <= i < |pairs| ==>
      && GoodChars(pairs[i].key) && Spelled(pairs[i].node)
      && GoodChars(BarePairs(pairs)[i].key) && Spelled(BarePairs(pairs)[i].node)
    ensures Becomes(WritePairs(pairs), WritePairs(BarePairs(pairs)))
    decreases pairs
  {
    hide Becomes, Spelled, Commented, Bare, WritePair, GoodSpaces, GoodChars;
    if pairs == [] {
      NothingBecomes();
    } else {
      assert GoodPair(pairs[0]);
      var b := BarePairs(pairs);
      assert b[1..] == BarePairs(pairs[1..]);
      PairBecomes(pairs[0]);
      if |pairs| == 1 {
        assert WritePair(pairs[0]) + [] == WritePair(pairs[0]) && WritePair(b[0]) + [] == WritePair(b[0]);
      } else {
        forall i | 0 <= i < |pairs[1..]|
          ensures GoodPair(pairs[1..][i]) && GoodChars(pairs[1..][i].key) && Spelled(pairs[1..][i].node)
          ensures GoodChars(BarePairs(pairs[1..])[i].key) && Spelled(BarePairs(pairs[1..])[i].node)
        {
          assert pairs[1..][i] == pairs[i + 1] && b[1..][i] == b[i + 1];
        }
        PairsBecome(pairs[1..]);
        BracketsBecome();
        BecomesBoth(Ascii(","), Ascii(","), WritePairs(pairs[1..]), WritePairs(b[1..]));
        BecomesBoth(WritePair(pairs[0]), WritePair(b[0]), Ascii(",") + WritePairs(pairs[1..]),
          Ascii(",") + WritePairs(b[1..]));
      }
    }
  }

  lemma {:induction false} PairBecomes(p: Pair)
    requires GoodPair(p)
    ensures var b := Pair(BareSpaces(p.before), p.key, BareSpaces(p.mid), BareSpaces(p.gap), Bare(p.node),
      BareSpaces(p.after));
      Spelled(b.node) && Becomes(WritePair(p), WritePair(b))
    decreases p
  {
    hide Becomes, WriteSpaces, BareSpaces, Spelled, Commented, Bare, Write, WriteText, GoodSpaces, GoodChars;
    SpacesBecome(p.before);
    SpacesBecome(p.mid);
    SpacesBecome(p.gap);
    SpacesBecome(p.after);
    TextBecomes(p.key);
    NodeBecomes(p.node);
    BracketsBecome();
    var t, u := WriteSpaces(p.before), WriteSpaces(BareSpaces(p.before));
    BecomesBoth(t, u, WriteText(p.key), WriteText(p.key));
    t, u := t + WriteText(p.key), u + WriteText(p.key);
    BecomesBoth(t, u, WriteSpaces(p.mid), WriteSpaces(BareSpaces(p.mid)));
    t, u := t + WriteSpaces(p.mid), u + WriteSpaces(BareSpaces(p.mid));
    BecomesBoth(t, u, Ascii(":"), Ascii(":"));
    t, u := t + Ascii(":"), u + Ascii(":");
    BecomesBoth(t, u, WriteSpaces(p.gap), WriteSpaces(BareSpaces(p.gap)));
    t, u := t + WriteSpaces(p.gap), u + WriteSpaces(BareSpaces(p.gap));
    BecomesBoth(t, u, Write(p.node), Write(Bare(p.node)));
    t, u := t + Write(p.node), u + Write(Bare(p.node));
    BecomesBoth(t, u, WriteSpaces(p.after), WriteSpaces(BareSpaces(p.after)));
  }

  // What is parsed

  /** A tree with comments anywhere between its tokens is parsed to what it stands for. */
  lemma CommentedReads(lead: seq<Space>, node: Node, trail: seq<Space>)
    requires GoodSpaces(lead) && GoodSpaces(trail) && Spelled(node) && Commented(node) && Legal(node, 0)
    ensures ParseText(CommentCode.WithoutComments(WriteSpaces(lead) + Write(node) + WriteSpaces(trail))) ==
      Got(Read(node), WriteSpaces(BareSpaces(trail)))
  {
    hide Becomes, WriteSpaces, BareSpaces, Write, Bare, Read, Legal, Commented, GoodSpaces, AllWhite, Plainly, Stops,
      ParseValue,
         CommentCode.WithoutComments;
    BareSpelled(node);
    BareLegal(node, 0);
    BareIsWhite(lead);
    SpacesBecome(lead);
    NodeBecomes(node);
    SpacesBecome(trail);
    var w, x, rest := WriteSpaces(lead), WriteSpaces(BareSpaces(lead)), WriteSpaces(BareSpaces(trail));
    BecomesBoth(w, x, Write(node), Write(Bare(node)));
    BecomesBoth(w + Write(node), x + Write(Bare(node)), WriteSpaces(trail), rest);
    Blanked(w + Write(node) + WriteSpaces(trail), x + Write(Bare(node)) + rest);
    BareIsWhite(trail);
    if Bare(node).Number? { StopsAtBlanks(Bare(node).num, BareSpaces(trail)); }
    T.NodeReads(BareSpaces(lead), Bare(node), rest, 0);
  }

  lemma StopsAtBlanks(num: Numeral, sp: seq<Space>)
    requires AllWhite(sp)
    ensures Stops(num, WriteSpaces(sp))
  {
    hide Stops;
    if sp == [] { StopsAtEnd(num); } else { T.StopsBefore(num, WriteSpaces(sp)); }
  }

  lemma StopsAtEnd(num: Numeral)
    ensures Stops(num, [])
  {
  }

  // Printed values

  /** The tokens with nothing between them. */
  function Tight(node: Node): Node
    decreases node, 0
  {
    match node
    case List(_, items) => List([], TightItems(items))
    case Dict(_, pairs) => Dict([], TightPairs(pairs))
    case _ => node
  }

  function TightItems(items: seq<Item>): (r: seq<Item>)
    ensures |r| == |items|
  {
    if items == [] then [] else [Item([], Tight(items[0].node), [])] + TightItems(items[1..])
  }

  function TightPairs(pairs: seq<Pair>): (r: seq<Pair>)
    ensures |r| == |pairs|
  {
    if pairs == [] then []
    else [Pair([], pairs[0].key, [], [], Tight(pairs[0].node), [])] + TightPairs(pairs[1..])
  }

  lemma {:induction false} TightItemAt(items: seq<Item>, i: nat)
    requires i < |items|
    ensures TightItems(items)[i] == Item([], Tight(items[i].node), [])
  {
    hide Tight;
    if i > 0 { TightItemAt(items[1..], i - 1); }
  }

  lemma {:induction false} TightPairAt(pairs: seq<Pair>, i: nat)
    requires i < |pairs|
    ensures TightPairs(pairs)[i] == Pair([], pairs[i].key, [], [], Tight(pairs[i].node), [])
  {
    hide Tight;
    if i > 0 { TightPairAt(pairs[1..], i - 1); }
  }

  lemma {:induction false} TightReads(node: Node)
    requires Spelled(node)
    ensures Spelled(Tight(node)) && Read(Tight(node)) == Read(node)
    decreases node
  {
    match node
    case List(_, items) =>
      forall i | 0 <= i < |items|
        ensures var t := TightItems(items)[i]; Spelled(t.node) && Read(t.node) == Read(items[i].node)
      {
        TightItemAt(items, i);
        TightReads(items[i].node);
      }
      SameReads(items, TightItems(items));
    case Dict(_, pairs) =>
      forall i | 0 <= i < |pairs|
        ensures var t := TightPairs(pairs)[i];
          t.key == pairs[i].key && Spelled(t.node) && Read(t.node) == Read(pairs[i].node)
      {
        TightPairAt(pairs, i);
        TightReads(pairs[i].node);
      }
      SamePairReads(pairs, TightPairs(pairs));
    case _ =>
  }

  lemma {:induction false} HeightAt(items: seq<Value>, i: nat)
    requires i < |items|
    ensures Height(items[i]) <= HeightOfItems(items)
  {
    hide Height;
    if i > 0 { HeightAt(items[1..], i - 1); }
  }

  lemma {:induction false} EntryHeightAt(entries: seq<Entry>, i: nat)
    requires i < |entries|
    ensures Height(entries[i].value) <= HeightOfEntries(entries)
  {
    hide Height;
    if i > 0 { EntryHeightAt(entries[1..], i - 1); }
  }

  /** A tree for a well-formed value keeps the limits when the value is not nested too deep. */
  lemma {:induction false} LegalWhen(node: Node, v: Value, depth: nat)
    requires Spelled(node) && Read(node) == Trim(v) && WellFormed(v) && depth + Height(v) <= 19
    ensures Legal(node, depth)
    decreases node, 1
  {
    hide ReadItems, ReadPairs, TrimItems, TrimEntries, HeightOfItems, HeightOfEntries, Legal;
    match node
    case List(_, _) => ListLegal(node, v, depth);
    case Dict(_, _) => DictLegal(node, v, depth);
    case _ => LeafLegal(node, depth);
  }

  lemma LeafLegal(node: Node, depth: nat)
    requires Spelled(node) && depth <= 19 && !node.List? && !node.Dict?
    ensures Legal(node, depth)
  {
  }

  lemma {:induction false} ListLegal(node: Node, v: Value, depth: nat)
    requires node.List? && Spelled(node) && Read(node) == Trim(v) && WellFormed(v) && depth + Height(v) <= 19
    ensures Legal(node, depth)
    decreases node, 0
  {
    hide ReadItems, TrimItems, HeightOfItems;
    var items := node.items;
    assert |ReadItems(items)| == |TrimItems(v.items)|;
    forall i | 0 <= i < |items| ensures Legal(items[i].node, depth + 1) {
      P.ReadAt(items, i);
      TrimmedItem(v.items, i);
      HeightAt(v.items, i);
      LegalWhen(items[i].node, v.items[i], depth + 1);
    }
  }

  lemma {:induction false} DictLegal(node: Node, v: Value, depth: nat)
    requires node.Dict? && Spelled(node) && Read(node) == Trim(v) && WellFormed(v) && depth + Height(v) <= 19
    ensures Legal(node, depth)
    decreases node, 0
  {
    hide ReadPairs, TrimEntries, HeightOfEntries, ReadText;
    var pairs := node.pairs;
    assert |ReadPairs(pairs)| == |TrimEntries(v.entries)|;
    forall i | 0 <= i < |pairs|
      ensures Legal(pairs[i].node, depth + 1) && ReadText(pairs[i].key) == v.entries[i].name
    {
      P.ReadPairAt(pairs, i);
      TrimmedEntry(v.entries, i);
      EntryHeightAt(v.entries, i);
      LegalWhen(pairs[i].node, v.entries[i].value, depth + 1);
    }
  }

  /** A printed value with blanks and comments put between its tokens is parsed to that value. */
  lemma CommentedPrintReads(v: Value, lead: seq<Space>, node: Node, trail: seq<Space>)
    requires WellFormed(v) && Height(v) <= 19 && GoodSpaces(lead) && GoodSpaces(trail)
    requires Spelled(node) && Commented(node) && P.Printing(Tight(node), v, 0, false)
    ensures ParseText(CommentCode.WithoutComments(WriteSpaces(lead) + Write(node) + WriteSpaces(trail))) ==
      Got(Trim(v), WriteSpaces(BareSpaces(trail)))
  {
    hide WriteSpaces, BareSpaces, Write, Read, Legal, Commented, GoodSpaces, ParseValue, CommentCode.WithoutComments,
      Trim, Tight,
         Spelled, P.Laid, Height, WellFormed, Printer.Print;
    TightReads(node);
    LegalWhen(node, v, 0);
    CommentedReads(lead, node, trail);
  }
}

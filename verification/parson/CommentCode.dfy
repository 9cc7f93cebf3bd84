/** `remove_comments` in place, and parsing with comments. */
module CommentCode {
  import opened Bytes
  import opened Comments
  import Decimal
  import opened Parser
  import opened ParserCode
  import opened Printer
  import opened RoundTrip
  import opened Strings
  import opened Values

  /** `n` is where the NUL is. */
  ghost predicate Terminated(buf: array<byte>, n: nat)
    reads buf
  {
    n < buf.Length && buf[n] == 0 && NoNul(buf[..n])
  }

  /** Whether the token is at that place, compared byte by byte as `strncmp` does. */
  method StartsWith(buf: array<byte>, pos: nat, token: Bytes, ghost n: nat) returns (r: bool)
    requires Terminated(buf, n) && pos <= n && NoNul(token)
    ensures r <==> token <= buf[pos..n]
  {
    ghost var s := buf[pos..n];
    var i := 0;
    while i < |token|
      invariant 0 <= i <= |token| && i <= |s|
      invariant forall k :: 0 <= k < i ==> token[k] == s[k]
    {
      if buf[pos + i] != token[i] {
        assert i < |s| ==> s[i] != token[i];
        return false;
      }
      assert i < |s|;
      i := i + 1;
    }
    r := true;
  }

  method StrStr(buf: array<byte>, pos: nat, token: Bytes, ghost n: nat) returns (r: Option<nat>)
    requires Terminated(buf, n) && pos <= n && NoNul(token) && token != []
    ensures r == IndexOf(token, buf[pos..n])
  {
    var i := pos;
    while buf[i] != 0
      invariant pos <= i <= n
      invariant IndexOf(token, buf[pos..n]) ==
        match IndexOf(token, buf[i..n]) case None => None case Some(p) => Some(i - pos + p)
      decreases n - i
    {
      var here := StartsWith(buf, i, token, n);
      if here { return Some(i - pos); }
      assert buf[i..n][1..] == buf[i + 1..n];
      i := i + 1;
    }
    r := None;
  }

  /** Spaces from `from` to `to`, and everything else as it was. */
  ghost predicate Overwritten(before: Bytes, now: Bytes, from: nat, to: nat) {
    |now| == |before| && forall k :: 0 <= k < |now| ==> now[k] == if from <= k < to then SPACE else before[k]
  }

  method Blank(buf: array<byte>, from: nat, to: nat)
    requires from <= to <= buf.Length
    modifies buf
    ensures Overwritten(old(buf[..]), buf[..], from, to)
  {
    var i := from;
    while i < to
      invariant from <= i <= to
      invariant Overwritten(old(buf[..]), buf[..], from, i)
    {
      buf[i] := SPACE;
      i := i + 1;
    }
  }

  /** The comment at `at`: its start token, and what follows up to the end of its end token if it has one. */
  method BlankComment(buf: array<byte>, at: nat, start: Bytes, end: Bytes, ghost n: nat)
    returns (closed: bool, next: nat)
    requires Terminated(buf, n) && at <= n && NoNul(end) && end != [] && start != [] && start <= buf[at..n]
    modifies buf
    ensures Terminated(buf, n)
    ensures var p := IndexOf(end, old(buf[at + |start|..n]));
      && (closed <==> p.Some?)
      && next == at + |start| + (if closed then p.value + |end| else 0) && next <= n
    ensures Overwritten(old(buf[..]), buf[..], at, next)
  {
    hide IndexOf, NoNul, Overwritten;
    ghost var before := buf[..];
    next := at + |start|;
    Blank(buf, at, next);
    ghost var once := buf[..];
    StillTerminated(before, once, at, next, n);
    RestAsBefore(before, once, at, next, n);
    var ptr := StrStr(buf, next, end, n);
    if ptr == None { return false, next; }
    Blank(buf, next, next + ptr.value + |end|);
    StillTerminated(once, buf[..], next, next + ptr.value + |end|, n);
    OverwrittenTwice(before, once, buf[..], at, next, next + ptr.value + |end|);
    next := next + ptr.value + |end|;
    closed := true;
  }

  lemma StillTerminated(before: Bytes, now: Bytes, from: nat, to: nat, n: nat)
    requires from <= to <= n < |before| && Overwritten(before, now, from, to)
    requires before[n] == 0 && NoNul(before[..n])
    ensures now[n] == 0 && NoNul(now[..n])
  {
    assert forall k :: 0 <= k < n ==> before[k] == before[..n][k];
  }

  lemma RestAsBefore(before: Bytes, now: Bytes, from: nat, to: nat, n: nat)
    requires from <= to <= n <= |before| && Overwritten(before, now, from, to)
    ensures |now| == |before| && now[to..n] == before[to..n] && now[n..] == before[n..]
  {
  }

  lemma OverwrittenTwice(before: Bytes, once: Bytes, now: Bytes, from: nat, mid: nat, to: nat)
    requires from <= mid <= to && Overwritten(before, once, from, mid) && Overwritten(once, now, mid, to)
    ensures Overwritten(before, now, from, to)
  {
  }

  /** The text before the NUL is stripped; what follows is not touched. */
  method RemoveComments(buf: array<byte>, start: Bytes, end: Bytes, ghost n: nat)
    requires Terminated(buf, n) && NoNul(start) && NoNul(end)
    modifies buf
    ensures Terminated(buf, n)
    ensures start != [] && end != [] ==> buf[..n] == Strip(old(buf[..n]), start, end, false, false)
    ensures start == [] || end == [] ==> buf[..n] == old(buf[..n])
    ensures buf[n..] == old(buf[n..])
  {
    hide Strip, Unclosed, HasComment, IndexOf, Spaces, NoNul, Begins;
    if |start| == 0 || |end| == 0 { return; }
    ghost var goal := Strip(buf[..n], start, end, false, false);
    var at, inString, escaped := 0, false, false;
    assert buf[0..n] == buf[..n];
    while buf[at] != 0
      invariant 0 <= at <= n && Terminated(buf, n) && buf[n..] == old(buf[n..])
      invariant Left(buf[..], at, n, start, end, inString, escaped) == goal
      decreases n - at
    {
      NotAtEnd(buf[..], at, n);
      BeginsHere(buf[at..n], start, inString, escaped);
      var c := buf[at];
      if c == BACKSLASH && !escaped {
        ByteStep(buf[..], at, n, start, end, inString, escaped);
        escaped := true;
        at := at + 1;
        continue;
      } else if c == QUOTE && !escaped {
        ByteStep(buf[..], at, n, start, end, inString, escaped);
        inString := !inString;
      } else {
        var here := false;
        if !inString { here := StartsWith(buf, at, start, n); }
        if here {
          ghost var before := buf[..];
          var closed, next := BlankComment(buf, at, start, end, n);
          CommentStep(before, buf[..], at, next, n, start, end, escaped);
          RestAsBefore(before, buf[..], at, next, n);
          if !closed { return; }
          at := next - 1;
        } else {
          ByteStep(buf[..], at, n, start, end, inString, escaped);
        }
      }
      escaped := false;
      at := at + 1;
    }
    AtEnd(buf[..], at, n);
    NothingLeft(buf[..], n, start, end, inString, escaped);
  }

  /** What the text will be: what is done, and what is made of the rest. */
  ghost function Left(b: Bytes, at: nat, n: nat, start: Bytes, end: Bytes, q: bool, e: bool): Bytes
    requires at <= n <= |b| && start != [] && end != []
  {
    b[..at] + Strip(b[at..n], start, end, q, e)
  }

  lemma NotAtEnd(b: Bytes, at: nat, n: nat)
    requires at <= n < |b| && b[n] == 0 && b[at] != 0
    ensures at < n && b[at..n] != [] && b[at..n][0] == b[at]
  {
  }

  lemma AtEnd(b: Bytes, at: nat, n: nat)
    requires at <= n < |b| && NoNul(b[..n]) && b[at] == 0
    ensures at == n
  {
    NotNulBefore(b[..n], at);
  }

  lemma NotNulBefore(s: Bytes, i: nat)
    requires NoNul(s)
    ensures i < |s| ==> s[i] != 0
  {
  }

  lemma NothingLeft(b: Bytes, n: nat, start: Bytes, end: Bytes, q: bool, e: bool)
    requires n <= |b| && start != [] && end != []
    ensures Left(b, n, n, start, end, q, e) == b[..n]
  {
    assert b[n..n] == [];
  }

  lemma BeginsHere(s: Bytes, start: Bytes, q: bool, e: bool)
    requires s != []
    ensures (s[0] == BACKSLASH || s[0] == QUOTE) && !e ==> !Begins(s, start, q, e)
    ensures !((s[0] == BACKSLASH || s[0] == QUOTE) && !e) ==> (Begins(s, start, q, e) <==> !q && start <= s)
  {
  }

  lemma ByteStep(b: Bytes, at: nat, n: nat, start: Bytes, end: Bytes, q: bool, e: bool)
    requires at < n <= |b| && start != [] && end != [] && !Begins(b[at..n], start, q, e)
    ensures Left(b, at, n, start, end, q, e) ==
      Left(b, at + 1, n, start, end, NextInString(b[at], q, e), NextEscaped(b[at], e))
  {
    hide Strip, Unclosed, HasComment, Begins, NextInString, NextEscaped;
    var s := b[at..n];
    AtByte(s, start, end, q, e);
    assert s[1..] == b[at + 1..n];
    var later := Strip(s[1..], start, end, NextInString(b[at], q, e), NextEscaped(b[at], e));
    assert b[..at] + ([b[at]] + later) == b[..at + 1] + later;
  }

  lemma CommentStep(b: Bytes, now: Bytes, at: nat, next: nat, n: nat, start: Bytes, end: Bytes, e: bool)
    requires at < n <= |b| && start != [] && end != [] && Begins(b[at..n], start, false, e)
    requires at <= next <= n && Overwritten(b, now, at, next)
    requires var p := IndexOf(end, b[at + |start|..n]);
      next == at + |start| + if p.Some? then p.value + |end| else 0
    ensures IndexOf(end, b[at + |start|..n]).Some? ==>
      Left(b, at, n, start, end, false, e) == Left(now, next, n, start, end, false, false)
    ensures IndexOf(end, b[at + |start|..n]) == None ==> Left(b, at, n, start, end, false, e) == now[..n]
  {
    hide Strip, Unclosed, HasComment, Begins, IndexOf, Spaces, Overwritten, Left;
    DoneSoFar(b, now, at, next, n);
    if IndexOf(end, b[at + |start|..n]) == None {
      OpenCommentLeft(b, at, n, start, end, e);
    } else {
      ClosedCommentLeft(b, at, next - at, n, start, end, e);
      LeftAfter(b, now, at, next, n, start, end);
    }
  }

  lemma LeftAfter(b: Bytes, now: Bytes, at: nat, next: nat, n: nat, start: Bytes, end: Bytes)
    requires at <= next <= n <= |b| && start != [] && end != [] && Overwritten(b, now, at, next)
    ensures n <= |now| && Left(now, next, n, start, end, false, false) ==
      b[..at] + Spaces(next - at) + Strip(b[next..n], start, end, false, false)
  {
    hide Strip, Spaces, Overwritten, Left;
    RestAsBefore(b, now, at, next, n);
    DoneSoFar(b, now, at, next, n);
    LeftIs(now, next, n, start, end, false, false);
  }

  lemma LeftIs(b: Bytes, at: nat, n: nat, start: Bytes, end: Bytes, q: bool, e: bool)
    requires at <= n <= |b| && start != [] && end != []
    ensures Left(b, at, n, start, end, q, e) == b[..at] + Strip(b[at..n], start, end, q, e)
  {
  }

  lemma OpenCommentLeft(b: Bytes, at: nat, n: nat, start: Bytes, end: Bytes, e: bool)
    requires at < n <= |b| && start != [] && end != [] && Begins(b[at..n], start, false, e)
    requires at + |start| <= n && IndexOf(end, b[at + |start|..n]) == None
    ensures Left(b, at, n, start, end, false, e) == b[..at] + Spaces(|start|) + b[at + |start|..n]
  {
    hide Strip, Unclosed, HasComment, Begins, IndexOf, Spaces;
    Slice(b, at, |start|, n);
    AtComment(b[at..n], start, end, false, e);
    Associate(b[..at], Spaces(|start|), b[at + |start|..n]);
  }

  lemma ClosedCommentLeft(b: Bytes, at: nat, m: nat, n: nat, start: Bytes, end: Bytes, e: bool)
    requires at < n <= |b| && start != [] && end != [] && Begins(b[at..n], start, false, e) && at + m <= n
    requires at + |start| <= n && var p := IndexOf(end, b[at + |start|..n]); p.Some? && m == |start| + p.value + |end|
    ensures Left(b, at, n, start, end, false, e) == b[..at] + Spaces(m) + Strip(b[at + m..n], start, end, false, false)
  {
    hide Strip, Unclosed, HasComment, Begins, IndexOf, Spaces, Left;
    var s, later := b[at..n], Strip(b[at + m..n], start, end, false, false);
    Slice(b, at, |start|, n);
    Slice(b, at, m, n);
    ClosedComment(s, start, end, e, m);
    LeftIs(b, at, n, start, end, false, e);
    Associate(b[..at], Spaces(m), later);
  }

  lemma ClosedComment(s: Bytes, start: Bytes, end: Bytes, e: bool, m: nat)
    requires start != [] && end != [] && Begins(s, start, false, e)
    requires var p := IndexOf(end, s[|start|..]); p.Some? && m == |start| + p.value + |end|
    ensures m <= |s| && Strip(s, start, end, false, e) == Spaces(m) + Strip(s[m..], start, end, false, false)
  {
    hide Strip, Unclosed, HasComment, IndexOf, Spaces;
    AtComment(s, start, end, false, e);
  }

  lemma Slice(b: Bytes, at: nat, k: nat, n: nat)
    requires at + k <= n <= |b|
    ensures b[at..n][k..] == b[at + k..n]
  {
  }

  lemma Associate(a: Bytes, b: Bytes, c: Bytes)
    ensures a + (b + c) == a + b + c
  {
  }

  lemma DoneSoFar(b: Bytes, now: Bytes, at: nat, next: nat, n: nat)
    requires at <= next <= n <= |b| && Overwritten(b, now, at, next)
    ensures now[..next] == b[..at] + Spaces(next - at) && now[..n] == b[..at] + Spaces(next - at) + b[next..n]
  {
  }

  // Parsing with comments

  /** The text after both passes. */
  function WithoutComments(s: Bytes): Bytes {
    Strip(Strip(s, SLASH_STAR, STAR_SLASH, false, false), SLASH_SLASH, LINE_END, false, false)
  }

  /** `json_parse_string_with_comments` */
  method JsonParseStringWithComments(text: Bytes) returns (r: Outcome)
    requires NoNul(text)
    ensures var expected := ParseText(WithoutComments(text));
      && (expected.Got? ==> r == Built(expected.value))
      && (expected.Fail? ==> r == NoValue)
  {
    hide ParseValue, Strip;
    var n := |text|;
    var buf := new byte[n + 1];
    forall k | 0 <= k < n { buf[k] := text[k]; }
    buf[n] := 0;
    assert buf[..n] == text;
    RemoveComments(buf, SLASH_STAR, STAR_SLASH, n);
    RemoveComments(buf, SLASH_SLASH, LINE_END, n);
    r := JsonParseString(buf[..n]);
  }

  // Printed texts have no comments

  /** Outside literals, the pass goes over the text and leaves it alone. */
  ghost predicate Kept(t: Bytes, start: Bytes, end: Bytes)
    requires start != [] && end != []
  {
    forall rest :: Strip(t + rest, start, end, false, false) == t + Strip(rest, start, end, false, false)
  }

  lemma KeptBoth(s: Bytes, t: Bytes, start: Bytes, end: Bytes)
    requires start != [] && end != [] && Kept(s, start, end) && Kept(t, start, end)
    ensures Kept(s + t, start, end)
  {
    hide Strip;
    forall rest ensures Strip(s + t + rest, start, end, false, false) == s + t + Strip(rest, start, end, false, false) {
      assert s + t + rest == s + (t + rest);
      assert s + (t + Strip(rest, start, end, false, false)) == s + t + Strip(rest, start, end, false, false);
    }
  }

  predicate NoMarks(t: Bytes) { forall i :: 0 <= i < |t| ==> t[i] != QUOTE && t[i] != BACKSLASH && t[i] != SLASH }

  lemma {:induction false} PlainKept(t: Bytes, start: Bytes, end: Bytes)
    requires start != [] && start[0] == SLASH && end != [] && NoMarks(t)
    ensures Kept(t, start, end)
  {
    hide Strip;
    forall rest ensures Strip(t + rest, start, end, false, false) == t + Strip(rest, start, end, false, false) {
      PlainPassed(t, rest, start, end);
    }
  }

  lemma {:induction false} PlainPassed(t: Bytes, rest: Bytes, start: Bytes, end: Bytes)
    requires start != [] && start[0] == SLASH && end != [] && NoMarks(t)
    ensures Strip(t + rest, start, end, false, false) == t + Strip(rest, start, end, false, false)
  {
    hide Strip, Unclosed, HasComment;
    if t == [] {
      assert t + rest == rest && t + Strip(rest, start, end, false, false) == Strip(rest, start, end, false, false);
    } else {
      PlainPassed(t[1..], rest, start, end);
      assert (t + rest)[1..] == t[1..] + rest;
      AtByte(t + rest, start, end, false, false);
      assert [t[0]] + (t[1..] + Strip(rest, start, end, false, false)) == t + Strip(rest, start, end, false, false);
    }
  }

  lemma QuotedKept(s: Bytes, start: Bytes, end: Bytes)
    requires StartToken(start) && start != [] && end != []
    ensures Kept(Quoted(s), start, end)
  {
    hide Strip, RawLength, Escape, StartToken;
    RawOfEscaped(s, []);
    assert Escape(s) + [QUOTE] + [] == Escape(s) + [QUOTE];
    forall rest ensures Strip(Quoted(s) + rest, start, end, false, false) ==
      Quoted(s) + Strip(rest, start, end, false, false) {
      LiteralFirst(Escape(s), rest, start, end);
    }
  }

  /** A start token that begins with a slash. */
  ghost predicate Slashed(start: Bytes) { StartToken(start) && start != [] && start[0] == SLASH }

  lemma {:induction false} PrintKept(v: Value, level: nat, pretty: bool, start: Bytes, end: Bytes)
    requires Slashed(start) && end != []
    ensures Kept(Print(v, level, pretty), start, end)
    decreases v, 0
  {
    hide Kept, PrintItems, PrintEntries, PrintNumber, Quoted, Indent, StartToken;
    match v
    case JStr(s) => QuotedKept(s, start, end);
    case JNum(n) => NumberUnmarked(n); PlainKept(PrintNumber(n), start, end);
    case JNull => PlainKept(NULL, start, end);
    case JBool(b) => PlainKept(TRUE, start, end); PlainKept(FALSE, start, end);
    case JArr(items, _) =>
      ItemsKept(items, level, pretty, start, end);
      WrappedKept(OPEN_BRACKET, PrintItems(items, level, pretty), CLOSE_BRACKET, level, pretty, start, end);
    case JObj(entries, _) =>
      EntriesKept(entries, level, pretty, start, end);
      WrappedKept(OPEN_BRACE, PrintEntries(entries, level, pretty), CLOSE_BRACE, level, pretty, start, end);
  }

  lemma NumberUnmarked(n: int)
    ensures NoMarks(PrintNumber(n))
  {
    hide Decimal.Digits, Numerals;
  }

  lemma {:induction false} SpacesUnmarked(level: nat, pretty: bool)
    ensures NoMarks(Indent(level, pretty)) && NoMarks(LineEnd(pretty))
  {
    if level > 0 { SpacesUnmarked(level - 1, pretty); }
  }

  lemma WrappedKept(open: byte, inner: Bytes, close: byte, level: nat, pretty: bool, start: Bytes, end: Bytes)
    requires Slashed(start) && end != [] && Kept(inner, start, end)
    requires (open == OPEN_BRACKET || open == OPEN_BRACE) && (close == CLOSE_BRACKET || close == CLOSE_BRACE)
    ensures Kept([open] + LineEnd(pretty) + inner + Indent(level, pretty) + [close], start, end)
    ensures Kept([open, close], start, end)
  {
    hide Kept, StartToken, Indent;
    SpacesUnmarked(level, pretty);
    PlainKept([open, close], start, end);
    PlainKept([open] + LineEnd(pretty), start, end);
    PlainKept(Indent(level, pretty), start, end);
    PlainKept([close], start, end);
    KeptBoth([open] + LineEnd(pretty), inner, start, end);
    KeptBoth([open] + LineEnd(pretty) + inner, Indent(level, pretty), start, end);
    KeptBoth([open] + LineEnd(pretty) + inner + Indent(level, pretty), [close], start, end);
  }

  lemma {:induction false} ItemsKept(items: seq<Value>, level: nat, pretty: bool, start: Bytes, end: Bytes)
    requires Slashed(start) && end != []
    ensures Kept(PrintItems(items, level, pretty), start, end)
    decreases items
  {
    hide Kept, StartToken, Print;
    if items == [] {
      PlainKept([], start, end);
    } else {
      PrintKept(items[0], level + 1, pretty, start, end);
      PaddedKept(Print(items[0], level + 1, pretty), |items| == 1, level, pretty, start, end);
      ItemsKept(items[1..], level, pretty, start, end);
      KeptBoth(PrintItem(items[0], |items| == 1, level, pretty), PrintItems(items[1..], level, pretty), start, end);
    }
  }

  /** The indent before and the separator after. */
  lemma PaddedKept(t: Bytes, last: bool, level: nat, pretty: bool, start: Bytes, end: Bytes)
    requires Slashed(start) && end != [] && Kept(t, start, end)
    ensures Kept(Indent(level + 1, pretty) + t + Separator(last, pretty), start, end)
  {
    hide Kept, StartToken;
    SpacesUnmarked(level + 1, pretty);
    PlainKept(Indent(level + 1, pretty), start, end);
    PlainKept(Separator(last, pretty), start, end);
    KeptBoth(Indent(level + 1, pretty), t, start, end);
    KeptBoth(Indent(level + 1, pretty) + t, Separator(last, pretty), start, end);
  }

  lemma {:induction false} EntriesKept(entries: seq<Entry>, level: nat, pretty: bool, start: Bytes, end: Bytes)
    requires Slashed(start) && end != []
    ensures Kept(PrintEntries(entries, level, pretty), start, end)
    decreases entries
  {
    hide Kept, StartToken, PrintPair;
    if entries == [] {
      PlainKept([], start, end);
    } else {
      PairKept(entries[0], level, pretty, start, end);
      PaddedKept(PrintPair(entries[0], level, pretty), |entries| == 1, level, pretty, start, end);
      EntriesKept(entries[1..], level, pretty, start, end);
      KeptBoth(PrintEntry(entries[0], |entries| == 1, level, pretty), PrintEntries(entries[1..], level, pretty), start, end);
    }
  }

  lemma {:induction false} PairKept(e: Entry, level: nat, pretty: bool, start: Bytes, end: Bytes)
    requires Slashed(start) && end != []
    ensures Kept(PrintPair(e, level, pretty), start, end)
    decreases e, 1
  {
    hide Kept, StartToken, Print, Quoted;
    QuotedKept(e.name, start, end);
    PlainKept(Colon(pretty), start, end);
    PrintKept(e.value, level + 1, pretty, start, end);
    KeptBoth(Quoted(e.name), Colon(pretty), start, end);
    KeptBoth(Quoted(e.name) + Colon(pretty), Print(e.value, level + 1, pretty), start, end);
  }

  /** Both passes leave a printed value alone, whatever its strings hold, */
  lemma PrintedHasNoComments(v: Value, pretty: bool)
    ensures WithoutComments(Print(v, 0, pretty)) == Print(v, 0, pretty)
  {
    hide Print;
    KeptWhole(v, pretty, SLASH_STAR, STAR_SLASH);
    KeptWhole(v, pretty, SLASH_SLASH, LINE_END);
  }

  lemma KeptWhole(v: Value, pretty: bool, start: Bytes, end: Bytes)
    requires Slashed(start) && end != []
    ensures Strip(Print(v, 0, pretty), start, end, false, false) == Print(v, 0, pretty)
  {
    hide Print, Strip;
    PrintKept(v, 0, pretty, start, end);
    NothingToStrip(start, end);
    assert Print(v, 0, pretty) + [] == Print(v, 0, pretty);
  }

  /** so the parser that allows comments reads it back too. */
  lemma TextBackWithComments(v: Value, pretty: bool)
    requires WellFormed(v) && AllInt32(v)
    ensures ParseText(WithoutComments(Print(v, 0, pretty))) ==
      if Height(v) <= MAX_NESTING then Got(Trim(v), []) else Fail
  {
    hide Print, ParseText, WellFormed, AllInt32, Height, Trim, WithoutComments;
    PrintedHasNoComments(v, pretty);
    TextBack(v, pretty);
  }
}

/** construct_string.c: a binary tree as text, with "()" for a missing left child. */
module TreeString {
  import opened Decimal

  const BUFFER := 1000

  type Int32 = n: int | -0x8000_0000 <= n < 0x8000_0000

  datatype Tree = Nil | Node(val: Int32, left: Tree, right: Tree)

  predicate IsDigit(c: char) { '0' <= c <= '9' }

  predicate AllDigits(s: string) { forall i :: 0 <= i < |s| ==> IsDigit(s[i]) }

  function Numerals(digits: seq<nat>): (s: string)
    requires forall i :: 0 <= i < |digits| ==> digits[i] < 10
    ensures |s| == |digits| && AllDigits(s)
  {
    if digits == [] then "" else [('0' as int + digits[0]) as char] + Numerals(digits[1..])
  }

  lemma {:induction false} NumeralsInjective(a: seq<nat>, b: seq<nat>)
    requires forall i :: 0 <= i < |a| ==> a[i] < 10
    requires forall i :: 0 <= i < |b| ==> b[i] < 10
    requires Numerals(a) == Numerals(b)
    ensures a == b
  {
    assert |a| == |b|;
    if a != [] {
      assert Numerals(a)[1..] == Numerals(a[1..]) && Numerals(b)[1..] == Numerals(b[1..]);
      assert Numerals(a)[0] == Numerals(b)[0];
      NumeralsInjective(a[1..], b[1..]);
    }
  }

  /** What `%d` prints. */
  function Number(n: int): (s: string)
    ensures s != "" && (IsDigit(s[0]) || s[0] == '-')
  {
    if n < 0 then "-" + Numerals(Digits(-n)) else Numerals(Digits(n))
  }

  function Text(t: Tree): string
    decreases t, 1
  {
    if t == Nil then "" else Number(t.val) + Kids(t)
  }

  /** The children, in brackets. */
  function Kids(t: Tree): string
    requires t != Nil
    decreases t, 0
  {
    if t.left == Nil && t.right == Nil then ""
    else "(" + Text(t.left) + ")" + if t.right == Nil then "" else "(" + Text(t.right) + ")"
  }

  /** The text that may follow a tree's: the end, or the bracket that closes it. */
  predicate Closed(rest: string) { rest == "" || rest[0] == ')' }

  predicate NoDigit(rest: string) { rest == "" || !IsDigit(rest[0]) }

  lemma NextLetter(a: string, b: string, restA: string, restB: string)
    requires a + restA == b + restB
    ensures |b| < |a| ==> restB != "" && a[|b|] == restB[0]
  {
    if |b| < |a| {
      assert (a + restA)[|b|] == a[|b|];
    }
  }

  /** The run of digits is no longer in the one than in the other. */
  lemma NoLonger(a: string, b: string, restA: string, restB: string)
    requires AllDigits(a) && AllDigits(b) && NoDigit(restB)
    requires a + restA == b + restB
    ensures |a| <= |b|
  {
    NextLetter(a, b, restA, restB);
  }

  lemma SameDigits(a: string, b: string, restA: string, restB: string)
    requires AllDigits(a) && AllDigits(b) && NoDigit(restA) && NoDigit(restB)
    requires a + restA == b + restB
    ensures a == b && restA == restB
  {
    NoLonger(a, b, restA, restB);
    NoLonger(b, a, restB, restA);
    assert a == (a + restA)[..|a|] && b == (b + restB)[..|a|];
    assert restA == (a + restA)[|a|..] && restB == (b + restB)[|a|..];
  }

  lemma SameNumber(m: int, n: int, restM: string, restN: string)
    requires NoDigit(restM) && NoDigit(restN)
    requires Number(m) + restM == Number(n) + restN
    ensures m == n && restM == restN
  {
    hide Digits, Numerals, NoDigit;
    SameSign(m, n, restM, restN);
    if m < 0 {
      SameDigits(Numerals(Digits(-m)), Numerals(Digits(-n)), restM, restN);
      NumeralsInjective(Digits(-m), Digits(-n));
      DigitsInjective(-m, -n);
    } else {
      SameDigits(Numerals(Digits(m)), Numerals(Digits(n)), restM, restN);
      NumeralsInjective(Digits(m), Digits(n));
      DigitsInjective(m, n);
    }
  }

  lemma SameSign(m: int, n: int, restM: string, restN: string)
    requires Number(m) + restM == Number(n) + restN
    ensures m < 0 <==> n < 0
    ensures m < 0 ==> Numerals(Digits(-m)) + restM == Numerals(Digits(-n)) + restN
  {
    hide Digits, Numerals, Number;
    Sign(m, restM);
    Sign(n, restN);
  }

  lemma Sign(n: int, rest: string)
    ensures n < 0 <==> (Number(n) + rest)[0] == '-'
    ensures n < 0 ==> (Number(n) + rest)[1..] == Numerals(Digits(-n)) + rest
  {
    hide Digits, Numerals;
  }

  /** The text can be read back, with what follows it, in one way only. */
  lemma {:induction false} SameTree(t: Tree, u: Tree, restT: string, restU: string)
    requires Closed(restT) && Closed(restU)
    requires Text(t) + restT == Text(u) + restU
    ensures t == u && restT == restU
    decreases t, 1
  {
    hide Kids, Number;
    if t == Nil || u == Nil {
      assert t == Nil ==> Text(t) + restT == restT;
      assert u == Nil ==> Text(u) + restU == restU;
    } else {
      assert Number(t.val) + (Kids(t) + restT) == Text(t) + restT;
      assert Number(u.val) + (Kids(u) + restU) == Text(u) + restU;
      KidsBegin(t, restT);
      KidsBegin(u, restU);
      SameNumber(t.val, u.val, Kids(t) + restT, Kids(u) + restU);
      SameKids(t, u, restT, restU);
    }
  }

  lemma KidsBegin(t: Tree, rest: string)
    requires t != Nil && Closed(rest)
    ensures NoDigit(Kids(t) + rest)
    ensures t.left == Nil && t.right == Nil <==> Closed(Kids(t) + rest)
  {
    hide Text;
  }

  lemma {:induction false} SameKids(t: Tree, u: Tree, restT: string, restU: string)
    requires t != Nil && u != Nil && Closed(restT) && Closed(restU)
    requires Kids(t) + restT == Kids(u) + restU
    ensures t.left == u.left && t.right == u.right && restT == restU
    decreases t, 0
  {
    hide Text, Kids;
    KidsBegin(t, restT);
    KidsBegin(u, restU);
    if t.left == Nil && t.right == Nil {
      NoKids(t, restT);
      NoKids(u, restU);
    } else {
      KidsFrom(t, restT);
      KidsFrom(u, restU);
      SameTree(t.left, u.left, ")" + After(t, restT), ")" + After(u, restU));
      assert (")" + After(t, restT))[1..] == After(t, restT) && (")" + After(u, restU))[1..] == After(u, restU);
      if t.right != Nil && u.right != Nil {
        AfterFrom(t, restT);
        AfterFrom(u, restU);
        SameTree(t.right, u.right, ")" + restT, ")" + restU);
        assert (")" + restT)[1..] == restT && (")" + restU)[1..] == restU;
      }
    }
  }

  /** What follows the left child's closing bracket. */
  function After(t: Tree, rest: string): string
    requires t != Nil
  {
    if t.right == Nil then rest else "(" + Text(t.right) + ")" + rest
  }

  lemma NoKids(t: Tree, rest: string)
    requires t != Nil && t.left == Nil && t.right == Nil
    ensures Kids(t) + rest == rest
  {
  }

  lemma KidsFrom(t: Tree, rest: string)
    requires t != Nil && !(t.left == Nil && t.right == Nil)
    ensures Text(t.left) + (")" + After(t, rest)) == (Kids(t) + rest)[1..]
  {
    hide Text;
  }

  lemma AfterFrom(t: Tree, rest: string)
    requires t != Nil && t.right != Nil
    ensures Text(t.right) + (")" + rest) == After(t, rest)[1..]
  {
    hide Text;
  }

  /** Two different trees never give the same text. */
  lemma DifferentTexts(t: Tree, u: Tree)
    requires t != u
    ensures Text(t) != Text(u)
  {
    if Text(t) == Text(u) {
      SameTree(t, u, "", "");
    }
  }

  // ----- what any text of this kind says, and that this one is the shortest

  function Amount(s: string): nat
    requires AllDigits(s)
  {
    if s == "" then 0 else 10 * Amount(s[..|s| - 1]) + (s[|s| - 1] as int - '0' as int)
  }

  predicate Numeral(s: string, n: nat) { s != "" && AllDigits(s) && (s[0] == '0' ==> |s| == 1) && Amount(s) == n }

  /** A decimal number without leading zeros. */
  predicate IsNumber(s: string, n: int) {
    if n < 0 then s != "" && s[0] == '-' && Numeral(s[1..], -n) else Numeral(s, n)
  }

  /** In preorder; a child that is missing may be written "()" or, where nothing follows, be left out. */
  ghost predicate Says(s: string, t: Tree)
    decreases t, 1
  {
    if t == Nil then s == ""
    else exists num: string, kids: string :: IsNumber(num, t.val) && s == num + kids && SaysKids(kids, t)
  }

  ghost predicate SaysKids(kids: string, t: Tree)
    requires t != Nil
    decreases t, 0
  {
    || (t.left == Nil && t.right == Nil && kids == "")
    || (t.right == Nil && exists a: string :: Says(a, t.left) && kids == "(" + a + ")")
    || (exists a: string, b: string :: Says(a, t.left) && Says(b, t.right) && kids == "(" + a + ")(" + b + ")")
  }

  lemma {:induction false} NumeralsAmount(digits: seq<nat>)
    requires forall i :: 0 <= i < |digits| ==> digits[i] < 10
    ensures Amount(Numerals(digits)) == Value(digits)
  {
    if digits != [] {
      var init := digits[..|digits| - 1];
      NumeralsInit(digits);
      NumeralsAmount(init);
    }
  }

  lemma {:induction false} NumeralsInit(digits: seq<nat>)
    requires digits != [] && forall i :: 0 <= i < |digits| ==> digits[i] < 10
    ensures var s, last := Numerals(digits), |digits| - 1;
      s[..last] == Numerals(digits[..last]) && s[last] as int == '0' as int + digits[last]
  {
    if |digits| > 1 {
      NumeralsInit(digits[1..]);
      assert digits[..|digits| - 1][1..] == digits[1..][..|digits| - 2];
    }
  }

  lemma {:induction false} AsNumerals(s: string) returns (digits: seq<nat>)
    requires AllDigits(s)
    ensures |digits| == |s| && (forall i :: 0 <= i < |digits| ==> digits[i] < 10 && s[i] as int == '0' as int + digits[i])
    ensures Numerals(digits) == s
  {
    digits := [];
    if s != "" {
      var rest := AsNumerals(s[1..]);
      digits := [s[0] as int - '0' as int] + rest;
      assert digits[1..] == rest;
    }
  }

  /** `%d` prints the one such number. */
  lemma NumberIs(s: string, n: int)
    ensures IsNumber(s, n) <==> s == Number(n)
  {
    hide Numerals, Digits, Amount;
    if n < 0 {
      NumeralIs(if s != "" then s[1..] else "", -n);
      if s == Number(n) { assert s[1..] == Numerals(Digits(-n)); }
    } else {
      NumeralIs(s, n);
    }
  }

  lemma NumeralIs(s: string, n: nat)
    ensures Numeral(s, n) <==> s == Numerals(Digits(n))
  {
    hide Digits, Amount;
    NumeralsAmount(Digits(n));
    ValueDigits(n);
    NoLeadingZero(n);
    if Digits(n)[0] == 0 { assert Digits(0) == [0] by { DigitsOfZero(); } }
    if Numeral(s, n) {
      var digits := AsNumerals(s);
      NumeralsAmount(digits);
      DigitsOfValue(digits);
    }
  }

  lemma DigitsOfZero()
    ensures Digits(0) == [0]
  {
  }

  /** The text says the tree it is of. */
  lemma {:induction false} TextSays(t: Tree)
    ensures Says(Text(t), t)
  {
    hide Number, IsNumber;
    if t != Nil {
      NumberIs(Number(t.val), t.val);
      TextSays(t.left);
      TextSays(t.right);
      KidsSay(t);
      assert IsNumber(Number(t.val), t.val) && Text(t) == Number(t.val) + Kids(t);
    }
  }

  lemma KidsSay(t: Tree)
    requires t != Nil && Says(Text(t.left), t.left) && Says(Text(t.right), t.right)
    ensures SaysKids(Kids(t), t)
  {
    hide Text, Says;
    var a, b := Text(t.left), Text(t.right);
    if t.right != Nil {
      assert Kids(t) == "(" + a + ")(" + b + ")";
    } else if t.left != Nil {
      assert Kids(t) == "(" + a + ")";
    }
  }

  /** Any other text that says it is longer: no pair of brackets is there that could be left out. */
  lemma {:induction false} TextIsShortest(s: string, t: Tree)
    requires Says(s, t)
    ensures s == Text(t) || |s| > |Text(t)|
    decreases t, 1
  {
    hide Number, IsNumber, Kids, SaysKids;
    if t != Nil {
      var num: string, kids: string :| IsNumber(num, t.val) && s == num + kids && SaysKids(kids, t);
      NumberIs(num, t.val);
      KidsAreShortest(kids, t);
    }
  }

  lemma {:induction false} KidsAreShortest(kids: string, t: Tree)
    requires t != Nil && SaysKids(kids, t)
    ensures kids == Kids(t) || |kids| > |Kids(t)|
    decreases t, 0
  {
    hide Says, Text;
    TextOf(Nil);
    if t.left == Nil && t.right == Nil && kids == "" {
    } else if t.right == Nil && exists a: string :: Says(a, t.left) && kids == "(" + a + ")" {
      var a: string :| Says(a, t.left) && kids == "(" + a + ")";
      TextIsShortest(a, t.left);
    } else {
      var a: string, b: string :| Says(a, t.left) && Says(b, t.right) && kids == "(" + a + ")(" + b + ")";
      TextIsShortest(a, t.left);
      TextIsShortest(b, t.right);
      assert kids == "(" + a + ")" + ("(" + b + ")");
    }
  }

  ghost predicate Zeros(a: seq<char>, from: nat) { forall k :: from <= k < |a| ==> a[k] == '\0' }

  lemma TextOf(t: Tree)
    ensures Text(t) == if t == Nil then "" else Number(t.val) + Kids(t)
  {
  }

  function FirstNul(a: seq<char>, from: nat): (r: nat)
    requires from <= |a|
    ensures from <= r <= |a|
    decreases |a| - from
  {
    if from == |a| || a[from] == '\0' then from else FirstNul(a, from + 1)
  }

  class Writer {
    const abc: array<char>
    var gidx: nat

    ghost predicate Valid()
      reads this, abc
    {
      abc.Length == BUFFER && gidx < BUFFER && Zeros(abc[..], gidx)
    }

    /** The zeroed buffer. */
    constructor ()
      ensures Valid() && fresh(abc) && gidx == 0
    {
      abc := new char[BUFFER](_ => '\0');
      gidx := 0;
    }

    /** C's `strcat`: `tmp` and a NUL, from the first NUL at or after `from`. */
    method Strcat(from: nat, tmp: string)
      requires from <= abc.Length && FirstNul(abc[..], from) + |tmp| < abc.Length
      modifies abc
      ensures var end := FirstNul(old(abc[..]), from);
        abc[..] == old(abc[..])[..end] + tmp + ['\0'] + old(abc[..])[end + |tmp| + 1..]
    {
      var end := from;
      while abc[end] != '\0'
        invariant from <= end <= FirstNul(abc[..], from) == FirstNul(abc[..], end)
        decreases abc.Length - end
      {
        end := end + 1;
      }
      Strcpy(end, tmp);
    }

    method Strcpy(end: nat, tmp: string)
      requires end + |tmp| < abc.Length
      modifies abc
      ensures abc[..] == old(abc[..])[..end] + tmp + ['\0'] + old(abc[..])[end + |tmp| + 1..]
    {
      var i := 0;
      while i < |tmp|
        invariant 0 <= i <= |tmp|
        invariant forall k :: 0 <= k < abc.Length ==>
          abc[k] == if end <= k < end + i then tmp[k - end] else old(abc[k])
      {
        abc[end + i] := tmp[i];
        i := i + 1;
      }
      abc[end + i] := '\0';
    }

    method WriteVal(val: Int32)
      requires Valid() && gidx + |Number(val)| < BUFFER
      modifies this, abc
      ensures Valid() && Wrote(old(abc[..]), old(gidx), Number(val))
    {
      hide Number;
      var tmp := Number(val);
      Strcat(gidx, tmp);
      gidx := gidx + |tmp|;
    }

    /** One character at the end. */
    method Put(c: char)
      requires Valid() && gidx + 1 < BUFFER
      modifies this, abc
      ensures Valid() && Wrote(old(abc[..]), old(gidx), [c])
    {
      abc[gidx] := c;
      gidx := gidx + 1;
    }

    /** The buffer now holds what it held and `s`. */
    ghost predicate Wrote(before: seq<char>, from: nat, s: string)
      reads this, abc
    {
      from <= |before| && gidx == from + |s| && gidx <= abc.Length && abc[..gidx] == before[..from] + s
    }

    method DfsWrite(t: Tree)
      requires Valid() && gidx + |Text(t)| < BUFFER
      modifies this, abc
      ensures Valid() && Wrote(old(abc[..]), old(gidx), Text(t))
      decreases t, 2
    {
      hide Text, Kids, Number, Zeros;
      TextOf(t);
      if t == Nil { return; }
      WriteVal(t.val);
      DfsWriteKids(t);
    }

    /** The second half of `dfs_write`. */
    method DfsWriteKids(t: Tree)
      requires t != Nil && Valid() && gidx + |Kids(t)| < BUFFER
      modifies this, abc
      ensures Valid() && Wrote(old(abc[..]), old(gidx), Kids(t))
      decreases t, 1
    {
      hide Text, Number, Zeros;
      TextOf(t.left);
      ghost var before, left := abc[..gidx], "(" + Text(t.left) + ")";
      if t.left != Nil || t.right != Nil {
        if t.left != Nil {
          WriteChild(t.left);
        }
        if t.right != Nil {
          if t.left == Nil {
            Put('(');
            Put(')');
          }
          assert abc[..gidx] == before + left;
          WriteChild(t.right);
          assert before + left + ("(" + Text(t.right) + ")") == before + Kids(t);
        }
      }
    }

    method WriteChild(u: Tree)
      requires Valid() && gidx + |Text(u)| + 2 < BUFFER
      modifies this, abc
      ensures Valid() && Wrote(old(abc[..]), old(gidx), "(" + Text(u) + ")")
      decreases u, 3
    {
      hide Text, Zeros;
      Put('(');
      DfsWrite(u);
      Put(')');
    }
  }

  /** The text, its length in `gidx`, and zeros to the end of the buffer. */
  method Tree2Str(t: Tree) returns (w: Writer)
    requires |Text(t)| < BUFFER
    ensures fresh(w) && fresh(w.abc) && w.abc.Length == BUFFER
    ensures w.gidx == |Text(t)| && w.abc[..w.gidx] == Text(t) && Zeros(w.abc[..], w.gidx)
  {
    w := new Writer();
    w.DfsWrite(t);
  }
}

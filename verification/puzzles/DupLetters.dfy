/** remove_dup_letters.c: one of each letter, in the least possible order. */
module DupLetters {

  predicate Lower(s: seq<char>) { forall i :: 0 <= i < |s| ==> 'a' <= s[i] <= 'z' }

  predicate Distinct(t: seq<char>) { forall i, j :: 0 <= i < j < |t| ==> t[i] != t[j] }

  /** `t` is `s` with some letters left out. */
  predicate Subsequence(t: seq<char>, s: seq<char>) {
    || t == []
    || (s != [] && t[0] == s[0] && Subsequence(t[1..], s[1..]))
    || (s != [] && Subsequence(t, s[1..]))
  }

  /** One of each letter of `s`, but for the letters already used. */
  ghost predicate Solution(t: seq<char>, s: seq<char>, used: set<char>) {
    && Subsequence(t, s)
    && Distinct(t)
    && forall c :: c in t <==> c in s && c !in used
  }

  /** The order of `strcmp`. */
  predicate NoLater(t: seq<char>, u: seq<char>) {
    t == [] || (u != [] && (t[0] < u[0] || (t[0] == u[0] && NoLater(t[1..], u[1..]))))
  }

  /** What `removeDuplicateLetters` promises. */
  ghost predicate Least(t: seq<char>, s: seq<char>) {
    Solution(t, s, {}) && forall u :: Solution(u, s, {}) ==> NoLater(t, u)
  }

  /** The smallest letter seen up to the first one that cannot be passed over. */
  function First(s: seq<char>, used: set<char>): char {
    if s == [] then 'z'
    else if s[0] in used then First(s[1..], used)
    else if s[0] !in s[1..] then s[0]
    else
      var later := First(s[1..], used);
      if s[0] > later then later else s[0]
  }

  /** The letters the scan keeps. */
  function Kept(s: seq<char>, used: set<char>): seq<char> {
    if s == [] then []
    else if s[0] in used then Kept(s[1..], used)
    else if s[0] in s[1..] && s[0] != 'a' && First(s[1..], used) < s[0] then Kept(s[1..], used)
    else [s[0]] + Kept(s[1..], used + {s[0]})
  }

  lemma {:induction false} MembersOf(t: seq<char>, s: seq<char>)
    requires Subsequence(t, s)
    ensures forall c :: c in t ==> c in s
  {
    if t != [] {
      assert forall c :: c in t ==> c == t[0] || c in t[1..];
      if t[0] == s[0] && Subsequence(t[1..], s[1..]) {
        MembersOf(t[1..], s[1..]);
      } else {
        MembersOf(t, s[1..]);
      }
    }
  }

  lemma {:induction false} DropFirst(t: seq<char>, s: seq<char>)
    requires Subsequence(t, s) && t != []
    ensures Subsequence(t[1..], s)
  {
    if t[0] == s[0] && Subsequence(t[1..], s[1..]) {
    } else {
      DropFirst(t, s[1..]);
    }
  }

  /** A solution takes the first letter, or is a solution of the rest. */
  lemma Split(t: seq<char>, s: seq<char>, used: set<char>)
    requires s != [] && Solution(t, s, used)
    ensures
      || (t != [] && t[0] == s[0] && s[0] !in used && Solution(t[1..], s[1..], used + {s[0]}))
      || ((s[0] in used || s[0] in s[1..]) && Solution(t, s[1..], used))
  {
    assert s == [s[0]] + s[1..];
    assert s[0] in s;
    if Subsequence(t, s[1..]) {
      MembersOf(t, s[1..]);
      assert forall c :: c in s[1..] && c !in used ==> c in s && c in t;
    } else {
      assert t == [s[0]] + t[1..];
      forall c ensures c in t[1..] <==> c in s[1..] && c !in used + {s[0]} {
        assert c in t[1..] ==> c in t;
        MembersOf(t[1..], s[1..]);
      }
    }
  }

  lemma TakeFirst(t: seq<char>, s: seq<char>, used: set<char>)
    requires s != [] && s[0] !in used && Solution(t, s[1..], used + {s[0]})
    ensures Solution([s[0]] + t, s, used)
  {
    assert s == [s[0]] + s[1..];
    assert ([s[0]] + t)[1..] == t;
  }

  lemma PassFirst(t: seq<char>, s: seq<char>, used: set<char>)
    requires s != [] && (s[0] in used || s[0] in s[1..]) && Solution(t, s[1..], used)
    ensures Solution(t, s, used)
  {
    assert s == [s[0]] + s[1..];
  }

  /** A solution of the rest that begins with `c` may as well begin with a `c` before the rest. */
  lemma BeginsWith(t: seq<char>, s: seq<char>, used: set<char>)
    requires t != [] && Solution(t, s, used)
    ensures Solution(t[1..], s, used + {t[0]})
  {
    DropFirst(t, s);
    assert t == [t[0]] + t[1..];
  }

  lemma {:induction false} KeptIsSolution(s: seq<char>, used: set<char>)
    ensures Solution(Kept(s, used), s, used)
  {
    if s != [] {
      if s[0] in used || (s[0] in s[1..] && s[0] != 'a' && First(s[1..], used) < s[0]) {
        KeptIsSolution(s[1..], used);
        PassFirst(Kept(s[1..], used), s, used);
      } else {
        KeptIsSolution(s[1..], used + {s[0]});
        TakeFirst(Kept(s[1..], used + {s[0]}), s, used);
      }
    }
  }

  /** No solution begins with a letter below `First`. */
  lemma {:induction false} NoneBeginsBelow(t: seq<char>, s: seq<char>, used: set<char>)
    requires t != [] && Solution(t, s, used)
    ensures First(s, used) <= t[0]
  {
    Split(t, s, used);
    if Solution(t, s[1..], used) { NoneBeginsBelow(t, s[1..], used); }
  }

  /** And one begins with it. */
  lemma {:induction false} OneBeginsWith(s: seq<char>, used: set<char>) returns (t: seq<char>)
    requires exists c :: c in s && c !in used
    ensures t != [] && Solution(t, s, used) && t[0] == First(s, used)
  {
    assert s == [s[0]] + s[1..];
    if s[0] in used || (s[0] in s[1..] && s[0] > First(s[1..], used)) {
      t := OneBeginsWith(s[1..], used);
      PassFirst(t, s, used);
    } else {
      KeptIsSolution(s[1..], used + {s[0]});
      TakeFirst(Kept(s[1..], used + {s[0]}), s, used);
      t := [s[0]] + Kept(s[1..], used + {s[0]});
    }
  }

  /** No solution comes before the one kept. */
  lemma {:induction false} NoneBefore(t: seq<char>, s: seq<char>, used: set<char>)
    requires Lower(s) && Solution(t, s, used)
    ensures NoLater(Kept(s, used), t)
    decreases |s|
  {
    if s != [] {
      var c, rest := s[0], s[1..];
      Split(t, s, used);
      if c in used {
        NoneBefore(t, rest, used);
      } else if c in rest && c != 'a' && First(rest, used) < c {
        Passed(t, s, used);
      } else {
        Taken(t, s, used);
      }
    }
  }

  /** The case of a letter passed over. */
  lemma {:induction false} Passed(t: seq<char>, s: seq<char>, used: set<char>)
    requires Lower(s) && Solution(t, s, used) && s != []
    requires s[0] !in used && s[0] in s[1..] && First(s[1..], used) < s[0]
    ensures NoLater(Kept(s[1..], used), t)
    decreases |s|, 0
  {
    var c, rest := s[0], s[1..];
    Split(t, s, used);
    if Solution(t, rest, used) {
      NoneBefore(t, rest, used);
    } else {
      var better := OneBeginsWith(rest, used);
      NoneBefore(better, rest, used);
    }
  }

  /** The case of a letter kept. */
  lemma {:induction false} Taken(t: seq<char>, s: seq<char>, used: set<char>)
    requires Lower(s) && Solution(t, s, used) && s != [] && s[0] !in used
    requires s[0] !in s[1..] || s[0] == 'a' || First(s[1..], used) >= s[0]
    ensures NoLater([s[0]] + Kept(s[1..], used + {s[0]}), t)
    decreases |s|, 0
  {
    var c, rest := s[0], s[1..];
    assert c in s && c in t;
    if t[0] == c {
      assert Solution(t[1..], rest, used + {c}) by {
        Split(t, s, used);
        if Solution(t, rest, used) { BeginsWith(t, rest, used); }
      }
      NoneBefore(t[1..], rest, used + {c});
      assert ([c] + Kept(rest, used + {c}))[1..] == Kept(rest, used + {c});
    } else {
      Split(t, s, used);
      MembersOf(t, s);
      assert t[0] in t && t[0] >= 'a';
      NoneBeginsBelow(t, rest, used);
    }
  }

  lemma KeptIsLeast(s: seq<char>)
    requires Lower(s)
    ensures Least(Kept(s, {}), s)
  {
    KeptIsSolution(s, {});
    forall u | Solution(u, s, {}) ensures NoLater(Kept(s, {}), u) {
      NoneBefore(u, s, {});
    }
  }

  // The code

  const A := 'a' as int

  function Index(c: char): int { c as int - A }

  function Count(c: char, s: seq<char>): nat {
    if s == [] then 0 else (if s[0] == c then 1 else 0) + Count(c, s[1..])
  }

  lemma {:induction false} CountsMember(c: char, s: seq<char>)
    ensures Count(c, s) > 0 <==> c in s
  {
    if s != [] { CountsMember(c, s[1..]); }
  }

  lemma {:induction false} CountOneMore(c: char, s: seq<char>, d: char)
    ensures Count(c, s + [d]) == Count(c, s) + (if c == d then 1 else 0)
  {
    if s != [] {
      assert (s + [d])[1..] == s[1..] + [d];
      CountOneMore(c, s[1..], d);
    }
  }

  /** An entry for each letter: how many are left in `s`, or none once it is used. */
  ghost predicate Counts(vv: seq<int>, s: seq<char>, used: set<char>)
    requires |vv| == 27
  {
    forall c: char {:trigger Count(c, s)} | 'a' <= c <= 'z' :: vv[Index(c)] == if c in used then 0 else Count(c, s)
  }

  /** The text up to the first NUL. */
  function CString(a: seq<char>): seq<char> {
    if a == [] || a[0] == '\0' then [] else [a[0]] + CString(a[1..])
  }

  lemma {:induction false} CStringEnds(a: seq<char>, j: nat)
    requires j < |a| && a[j] == '\0' && Lower(a[..j])
    ensures CString(a) == a[..j]
  {
    if j > 0 {
      assert a[0] == a[..j][0];
      assert a[1..][..j - 1] == a[..j][1..];
      CStringEnds(a[1..], j - 1);
    }
  }

  /** What the entry for the first letter says, and how the entries stand once it is read. */
  lemma Remaining(s: seq<char>, used: set<char>, vv: seq<int>)
    requires s != [] && 'a' <= s[0] <= 'z' && |vv| == 27 && Counts(vv, s, used)
    ensures var n := vv[Index(s[0])];
      && n >= 0
      && (n == 0 <==> s[0] in used)
      && (s[0] !in used ==> (n > 1 <==> s[0] in s[1..]))
      && (n == 0 ==> Counts(vv, s[1..], used))
      && (n > 0 ==> Counts(vv[Index(s[0]) := n - 1], s[1..], used))
      && Counts(vv[Index(s[0]) := 0], s[1..], used + {s[0]})
  {
    CountsMember(s[0], s[1..]);
    assert Count(s[0], s) == 1 + Count(s[0], s[1..]);
    forall c: char | 'a' <= c <= 'z' && c != s[0]
      ensures vv[Index(c)] == if c in used then 0 else Count(c, s[1..])
    {
      assert Count(c, s) == Count(c, s[1..]);
    }
  }

  method FetchFirstSmallest(vv: array<int>, str: seq<char>, ghost used: set<char>) returns (r: char)
    requires vv.Length == 27 && Lower(str) && Counts(vv[..], str, used)
    modifies vv
    ensures r == First(str, used)
    decreases |str|
  {
    if |str| == 0 {
      r := 'z';
    } else {
      var idx := Index(str[0]);
      Remaining(str, used, vv[..]);
      if vv[idx] == 1 {
        r := str[0];
      } else if vv[idx] == 0 {
        r := FetchFirstSmallest(vv, str[1..], used);
      } else {
        var one := str[0];
        vv[idx] := vv[idx] - 1;
        var two := FetchFirstSmallest(vv, str[1..], used);
        r := if one > two then two else one;
      }
    }
  }

  function LettersBelow(n: nat): (r: set<char>)
    requires n <= 26
    ensures |r| <= n && forall c :: c in r <==> 'a' <= c && Index(c) < n
  {
    if n == 0 then {} else LettersBelow(n - 1) + {(A + n - 1) as char}
  }

  lemma AtMost26(used: set<char>)
    requires forall c :: c in used ==> 'a' <= c <= 'z'
    ensures |used| <= 26
  {
    var all := LettersBelow(26);
    assert used <= all;
    assert all == used + (all - used);
  }

  lemma CountsOneMore(vv: seq<int>, s: seq<char>, d: char)
    requires |vv| == 27 && Counts(vv, s, {}) && 'a' <= d <= 'z'
    ensures Counts(vv[Index(d) := vv[Index(d)] + 1], s + [d], {})
  {
    forall c: char | 'a' <= c <= 'z'
      ensures vv[Index(d) := vv[Index(d)] + 1][Index(c)] == Count(c, s + [d])
    {
      CountOneMore(c, s, d);
    }
  }

  /** How far the scan has come: the entries for what is left, and the letters kept so far. */
  ghost predicate Scanned(vv: seq<int>, kept: seq<char>, s: seq<char>, ts: nat, used: set<char>) {
    && |vv| == 27 && ts <= |s|
    && Counts(vv, s[ts..], used)
    && Lower(kept)
    && |kept| == |used| <= 26
    && (forall c :: c in used ==> 'a' <= c <= 'z')
    && kept + Kept(s[ts..], used) == Kept(s, {})
  }

  lemma Skips(vv: seq<int>, kept: seq<char>, s: seq<char>, ts: nat, used: set<char>)
    requires ts < |s| && 'a' <= s[ts] <= 'z' && Scanned(vv, kept, s, ts, used) && s[ts] in used
    ensures Scanned(vv, kept, s, ts + 1, used)
  {
    Remaining(s[ts..], used, vv);
    assert s[ts..][1..] == s[ts + 1..];
  }

  lemma Passes(vv: seq<int>, kept: seq<char>, s: seq<char>, ts: nat, used: set<char>)
    requires ts < |s| && 'a' <= s[ts] <= 'z' && Scanned(vv, kept, s, ts, used) && s[ts] !in used
    requires s[ts] in s[ts + 1..] && s[ts] != 'a' && First(s[ts + 1..], used) < s[ts]
    ensures Scanned(vv[Index(s[ts]) := vv[Index(s[ts])] - 1], kept, s, ts + 1, used)
  {
    Remaining(s[ts..], used, vv);
    assert s[ts..][1..] == s[ts + 1..];
  }

  lemma Keeps(vv: seq<int>, kept: seq<char>, s: seq<char>, ts: nat, used: set<char>)
    requires ts < |s| && 'a' <= s[ts] <= 'z' && Scanned(vv, kept, s, ts, used) && s[ts] !in used
    requires s[ts] !in s[ts + 1..] || s[ts] == 'a' || First(s[ts + 1..], used) >= s[ts]
    ensures Scanned(vv[Index(s[ts]) := 0], kept + [s[ts]], s, ts + 1, used + {s[ts]})
  {
    Remaining(s[ts..], used, vv);
    assert s[ts..][1..] == s[ts + 1..];
    AtMost26(used + {s[ts]});
    KeepsText(kept, s, ts, used);
  }

  lemma KeepsText(kept: seq<char>, s: seq<char>, ts: nat, used: set<char>)
    requires ts < |s| && s[ts] !in used
    requires s[ts] !in s[ts + 1..] || s[ts] == 'a' || First(s[ts + 1..], used) >= s[ts]
    ensures kept + [s[ts]] + Kept(s[ts + 1..], used + {s[ts]}) == kept + Kept(s[ts..], used)
  {
    assert s[ts..][1..] == s[ts + 1..];
  }

  lemma ScanBegins(vv: seq<int>, kept: seq<char>, s: seq<char>)
    requires |vv| == 27 && Counts(vv, s, {}) && kept == []
    ensures Scanned(vv, kept, s, 0, {})
  {
    assert s[0..] == s;
  }

  lemma Entry(vv: seq<int>, kept: seq<char>, s: seq<char>, ts: nat, used: set<char>)
    requires ts < |s| && Lower(s) && Scanned(vv, kept, s, ts, used)
    ensures var n := vv[Index(s[ts])];
      && n >= 0 && (n == 0 <==> s[ts] in used)
      && (s[ts] !in used ==> |kept| < 26 && (n > 1 <==> s[ts] in s[ts + 1..]))
      && (n > 0 ==> Counts(vv[Index(s[ts]) := n - 1], s[ts + 1..], used))
  {
    Remaining(s[ts..], used, vv);
    assert s[ts..][1..] == s[ts + 1..];
    if s[ts] !in used { AtMost26(used + {s[ts]}); }
  }

  lemma ScanEnds(vv: seq<int>, ret: seq<char>, j: nat, s: seq<char>, used: set<char>)
    requires j < |ret| && Scanned(vv, ret[..j], s, |s|, used) && ret[j] == '\0' && Lower(s)
    ensures Least(CString(ret), s)
  {
    assert ret[..j] + [] == ret[..j];
    CStringEnds(ret, j);
    KeptIsLeast(s);
  }

  class Letters {
    const cc: array<int>
    const ret: array<char>

    constructor ()
      ensures cc.Length == 27 && ret.Length == 27 && fresh(cc) && fresh(ret)
    {
      cc := new int[27];
      ret := new char[27];
    }

    method CountLetters(s: seq<char>)
      requires cc.Length == 27 && Lower(s)
      modifies cc
      ensures Counts(cc[..], s, {})
    {
      forall k | 0 <= k < 27 { cc[k] := 0; }
      var ts := 0;
      while ts < |s|
        invariant 0 <= ts <= |s|
        invariant Counts(cc[..], s[..ts], {})
      {
        var ti := Index(s[ts]);
        CountsOneMore(cc[..], s[..ts], s[ts]);
        cc[ti] := cc[ti] + 1;
        assert s[..ts] + [s[ts]] == s[..ts + 1];
        ts := ts + 1;
      }
      assert s[..ts] == s;
    }

    /** Keeps one of each letter, in the least order. */
    method RemoveDuplicateLetters(s: seq<char>) returns (r: array<char>)
      requires cc.Length == 27 && ret.Length == 27 && Lower(s)
      modifies cc, ret
      ensures r == ret && Least(CString(r[..]), s)
    {
      hide Scanned, Counts, Kept, First, Least, Count, CString;
      CountLetters(s);
      var j, ts := 0, 0;
      ghost var used: set<char> := {};
      ScanBegins(cc[..], ret[..0], s);
      while ts < |s|
        invariant 0 <= ts <= |s| && 0 <= j <= 26
        invariant Scanned(cc[..], ret[..j], s, ts, used)
      {
        ghost var vv, kept := cc[..], ret[..j];
        var ti := Index(s[ts]);
        Entry(vv, kept, s, ts, used);
        if cc[ti] == 1 || (ti == 0 && cc[ti] != 0) {
          Keeps(vv, kept, s, ts, used);
          j := Keep(j, s[ts]);
          used := used + {s[ts]};
        } else if cc[ti] > 1 {
          var tcc := new int[27];
          forall k | 0 <= k < 27 { tcc[k] := cc[k]; }
          tcc[ti] := tcc[ti] - 1;
          assert tcc[..] == vv[ti := vv[ti] - 1];
          var first := FetchFirstSmallest(tcc, s[ts + 1..], used);
          assert cc[..] == vv && ret[..j] == kept;
          if first < s[ts] {
            Passes(vv, kept, s, ts, used);
            cc[ti] := cc[ti] - 1;
          } else {
            Keeps(vv, kept, s, ts, used);
            j := Keep(j, s[ts]);
            used := used + {s[ts]};
          }
        } else {
          Skips(vv, kept, s, ts, used);
        }
        ts := ts + 1;
      }
      ret[j] := '\0';
      ScanEnds(cc[..], ret[..], j, s, used);
      return ret;
    }

    /** Keeps the letter and marks it as used. */
    method Keep(j: nat, c: char) returns (next: nat)
      requires cc.Length == 27 && ret.Length == 27 && j < 26 && 'a' <= c <= 'z'
      modifies cc, ret
      ensures next == j + 1 && cc[..] == old(cc[..])[Index(c) := 0] && ret[..next] == old(ret[..j]) + [c]
    {
      ret[j] := c;
      cc[Index(c)] := 0;
      next := j + 1;
    }
  }
}

/** The reference merge of test.py, and its agreement with the loser tree. */
module PairwiseMerge {
  import opened Ticks
  import opened MergeRuns
  import LoserTree

  datatype Option<T> = None | Some(value: T)

  /** A missing quote list counts for nothing. */
  function Flat(q: Option<seq<Quote>>): seq<Quote> {
    if q.None? then [] else q.value
  }

  /** The quotes with that key, in their order. */
  function WithKey(quotes: seq<Quote>, k: int, sort: SortMethod): seq<Quote> {
    if quotes == [] then []
    else
      var last := quotes[|quotes| - 1];
      WithKey(quotes[..|quotes| - 1], k, sort) + if QuoteKey(last, sort) == k then [last] else []
  }

  /** Quotes with equal keys come in the same order. */
  ghost predicate SameOrder(x: seq<Quote>, y: seq<Quote>, sort: SortMethod) {
    forall k :: WithKey(x, k, sort) == WithKey(y, k, sort)
  }

  lemma {:induction false} WithKeyJoin(x: seq<Quote>, y: seq<Quote>, k: int, sort: SortMethod)
    ensures WithKey(x + y, k, sort) == WithKey(x, k, sort) + WithKey(y, k, sort)
  {
    if y == [] {
      assert x + y == x;
    } else {
      var last := |y| - 1;
      assert (x + y)[..|x| + last] == x + y[..last] && (x + y)[|x| + last] == y[last];
      WithKeyJoin(x, y[..last], k, sort);
    }
  }

  lemma OneMoreKey(x: seq<Quote>, q: Quote, k: int, sort: SortMethod)
    ensures WithKey(x + [q], k, sort) == WithKey(x, k, sort) + if QuoteKey(q, sort) == k then [q] else []
  {
    assert (x + [q])[..|x|] == x;
  }

  lemma {:induction false} NoneWithKey(x: seq<Quote>, k: int, sort: SortMethod)
    requires forall i :: 0 <= i < |x| ==> QuoteKey(x[i], sort) != k
    ensures WithKey(x, k, sort) == []
  {
    if x != [] { NoneWithKey(x[..|x| - 1], k, sort); }
  }

  lemma {:induction false} SomeWithKey(x: seq<Quote>, k: int, sort: SortMethod)
    requires WithKey(x, k, sort) != []
    ensures exists i :: 0 <= i < |x| && QuoteKey(x[i], sort) == k
  {
    if QuoteKey(x[|x| - 1], sort) != k {
      SomeWithKey(x[..|x| - 1], k, sort);
      var i :| 0 <= i < |x| - 1 && QuoteKey(x[..|x| - 1][i], sort) == k;
      assert QuoteKey(x[i], sort) == k;
    }
  }

  /** There is one order of the keys that keeps the order of equals. */
  lemma {:induction false} OneStableOrder(x: seq<Quote>, y: seq<Quote>, sort: SortMethod)
    requires Sorted(x, sort) && Sorted(y, sort) && SameOrder(x, y, sort)
    ensures x == y
  {
    hide WithKey, QuoteKey;
    if x == [] {
      if y != [] { NotEmpty(x, y, sort); }
    } else {
      NotEmpty(y, x, sort);
      LastNotAbove(x, y, sort);
      LastNotAbove(y, x, sort);
      var m, n := |x| - 1, |y| - 1;
      SameLast(x, y, QuoteKey(x[m], sort), sort);
      forall k ensures WithKey(x[..m], k, sort) == WithKey(y[..n], k, sort) {
        SameLast(x, y, k, sort);
      }
      assert SameOrder(x[..m], y[..n], sort) && Sorted(x[..m], sort) && Sorted(y[..n], sort);
      OneStableOrder(x[..m], y[..n], sort);
      assert x == x[..m] + [x[m]] && y == y[..n] + [y[n]];
    }
  }

  lemma NotEmpty(x: seq<Quote>, y: seq<Quote>, sort: SortMethod)
    requires SameOrder(x, y, sort) && y != []
    ensures x != []
  {
    var k := QuoteKey(y[|y| - 1], sort);
    assert WithKey(x, k, sort) == WithKey(y, k, sort);
    SomeWithKey(x, k, sort);
  }

  lemma LastNotAbove(x: seq<Quote>, y: seq<Quote>, sort: SortMethod)
    requires Sorted(y, sort) && SameOrder(x, y, sort) && x != [] && y != []
    ensures QuoteKey(x[|x| - 1], sort) <= QuoteKey(y[|y| - 1], sort)
  {
    var k := QuoteKey(x[|x| - 1], sort);
    assert WithKey(x, k, sort) == WithKey(y, k, sort);
    SomeWithKey(y, k, sort);
  }

  lemma SameLast(x: seq<Quote>, y: seq<Quote>, k: int, sort: SortMethod)
    requires SameOrder(x, y, sort) && x != [] && y != []
    requires QuoteKey(x[|x| - 1], sort) == QuoteKey(y[|y| - 1], sort)
    ensures WithKey(x[..|x| - 1], k, sort) == WithKey(y[..|y| - 1], k, sort)
    ensures k == QuoteKey(x[|x| - 1], sort) ==> x[|x| - 1] == y[|y| - 1]
  {
    assert WithKey(x, k, sort) == WithKey(y, k, sort);
    var a, b := WithKey(x[..|x| - 1], k, sort), WithKey(y[..|y| - 1], k, sort);
    if k == QuoteKey(x[|x| - 1], sort) {
      var p, q := x[|x| - 1], y[|y| - 1];
      assert a + [p] == b + [q];
      assert (a + [p])[..|a|] == a && (b + [q])[..|b|] == b && (a + [p])[|a|] == p && (b + [q])[|b|] == q;
    } else {
      assert a + [] == a && b + [] == b;
    }
  }

  lemma JoinSame(x: seq<Quote>, y: seq<Quote>, u: seq<Quote>, v: seq<Quote>, sort: SortMethod)
    requires SameOrder(x, y, sort) && SameOrder(u, v, sort)
    ensures SameOrder(x + u, y + v, sort)
  {
    forall k ensures WithKey(x + u, k, sort) == WithKey(y + v, k, sort) {
      WithKeyJoin(x, u, k, sort);
      WithKeyJoin(y, v, k, sort);
    }
  }

  /** merge_two_quote. */
  method MergeTwoQuote(q1: Option<seq<Quote>>, q2: Option<seq<Quote>>, sort: SortMethod)
      returns (r: Option<seq<Quote>>)
    ensures r.None? <==> q1.None? && q2.None?
    ensures multiset(Flat(r)) == multiset(Flat(q1)) + multiset(Flat(q2))
    ensures Sorted(Flat(q1), sort) && Sorted(Flat(q2), sort) ==>
      Sorted(Flat(r), sort) && SameOrder(Flat(r), Flat(q1) + Flat(q2), sort)
  {
    hide WithKey;
    if q1.None? {
      assert [] + Flat(q2) == Flat(q2);
      return q2;
    }
    if q2.None? {
      assert Flat(q1) + [] == Flat(q1);
      return q1;
    }
    var items := MergeItems(q1.value, q2.value, sort);
    return Some(items);
  }

  /** Its loop. */
  method MergeItems(a: seq<Quote>, b: seq<Quote>, sort: SortMethod) returns (items: seq<Quote>)
    ensures multiset(items) == multiset(a) + multiset(b)
    ensures Sorted(a, sort) && Sorted(b, sort) ==> Sorted(items, sort) && SameOrder(items, a + b, sort)
  {
    hide Sorted, Merged, QuoteKey, Stable, SameOrder;
    var idx, idy := 0, 0;
    items := [];
    StartMerge(a, b, sort);
    assert a[0..] == a && b[0..] == b;
    while idx <= |a| && idy <= |b|
      invariant idx <= |a| && idy <= |b|
      invariant multiset(items) == multiset(a[..idx]) + multiset(b[..idy])
      invariant Sorted(a, sort) && Sorted(b, sort) ==>
        Merged(items, a[idx..], b[idy..], sort) && Stable(items, a, idx, b, idy, sort)
      decreases |a| - idx + |b| - idy
    {
      if idx == |a| {
        if idy == |b| {
          break;
        }
        TakeOne(items, b, idy, a, idx, sort);
        TakeSecond(items, a, idx, b, idy, sort);
        items := items + [b[idy]];
        idy := idy + 1;
      } else if idy == |b| {
        TakeOne(items, a, idx, b, idy, sort);
        TakeFirst(items, a, idx, b, idy, sort);
        items := items + [a[idx]];
        idx := idx + 1;
      } else if QuoteKey(a[idx], sort) > QuoteKey(b[idy], sort) {
        TakeOne(items, b, idy, a, idx, sort);
        TakeSecond(items, a, idx, b, idy, sort);
        items := items + [b[idy]];
        idy := idy + 1;
      } else {
        TakeOne(items, a, idx, b, idy, sort);
        TakeFirst(items, a, idx, b, idy, sort);
        items := items + [a[idx]];
        idx := idx + 1;
      }
    }
    assert a[..|a|] == a && b[..|b|] == b;
    EndMerge(items, a[idx..], b[idy..], sort);
    EndStable(items, a, b, sort);
  }

  lemma StartMerge(a: seq<Quote>, b: seq<Quote>, sort: SortMethod)
    ensures Merged([], a, b, sort) && Stable([], a, 0, b, 0, sort)
  {
  }

  /** Equals are in the order of the lists, and nothing taken from the second came before its equals in the first. */
  ghost predicate Stable(items: seq<Quote>, a: seq<Quote>, i: nat, b: seq<Quote>, j: nat, sort: SortMethod) {
    && i <= |a| && j <= |b| && SameOrder(items, a[..i] + b[..j], sort)
    && forall m :: 0 <= m < j && i < |a| ==> QuoteKey(b[m], sort) < QuoteKey(a[i], sort)
  }

  lemma TakeFirst(items: seq<Quote>, a: seq<Quote>, i: nat, b: seq<Quote>, j: nat, sort: SortMethod)
    requires i < |a| && j <= |b|
    ensures Sorted(a, sort) && Stable(items, a, i, b, j, sort) ==> Stable(items + [a[i]], a, i + 1, b, j, sort)
  {
    hide WithKey, QuoteKey;
    if Sorted(a, sort) && Stable(items, a, i, b, j, sort) {
      forall k ensures WithKey(items + [a[i]], k, sort) == WithKey(a[..i + 1] + b[..j], k, sort) {
        assert WithKey(items, k, sort) == WithKey(a[..i] + b[..j], k, sort);
        OneMoreKey(items, a[i], k, sort);
        OneMoreKey(a[..i], a[i], k, sort);
        assert a[..i + 1] == a[..i] + [a[i]];
        WithKeyJoin(a[..i], b[..j], k, sort);
        WithKeyJoin(a[..i + 1], b[..j], k, sort);
        if k == QuoteKey(a[i], sort) { NoneWithKey(b[..j], k, sort); }
      }
    }
  }

  lemma TakeSecond(items: seq<Quote>, a: seq<Quote>, i: nat, b: seq<Quote>, j: nat, sort: SortMethod)
    requires i <= |a| && j < |b| && (i < |a| ==> QuoteKey(b[j], sort) < QuoteKey(a[i], sort))
    ensures Stable(items, a, i, b, j, sort) ==> Stable(items + [b[j]], a, i, b, j + 1, sort)
  {
    hide WithKey, QuoteKey;
    if Stable(items, a, i, b, j, sort) {
      forall k ensures WithKey(items + [b[j]], k, sort) == WithKey(a[..i] + b[..j + 1], k, sort) {
        assert WithKey(items, k, sort) == WithKey(a[..i] + b[..j], k, sort);
        OneMoreKey(items, b[j], k, sort);
        OneMoreKey(a[..i] + b[..j], b[j], k, sort);
        assert a[..i] + b[..j + 1] == (a[..i] + b[..j]) + [b[j]];
      }
    }
  }

  lemma EndMerge(items: seq<Quote>, a: seq<Quote>, b: seq<Quote>, sort: SortMethod)
    ensures Merged(items, a, b, sort) ==> Sorted(items, sort)
  {
  }

  lemma EndStable(items: seq<Quote>, a: seq<Quote>, b: seq<Quote>, sort: SortMethod)
    ensures Stable(items, a, |a|, b, |b|, sort) ==> SameOrder(items, a + b, sort)
  {
    assert a[..|a|] == a && b[..|b|] == b;
  }

  /** What is merged is sorted, and not above what is left. */
  ghost predicate Merged(items: seq<Quote>, a: seq<Quote>, b: seq<Quote>, sort: SortMethod) {
    Sorted(items, sort) &&
    forall i, x :: 0 <= i < |items| && (x in a || x in b) ==> QuoteKey(items[i], sort) <= QuoteKey(x, sort)
  }

  lemma TakeOne(items: seq<Quote>, a: seq<Quote>, i: nat, b: seq<Quote>, j: nat, sort: SortMethod)
    requires i < |a| && j <= |b|
    requires j < |b| ==> QuoteKey(a[i], sort) <= QuoteKey(b[j], sort)
    ensures a[..i + 1] == a[..i] + [a[i]]
    ensures Sorted(a, sort) && Sorted(b, sort) &&
            (Merged(items, a[i..], b[j..], sort) || Merged(items, b[j..], a[i..], sort)) ==>
      Merged(items + [a[i]], a[i + 1..], b[j..], sort) && Merged(items + [a[i]], b[j..], a[i + 1..], sort)
  {
    if Sorted(a, sort) && Sorted(b, sort) && (Merged(items, a[i..], b[j..], sort) || Merged(items, b[j..], a[i..], sort)) {
      assert a[i..] == [a[i]] + a[i + 1..];
      forall x | x in a[i + 1..] || x in b[j..] ensures QuoteKey(a[i], sort) <= QuoteKey(x, sort) {
        if x in a[i + 1..] {
          var k :| 0 <= k < |a[i + 1..]| && a[i + 1..][k] == x;
          assert x == a[i + 1 + k];
        } else {
          var k :| 0 <= k < |b[j..]| && b[j..][k] == x;
          assert x == b[j + k];
        }
      }
    }
  }

  ghost function AllFlat(list: seq<Option<seq<Quote>>>): multiset<Quote> {
    if list == [] then multiset{} else multiset(Flat(list[0])) + AllFlat(list[1..])
  }

  lemma {:induction false} AllFlatConcat(a: seq<Option<seq<Quote>>>, b: seq<Option<seq<Quote>>>)
    ensures AllFlat(a + b) == AllFlat(a) + AllFlat(b)
  {
    if a == [] {
      assert a + b == b;
    } else {
      assert (a + b)[1..] == a[1..] + b;
      AllFlatConcat(a[1..], b);
    }
  }

  /** The lists one after the other. */
  function Joined(list: seq<Option<seq<Quote>>>): seq<Quote> {
    if list == [] then [] else Joined(list[..|list| - 1]) + Flat(list[|list| - 1])
  }

  lemma JoinedMore(list: seq<Option<seq<Quote>>>, k: nat)
    requires k < |list|
    ensures Joined(list[..k + 1]) == Joined(list[..k]) + Flat(list[k])
  {
    assert list[..k + 1][..k] == list[..k];
  }

  /** merge_quotes: the one order by keys in which equals stay in the order of the lists. */
  method MergeQuotes(list: seq<Option<seq<Quote>>>, sort: SortMethod) returns (r: Option<seq<Quote>>)
    requires |list| >= 1
    ensures multiset(Flat(r)) == AllFlat(list)
    ensures EachSorted(list, sort) ==> Sorted(Flat(r), sort) && SameOrder(Flat(r), Joined(list), sort)
    decreases |list|
  {
    hide WithKey, Sorted;
    if |list| == 1 {
      OneJoined(list);
      return list[0];
    }
    var next := PairUp(list, sort);
    r := MergeQuotes(next, sort);
  }

  lemma OneJoined(list: seq<Option<seq<Quote>>>)
    requires |list| == 1
    ensures Joined(list) == Flat(list[0])
  {
    assert list[..0] == [];
    assert [] + Flat(list[0]) == Flat(list[0]);
  }

  ghost predicate EachSorted(list: seq<Option<seq<Quote>>>, sort: SortMethod) {
    forall q :: q in list ==> Sorted(Flat(q), sort)
  }

  /** Its loop over pairs, an odd list at the end kept as it is. */
  method PairUp(list: seq<Option<seq<Quote>>>, sort: SortMethod) returns (next: seq<Option<seq<Quote>>>)
    requires |list| >= 2
    ensures 1 <= |next| < |list| && AllFlat(next) == AllFlat(list)
    ensures EachSorted(list, sort) ==> EachSorted(next, sort) && SameOrder(Joined(next), Joined(list), sort)
  {
    hide Sorted, AllFlat, Flat, Joined, SameOrder;
    NoneJoined(sort);
    var pairCnt := |list| / 2;
    next := [];
    assert list[..0] == [];
    for k := 0 to pairCnt
      invariant |next| == k
      invariant AllFlat(next) == AllFlat(list[..2 * k])
      invariant EachSorted(list, sort) ==> EachSorted(next, sort) && SameOrder(Joined(next), Joined(list[..2 * k]), sort)
    {
      var merged := MergeTwoQuote(list[2 * k], list[2 * k + 1], sort);
      assert list[2 * k] in list && list[2 * k + 1] in list;
      PairFlat(next, list, k, merged);
      if EachSorted(list, sort) { PairJoined(next, list, k, merged, sort); }
      next := next + [merged];
    }
    if 2 * pairCnt != |list| {
      LastFlat(next, list);
      if EachSorted(list, sort) { LastJoined(next, list, sort); }
      assert list[|list| - 1] in list;
      next := next + [list[|list| - 1]];
    } else {
      assert list == list[..2 * pairCnt];
    }
  }

  lemma NoneJoined(sort: SortMethod)
    ensures SameOrder(Joined([]), Joined([]), sort)
  {
  }

  lemma PairJoined(next: seq<Option<seq<Quote>>>, list: seq<Option<seq<Quote>>>, k: nat, merged: Option<seq<Quote>>,
    sort: SortMethod)
    requires 2 * k + 1 < |list| && SameOrder(Joined(next), Joined(list[..2 * k]), sort)
    requires SameOrder(Flat(merged), Flat(list[2 * k]) + Flat(list[2 * k + 1]), sort)
    ensures SameOrder(Joined(next + [merged]), Joined(list[..2 * (k + 1)]), sort)
  {
    hide Joined, Flat, SameOrder;
    var a, b, c := Joined(list[..2 * k]), Flat(list[2 * k]), Flat(list[2 * k + 1]);
    JoinedMore(list, 2 * k);
    JoinedMore(list, 2 * k + 1);
    JoinedLast(next, merged);
    JoinSame(Joined(next), a, Flat(merged), b + c, sort);
    assert a + (b + c) == a + b + c;
  }

  lemma JoinedLast(next: seq<Option<seq<Quote>>>, q: Option<seq<Quote>>)
    ensures Joined(next + [q]) == Joined(next) + Flat(q)
  {
    assert (next + [q])[..|next|] == next;
  }

  lemma LastJoined(next: seq<Option<seq<Quote>>>, list: seq<Option<seq<Quote>>>, sort: SortMethod)
    requires list != [] && SameOrder(Joined(next), Joined(list[..|list| - 1]), sort)
    ensures SameOrder(Joined(next + [list[|list| - 1]]), Joined(list), sort)
  {
    hide Flat, SameOrder;
    var last := list[|list| - 1];
    JoinedLast(next, last);
    SameAsItself(Flat(last), sort);
    JoinSame(Joined(next), Joined(list[..|list| - 1]), Flat(last), Flat(last), sort);
  }

  lemma SameAsItself(x: seq<Quote>, sort: SortMethod)
    ensures SameOrder(x, x, sort)
  {
  }

  lemma PairFlat(next: seq<Option<seq<Quote>>>, list: seq<Option<seq<Quote>>>, k: nat, merged: Option<seq<Quote>>)
    requires 2 * k + 1 < |list| && AllFlat(next) == AllFlat(list[..2 * k])
    requires multiset(Flat(merged)) == multiset(Flat(list[2 * k])) + multiset(Flat(list[2 * k + 1]))
    ensures AllFlat(next + [merged]) == AllFlat(list[..2 * (k + 1)])
  {
    hide AllFlat, Flat;
    var first, second := list[2 * k], list[2 * k + 1];
    AllFlatConcat(next, [merged]);
    AllFlatConcat(list[..2 * k] + [first], [second]);
    AllFlatConcat(list[..2 * k], [first]);
    AllFlatOne(first);
    AllFlatOne(second);
    AllFlatOne(merged);
    assert list[..2 * (k + 1)] == list[..2 * k] + [first] + [second];
  }

  lemma AllFlatOne(q: Option<seq<Quote>>)
    ensures AllFlat([q]) == multiset(Flat(q))
  {
    assert [q][1..] == [];
    assert AllFlat([]) == multiset{};
  }

  lemma LastFlat(next: seq<Option<seq<Quote>>>, list: seq<Option<seq<Quote>>>)
    requires list != [] && AllFlat(next) == AllFlat(list[..|list| - 1])
    ensures AllFlat(next + [list[|list| - 1]]) == AllFlat(list)
  {
    hide AllFlat, Flat;
    AllFlatConcat(next, [list[|list| - 1]]);
    AllFlatConcat(list[..|list| - 1], [list[|list| - 1]]);
    assert list == list[..|list| - 1] + [list[|list| - 1]];
  }

  // ----- two sorted arrangements of the same quotes have the same keys

  function KeySeq(quotes: seq<Quote>, sort: SortMethod): seq<int> {
    seq(|quotes|, i requires 0 <= i < |quotes| => QuoteKey(quotes[i], sort))
  }

  ghost predicate Ascending(keys: seq<int>) {
    forall i, j :: 0 <= i < j < |keys| ==> keys[i] <= keys[j]
  }

  lemma TakenOut<T>(s: seq<T>, k: nat)
    requires k < |s|
    ensures multiset(s) == multiset{s[k]} + multiset(s[..k] + s[k + 1..])
  {
    assert s == s[..k] + [s[k]] + s[k + 1..];
  }

  lemma CancelOne<T>(x: T, m: multiset<T>, n: multiset<T>)
    requires multiset{x} + m == multiset{x} + n
    ensures m == n
  {
    forall e ensures m[e] == n[e] {
      assert (multiset{x} + m)[e] == multiset{x}[e] + m[e];
      assert (multiset{x} + n)[e] == multiset{x}[e] + n[e];
    }
  }

  lemma {:induction false} SameKeys(a: seq<Quote>, b: seq<Quote>, sort: SortMethod)
    requires multiset(a) == multiset(b)
    ensures multiset(KeySeq(a, sort)) == multiset(KeySeq(b, sort))
    decreases |a|
  {
    SameSize(a, b);
    if a != [] {
      assert a[0] in multiset(b);
      var k :| 0 <= k < |b| && b[k] == a[0];
      var rest := b[..k] + b[k + 1..];
      DropFirst(a);
      TakenOut(b, k);
      CancelOne(a[0], multiset(a[1..]), multiset(rest));
      SameKeys(a[1..], rest, sort);
      DropFirst(KeySeq(a, sort));
      assert KeySeq(a, sort)[1..] == KeySeq(a[1..], sort);
      KeysTakenOut(b, k, sort);
    }
  }

  lemma KeysTakenOut(s: seq<Quote>, k: nat, sort: SortMethod)
    requires k < |s|
    ensures multiset(KeySeq(s, sort)) ==
      multiset{QuoteKey(s[k], sort)} + multiset(KeySeq(s[..k] + s[k + 1..], sort))
  {
    TakenOut(KeySeq(s, sort), k);
    assert KeySeq(s[..k] + s[k + 1..], sort) == KeySeq(s, sort)[..k] + KeySeq(s, sort)[k + 1..];
  }

  lemma DropFirst<T>(s: seq<T>)
    requires s != []
    ensures multiset(s) == multiset{s[0]} + multiset(s[1..])
  {
    assert s == [s[0]] + s[1..];
  }

  lemma {:induction false} SortedUnique(a: seq<int>, b: seq<int>)
    requires multiset(a) == multiset(b) && Ascending(a) && Ascending(b)
    ensures a == b
    decreases |a|
  {
    SameSize(a, b);
    if a != [] {
      LeastFirst(a, b);
      LeastFirst(b, a);
      DropFirst(a);
      DropFirst(b);
      CancelOne(a[0], multiset(a[1..]), multiset(b[1..]));
      SortedUnique(a[1..], b[1..]);
    }
  }

  lemma SameSize<T>(a: seq<T>, b: seq<T>)
    requires multiset(a) == multiset(b)
    ensures |a| == |b|
  {
    assert |a| == |multiset(a)| == |b|;
  }

  lemma LeastFirst(a: seq<int>, b: seq<int>)
    requires multiset(a) == multiset(b) && Ascending(a) && a != [] && b != []
    ensures a[0] <= b[0]
  {
    assert b[0] in multiset(a);
    var k :| 0 <= k < |a| && a[k] == b[0];
  }

  /** The loser tree's pops and the pairwise merge give the same keys in the same order,
      however either breaks ties. */
  lemma SameKeyOrder(chs: Channels, picks: seq<Pick>, merged: seq<Quote>, sort: SortMethod)
    requires IsMerge(chs, Zeros(|chs|), picks, sort)
    requires forall c :: 0 <= c < |chs| ==> Sorted(chs[c], sort)
    requires multiset(merged) == AllQuotes(chs) && Sorted(merged, sort)
    ensures forall p :: p in picks ==> p.col < |chs| && p.row < |chs[p.col]|
    ensures KeySeq(QuotesOf(chs, picks), sort) == KeySeq(merged, sort)
  {
    KeysAscend(chs, Zeros(|chs|), picks, sort);
    AllTaken(chs, Zeros(|chs|), picks, sort);
    LeftAll(chs);
    SameKeys(QuotesOf(chs, picks), merged, sort);
    SortedUnique(KeySeq(QuotesOf(chs, picks), sort), KeySeq(merged, sort));
  }

  lemma {:induction false} AllPresent(chs: Channels)
    ensures AllFlat(Lists(chs)) == AllQuotes(chs)
  {
    if chs != [] {
      assert Lists(chs)[1..] == Lists(chs[1..]);
      AllPresent(chs[1..]);
    }
  }

  function Lists(chs: Channels): seq<Option<seq<Quote>>> {
    seq(|chs|, c requires 0 <= c < |chs| => Some(chs[c]))
  }

  /** Channels that fit the loser tree and its codes. */
  ghost predicate Encodable(chs: Channels, sort: SortMethod) {
    1 <= |chs| <= MAX_CHANNEL_CNT &&
    forall c :: 0 <= c < |chs| ==> |chs[c]| <= 0x10_0000 && LoserTree.Fits(LoserTree.Channel(chs[c], 0), sort)
  }

  /** What the driver of test.py asks for: besides, they are in the order of their keys. */
  ghost predicate Testable(chs: Channels, sort: SortMethod) {
    Encodable(chs, sort) && forall c :: 0 <= c < |chs| ==> Sorted(chs[c], sort)
  }

  /** The ticks a list of codes stands for. */
  function DecodeAll(codes: seq<int>): seq<Pick> {
    seq(|codes|, i requires 0 <= i < |codes| => Pick(DecodeRow(codes[i]), DecodeCol(codes[i])))
  }

  /** Each row of each channel is there once, and nothing else. */
  ghost predicate EachOnce(chs: Channels, ticks: seq<Pick>) {
    forall row: nat, c: nat :: multiset(ticks)[Pick(row, c)] == if c < |chs| && row < |chs[c]| then 1 else 0
  }

  /** The comparison that test.py makes: the ticks popped from the loser tree, decoded, have
      the keys of the pairwise merge one by one. */
  method CompareOrders(chs: Channels, sort: SortMethod) returns (codes: seq<int>, merged: seq<Quote>)
    requires Testable(chs, sort)
    ensures Sorted(merged, sort) && SameOrder(merged, Joined(Lists(chs)), sort)
    ensures |codes| == |merged| && multiset(merged) == AllQuotes(chs) && EachOnce(chs, DecodeAll(codes))
    ensures forall i :: 0 <= i < |codes| ==>
      0 <= DecodeCol(codes[i]) < |chs| && 0 <= DecodeRow(codes[i]) < |chs[DecodeCol(codes[i])]| &&
      QuoteKey(chs[DecodeCol(codes[i])][DecodeRow(codes[i])], sort) == QuoteKey(merged[i], sort)
  {
    hide LoserTree.Fits, Sorted, IsMerge, AllQuotes, AllFlat, QuotesOf, KeySeq, EachOnce, DecodeAll, SameOrder, Joined;
    ghost var picks;
    codes, picks := TreeOrder(chs, sort);
    var r := MergeQuotes(Lists(chs), sort);
    AllPresent(chs);
    merged := match r case None => [] case Some(v) => v;
    SameKeyOrder(chs, picks, merged, sort);
    Decoded(chs, picks, codes, merged, sort);
  }

  /** The loser tree's side of the comparison: every row of every channel comes out once, as its code; among equals the
      first channel comes first at the start, and from then on the channel that came last. */
  method TreeOrder(chs: Channels, sort: SortMethod) returns (codes: seq<int>, ghost picks: seq<Pick>)
    requires Encodable(chs, sort)
    ensures IsMerge(chs, Zeros(|chs|), picks, sort) && DecodeAll(codes) == picks
    ensures EachOnce(chs, DecodeAll(codes))
    ensures Staying(chs, Zeros(|chs|), picks, sort)
    ensures picks != [] && Takes(chs, Zeros(|chs|), Pick(0, 0), sort) ==> picks[0] == Pick(0, 0)
  {
    hide LoserTree.Fits, Sorted, LoserTree.QuoteData.Valid, Takes, EncodeTick, DecodeAll, EachOnce;
    var data := new LoserTree.Channel[|chs|](c requires 0 <= c < |chs| => LoserTree.Channel(chs[c], 0));
    assert LoserTree.QuotesIn(data[..]) == chs;
    var tree := new LoserTree.QuoteData();
    tree.LoadQuoteC(data, sort);
    codes, picks := tree.PopAll();
    CodesArePicks(chs, picks, codes, sort);
    if picks != [] { SameRow(chs, Zeros(|chs|), Pick(0, 0), picks[0], sort); }
  }

  lemma CodesArePicks(chs: Channels, picks: seq<Pick>, codes: seq<int>, sort: SortMethod)
    requires Encodable(chs, sort) && IsMerge(chs, Zeros(|chs|), picks, sort) && |codes| == |picks|
    requires forall i :: 0 <= i < |codes| ==>
      picks[i].row <= UINT_MAX && picks[i].col <= UINT_MAX && codes[i] == EncodeTick(picks[i].row, picks[i].col)
    ensures DecodeAll(codes) == picks && EachOnce(chs, picks)
  {
    hide EncodeTick, DecodeRow, DecodeCol, LoserTree.Fits;
    PicksExist(chs, Zeros(|chs|), picks, sort);
    forall i | 0 <= i < |codes| ensures DecodeAll(codes)[i] == picks[i] {
      assert picks[i] in picks;
      CodeIsTick(picks[i].row, picks[i].col);
    }
    forall row: nat, c: nat ensures multiset(picks)[Pick(row, c)] == if c < |chs| && row < |chs[c]| then 1 else 0 {
      EachPairOnce(chs, Zeros(|chs|), picks, sort, row, c);
    }
  }

  lemma Decoded(chs: Channels, picks: seq<Pick>, codes: seq<int>, merged: seq<Quote>, sort: SortMethod)
    requires DecodeAll(codes) == picks
    requires forall p :: p in picks ==> p.col < |chs| && p.row < |chs[p.col]|
    requires KeySeq(QuotesOf(chs, picks), sort) == KeySeq(merged, sort)
    ensures |codes| == |merged|
    ensures forall i :: 0 <= i < |codes| ==>
      0 <= DecodeCol(codes[i]) < |chs| && 0 <= DecodeRow(codes[i]) < |chs[DecodeCol(codes[i])]| &&
      QuoteKey(chs[DecodeCol(codes[i])][DecodeRow(codes[i])], sort) == QuoteKey(merged[i], sort)
  {
    hide DecodeRow, DecodeCol, Sorted;
    assert |KeySeq(merged, sort)| == |merged|;
    forall i | 0 <= i < |codes|
      ensures 0 <= DecodeCol(codes[i]) < |chs| && 0 <= DecodeRow(codes[i]) < |chs[DecodeCol(codes[i])]|
      ensures QuoteKey(chs[DecodeCol(codes[i])][DecodeRow(codes[i])], sort) == QuoteKey(merged[i], sort)
    {
      assert picks[i] == Pick(DecodeRow(codes[i]), DecodeCol(codes[i])) && picks[i] in picks;
      assert KeySeq(QuotesOf(chs, picks), sort)[i] == KeySeq(merged, sort)[i];
    }
  }
}

/** interbreak.py: the greatest product of a way to write a number as a sum. */
module IntegerBreak {

  function Sum(parts: seq<nat>): nat {
    if parts == [] then 0 else parts[0] + Sum(parts[1..])
  }

  function Product(parts: seq<nat>): nat {
    if parts == [] then 1 else parts[0] * Product(parts[1..])
  }

  predicate Positive(parts: seq<nat>) {
    forall i :: 0 <= i < |parts| ==> parts[i] >= 1
  }

  /** A way to write `n` as a sum of two or more positive integers. */
  ghost predicate Breaks(parts: seq<nat>, n: nat) {
    |parts| >= 2 && Sum(parts) == n && Positive(parts)
  }

  /** The greatest product when a single part is allowed as well. */
  function Greatest(n: nat): (r: nat)
    ensures r >= 1
  {
    if n <= 1 then 1 else if n <= 4 then n else 3 * Greatest(n - 3)
  }

  function Best(n: nat): nat { if n == 2 || n == 3 then n - 1 else Greatest(n) }

  lemma {:induction false} TimesPart(a: nat, b: nat)
    requires b >= 1
    ensures Greatest(a) * b <= Greatest(a + b)
    decreases a + b
  {
    if b >= 5 {
      TimesPart(a, b - 3);
      Triples(Greatest(a), b);
    } else if a >= 5 {
      TimesPart(a - 3, b);
      assert 3 * Greatest(a - 3) * b == 3 * (Greatest(a - 3) * b);
    } else {
      SmallCases(a, b);
    }
  }

  lemma Triples(g: nat, b: nat)
    requires b >= 5
    ensures g * b <= 3 * (g * (b - 3))
  {
    assert 3 * (g * (b - 3)) == g * (3 * (b - 3));
    assert b <= 3 * (b - 3);
    Monotone(g, b, 3 * (b - 3));
  }

  lemma Monotone(g: nat, a: nat, b: nat)
    requires a <= b
    ensures g * a <= g * b
  {
  }

  lemma SmallCases(a: nat, b: nat)
    requires a <= 4 && 1 <= b <= 4
    ensures Greatest(a) * b <= Greatest(a + b)
  {
    assert Greatest(5) == 6 && Greatest(6) == 9 && Greatest(7) == 12 && Greatest(8) == 18 by {
      assert Greatest(5) == 3 * Greatest(2);
      assert Greatest(6) == 3 * Greatest(3);
      assert Greatest(7) == 3 * Greatest(4);
      assert Greatest(8) == 3 * Greatest(5);
    }
  }

  lemma {:induction false} ProductBound(parts: seq<nat>)
    requires Positive(parts)
    ensures Product(parts) <= Greatest(Sum(parts))
  {
    if parts != [] {
      var rest := parts[1..];
      ProductBound(rest);
      Monotone(parts[0], Product(rest), Greatest(Sum(rest)));
      TimesPart(Sum(rest), parts[0]);
    }
  }

  lemma {:induction false} SumPositive(parts: seq<nat>)
    requires parts != [] && Positive(parts)
    ensures Sum(parts) >= 1
  {
  }

  /** No way has a greater product. */
  lemma NoneGreater(parts: seq<nat>, n: nat)
    requires Breaks(parts, n)
    ensures n >= 2 && Product(parts) <= Best(n)
  {
    var rest := parts[1..];
    SumPositive(rest);
    ProductBound(parts);
    ProductBound(rest);
    Monotone(parts[0], Product(rest), Greatest(Sum(rest)));
    if n == 3 { assert parts[0] == 1 || parts[0] == 2; }
  }

  /** And one has that product. */
  lemma {:induction false} OneAttains(n: nat) returns (parts: seq<nat>)
    requires n >= 2
    ensures Breaks(parts, n) && Product(parts) == Best(n)
    decreases n
  {
    hide Sum, Product, Greatest;
    SmallBest();
    if n <= 6 {
      var a := if n == 2 || n == 3 then 1 else if n == 6 then 3 else 2;
      TwoParts(a, n - a);
      parts := [a, n - a];
    } else {
      var rest := OneAttains(n - 3);
      OneMore(3, rest);
      Triple(n);
      parts := [3] + rest;
    }
  }

  lemma TwoParts(a: nat, b: nat)
    ensures Sum([a, b]) == a + b && Product([a, b]) == a * b
  {
    OneMore(a, [b]);
    OneMore(b, []);
    assert [a] + [b] == [a, b] && [b] + [] == [b];
  }

  lemma OneMore(a: nat, parts: seq<nat>)
    ensures Sum([a] + parts) == a + Sum(parts) && Product([a] + parts) == a * Product(parts)
  {
    assert ([a] + parts)[1..] == parts;
  }

  lemma Triple(n: nat)
    requires n >= 7
    ensures Best(n) == 3 * Best(n - 3)
  {
  }

  lemma SmallBest()
    ensures Best(2) == 1 && Best(3) == 2 && Best(4) == 4 && Best(5) == 6 && Best(6) == 9
  {
    assert Greatest(5) == 3 * Greatest(2);
    assert Greatest(6) == 3 * Greatest(3);
  }

  /** What the table holds: the greatest product, and a part it can be made with. */
  function Entry(n: nat): (nat, nat)
    requires n >= 2
  {
    if n <= 3 then (n - 1, 1) else (Greatest(n), if n % 3 == 0 then 3 else 2)
  }

  function Pow3(m: nat): (r: nat)
    ensures r >= 1
  {
    if m == 0 then 1 else 3 * Pow3(m - 1)
  }

  lemma {:induction false} Pow3Odd(m: nat)
    ensures Pow3(m) % 2 == 1
  {
    if m > 0 {
      Pow3Odd(m - 1);
      Odd(Pow3(m - 1));
    }
  }

  /** The greatest product in closed form: threes, with one four or one two. */
  lemma {:induction false} Closed(m: nat)
    requires m >= 1
    ensures Greatest(3 * m) == 3 * Pow3(m - 1)
    ensures Greatest(3 * m + 1) == 4 * Pow3(m - 1)
    ensures Greatest(3 * m + 2) == 2 * Pow3(m)
  {
    if m > 1 {
      Closed(m - 1);
      assert Greatest(3 * m) == 3 * Greatest(3 * (m - 1));
      assert Greatest(3 * m + 1) == 3 * Greatest(3 * (m - 1) + 1);
      assert Greatest(3 * m + 2) == 3 * Greatest(3 * (m - 1) + 2);
    } else {
      assert Greatest(5) == 3 * Greatest(2);
      assert Pow3(1) == 3 * Pow3(0);
    }
  }

  /** From one entry to the next, the greatest product changes by 4/3 or 3/2. */
  lemma NextGreatest(n: nat) returns (q: nat)
    requires n >= 4
    ensures n % 3 == 0 ==> Greatest(n) == 3 * q && Greatest(n + 1) == 4 * q
    ensures n % 3 == 1 ==> Greatest(n) == 4 * q && Greatest(n + 1) == 6 * q
    ensures n % 3 == 2 ==> Greatest(n) == 2 * q && Greatest(n + 1) == 3 * q && q % 2 == 1
  {
    hide Greatest;
    var m := n / 3;
    assert Pow3(m) == 3 * Pow3(m - 1);
    Closed(m);
    if n == 3 * m + 2 {
      q := Pow3(m);
      Closed(m + 1);
      Pow3Odd(m);
    } else {
      q := Pow3(m - 1);
    }
  }

  lemma Thirds(x: nat, q: nat)
    requires x == 3 * q
    ensures x / 3 * 4 == 4 * q
  {
  }

  lemma Halves(x: nat, q: nat)
    requires x == 4 * q
    ensures x / 2 * 3 == 6 * q && x / 2 * 3 % 2 == 0
  {
    Twice(2 * q);
    Twice(3 * q);
  }

  lemma OddHalves(x: nat, q: nat)
    requires x == 2 * q && q % 2 == 1
    ensures x / 2 * 3 == 3 * q && x / 2 * 3 % 2 != 0
  {
    Twice(q);
    Odd(q);
  }

  lemma Twice(x: nat)
    ensures 2 * x / 2 == x && 2 * x % 2 == 0
  {
  }

  lemma Odd(q: nat)
    requires q % 2 == 1
    ensures 3 * q % 2 == 1
  {
    var h := Half(q);
    TwiceAndOne(3 * h + 1);
    assert 3 * q == 2 * (3 * h + 1) + 1;
  }

  lemma Half(q: nat) returns (h: nat)
    requires q % 2 == 1
    ensures q == 2 * h + 1
  {
    h := q / 2;
  }

  lemma TwiceAndOne(x: nat)
    ensures (2 * x + 1) % 2 == 1
  {
  }

  /** What fn1 computes from an entry is the next one. */
  lemma NextEntry(n: nat)
    requires n >= 4
    ensures var (maxm, minv) := Entry(n);
      if minv == 2 then
        Entry(n + 1) == (maxm / 2 * 3, if maxm / 2 * 3 % 2 != 0 then 3 else 2)
      else minv == 3 && Entry(n + 1) == (maxm / 3 * 4, 2)
  {
    hide Greatest;
    var q := NextGreatest(n);
    if n % 3 == 0 {
      Thirds(Greatest(n), q);
    } else if n % 3 == 1 {
      Halves(Greatest(n), q);
    } else {
      OddHalves(Greatest(n), q);
    }
  }

  lemma FourIsTwoTwos()
    ensures Entry(4) == (4, 2)
  {
  }

  class Solution {
    var maxmap: map<nat, (nat, nat)>

    ghost predicate Valid()
      reads this
    {
      {2, 3, 4, 5} <= maxmap.Keys && forall n :: n in maxmap ==> n >= 2 && maxmap[n] == Entry(n)
    }

    constructor ()
      ensures Valid() && maxmap.Keys == {2, 3, 4, 5}
    {
      maxmap := map[2 := (1, 1), 3 := (2, 1), 4 := (4, 2), 5 := (6, 2)];
      new;
      assert Greatest(5) == 3 * Greatest(2);
    }

    /** fn1: the entry after `n`'s from the entry of `n`. */
    method Fn1(n: nat) returns (r: (nat, nat))
      requires Valid() && n >= 4 && n in maxmap
      modifies this
      ensures Valid() && maxmap == old(maxmap)[n + 1 := r] && r == Entry(n + 1)
    {
      hide Greatest;
      var (maxm, minv) := maxmap[n];
      var newm, newv;
      NextEntry(n);
      FourIsTwoTwos();
      if minv == 2 {
        newm := maxm / minv * 3;
        if newm % minv != 0 {
          newv := 3;
        } else {
          newv := if minv < 3 then minv else 3;
        }
      } else {
        newm := maxm / minv * maxmap[minv + 1].0;
        if newm % minv == 0 {
          newv := if maxmap[minv + 1].1 < minv then maxmap[minv + 1].1 else minv;
        } else {
          newv := maxmap[minv + 1].1;
        }
      }
      maxmap := maxmap[n + 1 := (newm, newv)];
      return maxmap[n + 1];
    }

    /** integerBreak. */
    method IntegerBreak(n: nat) returns (r: nat)
      requires n >= 2 && Valid()
      modifies this
      ensures Valid()
      ensures exists parts :: Breaks(parts, n) && Product(parts) == r
      ensures forall parts :: Breaks(parts, n) ==> Product(parts) <= r
    {
      var i := 5;
      while i < n + 1
        invariant Valid() && i >= 5 && forall k :: 5 <= k <= i ==> k in maxmap
      {
        var _ := Fn1(i);
        i := i + 1;
      }
      r := maxmap[n].0;
      var parts := OneAttains(n);
      forall parts | Breaks(parts, n) ensures Product(parts) <= r {
        NoneGreater(parts, n);
      }
    }
  }
}

/**
 The loser tree as mathematics.  Places 1 to n-1 are the inner nodes, places n to 2n-1 the
 leaves; place i has the children 2i and 2i+1.  `l[i]` is the loser stored at inner node i,
 and `w[i]`, which the program does not store, the winner of the subtree at i.  A label
 below n names a channel; the label n names the sentinel the tree is built from.
 */
module Tournament {

  /** Place `x` lies on the way from place `p` to the root. */
  predicate OnPath(x: nat, p: nat) {
    x == p || (p > 1 && OnPath(x, p / 2))
  }

  function Sibling(x: nat): nat
    requires x > 1
  {
    if x % 2 == 0 then x + 1 else x - 1
  }

  lemma {:induction false} OnPathUp(x: nat, p: nat)
    requires OnPath(x, p) && x > 1
    ensures OnPath(x / 2, p)
  {
    if x != p { OnPathUp(x, p / 2); }
  }

  lemma {:induction false} OnPathBelow(x: nat, p: nat)
    requires OnPath(x, p)
    ensures x <= p && (x != p ==> x <= p / 2)
  {
    if x != p { OnPathBelow(x, p / 2); }
  }

  /** A path meets each pair of siblings at most once. */
  lemma {:induction false} OnePerPair(x: nat, y: nat, p: nat)
    requires OnPath(x, p) && OnPath(y, p) && x / 2 == y / 2 && x >= 1 && y >= 1
    ensures x == y
  {
    OnPathBelow(x, p);
    OnPathBelow(y, p);
    if x != p && y != p { OnePerPair(x, y, p / 2); }
  }

  lemma {:induction false} RootOnPath(p: nat)
    requires p >= 1
    ensures OnPath(1, p)
  {
    if p > 1 { RootOnPath(p / 2); }
  }

  /** The labels at a node are those of its children. */
  ghost predicate Linked(l: seq<nat>, w: seq<nat>, n: nat, i: nat)
    requires |l| > n && |w| == 2 * n && 1 <= i < n
  {
    (w[i] == w[2 * i] && l[i] == w[2 * i + 1]) || (w[i] == w[2 * i + 1] && l[i] == w[2 * i])
  }

  /** And the loser does not have the smaller key. */
  ghost predicate Played(key: seq<int>, l: seq<nat>, w: seq<nat>, n: nat, i: nat)
    requires |l| > n && |w| == 2 * n && 1 <= i < n && |key| > n
  {
    w[i] <= n && l[i] <= n && Linked(l, w, n, i) && key[w[i]] <= key[l[i]]
  }

  ghost predicate Shaped(key: seq<int>, l: seq<nat>, w: seq<nat>, n: nat) {
    |l| > n && |w| == 2 * n && |key| > n && n >= 1
  }

  ghost predicate AllPlayed(key: seq<int>, l: seq<nat>, w: seq<nat>, n: nat)
    requires Shaped(key, l, w, n)
  {
    (forall i :: 1 <= i < n ==> Played(key, l, w, n, i)) && l[0] == w[1]
  }

  /** Leaf `p` holds channel `p - n` once its number is at least `from`, and the sentinel
      before that. */
  ghost predicate Leaves(w: seq<nat>, n: nat, from: nat)
    requires |w| == 2 * n
  {
    forall p :: n <= p < 2 * n ==> w[p] == if p - n >= from then p - n else n
  }

  // ----- the winner of a full tree

  lemma {:induction false} WinnerBelow(key: seq<int>, l: seq<nat>, w: seq<nat>, n: nat, i: nat)
    requires Shaped(key, l, w, n) && AllPlayed(key, l, w, n) && Leaves(w, n, 0) && 1 <= i < 2 * n
    ensures w[i] < n && OnPath(i, w[i] + n)
    decreases 2 * n - i
  {
    if i < n {
      assert Played(key, l, w, n, i);
      var y := if w[i] == w[2 * i] then 2 * i else 2 * i + 1;
      WinnerBelow(key, l, w, n, y);
      OnPathUp(y, w[i] + n);
    }
  }

  /** On the way from the champion's leaf to the root the champion is the winner. */
  lemma {:induction false} ChampionPath(key: seq<int>, l: seq<nat>, w: seq<nat>, n: nat, x: nat)
    requires Shaped(key, l, w, n) && AllPlayed(key, l, w, n) && Leaves(w, n, 0)
    requires w[1] < n && x >= 1 && OnPath(x, w[1] + n)
    ensures x < 2 * n && w[x] == w[1]
    decreases x
  {
    OnPathBelow(x, w[1] + n);
    if x > 1 {
      OnPathUp(x, w[1] + n);
      ChampionPath(key, l, w, n, x / 2);
      assert Played(key, l, w, n, x / 2);
      var y := if w[x / 2] == w[2 * (x / 2)] then 2 * (x / 2) else 2 * (x / 2) + 1;
      WinnerBelow(key, l, w, n, y);
      OnePerPair(x, y, w[1] + n);
    }
  }

  lemma {:induction false} BeatsUp(key: seq<int>, l: seq<nat>, w: seq<nat>, n: nat, x: nat)
    requires Shaped(key, l, w, n) && AllPlayed(key, l, w, n) && Leaves(w, n, 0) && 1 <= x < 2 * n
    ensures w[1] < n && w[x] < n && key[w[1]] <= key[w[x]]
  {
    WinnerBelow(key, l, w, n, 1);
    WinnerBelow(key, l, w, n, x);
    if x > 1 {
      assert Played(key, l, w, n, x / 2);
      assert x == 2 * (x / 2) || x == 2 * (x / 2) + 1;
      BeatsUp(key, l, w, n, x / 2);
    }
  }

  /** The champion of a full tree has a least key, and no label in the tree is the sentinel. */
  lemma FullTree(key: seq<int>, l: seq<nat>, w: seq<nat>, n: nat)
    requires Shaped(key, l, w, n) && AllPlayed(key, l, w, n) && Leaves(w, n, 0)
    ensures forall i :: 0 <= i < n ==> l[i] < n
    ensures forall c :: 0 <= c < n ==> key[l[0]] <= key[c]
  {
    forall i | 1 <= i < n ensures l[i] < n {
      assert Played(key, l, w, n, i);
      WinnerBelow(key, l, w, n, 2 * i);
      WinnerBelow(key, l, w, n, 2 * i + 1);
    }
    BeatsUp(key, l, w, n, 1);
    forall c | 0 <= c < n ensures key[l[0]] <= key[c] {
      BeatsUp(key, l, w, n, c + n);
    }
  }

  // ----- the sentinel wins wherever it still is

  lemma {:induction false} SentinelPath(key: seq<int>, l: seq<nat>, w: seq<nat>, n: nat, p: nat, x: nat)
    requires Shaped(key, l, w, n) && AllPlayed(key, l, w, n)
    requires (forall c :: 0 <= c < n ==> key[c] > key[n])
    requires n <= p < 2 * n && w[p] == n && x >= 1 && OnPath(x, p)
    ensures x < 2 * n && w[x] == n
    decreases p - x
  {
    OnPathBelow(x, p);
    if x != p {
      var y := Step(x, p);
      SentinelPath(key, l, w, n, p, y);
      assert Played(key, l, w, n, x);
    }
  }

  /** The child of `x` on the way from `p`. */
  lemma {:induction false} Step(x: nat, p: nat) returns (y: nat)
    requires OnPath(x, p) && x != p && x >= 1
    ensures OnPath(y, p) && y / 2 == x && x < y <= p
    decreases p
  {
    OnPathBelow(x, p);
    if p / 2 == x {
      y := p;
    } else {
      y := Step(x, p / 2);
    }
  }

  // ----- replaying from a leaf

  /** Every inner node is right but those on the way from `p`, where the label `c` won and
      the loser is the winner of the other side.  Place `j` on the way has been given its
      new winner; the nodes from `j/2` up are still to be replayed. */
  ghost predicate Replaying(key: seq<int>, l: seq<nat>, w: seq<nat>, n: nat, p: nat, j: nat)
    requires Shaped(key, l, w, n)
  {
    n <= p < 2 * n && 1 <= j <= p && OnPath(j, p) && w[j] <= n &&
    (forall i :: 1 <= i < n && !OnPath(i, j / 2) ==> Played(key, l, w, n, i)) &&
    forall x :: 1 < x < 2 * n && OnPath(x, p) && x <= j ==>
      Sibling(x) < 2 * n && l[x / 2] <= n && l[x / 2] == w[Sibling(x)]
  }

  /** One step of the replay. */
  lemma ReplayStep(key: seq<int>, l: seq<nat>, w: seq<nat>, l': seq<nat>, w': seq<nat>, n: nat, p: nat, j: nat)
    requires Shaped(key, l, w, n) && Replaying(key, l, w, n, p, j) && j > 1
    requires var i := j / 2;
      if key[w[j]] > key[l[i]] then l' == l[i := w[j]] && w' == w[i := l[i]]
      else l' == l && w' == w[i := w[j]]
    ensures Shaped(key, l', w', n) && Replaying(key, l', w', n, p, j / 2)
  {
    var i := j / 2;
    OnPathUp(j, p);
    assert l[i] == w[Sibling(j)];
    assert Played(key, l', w', n, i);
    forall m | 1 <= m < n && !OnPath(m, i / 2) ensures Played(key, l', w', n, m) {
      if m != i {
        NotAbove(m, i);
        assert Played(key, l, w, n, m);
      }
    }
    forall x | 1 < x < 2 * n && OnPath(x, p) && x <= i
      ensures Sibling(x) < 2 * n && l'[x / 2] <= n && l'[x / 2] == w'[Sibling(x)]
    {
      if Sibling(x) == i { OnePerPair(x, i, p); }
    }
  }

  lemma NotAbove(m: nat, i: nat)
    requires m >= 1 && m != i && !OnPath(m, i / 2)
    ensures !OnPath(m, i) && 2 * m != i && 2 * m + 1 != i
  {
  }

  /** A leaf whose label won all the way up can be given a new label and key. */
  lemma ReplayStart(was: seq<int>, key: seq<int>, l: seq<nat>, w: seq<nat>, n: nat, p: nat, s: nat)
    requires Shaped(was, l, w, n) && |key| == |was| && s < n && n <= p < 2 * n
    requires forall i :: 1 <= i < n ==> Played(was, l, w, n, i)
    requires forall x :: 1 <= x && OnPath(x, p) ==> x < 2 * n && w[x] == w[p]
    requires forall i :: 0 <= i <= n && i != s ==> key[i] == was[i]
    requires key[s] != was[s] ==> w[p] == s
    requires forall x :: n <= x < 2 * n && x != p ==> w[x] != s
    ensures Shaped(key, l, w[p := s], n) && Replaying(key, l, w[p := s], n, p, p)
  {
    var w' := w[p := s];
    forall i | 1 <= i < n && !OnPath(i, p / 2) ensures Played(key, l, w', n, i) {
      NotAbove(i, p);
      assert Played(was, l, w, n, i);
      if w[p] == s { OffPath(was, l, w, n, p, i); }
    }
    forall x | 1 < x < 2 * n && OnPath(x, p) && x <= p
      ensures Sibling(x) < 2 * n && l[x / 2] <= n && l[x / 2] == w'[Sibling(x)]
    {
      OnPathUp(x, p);
      assert Played(was, l, w, n, x / 2);
      if Sibling(x) == p { OnePerPair(x, p, p); }
    }
  }

  /** A label that is at no other leaf is nowhere off its own path. */
  lemma {:induction false} OffPath(key: seq<int>, l: seq<nat>, w: seq<nat>, n: nat, p: nat, i: nat)
    requires Shaped(key, l, w, n) && n <= p < 2 * n && 1 <= i < n
    requires forall m :: 1 <= m < n ==> Played(key, l, w, n, m)
    requires forall x :: n <= x < 2 * n && x != p ==> w[x] != w[p]
    requires !OnPath(i, p)
    ensures w[i] != w[p] && l[i] != w[p]
    decreases 2 * n - i
  {
    assert Played(key, l, w, n, i);
    forall y | y == 2 * i || y == 2 * i + 1 ensures w[y] != w[p] {
      if OnPath(y, p) { OnPathUp(y, p); }
      if y < n { OffPath(key, l, w, n, p, y); }
    }
  }

  /** While leaf 0 alone holds the sentinel, no inner node has it as its loser. */
  lemma OneSentinel(key: seq<int>, l: seq<nat>, w: seq<nat>, n: nat, i: nat)
    requires Shaped(key, l, w, n) && AllPlayed(key, l, w, n) && Leaves(w, n, 1) && 1 <= i < n
    requires forall c :: 0 <= c < n ==> key[c] > key[n]
    ensures l[i] != n
  {
    if OnPath(i, n) {
      SentinelPath(key, l, w, n, n, i);
      assert Played(key, l, w, n, i);
      forall y | (y == 2 * i || y == 2 * i + 1) && !OnPath(y, n) ensures w[y] != n {
        if y < n { OffPath(key, l, w, n, n, y); }
      }
      OnePerPairBelow(i, n);
    } else {
      OffPath(key, l, w, n, n, i);
    }
  }

  lemma OnePerPairBelow(i: nat, p: nat)
    requires OnPath(i, p) && 1 <= i < p
    ensures OnPath(2 * i, p) != OnPath(2 * i + 1, p)
  {
    var y := Step(i, p);
    if OnPath(2 * i, p) && OnPath(2 * i + 1, p) { OnePerPair(2 * i, 2 * i + 1, p); }
  }
}

/** What a k-way merge of channels is, and what follows for a whole run. */
module MergeRuns {
  import opened Ticks

  /** One tick taken: the row and the channel it is in. */
  datatype Pick = Pick(row: nat, col: nat)

  type Channels = seq<seq<Quote>>

  /** The channels' next rows. */
  type Heads = seq<nat>

  ghost predicate Live(chs: Channels, heads: Heads, c: nat)
    requires |heads| == |chs| && c < |chs|
  {
    heads[c] < |chs[c]|
  }

  ghost function HeadKey(chs: Channels, heads: Heads, c: nat, sort: SortMethod): int
    requires |heads| == |chs| && c < |chs| && Live(chs, heads, c)
  {
    QuoteKey(chs[c][heads[c]], sort)
  }

  /** A pick takes the next row of a channel; no channel's next row has a smaller key. */
  ghost predicate Takes(chs: Channels, heads: Heads, p: Pick, sort: SortMethod) {
    |heads| == |chs| && p.col < |chs| && heads[p.col] == p.row < |chs[p.col]| &&
    forall c :: 0 <= c < |chs| && Live(chs, heads, c) ==>
      QuoteKey(chs[p.col][p.row], sort) <= HeadKey(chs, heads, c, sort)
  }

  function After(heads: Heads, p: Pick): Heads
    requires p.col < |heads|
  {
    heads[p.col := p.row + 1]
  }

  /** Each pick in turn takes from what the picks before it left. */
  ghost predicate Merging(chs: Channels, heads: Heads, picks: seq<Pick>, sort: SortMethod)
    decreases |picks|
  {
    picks != [] ==>
      Takes(chs, heads, picks[0], sort) && Merging(chs, After(heads, picks[0]), picks[1..], sort)
  }

  ghost function HeadsAfter(chs: Channels, heads: Heads, picks: seq<Pick>, sort: SortMethod): (r: Heads)
    requires |heads| == |chs| && Merging(chs, heads, picks, sort)
    ensures |r| == |chs|
    decreases |picks|
  {
    if picks == [] then heads else HeadsAfter(chs, After(heads, picks[0]), picks[1..], sort)
  }

  ghost predicate Exhausted(chs: Channels, heads: Heads)
    requires |heads| == |chs|
  {
    forall c :: 0 <= c < |chs| ==> !Live(chs, heads, c)
  }

  /** A run that goes on until nothing is left. */
  ghost predicate IsMerge(chs: Channels, heads: Heads, picks: seq<Pick>, sort: SortMethod) {
    |heads| == |chs| && Merging(chs, heads, picks, sort) &&
    Exhausted(chs, HeadsAfter(chs, heads, picks, sort))
  }

  function Zeros(n: nat): Heads { seq(n, _ => 0) }

  lemma {:induction false} MergingMore(chs: Channels, heads: Heads, picks: seq<Pick>, p: Pick, sort: SortMethod)
    requires |heads| == |chs| && Merging(chs, heads, picks, sort)
    requires Takes(chs, HeadsAfter(chs, heads, picks, sort), p, sort)
    ensures Merging(chs, heads, picks + [p], sort)
    ensures HeadsAfter(chs, heads, picks + [p], sort) == After(HeadsAfter(chs, heads, picks, sort), p)
    decreases |picks|
  {
    if picks == [] {
      assert picks + [p] == [p];
    } else {
      assert (picks + [p])[1..] == picks[1..] + [p];
      MergingMore(chs, After(heads, picks[0]), picks[1..], p, sort);
    }
  }

  // ----- who goes first among equals

  function NextRow(p: Pick): Pick { Pick(p.row + 1, p.col) }

  /** A channel is picked again for as long as no other has a smaller key. */
  ghost predicate Staying(chs: Channels, heads: Heads, picks: seq<Pick>, sort: SortMethod)
    requires |heads| == |chs| && Merging(chs, heads, picks, sort)
    decreases |picks|
  {
    |picks| > 1 ==>
      var next := After(heads, picks[0]);
      (Takes(chs, next, NextRow(picks[0]), sort) ==> picks[1] == NextRow(picks[0])) && Staying(chs, next, picks[1..], sort)
  }

  /** The channel that the next pick has to be from, if the last one has to be picked again. */
  ghost function NextCol(chs: Channels, heads: Heads, picks: seq<Pick>, sort: SortMethod, otherwise: nat): nat {
    if picks != [] && Takes(chs, heads, NextRow(picks[|picks| - 1]), sort) then picks[|picks| - 1].col else otherwise
  }

  lemma {:induction false} StayingMore(chs: Channels, heads: Heads, picks: seq<Pick>, p: Pick, sort: SortMethod)
    requires |heads| == |chs| && Merging(chs, heads, picks, sort) && Staying(chs, heads, picks, sort)
    requires Takes(chs, HeadsAfter(chs, heads, picks, sort), p, sort)
    requires p.col == NextCol(chs, HeadsAfter(chs, heads, picks, sort), picks, sort, p.col)
    ensures Merging(chs, heads, picks + [p], sort) && Staying(chs, heads, picks + [p], sort)
    decreases |picks|
  {
    MergingMore(chs, heads, picks, p, sort);
    if picks == [] {
      assert picks + [p] == [p];
    } else {
      assert (picks + [p])[1..] == picks[1..] + [p];
      var next := After(heads, picks[0]);
      if |picks| == 1 {
        assert picks[1..] == [];
        SameRow(chs, next, NextRow(picks[0]), p, sort);
      }
      StayingMore(chs, next, picks[1..], p, sort);
    }
  }

  lemma NoPicks(chs: Channels, heads: Heads, sort: SortMethod, otherwise: nat)
    requires |heads| == |chs|
    ensures Merging(chs, heads, [], sort) && HeadsAfter(chs, heads, [], sort) == heads && Staying(chs, heads, [], sort)
    ensures NextCol(chs, heads, [], sort, otherwise) == otherwise
  {
  }

  lemma LastPick(chs: Channels, heads: Heads, picks: seq<Pick>, p: Pick, sort: SortMethod, otherwise: nat)
    ensures NextCol(chs, heads, picks + [p], sort, otherwise) ==
      if Takes(chs, heads, NextRow(p), sort) then p.col else otherwise
  {
  }

  lemma SameRow(chs: Channels, heads: Heads, p: Pick, r: Pick, sort: SortMethod)
    requires Takes(chs, heads, r, sort)
    ensures Takes(chs, heads, p, sort) && p.col == r.col ==> p == r
  {
  }

  // ----- every row exactly once

  function RowsOf(picks: seq<Pick>, c: nat): seq<nat> {
    if picks == [] then []
    else (if picks[0].col == c then [picks[0].row] else []) + RowsOf(picks[1..], c)
  }

  function Range(from: nat, to: nat): seq<nat>
    requires from <= to
  {
    seq(to - from, i requires 0 <= i => from + i)
  }

  ghost predicate InChannels(chs: Channels, heads: Heads) {
    |heads| == |chs| && forall c :: 0 <= c < |chs| ==> heads[c] <= |chs[c]|
  }

  /** A whole run takes every row of every channel exactly once, in the order of the rows. */
  lemma {:induction false} EveryRowOnce(chs: Channels, heads: Heads, picks: seq<Pick>, sort: SortMethod, c: nat)
    requires InChannels(chs, heads) && IsMerge(chs, heads, picks, sort) && c < |chs|
    ensures RowsOf(picks, c) == Range(heads[c], |chs[c]|)
    decreases |picks|
  {
    if picks == [] {
      assert !Live(chs, heads, c);
    } else {
      var next := After(heads, picks[0]);
      EveryRowOnce(chs, next, picks[1..], sort, c);
      if picks[0].col == c {
        assert Range(heads[c], |chs[c]|) == [heads[c]] + Range(next[c], |chs[c]|);
      }
    }
  }

  lemma {:induction false} CountRows(picks: seq<Pick>, row: nat, c: nat)
    ensures multiset(picks)[Pick(row, c)] == multiset(RowsOf(picks, c))[row]
  {
    if picks != [] {
      assert picks == [picks[0]] + picks[1..];
      CountRows(picks[1..], row, c);
    }
  }

  lemma {:induction false} CountRange(from: nat, end: nat, row: nat)
    requires from <= end
    ensures multiset(Range(from, end))[row] == if from <= row < end then 1 else 0
    decreases end - from
  {
    if from < end {
      assert Range(from, end) == [from] + Range(from + 1, end);
      CountRange(from + 1, end, row);
    }
  }

  /** So among the pairs of row and channel taken each one that exists is there once, and no other. */
  lemma EachPairOnce(chs: Channels, heads: Heads, picks: seq<Pick>, sort: SortMethod, row: nat, c: nat)
    requires InChannels(chs, heads) && IsMerge(chs, heads, picks, sort)
    ensures multiset(picks)[Pick(row, c)] == if c < |chs| && heads[c] <= row < |chs[c]| then 1 else 0
  {
    if c < |chs| {
      EveryRowOnce(chs, heads, picks, sort, c);
      CountRows(picks, row, c);
      CountRange(heads[c], |chs[c]|, row);
    } else {
      PicksExist(chs, heads, picks, sort);
    }
  }

  // ----- the order of the keys

  function QuotesOf(chs: Channels, picks: seq<Pick>): seq<Quote>
    requires forall p :: p in picks ==> p.col < |chs| && p.row < |chs[p.col]|
  {
    seq(|picks|, i requires 0 <= i < |picks| => assert picks[i] in picks; chs[picks[i].col][picks[i].row])
  }

  ghost predicate Sorted(quotes: seq<Quote>, sort: SortMethod) {
    forall i, j :: 0 <= i < j < |quotes| ==> QuoteKey(quotes[i], sort) <= QuoteKey(quotes[j], sort)
  }

  /** By the local time, or by the exchange's. */
  lemma SortedMeans(quotes: seq<Quote>)
    ensures Sorted(quotes, ByLocalTime) <==>
      forall i, j :: 0 <= i < j < |quotes| ==> quotes[i].localTime <= quotes[j].localTime
    ensures Sorted(quotes, ByExchTime) <==>
      forall i, j :: 0 <= i < j < |quotes| ==> quotes[i].exchTime <= quotes[j].exchTime
  {
    assert forall q: Quote :: QuoteKey(q, ByLocalTime) == q.localTime && QuoteKey(q, ByExchTime) == q.exchTime;
  }

  lemma {:induction false} PicksExist(chs: Channels, heads: Heads, picks: seq<Pick>, sort: SortMethod)
    requires |heads| == |chs| && Merging(chs, heads, picks, sort)
    ensures forall p :: p in picks ==> p.col < |chs| && p.row < |chs[p.col]|
    decreases |picks|
  {
    if picks != [] { PicksExist(chs, After(heads, picks[0]), picks[1..], sort); }
  }

  /** No key taken later is below a key that no channel's next row is below. */
  lemma {:induction false} AllAbove(chs: Channels, heads: Heads, picks: seq<Pick>, sort: SortMethod, k: int)
    requires |heads| == |chs| && Merging(chs, heads, picks, sort)
    requires forall c :: 0 <= c < |chs| ==> Sorted(chs[c], sort)
    requires forall c :: 0 <= c < |chs| && Live(chs, heads, c) ==> k <= HeadKey(chs, heads, c, sort)
    ensures forall p :: p in picks ==> p.col < |chs| && p.row < |chs[p.col]| && k <= QuoteKey(chs[p.col][p.row], sort)
    decreases |picks|
  {
    if picks != [] {
      var p, next := picks[0], After(heads, picks[0]);
      assert Live(chs, heads, p.col);
      forall c | 0 <= c < |chs| && Live(chs, next, c) ensures k <= HeadKey(chs, next, c, sort) {
        if c == p.col { assert Sorted(chs[c], sort); } else { assert Live(chs, heads, c); }
      }
      AllAbove(chs, next, picks[1..], sort, k);
    }
  }

  /** From sorted channels the keys come out in order. */
  lemma {:induction false} KeysAscend(chs: Channels, heads: Heads, picks: seq<Pick>, sort: SortMethod)
    requires |heads| == |chs| && Merging(chs, heads, picks, sort)
    requires forall c :: 0 <= c < |chs| ==> Sorted(chs[c], sort)
    ensures forall p :: p in picks ==> p.col < |chs| && p.row < |chs[p.col]|
    ensures Sorted(QuotesOf(chs, picks), sort)
    decreases |picks|
  {
    PicksExist(chs, heads, picks, sort);
    if picks != [] {
      var p, next, rest := picks[0], After(heads, picks[0]), picks[1..];
      KeysAscend(chs, next, rest, sort);
      var k := QuoteKey(chs[p.col][p.row], sort);
      forall c | 0 <= c < |chs| && Live(chs, next, c) ensures k <= HeadKey(chs, next, c, sort) {
        if c == p.col { assert Sorted(chs[c], sort); } else { assert Live(chs, heads, c); }
      }
      AllAbove(chs, next, rest, sort, k);
      assert QuotesOf(chs, picks) == [chs[p.col][p.row]] + QuotesOf(chs, rest);
    }
  }

  // ----- nothing is lost or made up

  ghost function AllQuotes(chs: Channels): multiset<Quote> {
    if chs == [] then multiset{} else multiset(chs[0]) + AllQuotes(chs[1..])
  }

  ghost function LeftQuotes(chs: Channels, heads: Heads): multiset<Quote>
    requires InChannels(chs, heads)
  {
    if chs == [] then multiset{} else multiset(chs[0][heads[0]..]) + LeftQuotes(chs[1..], heads[1..])
  }

  lemma {:induction false} LeftAll(chs: Channels)
    ensures LeftQuotes(chs, Zeros(|chs|)) == AllQuotes(chs)
  {
    if chs != [] {
      assert Zeros(|chs|)[1..] == Zeros(|chs[1..]|);
      assert chs[0][0..] == chs[0];
      LeftAll(chs[1..]);
    }
  }

  lemma {:induction false} LeftNone(chs: Channels, heads: Heads)
    requires InChannels(chs, heads) && Exhausted(chs, heads)
    ensures LeftQuotes(chs, heads) == multiset{}
  {
    if chs != [] {
      assert !Live(chs, heads, 0);
      forall c | 0 <= c < |chs[1..]| ensures !Live(chs[1..], heads[1..], c) {
        assert !Live(chs, heads, c + 1);
      }
      LeftNone(chs[1..], heads[1..]);
    }
  }

  lemma RowTaken(quotes: seq<Quote>, row: nat)
    requires row < |quotes|
    ensures multiset(quotes[row..]) == multiset{quotes[row]} + multiset(quotes[row + 1..])
  {
    assert quotes[row..] == [quotes[row]] + quotes[row + 1..];
  }

  lemma {:induction false} LeftTaken(chs: Channels, heads: Heads, p: Pick)
    requires InChannels(chs, heads) && p.col < |chs| && heads[p.col] == p.row < |chs[p.col]|
    ensures LeftQuotes(chs, heads) == multiset{chs[p.col][p.row]} + LeftQuotes(chs, After(heads, p))
  {
    var next := After(heads, p);
    if p.col == 0 {
      RowTaken(chs[0], p.row);
      assert next[1..] == heads[1..];
    } else {
      var q := Pick(p.row, p.col - 1);
      LeftTaken(chs[1..], heads[1..], q);
      assert next[1..] == After(heads[1..], q) && next[0] == heads[0];
    }
  }

  /** A whole run takes all the quotes there are. */
  lemma {:induction false} AllTaken(chs: Channels, heads: Heads, picks: seq<Pick>, sort: SortMethod)
    requires InChannels(chs, heads) && IsMerge(chs, heads, picks, sort)
    ensures forall p :: p in picks ==> p.col < |chs| && p.row < |chs[p.col]|
    ensures multiset(QuotesOf(chs, picks)) == LeftQuotes(chs, heads)
    decreases |picks|
  {
    PicksExist(chs, heads, picks, sort);
    if picks == [] {
      LeftNone(chs, heads);
    } else {
      var p, rest := picks[0], picks[1..];
      AllTaken(chs, After(heads, p), rest, sort);
      LeftTaken(chs, heads, p);
      assert QuotesOf(chs, picks) == [chs[p.col][p.row]] + QuotesOf(chs, rest);
    }
  }
}

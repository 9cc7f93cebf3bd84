/** The loser tree of merge_sort.c: the global `all_data` as an object. */
module LoserTree {
  import opened Ticks
  import opened Tournament
  import opened MergeRuns

  /** channel_data_t: the quotes, and where its data pointer stands. */
  datatype Channel = Channel(quotes: seq<Quote>, pos: nat)

  class QuoteData {
    var size: nat
    var sortMethod: SortMethod
    var pTickCol: uint32
    var pTickRow: uint32
    const q: array<Tick>
    const l: array<nat>
    const d: array<Channel>
    ghost var w: seq<nat>

    constructor ()
      ensures fresh(q) && fresh(l) && fresh(d) && Arrays()
    {
      size, sortMethod, pTickCol, pTickRow, w := 0, ByLocalTime, 0, 0, [];
      q := new Tick[MAX_CHANNEL_CNT + 1](_ => SENTINEL);
      l := new nat[MAX_CHANNEL_CNT + 1](_ => 0);
      d := new Channel[MAX_CHANNEL_CNT + 1](_ => Channel([], 0));
    }

    ghost predicate Arrays() {
      q.Length == MAX_CHANNEL_CNT + 1 && l.Length == MAX_CHANNEL_CNT + 1 && d.Length == MAX_CHANNEL_CNT + 1
    }

    ghost function Keys(): seq<int>
      requires size < q.Length
      reads this`size, this`sortMethod, q
    {
      KeysOf(q[..size + 1], sortMethod)
    }

    /** adjust_by_local_time and adjust_by_exch_time, by the key that `sortMethod` selects. */
    method Adjust(leaf: nat)
      requires Arrays() && leaf < size <= MAX_CHANNEL_CNT
      requires Shaped(Keys(), l[..], w, size) && Replaying(Keys(), l[..], w, size, leaf + size, leaf + size)
      requires w[leaf + size] == leaf
      modifies l, this`w
      ensures Shaped(Keys(), l[..], w, size) && AllPlayed(Keys(), l[..], w, size)
      ensures forall x :: size <= x < 2 * size ==> w[x] == old(w)[x]
      ensures NoLoserBelow(Keys(), old(l[..]), size, leaf) ==> l[0] == leaf
    {
      hide Played, OnPath, NoLoserBelow, Replaying, AllPlayed, KeyOf;
      ghost var p, key := leaf + size, Keys();
      ghost var j := p;
      var s := leaf;
      var i := (s + size) / 2;
      while i > 0
        invariant Keys() == key && j >= 1 && i == j / 2 && Shaped(key, l[..], w, size) && j < |w|
        invariant Replaying(key, l[..], w, size, p, j) && w[j] == s && s <= size
        invariant forall x :: size <= x < 2 * size ==> w[x] == old(w)[x]
        invariant NoLoserBelow(key, old(l[..]), size, leaf) ==> s == leaf && l[..] == old(l[..])
      {
        ghost var l0, w0 := l[..], w;
        NodeAbove(key, l[..], w, size, p, j);
        NotBeaten(key, l[..], size, leaf, i);
        if KeyOf(q[s], sortMethod) > KeyOf(q[l[i]], sortMethod) {
          w := w[i := l[i]];
          var tmp := s;
          s := l[i];
          l[i] := tmp;
        } else {
          w := w[i := s];
        }
        ReplayStep(key, l0, w0, l[..], w, size, p, j);
        i := i / 2;
        j := j / 2;
      }
      ReplayEnd(key, l[..], w, size, p);
      ghost var l0 := l[..];
      l[0] := s;
      Crowned(key, l0, l[..], w, size);
    }

    // ----- the state between two pops

    /** Channel `c` stands at the row that is in the queue, or is used up. */
    ghost predicate Loaded(c: nat)
      requires Arrays() && c <= MAX_CHANNEL_CNT
      reads this`sortMethod, q, d
    {
      var quotes := d[c].quotes;
      0 < |quotes| < 0x8000_0000 &&
      (forall k :: 0 <= k < |quotes| ==> QuoteKey(quotes[k], sortMethod) <= ULONG_MAX - 2) &&
      (q[c] == FILL ||
       (q[c].row < |quotes| && q[c] == ToTick(quotes[q[c].row], c, q[c].row) && d[c].pos == q[c].row + 1))
    }

    ghost predicate AllLoaded()
      requires Arrays() && size <= MAX_CHANNEL_CNT
      reads this`size, this`sortMethod, q, d
    {
      forall c :: 0 <= c < size ==> Loaded(c)
    }

    ghost predicate Full()
      requires Arrays() && size <= MAX_CHANNEL_CNT
      reads this`size, this`sortMethod, this`w, q, l
    {
      Shaped(Keys(), l[..], w, size) && AllPlayed(Keys(), l[..], w, size) && Leaves(w, size, 0)
    }

    ghost predicate Valid()
      reads this, q, l, d
    {
      Arrays() && 1 <= size <= MAX_CHANNEL_CNT && AllLoaded() && Full()
    }

    ghost function Quotes(): Channels
      requires Arrays() && size <= MAX_CHANNEL_CNT
      reads this`size, d
    {
      QuotesIn(d[..size])
    }

    ghost function Heads(): Heads
      requires Arrays() && size <= MAX_CHANNEL_CNT
      reads this`size, q, d
    {
      HeadsIn(q[..size], d[..size])
    }

    /** init_loser_tree: every node starts with the sentinel, then the leaves are entered
        from the last to the first. */
    method InitLoserTree()
      requires Arrays() && 1 <= size <= MAX_CHANNEL_CNT
      requires forall c :: 0 <= c < size ==> KeyOf(q[c], sortMethod) > 0
      modifies this`pTickCol, this`pTickRow, this`w, q, l
      ensures Full()
      ensures forall c :: 0 <= c < size ==> q[c] == old(q[c])
      ensures NoneBelow(Keys(), size, 0) ==> l[0] == 0
    {
      hide Played, OnPath, KeyOf, NoneBelow, NoLoserBelow, AllPlayed, Replaying, Leaves;
      SentinelKey(sortMethod);
      pTickRow, pTickCol := 0, 0;
      q[size] := SENTINEL;
      var n := size;
      for i := 0 to n + 1
        invariant forall c :: 0 <= c < n ==> q[c] == old(q[c])
        invariant q[n] == SENTINEL
        invariant forall k :: 0 <= k < i ==> l[k] == n
      {
        l[i] := n;
      }
      w := seq(2 * n, _ => n);
      ghost var key := Keys();
      AllSentinel(key, l[..], w, n);
      for i := n downto 0
        invariant forall c :: 0 <= c < n ==> q[c] == old(q[c])
        invariant Keys() == key && forall c :: 0 <= c < n ==> key[c] > key[n]
        invariant Shaped(key, l[..], w, n) && AllPlayed(key, l[..], w, n) && Leaves(w, n, i)
        invariant i == 0 && NoneBelow(key, n, 0) ==> l[0] == 0
      {
        Entering(key, l[..], w, n, i);
        if i == 0 && NoneBelow(key, n, 0) { LastEntered(key, l[..], w, n); }
        ghost var was := w;
        w := w[i + n := i];
        Adjust(i);
        OneEntered(was, w, n, i);
      }
    }

    /** update_loser_tree: the popped channel's next row, or the filler, is replayed. */
    method UpdateLoserTree()
      requires Valid() && pTickCol == l[0] < size && q[l[0]] != FILL && pTickRow == q[l[0]].row
      modifies this`w, q, l, d
      ensures Valid() && Quotes() == old(Quotes())
      ensures Heads() == old(Heads())[pTickCol := pTickRow + 1]
      ensures NoneBelow(Keys(), size, pTickCol) ==> l[0] == pTickCol
    {
      hide Played, OnPath, AllPlayed, Replaying, Loaded, KeyOf;
      var col := pTickCol;
      ghost var was := Keys();
      Refill(pTickRow, col);
      ghost var now := Keys();
      assert l[..][0] == col;
      Replacing(was, now, l[..], w, size, col);
      FullTree(was, l[..], w, size);
      Adjust(col);
    }

    /** The channel's next row into the queue, or the filler. */
    method Refill(row: uint32, col: uint32)
      requires Arrays() && 1 <= size <= MAX_CHANNEL_CNT && AllLoaded()
      requires col < size && q[col] != FILL && row == q[col].row
      modifies q, d
      ensures AllLoaded() && Quotes() == old(Quotes()) && Heads() == old(Heads())[col := row + 1]
      ensures Keys() == old(Keys())[col := Keys()[col]]
    {
      assert Loaded(col);
      if row < |d[col].quotes| - 1 {
        q[col] := ToTick(d[col].quotes[d[col].pos], col, row + 1);
        d[col] := Channel(d[col].quotes, d[col].pos + 1);
      } else {
        q[col] := FILL;
      }
      forall c | 0 <= c < size ensures Loaded(c) {
        assert old(Loaded(c));
      }
      assert Heads() == old(Heads())[col := row + 1];
      assert Quotes() == old(Quotes());
    }

    /** A channel's queued key is its next row's key plus one, or the filler's. */
    lemma QueuedKey(c: nat)
      requires Arrays() && c < size <= MAX_CHANNEL_CNT && Loaded(c)
      ensures Keys()[c] == KeyOf(q[c], sortMethod)
      ensures Live(Quotes(), Heads(), c) <==> q[c] != FILL
      ensures q[c] == FILL <==> q[c].column == UINT_MAX
      ensures q[c] == FILL ==> Keys()[c] == ULONG_MAX
      ensures q[c] != FILL ==>
        q[c].column == c && Heads()[c] == q[c].row &&
        Keys()[c] == HeadKey(Quotes(), Heads(), c, sortMethod) + 1 < ULONG_MAX
    {
      if q[c] != FILL {
        var quote := d[c].quotes[q[c].row];
        assert QuoteKey(quote, sortMethod) <= ULONG_MAX - 2;
      }
    }

    /** The champion is a least of the next rows, and the filler only at the end. */
    lemma Champion()
      requires Valid()
      ensures l[0] < size
      ensures q[l[0]].column == UINT_MAX <==> Exhausted(Quotes(), Heads())
      ensures q[l[0]].column != UINT_MAX ==>
        q[l[0]] != FILL && q[l[0]].column == l[0] &&
        Takes(Quotes(), Heads(), Pick(q[l[0]].row, l[0]), sortMethod)
    {
      hide KeyOf, QuoteKey, Played, OnPath;
      FullTree(Keys(), l[..], w, size);
      var s := l[0];
      assert l[..][0] == s;
      QueuedKey(s);
      forall c | 0 <= c < size && Live(Quotes(), Heads(), c)
        ensures q[s] != FILL && HeadKey(Quotes(), Heads(), s, sortMethod) <= HeadKey(Quotes(), Heads(), c, sortMethod)
      {
        QueuedKey(c);
      }
      if q[s] != FILL { assert Live(Quotes(), Heads(), s); }
    }

    /** The row and channel that the next pop updates exist, but for the one state at the end. */
    lemma PopsInBounds()
      requires Valid()
      ensures l[0] < size
      ensures !Exhausted(Quotes(), Heads()) <==>
        q[l[0]].column < size && q[l[0]].row < |d[q[l[0]].column].quotes|
    {
      hide Full, Exhausted, Takes;
      Champion();
      assert Loaded(l[0]);
    }

    /** A channel whose next row is a least one has a least queued key. */
    lemma LeastQueued(c: nat)
      requires Arrays() && c < size <= MAX_CHANNEL_CNT && AllLoaded()
      requires Takes(Quotes(), Heads(), Pick(Heads()[c], c), sortMethod)
      ensures NoneBelow(Keys(), size, c)
    {
      hide KeyOf, QuoteKey, Loaded;
      assert Loaded(c);
      QueuedKey(c);
      forall b | 0 <= b < size ensures Keys()[c] <= Keys()[b] {
        assert Loaded(b);
        QueuedKey(b);
      }
    }

    /** pop_tick, testing for the end before it updates the tree. */
    method PopTick() returns (code: int)
      requires Valid()
      modifies this`pTickCol, this`pTickRow, this`w, q, l, d
      ensures Valid() && Quotes() == old(Quotes())
      ensures Exhausted(Quotes(), old(Heads())) ==> code == REACH_END && Heads() == old(Heads())
      ensures !Exhausted(Quotes(), old(Heads())) ==>
        code == EncodeTick(pTickRow, pTickCol) &&
        Takes(Quotes(), old(Heads()), Pick(pTickRow, pTickCol), sortMethod) &&
        Heads() == After(old(Heads()), Pick(pTickRow, pTickCol))
      ensures !Exhausted(Quotes(), old(Heads())) ==>
        pTickCol == old(l[0]) &&
        (Takes(Quotes(), Heads(), NextRow(Pick(pTickRow, pTickCol)), sortMethod) ==> l[0] == pTickCol)
    {
      Champion();
      pTickCol := q[l[0]].column;
      pTickRow := q[l[0]].row;
      if pTickCol == UINT_MAX {
        return REACH_END;
      }
      UpdateLoserTree();
      if Takes(Quotes(), Heads(), Pick(pTickRow + 1, pTickCol), sortMethod) { LeastQueued(pTickCol); }
      return EncodeTick(pTickRow, pTickCol);
    }

    /** load_quote_c.  Reading a channel's first row moves the caller's data pointer on. */
    method LoadQuoteC(data: array<Channel>, sort: SortMethod)
      requires Arrays() && data != d && 1 <= data.Length <= MAX_CHANNEL_CNT
      requires forall c :: 0 <= c < data.Length ==> Fits(data[c], sort) && data[c].pos == 0
      modifies this, q, l, d, data
      ensures Valid() && sortMethod == sort
      ensures Quotes() == QuotesIn(old(data[..])) && Heads() == Zeros(data.Length)
      ensures forall c :: 0 <= c < data.Length ==> data[c] == Channel(old(data[c]).quotes, 1)
      ensures Takes(Quotes(), Heads(), Pick(0, 0), sortMethod) ==> l[0] == 0
    {
      hide Played, OnPath, AllPlayed, Full;
      size, sortMethod := data.Length, sort;
      for i := 0 to size
        invariant size == data.Length && sortMethod == sort
        invariant forall c :: i <= c < size ==> data[c] == old(data[c])
        invariant forall c :: 0 <= c < i ==>
          d[c] == data[c] == Channel(old(data[c]).quotes, 1) && q[c] == ToTick(d[c].quotes[0], c, 0)
      {
        q[i] := ToTick(data[i].quotes[data[i].pos], i, 0);
        data[i] := Channel(data[i].quotes, data[i].pos + 1);
        d[i] := data[i];
      }
      forall c | 0 <= c < size ensures KeyOf(q[c], sortMethod) > 0 {
        assert Fits(old(data[c]), sort);
        assert QuoteKey(d[c].quotes[0], sort) <= ULONG_MAX - 2;
      }
      InitLoserTree();
      forall c | 0 <= c < size ensures Loaded(c) && q[c] != FILL {
        assert Fits(old(data[c]), sort);
      }
      assert Quotes() == QuotesIn(old(data[..]));
      assert Heads() == Zeros(size);
      if Takes(Quotes(), Heads(), Pick(0, 0), sortMethod) { LeastQueued(0); }
    }

    lemma HeadsInChannels()
      requires Valid()
      ensures InChannels(Quotes(), Heads())
    {
      forall c | 0 <= c < size ensures Heads()[c] <= |Quotes()[c]| {
        assert Loaded(c);
      }
    }

    /** The loop of the test driver: pop until the end is reached. */
    method PopAll() returns (codes: seq<int>, ghost picks: seq<Pick>)
      requires Valid()
      modifies this`pTickCol, this`pTickRow, this`w, q, l, d
      ensures Valid() && Quotes() == old(Quotes())
      ensures IsMerge(Quotes(), old(Heads()), picks, sortMethod)
      ensures Staying(Quotes(), old(Heads()), picks, sortMethod) && (picks != [] ==> picks[0].col == old(l[0]))
      ensures |codes| == |picks|
      ensures forall i :: 0 <= i < |codes| ==>
        picks[i].row <= UINT_MAX && picks[i].col <= UINT_MAX && codes[i] == EncodeTick(picks[i].row, picks[i].col)
    {
      hide Full, Loaded, Exhausted, Takes, EncodeTick, Merging, HeadsAfter, Staying, NextCol, AllLoaded, LeftQuotes;
      codes, picks := [], [];
      ghost var chs, heads, sort := Quotes(), Heads(), sortMethod;
      HeadsInChannels();
      NoPicks(chs, heads, sort, l[0]);
      while true
        invariant Valid() && Quotes() == chs
        invariant |heads| == |chs| && Merging(chs, heads, picks, sort)
        invariant Heads() == HeadsAfter(chs, heads, picks, sort)
        invariant InChannels(chs, Heads())
        invariant Staying(chs, heads, picks, sort) && l[0] == NextCol(chs, Heads(), picks, sort, l[0])
        invariant if picks == [] then l[0] == old(l[0]) else picks[0].col == old(l[0])
        invariant |codes| == |picks|
        invariant forall i :: 0 <= i < |codes| ==>
          picks[i].row <= UINT_MAX && picks[i].col <= UINT_MAX && codes[i] == EncodeTick(picks[i].row, picks[i].col)
        decreases |LeftQuotes(chs, Heads())|
      {
        ghost var was := Heads();
        var code := PopTick();
        ghost var pick := Pick(pTickRow, pTickCol);
        EndOrTick(chs, was, pick, code);
        if code == REACH_END {
          return;
        }
        TakesOne(chs, was, pick, sort);
        MergingMore(chs, heads, picks, pick, sort);
        StayingMore(chs, heads, picks, pick, sort);
        LastPick(chs, Heads(), picks, pick, sort, l[0]);
        codes, picks := codes + [code], picks + [pick];
      }
    }
  }

  /** What load_quote_c needs of a channel: a row to read, and keys below the filler's. */
  ghost predicate Fits(channel: Channel, sort: SortMethod) {
    0 < |channel.quotes| < 0x8000_0000 &&
    forall k :: 0 <= k < |channel.quotes| ==> QuoteKey(channel.quotes[k], sort) <= ULONG_MAX - 2
  }

  /** The end mark is not the code of a tick. */
  lemma EndOrTick(chs: Channels, heads: Heads, pick: Pick, code: int)
    requires |heads| == |chs| && 0 <= pick.row <= UINT_MAX && 0 <= pick.col <= UINT_MAX
    requires if Exhausted(chs, heads) then code == REACH_END else code == EncodeTick(pick.row, pick.col)
    ensures Exhausted(chs, heads) <==> code == REACH_END
  {
    CodeIsTick(pick.row, pick.col);
  }

  lemma TakesOne(chs: Channels, heads: Heads, pick: Pick, sort: SortMethod)
    requires InChannels(chs, heads) && Takes(chs, heads, pick, sort)
    ensures pick.col < |heads|
    ensures InChannels(chs, After(heads, pick))
    ensures |LeftQuotes(chs, After(heads, pick))| < |LeftQuotes(chs, heads)|
  {
    LeftTaken(chs, heads, pick);
  }

  ghost function QuotesIn(channels: seq<Channel>): Channels {
    seq(|channels|, c requires 0 <= c < |channels| => channels[c].quotes)
  }

  ghost function HeadsIn(ticks: seq<Tick>, channels: seq<Channel>): Heads
    requires |ticks| == |channels|
  {
    seq(|ticks|, c requires 0 <= c < |ticks| =>
      if ticks[c] == FILL then |channels[c].quotes| else ticks[c].row)
  }

  /** No loser has a smaller key than the label. */
  ghost predicate NoLoserBelow(key: seq<int>, l: seq<nat>, n: nat, s: nat) {
    s < |key| && forall i :: 1 <= i < n && i < |l| && l[i] < |key| ==> key[s] <= key[l[i]]
  }

  lemma NotBeaten(key: seq<int>, l: seq<nat>, n: nat, s: nat, i: nat)
    requires 1 <= i < n < |l| && |key| > n && s <= n && l[i] <= n
    ensures NoLoserBelow(key, l, n, s) ==> key[s] <= key[l[i]]
  {
  }

  /** No channel has one. */
  ghost predicate NoneBelow(key: seq<int>, n: nat, s: nat) {
    s < |key| && forall c :: 0 <= c < n && c < |key| ==> key[s] <= key[c]
  }

  /** When channel 0 is entered, the last, it meets no sentinel. */
  lemma LastEntered(key: seq<int>, l: seq<nat>, w: seq<nat>, n: nat)
    requires Shaped(key, l, w, n) && AllPlayed(key, l, w, n) && Leaves(w, n, 1)
    requires forall c :: 0 <= c < n ==> key[c] > key[n]
    requires NoneBelow(key, n, 0)
    ensures NoLoserBelow(key, l, n, 0)
  {
    hide OnPath;
    forall i | 1 <= i < n ensures l[i] < n {
      assert Played(key, l, w, n, i);
      OneSentinel(key, l, w, n, i);
    }
  }

  lemma NodeAbove(key: seq<int>, l: seq<nat>, w: seq<nat>, n: nat, p: nat, j: nat)
    requires Shaped(key, l, w, n) && Replaying(key, l, w, n, p, j) && j > 1
    ensures 1 <= j / 2 < n && l[j / 2] <= n
  {
  }

  lemma ReplayEnd(key: seq<int>, l: seq<nat>, w: seq<nat>, n: nat, p: nat)
    requires Shaped(key, l, w, n) && Replaying(key, l, w, n, p, 1)
    ensures forall i :: 1 <= i < n ==> Played(key, l, w, n, i)
  {
  }

  lemma Crowned(key: seq<int>, l: seq<nat>, l': seq<nat>, w: seq<nat>, n: nat)
    requires Shaped(key, l, w, n) && l' == l[0 := w[1]]
    requires forall i :: 1 <= i < n ==> Played(key, l, w, n, i)
    ensures Shaped(key, l', w, n) && AllPlayed(key, l', w, n)
  {
    forall i | 1 <= i < n ensures Played(key, l', w, n, i) {
      assert Played(key, l, w, n, i);
    }
  }

  lemma SentinelKey(sort: SortMethod)
    ensures KeyOf(SENTINEL, sort) == 0
  {
  }

  /** Entering a leaf leaves the others as they are. */
  lemma OneEntered(was: seq<nat>, w: seq<nat>, n: nat, s: nat)
    requires s < n && |was| == |w| == 2 * n && Leaves(was, n, s + 1) && w[s + n] == s
    requires forall x :: n <= x < 2 * n && x != s + n ==> w[x] == was[x]
    ensures Leaves(w, n, s)
  {
  }

  lemma AllSentinel(key: seq<int>, l: seq<nat>, w: seq<nat>, n: nat)
    requires Shaped(key, l, w, n) && w == seq(2 * n, _ => n)
    requires forall k :: 0 <= k <= n ==> l[k] == n
    ensures AllPlayed(key, l, w, n) && Leaves(w, n, n)
  {
  }

  /** The leaf of channel `s`, not yet entered, can be replayed. */
  lemma Entering(key: seq<int>, l: seq<nat>, w: seq<nat>, n: nat, s: nat)
    requires Shaped(key, l, w, n) && AllPlayed(key, l, w, n) && Leaves(w, n, s + 1) && s < n
    requires forall c :: 0 <= c < n ==> key[c] > key[n]
    ensures Shaped(key, l, w[s + n := s], n) && Replaying(key, l, w[s + n := s], n, s + n, s + n)
  {
    var p := s + n;
    forall x | 1 <= x && OnPath(x, p) ensures x < 2 * n && w[x] == w[p] {
      SentinelPath(key, l, w, n, p, x);
    }
    ReplayStart(key, key, l, w, n, p, s);
  }

  /** The champion's leaf can be replayed with a new key. */
  lemma Replacing(was: seq<int>, key: seq<int>, l: seq<nat>, w: seq<nat>, n: nat, s: nat)
    requires Shaped(was, l, w, n) && AllPlayed(was, l, w, n) && Leaves(w, n, 0) && l[0] == s < n
    requires |key| == |was| && forall i :: 0 <= i <= n && i != s ==> key[i] == was[i]
    ensures Shaped(key, l, w, n) && Replaying(key, l, w, n, s + n, s + n)
  {
    var p := s + n;
    forall x | 1 <= x && OnPath(x, p) ensures x < 2 * n && w[x] == w[p] {
      ChampionPath(was, l, w, n, x);
    }
    ReplayStart(was, key, l, w, n, p, s);
    assert w[p := s] == w;
  }
}

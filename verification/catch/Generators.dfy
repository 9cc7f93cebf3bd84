/** The generators of a test: a list of wrapping counters moved on like an odometer. */
module Generators {

  /** GeneratorInfo::moveNext. */
  function MoveOne(index: nat, size: nat): (nat, bool) {
    if index + 1 == size then (0, false) else (index + 1, true)
  }

  /** GeneratorsForTest::moveNext: move the first counter that does not wrap. */
  function Advance(indices: seq<nat>, sizes: seq<nat>): (r: (seq<nat>, bool))
    requires |indices| == |sizes|
    ensures |r.0| == |sizes|
  {
    if indices == [] then ([], false)
    else
      var (index, more) := MoveOne(indices[0], sizes[0]);
      if more then ([index] + indices[1..], true)
      else
        var (rest, moved) := Advance(indices[1..], sizes[1..]);
        ([index] + rest, moved)
  }

  ghost predicate InRange(indices: seq<nat>, sizes: seq<nat>) {
    |indices| == |sizes| && forall i :: 0 <= i < |sizes| ==> indices[i] < sizes[i]
  }

  function Zeros(n: nat): seq<nat> { seq(n, _ => 0) }

  function Total(sizes: seq<nat>): nat {
    if sizes == [] then 1 else sizes[0] * Total(sizes[1..])
  }

  /** The position of a tuple in mixed radix, the first counter least significant. */
  function Rank(indices: seq<nat>, sizes: seq<nat>): nat
    requires |indices| == |sizes|
  {
    if indices == [] then 0 else indices[0] + sizes[0] * Rank(indices[1..], sizes[1..])
  }

  lemma {:induction false} MulStep(size: nat, a: nat, b: nat)
    requires a < b
    ensures size * a + size <= size * b
    decreases b
  {
    assert size * b == size * (b - 1) + size;
    if a < b - 1 { MulStep(size, a, b - 1); }
  }

  lemma {:induction false} RankBound(indices: seq<nat>, sizes: seq<nat>)
    requires InRange(indices, sizes)
    ensures Rank(indices, sizes) < Total(sizes)
  {
    if indices != [] {
      RankBound(indices[1..], sizes[1..]);
      MulStep(sizes[0], Rank(indices[1..], sizes[1..]), Total(sizes[1..]));
    }
  }

  lemma {:induction false} RankZeros(sizes: seq<nat>)
    ensures Rank(Zeros(|sizes|), sizes) == 0
  {
    if sizes != [] {
      assert Zeros(|sizes|)[1..] == Zeros(|sizes[1..]|);
      RankZeros(sizes[1..]);
    }
  }

  /** Different tuples have different positions. */
  lemma {:induction false} RankInjective(a: seq<nat>, b: seq<nat>, sizes: seq<nat>)
    requires InRange(a, sizes) && InRange(b, sizes) && Rank(a, sizes) == Rank(b, sizes)
    ensures a == b
  {
    if a != [] {
      var ra, rb := Rank(a[1..], sizes[1..]), Rank(b[1..], sizes[1..]);
      if ra < rb { MulStep(sizes[0], ra, rb); }
      if rb < ra { MulStep(sizes[0], rb, ra); }
      RankInjective(a[1..], b[1..], sizes[1..]);
      assert a == [a[0]] + a[1..] && b == [b[0]] + b[1..];
    }
  }

  /** A move adds one to the position, or wraps from the last tuple to all zeros. */
  lemma {:induction false} AdvanceRank(indices: seq<nat>, sizes: seq<nat>)
    requires InRange(indices, sizes)
    ensures var (next, more) := Advance(indices, sizes);
      InRange(next, sizes) &&
      (more ==> Rank(next, sizes) == Rank(indices, sizes) + 1) &&
      (!more ==> next == Zeros(|sizes|) && Rank(indices, sizes) == Total(sizes) - 1)
  {
    if indices != [] {
      AdvanceRank(indices[1..], sizes[1..]);
      var (next, more) := Advance(indices, sizes);
      var (rest, moved) := Advance(indices[1..], sizes[1..]);
      MulSucc(sizes[0], Rank(indices[1..], sizes[1..]));
      if indices[0] + 1 == sizes[0] {
        assert next == [0] + rest && next[1..] == rest;
      } else {
        assert next[1..] == indices[1..];
      }
    }
  }

  lemma MulSucc(a: nat, b: nat)
    ensures a * (b + 1) == a * b + a
  {
  }

  /** The tuple after `k` moves from all zeros. */
  function Nth(sizes: seq<nat>, k: nat): (r: seq<nat>)
    ensures |r| == |sizes|
  {
    if k == 0 then Zeros(|sizes|) else Advance(Nth(sizes, k - 1), sizes).0
  }

  lemma {:induction false} NthRank(sizes: seq<nat>, k: nat)
    requires (forall i :: 0 <= i < |sizes| ==> sizes[i] >= 1) && k < Total(sizes)
    ensures InRange(Nth(sizes, k), sizes) && Rank(Nth(sizes, k), sizes) == k
  {
    if k == 0 {
      RankZeros(sizes);
    } else {
      NthRank(sizes, k - 1);
      AdvanceRank(Nth(sizes, k - 1), sizes);
    }
  }

  /** Every tuple is visited before the loop ends, after exactly one number of moves. */
  lemma EveryTupleOnce(sizes: seq<nat>, tuple: seq<nat>) returns (k: nat)
    requires (forall i :: 0 <= i < |sizes| ==> sizes[i] >= 1) && InRange(tuple, sizes)
    ensures k < Total(sizes) && Nth(sizes, k) == tuple
    ensures forall j: nat :: j < Total(sizes) && Nth(sizes, j) == tuple ==> j == k
  {
    RankBound(tuple, sizes);
    k := Rank(tuple, sizes);
    NthRank(sizes, k);
    RankInjective(Nth(sizes, k), tuple, sizes);
    forall j: nat | j < Total(sizes) && Nth(sizes, j) == tuple ensures j == k {
      NthRank(sizes, j);
    }
  }

  /** The first move that answers false is the `Total`-th, and leaves all zeros. */
  lemma LastMove(sizes: seq<nat>, k: nat)
    requires (forall i :: 0 <= i < |sizes| ==> sizes[i] >= 1) && k < Total(sizes)
    ensures Advance(Nth(sizes, k), sizes).1 <==> k + 1 < Total(sizes)
    ensures k + 1 == Total(sizes) ==> Nth(sizes, k + 1) == Zeros(|sizes|)
  {
    NthRank(sizes, k);
    AdvanceRank(Nth(sizes, k), sizes);
    RankBound(Advance(Nth(sizes, k), sizes).0, sizes);
  }

  /** A generator first met in the middle of the run starts at zero in the last place, so
      the position in the run stays what it was. */
  lemma {:induction false} RankOfNewGenerator(indices: seq<nat>, sizes: seq<nat>, size: nat)
    requires |indices| == |sizes|
    ensures Rank(indices + [0], sizes + [size]) == Rank(indices, sizes)
  {
    if indices == [] {
      assert Rank([0], [size]) == 0 + size * Rank([], []);
      assert indices + [0] == [0] && sizes + [size] == [size];
    } else {
      assert (indices + [0])[1..] == indices[1..] + [0] && (sizes + [size])[1..] == sizes[1..] + [size];
      RankOfNewGenerator(indices[1..], sizes[1..], size);
    }
  }

  // ----- generators met while the run goes on

  /** A generator asked for in a test's body: its place in the source and its size. */
  datatype Ask = Ask(fileInfo: string, size: nat)

  ghost predicate AllSized(sizes: seq<nat>) { forall i :: 0 <= i < |sizes| ==> sizes[i] >= 1 }

  /** A tuple with zeros for the generators not met yet. */
  function Padded(tuple: seq<nat>, n: nat): (r: seq<nat>)
    requires |tuple| <= n
  {
    tuple + Zeros(n - |tuple|)
  }

  /** Padded so, the tuple is at position `k`. */
  ghost predicate AtPlace(tuple: seq<nat>, sizes: seq<nat>, k: nat) {
    |tuple| <= |sizes| && InRange(Padded(tuple, |sizes|), sizes) && Rank(Padded(tuple, |sizes|), sizes) == k
  }

  /** Generators met later leave it there. */
  lemma {:induction false} AtPlaceGrows(tuple: seq<nat>, sizes: seq<nat>, more: seq<nat>, k: nat)
    requires AtPlace(tuple, sizes, k) && AllSized(more)
    ensures AtPlace(tuple, sizes + more, k)
    decreases |more|
  {
    if more == [] {
      assert sizes + more == sizes;
    } else {
      var n := |sizes|;
      RankOfNewGenerator(Padded(tuple, n), sizes, more[0]);
      assert Padded(tuple, n) + [0] == Padded(tuple, n + 1);
      AtPlaceGrows(tuple, sizes + [more[0]], more[1..], k);
      assert sizes + [more[0]] + more[1..] == sizes + more;
    }
  }

  lemma AtPlaceIsNth(tuple: seq<nat>, sizes: seq<nat>, k: nat)
    requires AllSized(sizes) && AtPlace(tuple, sizes, k)
    ensures k < Total(sizes) && Padded(tuple, |sizes|) == Nth(sizes, k)
  {
    RankBound(Padded(tuple, |sizes|), sizes);
    NthRank(sizes, k);
    RankInjective(Padded(tuple, |sizes|), Nth(sizes, k), sizes);
  }

  lemma FullAtPlace(tuple: seq<nat>, sizes: seq<nat>)
    requires InRange(tuple, sizes)
    ensures AtPlace(tuple, sizes, Rank(tuple, sizes))
  {
    assert Padded(tuple, |sizes|) == tuple;
  }

  class GeneratorInfo {
    const size: nat
    var currentIndex: nat

    constructor (size: nat)
      ensures this.size == size && currentIndex == 0
    {
      this.size, currentIndex := size, 0;
    }

    method MoveNext() returns (more: bool)
      modifies this
      ensures (currentIndex, more) == MoveOne(old(currentIndex), size)
    {
      currentIndex := currentIndex + 1;
      if currentIndex == size {
        currentIndex := 0;
        return false;
      }
      return true;
    }
  }

  class GeneratorsForTest {
    var generatorsByName: map<string, GeneratorInfo>
    var generatorsInOrder: seq<GeneratorInfo>

    ghost predicate Valid()
      reads this
    {
      (forall i, j :: 0 <= i < j < |generatorsInOrder| ==> generatorsInOrder[i] != generatorsInOrder[j]) &&
      forall name :: name in generatorsByName ==> generatorsByName[name] in generatorsInOrder
    }

    ghost function Indices(): seq<nat>
      reads this, generatorsInOrder
    {
      seq(|generatorsInOrder|, i requires 0 <= i < |generatorsInOrder| reads this, generatorsInOrder =>
        generatorsInOrder[i].currentIndex)
    }

    ghost function Sizes(): seq<nat>
      reads this
    {
      seq(|generatorsInOrder|, i requires 0 <= i < |generatorsInOrder| reads this => generatorsInOrder[i].size)
    }

    constructor ()
      ensures Valid() && Indices() == [] && Sizes() == [] && generatorsByName == map[]
    {
      generatorsByName, generatorsInOrder := map[], [];
    }

    /** The generator of a place in the source, made on first use. */
    method GetGeneratorInfo(fileInfo: string, size: nat) returns (info: GeneratorInfo)
      requires Valid()
      modifies this
      ensures Valid() && fileInfo in generatorsByName && generatorsByName[fileInfo] == info
      ensures fileInfo in old(generatorsByName) ==>
        info == old(generatorsByName)[fileInfo] && generatorsInOrder == old(generatorsInOrder) &&
        generatorsByName == old(generatorsByName) && Indices() == old(Indices())
      ensures fileInfo !in old(generatorsByName) ==>
        fresh(info) && generatorsInOrder == old(generatorsInOrder) + [info] &&
        Indices() == old(Indices()) + [0] && Sizes() == old(Sizes()) + [size] &&
        generatorsByName == old(generatorsByName)[fileInfo := info] &&
        Rank(Indices(), Sizes()) == Rank(old(Indices()), old(Sizes()))
    {
      if fileInfo in generatorsByName {
        return generatorsByName[fileInfo];
      }
      info := new GeneratorInfo(size);
      generatorsByName := generatorsByName[fileInfo := info];
      generatorsInOrder := generatorsInOrder + [info];
      assert Indices() == old(Indices()) + [0] && Sizes() == old(Sizes()) + [size];
      RankOfNewGenerator(old(Indices()), old(Sizes()), size);
    }

    method MoveNext() returns (more: bool)
      requires Valid()
      modifies generatorsInOrder
      ensures Valid() && (Indices(), more) == Advance(old(Indices()), Sizes())
    {
      ghost var was := Indices();
      for i := 0 to |generatorsInOrder|
        invariant forall j :: 0 <= j < i ==> was[j] + 1 == Sizes()[j] && Indices()[j] == 0
        invariant forall j :: i <= j < |generatorsInOrder| ==> Indices()[j] == was[j]
      {
        label L:
        var moved := generatorsInOrder[i].MoveNext();
        assert forall j :: 0 <= j < |generatorsInOrder| && j != i ==> Indices()[j] == old@L(Indices()[j]);
        if moved {
          Moved(was, Sizes(), i, Indices(), true);
          return true;
        }
      }
      Moved(was, Sizes(), |generatorsInOrder|, Indices(), false);
      return false;
    }

    ghost predicate Going()
      reads this, generatorsInOrder
    {
      Valid() && AllSized(Sizes()) && InRange(Indices(), Sizes())
    }

    /** All generators are among those given or new. */
    twostate predicate Known(were: seq<GeneratorInfo>)
      reads this
    {
      forall i :: 0 <= i < |generatorsInOrder| ==> generatorsInOrder[i] in were || fresh(generatorsInOrder[i])
    }

    /** What a pass asks for. */
    method RunPass(asks: seq<Ask>)
      requires Going() && forall a :: a in asks ==> a.size >= 1
      modifies this
      ensures Going() && Rank(Indices(), Sizes()) == old(Rank(Indices(), Sizes()))
      ensures old(Sizes()) <= Sizes() && (asks == [] ==> Sizes() == old(Sizes()))
      ensures Known(old(generatorsInOrder))
    {
      hide Rank;
      for i := 0 to |asks|
        invariant Going() && Rank(Indices(), Sizes()) == old(Rank(Indices(), Sizes()))
        invariant old(Sizes()) <= Sizes() && (i == 0 ==> Sizes() == old(Sizes()))
        invariant Known(old(generatorsInOrder))
      {
        label L:
        assert asks[i] in asks;
        var info := GetGeneratorInfo(asks[i].fileInfo, asks[i].size);
        if asks[i].fileInfo in old@L(generatorsByName) {
          assert Indices() == old@L(Indices()) && Sizes() == old@L(Sizes());
        }
      }
    }

    /** A pass and the move after it. */
    method OnePass(asks: seq<Ask>) returns (now: seq<nat>, more: bool)
      requires Going() && forall a :: a in asks ==> a.size >= 1
      modifies this, generatorsInOrder
      ensures Going() && old(Sizes()) <= Sizes() && (asks == [] ==> Sizes() == old(Sizes()))
      ensures AtPlace(now, Sizes(), old(Rank(Indices(), Sizes())))
      ensures if more then Rank(Indices(), Sizes()) == old(Rank(Indices(), Sizes())) + 1
        else Indices() == Zeros(|generatorsInOrder|) && old(Rank(Indices(), Sizes())) + 1 == Total(Sizes())
      ensures Known(old(generatorsInOrder))
    {
      hide Rank, Advance, AtPlace;
      RunPass(asks);
      FullAtPlace(Indices(), Sizes());
      AdvanceRank(Indices(), Sizes());
      now := ReadIndices();
      more := MoveNext();
    }

    /** The outer loop of RunContext::runTest.  Pass number `k` asks for `asks[k]`, and from some pass on for
        no new generator; `passes` are the indices each pass ended with. */
    method AllPasses(asks: seq<seq<Ask>>) returns (passes: seq<seq<nat>>)
      requires Going() && Indices() == Zeros(|generatorsInOrder|)
      requires forall k, a :: 0 <= k < |asks| && a in asks[k] ==> a.size >= 1
      modifies this, generatorsInOrder
      ensures Going() && Indices() == Zeros(|generatorsInOrder|) && old(Sizes()) <= Sizes()
      ensures |passes| == Total(Sizes())
      ensures forall k :: 0 <= k < |passes| ==>
        |passes[k]| <= |Sizes()| && Padded(passes[k], |Sizes()|) == Nth(Sizes(), k)
    {
      hide Rank, InRange, Advance, AtPlace;
      passes := [];
      var more := true;
      RankZeros(Sizes());
      RankBound(Indices(), Sizes());
      while more
        invariant Going() && old(Sizes()) <= Sizes()
        invariant Known(old(generatorsInOrder))
        invariant forall k :: 0 <= k < |passes| ==> AtPlace(passes[k], Sizes(), k)
        invariant if more then Rank(Indices(), Sizes()) == |passes| < Total(Sizes()) else |passes| == Total(Sizes())
        invariant !more ==> Indices() == Zeros(|generatorsInOrder|)
        decreases if more then 1 else 0, if |passes| < |asks| then |asks| - |passes| else 0, Total(Sizes()) - |passes|
      {
        ghost var was := Sizes();
        var now;
        now, more := OnePass(if |passes| < |asks| then asks[|passes|] else []);
        Later(was, Sizes(), passes);
        RankBound(Indices(), Sizes());
        passes := passes + [now];
      }
      AllNth(passes, Sizes());
    }

    method ReadIndices() returns (now: seq<nat>)
      ensures now == Indices()
    {
      now := [];
      for i := 0 to |generatorsInOrder|
        invariant now == Indices()[..i]
      {
        now := now + [generatorsInOrder[i].currentIndex];
      }
    }
  }

  lemma Later(was: seq<nat>, sizes: seq<nat>, passes: seq<seq<nat>>)
    requires was <= sizes && AllSized(sizes)
    requires forall k :: 0 <= k < |passes| ==> AtPlace(passes[k], was, k)
    ensures forall k :: 0 <= k < |passes| ==> AtPlace(passes[k], sizes, k)
  {
    hide AtPlace;
    assert sizes == was + sizes[|was|..];
    forall k | 0 <= k < |passes| ensures AtPlace(passes[k], sizes, k) {
      AtPlaceGrows(passes[k], was, sizes[|was|..], k);
    }
  }

  lemma AllNth(passes: seq<seq<nat>>, sizes: seq<nat>)
    requires AllSized(sizes)
    requires forall k :: 0 <= k < |passes| ==> AtPlace(passes[k], sizes, k)
    ensures forall k :: 0 <= k < |passes| ==>
      |passes[k]| <= |sizes| && Padded(passes[k], |sizes|) == Nth(sizes, k)
  {
    hide Rank, InRange;
    forall k | 0 <= k < |passes| ensures |passes[k]| <= |sizes| && Padded(passes[k], |sizes|) == Nth(sizes, k) {
      AtPlaceIsNth(passes[k], sizes, k);
    }
  }

  /** What the loop over the counters adds up to. */
  lemma {:induction false} Moved(was: seq<nat>, sizes: seq<nat>, i: nat, now: seq<nat>, more: bool)
    requires |was| == |sizes| == |now| && i <= |sizes|
    requires forall j :: 0 <= j < i ==> was[j] + 1 == sizes[j] && now[j] == 0
    requires if more then i < |sizes| && was[i] + 1 != sizes[i] && now[i] == was[i] + 1 else i == |sizes|
    requires forall j :: i < j < |sizes| ==> now[j] == was[j]
    ensures (now, more) == Advance(was, sizes)
    decreases i
  {
    if i == 0 {
      if more { assert now == [now[0]] + was[1..]; } else { assert now == []; }
    } else {
      Moved(was[1..], sizes[1..], i - 1, now[1..], more);
      assert now == [0] + now[1..];
    }
  }
}

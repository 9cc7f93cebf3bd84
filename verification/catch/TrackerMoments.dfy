/** The order in which sections are started, at every moment of a run. */
module TrackerMoments {
  import opened TrackerModel
  import opened TrackerSchedule
  import opened TrackerRuns
  import opened TrackerTest

  /** The states a section block passes through: after its construction, in its body, and after its destruction. */
  ghost function SectionMoments(w: World, sec: Section): seq<World>
    requires Sound(w)
    decreases sec, |sec.kids| + 1
  {
    var (started, included) := SectionStarted(w, sec.name);
    [started] + if included then BodyMoments(started, sec, 0) + [RunSection(w, sec).0] else []
  }

  ghost function BodyMoments(w: World, sec: Section, j: nat): seq<World>
    requires Sound(w) && j <= |sec.kids|
    decreases sec, |sec.kids| - j
  {
    if j == |sec.kids| then []
    else
      var (after, threw) := RunSection(w, sec.kids[j]);
      SectionMoments(w, sec.kids[j]) + if threw then [] else BodyMoments(after, sec, j + 1)
  }

  /** The states of a cycle. */
  ghost function CycleMoments(w: World, test: Section): seq<World>
    requires Sound(w)
  {
    var w1 := Acquire(w.(current := [], completed := false), test.name);
    var w2 := w1.(entered := w1.entered + [TestPath(test)]);
    [w1, w2] + BodyMoments(w2, test, 0) + [Close(RunBody(w2, test, 0).0, TestPath(test)), RunCycle(w, test)]
  }

  /** `m` comes up while the body of `sec` runs from `w` on: the sections are still in shape, and
      outside `p` nothing has changed. */
  ghost predicate Good(w: World, m: World, p: Path, sec: Section) {
    Shape(m.nodes, p, sec) && Outside(w.nodes, m.nodes, p)
  }

  /** A moment within the section at the frontier. */
  lemma FromKid(w: World, m: World, p: Path, sec: Section, k: nat)
    requires Ready(w, p, sec) && Frontier(w.nodes, p, sec, k) && k < |sec.kids| && p in w.nodes && p in m.nodes
    requires m.nodes[p].kids == FindOrAdd(w.nodes, p, sec.kids[k].name)[p].kids
    requires Shape(m.nodes, KidPath(sec, p, k), sec.kids[k])
    requires forall o :: o != p && !(KidPath(sec, p, k) <= o) ==>
      (o in w.nodes <==> o in m.nodes) && (o in w.nodes && o in m.nodes ==> w.nodes[o] == m.nodes[o])
    ensures Good(w, m, p, sec)
  {
    hide Tree, FindOrAdd, DistinctNames, Fresh, KidsArePrefix, Shape;
    FoundKids(w.nodes, m.nodes, p, sec, k);
    forall i | 0 <= i < |sec.kids|
      ensures Shape(m.nodes, KidPath(sec, p, i), sec.kids[i])
      ensures i < k ==> Done(m.nodes, KidPath(sec, p, i))
      ensures i > k ==> Fresh(m.nodes, KidPath(sec, p, i))
    {
      if i != k {
        KidsAgree(w.nodes, m.nodes, p, sec, k, i);
        AgreeShape(w.nodes, m.nodes, KidPath(sec, p, i), sec.kids[i]);
      }
      if i > k { StillFresh(w.nodes, m.nodes, p, sec, k, i); }
    }
    FrontierFound(m.nodes, p, sec, k);
  }

  /** Sections that are complete are passed by, and every moment is the same. */
  lemma {:induction false} SkippedMoments(w: World, p: Path, sec: Section, j: nat, k: nat)
    requires Sound(w) && w.current == p && j <= k <= |sec.kids|
    requires forall i :: j <= i < k ==> Done(w.nodes, KidPath(sec, p, i))
    ensures forall m :: m in BodyMoments(w, sec, j) ==> m == w || m in BodyMoments(w, sec, k)
    decreases k - j
  {
    hide Tree, RunSection, Done, SectionMoments;
    if j < k {
      SkipsOne(w, p, sec, j);
      SkippedMoment(w, p, sec, j);
      SkippedMoments(w, p, sec, j + 1, k);
    }
  }

  lemma SkippedMoment(w: World, p: Path, sec: Section, j: nat)
    requires Sound(w) && w.current == p && j < |sec.kids| && Done(w.nodes, KidPath(sec, p, j))
    ensures SectionMoments(w, sec.kids[j]) == [w]
  {
    hide RunBody, BodyMoments;
    assert Parent(KidPath(sec, p, j)) == p;
  }

  /** Once the cycle is over, the sections not yet entered are only found. */
  lemma {:induction false} LaterMoments(w: World, p: Path, sec: Section, j: nat)
    requires Sound(w) && w.completed && w.current == p && DistinctNames(sec) && Shape(w.nodes, p, sec)
    requires j <= |sec.kids| && KidsArePrefix(w.nodes, p, sec) && j <= |w.nodes[p].kids|
    requires KidsFresh(w.nodes, p, sec, j)
    ensures forall m :: m in BodyMoments(w, sec, j) ==> Good(w, m, p, sec)
    decreases |sec.kids| - j
  {
    hide Tree, Fresh, DistinctNames, SectionStarted, Shape, KidsArePrefix, SameBut;
    if j < |sec.kids| {
      PassedOne(w, p, sec, j);
      var started := SectionStarted(w, sec.kids[j].name).0;
      PassedShape(w, started, p, sec, j);
      LaterMoments(started, p, sec, j + 1);
    }
  }

  lemma PassedShape(w: World, r: World, p: Path, sec: Section, j: nat)
    requires DistinctNames(sec) && Shape(w.nodes, p, sec) && j < |sec.kids| && KidsFresh(w.nodes, p, sec, j)
    requires KidsArePrefix(r.nodes, p, sec) && KidsFresh(r.nodes, p, sec, j) && SameBut(w.nodes, r.nodes, p, sec, j)
    ensures Good(w, r, p, sec)
  {
    hide Tree, DistinctNames, KidsArePrefix;
    var k: nat :| Frontier(w.nodes, p, sec, k);
    assert Fresh(w.nodes, KidPath(sec, p, j));
    forall i | 0 <= i < |sec.kids|
      ensures Shape(r.nodes, KidPath(sec, p, i), sec.kids[i])
      ensures i < k ==> Done(r.nodes, KidPath(sec, p, i))
      ensures i > k ==> Fresh(r.nodes, KidPath(sec, p, i))
    {
      if i < j {
        PassedAgrees(w, r, p, sec, j, i);
        AgreeShape(w.nodes, r.nodes, KidPath(sec, p, i), sec.kids[i]);
      } else {
        FreshShape(r.nodes, KidPath(sec, p, i), sec.kids[i]);
      }
    }
    FrontierFound(r.nodes, p, sec, k);
  }

  lemma PassedAgrees(w: World, r: World, p: Path, sec: Section, j: nat, i: nat)
    requires DistinctNames(sec) && i < j < |sec.kids| && SameBut(w.nodes, r.nodes, p, sec, j)
    ensures Agree(w.nodes, r.nodes, KidPath(sec, p, i))
  {
    forall o | KidPath(sec, p, i) <= o
      ensures (o in w.nodes <==> o in r.nodes) && (o in w.nodes && o in r.nodes ==> w.nodes[o] == r.nodes[o])
    {
      forall l | j <= l < |sec.kids| ensures o != KidPath(sec, p, l) {
        KidsApart(p, sec, i, l, o);
      }
    }
  }

  /** The moments of the section at the frontier. */
  lemma {:induction false} KidMoments(w: World, p: Path, sec: Section, k: nat)
    requires Ready(w, p, sec) && Frontier(w.nodes, p, sec, k) && k < |sec.kids|
    ensures forall m :: m in SectionMoments(w, sec.kids[k]) ==> Good(w, m, p, sec)
    decreases sec, 0
  {
    hide Shape, Frontier, Tree, DistinctNames, FindOrAdd, RunBody, SectionProgress;
    var kid, q := sec.kids[k], KidPath(sec, p, k);
    OpensKidSteps(w, p, sec, k);
    OpensKid(w, p, sec, k);
    SectionCorrect(w, p, sec, k);
    var w1, r := SectionStarted(w, kid.name).0, RunSection(w, kid).0;
    StartsGood(w, w1, p, sec, k);
    RanGood(w, r, RunSection(w, kid).1, p, sec, k);
    ReadyMoments(w1, q, kid);
    forall m | m in BodyMoments(w1, kid, 0) ensures Good(w, m, p, sec) {
      InKid(w, w1, m, p, sec, k);
    }
  }

  lemma StartsGood(w: World, w1: World, p: Path, sec: Section, k: nat)
    requires Ready(w, p, sec) && Frontier(w.nodes, p, sec, k) && k < |sec.kids|
    requires Ready(w1, KidPath(sec, p, k), sec.kids[k])
    requires w1 == SectionStarted(w, sec.kids[k].name).0
    ensures Good(w, w1, p, sec)
  {
    hide Shape, Frontier, Tree, DistinctNames, FindOrAdd, SectionStarted;
    OpensKidSteps(w, p, sec, k);
    FromKid(w, w1, p, sec, k);
  }

  lemma RanGood(w: World, r: World, threw: bool, p: Path, sec: Section, k: nat)
    requires Ready(w, p, sec) && Frontier(w.nodes, p, sec, k) && k < |sec.kids|
    requires SectionRan(w, r, threw, p, sec.kids[k])
    ensures Good(w, r, p, sec)
  {
    hide Shape, Frontier, Tree, DistinctNames, FindOrAdd, Rem;
    FromKid(w, r, p, sec, k);
  }

  lemma InKid(w: World, w1: World, m: World, p: Path, sec: Section, k: nat)
    requires Ready(w, p, sec) && Frontier(w.nodes, p, sec, k) && k < |sec.kids|
    requires w1 == SectionStarted(w, sec.kids[k].name).0 && Good(w1, m, KidPath(sec, p, k), sec.kids[k])
    ensures Good(w, m, p, sec)
  {
    hide Shape, Frontier, Tree, DistinctNames, FindOrAdd, SectionStarted;
    OpensKidSteps(w, p, sec, k);
    FromKid(w, m, p, sec, k);
  }

  /** From the frontier on. */
  lemma {:induction false} RestMoments(w: World, p: Path, sec: Section, k: nat)
    requires Ready(w, p, sec) && Frontier(w.nodes, p, sec, k) && k < |sec.kids|
    ensures forall m :: m in BodyMoments(w, sec, k) ==> Good(w, m, p, sec)
    decreases sec, 1
  {
    hide Frontier, Tree, DistinctNames, SectionMoments, RunSection, Shape, SectionProgress;
    KidMoments(w, p, sec, k);
    SectionCorrect(w, p, sec, k);
    var (mid, threw) := RunSection(w, sec.kids[k]);
    RestFound(w, mid, threw, p, sec, k);
    RanGood(w, mid, threw, p, sec, k);
    if !threw {
      LaterMoments(mid, p, sec, k + 1);
    }
  }

  /** The moments of a body. */
  lemma {:induction false} ReadyMoments(w: World, p: Path, sec: Section)
    requires Ready(w, p, sec)
    ensures forall m :: m in BodyMoments(w, sec, 0) ==> Good(w, m, p, sec)
    decreases sec, 2
  {
    hide Tree, DistinctNames, SectionMoments, RunSection;
    assert Shape(w.nodes, p, sec);
    var k: nat :| Frontier(w.nodes, p, sec, k);
    SkippedMoments(w, p, sec, 0, k);
    if k < |sec.kids| {
      RestMoments(w, p, sec, k);
    }
  }

  // ----- the order of siblings

  /** At every level, a section that was started comes after complete ones only. */
  ghost predicate InOrder(nodes: Nodes, p: Path, sec: Section)
    decreases sec
  {
    (forall i, j :: 0 <= i < j < |sec.kids| && !Fresh(nodes, KidPath(sec, p, j)) ==>
      Done(nodes, KidPath(sec, p, i))) &&
    forall i :: 0 <= i < |sec.kids| ==> InOrder(nodes, KidPath(sec, p, i), sec.kids[i])
  }

  lemma {:induction false} ShapeInOrder(nodes: Nodes, p: Path, sec: Section)
    requires Shape(nodes, p, sec)
    ensures InOrder(nodes, p, sec)
    decreases sec
  {
    var k: nat :| Frontier(nodes, p, sec, k);
    forall i | 0 <= i < |sec.kids| ensures InOrder(nodes, KidPath(sec, p, i), sec.kids[i]) {
      ShapeInOrder(nodes, KidPath(sec, p, i), sec.kids[i]);
    }
  }

  /** The trackers after `n` cycles, or after the last one. */
  ghost function AfterCycles(test: Section, n: nat): (w: World)
    requires DistinctNames(test)
    ensures Between(w, test)
  {
    if n == 0 then
      StartBetween(test);
      Start
    else
      var w := AfterCycles(test, n - 1);
      if Done(w.nodes, TestPath(test)) then w
      else
        CycleCorrect(w, test);
        RunCycle(w, test)
  }

  lemma CycleInShape(w: World, test: Section)
    requires Between(w, test) && !Done(w.nodes, TestPath(test))
    ensures forall m :: m in CycleMoments(w, test) ==> Shape(m.nodes, TestPath(test), test)
  {
    hide Shape, Tree, DistinctNames, BodyMoments, RunBody, Close, Acquire, RemKids, HandleUnfinished;
    var p := TestPath(test);
    TestOpened(w, test);
    var w1 := Acquire(w.(current := [], completed := false), test.name);
    var w2 := w1.(entered := w1.entered + [p]);
    assert Ready(w2, p, test);
    ReadyMoments(w2, p, test);
    CycleCorrect(w, test);
    var closed := Close(RunBody(w2, test, 0).0, p);
    NothingUnfinished(closed, closed.unfinished);
  }

  /** Between two cycles and at every moment of a cycle, complete siblings form a prefix, and of the
      others only the first can have been started. */
  lemma SiblingsInOrder(test: Section, n: nat)
    requires DistinctNames(test)
    ensures var w := AfterCycles(test, n);
      InOrder(w.nodes, TestPath(test), test) &&
      (!Done(w.nodes, TestPath(test)) ==> forall m :: m in CycleMoments(w, test) ==> InOrder(m.nodes, TestPath(test), test))
  {
    hide Shape, InOrder, CycleMoments, DistinctNames;
    var w := AfterCycles(test, n);
    ShapeInOrder(w.nodes, TestPath(test), test);
    if !Done(w.nodes, TestPath(test)) {
      CycleInShape(w, test);
      forall m | m in CycleMoments(w, test) ensures InOrder(m.nodes, TestPath(test), test) {
        ShapeInOrder(m.nodes, TestPath(test), test);
      }
    }
  }
}

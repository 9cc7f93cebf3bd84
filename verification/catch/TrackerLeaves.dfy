/** Which leaf sections a whole run enters. */
module TrackerLeaves {
  import opened TrackerModel
  import opened TrackerSchedule
  import opened TrackerRuns
  import opened TrackerTest

  /** The leaf sections below `p`, in the order of the body. */
  function Leaves(sec: Section, p: Path): seq<Path>
    decreases sec, |sec.kids| + 1
  {
    if sec.kids == [] then [p] else LeavesKids(sec, p, 0)
  }

  function LeavesKids(sec: Section, p: Path, j: nat): seq<Path>
    requires j <= |sec.kids|
    decreases sec, |sec.kids| - j
  {
    if j == |sec.kids| then []
    else Leaves(sec.kids[j], KidPath(sec, p, j)) + LeavesKids(sec, p, j + 1)
  }

  function PathsOf(events: seq<Event>): seq<Path> {
    if events == [] then [] else [events[0].path] + PathsOf(events[1..])
  }

  function Keep(paths: seq<Path>, wanted: seq<Path>): seq<Path> {
    if paths == [] then []
    else (if paths[0] in wanted then [paths[0]] else []) + Keep(paths[1..], wanted)
  }

  // ----- the condition

  /** Below `sec` every section but the last throws, so that its body gets to its end only
      when nothing is left. */
  predicate EndsOnce(sec: Section) {
    (forall i :: 0 <= i < |sec.kids| - 1 ==> sec.kids[i].throws) &&
    (sec.kids != [] ==>
      var last := sec.kids[|sec.kids| - 1];
      last.throws || EndsOnce(last))
  }

  /** A section that has sections and throws at its end gets there only once. */
  predicate Reaches(sec: Section) {
    (sec.throws && sec.kids != [] ==> EndsOnce(sec)) &&
    forall kid :: kid in sec.kids ==> Reaches(kid)
  }

  ghost predicate OnlyLeavesThrow(sec: Section) {
    (sec.throws ==> sec.kids == []) && forall kid :: kid in sec.kids ==> OnlyLeavesThrow(kid)
  }

  lemma {:induction false} OnlyLeavesReach(sec: Section)
    requires OnlyLeavesThrow(sec)
    ensures Reaches(sec)
    decreases sec
  {
    forall kid | kid in sec.kids ensures Reaches(kid) {
      OnlyLeavesReach(kid);
    }
  }

  // ----- how events of a schedule end

  ghost predicate AllThrew(events: seq<Event>) {
    forall e :: e in events ==> e.threw
  }

  /** Only the last event returns. */
  ghost predicate OnlyLastReturns(events: seq<Event>) {
    forall i :: 0 <= i < |events| - 1 ==> events[i].threw
  }

  lemma {:induction false} CutAllThrew(events: seq<Event>)
    ensures AllThrew(CutAtNormal(events))
    ensures events != [] ==> CutAtNormal(events) != []
  {
    if events != [] && events[0].threw { CutAllThrew(events[1..]); }
  }

  lemma {:induction false} CutConcat(a: seq<Event>, b: seq<Event>)
    ensures AllThrew(a) ==> CutAtNormal(a + b) == a + CutAtNormal(b)
    ensures !AllThrew(a) ==> CutAtNormal(a + b) == CutAtNormal(a)
  {
    if a == [] {
      assert a + b == b;
    } else {
      assert (a + b)[0] == a[0] && (a + b)[1..] == a[1..] + b;
      CutConcat(a[1..], b);
      assert a == [a[0]] + a[1..];
    }
  }

  lemma {:induction false} CutKeepsAll(events: seq<Event>)
    requires OnlyLastReturns(events)
    ensures PathsOf(CutAtNormal(events)) == PathsOf(events)
  {
    if events != [] {
      assert events == [events[0]] + events[1..];
      if events[0].threw {
        CutKeepsAll(events[1..]);
      } else {
        assert events[1..] == [];
      }
    }
  }

  lemma SchedEnds(sec: Section, p: Path)
    ensures Sched(sec, p) != []
    ensures sec.throws ==> AllThrew(Sched(sec, p))
    ensures !sec.throws ==> !Sched(sec, p)[|Sched(sec, p)| - 1].threw
  {
    CutAllThrew(Settle(p, SchedKids(sec, p, 0)));
  }

  /** From section `j` on, only the last event returns. */
  lemma {:induction false} EndsOnceKids(sec: Section, p: Path, j: nat)
    requires EndsOnce(sec) && j <= |sec.kids|
    ensures OnlyLastReturns(SchedKids(sec, p, j))
    decreases sec, |sec.kids| - j
  {
    if j < |sec.kids| {
      var kid, q := sec.kids[j], KidPath(sec, p, j);
      SchedEnds(kid, q);
      if j == |sec.kids| - 1 {
        assert SchedKids(sec, p, j) == Sched(kid, q);
        if !kid.throws {
          EndsOnceSettled(kid, q);
        }
      } else {
        EndsOnceKids(sec, p, j + 1);
      }
    }
  }

  lemma {:induction false} EndsOnceSettled(sec: Section, p: Path)
    requires EndsOnce(sec)
    ensures OnlyLastReturns(Settle(p, SchedKids(sec, p, 0)))
    decreases sec, |sec.kids| + 1
  {
    hide Sched;
    EndsOnceKids(sec, p, 0);
  }

  // ----- where leaves and events lie

  lemma {:induction false} LeavesBelow(sec: Section, p: Path, q: Path)
    requires q in Leaves(sec, p)
    ensures p <= q && (sec.kids != [] ==> p < q)
    decreases sec, |sec.kids| + 1
  {
    if sec.kids != [] { var _ := LeafKid(sec, p, 0, q); }
  }

  /** The section a leaf lies in. */
  lemma {:induction false} LeafKid(sec: Section, p: Path, j: nat, q: Path) returns (i: nat)
    requires j <= |sec.kids| && q in LeavesKids(sec, p, j)
    ensures j <= i < |sec.kids| && q in Leaves(sec.kids[i], KidPath(sec, p, i))
    ensures KidPath(sec, p, i) <= q
    decreases sec, |sec.kids| - j
  {
    if q in Leaves(sec.kids[j], KidPath(sec, p, j)) {
      LeavesBelow(sec.kids[j], KidPath(sec, p, j), q);
      i := j;
    } else {
      i := LeafKid(sec, p, j + 1, q);
    }
  }

  lemma {:induction false} KidLeaf(sec: Section, p: Path, j: nat, i: nat, q: Path)
    requires j <= i < |sec.kids| && q in Leaves(sec.kids[i], KidPath(sec, p, i))
    ensures q in LeavesKids(sec, p, j)
    decreases i - j
  {
    if j < i { KidLeaf(sec, p, j + 1, i, q); }
  }

  lemma {:induction false} LeavesNonempty(sec: Section, p: Path)
    ensures Leaves(sec, p) != []
    decreases sec
  {
    if sec.kids != [] { LeavesNonempty(sec.kids[0], KidPath(sec, p, 0)); }
  }

  lemma SchedBelow(sec: Section, p: Path, e: Event)
    requires e in Sched(sec, p)
    ensures p <= e.path
  {
    FreshRem(map[], p, sec);
    EventsBelow(map[], p, sec, e);
  }

  /** The section an event lies in. */
  lemma {:induction false} EventKid(sec: Section, p: Path, j: nat, e: Event) returns (i: nat)
    requires j <= |sec.kids| && e in SchedKids(sec, p, j)
    ensures j <= i < |sec.kids| && e in Sched(sec.kids[i], KidPath(sec, p, i))
    ensures KidPath(sec, p, i) <= e.path
    decreases |sec.kids| - j
  {
    if e in Sched(sec.kids[j], KidPath(sec, p, j)) {
      SchedBelow(sec.kids[j], KidPath(sec, p, j), e);
      i := j;
    } else {
      i := EventKid(sec, p, j + 1, e);
    }
  }

  /** No event goes on below a leaf. */
  lemma {:induction false} LeafIsInnermost(sec: Section, p: Path, e: Event, q: Path)
    requires DistinctNames(sec) && e in Sched(sec, p) && q in Leaves(sec, p)
    ensures !(q < e.path)
    decreases sec
  {
    LeavesBelow(sec, p, q);
    FinishKeepsPaths(sec.throws, p, SchedKids(sec, p, 0), e);
    if e.path != p {
      var e' :| e' in SchedKids(sec, p, 0) && e'.path == e.path;
      var i := EventKid(sec, p, 0, e');
      var j := LeafKid(sec, p, 0, q);
      if i == j {
        LeafIsInnermost(sec.kids[i], KidPath(sec, p, i), e', q);
      } else {
        KidsApart(p, sec, j, i, q);
        if q <= e.path { KidsApart(p, sec, j, i, e.path); }
      }
    }
  }

  // ----- every leaf is entered, in order, when the condition holds

  lemma {:induction false} KeepConcat(a: seq<Path>, b: seq<Path>, wanted: seq<Path>)
    ensures Keep(a + b, wanted) == Keep(a, wanted) + Keep(b, wanted)
  {
    if a == [] {
      assert a + b == b;
    } else {
      assert (a + b)[0] == a[0] && (a + b)[1..] == a[1..] + b;
      KeepConcat(a[1..], b, wanted);
    }
  }

  lemma {:induction false} PathsConcat(a: seq<Event>, b: seq<Event>)
    ensures PathsOf(a + b) == PathsOf(a) + PathsOf(b)
  {
    if a == [] {
      assert a + b == b;
    } else {
      assert (a + b)[0] == a[0] && (a + b)[1..] == a[1..] + b;
      PathsConcat(a[1..], b);
    }
  }

  lemma {:induction false} PathsIn(events: seq<Event>, q: Path)
    ensures q in PathsOf(events) <==> exists e :: e in events && e.path == q
  {
    if events != [] {
      PathsIn(events[1..], q);
      assert events == [events[0]] + events[1..];
    }
  }

  /** Only whether these very paths are wanted matters. */
  lemma {:induction false} KeepSame(paths: seq<Path>, a: seq<Path>, b: seq<Path>)
    requires forall q :: q in paths ==> (q in a <==> q in b)
    ensures Keep(paths, a) == Keep(paths, b)
  {
    if paths != [] {
      assert paths[0] in paths;
      KeepSame(paths[1..], a, b);
    }
  }

  /** An event of section `i` is a leaf of the body just if it is a leaf of that section. */
  lemma KeepOwn(sec: Section, p: Path, i: nat)
    requires DistinctNames(sec) && i < |sec.kids|
    ensures var events := PathsOf(Sched(sec.kids[i], KidPath(sec, p, i)));
      Keep(events, LeavesKids(sec, p, 0)) == Keep(events, Leaves(sec.kids[i], KidPath(sec, p, i)))
  {
    var kid, k := sec.kids[i], KidPath(sec, p, i);
    var events := PathsOf(Sched(kid, k));
    forall q | q in events ensures q in LeavesKids(sec, p, 0) <==> q in Leaves(kid, k) {
      PathsIn(Sched(kid, k), q);
      var e :| e in Sched(kid, k) && e.path == q;
      SchedBelow(kid, k, e);
      if q in Leaves(kid, k) { KidLeaf(sec, p, 0, i, q); }
      if q in LeavesKids(sec, p, 0) {
        var j := LeafKid(sec, p, 0, q);
        if i != j { KidsApart(p, sec, i, j, q); assert false; }
      }
    }
    KeepSame(events, LeavesKids(sec, p, 0), Leaves(kid, k));
  }

  lemma {:induction false} KeepSched(sec: Section, p: Path)
    requires DistinctNames(sec) && Reaches(sec)
    ensures Keep(PathsOf(Sched(sec, p)), Leaves(sec, p)) == Leaves(sec, p)
    decreases sec, |sec.kids| + 2
  {
    var settled := Settle(p, SchedKids(sec, p, 0));
    if sec.kids == [] {
      assert settled == [Event(p, false)];
      assert OnlyLastReturns(settled);
    } else if sec.throws {
      EndsOnceSettled(sec, p);
    }
    if sec.throws { CutKeepsAll(settled); }
    assert PathsOf(Sched(sec, p)) == PathsOf(settled);
    KeepSettled(sec, p);
  }

  lemma {:induction false} KeepSettled(sec: Section, p: Path)
    requires DistinctNames(sec) && forall kid :: kid in sec.kids ==> Reaches(kid)
    ensures Keep(PathsOf(Settle(p, SchedKids(sec, p, 0))), Leaves(sec, p)) == Leaves(sec, p)
    decreases sec, |sec.kids| + 1
  {
    var body := SchedKids(sec, p, 0);
    if sec.kids == [] {
      assert Settle(p, body) == [Event(p, false)];
    } else {
      KeepKids(sec, p, 0);
      if p in Leaves(sec, p) { LeavesBelow(sec, p, p); assert false; }
      KeepUnwanted(body, p, Leaves(sec, p));
    }
  }

  /** An event of a section with sections adds no leaf. */
  lemma KeepUnwanted(body: seq<Event>, p: Path, wanted: seq<Path>)
    requires p !in wanted
    ensures Keep(PathsOf(Settle(p, body)), wanted) == Keep(PathsOf(body), wanted)
  {
    PathsConcat(body, [Event(p, false)]);
    assert PathsOf([Event(p, false)]) == [p];
    KeepConcat(PathsOf(body), [p], wanted);
    assert Keep([p], wanted) == [];
  }

  lemma {:induction false} KeepKids(sec: Section, p: Path, j: nat)
    requires DistinctNames(sec) && j <= |sec.kids| && forall kid :: kid in sec.kids ==> Reaches(kid)
    ensures Keep(PathsOf(SchedKids(sec, p, j)), LeavesKids(sec, p, 0)) == LeavesKids(sec, p, j)
    decreases sec, |sec.kids| - j
  {
    if j < |sec.kids| {
      var own, rest := Sched(sec.kids[j], KidPath(sec, p, j)), SchedKids(sec, p, j + 1);
      KeepSched(sec.kids[j], KidPath(sec, p, j));
      KeepOwn(sec, p, j);
      KeepKids(sec, p, j + 1);
      PathsConcat(own, rest);
      KeepConcat(PathsOf(own), PathsOf(rest), LeavesKids(sec, p, 0));
    }
  }

  // ----- a leaf is missed when it does not

  /** A section that gets to its end more than once loses a leaf when it throws there. */
  lemma {:induction false} CutLosesLeaf(sec: Section, p: Path) returns (q: Path)
    requires DistinctNames(sec) && !EndsOnce(sec)
    ensures sec.kids != [] && q in Leaves(sec, p)
    ensures forall e :: e in CutAtNormal(Settle(p, SchedKids(sec, p, 0))) ==> e.path != q
    decreases sec, |sec.kids| + 1
  {
    var body := SchedKids(sec, p, 0);
    q := CutLosesLeafFrom(sec, p, 0, Settle(p, body)[|body|..]);
    assert Settle(p, body) == body + Settle(p, body)[|body|..];
  }

  lemma {:induction false} CutLosesLeafFrom(sec: Section, p: Path, j: nat, end: seq<Event>) returns (q: Path)
    requires DistinctNames(sec) && j < |sec.kids|
    requires (exists i :: j <= i < |sec.kids| - 1 && !sec.kids[i].throws) ||
             var last := sec.kids[|sec.kids| - 1]; !last.throws && !EndsOnce(last)
    ensures q in LeavesKids(sec, p, j)
    ensures forall e :: e in CutAtNormal(SchedKids(sec, p, j) + end) ==> e.path != q
    decreases sec, |sec.kids| - j
  {
    var kid, k, n := sec.kids[j], KidPath(sec, p, j), |sec.kids| - 1;
    var own, rest := Sched(kid, k), SchedKids(sec, p, j + 1) + end;
    SchedEnds(kid, k);
    CutConcat(own, rest);
    assert SchedKids(sec, p, j) + end == own + rest;
    if j == n {
      q := CutLosesLeaf(kid, k);
      KidLeaf(sec, p, j, j, q);
    } else if kid.throws {
      q := CutLosesLeafFrom(sec, p, j + 1, end);
      var i := LeafKid(sec, p, j + 1, q);
      NotOwn(sec, p, j, i, q);
      KidLeaf(sec, p, j, i, q);
    } else {
      LeavesNonempty(sec.kids[n], KidPath(sec, p, n));
      q := Leaves(sec.kids[n], KidPath(sec, p, n))[0];
      LeavesBelow(sec.kids[n], KidPath(sec, p, n), q);
      KidLeaf(sec, p, j, n, q);
      NotOwn(sec, p, j, n, q);
      forall e | e in CutAtNormal(own) ensures e.path != q {
        CutKeepsPaths(own, e);
      }
    }
  }

  /** A leaf of section `i` is not entered by the schedule of section `j`. */
  lemma NotOwn(sec: Section, p: Path, j: nat, i: nat, q: Path)
    requires DistinctNames(sec) && j < |sec.kids| && i < |sec.kids| && i != j
    requires KidPath(sec, p, i) <= q
    ensures forall e :: e in Sched(sec.kids[j], KidPath(sec, p, j)) ==> e.path != q
  {
    forall e | e in Sched(sec.kids[j], KidPath(sec, p, j)) ensures e.path != q {
      SchedBelow(sec.kids[j], KidPath(sec, p, j), e);
      KidsApart(p, sec, j, i, e.path);
    }
  }

  lemma {:induction false} LosesLeaf(sec: Section, p: Path) returns (q: Path)
    requires DistinctNames(sec) && !Reaches(sec)
    ensures q in Leaves(sec, p)
    ensures forall e :: e in Sched(sec, p) ==> e.path != q
    decreases sec
  {
    if i: nat :| i < |sec.kids| && !Reaches(sec.kids[i]) {
      q := LosesLeaf(sec.kids[i], KidPath(sec, p, i));
      LostBelow(sec, p, i, q);
      forall e | e in Sched(sec, p) ensures e.path != q {
        FinishKeepsPaths(sec.throws, p, SchedKids(sec, p, 0), e);
      }
    } else {
      q := CutLosesLeaf(sec, p);
    }
  }

  lemma LostBelow(sec: Section, p: Path, i: nat, q: Path)
    requires DistinctNames(sec) && i < |sec.kids|
    requires q in Leaves(sec.kids[i], KidPath(sec, p, i))
    requires forall e :: e in Sched(sec.kids[i], KidPath(sec, p, i)) ==> e.path != q
    ensures q in Leaves(sec, p) && q != p
    ensures forall e :: e in SchedKids(sec, p, 0) ==> e.path != q
  {
    LeavesBelow(sec.kids[i], KidPath(sec, p, i), q);
    KidLeaf(sec, p, 0, i, q);
    forall e | e in SchedKids(sec, p, 0) ensures e.path != q {
      var j := EventKid(sec, p, 0, e);
      if j != i { KidsApart(p, sec, j, i, e.path); }
    }
  }

  // ----- from the cycles to the sections entered

  lemma {:induction false} KeepChain(n: nat, path: Path, wanted: seq<Path>)
    requires n < |path| && forall q :: q in wanted ==> !(q < path)
    ensures Keep(Chain(n, path), wanted) == if path in wanted then [path] else []
    decreases |path| - n
  {
    if n + 1 == |path| {
      assert path[..n + 1] == path;
      assert Chain(n + 1, path) == [];
    } else {
      KeepChain(n + 1, path, wanted);
      assert path[..n + 1] < path;
      assert (Chain(n, path))[1..] == Chain(n + 1, path);
    }
  }

  lemma {:induction false} KeepEntered(events: seq<Event>, wanted: seq<Path>)
    requires forall e, q :: e in events && q in wanted ==> !(q < e.path)
    requires forall e :: e in events ==> e.path != []
    ensures Keep(Entered(events), wanted) == Keep(PathsOf(events), wanted)
  {
    if events != [] {
      assert events[0] in events;
      KeepChain(0, events[0].path, wanted);
      KeepEntered(events[1..], wanted);
      KeepConcat(Chain(0, events[0].path), Entered(events[1..]), wanted);
    }
  }

  lemma {:induction false} KeepIn(paths: seq<Path>, wanted: seq<Path>, q: Path)
    ensures q in Keep(paths, wanted) <==> q in paths && q in wanted
  {
    if paths != [] {
      KeepIn(paths[1..], wanted, q);
      assert paths == [paths[0]] + paths[1..];
    }
  }

  /** The test case is a section whose end does not fail it, whether or not it throws. */
  function AsReturning(test: Section): Section {
    test.(throws := false)
  }

  lemma KeepTest(test: Section)
    requires DistinctNames(test)
    ensures var p := TestPath(test);
      Keep(Entered(TestSchedule(test)), Leaves(test, p)) == Keep(PathsOf(TestSchedule(test)), Leaves(test, p))
  {
    var p, t := TestPath(test), AsReturning(test);
    SameKids(test, p, 0);
    forall e, q | e in TestSchedule(test) && q in Leaves(test, p) ensures !(q < e.path) && e.path != [] {
      LeafIsInnermost(t, p, e, q);
      SchedBelow(t, p, e);
    }
    forall e | e in TestSchedule(test) ensures e.path != [] {
      SchedBelow(t, p, e);
    }
    KeepEntered(TestSchedule(test), Leaves(test, p));
  }

  lemma {:induction false} SameKids(test: Section, p: Path, j: nat)
    requires j <= |test.kids|
    ensures SchedKids(AsReturning(test), p, j) == SchedKids(test, p, j)
    ensures LeavesKids(AsReturning(test), p, j) == LeavesKids(test, p, j)
    decreases |test.kids| - j
  {
    if j < |test.kids| { SameKids(test, p, j + 1); }
  }

  /** The run enters every leaf section exactly once, in the order of the body, if and only
      if no section that has sections throws at an end it gets to more than once. */
  lemma EachLeafOnce(test: Section)
    requires DistinctNames(test)
    ensures var leaves := Leaves(test, TestPath(test));
      Keep(Whole(test).entered, leaves) == leaves <==>
      forall kid :: kid in test.kids ==> Reaches(kid)
  {
    var p, t := TestPath(test), AsReturning(test);
    WholeRun(test);
    KeepTest(test);
    SameKids(test, p, 0);
    if forall kid :: kid in test.kids ==> Reaches(kid) {
      KeepSettled(test, p);
    } else {
      var q := LosesLeaf(t, p);
      KeepIn(PathsOf(TestSchedule(test)), Leaves(test, p), q);
      PathsIn(TestSchedule(test), q);
    }
  }

  /** In particular when only leaf sections throw. */
  lemma EachLeafOnceWhenLeavesThrow(test: Section)
    requires DistinctNames(test) && forall kid :: kid in test.kids ==> OnlyLeavesThrow(kid)
    ensures var leaves := Leaves(test, TestPath(test));
      Keep(Whole(test).entered, leaves) == leaves
  {
    forall kid | kid in test.kids ensures Reaches(kid) {
      OnlyLeavesReach(kid);
    }
    EachLeafOnce(test);
  }

  /** The leaves are all different. */
  lemma {:induction false} LeavesDiffer(sec: Section, p: Path, i: nat, j: nat)
    requires DistinctNames(sec) && i < j < |Leaves(sec, p)|
    ensures Leaves(sec, p)[i] != Leaves(sec, p)[j]
    decreases sec, |sec.kids| + 1
  {
    LeavesDifferKids(sec, p, 0, i, j);
  }

  lemma {:induction false} LeavesDifferKids(sec: Section, p: Path, m: nat, i: nat, j: nat)
    requires DistinctNames(sec) && m <= |sec.kids| && i < j < |LeavesKids(sec, p, m)|
    ensures LeavesKids(sec, p, m)[i] != LeavesKids(sec, p, m)[j]
    decreases sec, |sec.kids| - m
  {
    var own, rest := Leaves(sec.kids[m], KidPath(sec, p, m)), LeavesKids(sec, p, m + 1);
    var n := |own|;
    if j < n {
      LeavesDiffer(sec.kids[m], KidPath(sec, p, m), i, j);
    } else if i >= n {
      LeavesDifferKids(sec, p, m + 1, i - n, j - n);
    } else {
      LeavesBelow(sec.kids[m], KidPath(sec, p, m), own[i]);
      assert rest[j - n] in rest;
      var k := LeafKid(sec, p, m + 1, rest[j - n]);
      KidsApart(p, sec, k, m, rest[j - n]);
    }
  }

  /** The condition is needed: a section that throws after entering its first section never
      enters its second. */
  lemma ThrowingSectionLosesLeaf(t: NameAndLocation, a: NameAndLocation, b: NameAndLocation, c: NameAndLocation)
    requires b != c
    ensures var test := Section(t, [Section(a, [Section(b, [], false), Section(c, [], false)], true)], false);
      DistinctNames(test) && [t, a, c] !in Whole(test).entered
  {
    hide DistinctNames, SchedKids, Sched, Settle, Entered, Whole, Sound;
    var kb, kc := Section(b, [], false), Section(c, [], false);
    var ka := Section(a, [kb, kc], true);
    var test := Section(t, [ka], false);
    ThrowingSectionNames(test, ka, kb, kc);
    WholeRun(test);
    ThrowingSectionEvents(ka, [t, a], kb, kc);
    assert [t] + [a] == [t, a];
    ThrowingTestEvents(test, [t], ka, Event([t, a] + [b], true));
    EnteredIn(TestSchedule(test), [t, a, c]);
    assert ([t, a] + [b])[2] == b && [t, a, c][2] == c;
  }

  lemma ThrowingSectionNames(test: Section, ka: Section, kb: Section, kc: Section)
    requires test.kids == [ka] && ka.kids == [kb, kc] && kb.kids == kc.kids == [] && kb.name != kc.name
    ensures DistinctNames(test)
  {
    assert DistinctNames(kb) && DistinctNames(kc) && DistinctNames(ka);
  }

  lemma ThrowingTestEvents(test: Section, p: Path, ka: Section, e: Event)
    requires test.kids == [ka] && Sched(ka, p + [ka.name]) == [e] && e.threw
    ensures Settle(p, SchedKids(test, p, 0)) == [e, Event(p, false)]
  {
    hide Sched;
    assert SchedKids(test, p, 1) == [];
    assert SchedKids(test, p, 0) == [e];
  }

  /** A section entered lies on the way to the end of some cycle. */
  lemma {:induction false} EnteredIn(events: seq<Event>, q: Path)
    ensures q in Entered(events) ==> exists e :: e in events && q <= e.path
  {
    if events != [] {
      if q in Chain(0, events[0].path) {
        InChain(0, events[0].path, q);
        assert events[0] in events;
      } else {
        EnteredIn(events[1..], q);
        assert events == [events[0]] + events[1..];
      }
    }
  }

  lemma ThrowingSectionEvents(ka: Section, p: Path, kb: Section, kc: Section)
    requires ka.kids == [kb, kc] && ka.throws && kb == Section(kb.name, [], false) && kc == Section(kc.name, [], false)
    ensures Sched(ka, p) == [Event(p + [kb.name], true)]
  {
    var b, c := p + [kb.name], p + [kc.name];
    assert Sched(kb, b) == [Event(b, false)] && Sched(kc, c) == [Event(c, false)];
    assert SchedKids(ka, p, 2) == [];
    assert SchedKids(ka, p, 1) == [Event(c, false)];
    assert SchedKids(ka, p, 0) == [Event(b, false), Event(c, false)];
  }

  lemma {:induction false} InChain(n: nat, path: Path, q: Path)
    requires q in Chain(n, path)
    ensures q <= path
    decreases |path| - n
  {
    if q != path[..n + 1] { InChain(n + 1, path, q); }
  }
}

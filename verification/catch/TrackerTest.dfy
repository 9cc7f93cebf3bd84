/** The loop of RunContext::runTest: every cycle takes one event, until none is left. */
module TrackerTest {
  import opened TrackerModel
  import opened TrackerSchedule
  import opened TrackerRuns

  function TestPath(test: Section): Path { [test.name] }

  /** The schedule of a whole test: a throwing test case body does not fail its tracker. */
  function TestSchedule(test: Section): seq<Event> {
    Settle(TestPath(test), SchedKids(test, TestPath(test), 0))
  }

  ghost function TestLeft(nodes: Nodes, test: Section): seq<Event> {
    if Done(nodes, TestPath(test)) then []
    else Settle(TestPath(test), RemKids(nodes, TestPath(test), test, 0))
  }

  /** The sections entered by a sequence of cycles. */
  function Entered(events: seq<Event>): seq<Path> {
    if events == [] then [] else Chain(0, events[0].path) + Entered(events[1..])
  }

  /** What holds between two cycles. */
  ghost predicate Between(w: World, test: Section) {
    Sound(w) && DistinctNames(test) && w.active == [] && w.unfinished == 0 && !w.illogical &&
    (w.nodes[[]].kids == [] || w.nodes[[]].kids == [test.name]) &&
    (w.nodes[[]].state == NotStarted || w.nodes[[]].state == ExecutingChildren) &&
    Shape(w.nodes, TestPath(test), test) &&
    (Done(w.nodes, TestPath(test)) ==> w.nodes[TestPath(test)].state == CompletedSuccessfully)
  }

  lemma StartBetween(test: Section)
    requires DistinctNames(test)
    ensures Between(Start, test) && !Done(Start.nodes, TestPath(test))
    ensures TestLeft(Start.nodes, test) == TestSchedule(test)
  {
    var p := TestPath(test);
    assert Fresh(Start.nodes, p);
    FreshShape(Start.nodes, p, test);
    forall i | 0 <= i < |test.kids| ensures Fresh(Start.nodes, KidPath(test, p, i)) {
      FreshBelow(Start.nodes, p, test.kids[i].name);
    }
    FreshRemKids(Start.nodes, p, test, 0);
  }

  /** The root's only child is the test case, found or added. */
  lemma TestFound(nodes: Nodes, name: NameAndLocation)
    requires Tree(nodes) && (nodes[[]].kids == [] || nodes[[]].kids == [name])
    ensures var p, found := [name], FindOrAdd(nodes, [], name);
      p in found && [] in found && found[[]] == Info(nodes[[]].state, [name]) &&
      found[p] == (if p in nodes then nodes[p] else Info(NotStarted, [])) &&
      forall o :: o != [] && o != p ==>
        (o in nodes <==> o in found) && (o in nodes && o in found ==> nodes[o] == found[o])
  {
    var p := [name];
    assert [] + [name] == p && Parent(p) == [];
    if nodes[[]].kids == [name] {
      assert name in nodes[[]].kids;
    } else {
      assert p !in nodes;
      assert FindOrAdd(nodes, [], name) == AddChild(nodes, [], name);
    }
  }

  /** It is opened, and the root marked. */
  lemma TestOpenSteps(w: World, name: NameAndLocation)
    requires Sound(w) && (w.nodes[[]].kids == [] || w.nodes[[]].kids == [name])
    requires !Done(w.nodes, [name])
    ensures [name] in FindOrAdd(w.nodes, [], name) && [] in FindOrAdd(w.nodes, [], name)
    ensures Acquire(w.(current := [], completed := false), name) ==
      w.(nodes := SetState(SetState(FindOrAdd(w.nodes, [], name), [name], Executing), [], ExecutingChildren),
         current := [name], completed := false)
  {
    hide FindOrAdd, Tree;
    var p := [name];
    TestFound(w.nodes, name);
    assert [] + [name] == p && Parent(p) == [];
    var begun := SetState(FindOrAdd(w.nodes, [], name), p, Executing);
    assert OpenChild(begun, []) == SetState(begun, [], ExecutingChildren);
  }

  lemma TestOpened(w: World, test: Section)
    requires Between(w, test) && !Done(w.nodes, TestPath(test))
    ensures var p := TestPath(test);
      var w1 := Acquire(w.(current := [], completed := false), test.name);
      Ready(w1, p, test) && w1.active == [] && w1.entered == w.entered && !w1.illogical &&
      [] in w1.nodes && w1.nodes[[]] == Info(ExecutingChildren, [test.name]) &&
      RemKids(w1.nodes, p, test, 0) == RemKids(w.nodes, p, test, 0)
  {
    hide Tree, FindOrAdd, Acquire, Shape, DistinctNames, RemKids, KidsArePrefix, OpenChild;
    var p := TestPath(test);
    TestOpenSteps(w, test.name);
    TestFound(w.nodes, test.name);
    var w1 := Acquire(w.(current := [], completed := false), test.name);
    assert Parent(p) == [];
    TestShape(w.nodes, w1.nodes, test);
  }

  lemma TestShape(a: Nodes, b: Nodes, test: Section)
    requires Shape(a, TestPath(test), test) && TestPath(test) in b
    requires b[TestPath(test)].kids == if TestPath(test) in a then a[TestPath(test)].kids else []
    requires forall o :: o != [] && o != TestPath(test) ==>
      (o in a <==> o in b) && (o in a && o in b ==> a[o] == b[o])
    ensures Shape(b, TestPath(test), test)
    ensures RemKids(b, TestPath(test), test, 0) == RemKids(a, TestPath(test), test, 0)
  {
    hide DistinctNames, Frontier;
    var p := TestPath(test);
    assert KidsArePrefix(a, p, test);
    forall i | 0 <= i < |test.kids| ensures Agree(a, b, KidPath(test, p, i)) {
    }
    AgreeRemKids(a, b, p, test, 0);
    ShapeReopened(a, b, p, test);
  }

  lemma {:induction false} NothingUnfinished(w: World, n: nat)
    requires Sound(w) && w.active == []
    ensures HandleUnfinished(w, n) == w.(unfinished := 0)
    decreases n
  {
    if n > 0 { NothingUnfinished(w, n - 1); }
  }

  /** One pass of the loop. */
  lemma CycleCorrect(w: World, test: Section)
    requires Between(w, test) && !Done(w.nodes, TestPath(test))
    ensures var r, left := RunCycle(w, test), TestLeft(w.nodes, test);
      Between(r, test) && left != [] && TestLeft(r.nodes, test) == left[1..] &&
      r.entered == w.entered + Chain(0, left[0].path)
  {
    hide Tree, Shape, DistinctNames, Chain, RunBody, Close, HandleUnfinished, Acquire, RemKids, Settle;
    var p := TestPath(test);
    TestOpened(w, test);
    var w1 := Acquire(w.(current := [], completed := false), test.name);
    var w2 := w1.(entered := w1.entered + [p]);
    assert Ready(w2, p, test);
    var body := RemKids(w2.nodes, p, test, 0);
    if body == [] {
      IdleBody(w2, p, test);
    } else {
      BodyCorrect(w2, p, test);
    }
    TestSettles(w, w2, RunBody(w2, test, 0).0, RunBody(w2, test, 0).1, test);
  }

  /** The test case's body has run. */
  ghost predicate TestRan(w2: World, ran: World, threw: bool, test: Section) {
    var p := TestPath(test);
    Ready(w2, p, test) && w2.active == [] && !w2.illogical && Sound(ran) &&
    [] in w2.nodes && w2.nodes[[]] == Info(ExecutingChildren, [test.name]) &&
    if RemKids(w2.nodes, p, test, 0) == [] then ran == w2 else Advanced(w2, ran, threw, p, test)
  }

  /** Closing the test case after its body. */
  lemma TestCloses(w2: World, ran: World, threw: bool, test: Section)
    requires TestRan(w2, ran, threw, test)
    ensures var p := TestPath(test);
      var r := Close(ran, p);
      var body := RemKids(w2.nodes, p, test, 0);
      Sound(r) && r.active == [] && !r.illogical && Restated(ran.nodes, r.nodes, p) &&
      r.nodes[[]] == Info(ExecutingChildren, [test.name]) && r.entered == ran.entered &&
      (Done(r.nodes, p) <==> body == [] || (!body[0].threw && body[1..] == [])) &&
      (Done(r.nodes, p) ==> r.nodes[p].state == CompletedSuccessfully)
  {
    hide Tree, Shape, DistinctNames, Chain, RemKids, Close;
    var p := TestPath(test);
    assert Parent(p) == [];
    CloseSteps(ran, p);
  }

  lemma TestSettles(w: World, w2: World, ran: World, threw: bool, test: Section)
    requires Between(w, test) && !Done(w.nodes, TestPath(test))
    requires TestRan(w2, ran, threw, test) && w2.entered == w.entered + [TestPath(test)]
    requires RemKids(w2.nodes, TestPath(test), test, 0) == RemKids(w.nodes, TestPath(test), test, 0)
    ensures var p := TestPath(test);
      var closed := Close(ran, p);
      var r, left := HandleUnfinished(closed, closed.unfinished), TestLeft(w.nodes, test);
      Between(r, test) && left != [] && TestLeft(r.nodes, test) == left[1..] &&
      r.entered == w.entered + Chain(0, left[0].path)
  {
    hide Tree, Shape, DistinctNames, Close, RemKids, HandleUnfinished, KidsArePrefix;
    var p := TestPath(test);
    TestCloses(w2, ran, threw, test);
    var closed := Close(ran, p);
    NothingUnfinished(closed, closed.unfinished);
    RestatedBelow(ran.nodes, closed.nodes, p, test);
    TestTookFirst(w.nodes, RemKids(w.nodes, p, test, 0), p, test);
  }

  lemma TestTookFirst(nodes: Nodes, body: seq<Event>, p: Path, test: Section)
    requires p == TestPath(test) && body == RemKids(nodes, p, test, 0)
    ensures var left := Settle(p, body);
      left != [] &&
      (body == [] ==> left[1..] == [] && Chain(0, left[0].path) == [p]) &&
      (body != [] ==>
        left[1..] == (if !body[0].threw && body[1..] == [] then [] else Settle(p, body[1..])) &&
        Chain(0, left[0].path) == [p] + Chain(1, body[0].path))
  {
    if body == [] {
      assert Chain(0, p) == [p] by { assert p[..1] == p; }
    } else {
      FinishSteps(false, p, body, !body[0].threw && body[1..] == []);
      EntersBelow(nodes, p, test, body[0]);
    }
  }

  /** The loop itself. */
  function RunTest(w: World, test: Section): (r: World)
    requires Between(w, test) && !Done(w.nodes, TestPath(test))
    ensures Sound(r)
    decreases |TestLeft(w.nodes, test)|
  {
    CycleCorrect(w, test);
    var r := RunCycle(w, test);
    if TestPath(test) in r.nodes && r.nodes[TestPath(test)].state == CompletedSuccessfully then r
    else RunTest(r, test)
  }

  /** The whole run of a test. */
  function Whole(test: Section): (r: World)
    requires DistinctNames(test)
    ensures Sound(r)
  {
    StartBetween(test);
    RunTest(Start, test)
  }

  /** The loop has not stopped yet, and will end as the whole run does. */
  ghost predicate Going(w: World, test: Section) {
    Between(w, test) && !Done(w.nodes, TestPath(test)) && RunTest(w, test) == Whole(test)
  }

  lemma StartGoing(test: Section)
    requires DistinctNames(test)
    ensures Going(Start, test)
  {
    StartBetween(test);
  }

  /** The loop stops when the test case's tracker has completed. */
  lemma RunSteps(w: World, test: Section)
    requires DistinctNames(test) && Going(w, test)
    ensures var r, p := RunCycle(w, test), TestPath(test);
      |TestLeft(r.nodes, test)| < |TestLeft(w.nodes, test)| &&
      if p in r.nodes && r.nodes[p].state == CompletedSuccessfully then r == Whole(test)
      else Going(r, test)
  {
    CycleCorrect(w, test);
  }

  lemma {:induction false} RunTakesAll(w: World, test: Section)
    requires Between(w, test) && !Done(w.nodes, TestPath(test))
    ensures var r := RunTest(w, test);
      Between(r, test) && Done(r.nodes, TestPath(test)) &&
      r.entered == w.entered + Entered(TestLeft(w.nodes, test))
    decreases |TestLeft(w.nodes, test)|
  {
    hide Shape, Tree, RunCycle, DistinctNames, Chain, RemKids, Sound;
    CycleCorrect(w, test);
    var r := RunCycle(w, test);
    var left := TestLeft(w.nodes, test);
    if Done(r.nodes, TestPath(test)) {
      assert Entered(left) == Chain(0, left[0].path) + Entered([]);
    } else {
      RunTakesAll(r, test);
    }
  }

  /** From the start of a run the loop ends with the test complete and no logic error, and
      enters exactly the sections of the test's schedule, in its order. */
  lemma WholeRun(test: Section)
    requires DistinctNames(test)
    ensures var r := Whole(test);
      r.entered == Entered(TestSchedule(test)) && !r.illogical && Sound(r) &&
      TestPath(test) in r.nodes && r.nodes[TestPath(test)].state == CompletedSuccessfully
  {
    StartBetween(test);
    RunTakesAll(Start, test);
  }
}

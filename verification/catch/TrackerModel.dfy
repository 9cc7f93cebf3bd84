/**
 The section tracker of the Catch test runner as a machine on values.

 A tracker is named by its path, the names from the test case down to it; the root
 tracker has the empty path.  Every function below is one member of `TrackerBase`,
 `SectionTracker`, `TrackerContext` or `RunContext`; the classes of `TrackerObjects`
 are proved to take exactly these steps.
 */
module TrackerModel {

  datatype NameAndLocation = NameAndLocation(name: string, file: string, line: nat)

  type Path = seq<NameAndLocation>

  datatype CycleState =
    | NotStarted | Executing | ExecutingChildren
    | NeedsAnotherRun | CompletedSuccessfully | Failed
  {
    predicate IsComplete() { this == CompletedSuccessfully || this == Failed }
    predicate IsOpen() { this != NotStarted && !IsComplete() }
  }

  /** What a test body does: enter its sections in order, then return or throw.  A throw
      ends a body, so the sections after it can never be entered and are not written down. */
  datatype Section = Section(name: NameAndLocation, kids: seq<Section>, throws: bool)

  ghost predicate DistinctNames(sec: Section) {
    (forall i, j :: 0 <= i < j < |sec.kids| ==> sec.kids[i].name != sec.kids[j].name) &&
    forall k :: k in sec.kids ==> DistinctNames(k)
  }

  datatype Info = Info(state: CycleState, kids: seq<NameAndLocation>)

  type Nodes = map<Path, Info>

  /** Everything the run keeps between two steps: the tracker tree, the current tracker,
      whether the cycle is completed, the stack of active sections, how many sections ended
      early, the sections entered so far, and whether a logic error was ever raised. */
  datatype World = World(
    nodes: Nodes,
    current: Path,
    completed: bool,
    active: seq<Path>,
    unfinished: nat,
    entered: seq<Path>,
    illogical: bool)

  function Parent(p: Path): Path
    requires p != []
  {
    p[..|p| - 1]
  }

  /** Parents and children agree: a tracker other than the root is listed by its parent. */
  ghost predicate Tree(nodes: Nodes) {
    [] in nodes &&
    (forall p {:trigger Parent(p)} :: p in nodes && p != [] ==>
      Parent(p) in nodes && p[|p| - 1] in nodes[Parent(p)].kids) &&
    forall p, name {:trigger p + [name]} :: p in nodes && name in nodes[p].kids ==> p + [name] in nodes
  }

  ghost predicate Sound(w: World) {
    Tree(w.nodes) && w.current in w.nodes &&
    forall q :: q in w.active ==> q in w.nodes && q != []
  }

  function SetState(nodes: Nodes, p: Path, s: CycleState): (r: Nodes)
    requires p in nodes
    ensures r.Keys == nodes.Keys
    ensures forall q :: q in nodes ==> r[q].kids == nodes[q].kids
    ensures Tree(nodes) ==> Tree(r)
  {
    nodes[p := nodes[p].(state := s)]
  }

  /** TrackerBase::openChild: mark the tracker and, when the mark is new, its parents. */
  function OpenChild(nodes: Nodes, p: Path): (r: Nodes)
    requires Tree(nodes) && p in nodes
    ensures Tree(r) && r.Keys == nodes.Keys
    decreases |p|
  {
    if nodes[p].state == ExecutingChildren then nodes
    else
      var marked := SetState(nodes, p, ExecutingChildren);
      if p == [] then marked else OpenChild(marked, Parent(p))
  }

  /** A tracker on the way from `p` up to just below `q` has the mark already. */
  ghost predicate MarkBelow(nodes: Nodes, q: Path, p: Path) {
    exists i :: |q| < i <= |p| && p[..i] in nodes && nodes[p[..i]].state == ExecutingChildren
  }

  /** The trackers marked are those from `p` upwards as far as the first that has the mark; no other changes. */
  lemma {:induction false} OpenChildMarks(nodes: Nodes, p: Path, q: Path)
    requires Tree(nodes) && p in nodes && q in nodes
    ensures OpenChild(nodes, p)[q] ==
      if q <= p && !MarkBelow(nodes, q, p) then nodes[q].(state := ExecutingChildren) else nodes[q]
    decreases |p|
  {
    assert p[..|p|] == p;
    if nodes[p].state != ExecutingChildren && p != [] {
      OpenChildMarks(SetState(nodes, p, ExecutingChildren), Parent(p), q);
      MarkAbove(nodes, q, p);
    } else if q <= p {
      assert p[..|q|] == q;
      assert p != [] ==> nodes[p[..|p|]].state == ExecutingChildren;
    }
  }

  lemma MarkAbove(nodes: Nodes, q: Path, p: Path)
    requires p in nodes && p != [] && nodes[p].state != ExecutingChildren
    ensures q != p ==> (q <= p <==> q <= Parent(p))
    ensures MarkBelow(nodes, q, p) <==> MarkBelow(SetState(nodes, p, ExecutingChildren), q, Parent(p))
  {
    var up, marked := Parent(p), SetState(nodes, p, ExecutingChildren);
    assert p[..|p|] == p;
    if q <= p && q != p { assert q == p[..|q|] == up[..|q|]; }
    forall i | 0 <= i < |p| ensures p[..i] == up[..i] && p[..i] != p {
    }
    if MarkBelow(nodes, q, p) {
      var i :| |q| < i <= |p| && p[..i] in nodes && nodes[p[..i]].state == ExecutingChildren;
      assert up[..i] in marked && marked[up[..i]].state == ExecutingChildren;
    }
    if MarkBelow(marked, q, up) {
      var i :| |q| < i <= |up| && up[..i] in marked && marked[up[..i]].state == ExecutingChildren;
      assert p[..i] in nodes && nodes[p[..i]].state == ExecutingChildren;
    }
  }

  /** TrackerBase::open. */
  function Open(w: World, p: Path): (r: World)
    requires Sound(w) && p in w.nodes
    ensures Sound(r) && r.nodes.Keys == w.nodes.Keys
  {
    var nodes := SetState(w.nodes, p, Executing);
    w.(nodes := if p == [] then nodes else OpenChild(nodes, Parent(p)), current := p)
  }

  /** A new tracker at the end of its parent's children. */
  function AddChild(nodes: Nodes, parent: Path, name: NameAndLocation): Nodes
    requires parent in nodes
  {
    nodes[parent := nodes[parent].(kids := nodes[parent].kids + [name])]
         [parent + [name] := Info(NotStarted, [])]
  }

  lemma AddKeepsTree(nodes: Nodes, parent: Path, name: NameAndLocation)
    requires Tree(nodes) && parent in nodes && name !in nodes[parent].kids
    ensures Tree(AddChild(nodes, parent, name))
  {
    var p := parent + [name];
    var r := AddChild(nodes, parent, name);
    assert Parent(p) == parent;
    assert p !in nodes;
    forall q | q in r && q != []
      ensures Parent(q) in r && q[|q| - 1] in r[Parent(q)].kids
    {
    }
    forall q, n | q in r && n in r[q].kids
      ensures q + [n] in r
    {
      if q != parent { assert q != p; }
    }
  }

  /** TrackerBase::findChild and addChild, as `acquire` uses them. */
  function FindOrAdd(nodes: Nodes, parent: Path, name: NameAndLocation): (r: Nodes)
    requires Tree(nodes) && parent in nodes
    ensures Tree(r) && r.Keys == nodes.Keys + {parent + [name]}
  {
    if name in nodes[parent].kids then nodes
    else
      AddKeepsTree(nodes, parent, name);
      AddChild(nodes, parent, name)
  }

  /** SectionTracker::acquire (no section filters): find or add the child of the current
      tracker and, unless the cycle is over or the child complete, open it. */
  function Acquire(w: World, name: NameAndLocation): (r: World)
    requires Sound(w)
    ensures Sound(r) && r.nodes.Keys == w.nodes.Keys + {w.current + [name]}
  {
    var p := w.current + [name];
    var found := w.(nodes := FindOrAdd(w.nodes, w.current, name));
    if !w.completed && !found.nodes[p].state.IsComplete() then Open(found, p) else found
  }

  /** TrackerBase::close once the tracker is the current one.  Closing a tracker in a state
      that `close` does not expect, or the root, raises a logic error. */
  function CloseCurrent(w: World): (r: World)
    requires Sound(w)
    ensures Sound(r) && r.nodes.Keys == w.nodes.Keys
    ensures r.active == w.active && r.unfinished == w.unfinished
    ensures r.current == if w.current == [] then [] else Parent(w.current)
  {
    var p := w.current;
    var info := w.nodes[p];
    if p == [] then w.(illogical := true)
    else if info.state.IsComplete() || info.state == NotStarted then
      w.(illogical := true, current := Parent(p))
    else
      var finished := info.state == Executing
                      || (info.state == ExecutingChildren
                          && (info.kids == [] || w.nodes[p + [info.kids[|info.kids| - 1]]].state.IsComplete()));
      w.(nodes := if finished then SetState(w.nodes, p, CompletedSuccessfully) else w.nodes,
         current := Parent(p),
         completed := true)
  }

  /** TrackerBase::close: first close whatever is still open below. */
  function Close(w: World, p: Path): (r: World)
    requires Sound(w)
    ensures Sound(r) && r.nodes.Keys == w.nodes.Keys && r.active == w.active && r.unfinished == w.unfinished
    decreases |w.current|
  {
    if w.current == p || w.current == [] then CloseCurrent(w) else Close(CloseCurrent(w), p)
  }

  /** TrackerBase::fail. */
  function Fail(w: World, p: Path): (r: World)
    requires Sound(w) && p in w.nodes && p != []
    ensures Sound(r) && r.nodes.Keys == w.nodes.Keys && r.active == w.active && r.unfinished == w.unfinished
  {
    w.(nodes := SetState(SetState(w.nodes, p, Failed), Parent(p), NeedsAnotherRun),
       current := Parent(p),
       completed := true)
  }

  /** RunContext::sectionStarted; the answer says whether the section's body is to run. */
  function SectionStarted(w: World, name: NameAndLocation): (r: (World, bool))
    requires Sound(w)
    ensures Sound(r.0) && r.0.nodes.Keys == w.nodes.Keys + {w.current + [name]}
    ensures r.0.active == if r.1 then w.active + [w.current + [name]] else w.active
  {
    var p := w.current + [name];
    var acquired := Acquire(w, name);
    if !acquired.nodes[p].state.IsOpen() then (acquired, false)
    else (acquired.(active := acquired.active + [p], entered := acquired.entered + [p]), true)
  }

  /** RunContext::sectionEnded. */
  function SectionEnded(w: World): (r: World)
    requires Sound(w)
    ensures Sound(r) && r.nodes.Keys == w.nodes.Keys
    ensures r.active == if w.active == [] then [] else w.active[..|w.active| - 1]
  {
    if w.active == [] then w
    else Close(w, w.active[|w.active| - 1]).(active := w.active[..|w.active| - 1])
  }

  /** RunContext::sectionEndedEarly: only the innermost section of an unwinding fails. */
  function SectionEndedEarly(w: World): (r: World)
    requires Sound(w) && w.active != []
    ensures Sound(r) && r.nodes.Keys == w.nodes.Keys
    ensures r.active == w.active[..|w.active| - 1]
  {
    var p := w.active[|w.active| - 1];
    var ended := if w.unfinished == 0 then Fail(w, p) else Close(w, p);
    ended.(active := w.active[..|w.active| - 1], unfinished := w.unfinished + 1)
  }

  /** One `SECTION` block, from the construction of its guard object to its destruction;
      the answer says whether the block is left by an exception. */
  function RunSection(w: World, sec: Section): (r: (World, bool))
    requires Sound(w)
    ensures Sound(r.0) && w.nodes.Keys <= r.0.nodes.Keys && r.0.active == w.active
    decreases sec, |sec.kids| + 1
  {
    var (started, included) := SectionStarted(w, sec.name);
    if !included then (started, false)
    else
      var (ran, threw) := RunBody(started, sec, 0);
      (if threw then SectionEndedEarly(ran) else SectionEnded(ran), threw)
  }

  /** The body of `sec` from its section number `j` on, run by the current tracker. */
  function RunBody(w: World, sec: Section, j: nat): (r: (World, bool))
    requires Sound(w) && j <= |sec.kids|
    ensures Sound(r.0) && w.nodes.Keys <= r.0.nodes.Keys && r.0.active == w.active
    decreases sec, |sec.kids| - j
  {
    if j == |sec.kids| then (w, sec.throws)
    else
      var (after, threw) := RunSection(w, sec.kids[j]);
      if threw then (after, true) else RunBody(after, sec, j + 1)
  }

  /** RunContext::handleUnfinishedSections: one more sectionEnded for each early end. */
  function HandleUnfinished(w: World, n: nat): (r: World)
    requires Sound(w)
    ensures Sound(r)
    decreases n
  {
    if n == 0 then w.(unfinished := 0) else HandleUnfinished(SectionEnded(w), n - 1)
  }

  /** RunContext::runCurrentTest: the test case's body, run by its own tracker. */
  function RunCurrentTest(w: World, test: Section): (r: World)
    requires Sound(w)
    ensures Sound(r)
  {
    var p := [test.name];
    var (ran, threw) := RunBody(w.(entered := w.entered + [p]), test, 0);
    var closed := Close(ran, p);
    HandleUnfinished(closed, closed.unfinished)
  }

  /** One pass of the inner loop of RunContext::runTest. */
  function RunCycle(w: World, test: Section): (r: World)
    requires Sound(w)
    ensures Sound(r)
  {
    RunCurrentTest(Acquire(w.(current := [], completed := false), test.name), test)
  }

  /** TrackerContext::startRun. */
  const Start: World := World(map[[] := Info(NotStarted, [])], [], false, [], 0, [], false)

  lemma StartSound()
    ensures Sound(Start)
  {
  }
}

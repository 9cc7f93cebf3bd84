/** One cycle of a run takes the next event of the schedule. */
module TrackerRuns {
  import opened TrackerModel
  import opened TrackerSchedule

  /** Trackers outside `p` and below are as they were. */
  ghost predicate Outside(a: Nodes, b: Nodes, p: Path) {
    forall q :: !(p <= q) ==> (q in a <==> q in b) && (q in a && q in b ==> a[q] == b[q])
  }

  /** A section is about to run its body: it is the current tracker, freshly opened. */
  ghost predicate Ready(w: World, p: Path, sec: Section) {
    Sound(w) && DistinctNames(sec) && p != [] && w.current == p && !w.completed && w.unfinished == 0 &&
    p in w.nodes && w.nodes[p].state == Executing &&
    Parent(p) in w.nodes && w.nodes[Parent(p)].state == ExecutingChildren &&
    Shape(w.nodes, p, sec)
  }

  /** What running the body of `sec` does when something below it is left to do. */
  ghost predicate Advanced(w: World, r: World, threw: bool, p: Path, sec: Section) {
    var body, left := RemKids(w.nodes, p, sec, 0), RemKids(r.nodes, p, sec, 0);
    body != [] && left == body[1..] &&
    Sound(r) && r.completed && r.current == p && r.active == w.active && r.illogical == w.illogical &&
    threw == (body[0].threw || sec.throws) &&
    (r.unfinished == 0 <==> !body[0].threw) &&
    r.entered == w.entered + Chain(|p|, body[0].path) &&
    Outside(w.nodes, r.nodes, p) && p in r.nodes && Shape(r.nodes, p, sec) &&
    r.nodes[p].kids != [] &&
    (r.nodes[p].state == NeedsAnotherRun || r.nodes[p].state == ExecutingChildren) &&
    (r.nodes[p].state == NeedsAnotherRun ==> body[0].threw) &&
    (r.nodes[p].state == ExecutingChildren ==>
      (Done(r.nodes, p + [r.nodes[p].kids[|r.nodes[p].kids| - 1]]) <==> left == []) &&
      (left == [] ==> !body[0].threw))
  }

  /** What running section `kid` from its parent `p` changes. */
  ghost predicate SectionFrame(w: World, r: World, threw: bool, p: Path, kid: Section) {
    var q := p + [kid.name];
    Sound(w) && Sound(r) && r.completed && r.current == p && r.active == w.active && r.illogical == w.illogical &&
    (r.unfinished == 0 <==> !threw) &&
    q in r.nodes && p in w.nodes && p in r.nodes &&
    r.nodes[p].kids == FindOrAdd(w.nodes, p, kid.name)[p].kids &&
    r.nodes[p].state == (if threw && Done(r.nodes, q) then NeedsAnotherRun else ExecutingChildren) &&
    forall o :: o != p && !(q <= o) ==>
      (o in w.nodes <==> o in r.nodes) && (o in w.nodes && o in r.nodes ==> w.nodes[o] == r.nodes[o])
  }

  /** It takes the first event left in the section. */
  ghost predicate SectionProgress(w: World, r: World, threw: bool, p: Path, kid: Section) {
    var q := p + [kid.name];
    var rem := Rem(w.nodes, q, kid);
    rem != [] && Rem(r.nodes, q, kid) == rem[1..] && threw == rem[0].threw &&
    r.entered == w.entered + Chain(|p|, rem[0].path) && Shape(r.nodes, q, kid)
  }

  ghost predicate SectionRan(w: World, r: World, threw: bool, p: Path, kid: Section) {
    SectionFrame(w, r, threw, p, kid) && SectionProgress(w, r, threw, p, kid)
  }

  ghost predicate KidsFresh(nodes: Nodes, p: Path, sec: Section, j: nat) {
    forall i :: j <= i < |sec.kids| ==> Fresh(nodes, KidPath(sec, p, i))
  }

  /** `a` and `b` differ at most at `p` and at its sections from number `j` on. */
  ghost predicate SameBut(a: Nodes, b: Nodes, p: Path, sec: Section, j: nat) {
    forall o :: o != p && (forall i :: j <= i < |sec.kids| ==> o != KidPath(sec, p, i)) ==>
      (o in a <==> o in b) && (o in a && o in b ==> a[o] == b[o])
  }

  /** Different sections of one body have nothing in common. */
  lemma KidsApart(p: Path, sec: Section, i: nat, j: nat, o: Path)
    requires DistinctNames(sec) && i < |sec.kids| && j < |sec.kids| && i != j
    requires KidPath(sec, p, i) <= o
    ensures !(KidPath(sec, p, j) <= o)
  {
    assert KidPath(sec, p, i)[|p|] == sec.kids[i].name && KidPath(sec, p, j)[|p|] == sec.kids[j].name;
  }

  /** Once the cycle is over, a section not yet entered is found and passed by. */
  lemma PassedOne(w: World, p: Path, sec: Section, j: nat)
    requires Sound(w) && w.completed && w.current == p && DistinctNames(sec)
    requires j < |sec.kids| && KidsArePrefix(w.nodes, p, sec) && j <= |w.nodes[p].kids|
    requires KidsFresh(w.nodes, p, sec, j)
    ensures var r := SectionStarted(w, sec.kids[j].name).0;
      !SectionStarted(w, sec.kids[j].name).1 && r == w.(nodes := r.nodes) &&
      p in r.nodes && r.nodes[p].state == w.nodes[p].state &&
      KidsArePrefix(r.nodes, p, sec) && j + 1 <= |r.nodes[p].kids| &&
      KidsFresh(r.nodes, p, sec, j) && SameBut(w.nodes, r.nodes, p, sec, j)
  {
    FoundInOrder(w.nodes, p, sec, j);
    var q := KidPath(sec, p, j);
    var nodes := FindOrAdd(w.nodes, p, sec.kids[j].name);
    assert Fresh(w.nodes, q);
    assert nodes[q] == Info(NotStarted, []);
    forall i | j <= i < |sec.kids| ensures Fresh(nodes, KidPath(sec, p, i)) {
      forall o | o in nodes && KidPath(sec, p, i) <= o
        ensures o == KidPath(sec, p, i) && nodes[o] == Info(NotStarted, [])
      {
        if i != j { KidsApart(p, sec, i, j, o); }
        assert o != p;
      }
    }
  }

  /** So once the cycle is over, the rest of a body enters nothing. */
  lemma {:induction false} PassedBy(w: World, p: Path, sec: Section, j: nat)
    requires Sound(w) && w.completed && w.current == p && DistinctNames(sec)
    requires j <= |sec.kids| && KidsArePrefix(w.nodes, p, sec) && j <= |w.nodes[p].kids|
    requires KidsFresh(w.nodes, p, sec, j)
    ensures var r := RunBody(w, sec, j).0;
      RunBody(w, sec, j).1 == sec.throws && r == w.(nodes := r.nodes) &&
      p in r.nodes && r.nodes[p].state == w.nodes[p].state &&
      KidsArePrefix(r.nodes, p, sec) && |r.nodes[p].kids| == |sec.kids| &&
      KidsFresh(r.nodes, p, sec, j) && SameBut(w.nodes, r.nodes, p, sec, j)
    decreases |sec.kids| - j
  {
    hide Tree, Fresh, DistinctNames, SectionStarted;
    if j < |sec.kids| {
      PassedOne(w, p, sec, j);
      var started := SectionStarted(w, sec.kids[j].name).0;
      PassedBy(started, p, sec, j + 1);
      var r := RunBody(started, sec, j + 1).0;
      assert RunBody(w, sec, j) == RunBody(started, sec, j + 1);
      PassedStillFresh(started.nodes, r.nodes, p, sec, j);
    }
  }

  lemma PassedStillFresh(a: Nodes, b: Nodes, p: Path, sec: Section, j: nat)
    requires DistinctNames(sec) && j < |sec.kids|
    requires KidsFresh(a, p, sec, j) && KidsFresh(b, p, sec, j + 1) && SameBut(a, b, p, sec, j + 1)
    ensures KidsFresh(b, p, sec, j)
  {
    var q := KidPath(sec, p, j);
    assert Fresh(a, q);
    forall o | o in b && q <= o ensures o == q && b[o] == Info(NotStarted, []) {
      forall i | j + 1 <= i < |sec.kids| ensures o != KidPath(sec, p, i) {
        KidsApart(p, sec, j, i, o);
      }
    }
  }

  /** The children found so far are a prefix of the body, so section `j` is found at place
      `j` or added there. */
  lemma FoundInOrder(nodes: Nodes, p: Path, sec: Section, j: nat)
    requires Tree(nodes) && p in nodes && KidsArePrefix(nodes, p, sec) && DistinctNames(sec)
    requires j < |sec.kids| && j <= |nodes[p].kids|
    ensures var r := FindOrAdd(nodes, p, sec.kids[j].name);
      p in r && r[p].state == nodes[p].state &&
      KidsArePrefix(r, p, sec) && |r[p].kids| == (if j < |nodes[p].kids| then |nodes[p].kids| else j + 1) &&
      (j < |nodes[p].kids| ==> r == nodes) &&
      (j == |nodes[p].kids| ==> KidPath(sec, p, j) !in nodes && r[KidPath(sec, p, j)] == Info(NotStarted, [])) &&
      forall o :: o != p && o != KidPath(sec, p, j) ==>
        (o in nodes <==> o in r) && (o in nodes && o in r ==> nodes[o] == r[o])
  {
    if j < |nodes[p].kids| {
      assert nodes[p].kids[j] == sec.kids[j].name;
    } else {
      assert sec.kids[j].name !in nodes[p].kids;
      assert Parent(KidPath(sec, p, j)) == p;
    }
  }

  /** A complete section is found and passed by without a trace. */
  lemma SkipsOne(w: World, p: Path, sec: Section, j: nat)
    requires Sound(w) && w.current == p && j < |sec.kids| && Done(w.nodes, KidPath(sec, p, j))
    ensures RunSection(w, sec.kids[j]) == (w, false)
  {
    hide RunBody;
    assert Parent(KidPath(sec, p, j)) == p;
  }

  lemma {:induction false} SkipsDone(w: World, p: Path, sec: Section, j: nat, k: nat)
    requires Sound(w) && w.current == p && j <= k <= |sec.kids|
    requires forall i :: j <= i < k ==> Done(w.nodes, KidPath(sec, p, i))
    ensures RunBody(w, sec, j) == RunBody(w, sec, k)
    decreases k - j
  {
    hide Tree, RunSection, Done;
    if j < k {
      SkipsOne(w, p, sec, j);
      SkipsDone(w, p, sec, j + 1, k);
    }
  }

  /** The sections before the frontier have all been found. */
  lemma KnownToFrontier(nodes: Nodes, p: Path, sec: Section, k: nat)
    requires Tree(nodes) && p in nodes && DistinctNames(sec)
    requires KidsArePrefix(nodes, p, sec) && Frontier(nodes, p, sec, k)
    ensures k <= |nodes[p].kids|
  {
    if k > 0 {
      assert Parent(KidPath(sec, p, k - 1)) == p;
      var i :| 0 <= i < |nodes[p].kids| && nodes[p].kids[i] == sec.kids[k - 1].name;
      assert i == k - 1;
    }
  }

  /** Opening a section of the running section marks only these two: further up the marks
      are already there. */
  lemma OpensOneUp(nodes: Nodes, p: Path, q: Path)
    requires Tree(nodes) && p in nodes && q in nodes && p != [] && q != p && q != Parent(p)
    requires nodes[p].state == Executing
    requires Parent(p) in nodes && nodes[Parent(p)].state == ExecutingChildren
    ensures OpenChild(SetState(nodes, q, Executing), p)
         == SetState(SetState(nodes, q, Executing), p, ExecutingChildren)
  {
    var marked := SetState(SetState(nodes, q, Executing), p, ExecutingChildren);
    assert p != Parent(p);
    assert OpenChild(marked, Parent(p)) == marked;
  }

  lemma KidDistinct(sec: Section, k: nat)
    requires DistinctNames(sec) && k < |sec.kids|
    ensures DistinctNames(sec.kids[k])
  {
  }

  lemma AtFrontier(nodes: Nodes, p: Path, sec: Section, k: nat)
    requires Frontier(nodes, p, sec, k)
    ensures forall i :: 0 <= i < k ==> Done(nodes, KidPath(sec, p, i))
    ensures k < |sec.kids| ==> !Done(nodes, KidPath(sec, p, k)) && Shape(nodes, KidPath(sec, p, k), sec.kids[k])
    ensures k < |sec.kids| ==> KidsArePrefix(nodes, KidPath(sec, p, k), sec.kids[k])
  {
    if k < |sec.kids| { assert Shape(nodes, KidPath(sec, p, k), sec.kids[k]); }
  }

  lemma ShapePrefix(nodes: Nodes, p: Path, sec: Section)
    requires Shape(nodes, p, sec)
    ensures KidsArePrefix(nodes, p, sec)
  {
  }

  lemma AfterFrontier(nodes: Nodes, p: Path, sec: Section, k: nat)
    requires Frontier(nodes, p, sec, k)
    ensures KidsFresh(nodes, p, sec, k + 1)
  {
  }

  /** The section at the frontier is opened. */
  lemma OpensKidSteps(w: World, p: Path, sec: Section, k: nat)
    requires Ready(w, p, sec) && Frontier(w.nodes, p, sec, k) && k < |sec.kids|
    ensures var q := KidPath(sec, p, k);
      var found := FindOrAdd(w.nodes, p, sec.kids[k].name);
      q in found && p in found &&
      SectionStarted(w, sec.kids[k].name) ==
        (w.(nodes := SetState(SetState(found, q, Executing), p, ExecutingChildren), current := q,
            active := w.active + [q], entered := w.entered + [q]), true) &&
      KidsArePrefix(found, q, sec.kids[k]) &&
      forall o :: o != p && o != q ==>
        (o in w.nodes <==> o in found) && (o in w.nodes && o in found ==> w.nodes[o] == found[o])
  {
    hide Frontier, Shape, Tree, DistinctNames, RunBody;
    var q, name := KidPath(sec, p, k), sec.kids[k].name;
    AtFrontier(w.nodes, p, sec, k);
    ShapePrefix(w.nodes, p, sec);
    KnownToFrontier(w.nodes, p, sec, k);
    FoundInOrder(w.nodes, p, sec, k);
    var found := FindOrAdd(w.nodes, p, name);
    assert Parent(q) == p;
    assert Parent(p) != q && Parent(p) != p;
    OpensOneUp(found, p, q);
    assert !found[q].state.IsComplete();
  }

  /** Opening the section at the frontier touches nothing below it. */
  lemma OpensKid(w: World, p: Path, sec: Section, k: nat)
    requires Ready(w, p, sec) && Frontier(w.nodes, p, sec, k) && k < |sec.kids|
    ensures var q := KidPath(sec, p, k);
      var r := SectionStarted(w, sec.kids[k].name).0;
      Ready(r, q, sec.kids[k]) &&
      RemKids(r.nodes, q, sec.kids[k], 0) == RemKids(w.nodes, q, sec.kids[k], 0)
  {
    hide Tree, Frontier, Shape, DistinctNames, RemKids, FindOrAdd;
    var q, kid := KidPath(sec, p, k), sec.kids[k];
    AtFrontier(w.nodes, p, sec, k);
    KidDistinct(sec, k);
    OpensKidSteps(w, p, sec, k);
    var r := SectionStarted(w, kid.name).0;
    assert Parent(q) == p;
    forall i | 0 <= i < |kid.kids| ensures Agree(w.nodes, r.nodes, KidPath(kid, q, i)) {
    }
    AgreeRemKids(w.nodes, r.nodes, q, kid, 0);
    ShapeReopened(w.nodes, r.nodes, q, kid);
  }

  /** Shape says nothing of the state of the section itself. */
  lemma ShapeReopened(a: Nodes, b: Nodes, q: Path, kid: Section)
    requires Shape(a, q, kid) && q in b && KidsArePrefix(b, q, kid)
    requires forall i :: 0 <= i < |kid.kids| ==> Agree(a, b, KidPath(kid, q, i))
    ensures Shape(b, q, kid)
  {
    var k: nat :| Frontier(a, q, kid, k);
    forall i | 0 <= i < |kid.kids| ensures Shape(b, KidPath(kid, q, i), kid.kids[i]) {
      AgreeShape(a, b, KidPath(kid, q, i), kid.kids[i]);
    }
    assert Frontier(b, q, kid, k);
  }

  // ----- the two halves of the induction

  /** A body with nothing left below opens nothing. */
  lemma IdleBody(w: World, p: Path, sec: Section)
    requires Ready(w, p, sec) && RemKids(w.nodes, p, sec, 0) == []
    ensures RunBody(w, sec, 0) == (w, sec.throws)
  {
    assert Shape(w.nodes, p, sec);
    var k: nat :| Frontier(w.nodes, p, sec, k);
    RemKidsFrom(w.nodes, p, sec, 0, k);
    if k < |sec.kids| {
      RemNonempty(w.nodes, KidPath(sec, p, k), sec.kids[k]);
      assert false;
    }
    SkipsDone(w, p, sec, 0, k);
  }

  /** `w1` is `w` with the section `kid` of the running section `p` just opened. */
  ghost predicate Opened(w: World, w1: World, p: Path, kid: Section) {
    var q := p + [kid.name];
    Sound(w) && p in w.nodes && Ready(w1, q, kid) && !Done(w.nodes, q) &&
    w1.active == w.active + [q] && w1.entered == w.entered + [q] && w1.illogical == w.illogical &&
    p in w1.nodes && w1.nodes[p] == Info(ExecutingChildren, FindOrAdd(w.nodes, p, kid.name)[p].kids) &&
    RemKids(w1.nodes, q, kid, 0) == RemKids(w.nodes, q, kid, 0) &&
    forall o :: o != p && o != q ==>
      (o in w.nodes <==> o in w1.nodes) && (o in w.nodes && o in w1.nodes ==> w.nodes[o] == w1.nodes[o])
  }

  /** Only the states of `q` and its parent differ. */
  ghost predicate Restated(a: Nodes, b: Nodes, q: Path)
    requires q != []
  {
    q in a && q in b && a[q].kids == b[q].kids &&
    forall o :: o != q && o != Parent(q) ==>
      (o in a <==> o in b) && (o in a && o in b ==> a[o] == b[o])
  }

  lemma RestatedBelow(a: Nodes, b: Nodes, q: Path, kid: Section)
    requires q != [] && Restated(a, b, q) && Shape(a, q, kid)
    ensures Shape(b, q, kid) && RemKids(a, q, kid, 0) == RemKids(b, q, kid, 0)
  {
    forall i | 0 <= i < |kid.kids| ensures Agree(a, b, KidPath(kid, q, i)) {
    }
    ShapeReopened(a, b, q, kid);
    AgreeRemKids(a, b, q, kid, 0);
  }

  /** Closing the current section while its body is running: it is complete if it opened
      nothing, or if the last section it found is complete. */
  lemma CloseSteps(ran: World, q: Path)
    requires Sound(ran) && ran.current == q && q != []
    requires ran.nodes[q].state in {Executing, ExecutingChildren, NeedsAnotherRun}
    requires ran.nodes[q].state == ExecutingChildren ==> ran.nodes[q].kids != []
    ensures var info := ran.nodes[q];
      var complete := info.state == Executing
                      || (info.state == ExecutingChildren && Done(ran.nodes, q + [info.kids[|info.kids| - 1]]));
      Close(ran, q) == ran.(nodes := if complete then SetState(ran.nodes, q, CompletedSuccessfully) else ran.nodes,
                            current := Parent(q), completed := true)
  {
    assert Close(ran, q) == CloseCurrent(ran);
  }

  /** From the running section to its opened child and back, only the two and what is below
      the child change. */
  lemma FrameSteps(a: Nodes, b: Nodes, c: Nodes, d: Nodes, p: Path, q: Path)
    requires q != [] && Parent(q) == p
    requires forall o :: o != p && o != q ==> (o in a <==> o in b) && (o in a && o in b ==> a[o] == b[o])
    requires Outside(b, c, q) && Restated(c, d, q)
    ensures forall o :: o != p && !(q <= o) ==> (o in a <==> o in d) && (o in a && o in d ==> a[o] == d[o])
    ensures !(q <= p) && (p in b ==> p in c && c[p] == b[p])
  {
  }

  /** A section with nothing left below is complete when its body ends. */
  lemma Idled(w: World, w1: World, r: World, p: Path, kid: Section)
    requires Opened(w, w1, p, kid)
    requires r == if kid.throws then SectionEndedEarly(w1) else SectionEnded(w1)
    ensures SectionFrame(w, r, kid.throws, p, kid) && Restated(w1.nodes, r.nodes, p + [kid.name])
    ensures r.entered == w1.entered && Done(r.nodes, p + [kid.name])
  {
    hide Tree, Shape, Rem, RemKids, DistinctNames, Chain, FindOrAdd, Frontier, Fresh, Outside, Close;
    var q := p + [kid.name];
    assert Parent(q) == p;
    assert w1.active[|w1.active| - 1] == q && w1.active[..|w1.active| - 1] == w.active;
    CloseSteps(w1, q);
    FrameSteps(w.nodes, w1.nodes, w1.nodes, r.nodes, p, q);
  }

  /** It is entered once. */
  lemma TookLast(w: World, r: World, p: Path, kid: Section, q: Path)
    requires q == p + [kid.name] && !Done(w.nodes, q)
    requires RemKids(w.nodes, q, kid, 0) == []
    requires Done(r.nodes, q) && r.entered == w.entered + [q] && Shape(r.nodes, q, kid)
    ensures SectionProgress(w, r, kid.throws, p, kid)
  {
    assert Rem(w.nodes, q, kid) == [Event(q, kid.throws)];
    assert Chain(|p|, q) == [q] by { assert q[..|p| + 1] == q; }
  }

  /** A section whose body returned is closed, and is complete if nothing is left below. */
  lemma Returned(w: World, w1: World, ran: World, r: World, p: Path, kid: Section)
    requires Opened(w, w1, p, kid) && Advanced(w1, ran, false, p + [kid.name], kid)
    requires r == SectionEnded(ran)
    ensures SectionFrame(w, r, false, p, kid) && Restated(ran.nodes, r.nodes, p + [kid.name])
    ensures r.entered == ran.entered
    ensures Done(r.nodes, p + [kid.name]) <==> RemKids(ran.nodes, p + [kid.name], kid, 0) == []
  {
    hide Tree, Shape, Rem, RemKids, DistinctNames, Chain, FindOrAdd, Frontier, Fresh, Outside, Close;
    var q := p + [kid.name];
    assert Parent(q) == p;
    assert ran.active[|ran.active| - 1] == q && ran.active[..|ran.active| - 1] == w.active;
    CloseSteps(ran, q);
    FrameSteps(w.nodes, w1.nodes, ran.nodes, r.nodes, p, q);
  }

  /** The first event of the body, passed on, is the first event of the section. */
  lemma TookFirst(a: Nodes, b: Nodes, threw: bool, kid: Section, q: Path)
    requires q != [] && !Done(a, q)
    requires RemKids(a, q, kid, 0) != [] && RemKids(b, q, kid, 0) == RemKids(a, q, kid, 0)[1..]
    requires threw == (RemKids(a, q, kid, 0)[0].threw || kid.throws)
    requires Done(b, q) <==>
      if threw then !RemKids(a, q, kid, 0)[0].threw else RemKids(b, q, kid, 0) == []
    ensures var body, rem := RemKids(a, q, kid, 0), Rem(a, q, kid);
      rem != [] && Rem(b, q, kid) == rem[1..] && threw == rem[0].threw &&
      Chain(|q| - 1, rem[0].path) == [q] + Chain(|q|, body[0].path)
  {
    var body := RemKids(a, q, kid, 0);
    FinishSteps(kid.throws, q, body, Done(b, q));
    EntersBelow(a, q, kid, body[0]);
  }

  /** A section whose body threw fails if nothing below it has, and otherwise stays open. */
  lemma Threw(w: World, w1: World, ran: World, r: World, p: Path, kid: Section)
    requires Opened(w, w1, p, kid) && Advanced(w1, ran, true, p + [kid.name], kid)
    requires r == SectionEndedEarly(ran)
    ensures SectionFrame(w, r, true, p, kid) && Restated(ran.nodes, r.nodes, p + [kid.name])
    ensures r.entered == ran.entered
    ensures Done(r.nodes, p + [kid.name]) <==> !RemKids(w1.nodes, p + [kid.name], kid, 0)[0].threw
  {
    hide Tree, Shape, Rem, RemKids, DistinctNames, Chain, FindOrAdd, Frontier, Fresh, Outside, Close;
    var q := p + [kid.name];
    assert Parent(q) == p;
    assert ran.active[|ran.active| - 1] == q && ran.active[..|ran.active| - 1] == w.active;
    if ran.unfinished != 0 { CloseSteps(ran, q); }
    FrameSteps(w.nodes, w1.nodes, ran.nodes, r.nodes, p, q);
  }

  lemma EntersBelow(nodes: Nodes, q: Path, kid: Section, e: Event)
    requires q != [] && e in RemKids(nodes, q, kid, 0)
    ensures Chain(|q| - 1, e.path) == [q] + Chain(|q|, e.path)
  {
    EventsBelowKids(nodes, q, kid, 0, e);
    assert e.path[..|q|] == q;
  }

  /** Running the section at the frontier takes its first event. */
  lemma {:induction false} SectionCorrect(w: World, p: Path, sec: Section, k: nat)
    requires Ready(w, p, sec) && Frontier(w.nodes, p, sec, k) && k < |sec.kids|
    ensures SectionRan(w, RunSection(w, sec.kids[k]).0, RunSection(w, sec.kids[k]).1, p, sec.kids[k])
    decreases sec, 0
  {
    hide Shape, Frontier, Tree, DistinctNames, Chain, Outside, Restated, RemKids;
    var kid, q := sec.kids[k], KidPath(sec, p, k);
    AtFrontier(w.nodes, p, sec, k);
    OpensKidSteps(w, p, sec, k);
    OpensKid(w, p, sec, k);
    var w1 := SectionStarted(w, kid.name).0;
    assert Opened(w, w1, p, kid);
    var body := RemKids(w1.nodes, q, kid, 0);
    if body == [] {
      IdleBody(w1, q, kid);
    } else {
      BodyCorrect(w1, q, kid);
    }
    SectionEnds(w, w1, RunBody(w1, kid, 0).0, RunBody(w1, kid, 0).1, RunSection(w, kid).0, p, kid, q, body);
  }

  lemma SectionEnds(w: World, w1: World, ran: World, threw: bool, r: World, p: Path, kid: Section, q: Path, body: seq<Event>)
    requires q == p + [kid.name] && Opened(w, w1, p, kid) && body == RemKids(w1.nodes, q, kid, 0)
    requires if body == [] then ran == w1 && threw == kid.throws else Advanced(w1, ran, threw, q, kid)
    requires r == if threw then SectionEndedEarly(ran) else SectionEnded(ran)
    ensures SectionRan(w, r, threw, p, kid)
  {
    if body == [] {
      Idled(w, w1, r, p, kid);
      RestatedBelow(w1.nodes, r.nodes, q, kid);
      TookLast(w, r, p, kid, q);
    } else {
      EndsFrame(w, w1, ran, threw, r, p, kid, q);
      EndsProgress(w, w1, ran, threw, r, p, kid, q);
    }
  }

  lemma EndsFrame(w: World, w1: World, ran: World, threw: bool, r: World, p: Path, kid: Section, q: Path)
    requires q == p + [kid.name] && Opened(w, w1, p, kid) && Advanced(w1, ran, threw, q, kid)
    requires r == if threw then SectionEndedEarly(ran) else SectionEnded(ran)
    ensures SectionFrame(w, r, threw, p, kid) && Restated(ran.nodes, r.nodes, q) && r.entered == ran.entered
    ensures Done(r.nodes, q) <==>
      if threw then !RemKids(w.nodes, q, kid, 0)[0].threw else RemKids(ran.nodes, q, kid, 0) == []
  {
    if threw { Threw(w, w1, ran, r, p, kid); } else { Returned(w, w1, ran, r, p, kid); }
  }

  lemma EndsProgress(w: World, w1: World, ran: World, threw: bool, r: World, p: Path, kid: Section, q: Path)
    requires q == p + [kid.name] && Opened(w, w1, p, kid) && Advanced(w1, ran, threw, q, kid)
    requires Restated(ran.nodes, r.nodes, q) && r.entered == ran.entered
    requires Done(r.nodes, q) <==>
      if threw then !RemKids(w.nodes, q, kid, 0)[0].threw else RemKids(ran.nodes, q, kid, 0) == []
    ensures SectionProgress(w, r, threw, p, kid)
  {
    hide Frontier, Shape, RemKids, Rem, Tree, DistinctNames, KidsArePrefix, Done, Outside, FindOrAdd, Chain;
    RestatedBelow(ran.nodes, r.nodes, q, kid);
    TookFirst(w.nodes, r.nodes, threw, kid, q);
  }

  /** Running a body takes the first event left below it. */
  lemma {:induction false} BodyCorrect(w: World, p: Path, sec: Section)
    requires Ready(w, p, sec) && RemKids(w.nodes, p, sec, 0) != []
    ensures Advanced(w, RunBody(w, sec, 0).0, RunBody(w, sec, 0).1, p, sec)
    decreases sec, 1
  {
    assert Shape(w.nodes, p, sec);
    var k: nat :| Frontier(w.nodes, p, sec, k);
    RemKidsFrom(w.nodes, p, sec, 0, k);
    SkipsDone(w, p, sec, 0, k);
    SectionCorrect(w, p, sec, k);
    RestOfBody(w, p, sec, k);
    var (mid, threw) := RunSection(w, sec.kids[k]);
    var r := if threw then mid else RunBody(mid, sec, k + 1).0;
    BodyAdvanced(w, mid, r, threw, p, sec, k);
  }

  /** After section `k` ran, the rest of the body enters nothing. */
  lemma RestOfBody(w: World, p: Path, sec: Section, k: nat)
    requires Ready(w, p, sec) && Frontier(w.nodes, p, sec, k) && k < |sec.kids|
    requires SectionFrame(w, RunSection(w, sec.kids[k]).0, RunSection(w, sec.kids[k]).1, p, sec.kids[k])
    ensures var (mid, threw) := RunSection(w, sec.kids[k]);
      var r := if threw then mid else RunBody(mid, sec, k + 1).0;
      Rested(mid, r, threw, p, sec, k) && RunBody(w, sec, k) == (r, threw || sec.throws)
  {
    hide Shape, Frontier, Tree, Fresh, KidsArePrefix, DistinctNames, FindOrAdd, KidsFresh, SameBut;
    var (mid, threw) := RunSection(w, sec.kids[k]);
    var r := if threw then mid else RunBody(mid, sec, k + 1).0;
    RestFound(w, mid, threw, p, sec, k);
    RestRested(mid, threw, p, sec, k);
  }

  lemma RestRested(mid: World, threw: bool, p: Path, sec: Section, k: nat)
    requires k < |sec.kids| && Sound(mid) && mid.completed && mid.current == p && DistinctNames(sec)
    requires KidsArePrefix(mid.nodes, p, sec) && k + 1 <= |mid.nodes[p].kids|
    requires KidsFresh(mid.nodes, p, sec, k + 1)
    ensures Rested(mid, if threw then mid else RunBody(mid, sec, k + 1).0, threw, p, sec, k)
    ensures !threw ==> RunBody(mid, sec, k + 1).1 == sec.throws
  {
    hide Shape, Frontier, Tree, Fresh, DistinctNames, RunBody, KidsFresh;
    if !threw { PassedBy(mid, p, sec, k + 1); }
  }

  lemma RestFound(w: World, mid: World, threw: bool, p: Path, sec: Section, k: nat)
    requires Ready(w, p, sec) && Frontier(w.nodes, p, sec, k) && k < |sec.kids|
    requires SectionFrame(w, mid, threw, p, sec.kids[k])
    ensures Sound(mid) && mid.completed && mid.current == p && DistinctNames(sec)
    ensures p in mid.nodes && KidsArePrefix(mid.nodes, p, sec) && k + 1 <= |mid.nodes[p].kids|
    ensures KidsFresh(mid.nodes, p, sec, k + 1)
  {
    hide Shape, Frontier, Tree, Fresh, KidsArePrefix, DistinctNames, FindOrAdd;
    FoundKids(w.nodes, mid.nodes, p, sec, k);
    forall i | k + 1 <= i < |sec.kids| ensures Fresh(mid.nodes, KidPath(sec, p, i)) {
      StillFresh(w.nodes, mid.nodes, p, sec, k, i);
    }
  }

  /** After section `k` ran, at least the sections up to it are found. */
  lemma FoundKids(a: Nodes, b: Nodes, p: Path, sec: Section, k: nat)
    requires Tree(a) && p in a && p in b && k < |sec.kids| && DistinctNames(sec)
    requires Shape(a, p, sec) && Frontier(a, p, sec, k)
    requires b[p].kids == FindOrAdd(a, p, sec.kids[k].name)[p].kids
    ensures KidsArePrefix(b, p, sec) && k + 1 <= |b[p].kids|
  {
    KnownToFrontier(a, p, sec, k);
    FoundInOrder(a, p, sec, k);
  }

  lemma KidsAgree(a: Nodes, b: Nodes, p: Path, sec: Section, k: nat, i: nat)
    requires DistinctNames(sec) && k < |sec.kids| && i < |sec.kids| && i != k
    requires forall o :: o != p && !(KidPath(sec, p, k) <= o) ==>
      (o in a <==> o in b) && (o in a && o in b ==> a[o] == b[o])
    ensures Agree(a, b, KidPath(sec, p, i))
  {
    forall o | KidPath(sec, p, i) <= o
      ensures (o in a <==> o in b) && (o in a && o in b ==> a[o] == b[o])
    {
      KidsApart(p, sec, i, k, o);
    }
  }

  lemma StillFresh(a: Nodes, b: Nodes, p: Path, sec: Section, k: nat, i: nat)
    requires DistinctNames(sec) && k < i < |sec.kids| && Frontier(a, p, sec, k)
    requires forall o :: o != p && !(KidPath(sec, p, k) <= o) ==>
      (o in a <==> o in b) && (o in a && o in b ==> a[o] == b[o])
    ensures Fresh(b, KidPath(sec, p, i))
  {
    KidsAgree(a, b, p, sec, k, i);
    assert Fresh(a, KidPath(sec, p, i));
  }

  /** The rest of the body after section `k`: nothing more is entered. */
  ghost predicate Rested(mid: World, r: World, threw: bool, p: Path, sec: Section, k: nat) {
    k < |sec.kids| && p in mid.nodes && p in r.nodes && Sound(r) &&
    r == mid.(nodes := r.nodes) && r.nodes[p].state == mid.nodes[p].state &&
    KidsArePrefix(r.nodes, p, sec) && k + 1 <= |r.nodes[p].kids| &&
    (!threw ==> |r.nodes[p].kids| == |sec.kids|) &&
    KidsFresh(r.nodes, p, sec, k + 1) && SameBut(mid.nodes, r.nodes, p, sec, k + 1)
  }

  /** Below section `k` and the ones before it, nothing happens after it ran. */
  lemma RestAgrees(mid: World, r: World, threw: bool, p: Path, sec: Section, k: nat, i: nat)
    requires DistinctNames(sec) && Rested(mid, r, threw, p, sec, k) && i <= k
    ensures Agree(mid.nodes, r.nodes, KidPath(sec, p, i))
  {
    forall o | KidPath(sec, p, i) <= o
      ensures (o in mid.nodes <==> o in r.nodes) && (o in mid.nodes && o in r.nodes ==> mid.nodes[o] == r.nodes[o])
    {
      forall j | k + 1 <= j < |sec.kids| ensures o != KidPath(sec, p, j) {
        KidsApart(p, sec, i, j, o);
      }
    }
  }

  /** The sections before number `k` stay as they are. */
  lemma BeforeSame(w: World, mid: World, r: World, threw: bool, p: Path, sec: Section, k: nat, i: nat)
    requires DistinctNames(sec) && i < k < |sec.kids| && Frontier(w.nodes, p, sec, k)
    requires SectionFrame(w, mid, threw, p, sec.kids[k]) && Rested(mid, r, threw, p, sec, k)
    ensures Done(r.nodes, KidPath(sec, p, i)) && Shape(r.nodes, KidPath(sec, p, i), sec.kids[i])
  {
    KidsAgree(w.nodes, mid.nodes, p, sec, k, i);
    RestAgrees(mid, r, threw, p, sec, k, i);
    assert Agree(w.nodes, r.nodes, KidPath(sec, p, i));
    AgreeShape(w.nodes, r.nodes, KidPath(sec, p, i), sec.kids[i]);
  }

  /** The new frontier. */
  lemma NewShape(w: World, mid: World, r: World, threw: bool, p: Path, sec: Section, k: nat)
    requires DistinctNames(sec) && k < |sec.kids| && Frontier(w.nodes, p, sec, k)
    requires SectionRan(w, mid, threw, p, sec.kids[k]) && Rested(mid, r, threw, p, sec, k)
    ensures Shape(r.nodes, p, sec)
    ensures Done(r.nodes, KidPath(sec, p, k)) <==> Done(mid.nodes, KidPath(sec, p, k))
    ensures Rem(r.nodes, KidPath(sec, p, k), sec.kids[k]) == Rem(mid.nodes, KidPath(sec, p, k), sec.kids[k])
  {
    hide Tree, Chain, Shape, Rem, Fresh, FindOrAdd, DistinctNames;
    var q := KidPath(sec, p, k);
    RestAgrees(mid, r, threw, p, sec, k, k);
    AgreeShape(mid.nodes, r.nodes, q, sec.kids[k]);
    AgreeRem(mid.nodes, r.nodes, q, sec.kids[k]);
    NewFrontier(w, mid, r, threw, p, sec, k);
  }

  lemma NewFrontier(w: World, mid: World, r: World, threw: bool, p: Path, sec: Section, k: nat)
    requires DistinctNames(sec) && k < |sec.kids| && Frontier(w.nodes, p, sec, k)
    requires SectionFrame(w, mid, threw, p, sec.kids[k]) && Rested(mid, r, threw, p, sec, k)
    requires Shape(r.nodes, KidPath(sec, p, k), sec.kids[k])
    ensures Shape(r.nodes, p, sec)
  {
    hide Tree, Chain, Rem, FindOrAdd, DistinctNames, SectionFrame, SameBut, Fresh, Frontier, Shape;
    forall i | 0 <= i < |sec.kids|
      ensures Shape(r.nodes, KidPath(sec, p, i), sec.kids[i])
      ensures i < k ==> Done(r.nodes, KidPath(sec, p, i))
    {
      if i < k {
        BeforeSame(w, mid, r, threw, p, sec, k, i);
      } else if i > k {
        FreshShape(r.nodes, KidPath(sec, p, i), sec.kids[i]);
      }
    }
    FrontierFound(r.nodes, p, sec, k);
  }

  /** Sections complete before `k` and not begun after it: the frontier is `k`, or behind it if it is complete. */
  lemma FrontierFound(nodes: Nodes, p: Path, sec: Section, k: nat)
    requires k < |sec.kids| && KidsArePrefix(nodes, p, sec) && KidsFresh(nodes, p, sec, k + 1)
    requires forall i :: 0 <= i < k ==> Done(nodes, KidPath(sec, p, i))
    requires forall i :: 0 <= i < |sec.kids| ==> Shape(nodes, KidPath(sec, p, i), sec.kids[i])
    ensures Shape(nodes, p, sec)
  {
    assert Frontier(nodes, p, sec, if Done(nodes, KidPath(sec, p, k)) then k + 1 else k);
  }

  /** At the frontier, what is left is what is left of one section and the schedules of the
      sections after it. */
  lemma RemAtFrontier(nodes: Nodes, p: Path, sec: Section, k: nat)
    requires k < |sec.kids| && KidsFresh(nodes, p, sec, k + 1)
    requires forall i :: 0 <= i < k ==> Done(nodes, KidPath(sec, p, i))
    ensures RemKids(nodes, p, sec, 0) == Rem(nodes, KidPath(sec, p, k), sec.kids[k]) + SchedKids(sec, p, k + 1)
  {
    RemKidsFrom(nodes, p, sec, 0, k);
    FreshRemKids(nodes, p, sec, k + 1);
  }

  lemma SchedKidsNonempty(sec: Section, p: Path, j: nat)
    requires j < |sec.kids|
    ensures SchedKids(sec, p, j) != []
  {
    FreshRem(map[], KidPath(sec, p, j), sec.kids[j]);
    RemNonempty(map[], KidPath(sec, p, j), sec.kids[j]);
  }

  /** The last section found is complete exactly when nothing is left, provided section `k`
      did not throw and end at once. */
  lemma LastFound(mid: World, r: World, threw: bool, p: Path, sec: Section, k: nat)
    requires k < |sec.kids| && Rested(mid, r, threw, p, sec, k)
    requires forall i :: 0 <= i < k ==> Done(r.nodes, KidPath(sec, p, i))
    requires !(threw && Done(r.nodes, KidPath(sec, p, k)))
    ensures var left := RemKids(r.nodes, p, sec, 0);
      r.nodes[p].kids != [] &&
      (Done(r.nodes, p + [r.nodes[p].kids[|r.nodes[p].kids| - 1]]) <==> left == []) &&
      (left == [] ==> !threw)
  {
    RemAtFrontier(r.nodes, p, sec, k);
    var q := KidPath(sec, p, k);
    RemNonempty(r.nodes, q, sec.kids[k]);
    var c := |r.nodes[p].kids|;
    assert p + [r.nodes[p].kids[c - 1]] == KidPath(sec, p, c - 1);
    if k + 1 < |sec.kids| { SchedKidsNonempty(sec, p, k + 1); }
    if c - 1 > k { assert Fresh(r.nodes, KidPath(sec, p, c - 1)); }
  }

  lemma BodyAdvanced(w: World, mid: World, r: World, threw: bool, p: Path, sec: Section, k: nat)
    requires Ready(w, p, sec) && Frontier(w.nodes, p, sec, k) && k < |sec.kids|
    requires SectionRan(w, mid, threw, p, sec.kids[k]) && Rested(mid, r, threw, p, sec, k)
    ensures Advanced(w, r, threw || sec.throws, p, sec)
  {
    hide Frontier, Shape, RemKids, Rem, SchedKids, Tree, DistinctNames, KidsArePrefix, KidsFresh, SameBut,
         FindOrAdd, Outside, Chain;
    var q := KidPath(sec, p, k);
    AtFrontier(w.nodes, p, sec, k);
    AfterFrontier(w.nodes, p, sec, k);
    NewShape(w, mid, r, threw, p, sec, k);
    RemAtFrontier(w.nodes, p, sec, k);
    forall i | 0 <= i < k ensures Done(r.nodes, KidPath(sec, p, i)) {
      BeforeSame(w, mid, r, threw, p, sec, k, i);
    }
    RemAtFrontier(r.nodes, p, sec, k);
    if !(threw && Done(r.nodes, q)) {
      LastFound(mid, r, threw, p, sec, k);
    }
    BodyOutside(w, mid, r, threw, p, sec, k);
  }

  lemma BodyOutside(w: World, mid: World, r: World, threw: bool, p: Path, sec: Section, k: nat)
    requires k < |sec.kids| && SectionFrame(w, mid, threw, p, sec.kids[k]) && Rested(mid, r, threw, p, sec, k)
    ensures Outside(w.nodes, r.nodes, p)
  {
    forall o | !(p <= o)
      ensures (o in w.nodes <==> o in r.nodes) && (o in w.nodes && o in r.nodes ==> w.nodes[o] == r.nodes[o])
    {
      assert !(KidPath(sec, p, k) <= o);
      forall i | k + 1 <= i < |sec.kids| ensures o != KidPath(sec, p, i) {
        assert p <= KidPath(sec, p, i);
      }
    }
  }
}

/**
 What a whole test run should do, said on the section tree alone, and what of it is still
 to be done in a given tracker tree.
 */
module TrackerSchedule {
  import opened TrackerModel

  /** One cycle: the innermost section it enters and whether it leaves by an exception. */
  datatype Event = Event(path: Path, threw: bool)

  /** A section whose body throws fails the first time the body gets to its end. */
  function CutAtNormal(events: seq<Event>): seq<Event> {
    if events == [] then []
    else if events[0].threw then [events[0]] + CutAtNormal(events[1..])
    else [events[0].(threw := true)]
  }

  /** A section with nothing left below, or whose last section below threw, is entered once
      more, with nothing left below it to enter. */
  function Settle(p: Path, body: seq<Event>): seq<Event> {
    if body == [] || body[|body| - 1].threw then body + [Event(p, false)] else body
  }

  function Finish(throws: bool, p: Path, body: seq<Event>): seq<Event> {
    if throws then CutAtNormal(Settle(p, body)) else Settle(p, body)
  }

  /** The cycles a section at `p` takes until it is complete. */
  function Sched(sec: Section, p: Path): seq<Event>
    decreases sec, |sec.kids| + 1
  {
    Finish(sec.throws, p, SchedKids(sec, p, 0))
  }

  function SchedKids(sec: Section, p: Path, j: nat): seq<Event>
    requires j <= |sec.kids|
    decreases sec, |sec.kids| - j
  {
    if j == |sec.kids| then []
    else Sched(sec.kids[j], KidPath(sec, p, j)) + SchedKids(sec, p, j + 1)
  }

  function KidPath(sec: Section, p: Path, j: nat): Path
    requires j < |sec.kids|
  {
    p + [sec.kids[j].name]
  }

  /** The sections a cycle enters on its way to `path`, below the first `n` names. */
  function Chain(n: nat, path: Path): seq<Path>
    decreases |path| - n
  {
    if n >= |path| then [] else [path[..n + 1]] + Chain(n + 1, path)
  }

  // ----- the state of a section in a tracker tree

  ghost predicate Done(nodes: Nodes, p: Path) {
    p in nodes && nodes[p].state.IsComplete()
  }

  /** Never entered: no tracker at `p` or below, but perhaps one at `p` not yet started. */
  ghost predicate Fresh(nodes: Nodes, p: Path) {
    forall q :: q in nodes && p <= q ==> q == p && nodes[q] == Info(NotStarted, [])
  }

  /** Trackers are found in the order of the body. */
  ghost predicate KidsArePrefix(nodes: Nodes, p: Path, sec: Section) {
    p in nodes ==>
      |nodes[p].kids| <= |sec.kids| &&
      forall i :: 0 <= i < |nodes[p].kids| ==> nodes[p].kids[i] == sec.kids[i].name
  }

  /** The sections before number `k` are complete, those after it never entered. */
  ghost predicate Frontier(nodes: Nodes, p: Path, sec: Section, k: nat)
    decreases sec, 0
  {
    k <= |sec.kids| &&
    (forall i :: 0 <= i < k ==> Done(nodes, KidPath(sec, p, i))) &&
    (k < |sec.kids| ==> !Done(nodes, KidPath(sec, p, k))) &&
    (forall i :: k < i < |sec.kids| ==> Fresh(nodes, KidPath(sec, p, i))) &&
    forall i :: 0 <= i < |sec.kids| ==> Shape(nodes, KidPath(sec, p, i), sec.kids[i])
  }

  ghost predicate Shape(nodes: Nodes, p: Path, sec: Section)
    decreases sec, 1
  {
    KidsArePrefix(nodes, p, sec) && exists k: nat :: Frontier(nodes, p, sec, k)
  }

  /** The cycles a section still takes. */
  ghost function Rem(nodes: Nodes, p: Path, sec: Section): seq<Event>
    decreases sec, |sec.kids| + 1
  {
    if Done(nodes, p) then [] else Finish(sec.throws, p, RemKids(nodes, p, sec, 0))
  }

  ghost function RemKids(nodes: Nodes, p: Path, sec: Section, j: nat): seq<Event>
    requires j <= |sec.kids|
    decreases sec, |sec.kids| - j
  {
    if j == |sec.kids| then []
    else Rem(nodes, KidPath(sec, p, j), sec.kids[j]) + RemKids(nodes, p, sec, j + 1)
  }

  // ----- these depend only on the trackers at and below `p`

  ghost predicate Agree(a: Nodes, b: Nodes, p: Path) {
    forall q :: p <= q ==> (q in a <==> q in b) && (q in a && q in b ==> a[q] == b[q])
  }

  lemma {:induction false} AgreeShape(a: Nodes, b: Nodes, p: Path, sec: Section)
    requires Agree(a, b, p) && Shape(a, p, sec)
    ensures Shape(b, p, sec)
    decreases sec
  {
    var k: nat :| Frontier(a, p, sec, k);
    forall i | 0 <= i < |sec.kids| ensures Shape(b, KidPath(sec, p, i), sec.kids[i]) {
      AgreeShape(a, b, KidPath(sec, p, i), sec.kids[i]);
    }
    assert Frontier(b, p, sec, k);
  }

  lemma {:induction false} AgreeRem(a: Nodes, b: Nodes, p: Path, sec: Section)
    requires Agree(a, b, p)
    ensures Rem(a, p, sec) == Rem(b, p, sec)
    decreases sec, |sec.kids| + 1
  {
    AgreeRemKids(a, b, p, sec, 0);
  }

  /** Agreement is needed only below the sections counted. */
  lemma {:induction false} AgreeRemKids(a: Nodes, b: Nodes, p: Path, sec: Section, j: nat)
    requires j <= |sec.kids|
    requires forall i :: j <= i < |sec.kids| ==> Agree(a, b, KidPath(sec, p, i))
    ensures RemKids(a, p, sec, j) == RemKids(b, p, sec, j)
    decreases sec, |sec.kids| - j
  {
    if j < |sec.kids| {
      AgreeRem(a, b, KidPath(sec, p, j), sec.kids[j]);
      AgreeRemKids(a, b, p, sec, j + 1);
    }
  }

  lemma {:induction false} FreshShape(nodes: Nodes, p: Path, sec: Section)
    requires Fresh(nodes, p)
    ensures Shape(nodes, p, sec) && !Done(nodes, p)
    decreases sec
  {
    forall i | 0 <= i < |sec.kids|
      ensures Fresh(nodes, KidPath(sec, p, i)) && Shape(nodes, KidPath(sec, p, i), sec.kids[i])
      ensures !Done(nodes, KidPath(sec, p, i))
    {
      FreshBelow(nodes, p, sec.kids[i].name);
      FreshShape(nodes, KidPath(sec, p, i), sec.kids[i]);
    }
    assert Frontier(nodes, p, sec, 0);
  }

  lemma FreshBelow(nodes: Nodes, p: Path, name: NameAndLocation)
    requires Fresh(nodes, p)
    ensures Fresh(nodes, p + [name])
  {
    forall q | q in nodes && p + [name] <= q ensures p <= q && p != q {
    }
  }

  /** What is left of a section never entered is its whole schedule. */
  lemma {:induction false} FreshRem(nodes: Nodes, p: Path, sec: Section)
    requires Fresh(nodes, p)
    ensures Rem(nodes, p, sec) == Sched(sec, p)
    decreases sec, |sec.kids| + 1
  {
    forall i | 0 <= i < |sec.kids| ensures Fresh(nodes, KidPath(sec, p, i)) {
      FreshBelow(nodes, p, sec.kids[i].name);
    }
    FreshRemKids(nodes, p, sec, 0);
  }

  lemma {:induction false} FreshRemKids(nodes: Nodes, p: Path, sec: Section, j: nat)
    requires j <= |sec.kids|
    requires forall i :: j <= i < |sec.kids| ==> Fresh(nodes, KidPath(sec, p, i))
    ensures RemKids(nodes, p, sec, j) == SchedKids(sec, p, j)
    decreases sec, |sec.kids| - j
  {
    if j < |sec.kids| {
      FreshRem(nodes, KidPath(sec, p, j), sec.kids[j]);
      FreshRemKids(nodes, p, sec, j + 1);
    }
  }

  /** Complete sections leave nothing to do. */
  lemma {:induction false} RemKidsFrom(nodes: Nodes, p: Path, sec: Section, j: nat, k: nat)
    requires j <= k <= |sec.kids|
    requires forall i :: j <= i < k ==> Done(nodes, KidPath(sec, p, i))
    ensures RemKids(nodes, p, sec, j) == RemKids(nodes, p, sec, k)
    decreases k - j
  {
    if j < k { RemKidsFrom(nodes, p, sec, j + 1, k); }
  }

  lemma {:induction false} RemNonempty(nodes: Nodes, p: Path, sec: Section)
    ensures Rem(nodes, p, sec) == [] <==> Done(nodes, p)
  {
    if !Done(nodes, p) {
      var body := Settle(p, RemKids(nodes, p, sec, 0));
      assert body != [];
      assert CutAtNormal(body) != [];
    }
  }

  // ----- taking the first event of a schedule

  lemma CutSettled(p: Path, body: seq<Event>)
    requires body != []
    ensures Settle(p, body)[0] == body[0]
    ensures (body[0].threw || body[1..] != []) ==> Settle(p, body)[1..] == Settle(p, body[1..])
    ensures !body[0].threw && body[1..] == [] ==> Settle(p, body)[1..] == []
  {
    if body[1..] != [] { assert body[1..][|body[1..]| - 1] == body[|body| - 1]; }
  }

  /** A body with something left below passes its first event on, and throws as well if the
      body does. */
  lemma FinishHead(throws: bool, p: Path, body: seq<Event>)
    requires body != []
    ensures Finish(throws, p, body) != []
    ensures Finish(throws, p, body)[0] == Event(body[0].path, body[0].threw || throws)
  {
    CutSettled(p, body);
  }

  /** What is left when the event did not throw out of the sections below. */
  lemma FinishTailReturned(throws: bool, p: Path, body: seq<Event>)
    requires body != [] && !body[0].threw
    ensures Finish(throws, p, body)[1..] ==
      if throws || body[1..] == [] then [] else Finish(false, p, body[1..])
  {
    CutSettled(p, body);
  }

  /** What is left when it did. */
  lemma FinishTailThrew(throws: bool, p: Path, body: seq<Event>)
    requires body != [] && body[0].threw
    ensures Finish(throws, p, body)[1..] == Finish(throws, p, body[1..])
  {
    CutSettled(p, body);
  }

  /** Both together: `done` says whether the section is complete after its first event. */
  lemma FinishSteps(throws: bool, p: Path, body: seq<Event>, done: bool)
    requires body != []
    requires done <==> if body[0].threw then false else throws || body[1..] == []
    ensures Finish(throws, p, body) != []
    ensures Finish(throws, p, body)[0] == Event(body[0].path, body[0].threw || throws)
    ensures Finish(throws, p, body)[1..] == if done then [] else Finish(throws, p, body[1..])
  {
    FinishHead(throws, p, body);
    if body[0].threw {
      FinishTailThrew(throws, p, body);
    } else {
      FinishTailReturned(throws, p, body);
    }
  }

  lemma {:induction false} EventsBelow(nodes: Nodes, p: Path, sec: Section, e: Event)
    requires e in Rem(nodes, p, sec)
    ensures p <= e.path
    decreases sec, |sec.kids| + 1
  {
    var body := RemKids(nodes, p, sec, 0);
    FinishKeepsPaths(sec.throws, p, body, e);
    if e.path != p {
      var e' :| e' in body && e'.path == e.path;
      EventsBelowKids(nodes, p, sec, 0, e');
    }
  }

  lemma {:induction false} EventsBelowKids(nodes: Nodes, p: Path, sec: Section, j: nat, e: Event)
    requires j <= |sec.kids| && e in RemKids(nodes, p, sec, j)
    ensures p < e.path
    decreases sec, |sec.kids| - j
  {
    if e in Rem(nodes, KidPath(sec, p, j), sec.kids[j]) {
      EventsBelow(nodes, KidPath(sec, p, j), sec.kids[j], e);
    } else {
      EventsBelowKids(nodes, p, sec, j + 1, e);
    }
  }

  lemma FinishKeepsPaths(throws: bool, p: Path, body: seq<Event>, e: Event)
    requires e in Finish(throws, p, body)
    ensures e.path == p || exists e' :: e' in body && e'.path == e.path
  {
    if throws { CutKeepsPaths(Settle(p, body), e); }
  }

  lemma {:induction false} CutKeepsPaths(events: seq<Event>, e: Event)
    requires e in CutAtNormal(events)
    ensures exists e' :: e' in events && e'.path == e.path
  {
    if events[0].threw && e != events[0] {
      CutKeepsPaths(events[1..], e);
      var e' :| e' in events[1..] && e'.path == e.path;
      assert e' in events;
    } else {
      assert events[0] in events;
    }
  }
}

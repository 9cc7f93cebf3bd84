/** The trackers as the objects they are: each method takes the step that `TrackerModel`
    names after it. */
module TrackerObjects {
  import opened TrackerModel
  import Schedule = TrackerSchedule
  import Test = TrackerTest

  class Tracker {
    const nameAndLocation: NameAndLocation
    const ctx: RunContext
    const parent: Tracker?
    ghost const path: Path
    var children: seq<Tracker>
    var runState: CycleState

    constructor (name: NameAndLocation, ctx: RunContext, parent: Tracker?, ghost path: Path)
      ensures nameAndLocation == name && this.ctx == ctx && this.parent == parent && this.path == path
      ensures children == [] && runState == NotStarted
    {
      nameAndLocation, this.ctx, this.parent, this.path := name, ctx, parent, path;
      children, runState := [], NotStarted;
    }

    ghost predicate In(c: RunContext)
      reads c`trackers, c`repr
    {
      path in c.trackers && c.trackers[path] == this && this in c.repr
    }

    method SetRunState(s: CycleState)
      requires ctx.Valid() && In(ctx)
      modifies this`runState
      ensures ctx.Valid()
      ensures ctx.World() == old(ctx.World()).(nodes := SetState(old(ctx.World()).nodes, path, s))
      ensures runState == s
    {
      hide Tree, RunContext.Nodes, RunContext.Linked;
      runState := s;
      StateChanged(this);
    }

    twostate lemma StateChanged(t: Tracker)
      requires old(t.ctx.Covered() && t.ctx.Links()) && t.In(t.ctx) && t.ctx.trackers == old(t.ctx.trackers)
      requires forall x :: x in old(t.ctx.repr) && x != t ==> unchanged(x)
      requires t.ctx.repr == old(t.ctx.repr)
      requires t.children == old(t.children)
      ensures t.ctx.Covered() && t.ctx.Links()
      ensures t.ctx.Nodes() == SetState(old(t.ctx.Nodes()), t.path, t.runState)
    {
      OthersSame(t);
      StateChangedLinks(t);
      StateChangedNodes(t);
    }

    twostate lemma StateChangedLinks(t: Tracker)
      requires old(t.ctx.Covered() && t.ctx.Links()) && t.ctx.trackers == old(t.ctx.trackers)
      requires t.ctx.repr == old(t.ctx.repr) && t.In(t.ctx)
      requires forall p :: p in old(t.ctx.trackers) && p != t.path ==> unchanged(old(t.ctx.trackers)[p])
      requires t.children == old(t.children)
      ensures t.ctx.Covered() && t.ctx.Links()
    {
      forall p | p in t.ctx.trackers ensures t.ctx.Linked(p) {
        assert old(t.ctx.Linked(p));
      }
    }

    twostate lemma StateChangedNodes(t: Tracker)
      requires old(t.ctx.Covered()) && t.ctx.trackers == old(t.ctx.trackers)
      requires t.ctx.repr == old(t.ctx.repr) && t.In(t.ctx)
      requires forall p :: p in old(t.ctx.trackers) && p != t.path ==> unchanged(old(t.ctx.trackers)[p])
      requires t.children == old(t.children)
      ensures t.ctx.Nodes() == SetState(old(t.ctx.Nodes()), t.path, t.runState)
    {
    }

    /** What the links of the tree say of one tracker. */
    lemma Linked()
      requires ctx.Covered() && ctx.Links() && In(ctx)
      ensures path == [] <==> parent == null
      ensures parent != null ==> parent.In(ctx) && parent.ctx == ctx && parent.path == Parent(path)
      ensures forall c :: c in children ==> c.In(ctx) && c.ctx == ctx && c.path == path + [c.nameAndLocation]
      ensures ctx.Nodes().Keys == ctx.World().nodes.Keys == ctx.trackers.Keys
      ensures ctx.Nodes()[path] == ctx.World().nodes[path] == Info(runState, Names(children))
    {
      assert ctx.Linked(path);
    }

    method OpenChild()
      requires ctx.Valid() && In(ctx)
      modifies ctx.repr
      ensures ctx.Valid()
      ensures ctx.World() == old(ctx.World()).(nodes := TrackerModel.OpenChild(old(ctx.World()).nodes, path))
      decreases |path|
    {
      hide Sound, RunContext.Nodes, RunContext.Links, RunContext.World;
      Linked();
      if runState != ExecutingChildren {
        SetRunState(ExecutingChildren);
        Linked();
        if parent != null {
          parent.OpenChild();
        }
      }
    }

    method Open()
      requires ctx.Valid() && In(ctx)
      modifies ctx, ctx.repr
      ensures ctx.Valid() && ctx.trackers == old(ctx.trackers) && ctx.repr == old(ctx.repr)
      ensures ctx.World() == TrackerModel.Open(old(ctx.World()), path)
    {
      hide Sound, RunContext.Nodes, RunContext.Links, RunContext.World, TrackerModel.OpenChild;
      Linked();
      SetRunState(Executing);
      ctx.SetCurrentTracker(this);
      Linked();
      if parent != null {
        parent.OpenChild();
      }
    }

    method FindChild(name: NameAndLocation) returns (child: Tracker?)
      requires ctx.Valid() && In(ctx)
      ensures child == null <==> name !in ctx.World().nodes[path].kids
      ensures child != null ==> child.In(ctx) && child.ctx == ctx && child.path == path + [name]
    {
      hide Tree, RunContext.Nodes, RunContext.Linked;
      Linked();
      for i := 0 to |children|
        invariant forall j :: 0 <= j < i ==> children[j].nameAndLocation != name
      {
        if children[i].nameAndLocation == name {
          assert Names(children)[i] == name;
          return children[i];
        }
      }
      return null;
    }

    method AddChild(child: Tracker)
      requires ctx.Valid() && In(ctx) && child.nameAndLocation !in ctx.World().nodes[path].kids
      requires child.path == path + [child.nameAndLocation] && child.ctx == ctx && child !in ctx.repr
      requires child.parent == this && child.children == [] && child.runState == NotStarted
      modifies this`children, ctx`trackers, ctx`repr
      ensures ctx.Valid() && ctx.trackers == old(ctx.trackers)[child.path := child]
      ensures child.path !in old(ctx.trackers) && ctx.repr == old(ctx.repr) + {child}
      ensures ctx.World() ==
        old(ctx.World()).(nodes := FindOrAdd(old(ctx.World()).nodes, path, child.nameAndLocation))
    {
      hide Tree, RunContext.Nodes, RunContext.Links, TrackerModel.AddChild;
      Linked();
      NotYet(child.path, child.nameAndLocation);
      children := children + [child];
      ctx.trackers, ctx.repr := ctx.trackers[child.path := child], ctx.repr + {child};
      ChildAdded(this, child);
      assert ctx.Nodes() == FindOrAdd(old(ctx.Nodes()), path, child.nameAndLocation);
    }

    lemma NotYet(p: Path, name: NameAndLocation)
      requires ctx.Covered() && ctx.Links() && In(ctx) && Tree(ctx.Nodes()) && p == path + [name]
      requires name !in ctx.Nodes()[path].kids
      ensures p !in ctx.trackers
    {
      assert Parent(p) == path;
    }

    twostate lemma ChildAdded(t: Tracker, new child: Tracker)
      requires old(t.ctx.Covered() && t.ctx.Links()) && old(t.In(t.ctx)) && child.ctx == t.ctx && child.parent == t
      requires child.path == t.path + [child.nameAndLocation] && child.path !in old(t.ctx.trackers)
      requires child != t && child.children == [] && child.runState == NotStarted
      requires t.ctx.trackers == old(t.ctx.trackers)[child.path := child] && t.ctx.repr == old(t.ctx.repr) + {child}
      requires forall x :: x in old(t.ctx.repr) && x != t ==> unchanged(x)
      requires t.children == old(t.children) + [child] && t.runState == old(t.runState)
      ensures t.ctx.Covered() && t.ctx.Links() && t.In(t.ctx) && old(t.path in t.ctx.Nodes())
      ensures t.ctx.Nodes() == TrackerModel.AddChild(old(t.ctx.Nodes()), t.path, child.nameAndLocation)
    {
      assert Parent(child.path) == t.path != child.path;
      OthersSame(t);
      ChildAddedLinks(t, child);
      ChildAddedNodes(t, child);
    }

    twostate lemma ChildAddedLinks(t: Tracker, new child: Tracker)
      requires t.path in old(t.ctx.trackers) && old(t.ctx.trackers)[t.path] == t
      requires old(t.ctx.Covered() && t.ctx.Links()) && child.ctx == t.ctx
      requires forall p :: p in old(t.ctx.trackers) && p != t.path ==> unchanged(old(t.ctx.trackers)[p])
      requires child.path == t.path + [child.nameAndLocation] && child.parent == t && child.children == []
      requires child.path !in old(t.ctx.trackers)
      requires t.ctx.trackers == old(t.ctx.trackers)[child.path := child] && t.ctx.repr == old(t.ctx.repr) + {child}
      requires t.children == old(t.children) + [child]
      ensures t.ctx.Covered() && t.ctx.Links()
    {
      assert Parent(child.path) == t.path != child.path;
      forall p | p in t.ctx.trackers ensures t.ctx.Linked(p) {
        if p != child.path { assert old(t.ctx.Linked(p)); }
      }
    }

    twostate lemma ChildAddedNodes(t: Tracker, new child: Tracker)
      requires t.path in old(t.ctx.trackers) && old(t.ctx.trackers)[t.path] == t && old(t.ctx.Covered())
      requires forall p :: p in old(t.ctx.trackers) && p != t.path ==> unchanged(old(t.ctx.trackers)[p])
      requires child.path != t.path && child.path == t.path + [child.nameAndLocation]
      requires child.children == [] && child.runState == NotStarted
      requires t.ctx.trackers == old(t.ctx.trackers)[child.path := child] && t.ctx.repr == old(t.ctx.repr) + {child}
      requires t.children == old(t.children) + [child] && t.runState == old(t.runState)
      ensures old(t.path in t.ctx.Nodes())
      ensures t.ctx.Nodes() == TrackerModel.AddChild(old(t.ctx.Nodes()), t.path, child.nameAndLocation)
    {
      var now, was := t.ctx.Nodes(), old(t.ctx.Nodes());
      assert Names(t.children) == Names(old(t.children)) + [child.nameAndLocation];
      var added := TrackerModel.AddChild(was, t.path, child.nameAndLocation);
      assert now.Keys == added.Keys;
      forall p | p in now ensures now[p] == added[p] {
        if p != t.path && p != child.path {
          assert t.ctx.trackers[p] == old(t.ctx.trackers)[p];
        }
      }
    }

    twostate lemma OthersSame(t: Tracker)
      requires old(t.ctx.Covered() && t.ctx.Links())
      requires forall x :: x in old(t.ctx.repr) && x != t ==> unchanged(x)
      ensures forall p :: p in old(t.ctx.trackers) && p != t.path ==> unchanged(old(t.ctx.trackers)[p])
    {
      forall p | p in old(t.ctx.trackers) && p != t.path ensures unchanged(old(t.ctx.trackers)[p]) {
        assert old(t.ctx.trackers[p]) in old(t.ctx.repr);
        assert old(t.ctx.trackers[p].path) == p;
      }
    }

    lemma LastChild()
      requires ctx.Covered() && ctx.Links() && In(ctx) && children != []
      ensures var nodes, last := ctx.World().nodes, children[|children| - 1];
        path in nodes && var kids := nodes[path].kids;
        kids != [] && path + [kids[|kids| - 1]] in nodes &&
        nodes[path + [kids[|kids| - 1]]].state == last.runState
    {
      assert ctx.Linked(path);
      var last := children[|children| - 1];
      assert last in children && Names(children)[|children| - 1] == last.nameAndLocation;
    }

    /** Whether `close` finds this tracker finished. */
    ghost predicate Finished(w: World)
      requires path in w.nodes
    {
      var info := w.nodes[path];
      info.state == Executing ||
      (info.state == ExecutingChildren &&
       (info.kids == [] ||
        (path + [info.kids[|info.kids| - 1]] in w.nodes &&
         w.nodes[path + [info.kids[|info.kids| - 1]]].state.IsComplete())))
    }

    /** The switch in TrackerBase::close. */
    method CloseState() returns (logical: bool)
      requires ctx.Valid() && In(ctx)
      modifies this`runState
      ensures ctx.Valid() && path in old(ctx.World()).nodes
      ensures logical <==> old(runState).IsOpen()
      ensures ctx.World() == old(ctx.World()).(nodes :=
        if Finished(old(ctx.World())) then SetState(old(ctx.World()).nodes, path, CompletedSuccessfully)
        else old(ctx.World()).nodes)
    {
      hide Sound, RunContext.Nodes, RunContext.Links, RunContext.World, SetState;
      Linked();
      if children != [] { LastChild(); }
      logical := true;
      match runState {
        case NotStarted | CompletedSuccessfully | Failed =>
          logical := false;
        case NeedsAnotherRun =>
        case Executing =>
          SetRunState(CompletedSuccessfully);
        case ExecutingChildren =>
          if children == [] || children[|children| - 1].runState.IsComplete() {
            SetRunState(CompletedSuccessfully);
          }
      }
    }

    /** TrackerBase::close of the current tracker. */
    method CloseCurrent()
      requires ctx.Valid() && In(ctx) && ctx.current == this
      modifies ctx, ctx.repr
      ensures ctx.Valid() && ctx.trackers == old(ctx.trackers) && ctx.repr == old(ctx.repr)
      ensures ctx.World() == TrackerModel.CloseCurrent(old(ctx.World()))
    {
      hide Sound, RunContext.Nodes, RunContext.Links, RunContext.World, SetState;
      Linked();
      ctx.CurrentPath();
      CurrentClosed();
      if parent == null {
        ctx.LogicError();
        return;
      }
      var logical := CloseState();
      if logical {
        MoveToParent();
        ctx.CompleteCycle();
      } else {
        ctx.LogicError();
        MoveToParent();
      }
    }

    lemma CurrentClosed()
      requires ctx.Valid() && In(ctx) && ctx.current == this
      ensures var w := ctx.World();
        path in w.nodes &&
        var nodes := if Finished(w) then SetState(w.nodes, path, CompletedSuccessfully) else w.nodes;
        TrackerModel.CloseCurrent(w) ==
          if path == [] then w.(illogical := true)
          else if !runState.IsOpen() then w.(illogical := true, current := Parent(path))
          else w.(nodes := nodes, current := Parent(path), completed := true)
    {
      Linked();
      if children != [] { LastChild(); }
    }

    method MoveToParent()
      requires ctx.Valid() && In(ctx) && parent != null
      modifies ctx`current
      ensures ctx.Valid() && ctx.current == parent && path != []
      ensures ctx.World() == old(ctx.World()).(current := Parent(path))
    {
      Linked();
      ctx.SetCurrentTracker(parent);
    }

    method Close()
      requires ctx.Valid() && In(ctx)
      modifies ctx, ctx.repr
      ensures ctx.Valid() && ctx.trackers == old(ctx.trackers) && ctx.repr == old(ctx.repr)
      ensures ctx.World() == TrackerModel.Close(old(ctx.World()), path)
    {
      hide Sound, RunContext.Nodes, RunContext.Links, RunContext.World, TrackerModel.CloseCurrent;
      ctx.CurrentPath();
      while ctx.current != this && ctx.current.parent != null
        invariant ctx.Valid() && In(ctx) && ctx.trackers == old(ctx.trackers) && ctx.repr == old(ctx.repr)
        invariant TrackerModel.Close(ctx.World(), path) == TrackerModel.Close(old(ctx.World()), path)
        decreases |ctx.current.path|
      {
        ctx.CurrentPath();
        ctx.current.CloseCurrent();
        ctx.CurrentPath();
      }
      ctx.CurrentPath();
      ctx.current.CloseCurrent();
    }

    method Fail()
      requires ctx.Valid() && In(ctx) && path != []
      modifies ctx, ctx.repr
      ensures ctx.Valid() && ctx.trackers == old(ctx.trackers) && ctx.repr == old(ctx.repr)
      ensures ctx.World() == TrackerModel.Fail(old(ctx.World()), path)
    {
      hide Sound, RunContext.Nodes, RunContext.Links, RunContext.World, SetState;
      Linked();
      SetRunState(Failed);
      Linked();
      if parent != null {
        parent.SetRunState(NeedsAnotherRun);
      }
      Linked();
      MoveToParent();
      ctx.CompleteCycle();
    }
  }

  class RunContext {
    var root: Tracker?
    var current: Tracker?
    var completedCycle: bool
    var activeSections: seq<Tracker>
    var unfinishedSections: nat
    ghost var entered: seq<Path>
    var illogical: bool
    ghost var trackers: map<Path, Tracker>
    ghost var repr: set<Tracker>

    ghost predicate Covered()
      reads this`trackers, this`repr
    {
      forall p {:trigger trackers[p]} :: p in trackers ==> trackers[p] in repr
    }

    ghost function Nodes(): Nodes
      requires Covered()
      reads this`trackers, this`repr, repr
    {
      map p | p in trackers :: Info(trackers[p].runState, Names(trackers[p].children))
    }

    ghost function World(): World
      requires Covered()
      reads this, repr
    {
      TrackerModel.World(
        Nodes(), if current == null then [] else current.path, completedCycle,
        Paths(activeSections), unfinishedSections, entered, illogical)
    }

    ghost predicate Linked(p: Path)
      requires p in trackers
      reads this`trackers, this`repr, repr, trackers[p]
    {
      var t := trackers[p];
      (p == [] <==> t.parent == null) &&
      (p != [] ==> t.nameAndLocation == p[|p| - 1] && Parent(p) in trackers && trackers[Parent(p)] == t.parent) &&
      forall c :: c in t.children ==> c.path == p + [c.nameAndLocation] && c.In(this)
    }

    /** The trackers are a tree, each found under its own path. */
    ghost predicate Links()
      requires Covered()
      reads this`trackers, this`repr, repr
    {
      (forall p {:trigger trackers[p]} :: p in trackers ==> trackers[p].path == p && trackers[p].ctx == this) &&
      forall p {:trigger Linked(p)} :: p in trackers ==> Linked(p)
    }

    ghost predicate Valid()
      reads this, repr
    {
      Covered() && Links() && Sound(World()) &&
      root != null && root.In(this) && root.path == [] &&
      current != null && current.In(this) && (forall t :: t in activeSections ==> t.In(this))
    }

    /** Trackers are only ever added. */
    ghost predicate Grown(was: map<Path, Tracker>)
      reads this`trackers
    {
      forall p :: p in was ==> p in trackers && trackers[p] == was[p]
    }

    lemma CurrentPath()
      requires Valid()
      ensures World().current == current.path && current.In(this) && current.ctx == this
      ensures current.parent == null <==> current.path == []
      ensures World().completed == completedCycle && World().unfinished == unfinishedSections
      ensures World().active == Paths(activeSections) && |World().active| == |activeSections|
      ensures activeSections != [] ==>
        var last := activeSections[|activeSections| - 1];
        last.In(this) && last.ctx == this && last.path == World().active[|World().active| - 1] && last.path != []
    {
      current.Linked();
    }

    method SetCurrentTracker(t: Tracker)
      requires Valid() && t.In(this)
      modifies this`current
      ensures Valid() && current == t
      ensures World() == old(World()).(current := t.path)
    {
      assert t.path in Nodes();
      hide Nodes, Links, Tree;
      current := t;
    }

    method CompleteCycle()
      requires Valid()
      modifies this`completedCycle
      ensures Valid() && World() == old(World()).(completed := true)
    {
      hide Nodes, Links, Tree;
      completedCycle := true;
    }

    /** Stands for the std::logic_error that the tracker throws. */
    method LogicError()
      requires Valid()
      modifies this`illogical
      ensures Valid() && World() == old(World()).(illogical := true)
    {
      hide Nodes, Links, Tree;
      illogical := true;
    }

    /** TrackerContext::startRun. */
    constructor ()
      ensures Valid() && fresh(repr) && World() == Start
    {
      hide Sound, Tree;
      completedCycle, activeSections, unfinishedSections, entered, illogical := false, [], 0, [], false;
      root, current, trackers, repr := null, null, map[], {};
      new;
      root := new Tracker(NameAndLocation("{root}", "", 0), this, null, []);
      current, trackers, repr := root, map[[] := root], {root};
      assert Nodes() == map[[] := Info(NotStarted, [])];
      assert World() == Start;
      StartSound();
      assert Linked([]);
    }

    /** TrackerContext::startCycle. */
    method StartCycle()
      requires Valid()
      modifies this`current, this`completedCycle
      ensures Valid() && World() == old(World()).(current := [], completed := false)
    {
      SetCurrentTracker(root);
      hide Nodes, Links, Tree;
      completedCycle := false;
    }

    /** The first half of SectionTracker::acquire. */
    method FindOrAdd(name: NameAndLocation) returns (section: Tracker)
      requires Valid()
      modifies this, repr
      ensures Valid() && fresh(repr - old(repr)) && Grown(old(trackers))
      ensures section.In(this) && section.ctx == this
      ensures old(World()).current in old(World()).nodes && Tree(old(World()).nodes)
      ensures section.path == old(World()).current + [name]
      ensures World() == old(World()).(nodes := TrackerModel.FindOrAdd(old(World()).nodes, old(World()).current, name))
    {
      hide Tree, Nodes, Links, World;
      CurrentPath();
      current.Linked();
      var found := current.FindChild(name);
      if found == null {
        section := new Tracker(name, this, current, current.path + [name]);
        current.AddChild(section);
      } else {
        section := found;
      }
    }

    /** SectionTracker::acquire and tryOpen. */
    method Acquire(name: NameAndLocation) returns (section: Tracker)
      requires Valid()
      modifies this, repr
      ensures Valid() && fresh(repr - old(repr)) && Grown(old(trackers))
      ensures section.In(this) && section.ctx == this
      ensures section.path == old(World()).current + [name]
      ensures World() == TrackerModel.Acquire(old(World()), name)
    {
      hide Sound, Nodes, Links, World, TrackerModel.Open;
      section := FindOrAdd(name);
      CurrentPath();
      section.Linked();
      if !completedCycle && !section.runState.IsComplete() {
        section.Open();
      }
    }

    /** RunContext::sectionStarted. */
    method SectionStarted(name: NameAndLocation) returns (included: bool)
      requires Valid()
      modifies this, repr
      ensures Valid() && fresh(repr - old(repr)) && Grown(old(trackers))
      ensures (World(), included) == TrackerModel.SectionStarted(old(World()), name)
    {
      hide Sound, Nodes, Links, TrackerModel.Acquire;
      var section := Acquire(name);
      section.Linked();
      included := section.runState.IsOpen();
      if included {
        PushActive(section);
      }
    }

    method PushActive(section: Tracker)
      requires Valid() && section.In(this) && section.ctx == this && section.path != []
      modifies this`activeSections, this`entered
      ensures Valid()
      ensures World() ==
        old(World()).(active := old(World()).active + [section.path], entered := old(World()).entered + [section.path])
    {
      hide Tree, Nodes, Links;
      assert section.path in Nodes() by { section.Linked(); }
      activeSections := activeSections + [section];
      entered := entered + [section.path];
      assert Paths(activeSections) == old(Paths(activeSections)) + [section.path];
    }

    method PopActive()
      requires Valid() && activeSections != []
      modifies this`activeSections
      ensures Valid()
      ensures World() == old(World()).(active := old(World()).active[..|old(World()).active| - 1])
    {
      hide Tree, Nodes, Links;
      activeSections := activeSections[..|activeSections| - 1];
      assert Paths(activeSections) == old(Paths(activeSections))[..|activeSections|];
      forall q | q in World().active ensures q in old(World()).active {
      }
    }

    /** RunContext::sectionEnded. */
    method SectionEnded()
      requires Valid()
      modifies this, repr
      ensures Valid() && trackers == old(trackers) && repr == old(repr)
      ensures World() == TrackerModel.SectionEnded(old(World()))
    {
      hide Sound, Nodes, Links, World, TrackerModel.Close;
      CurrentPath();
      if activeSections != [] {
        activeSections[|activeSections| - 1].Close();
        CurrentPath();
        PopActive();
      }
    }

    /** RunContext::sectionEndedEarly. */
    method SectionEndedEarly()
      requires Valid() && activeSections != []
      modifies this, repr
      ensures Valid() && trackers == old(trackers) && repr == old(repr)
      ensures old(World()).active != [] && World() == TrackerModel.SectionEndedEarly(old(World()))
    {
      hide Sound, Nodes, Links, World, TrackerModel.Close, TrackerModel.Fail;
      CurrentPath();
      if unfinishedSections == 0 {
        activeSections[|activeSections| - 1].Fail();
      } else {
        activeSections[|activeSections| - 1].Close();
      }
      CurrentPath();
      PopActive();
      CountUnfinished(unfinishedSections + 1);
    }

    method CountUnfinished(n: nat)
      requires Valid()
      modifies this`unfinishedSections
      ensures Valid() && World() == old(World()).(unfinished := n)
    {
      hide Tree, Nodes, Links;
      unfinishedSections := n;
    }

    /** One SECTION block of a test. */
    method RunSection(sec: Section) returns (threw: bool)
      requires Valid()
      modifies this, repr
      ensures Valid() && fresh(repr - old(repr)) && Grown(old(trackers))
      ensures (World(), threw) == TrackerModel.RunSection(old(World()), sec)
      decreases sec, |sec.kids| + 1
    {
      hide Sound, Nodes, Links, World, TrackerModel.SectionStarted, TrackerModel.SectionEnded,
           TrackerModel.SectionEndedEarly;
      var included := SectionStarted(sec.name);
      if !included {
        return false;
      }
      threw := RunBody(sec);
      CurrentPath();
      if threw {
        SectionEndedEarly();
      } else {
        SectionEnded();
      }
    }

    /** A body: its sections in order, until one of them throws. */
    method RunBody(sec: Section) returns (threw: bool)
      requires Valid()
      modifies this, repr
      ensures Valid() && fresh(repr - old(repr)) && Grown(old(trackers))
      ensures (World(), threw) == TrackerModel.RunBody(old(World()), sec, 0)
      decreases sec, |sec.kids|
    {
      hide Sound, Nodes, Links, World, TrackerModel.RunSection;
      for j := 0 to |sec.kids|
        invariant Valid() && fresh(repr - old(repr)) && Grown(old(trackers))
        invariant TrackerModel.RunBody(World(), sec, j) == TrackerModel.RunBody(old(World()), sec, 0)
      {
        threw := RunSection(sec.kids[j]);
        if threw {
          return;
        }
      }
      threw := sec.throws;
    }

    /** RunContext::handleUnfinishedSections. */
    method HandleUnfinishedSections()
      requires Valid()
      modifies this, repr
      ensures Valid() && trackers == old(trackers) && repr == old(repr)
      ensures World() == HandleUnfinished(old(World()), old(World()).unfinished)
    {
      hide Sound, Nodes, Links, World, TrackerModel.SectionEnded;
      CurrentPath();
      ghost var was := World();
      var n := unfinishedSections;
      for i := 0 to n
        invariant Valid() && trackers == old(trackers) && repr == old(repr)
        invariant HandleUnfinished(World(), n - i) == HandleUnfinished(was, n)
      {
        SectionEnded();
      }
      CountUnfinished(0);
    }

    ghost method EnterTest(p: Path)
      requires Valid()
      modifies this`entered
      ensures Valid() && World() == old(World()).(entered := old(World()).entered + [p])
    {
      hide Tree, Nodes, Links;
      entered := entered + [p];
    }

    /** RunContext::runCurrentTest. */
    method RunCurrentTest(test: Section, tracker: Tracker)
      requires Valid() && tracker.In(this) && tracker.ctx == this && tracker.path == [test.name]
      modifies this, repr
      ensures Valid() && fresh(repr - old(repr)) && tracker.In(this)
      ensures World() == TrackerModel.RunCurrentTest(old(World()), test)
    {
      hide Sound, Nodes, Links, World, TrackerModel.RunBody, TrackerModel.Close, HandleUnfinished;
      EnterTest([test.name]);
      var _ := RunBody(test);
      tracker.Close();
      HandleUnfinishedSections();
    }

    /** One pass of the inner loop of RunContext::runTest; the test case's tracker. */
    method RunCycle(test: Section) returns (tracker: Tracker)
      requires Valid()
      modifies this, repr
      ensures Valid() && fresh(repr - old(repr))
      ensures World() == TrackerModel.RunCycle(old(World()), test)
      ensures tracker.path == Test.TestPath(test)
      ensures tracker.path in World().nodes && World().nodes[tracker.path].state == tracker.runState
    {
      hide Sound, Nodes, Links, World, TrackerModel.RunCurrentTest, TrackerModel.Acquire;
      StartCycle();
      tracker := Acquire(test.name);
      assert [] + [test.name] == [test.name];
      RunCurrentTest(test, tracker);
      tracker.Linked();
    }

    /** The inner loop of RunContext::runTest, from the start of a run. */
    method RunTest(test: Section)
      requires Valid() && World() == Start && DistinctNames(test)
      modifies this, repr
      ensures Valid() && World() == Test.Whole(test)
    {
      hide Links, Sound, World, Grown, TrackerModel.RunCycle, Test.Going, Test.TestLeft, Test.Whole, DistinctNames;
      Test.StartGoing(test);
      var again := true;
      while again
        invariant Valid() && fresh(repr - old(repr))
        invariant if again then Test.Going(World(), test) else World() == Test.Whole(test)
        decreases if again then |Test.TestLeft(World().nodes, test)| + 1 else 0
      {
        Test.RunSteps(World(), test);
        var tracker := RunCycle(test);
        again := tracker.runState != CompletedSuccessfully;
      }
    }
  }

  ghost function Names(ts: seq<Tracker>): seq<NameAndLocation> {
    seq(|ts|, i requires 0 <= i < |ts| => ts[i].nameAndLocation)
  }

  ghost function Paths(ts: seq<Tracker>): seq<Path> {
    seq(|ts|, i requires 0 <= i < |ts| => ts[i].path)
  }
}

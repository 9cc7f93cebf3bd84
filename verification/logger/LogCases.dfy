/** One call of `log` as a whole, and the runs that show where the log machine fails. */
module LogCases {
  import opened LogMachine
  import opened LogRuns

  // ----- runs put together

  lemma {:induction false} Join(s: State, a: seq<Action>, b: seq<Action>)
    requires InBounds(s)
    ensures Exec(s, a + b) == Exec(Exec(s, a), b)
    ensures Calm(s, a + b) <==> Calm(s, a) && Calm(Exec(s, a), b)
    ensures Orderly(s, a + b) <==> Orderly(s, a) && Orderly(Exec(s, a), b)
    decreases |a|
  {
    hide Next, Torn, EmptyPrint, InBounds;
    if a == [] {
      assert a + b == b;
    } else {
      assert (a + b)[0] == a[0] && (a + b)[1..] == a[1..] + b;
      StepInBounds(s, a[0]);
      Join(Next(s, a[0]), a[1..], b);
    }
  }

  /** A run and one step more. */
  lemma Extend(s: State, actions: seq<Action>, a: Action)
    requires InBounds(s)
    ensures InBounds(Exec(s, actions)) && Usable(Exec(s, actions))
    ensures Exec(s, actions + [a]) == Next(Exec(s, actions), a)
    ensures Calm(s, actions + [a]) <==> Calm(s, actions) && !Torn(Exec(s, actions), a)
    ensures Orderly(s, actions + [a]) <==> Orderly(s, actions) && !EmptyPrint(Exec(s, actions), a)
  {
    hide Next, Torn, EmptyPrint, InBounds;
    var r := Exec(s, actions);
    StepInBounds(r, a);
    assert [a][1..] == [];
    assert Exec(r, [a]) == Exec(Next(r, a), []);
    Join(s, actions, [a]);
  }

  lemma Empty(s: State) returns (actions: seq<Action>)
    requires InBounds(s)
    ensures actions == [] && Exec(s, actions) == s && Calm(s, actions) && Orderly(s, actions)
  {
    actions := [];
  }

  /** A run one step longer, the step neither torn nor an empty print. */
  lemma Stepped(s: State, before: seq<Action>, a: Action) returns (actions: seq<Action>)
    requires InBounds(s) && Calm(s, before) && Orderly(s, before)
    requires !Torn(Exec(s, before), a) && !EmptyPrint(Exec(s, before), a)
    ensures actions == before + [a] && Usable(Exec(s, before)) && Exec(s, actions) == Next(Exec(s, before), a)
    ensures Calm(s, actions) && Orderly(s, actions)
  {
    Extend(s, before, a);
    actions := before + [a];
  }

  // ----- a call that is not interrupted

  /** The line stored and `_next` moved, or nothing when no slot is left. */
  function Finished(s: State, call: Line): State
    requires InBounds(s) && s.producer == Idle
  {
    if IsFull(s) then s
    else
      s.(slots := s.slots[s.next := Entry(s.slots[s.next].seqNo + 1, call)],
         next := if s.next + 1 == Size(s) then 0 else s.next + 1,
         accepted := s.accepted + [call])
  }

  function Logged(s: State, call: Line): State
    requires InBounds(s) && s.producer == Idle
  {
    if call.priority > s.level || s.state != Run then s else Finished(s, call)
  }

  function AnswerOf(s: State, call: Line): Answer
    requires InBounds(s)
  {
    if call.priority > s.level then Filtered
    else if s.state != Run then HasStopped
    else if IsFull(s) then CacheFull
    else Success
  }

  /** The producer has come from `s` to `t` within the call, and nothing else has moved. */
  ghost predicate During(s: State, t: State, call: Line) {
    InBounds(s) && s.producer == Idle && InBounds(t) &&
    match t.producer
    case Idle => t == Finished(s, call)
    case StateTested(line) => line == call && t == s.(producer := t.producer)
    case Filling(line, k) =>
      line == call && k <= 6 && !IsFull(s) && |t.slots| == |s.slots| && Stored(t.slots[s.next].line, call, k) &&
      t.slots[s.next].seqNo == s.slots[s.next].seqNo + (if k == 6 then 1 else 0) &&
      t == s.(slots := s.slots[s.next := t.slots[s.next]], producer := t.producer)
    case Wrapping =>
      !IsFull(s) && s.next + 1 == Size(s) && t == Finished(s, call).(next := Size(s), producer := Wrapping)
  }

  /** How many steps the call has left. */
  function Left(p: Producer): nat {
    match p
    case Idle => 0
    case StateTested(_) => 9
    case Filling(_, k) => if k <= 6 then 8 - k else 2
    case Wrapping => 1
  }

  lemma CallStep(s: State, t: State, call: Line)
    requires During(s, t, call) && t.producer != Idle
    ensures Usable(t) && During(s, Produce(t, call).0, call) && Left(Produce(t, call).0.producer) < Left(t.producer)
    ensures Produce(t, call).0.producer == Idle ==>
      Produce(t, call).1 == if IsFull(s) then CacheFull else Success
  {
    StepInBounds(t, Produces(call));
    assert t.producer.StateTested? ==> IsFull(t) == IsFull(s);
  }

  function Calls(n: nat, call: Line): seq<Action> { seq(n, _ => Produces(call)) }

  lemma {:induction false} CallRuns(s: State, t: State, call: Line) returns (n: nat)
    requires During(s, t, call)
    ensures Exec(t, Calls(n, call)) == Finished(s, call)
    ensures Calm(t, Calls(n, call)) && Orderly(t, Calls(n, call))
    decreases Left(t.producer)
  {
    hide Produce, Finished, InBounds, IsFull, Stored;
    if t.producer == Idle {
      n := 0;
      AtEnd(s, t, call);
      assert Calls(n, call) == [];
    } else {
      CallStep(s, t, call);
      var m := CallRuns(s, Produce(t, call).0, call);
      n := m + 1;
      assert Calls(n, call)[1..] == Calls(m, call);
    }
  }

  lemma AtEnd(s: State, t: State, call: Line)
    requires During(s, t, call) && t.producer == Idle
    ensures t == Finished(s, call)
  {
  }

  // ----- a shutdown too late for a call

  /** A shutdown between a call's test of the state and its store can leave an accepted line unprinted. */
  lemma LateLineIsLost(s: State, call: Line) returns (actions: seq<Action>)
    requires IsInit(s) && Size(s) >= 2 && call.priority <= s.level
    ensures Calm(s, actions)
    ensures var r := Exec(s, actions);
      r.worker == Done && r.producer == Idle && r.printed == [] && r.accepted == [call]
  {
    hide Exec, Calm, Orderly;
    actions := [];
    var a := Empty(s);
    a := Stepped(s, a, Produces(call));
    a := Stepped(s, a, ShutsDown);
    a := Stepped(s, a, Works);
    a := Stepped(s, a, Works);
    a := Stepped(s, a, Works);
    var t := s.(state := Stopped, worker := Done);
    assert During(t, Exec(s, a), call);
    var n := CallRuns(t, Exec(s, a), call);
    Join(s, a, Calls(n, call));
    FullIsOneLeft(t);
    actions := a + Calls(n, call);
  }

  // ----- torn comparisons

  /** Worker and producer have nothing to do and the ring is empty. */
  ghost predicate Ready(s: State, call: Line) {
    InBounds(s) && Size(s) >= 2 && s.worker == Looking && s.producer == Idle && s.state == Run &&
    s.count == 0 && s.next == s.written && call.priority <= s.level
  }

  /** A call begun at once and finished before anything else happens. */
  lemma CallNow(s: State, before: seq<Action>, call: Line) returns (actions: seq<Action>)
    requires InBounds(s) && Calm(s, before) && Orderly(s, before)
    requires var r := Exec(s, before); r.producer == Idle && r.state == Run && call.priority <= r.level
    ensures Exec(s, actions) == Finished(Exec(s, before), call)
    ensures Calm(s, actions) && Orderly(s, actions)
  {
    hide Exec, Calm, Orderly, Finished, IsFull, Stored;
    var a := Stepped(s, before, Produces(call));
    var n := CallRuns(Exec(s, before), Exec(s, a), call);
    Join(s, a, Calls(n, call));
    actions := a + Calls(n, call);
  }

  /** A line logged and printed, so that both indices move on by one. */
  lemma OneRound(s: State, before: seq<Action>, call: Line) returns (actions: seq<Action>)
    requires InBounds(s) && Calm(s, before) && Orderly(s, before)
    requires Ready(Exec(s, before), call) && Exec(s, before).next + 1 < Size(s)
    ensures Calm(s, actions) && Orderly(s, actions)
    ensures Ready(Exec(s, actions), call) && Exec(s, actions).next == Exec(s, before).next + 1
  {
    hide Exec, Calm, Orderly, IsFull;
    FullIsOneLeft(Exec(s, before));
    actions := CallNow(s, before, call);
    actions := Stepped(s, actions, Works);
    actions := Stepped(s, actions, Works);
    actions := Stepped(s, actions, Works);
    actions := Stepped(s, actions, Works);
    actions := Stepped(s, actions, Works);
    actions := Stepped(s, actions, Works);
    actions := Stepped(s, actions, Works);
  }

  /** Both indices at the last slot. */
  lemma {:induction false} Rounds(s: State, before: seq<Action>, call: Line) returns (actions: seq<Action>)
    requires InBounds(s) && Calm(s, before) && Orderly(s, before) && Ready(Exec(s, before), call)
    ensures Calm(s, actions) && Orderly(s, actions)
    ensures Ready(Exec(s, actions), call) && Exec(s, actions).next + 1 == Size(s)
    decreases Size(s) - Exec(s, before).next
  {
    hide Exec, Calm, Orderly;
    actions := before;
    if Exec(s, before).next + 1 < Size(s) {
      var a := OneRound(s, before, call);
      actions := Rounds(s, a, call);
    }
  }

  /** A call at the last slot, up to where the second store to `_next` is due. */
  lemma {:induction false} WrapRuns(s: State, t: State, call: Line) returns (n: nat)
    requires During(s, t, call) && t.producer != Idle && s.next + 1 == Size(s) && !IsFull(s)
    ensures Exec(t, Calls(n, call)) == Finished(s, call).(next := Size(s), producer := Wrapping)
    ensures Calm(t, Calls(n, call)) && Orderly(t, Calls(n, call))
    decreases Left(t.producer)
  {
    hide Produce, Finished, InBounds, IsFull, Stored;
    if t.producer == Wrapping {
      n := 0;
      assert Calls(n, call) == [];
    } else {
      NotDone(s, t, call);
      CallStep(s, t, call);
      var m := WrapRuns(s, Produce(t, call).0, call);
      n := m + 1;
      assert Calls(n, call)[1..] == Calls(m, call);
    }
  }

  lemma NotDone(s: State, t: State, call: Line)
    requires During(s, t, call) && t.producer != Idle && t.producer != Wrapping && s.next + 1 == Size(s) && !IsFull(s)
    ensures Usable(t) && Produce(t, call).0.producer != Idle
  {
    StepInBounds(t, Produces(call));
    assert t.producer.StateTested? ==> IsFull(t) == IsFull(s);
  }

  /** With any number of slots there are runs that end in a torn comparison. */
  lemma TornTestHappens(s: State, call: Line) returns (actions: seq<Action>)
    requires IsInit(s) && Size(s) >= 2 && call.priority <= s.level
    ensures Calm(s, actions) && Torn(Exec(s, actions), Works)
  {
    hide Exec, Calm, Orderly, IsFull, Finished;
    actions := Empty(s);
    actions := Rounds(s, actions, call);
    actions := UpToWrap(s, actions, call);
    actions := Stepped(s, actions, Works);
    actions := Stepped(s, actions, Works);
    actions := Stepped(s, actions, Works);
    actions := Stepped(s, actions, Works);
    actions := Stepped(s, actions, Works);
    actions := Stepped(s, actions, Works);
  }

  lemma UpToWrap(s: State, before: seq<Action>, call: Line) returns (actions: seq<Action>)
    requires InBounds(s) && Calm(s, before) && Orderly(s, before)
    requires Ready(Exec(s, before), call) && Exec(s, before).next + 1 == Size(s)
    ensures Calm(s, actions) && Orderly(s, actions)
    ensures var r := Exec(s, actions); var b := Exec(s, before);
      r.next == Size(s) && r.producer == Wrapping && r.worker == Looking && r.state == Run && r.count == 0 &&
      r.written == b.written
  {
    hide Exec, Calm, Orderly, IsFull, Stored;
    var b := Exec(s, before);
    FullIsOneLeft(b);
    var a := Stepped(s, before, Produces(call));
    var n := WrapRuns(b, Exec(s, a), call);
    Join(s, a, Calls(n, call));
    actions := a + Calls(n, call);
  }

  /** A torn comparison followed at once by the worker's next step prints a line that was not accepted. */
  lemma TornPrintsTooMuch(s: State)
    requires Inv(s) && Torn(s, Works)
    ensures !Fifo(s, [Works, Works])
  {
    StepInBounds(s, Works);
    FifoExactly(s, [Works, Works]);
    assert [Works, Works][1..] == [Works];
  }

  /** But when the next call comes to its end before that step, nothing is wrong. */
  lemma TornHealed(s: State, call: Line) returns (actions: seq<Action>)
    requires Inv(s) && Torn(s, Works) && s.state == Run && Size(s) >= 2 && call.priority <= s.level
    ensures actions != [] && actions[0] == Works && !Calm(s, actions)
    ensures Orderly(s, actions) && Fifo(s, actions)
    ensures Exec(s, actions).printed == s.accepted + [call] == Exec(s, actions).accepted
  {
    hide Exec, Calm, Orderly, IsFull, Finished, Fifo, Ring, RingOf, Stored;
    StepInBounds(s, Works);
    var t := Work(s);
    var a := Empty(t);
    a := Stepped(t, a, Produces(call));
    FullIsOneLeft(Exec(t, a));
    a := CallNow(t, a, call);
    PrintsIt(s, t, Exec(t, a), call);
    a := Stepped(t, a, Works);
    actions := [Works] + a;
    FrontStep(s, Works, a);
    FifoExactly(s, actions);
  }

  lemma PrintsIt(s: State, t: State, u: State, call: Line)
    requires Inv(s) && Torn(s, Works) && s.state == Run && Size(s) >= 2 && Usable(s) && t == Work(s)
    requires var w := t.(next := 0, producer := Idle); InBounds(w) && !IsFull(w) && u == Finished(w, call)
    ensures s.printed == s.accepted && u.worker.Printing? && u.written == 0 && u.next == 1 && InBounds(u) && Length(u) == 1
    ensures u.slots[0].line == call && u.printed == s.printed && u.accepted == s.accepted + [call]
  {
  }

  lemma FrontStep(s: State, a: Action, actions: seq<Action>)
    requires InBounds(s)
    ensures Usable(s) && InBounds(Next(s, a)) && Exec(s, [a] + actions) == Exec(Next(s, a), actions)
    ensures Calm(s, [a] + actions) <==> !Torn(s, a) && Calm(Next(s, a), actions)
    ensures Orderly(s, [a] + actions) <==> !EmptyPrint(s, a) && Orderly(Next(s, a), actions)
  {
    hide Next, Torn, EmptyPrint, InBounds;
    StepInBounds(s, a);
    assert ([a] + actions)[1..] == actions;
  }
}

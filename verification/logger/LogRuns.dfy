/** Whole runs of the log machine: when they print in order, and when they print everything. */
module LogRuns {
  import opened LogMachine

  /** The state after a run, whatever its steps. */
  ghost function Exec(s: State, actions: seq<Action>): (r: State)
    requires InBounds(s)
    ensures InBounds(r) && Size(r) == Size(s)
    decreases |actions|
  {
    if actions == [] then s
    else
      StepInBounds(s, actions[0]);
      Exec(Next(s, actions[0]), actions[1..])
  }

  /** No step prints although nothing waits. */
  ghost predicate Orderly(s: State, actions: seq<Action>)
    requires InBounds(s)
    decreases |actions|
  {
    actions != [] ==>
      !EmptyPrint(s, actions[0]) &&
      (StepInBounds(s, actions[0]);
       Orderly(Next(s, actions[0]), actions[1..]))
  }

  lemma {:induction false} OrderlyKeeps(s: State, actions: seq<Action>)
    requires Inv(s) && Orderly(s, actions)
    ensures Inv(Exec(s, actions))
    decreases |actions|
  {
    hide Inv, Next, EmptyPrint;
    if actions != [] {
      StepKeeps(s, actions[0]);
      OrderlyKeeps(Next(s, actions[0]), actions[1..]);
    }
  }

  // ----- printing in order

  /** At every moment of the run the lines printed are the first of the accepted lines, in order. */
  ghost predicate Fifo(s: State, actions: seq<Action>)
    requires InBounds(s)
  {
    forall k :: 0 <= k <= |actions| ==> Exec(s, actions[..k]).printed <= Exec(s, actions[..k]).accepted
  }

  lemma {:induction false} FifoUnfolds(s: State, actions: seq<Action>)
    requires InBounds(s) && actions != []
    ensures Usable(s) && InBounds(Next(s, actions[0]))
    ensures Fifo(s, actions) <==> s.printed <= s.accepted && Fifo(Next(s, actions[0]), actions[1..])
  {
    hide Next, InBounds;
    StepInBounds(s, actions[0]);
    var t := Next(s, actions[0]);
    forall k | 0 <= k <= |actions[1..]| ensures Exec(s, actions[..k + 1]) == Exec(t, actions[1..][..k]) {
      assert actions[..k + 1][1..] == actions[1..][..k];
    }
    assert Exec(s, actions[..0]) == s;
    if s.printed <= s.accepted && Fifo(t, actions[1..]) {
      forall k | 0 <= k <= |actions| ensures Exec(s, actions[..k]).printed <= Exec(s, actions[..k]).accepted {
        if k > 0 { assert Exec(s, actions[..k]) == Exec(t, actions[1..][..k - 1]); }
      }
    }
  }

  /** A run prints in order exactly when no step of it prints with nothing waiting. */
  lemma {:induction false} FifoExactly(s: State, actions: seq<Action>)
    requires Inv(s)
    ensures Fifo(s, actions) <==> Orderly(s, actions)
    decreases |actions|
  {
    hide Next, EmptyPrint, Fifo, Inv;
    InvFacts(s);
    if actions == [] {
      FifoNow(s, actions);
    } else {
      FifoUnfolds(s, actions);
      if EmptyPrint(s, actions[0]) {
        PrintsTooMuch(s, actions[0]);
        NotFifoNow(Next(s, actions[0]), actions[1..]);
      } else {
        StepKeeps(s, actions[0]);
        FifoExactly(Next(s, actions[0]), actions[1..]);
      }
    }
  }

  lemma InvFacts(s: State)
    requires Inv(s)
    ensures InBounds(s) && s.printed <= s.accepted
  {
  }

  lemma FifoNow(s: State, actions: seq<Action>)
    requires Inv(s) && actions == []
    ensures Fifo(s, actions)
  {
  }

  lemma PrintsTooMuch(s: State, a: Action)
    requires Inv(s) && EmptyPrint(s, a)
    ensures Usable(s) && !(Next(s, a).printed <= Next(s, a).accepted)
  {
    EmptyPrintIsTooMuch(s);
  }

  lemma NotFifoNow(s: State, actions: seq<Action>)
    requires InBounds(s) && !(s.printed <= s.accepted)
    ensures !Fifo(s, actions)
  {
    assert Exec(s, actions[..0]) == s;
  }

  /** After an orderly run: the lines printed and then the lines waiting are the accepted lines in
      order, at most all slots but one wait, and once the worker has stopped at most one accepted
      line, from a call in flight, is not printed. */
  lemma RunIsFifo(s: State, actions: seq<Action>)
    requires IsInit(s) && Orderly(s, actions)
    ensures var r := Exec(s, actions);
      (r.worker.Advancing? ==> Length(r) > 0) &&
      r.printed + Waiting(r) == r.accepted && |Waiting(r)| <= Size(r) - 1 &&
      (r.worker == Done ==> |r.accepted| <= |r.printed| + 1)
  {
    InitInv(s);
    OrderlyKeeps(s, actions);
  }

  // ----- runs without a torn comparison

  ghost predicate Calm(s: State, actions: seq<Action>)
    requires InBounds(s)
    decreases |actions|
  {
    actions != [] ==>
      !Torn(s, actions[0]) &&
      (StepInBounds(s, actions[0]);
       Calm(Next(s, actions[0]), actions[1..]))
  }

  /** When the worker is about to print, something waits. */
  ghost predicate Steady(s: State)
    requires InBounds(s)
  {
    s.worker.Printing? ==> Length(s) > 0
  }

  lemma StepSteady(s: State, a: Action)
    requires Inv(s) && Steady(s) && !Torn(s, a)
    ensures !EmptyPrint(s, a) && Usable(s) && Inv(Next(s, a)) && Steady(Next(s, a))
  {
    hide Ring, RingOf, IsFull, Stored, Fill;
    StepKeeps(s, a);
  }

  /** Without a torn comparison the worker prints in order, never from the slot being filled. */
  lemma {:induction false} CalmIsOrderly(s: State, actions: seq<Action>)
    requires Inv(s) && Steady(s) && Calm(s, actions)
    ensures Orderly(s, actions) && Fifo(s, actions)
    ensures var r := Exec(s, actions);
      Inv(r) && Steady(r) && (r.producer.Filling? && r.worker.Printing? ==> r.next != r.written)
    decreases |actions|
  {
    hide Next, EmptyPrint, Torn, Inv, Steady;
    FifoExactly(s, actions);
    if actions == [] {
      NeverSameSlot(s);
    } else {
      StepSteady(s, actions[0]);
      CalmIsOrderly(Next(s, actions[0]), actions[1..]);
      FifoExactly(s, actions);
    }
  }

  lemma NeverSameSlot(s: State)
    requires Inv(s) && Steady(s)
    ensures s.producer.Filling? && s.worker.Printing? ==> s.next != s.written
  {
    if s.producer.Filling? && s.worker.Printing? { SameSlot(s); }
  }

  // ----- shutdown

  /** The worker finds the ring empty for the last time while a call of `log` has yet to store its line. */
  predicate ClosesLate(s: State, a: Action) {
    a == Works && s.worker == Testing(true) && s.written == s.next && InFlight(s.producer) == 1
  }

  /** That happens in the run. */
  ghost predicate Late(s: State, actions: seq<Action>)
    requires InBounds(s)
    decreases |actions|
  {
    actions != [] &&
    (ClosesLate(s, actions[0]) ||
     (StepInBounds(s, actions[0]);
      Late(Next(s, actions[0]), actions[1..])))
  }

  /** Once the worker has compared for the last time, what is owed stays. */
  lemma StepOwes(s: State, a: Action)
    requires Inv(s) && !EmptyPrint(s, a) && Size(s) >= 2
    ensures Usable(s) && Inv(Next(s, a))
    ensures Closed(s.worker) ==> Closed(Next(s, a).worker) && Owed(Next(s, a)) == Owed(s) && !ClosesLate(s, a)
    ensures !Closed(s.worker) && Closed(Next(s, a).worker) ==> Owed(Next(s, a)) == if ClosesLate(s, a) then 1 else 0
    ensures !Closed(s.worker) && !Closed(Next(s, a).worker) ==> !ClosesLate(s, a)
  {
    hide Ring, RingOf, IsFull, Stored, Fill;
    StepKeeps(s, a);
    if s.producer.StateTested? { FullIsOneLeft(s); }
  }

  lemma {:induction false} RunOwes(s: State, actions: seq<Action>)
    requires Inv(s) && Orderly(s, actions) && Size(s) >= 2 && Closed(Exec(s, actions).worker)
    ensures Owed(Exec(s, actions)) == if Closed(s.worker) then Owed(s) else if Late(s, actions) then 1 else 0
    ensures Closed(s.worker) ==> !Late(s, actions)
    decreases |actions|
  {
    hide Next, EmptyPrint, Inv, ClosesLate, Owed;
    if actions != [] {
      StepOwes(s, actions[0]);
      RunOwes(Next(s, actions[0]), actions[1..]);
    }
  }

  /** When the worker has stopped, the accepted lines not printed and the call still in flight are one
      together if the worker closed late, and none if it did not; a ring of one slot accepts nothing. */
  lemma StoppedOwes(s: State, actions: seq<Action>)
    requires IsInit(s) && Orderly(s, actions) && Exec(s, actions).worker == Done
    ensures var r := Exec(s, actions);
      r.printed <= r.accepted &&
      (Size(s) >= 2 ==>
        |r.accepted| - |r.printed| + InFlight(r.producer) == if Late(s, actions) then 1 else 0) &&
      (Size(s) == 1 ==> r.printed == r.accepted)
  {
    InitInv(s);
    OrderlyKeeps(s, actions);
    var r := Exec(s, actions);
    assert |r.printed| + Length(r) == |r.accepted|;
    if Size(s) >= 2 { RunOwes(s, actions); }
  }

  /** So with no call running any more, everything accepted is printed exactly when the worker did not close late. */
  lemma AllPrintedExactly(s: State, actions: seq<Action>)
    requires IsInit(s) && Orderly(s, actions)
    requires Exec(s, actions).worker == Done && Exec(s, actions).producer == Idle
    ensures var r := Exec(s, actions);
      r.printed == r.accepted <==> !Late(s, actions) || Size(s) == 1
  {
    StoppedOwes(s, actions);
  }

  /** Every shutdown comes while no call of `log` is running. */
  ghost predicate CalmShutdowns(s: State, actions: seq<Action>)
    requires InBounds(s)
    decreases |actions|
  {
    actions != [] ==>
      (actions[0] == ShutsDown ==> s.producer == Idle) &&
      (StepInBounds(s, actions[0]);
       CalmShutdowns(Next(s, actions[0]), actions[1..]))
  }

  lemma {:induction false} CalmShutdownsNotLate(s: State, actions: seq<Action>)
    requires Inv(s) && Orderly(s, actions) && CalmShutdowns(s, actions)
    requires s.state != Run ==> InFlight(s.producer) == 0
    ensures !Late(s, actions)
    decreases |actions|
  {
    hide EmptyPrint;
    if actions != [] {
      StepKeeps(s, actions[0]);
      StepQuiet(s, actions[0]);
      CalmShutdownsNotLate(Next(s, actions[0]), actions[1..]);
    }
  }

  lemma StepQuiet(s: State, a: Action)
    requires Inv(s) && !EmptyPrint(s, a) && (a == ShutsDown ==> s.producer == Idle)
    requires s.state != Run ==> InFlight(s.producer) == 0
    ensures Usable(s) && (Next(s, a).state != Run ==> InFlight(Next(s, a).producer) == 0) && !ClosesLate(s, a)
  {
    hide Ring, RingOf, IsFull, Stored, Fill;
  }

  /** Then every accepted line is printed before the worker stops. */
  lemma AllPrintedAtStop(s: State, actions: seq<Action>)
    requires IsInit(s) && Orderly(s, actions) && CalmShutdowns(s, actions)
    ensures var r := Exec(s, actions); r.worker == Done ==> r.printed == r.accepted
  {
    if Exec(s, actions).worker == Done {
      InitInv(s);
      CalmShutdownsNotLate(s, actions);
      StoppedOwes(s, actions);
    }
  }

  /** How many steps the worker is from having stopped. */
  function Distance(s: State): nat
    requires Inv(s)
  {
    var n := 4 * Length(s);
    match s.worker
    case Done => 0
    case Closing => 1
    case Testing(last) => if last then n + 2 else n + 5
    case Printing(last) => if last then n + 1 else n + 4
    case Advancing(last) => if last then n else n + 3
    case Rewinding(last) => if last then n + 3 else n + 6
    case Looking => n + 3
    case Flushing => n + 4
    case Peeking => n + 6
  }

  function Alone(n: nat): seq<Action> { seq(n, _ => Works) }

  /** The worker has been told to stop, no call of `log` is running, and none has stored its line too late. */
  ghost predicate Stopping(s: State) {
    Inv(s) && Steady(s) && s.state != Run && (s.worker == Done || s.state == LastChance) && s.producer == Idle &&
    (Closed(s.worker) ==> s.printed == s.accepted)
  }

  lemma WorkStops(s: State)
    requires Stopping(s) && s.worker != Done
    ensures !Torn(s, Works) && Usable(s) && Stopping(Work(s)) && Work(s).accepted == s.accepted
    ensures Distance(Work(s)) < Distance(s)
  {
    hide RingOf, IsFull, Stored, Fill;
    StepSteady(s, Works);
    var t := Work(s);
    if s.worker.Advancing? { RingShrinks(s, t); }
    if t.worker == Closing { assert Length(s) == 0; }
  }

  /** Once shut down and left alone, the worker takes some number of steps, prints in order what is left and stops. */
  lemma {:induction false} WorkerStops(s: State) returns (n: nat)
    requires Stopping(s)
    ensures n <= Distance(s) && Calm(s, Alone(n)) && Orderly(s, Alone(n))
    ensures var r := Exec(s, Alone(n)); r.worker == Done && r.printed == r.accepted == s.accepted
    decreases Distance(s)
  {
    hide Work, Torn, Distance;
    if s.worker == Done {
      n := 0;
    } else {
      WorkStops(s);
      var m := WorkerStops(Work(s));
      n := m + 1;
      assert Alone(n)[1..] == Alone(m);
    }
    CalmIsOrderly(s, Alone(n));
  }

  // ----- a worker that has not been told to stop

  /** No call of `log` is running. */
  ghost predicate Running(s: State) { Inv(s) && Steady(s) && s.state == Run && s.producer == Idle }

  ghost predicate CaughtUp(s: State)
    requires InBounds(s)
  {
    s.worker == Looking && Length(s) == 0
  }

  /** How many steps the worker is at most from having printed everything; when it has printed as many lines as it may
      before it looks for a shutdown, it takes a detour. */
  function Behind(s: State): nat
    requires Running(s)
  {
    var n := 8 * Length(s);
    match s.worker
    case Looking => if n == 0 then 0 else n + 4
    case Peeking => if n == 0 then 1 else n + 3
    case Testing(_) => if n == 0 then 2 else if s.count < LOG_ENTRY_MAX then n + 2 else n + 6
    case Printing(_) => n + 1
    case Advancing(_) => n
    case Rewinding(_) => if n == 0 then 3 else n + 7
    case _ => if n == 0 then 1 else n + 5
  }

  lemma WorkGoesOn(s: State)
    requires Running(s) && !CaughtUp(s)
    ensures !Torn(s, Works) && Usable(s) && Running(Work(s)) && Work(s).accepted == s.accepted
    ensures Behind(Work(s)) < Behind(s)
  {
    hide RingOf, IsFull, Stored, Fill;
    StepSteady(s, Works);
    if s.worker.Advancing? { RingShrinks(s, Work(s)); }
  }

  /** Left alone, the worker prints everything accepted, however many lines that are and whatever its count, and then
      looks for more with the count at zero. */
  lemma {:induction false} WorkerCatchesUp(s: State) returns (n: nat)
    requires Running(s)
    ensures n <= Behind(s) && Calm(s, Alone(n)) && Orderly(s, Alone(n))
    ensures var r := Exec(s, Alone(n));
      r.worker == Looking && r.count == 0 && r.state == Run && r.printed == r.accepted == s.accepted
    decreases Behind(s)
  {
    hide Work, Torn, Behind, Ring, RingOf, Stored;
    if CaughtUp(s) {
      n := 0;
    } else {
      WorkGoesOn(s);
      var m := WorkerCatchesUp(Work(s));
      n := m + 1;
      assert Alone(n)[1..] == Alone(m);
    }
    CalmIsOrderly(s, Alone(n));
  }

  /** The worker does not look at the state again in the run. */
  ghost predicate NoLook(s: State, actions: seq<Action>)
    requires InBounds(s)
    decreases |actions|
  {
    actions != [] ==>
      (StepInBounds(s, actions[0]);
       Next(s, actions[0]).worker != Looking && NoLook(Next(s, actions[0]), actions[1..]))
  }

  /** Since the worker last looked it has printed `n` lines, which its count limits. */
  predicate InBatch(s: State, n: int) {
    match s.worker
    case Looking => n == s.count == 0
    case Peeking => n == s.count == 0
    case Testing(last) => last || n == s.count <= LOG_ENTRY_MAX
    case Printing(last) => last || n + 1 == s.count <= LOG_ENTRY_MAX
    case Advancing(last) => last || n == s.count <= LOG_ENTRY_MAX
    case Rewinding(last) => last || n == s.count <= LOG_ENTRY_MAX
    case Flushing => n <= LOG_ENTRY_MAX
    case _ => true
  }

  lemma StepInBatch(s: State, a: Action, n: int)
    requires InBounds(s) && InBatch(s, n) && Usable(s) && Next(s, a).worker != Looking
    ensures InBatch(Next(s, a), n + |Next(s, a).printed| - |s.printed|)
  {
    hide Fill, IsFull;
  }

  lemma {:induction false} RunInBatch(s: State, actions: seq<Action>, n: int)
    requires InBounds(s) && InBatch(s, n) && NoLook(s, actions)
    ensures InBatch(Exec(s, actions), n + |Exec(s, actions).printed| - |s.printed|)
    decreases |actions|
  {
    hide Next, InBatch;
    if actions != [] {
      StepInBounds(s, actions[0]);
      var t := Next(s, actions[0]);
      StepInBatch(s, actions[0], n);
      RunInBatch(t, actions[1..], n + |t.printed| - |s.printed|);
    }
  }

  /** However fast lines come in, and whatever else happens, the worker looks whether it is to stop after at most 10000
      of them. */
  lemma LooksInTime(s: State, actions: seq<Action>)
    requires Inv(s) && s.worker == Looking && NoLook(s, actions)
    ensures var r := Exec(s, actions); !Last(r.worker) ==> |r.printed| <= |s.printed| + 10000
  {
    RunInBatch(s, actions, 0);
  }

  // ----- the numbers in the slots

  function Stamps(slots: seq<Entry>): nat {
    if slots == [] then 0 else slots[0].seqNo + Stamps(slots[1..])
  }

  lemma {:induction false} StampsUpdate(slots: seq<Entry>, i: nat, e: Entry)
    requires i < |slots|
    ensures Stamps(slots[i := e]) == Stamps(slots) - slots[i].seqNo + e.seqNo
  {
    var now := slots[i := e];
    if i == 0 {
      assert now[1..] == slots[1..];
    } else {
      StampsUpdate(slots[1..], i - 1, e);
      assert now[1..] == slots[1..][i - 1 := e];
    }
  }

  /** The slot has its new number, and its line is not accepted yet. */
  function Stamped(p: Producer): nat { if p.Filling? && p.k >= 6 then 1 else 0 }

  ghost predicate Counted(s: State, base: int) {
    (s.producer.Filling? ==> s.producer.k <= 6) && Stamps(s.slots) == base + |s.accepted| + Stamped(s.producer)
  }

  lemma StepCounts(s: State, a: Action, base: int)
    requires InBounds(s) && Counted(s, base)
    ensures Usable(s) && Counted(Next(s, a), base)
  {
    hide IsFull, Stamps, Work;
    if a.Produces? && s.producer.Filling? && s.producer.k < 6 {
      StampsUpdate(s.slots, s.next, Fill(s.slots[s.next], s.producer.line, s.producer.k));
    }
    if a == Works { SameSlots(s); }
  }

  lemma SameSlots(s: State)
    requires InBounds(s)
    ensures Work(s).slots == s.slots && Work(s).accepted == s.accepted && Work(s).producer == s.producer
  {
  }

  lemma {:induction false} RunCounts(s: State, actions: seq<Action>, base: int)
    requires InBounds(s) && Counted(s, base)
    ensures Counted(Exec(s, actions), base)
    decreases |actions|
  {
    hide Next, Counted;
    if actions != [] {
      StepInBounds(s, actions[0]);
      StepCounts(s, actions[0], base);
      RunCounts(Next(s, actions[0]), actions[1..], base);
    }
  }

  /** Whatever the run, the sequence numbers of the slots grow together by the number of accepted lines. */
  lemma SlotsCountLines(s: State, actions: seq<Action>)
    requires IsInit(s) && Exec(s, actions).producer == Idle
    ensures Stamps(Exec(s, actions).slots) == Stamps(s.slots) + |Exec(s, actions).accepted|
  {
    RunCounts(s, actions, Stamps(s.slots));
  }
}

/** The logger object.  `LogStep` and `WorkerStep` are the atomic steps of the two threads, in any
    order; `Log` and `DrainAndStop` are a call and the worker's loop when no other thread moves. */
module LogObject {
  import opened LogMachine
  import LogRuns
  import LogCases

  class MyLog {
    const entries: array<Entry>
    var next: nat
    var written: nat
    var state: LogState
    var level: int
    var count: nat
    var producer: Producer
    var worker: Worker
    var logFile: seq<Line>
    ghost var accepted: seq<Line>

    ghost function State(): State
      reads this, entries
    {
      LogMachine.State(entries[..], next, written, state, level, count, producer, worker, logFile, accepted)
    }

    /** my_log::instance, once the worker has entered its loop. */
    constructor (num: nat, level: int)
      requires num > 0
      ensures IsInit(State()) && Inv(State()) && Size(State()) == num && this.level == level && fresh(entries)
    {
      entries := new Entry[num](_ => Entry(0, Line(0, 0, 0, 0, "")));
      next, written, state, this.level, count := 0, 0, Run, level, 0;
      producer, worker, logFile, accepted := Idle, Looking, [], [];
      new;
      InitInv(State());
    }

    predicate Full()
      requires entries.Length > 0
      reads this, entries
    {
      (next + 1 - written) % entries.Length == 0
    }

    /** The next step of the thread that is in `log`, or that calls it. */
    method LogStep(call: Line) returns (answer: Answer)
      requires InBounds(State())
      modifies this, entries
      ensures Usable(old(State())) && (State(), answer) == Produce(old(State()), call)
      ensures InBounds(State()) && (Inv(old(State())) ==> Inv(State()))
    {
      hide Inv, Fill, InBounds;
      StepInBounds(State(), Produces(call));
      if Inv(State()) { ProduceKeeps(State(), call); }
      answer := Nothing;
      match producer {
        case Idle =>
          if call.priority > level {
            answer := Filtered;
          } else if state != Run {
            answer := HasStopped;
          } else {
            producer := StateTested(call);
          }
        case StateTested(line) =>
          if Full() {
            producer := Idle;
            answer := CacheFull;
          } else {
            producer := Filling(line, 0);
          }
        case Filling(line, k) =>
          if k < 6 {
            entries[next] := Fill(entries[next], line, k);
            producer := Filling(line, k + 1);
          } else {
            next := next + 1;
            accepted := accepted + [line];
            if next >= entries.Length {
              producer := Wrapping;
            } else {
              producer := Idle;
              answer := Success;
            }
          }
        case Wrapping =>
          next := 0;
          producer := Idle;
          answer := Success;
      }
    }

    /** The next step of the worker thread. */
    method WorkerStep()
      requires InBounds(State())
      modifies this
      ensures Usable(old(State())) && State() == Work(old(State()))
      ensures InBounds(State()) && (Inv(old(State())) && !EmptyPrint(old(State()), Works) ==> Inv(State()))
    {
      hide Inv, EmptyPrint, InBounds;
      StepInBounds(State(), Works);
      if Inv(State()) && !EmptyPrint(State(), Works) { WorkKeeps(State()); }
      match worker {
        case Looking =>
          worker := if state == LastChance then Testing(true) else Peeking;
        case Peeking =>
          worker := if next == written then Looking else Testing(false);
        case Testing(last) =>
          if written == next {
            worker := if last then Closing else Flushing;
          } else if last {
            worker := Printing(true);
          } else {
            count := count + 1;
            worker := if count <= LOG_ENTRY_MAX then Printing(false) else Flushing;
          }
        case Printing(last) =>
          logFile := logFile + [entries[written].line];
          worker := Advancing(last);
        case Advancing(last) =>
          written := written + 1;
          worker := if written >= entries.Length then Rewinding(last) else Testing(last);
        case Rewinding(last) =>
          written := 0;
          worker := Testing(last);
        case Flushing =>
          count := 0;
          worker := Looking;
        case Closing =>
          state := Stopped;
          worker := Done;
        case Done =>
      }
    }

    /** my_log::log, when no other thread moves during the call. */
    method Log(call: Line) returns (answer: Answer)
      requires InBounds(State()) && producer == Idle
      modifies this, entries
      ensures State() == LogCases.Logged(old(State()), call) && answer == LogCases.AnswerOf(old(State()), call)
      ensures producer == Idle && InBounds(State()) && (Inv(old(State())) ==> Inv(State()))
    {
      hide Inv, InBounds, IsFull, Stored, Produce;
      ghost var s := State();
      Begins(s, call);
      answer := LogStep(call);
      while producer != Idle
        invariant InBounds(State()) && (Inv(s) ==> Inv(State()))
        invariant producer != Idle ==> call.priority <= s.level && s.state == Run && LogCases.During(s, State(), call)
        invariant producer == Idle ==> State() == LogCases.Logged(s, call) && answer == LogCases.AnswerOf(s, call)
        decreases LogCases.Left(producer)
      {
        LogCases.CallStep(s, State(), call);
        answer := LogStep(call);
        Ends(s, State(), call);
      }
    }

    /** The worker's outer loop, with no call running, up to when it finds nothing more to print. */
    method CatchUp()
      requires LogRuns.Running(State())
      modifies this
      ensures worker == Looking && count == 0 && logFile == accepted == old(accepted) && old(logFile) <= logFile
      ensures LogRuns.Running(State())
    {
      hide Work, LogRuns.Behind, LogRuns.Running;
      IsRunning(State());
      while !(worker == Looking && written == next)
        invariant LogRuns.Running(State()) && Inv(State()) && accepted == old(accepted) && old(logFile) <= accepted
        decreases LogRuns.Behind(State())
      {
        NotCaughtUp(State());
        LogRuns.WorkGoesOn(State());
        WorkerStep();
        IsRunning(State());
      }
      AtRest(State());
    }

    /** The rest of the worker's thread once it has been told to stop and no call runs any more. */
    method DrainAndStop()
      requires LogRuns.Stopping(State())
      modifies this
      ensures worker == Done && logFile == accepted == old(accepted) && old(logFile) <= logFile
      ensures LogRuns.Stopping(State())
    {
      hide Work, LogRuns.Distance, LogRuns.Stopping;
      IsInv(State());
      while worker != Done
        invariant LogRuns.Stopping(State()) && Inv(State()) && accepted == old(accepted) && old(logFile) <= accepted
        decreases LogRuns.Distance(State())
      {
        LogRuns.WorkStops(State());
        WorkerStep();
        IsInv(State());
      }
      AtStop(State());
    }

    /** my_log::shutdown. */
    method Shutdown()
      requires InBounds(State())
      modifies this`state
      ensures State() == LogMachine.Shutdown(old(State()))
      ensures InBounds(State()) && (Inv(old(State())) ==> Inv(State()))
    {
      state := LastChance;
    }
  }

  lemma Begins(s: State, call: Line)
    requires InBounds(s) && s.producer == Idle
    ensures Usable(s)
    ensures var (t, answer) := Produce(s, call);
      if t.producer == Idle then t == s == LogCases.Logged(s, call) && answer == LogCases.AnswerOf(s, call)
      else call.priority <= s.level && s.state == Run && LogCases.During(s, t, call)
  {
  }

  lemma Ends(s: State, t: State, call: Line)
    requires LogCases.During(s, t, call) && call.priority <= s.level && s.state == Run
    ensures t.producer == Idle ==> t == LogCases.Logged(s, call)
  {
  }

  lemma IsInv(s: State)
    requires LogRuns.Stopping(s)
    ensures InBounds(s) && Inv(s) && s.printed <= s.accepted
  {
  }

  lemma AtStop(s: State)
    requires LogRuns.Stopping(s) && s.worker == Done
    ensures s.printed == s.accepted
  {
  }

  lemma IsRunning(s: State)
    requires LogRuns.Running(s)
    ensures InBounds(s) && Inv(s) && s.printed <= s.accepted
  {
  }

  lemma NotCaughtUp(s: State)
    requires LogRuns.Running(s)
    ensures LogRuns.CaughtUp(s) <==> s.worker == Looking && s.written == s.next
  {
  }

  lemma AtRest(s: State)
    requires LogRuns.Running(s) && s.worker == Looking && s.written == s.next
    ensures s.count == 0 && s.printed == s.accepted
  {
  }
}

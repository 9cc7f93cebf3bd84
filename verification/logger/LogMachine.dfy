/**
 The log ring buffer as a machine: one producer thread in `my_log::log`, the worker thread in
 `my_log::_log_worker`, and calls of `my_log::shutdown`, interleaved step by step.  Every
 store to `_next` and `_written` is a step of its own, as are the stores that fill a slot.
 */
module LogMachine {

  const LOG_ENTRY_MAX := 10000

  datatype LogState = Run | LastChance | Stopped

  /** What a log line is made from. */
  datatype Line = Line(sec: int, nsec: int, modId: int, priority: int, buff: string)

  /** log_entry_t. */
  datatype Entry = Entry(seqNo: nat, line: Line)

  /** Where the producer is in `log`; in `Filling(line, k)` the first `k` of the six stores
      to the slot are done, and in `Wrapping` the first store to `_next` is. */
  datatype Producer =
    | Idle
    | StateTested(line: Line)
    | Filling(line: Line, k: nat)
    | Wrapping

  /** Where the worker is.  `Looking` tests the state, `Peeking` is_empty; the rest is the
      inner loop, or, with `last` set, the loop of the last chance. */
  datatype Worker =
    | Looking
    | Peeking
    | Testing(last: bool)
    | Printing(last: bool)
    | Advancing(last: bool)
    | Rewinding(last: bool)
    | Flushing
    | Closing
    | Done

  datatype State = State(
    slots: seq<Entry>,
    next: nat,
    written: nat,
    state: LogState,
    level: int,
    count: nat,
    producer: Producer,
    worker: Worker,
    printed: seq<Line>,
    accepted: seq<Line>)

  datatype Answer = Nothing | Filtered | HasStopped | CacheFull | Success

  function Size(s: State): nat { |s.slots| }

  predicate IsEmpty(s: State) { s.next == s.written }

  /** is_full: the pointer difference, with the remainder of C. */
  predicate IsFull(s: State)
    requires Size(s) > 0
  {
    (s.next + 1 - s.written) % Size(s) == 0
  }

  /** One store of `log` into the slot at `_next`. */
  function Fill(e: Entry, line: Line, k: nat): Entry {
    match k
    case 0 => e.(line := e.line.(buff := line.buff))
    case 1 => e.(line := e.line.(sec := line.sec))
    case 2 => e.(line := e.line.(nsec := line.nsec))
    case 3 => e.(line := e.line.(modId := line.modId))
    case 4 => e.(line := e.line.(priority := line.priority))
    case _ => e.(seqNo := e.seqNo + 1)
  }

  /** The state has slots, and no index is out of bounds when it is used. */
  predicate Usable(s: State) {
    Size(s) > 0 &&
    (s.producer.Filling? ==> s.next < Size(s)) &&
    (s.worker.Printing? ==> s.written < Size(s))
  }

  /** The next step of the producer; `call` is used when it is idle. */
  function Produce(s: State, call: Line): (State, Answer)
    requires Usable(s)
  {
    match s.producer
    case Idle =>
      if call.priority > s.level then (s, Filtered)
      else if s.state != Run then (s, HasStopped)
      else (s.(producer := StateTested(call)), Nothing)
    case StateTested(line) =>
      if IsFull(s) then (s.(producer := Idle), CacheFull)
      else (s.(producer := Filling(line, 0)), Nothing)
    case Filling(line, k) =>
      if k < 6 then
        (s.(slots := s.slots[s.next := Fill(s.slots[s.next], line, k)], producer := Filling(line, k + 1)), Nothing)
      else
        var stored := s.(next := s.next + 1, accepted := s.accepted + [line]);
        if s.next + 1 >= Size(s) then (stored.(producer := Wrapping), Nothing)
        else (stored.(producer := Idle), Success)
    case Wrapping =>
      (s.(next := 0, producer := Idle), Success)
  }

  /** The next step of the worker. */
  function Work(s: State): State
    requires Usable(s)
  {
    match s.worker
    case Looking =>
      s.(worker := if s.state == LastChance then Testing(true) else Peeking)
    case Peeking =>
      s.(worker := if IsEmpty(s) then Looking else Testing(false))
    case Testing(last) =>
      if s.written == s.next then s.(worker := if last then Closing else Flushing)
      else if last then s.(worker := Printing(true))
      else s.(count := s.count + 1, worker := if s.count < LOG_ENTRY_MAX then Printing(false) else Flushing)
    case Printing(last) =>
      s.(printed := s.printed + [s.slots[s.written].line], worker := Advancing(last))
    case Advancing(last) =>
      s.(written := s.written + 1,
         worker := if s.written + 1 >= Size(s) then Rewinding(last) else Testing(last))
    case Rewinding(last) =>
      s.(written := 0, worker := Testing(last))
    case Flushing =>
      s.(count := 0, worker := Looking)
    case Closing =>
      s.(state := Stopped, worker := Done)
    case Done => s
  }

  /** my_log::shutdown, by any thread. */
  function Shutdown(s: State): State { s.(state := LastChance) }

  datatype Action = Produces(call: Line) | Works | ShutsDown

  function Next(s: State, a: Action): State
    requires Usable(s)
  {
    match a
    case Produces(call) => Produce(s, call).0
    case Works => Work(s)
    case ShutsDown => Shutdown(s)
  }

  // ----- the ring

  function Wrap(n: nat, i: nat): nat {
    if i >= n then i - n else i
  }

  /** `_next` and `_written` as places, also between the two stores that wrap them. */
  function Head(s: State): nat { Wrap(Size(s), s.written) }

  function Tail(s: State): nat { Wrap(Size(s), s.next) }

  ghost predicate InBounds(s: State) {
    Size(s) > 0 && s.next <= Size(s) && s.written <= Size(s) &&
    (s.next == Size(s) <==> s.producer == Wrapping) &&
    (s.written == Size(s) <==> s.worker.Rewinding?)
  }

  function Length(s: State): nat
    requires InBounds(s)
  {
    if Tail(s) >= Head(s) then Tail(s) - Head(s) else Tail(s) + Size(s) - Head(s)
  }

  ghost function RingOf(slots: seq<Entry>, head: nat, len: nat): (r: seq<Line>)
    requires head < |slots| && len <= |slots|
    ensures |r| == len && forall i :: 0 <= i < len ==> r[i] == slots[Wrap(|slots|, head + i)].line
  {
    seq(len, i requires 0 <= i < len => slots[Wrap(|slots|, head + i)].line)
  }

  /** The lines in the ring from the oldest to the newest. */
  ghost function Ring(s: State): (r: seq<Line>)
    requires InBounds(s)
    ensures |r| == Length(s)
  {
    RingOf(s.slots, Head(s), Length(s))
  }

  /** A line just printed is still in the ring until `_written` moves on. */
  ghost function Waiting(s: State): seq<Line>
    requires InBounds(s) && (s.worker.Advancing? ==> Length(s) > 0)
  {
    if s.worker.Advancing? then Ring(s)[1..] else Ring(s)
  }

  // ----- what every step keeps

  /** The fields of the slot that have been stored so far. */
  ghost predicate Stored(e: Line, line: Line, k: nat) {
    (k > 0 ==> e.buff == line.buff) && (k > 1 ==> e.sec == line.sec) && (k > 2 ==> e.nsec == line.nsec) &&
    (k > 3 ==> e.modId == line.modId) && (k > 4 ==> e.priority == line.priority)
  }

  /** `Waiting` is what it should be.  The worker may be about to print while nothing waits. */
  ghost predicate Inv(s: State) {
    InBounds(s) &&
    (s.producer.Filling? ==>
      Length(s) + 1 < Size(s) && s.producer.k <= 6 && Stored(s.slots[s.next].line, s.producer.line, s.producer.k)) &&
    (s.worker.Advancing? ==> Length(s) > 0) &&
    s.printed + Waiting(s) == s.accepted &&
    (Last(s.worker) ==> s.state != Run) &&
    (s.worker == Looking || s.worker == Peeking ==> s.count == 0) &&
    (Closed(s.worker) ==> Owed(s) <= 1)
  }

  predicate Last(w: Worker) {
    match w
    case Testing(last) => last
    case Printing(last) => last
    case Advancing(last) => last
    case Rewinding(last) => last
    case Closing => true
    case Done => true
    case _ => false
  }

  /** The worker has compared for the last time. */
  predicate Closed(w: Worker) { w == Closing || w == Done }

  /** A call of `log` that has passed its test of the state and not yet moved `_next`. */
  function InFlight(p: Producer): nat {
    if p.StateTested? || p.Filling? then 1 else 0
  }

  /** The lines in the ring, and the one on its way there. */
  function Owed(s: State): nat
    requires InBounds(s)
  {
    Length(s) + InFlight(s.producer)
  }

  /** The worker prints although nothing waits. */
  predicate EmptyPrint(s: State, a: Action)
    requires InBounds(s)
  {
    a == Works && s.worker.Printing? && Length(s) == 0
  }

  /** The worker compares `_written` with `_next` between the two stores that wrap `_next`,
      when its own index is back at the start, and goes on to print. */
  predicate Torn(s: State, a: Action) {
    a == Works && s.worker.Testing? && s.producer == Wrapping && s.written == 0 &&
    (s.worker.last || s.count < LOG_ENTRY_MAX)
  }

  predicate IsInit(s: State) {
    Size(s) > 0 && s.next == s.written == 0 && s.state == Run && s.count == 0 &&
    s.producer == Idle && s.worker == Looking && s.printed == [] && s.accepted == []
  }

  lemma InitInv(s: State)
    requires IsInit(s)
    ensures Inv(s)
  {
  }

  /** Whatever happens, the indices stay in bounds. */
  lemma StepInBounds(s: State, a: Action)
    requires InBounds(s)
    ensures Usable(s) && InBounds(Next(s, a)) && Size(Next(s, a)) == Size(s)
  {
    hide Fill, IsFull;
  }

  lemma RemainderZero(n: nat, d: int)
    requires n > 0 && 0 < d + n && d <= n
    ensures d % n == 0 <==> d == 0 || d == n
  {
    if 0 < d < n {
      assert d % n == d;
    } else if d < 0 {
      assert (d + n) % n == d + n;
      assert d % n == d + n;
    }
  }

  /** The ring is reported full exactly when one slot is left. */
  lemma FullIsOneLeft(s: State)
    requires InBounds(s) && s.producer != Wrapping
    ensures IsFull(s) <==> Length(s) + 1 == Size(s)
  {
    hide Ring, RingOf;
    RemainderZero(Size(s), s.next + 1 - s.written);
  }

  /** One more line at the end of the ring. */
  lemma RingGrows(s: State, t: State, line: Line)
    requires InBounds(s) && InBounds(t) && t.slots == s.slots && t.written == s.written && s.next < Size(s)
    requires Length(s) + 1 < Size(s) && t.next == s.next + 1 && s.slots[s.next].line == line
    ensures Length(t) == Length(s) + 1 && Ring(t) == Ring(s) + [line]
  {
    assert Wrap(Size(s), Head(s) + Length(s)) == s.next;
  }

  /** The oldest line gone from the ring. */
  lemma RingShrinks(s: State, t: State)
    requires InBounds(s) && InBounds(t) && t.slots == s.slots && t.next == s.next && s.written < Size(s)
    requires Length(s) > 0 && t.written == s.written + 1
    ensures Length(t) == Length(s) - 1 && Ring(t) == Ring(s)[1..]
  {
    forall i | 0 <= i < Length(t) ensures Ring(t)[i] == Ring(s)[1..][i] {
      assert Wrap(Size(s), Head(t) + i) == Wrap(Size(s), Head(s) + (i + 1));
    }
  }

  /** Storing into the slot at `_next` leaves the ring as it is. */
  lemma RingKept(s: State, t: State, e: Entry)
    requires InBounds(s) && InBounds(t) && s.next < Size(s) && Length(s) + 1 < Size(s)
    requires t.slots == s.slots[s.next := e] && t.written == s.written && t.next == s.next
    ensures Length(t) == Length(s) && Ring(t) == Ring(s)
  {
    forall i | 0 <= i < Length(s) ensures Ring(t)[i] == Ring(s)[i] {
      assert Wrap(Size(s), Head(s) + i) != s.next;
    }
  }

  lemma ProduceKeeps(s: State, call: Line)
    requires Inv(s)
    ensures Usable(s) && Inv(Produce(s, call).0)
  {
    hide Ring, RingOf, IsFull;
    var t := Produce(s, call).0;
    match s.producer
    case Idle =>
      SameRing(s, t);
    case StateTested(line) =>
      SameRing(s, t);
      FullIsOneLeft(s);
    case Filling(line, k) =>
      if k < 6 {
        RingKept(s, t, Fill(s.slots[s.next], line, k));
      } else {
        assert s.slots[s.next].line == line;
        RingGrows(s, t, line);
        assert Waiting(t) == Waiting(s) + [line];
      }
    case Wrapping =>
      SameRing(s, t);
  }

  lemma SameRing(s: State, t: State)
    requires InBounds(s) && InBounds(t) && t.slots == s.slots && Head(t) == Head(s) && Tail(t) == Tail(s)
    ensures Length(t) == Length(s) && Ring(t) == Ring(s)
  {
  }

  lemma OldestLine(s: State)
    requires InBounds(s) && Length(s) > 0 && s.written < Size(s)
    ensures Ring(s) == [s.slots[s.written].line] + Ring(s)[1..]
  {
  }

  lemma PrintingKeeps(s: State)
    requires Inv(s) && s.worker.Printing? && Length(s) > 0
    ensures Usable(s) && Inv(Work(s))
  {
    hide Ring, RingOf, IsFull, Stored, Fill;
    OldestLine(s);
    SameRing(s, Work(s));
    OneMore(s.printed, s.slots[s.written].line, Ring(s)[1..]);
  }

  lemma OneMore(a: seq<Line>, line: Line, b: seq<Line>)
    ensures a + ([line] + b) == a + [line] + b
  {
  }

  lemma AdvancingKeeps(s: State)
    requires Inv(s) && s.worker.Advancing?
    ensures Usable(s) && Inv(Work(s))
  {
    hide Ring, RingOf, IsFull, Stored, Fill;
    RingShrinks(s, Work(s));
  }

  lemma WorkKeeps(s: State)
    requires Inv(s) && !EmptyPrint(s, Works)
    ensures Usable(s) && Inv(Work(s))
  {
    hide Ring, RingOf, IsFull, Stored, Fill;
    if s.worker.Printing? {
      PrintingKeeps(s);
    } else if s.worker.Advancing? {
      AdvancingKeeps(s);
    } else {
      SameRing(s, Work(s));
    }
  }

  /** Every step keeps the invariant, torn comparisons included, but for a print with nothing to print. */
  lemma StepKeeps(s: State, a: Action)
    requires Inv(s) && !EmptyPrint(s, a)
    ensures Usable(s) && Inv(Next(s, a))
  {
    match a
    case Produces(call) => ProduceKeeps(s, call);
    case Works => WorkKeeps(s);
    case ShutsDown =>
  }

  /** Such a print adds a line that was not accepted. */
  lemma EmptyPrintIsTooMuch(s: State)
    requires Inv(s) && EmptyPrint(s, Works)
    ensures Usable(s) && s.printed == s.accepted && s.written < Size(s)
    ensures Work(s).printed == s.accepted + [s.slots[s.written].line] && Work(s).accepted == s.accepted
  {
  }

  /** A line is filled in the slot about to be printed exactly when nothing waits. */
  lemma SameSlot(s: State)
    requires Inv(s) && s.producer.Filling? && s.worker.Printing?
    ensures s.next == s.written <==> Length(s) == 0
  {
  }
}

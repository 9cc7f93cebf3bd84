/** sell_stock.c: trading one share at a time, with a day's rest after a sale. */
module SellStock {

  const INT_MIN := -0x8000_0000
  const MAX_DAYS := 10000

  datatype Action = Rest | Buy | Sell

  /** Free to buy, holding a share, or resting on the day after a sale. */
  datatype Phase = Free | Holding | Cooling

  datatype Option<T> = None | Some(value: T)

  /** The rules, a day at a time. */
  function Step(phase: Phase, a: Action): Option<Phase> {
    match (phase, a)
    case (Free, Rest) => Some(Free)
    case (Free, Buy) => Some(Holding)
    case (Holding, Rest) => Some(Holding)
    case (Holding, Sell) => Some(Cooling)
    case (Cooling, Rest) => Some(Free)
    case _ => None
  }

  /** The phase a schedule ends in, if it keeps to the rules. */
  function After(schedule: seq<Action>): Option<Phase> {
    if schedule == [] then Some(Free)
    else
      var n := |schedule| - 1;
      match After(schedule[..n])
      case None => None
      case Some(phase) => Step(phase, schedule[n])
  }

  function Profit(prices: seq<int>, schedule: seq<Action>): int
    requires |schedule| <= |prices|
  {
    if schedule == [] then 0
    else
      var n := |schedule| - 1;
      Profit(prices, schedule[..n]) +
      match schedule[n]
      case Rest => 0
      case Buy => -prices[n]
      case Sell => prices[n]
  }

  /** A legal schedule for all the days, with no share left at the end. */
  ghost predicate Legal(prices: seq<int>, schedule: seq<Action>) {
    |schedule| == |prices| && (After(schedule) == Some(Free) || After(schedule) == Some(Cooling))
  }

  function Max(d: int, c: int): int { if d > c then d else c }

  /** The columns of the table: the greatest profit after day `i`, by phase. */
  function Column(prices: seq<int>, i: nat): (int, int, int)
    requires i < |prices|
  {
    if i == 0 then (0, -prices[0], INT_MIN)
    else
      var (free, holding, cooling) := Column(prices, i - 1);
      (Max(free, cooling), Max(holding, free - prices[i]), holding + prices[i])
  }

  function ByPhase(column: (int, int, int), phase: Phase): int {
    match phase
    case Free => column.0
    case Holding => column.1
    case Cooling => column.2
  }

  /** No schedule of the first days does better than the table. */
  lemma {:induction false} NoneBetter(prices: seq<int>, schedule: seq<Action>, phase: Phase)
    requires 1 <= |schedule| <= |prices| && After(schedule) == Some(phase)
    ensures Profit(prices, schedule) <= ByPhase(Column(prices, |schedule| - 1), phase)
  {
    var n := |schedule| - 1;
    if n == 0 {
      assert schedule[..0] == [];
    } else {
      NoneBetter(prices, schedule[..n], After(schedule[..n]).value);
    }
  }

  lemma More(prices: seq<int>, schedule: seq<Action>, a: Action)
    requires |schedule| < |prices|
    ensures After(schedule + [a]) == (match After(schedule) case None => None case Some(f) => Step(f, a))
    ensures Profit(prices, schedule + [a]) ==
      Profit(prices, schedule) + (match a case Rest => 0 case Buy => -prices[|schedule|] case Sell => prices[|schedule|])
  {
    assert (schedule + [a])[..|schedule|] == schedule;
  }

  /** The free column is never below the first one. */
  lemma {:induction false} FreeNotNegative(prices: seq<int>, i: nat)
    requires i < |prices|
    ensures Column(prices, i).0 >= 0
  {
    if i > 0 { FreeNotNegative(prices, i - 1); }
  }

  /** Some schedule does as well as the table, but for selling on the first day. */
  lemma {:induction false} OneAsGood(prices: seq<int>, i: nat, phase: Phase) returns (schedule: seq<Action>)
    requires i < |prices| && (i == 0 ==> phase != Cooling)
    ensures |schedule| == i + 1 && After(schedule) == Some(phase)
    ensures Profit(prices, schedule) == ByPhase(Column(prices, i), phase)
  {
    if i == 0 {
      var a := if phase == Free then Rest else Buy;
      More(prices, [], a);
      schedule := [] + [a];
    } else {
      var (free, holding, cooling) := Column(prices, i - 1);
      FreeNotNegative(prices, i - 1);
      var (from, a) :=
        match phase
        case Free => if free > cooling then (Free, Rest) else (Cooling, Rest)
        case Holding => if holding > free - prices[i] then (Holding, Rest) else (Free, Buy)
        case Cooling => (Holding, Sell);
      var earlier := OneAsGood(prices, i - 1, from);
      More(prices, earlier, a);
      schedule := earlier + [a];
    }
  }

  /** With no negative price, a share still held at the end is no better than none. */
  lemma {:induction false} HoldingNoBetter(prices: seq<int>, i: nat)
    requires i < |prices| && forall k :: 0 <= k < |prices| ==> prices[k] >= 0
    ensures Column(prices, i).1 <= Max(Column(prices, i).0, Column(prices, i).2)
  {
    if i > 0 {
      HoldingNoBetter(prices, i - 1);
      FreeNotNegative(prices, i - 1);
    }
  }

  /** Some legal schedule earns what the last column says. */
  lemma Attains(prices: seq<int>) returns (best: seq<Action>)
    requires |prices| >= 1
    ensures Legal(prices, best)
    ensures Profit(prices, best) == Max(Column(prices, |prices| - 1).0, Column(prices, |prices| - 1).2)
  {
    var i := |prices| - 1;
    FreeNotNegative(prices, i);
    best := OneAsGood(prices, i, if Column(prices, i).0 > Column(prices, i).2 then Free else Cooling);
  }

  /** So then nothing is gained by keeping a share at the end. */
  lemma SellingOut(prices: seq<int>, schedule: seq<Action>, r: int)
    requires |schedule| == |prices| >= 1 && forall k :: 0 <= k < |prices| ==> prices[k] >= 0
    requires After(schedule).Some?
    requires forall other :: Legal(prices, other) ==> Profit(prices, other) <= r
    ensures Profit(prices, schedule) <= r
  {
    NoneBetter(prices, schedule, After(schedule).value);
    HoldingNoBetter(prices, |prices| - 1);
    var best := Attains(prices);
  }

  /** `last_state` is the table with a row for each phase. */
  method MaxProfit(lastState: array2<int>, prices: seq<int>) returns (r: int, ghost best: seq<Action>)
    requires lastState.Length0 == 3 && lastState.Length1 == MAX_DAYS
    requires 1 <= |prices| <= MAX_DAYS
    modifies lastState
    ensures forall schedule :: Legal(prices, schedule) ==> Profit(prices, schedule) <= r
    ensures Legal(prices, best) && Profit(prices, best) == r
  {
    lastState[0, 0] := 0;
    lastState[1, 0] := -prices[0];
    lastState[2, 0] := INT_MIN;
    var i := 1;
    while i < |prices|
      invariant 1 <= i <= |prices|
      invariant Column(prices, i - 1) == (lastState[0, i - 1], lastState[1, i - 1], lastState[2, i - 1])
    {
      lastState[0, i] := Max(lastState[0, i - 1], lastState[2, i - 1]);
      lastState[1, i] := Max(lastState[1, i - 1], lastState[0, i - 1] - prices[i]);
      lastState[2, i] := lastState[1, i - 1] + prices[i];
      i := i + 1;
    }
    r := Max(lastState[0, i - 1], lastState[2, i - 1]);
    best := Attains(prices);
    forall schedule | Legal(prices, schedule) ensures Profit(prices, schedule) <= r {
      NoneBetter(prices, schedule, After(schedule).value);
    }
  }
}

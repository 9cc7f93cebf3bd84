/** The values parson builds, with the capacities of its arrays and objects. */
module Values {
  import opened Bytes

  const STARTING_CAPACITY: nat := 15
  const ARRAY_MAX_CAPACITY: nat := 122880
  const OBJECT_MAX_CAPACITY: nat := 960
  const MAX_NESTING: nat := 19

  datatype Entry = Entry(name: Bytes, value: Value)

  datatype Value =
    | JNull
    | JBool(b: bool)
    | JNum(n: int)
    | JStr(s: Bytes)
    | JArr(items: seq<Value>, cap: nat)
    | JObj(entries: seq<Entry>, cap: nat)

  ghost predicate Unique(entries: seq<Entry>) {
    forall i, j :: 0 <= i < j < |entries| ==> entries[i].name != entries[j].name
  }

  /** What every value keeps to, however it was built. */
  ghost predicate WellFormed(v: Value) {
    match v
    case JStr(s) => NoNul(s)
    case JArr(items, cap) =>
      |items| <= cap <= ARRAY_MAX_CAPACITY && forall i :: 0 <= i < |items| ==> WellFormed(items[i])
    case JObj(entries, cap) =>
      && |entries| <= cap <= OBJECT_MAX_CAPACITY
      && Unique(entries)
      && forall i :: 0 <= i < |entries| ==> NoNul(entries[i].name) && WellFormed(entries[i].value)
    case _ => true
  }

  /** The numbers all print as `%d`. */
  ghost predicate AllInt32(v: Value) {
    match v
    case JNum(n) => -0x8000_0000 <= n < 0x8000_0000
    case JArr(items, _) => forall i :: 0 <= i < |items| ==> AllInt32(items[i])
    case JObj(entries, _) => forall i :: 0 <= i < |entries| ==> AllInt32(entries[i].value)
    case _ => true
  }

  function Max(a: nat, b: nat): nat { if a > b then a else b }

  /** How deep the containers nest; empty ones do not count. */
  function Height(v: Value): nat
    decreases v, 0
  {
    match v
    case JArr(items, _) => if items == [] then 0 else 1 + HeightOfItems(items)
    case JObj(entries, _) => if entries == [] then 0 else 1 + HeightOfEntries(entries)
    case _ => 0
  }

  function HeightOfItems(items: seq<Value>): nat {
    if items == [] then 0 else Max(Height(items[0]), HeightOfItems(items[1..]))
  }

  function HeightOfEntries(entries: seq<Entry>): nat {
    if entries == [] then 0 else Max(Height(entries[0].value), HeightOfEntries(entries[1..]))
  }

  /** The same value, with no spare capacity anywhere. */
  function Trim(v: Value): Value
    decreases v, 0
  {
    match v
    case JArr(items, _) => JArr(TrimItems(items), |items|)
    case JObj(entries, _) => JObj(TrimEntries(entries), |entries|)
    case _ => v
  }

  function TrimItems(items: seq<Value>): (r: seq<Value>)
    ensures |r| == |items|
  {
    if items == [] then [] else [Trim(items[0])] + TrimItems(items[1..])
  }

  function TrimEntries(entries: seq<Entry>): (r: seq<Entry>)
    ensures |r| == |entries|
  {
    if entries == [] then []
    else [Entry(entries[0].name, Trim(entries[0].value))] + TrimEntries(entries[1..])
  }

  lemma {:induction false} TrimmedItem(items: seq<Value>, i: nat)
    requires i < |items|
    ensures TrimItems(items)[i] == Trim(items[i])
  {
    if i > 0 { TrimmedItem(items[1..], i - 1); }
  }

  lemma {:induction false} TrimmedEntry(entries: seq<Entry>, i: nat)
    requires i < |entries|
    ensures TrimEntries(entries)[i] == Entry(entries[i].name, Trim(entries[i].value))
  {
    if i > 0 { TrimmedEntry(entries[1..], i - 1); }
  }

  /** Where the entry of that name is, or the number of entries. */
  function Find(entries: seq<Entry>, name: Bytes): (r: nat)
    ensures r <= |entries|
    ensures r < |entries| ==> entries[r].name == name
    ensures forall i :: 0 <= i < r ==> entries[i].name != name
  {
    if entries == [] then 0
    else if entries[0].name == name then 0
    else 1 + Find(entries[1..], name)
  }

  function Get(entries: seq<Entry>, name: Bytes): Option<Value> {
    var i := Find(entries, name);
    if i < |entries| then Some(entries[i].value) else None
  }

  lemma GetOwn(entries: seq<Entry>, i: nat)
    requires Unique(entries) && i < |entries|
    ensures Find(entries, entries[i].name) == i && Get(entries, entries[i].name) == Some(entries[i].value)
  {
  }

  /** The capacity that holds one more, if the limit allows it. */
  function Grown(count: nat, cap: nat, limit: nat): Option<nat> {
    if count < cap then Some(cap)
    else
      var wanted := Max(cap * 2, STARTING_CAPACITY);
      if wanted > limit then None else Some(wanted)
  }

  function AddItem(items: seq<Value>, cap: nat, v: Value): (r: Option<(seq<Value>, nat)>)
    ensures r.Some? ==> |r.value.0| == |items| + 1
  {
    match Grown(|items|, cap, ARRAY_MAX_CAPACITY)
    case None => None
    case Some(more) => Some((items + [v], more))
  }

  function AddEntry(entries: seq<Entry>, cap: nat, name: Bytes, v: Value): (r: Option<(seq<Entry>, nat)>)
    ensures r.Some? ==> |r.value.0| == |entries| + 1
  {
    if Find(entries, name) < |entries| then None
    else
      match Grown(|entries|, cap, OBJECT_MAX_CAPACITY)
      case None => None
      case Some(more) => Some((entries + [Entry(name, v)], more))
  }

  /** What `json_object_set_value` does: over the old value, or added. */
  function SetEntry(entries: seq<Entry>, cap: nat, name: Bytes, v: Value): Option<(seq<Entry>, nat)> {
    var i := Find(entries, name);
    if i < |entries| then Some((entries[i := Entry(name, v)], cap))
    else AddEntry(entries, cap, name, v)
  }

  /** The capacities reached from nothing by adding. */
  predicate Doubled(cap: nat) {
    cap in {0, 15, 30, 60, 120, 240, 480, 960, 1920, 3840, 7680, 15360, 30720, 61440, 122880}
  }

  /** Adding from nothing fails at the limit and no sooner. */
  lemma GrowsToTheLimit(count: nat, cap: nat, limit: nat)
    requires Doubled(cap) && count <= cap && Doubled(limit) && limit > 0 && cap <= limit
    ensures Grown(count, cap, limit).Some? <==> count < limit
    ensures count < limit ==> var more := Grown(count, cap, limit).value; Doubled(more) && count < more <= limit
  {
  }
}

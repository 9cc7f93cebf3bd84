/** `json_value_equals` and `json_value_deep_copy`. */
module Equality {
  import opened Bytes
  import opened Containers
  import opened Values

  /** What a value stands for: objects are maps, whatever the order of their keys. */
  datatype Meaning =
    | MNull
    | MBool(b: bool)
    | MNum(n: int)
    | MStr(s: Bytes)
    | MArr(items: seq<Meaning>)
    | MObj(entries: map<Bytes, Meaning>)

  function Denote(v: Value): Meaning
    decreases v, 0
  {
    match v
    case JNull => MNull
    case JBool(b) => MBool(b)
    case JNum(n) => MNum(n)
    case JStr(s) => MStr(s)
    case JArr(items, _) => MArr(DenoteItems(items))
    case JObj(entries, _) => MObj(DenoteEntries(entries))
  }

  function DenoteItems(items: seq<Value>): (r: seq<Meaning>)
    ensures |r| == |items|
  {
    if items == [] then [] else [Denote(items[0])] + DenoteItems(items[1..])
  }

  function DenoteEntries(entries: seq<Entry>): map<Bytes, Meaning> {
    if entries == [] then map[] else DenoteEntries(entries[1..])[entries[0].name := Denote(entries[0].value)]
  }

  lemma {:induction false} DenotedItem(items: seq<Value>, i: nat)
    requires i < |items|
    ensures DenoteItems(items)[i] == Denote(items[i])
  {
    if i > 0 { DenotedItem(items[1..], i - 1); }
  }

  lemma {:induction false} DenotedKey(entries: seq<Entry>, key: Bytes)
    ensures key in DenoteEntries(entries) <==> Get(entries, key).Some?
    ensures Get(entries, key).Some? ==> DenoteEntries(entries)[key] == Denote(Get(entries, key).value)
  {
    if entries != [] { DenotedKey(entries[1..], key); }
  }

  lemma {:induction false} DenotedCount(entries: seq<Entry>)
    requires Unique(entries)
    ensures |DenoteEntries(entries)| == |entries|
  {
    if entries != [] {
      DenotedCount(entries[1..]);
      DenotedKey(entries[1..], entries[0].name);
      var later := DenoteEntries(entries[1..]);
      assert DenoteEntries(entries).Keys == later.Keys + {entries[0].name};
    }
  }

  /** `json_value_equals`: of two objects only the left one's keys are looked up. */
  predicate Equal(a: Value, b: Value) {
    match (a, b)
    case (JNull, JNull) => true
    case (JBool(x), JBool(y)) => x == y
    case (JNum(x), JNum(y)) => x == y
    case (JStr(x), JStr(y)) => x == y
    case (JArr(x, _), JArr(y, _)) => |x| == |y| && forall i :: 0 <= i < |x| ==> Equal(x[i], y[i])
    case (JObj(x, _), JObj(y, _)) =>
      |x| == |y| && forall i :: 0 <= i < |x| ==>
        var j, other := Find(x, x[i].name), Get(y, x[i].name);
        j < |x| && other.Some? && Equal(x[j].value, other.value)
    case _ => false
  }

  /** Two values are equal exactly when they stand for the same thing. */
  lemma {:induction false} EqualMeansSame(a: Value, b: Value)
    requires WellFormed(a) && WellFormed(b)
    ensures Equal(a, b) <==> Denote(a) == Denote(b)
    decreases a, 1
  {
    match (a, b)
    case (JArr(x, _), JArr(y, _)) => EqualArrays(a, b);
    case (JObj(x, _), JObj(y, _)) => EqualObjects(a, b);
    case _ =>
  }

  lemma {:induction false} EqualArrays(a: Value, b: Value)
    requires a.JArr? && b.JArr? && WellFormed(a) && WellFormed(b)
    ensures Equal(a, b) <==> Denote(a) == Denote(b)
    decreases a, 0
  {
    var x, y := a.items, b.items;
    if |x| == |y| {
      forall i | 0 <= i < |x| ensures Equal(x[i], y[i]) <==> DenoteItems(x)[i] == DenoteItems(y)[i] {
        DenotedItem(x, i);
        DenotedItem(y, i);
        EqualMeansSame(x[i], y[i]);
      }
    }
  }

  /** What stands under a key of the left object stands under it in the right one. */
  ghost predicate SameUnder(x: seq<Entry>, y: seq<Entry>, key: Bytes) {
    var m, n := DenoteEntries(x), DenoteEntries(y);
    key in m && key in n && m[key] == n[key]
  }

  lemma {:induction false} EqualObjects(a: Value, b: Value)
    requires a.JObj? && b.JObj? && WellFormed(a) && WellFormed(b)
    ensures Equal(a, b) <==> Denote(a) == Denote(b)
    decreases a, 0
  {
    hide DenoteEntries, SameUnder, Find, Get;
    var x, y := a.entries, b.entries;
    forall i | 0 <= i < |x|
      ensures Find(x, x[i].name) == i
      ensures Get(y, x[i].name).Some? && Equal(x[i].value, Get(y, x[i].name).value) <==> SameUnder(x, y, x[i].name)
    {
      EqualUnder(a, b, i);
    }
    SameMaps(x, y);
  }

  lemma {:induction false} EqualUnder(a: Value, b: Value, i: nat)
    requires a.JObj? && b.JObj? && WellFormed(a) && WellFormed(b) && i < |a.entries|
    ensures var e, other := a.entries[i], Get(b.entries, a.entries[i].name);
      && Find(a.entries, e.name) == i
      && (other.Some? && Equal(e.value, other.value) <==> SameUnder(a.entries, b.entries, e.name))
    decreases a, 0, 0
  {
    hide Equal, DenoteEntries;
    var name := a.entries[i].name;
    GetOwn(a.entries, i);
    DenotedKey(a.entries, name);
    DenotedKey(b.entries, name);
    if Get(b.entries, name).Some? {
      EqualMeansSame(a.entries[i].value, Get(b.entries, name).value);
    }
  }

  /** Of two objects of one size, it is enough to look at the keys of one. */
  lemma SameMaps(x: seq<Entry>, y: seq<Entry>)
    requires Unique(x) && Unique(y)
    ensures |x| == |y| && (forall i :: 0 <= i < |x| ==> SameUnder(x, y, x[i].name)) <==>
      DenoteEntries(x) == DenoteEntries(y)
  {
    hide DenoteEntries;
    DenotedCount(x);
    DenotedCount(y);
    forall key ensures key in DenoteEntries(x) ==> exists i :: 0 <= i < |x| && x[i].name == key {
      DenotedKey(x, key);
      if key in DenoteEntries(x) { assert x[Find(x, key)].name == key; }
    }
    forall i | 0 <= i < |x| ensures x[i].name in DenoteEntries(x) {
      GetOwn(x, i);
      DenotedKey(x, x[i].name);
    }
    if |x| == |y| && forall i :: 0 <= i < |x| ==> SameUnder(x, y, x[i].name) {
      KeysMatch(DenoteEntries(x), DenoteEntries(y));
    }
  }

  lemma KeysMatch(m: map<Bytes, Meaning>, n: map<Bytes, Meaning>)
    requires |m| == |n| && forall key :: key in m ==> key in n && m[key] == n[key]
    ensures m == n
  {
    assert m.Keys <= n.Keys;
    assert n.Keys == m.Keys + (n.Keys - m.Keys);
    assert |n.Keys - m.Keys| == 0;
  }

  /** So equality is an equivalence, although the code treats its sides differently. */
  lemma EqualIsEquivalence(a: Value, b: Value, c: Value)
    requires WellFormed(a) && WellFormed(b) && WellFormed(c)
    ensures Equal(a, a)
    ensures Equal(a, b) ==> Equal(b, a)
    ensures Equal(a, b) && Equal(b, c) ==> Equal(a, c)
  {
    hide Equal, Denote, WellFormed;
    EqualMeansSame(a, a);
    EqualMeansSame(a, b);
    EqualMeansSame(b, a);
    EqualMeansSame(b, c);
    EqualMeansSame(a, c);
  }

  /** Spare capacity does not matter. */
  lemma {:induction false} DenoteTrimmed(v: Value)
    ensures Denote(Trim(v)) == Denote(v)
    decreases v, 0
  {
    match v
    case JArr(items, _) => DenoteTrimmedItems(items);
    case JObj(entries, _) => DenoteTrimmedEntries(entries);
    case _ =>
  }

  lemma {:induction false} DenoteTrimmedItems(items: seq<Value>)
    ensures DenoteItems(TrimItems(items)) == DenoteItems(items)
  {
    if items != [] {
      DenoteTrimmed(items[0]);
      DenoteTrimmedItems(items[1..]);
      assert TrimItems(items)[1..] == TrimItems(items[1..]);
    }
  }

  lemma {:induction false} DenoteTrimmedEntries(entries: seq<Entry>)
    ensures DenoteEntries(TrimEntries(entries)) == DenoteEntries(entries)
  {
    if entries != [] {
      DenoteTrimmed(entries[0].value);
      DenoteTrimmedEntries(entries[1..]);
      assert TrimEntries(entries)[1..] == TrimEntries(entries[1..]);
    }
  }

  // The code

  method ValueEquals(a: Option<Value>, b: Option<Value>) returns (r: bool)
    requires (a.Some? ==> WellFormed(a.value)) && (b.Some? ==> WellFormed(b.value))
    ensures r <==> (a == None && b == None) || (a.Some? && b.Some? && Equal(a.value, b.value))
  {
    if a == None || b == None { return a == None && b == None; }
    r := SameValue(a.value, b.value);
  }

  method SameValue(a: Value, b: Value) returns (r: bool)
    requires WellFormed(a) && WellFormed(b)
    ensures r <==> Equal(a, b)
    decreases a, 1
  {
    match (a, b)
    case (JArr(x, _), JArr(y, _)) => r := SameArray(a, b);
    case (JObj(x, _), JObj(y, _)) => r := SameObject(a, b);
    case (JStr(x), JStr(y)) => r := x == y;
    case (JBool(x), JBool(y)) => r := x == y;
    case (JNum(x), JNum(y)) =>
      var difference := x as real - y as real;
      r := (if difference < 0.0 then -difference else difference) < 0.000001;
    case (JNull, JNull) => r := true;
    case _ => r := false;
  }

  method SameArray(a: Value, b: Value) returns (r: bool)
    requires a.JArr? && b.JArr? && WellFormed(a) && WellFormed(b)
    ensures r <==> Equal(a, b)
    decreases a, 0
  {
    var x, y := a.items, b.items;
    if |x| != |y| { return false; }
    var i := 0;
    while i < |x|
      invariant 0 <= i <= |x|
      invariant forall k :: 0 <= k < i ==> Equal(x[k], y[k])
    {
      var same := SameValue(x[i], y[i]);
      if !same { return false; }
      i := i + 1;
    }
    r := true;
  }

  method SameObject(a: Value, b: Value) returns (r: bool)
    requires a.JObj? && b.JObj? && WellFormed(a) && WellFormed(b)
    ensures r <==> Equal(a, b)
    decreases a, 0
  {
    var x, y := a.entries, b.entries;
    if |x| != |y| { return false; }
    var i := 0;
    while i < |x|
      invariant 0 <= i <= |x|
      invariant forall k :: 0 <= k < i ==>
        var j, other := Find(x, x[k].name), Get(y, x[k].name);
        j < |x| && other.Some? && Equal(x[j].value, other.value)
    {
      GetOwn(x, i);
      var own, other := Get(x, x[i].name), Get(y, x[i].name);
      if other == None { return false; }
      var same := SameValue(own.value, other.value);
      if !same { return false; }
      i := i + 1;
    }
    r := true;
  }

  /** The copy is the same value but for its capacities, and no capacity limit is met. */
  method DeepCopy(v: Value) returns (r: Option<Value>)
    requires WellFormed(v)
    ensures r.Some? && WellFormed(r.value) && Trim(r.value) == Trim(v) && Equal(r.value, v)
    decreases v, 1
  {
    hide Equal, Trim, WellFormed;
    if v.JArr? {
      r := CopyArray(v);
    } else if v.JObj? {
      r := CopyObject(v);
    } else {
      r := Some(v);
    }
    DenoteTrimmed(v);
    DenoteTrimmed(r.value);
    EqualMeansSame(r.value, v);
  }

  lemma {:induction false} SameTrimmed(x: seq<Value>, y: seq<Value>)
    requires |x| == |y| && forall i :: 0 <= i < |x| ==> Trim(x[i]) == Trim(y[i])
    ensures TrimItems(x) == TrimItems(y)
  {
    hide Trim;
    if x != [] { SameTrimmed(x[1..], y[1..]); }
  }

  lemma {:induction false} SameTrimmedEntries(x: seq<Entry>, y: seq<Entry>)
    requires |x| == |y|
    requires forall i :: 0 <= i < |x| ==> x[i].name == y[i].name && Trim(x[i].value) == Trim(y[i].value)
    ensures TrimEntries(x) == TrimEntries(y)
  {
    hide Trim;
    if x != [] { SameTrimmedEntries(x[1..], y[1..]); }
  }

  method CopyArray(v: Value) returns (r: Option<Value>)
    requires v.JArr? && WellFormed(v)
    ensures r.Some? && WellFormed(r.value) && Trim(r.value) == Trim(v)
    decreases v, 0
  {
    var copy := new JsonArray();
    var i := 0;
    while i < |v.items|
      invariant 0 <= i <= |v.items| && copy.Valid() && fresh(copy) && fresh(copy.items)
      invariant |copy.Contents()| == i && Doubled(copy.Capacity())
      invariant forall k :: 0 <= k < i ==> WellFormed(copy.Contents()[k]) && Trim(copy.Contents()[k]) == Trim(v.items[k])
    {
      var item := DeepCopy(v.items[i]);
      if item == None { return None; }
      GrowsToTheLimit(copy.count, copy.Capacity(), ARRAY_MAX_CAPACITY);
      var ok := copy.Add(item.value);
      if !ok { return None; }
      i := i + 1;
    }
    SameTrimmed(copy.Contents(), v.items);
    r := Some(JArr(copy.Contents(), copy.Capacity()));
  }

  method CopyObject(v: Value) returns (r: Option<Value>)
    requires v.JObj? && WellFormed(v)
    ensures r.Some? && WellFormed(r.value) && Trim(r.value) == Trim(v)
    decreases v, 0
  {
    hide Find, Zip;
    var copy := new JsonObject();
    var i := 0;
    while i < |v.entries|
      invariant 0 <= i <= |v.entries| && copy.Valid() && fresh(copy) && fresh(copy.names) && fresh(copy.values)
      invariant |copy.Entries()| == i && Doubled(copy.Capacity())
      invariant forall k :: 0 <= k < i ==>
        && copy.Entries()[k].name == v.entries[k].name
        && WellFormed(copy.Entries()[k].value) && Trim(copy.Entries()[k].value) == Trim(v.entries[k].value)
    {
      var key := v.entries[i].name;
      GetOwn(v.entries, i);
      var value := DeepCopy(Get(v.entries, key).value);
      if value == None { return None; }
      GrowsToTheLimit(copy.count, copy.Capacity(), OBJECT_MAX_CAPACITY);
      var ok := copy.Add(key, value.value);
      if !ok { return None; }
      i := i + 1;
    }
    SameTrimmedEntries(copy.Entries(), v.entries);
    r := Some(JObj(copy.Entries(), copy.Capacity()));
  }
}

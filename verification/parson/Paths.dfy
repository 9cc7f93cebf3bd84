/** Dotted paths: reading and setting a value deep inside an object. */
module Paths {
  import opened Bytes
  import opened Values

  /** `strchr(name, '.')` */
  function DotPosition(name: Bytes): (r: Option<nat>)
    ensures r.Some? ==> r.value < |name| && name[r.value] == DOT
  {
    if name == [] then None
    else if name[0] == DOT then Some(0)
    else match DotPosition(name[1..]) case None => None case Some(d) => Some(d + 1)
  }

  /** `json_value_get_object`; no object for anything else. */
  function AsObject(v: Option<Value>): (r: Option<Value>)
    ensures r.Some? ==> r.value.JObj?
  {
    if v.Some? && v.value.JObj? then v else None
  }

  function GetIn(obj: Option<Value>, name: Bytes): Option<Value> {
    if AsObject(obj) == None then None else Get(obj.value.entries, name)
  }

  /** `json_object_dotget_value`; the object may be NULL. */
  function DotGet(obj: Option<Value>, name: Bytes): Option<Value>
    decreases |name|
  {
    match DotPosition(name)
    case None => GetIn(obj, name)
    case Some(d) => DotGet(AsObject(GetIn(obj, name[..d])), name[d + 1..])
  }

  const EMPTY: Value := JObj([], 0)

  /** The object once there is an object under the key: the one it has, or a new empty one. */
  function Opened(obj: Value, key: Bytes): (r: Option<Value>)
    requires obj.JObj?
    ensures r.Some? ==> r.value.JObj? && AsObject(GetIn(r, key)).Some?
  {
    if AsObject(Get(obj.entries, key)).Some? then Some(obj)
    else
      match AddEntry(obj.entries, obj.cap, key, EMPTY)
      case None => None
      case Some((more, room)) =>
        AddedGets(obj.entries, obj.cap, key, EMPTY, key);
        Some(JObj(more, room))
  }

  /** The object with another value under a key it has. */
  function Replaced(obj: Value, key: Bytes, v: Value): (r: Value)
    requires obj.JObj?
    ensures r.JObj?
  {
    var i := Find(obj.entries, key);
    if i < |obj.entries| then JObj(obj.entries[i := Entry(key, v)], obj.cap) else obj
  }

  /** `json_object_dotset_value`: the object as it is afterwards, if the call succeeds. */
  function DotSet(obj: Value, name: Bytes, v: Value): (r: Option<Value>)
    requires obj.JObj?
    ensures r.Some? ==> r.value.JObj?
    decreases |name|
  {
    match DotPosition(name)
    case None =>
      var now := SetEntry(obj.entries, obj.cap, name, v);
      if now == None then None else Some(JObj(now.value.0, now.value.1))
    case Some(d) =>
      var ready := Opened(obj, name[..d]);
      if ready == None then None
      else
        var changed := DotSet(GetIn(ready, name[..d]).value, name[d + 1..], v);
        if changed == None then None else Some(Replaced(ready.value, name[..d], changed.value))
  }

  // The same in terms of the keys along the path

  function Segments(name: Bytes): (r: seq<Bytes>)
    ensures r != []
    decreases |name|
  {
    match DotPosition(name)
    case None => [name]
    case Some(d) => [name[..d]] + Segments(name[d + 1..])
  }

  /** The value at the end of the path. */
  function Walk(v: Option<Value>, path: seq<Bytes>): Option<Value>
    decreases |path|
  {
    if path == [] then v else Walk(GetIn(v, path[0]), path[1..])
  }

  lemma {:induction false} WalkOfNothing(v: Option<Value>, path: seq<Bytes>)
    requires path != [] && AsObject(v) == None
    ensures Walk(v, path) == None
    decreases |path|
  {
    if |path| > 1 { WalkOfNothing(None, path[1..]); } else { assert path[1..] == []; }
  }

  lemma {:induction false} DotGetWalks(obj: Option<Value>, name: Bytes)
    ensures DotGet(obj, name) == Walk(obj, Segments(name))
    decreases |name|
  {
    var segments := Segments(name);
    match DotPosition(name)
    case None => assert segments[1..] == [];
    case Some(d) =>
      var inner := GetIn(obj, name[..d]);
      DotGetWalks(AsObject(inner), name[d + 1..]);
      assert segments[1..] == Segments(name[d + 1..]);
      if AsObject(inner) == None {
        WalkOfNothing(inner, segments[1..]);
        WalkOfNothing(None, segments[1..]);
      }
  }

  /** Setting by keys. */
  function SetAlong(obj: Value, path: seq<Bytes>, v: Value): (r: Option<Value>)
    requires obj.JObj? && path != []
    ensures r.Some? ==> r.value.JObj?
    decreases |path|
  {
    if |path| == 1 then
      var now := SetEntry(obj.entries, obj.cap, path[0], v);
      if now == None then None else Some(JObj(now.value.0, now.value.1))
    else
      var ready := Opened(obj, path[0]);
      if ready == None then None
      else
        var changed := SetAlong(GetIn(ready, path[0]).value, path[1..], v);
        if changed == None then None else Some(Replaced(ready.value, path[0], changed.value))
  }

  lemma DotSetUnfolds(obj: Value, name: Bytes, v: Value)
    requires obj.JObj?
    ensures DotPosition(name) == None ==>
      var now := SetEntry(obj.entries, obj.cap, name, v);
      DotSet(obj, name, v) == if now == None then None else Some(JObj(now.value.0, now.value.1))
    ensures DotPosition(name).Some? ==>
      var d := DotPosition(name).value; var ready := Opened(obj, name[..d]);
      && (ready == None ==> DotSet(obj, name, v) == None)
      && (ready.Some? ==>
        var changed := DotSet(GetIn(ready, name[..d]).value, name[d + 1..], v);
        DotSet(obj, name, v) == if changed == None then None else Some(Replaced(ready.value, name[..d], changed.value)))
  {
    hide Opened, Replaced, SetEntry;
  }

  lemma SetAlongUnfolds(obj: Value, path: seq<Bytes>, v: Value)
    requires obj.JObj? && |path| > 1
    ensures var ready := Opened(obj, path[0]);
      && (ready == None ==> SetAlong(obj, path, v) == None)
      && (ready.Some? ==>
        var changed := SetAlong(GetIn(ready, path[0]).value, path[1..], v);
        SetAlong(obj, path, v) == if changed == None then None else Some(Replaced(ready.value, path[0], changed.value)))
  {
    hide Opened, Replaced;
  }

  lemma SegmentsOf(name: Bytes)
    ensures DotPosition(name) == None ==> Segments(name) == [name]
    ensures DotPosition(name).Some? ==>
      var d, segments := DotPosition(name).value, Segments(name);
      |segments| > 1 && segments[0] == name[..d] && segments[1..] == Segments(name[d + 1..])
  {
    hide DotPosition;
  }

  lemma {:induction false} DotSetAlong(obj: Value, name: Bytes, v: Value)
    requires obj.JObj?
    ensures DotSet(obj, name, v) == SetAlong(obj, Segments(name), v)
    decreases |name|
  {
    hide Opened, SetEntry, Replaced, GetIn, DotSet, Segments, DotPosition;
    DotSetUnfolds(obj, name, v);
    SegmentsOf(name);
    match DotPosition(name)
    case None =>
    case Some(d) =>
      var ready := Opened(obj, name[..d]);
      SetAlongUnfolds(obj, Segments(name), v);
      if ready.Some? {
        DotSetAlong(GetIn(ready, name[..d]).value, name[d + 1..], v);
      }
  }

  // Getting after setting

  lemma {:induction false} FindAfterAdd(entries: seq<Entry>, name: Bytes, v: Value, key: Bytes)
    ensures Find(entries + [Entry(name, v)], key) ==
      if Find(entries, key) < |entries| then Find(entries, key)
      else if key == name then |entries| else |entries| + 1
  {
    if entries != [] {
      assert (entries + [Entry(name, v)])[1..] == entries[1..] + [Entry(name, v)];
      FindAfterAdd(entries[1..], name, v, key);
    }
  }

  lemma AddedGets(entries: seq<Entry>, cap: nat, name: Bytes, v: Value, key: Bytes)
    requires AddEntry(entries, cap, name, v).Some?
    ensures Get(AddEntry(entries, cap, name, v).value.0, key) == if key == name then Some(v) else Get(entries, key)
  {
    FindAfterAdd(entries, name, v, key);
  }

  lemma {:induction false} FindAfterUpdate(entries: seq<Entry>, i: nat, name: Bytes, v: Value, key: Bytes)
    requires i < |entries| && entries[i].name == name
    ensures Find(entries[i := Entry(name, v)], key) == Find(entries, key)
  {
    if i > 0 {
      assert entries[i := Entry(name, v)][1..] == entries[1..][i - 1 := Entry(name, v)];
      FindAfterUpdate(entries[1..], i - 1, name, v, key);
    } else {
      assert entries[i := Entry(name, v)][1..] == entries[1..];
    }
  }

  lemma ReplacedGets(obj: Value, name: Bytes, v: Value, key: Bytes)
    requires obj.JObj? && GetIn(Some(obj), name).Some?
    ensures GetIn(Some(Replaced(obj, name, v)), key) == if key == name then Some(v) else GetIn(Some(obj), key)
  {
    FindAfterUpdate(obj.entries, Find(obj.entries, name), name, v, key);
  }

  lemma SetGets(entries: seq<Entry>, cap: nat, name: Bytes, v: Value, key: Bytes)
    requires SetEntry(entries, cap, name, v).Some?
    ensures Get(SetEntry(entries, cap, name, v).value.0, key) == if key == name then Some(v) else Get(entries, key)
  {
    if Find(entries, name) < |entries| {
      FindAfterUpdate(entries, Find(entries, name), name, v, key);
    } else {
      AddedGets(entries, cap, name, v, key);
    }
  }

  lemma OpenedGets(obj: Value, name: Bytes, key: Bytes)
    requires obj.JObj? && Opened(obj, name).Some?
    ensures key != name ==> GetIn(Opened(obj, name), key) == GetIn(Some(obj), key)
    ensures GetIn(Opened(obj, name), name) ==
      if AsObject(GetIn(Some(obj), name)).Some? then GetIn(Some(obj), name) else Some(EMPTY)
  {
    if AsObject(Get(obj.entries, name)) == None {
      AddedGets(obj.entries, obj.cap, name, EMPTY, key);
      AddedGets(obj.entries, obj.cap, name, EMPTY, name);
    }
  }

  /** One level of a successful call: what is under the first key, and that the others hold what they held. */
  lemma OneLevel(obj: Value, path: seq<Bytes>, v: Value, key: Bytes)
    requires obj.JObj? && path != [] && SetAlong(obj, path, v).Some?
    ensures var after := SetAlong(obj, path, v);
      && (key != path[0] ==> GetIn(after, key) == GetIn(Some(obj), key))
      && (|path| == 1 ==> GetIn(after, path[0]) == Some(v))
      && (|path| > 1 ==> GetIn(after, path[0]) == SetAlong(GetIn(Opened(obj, path[0]), path[0]).value, path[1..], v))
  {
    hide SetEntry, Get, Opened, Replaced;
    if |path| == 1 {
      SetGets(obj.entries, obj.cap, path[0], v, key);
      SetGets(obj.entries, obj.cap, path[0], v, path[0]);
    } else {
      var ready := Opened(obj, path[0]).value;
      var changed := SetAlong(GetIn(Some(ready), path[0]).value, path[1..], v).value;
      OpenedGets(obj, path[0], key);
      ReplacedGets(ready, path[0], changed, key);
      ReplacedGets(ready, path[0], changed, path[0]);
    }
  }

  /** The value set is found at the path, and below it what the value holds. */
  lemma {:induction false} FoundAlong(obj: Value, path: seq<Bytes>, v: Value, below: seq<Bytes>)
    requires obj.JObj? && path != [] && SetAlong(obj, path, v).Some?
    ensures Walk(SetAlong(obj, path, v), path + below) == Walk(Some(v), below)
    decreases |path|
  {
    hide SetAlong, Opened, GetIn;
    OneLevel(obj, path, v, path[0]);
    assert (path + below)[1..] == path[1..] + below;
    if |path| == 1 {
      assert path[1..] + below == below;
    } else {
      FoundInner(obj, path, v);
      FoundAlong(GetIn(Opened(obj, path[0]), path[0]).value, path[1..], v, below);
    }
  }

  lemma FoundInner(obj: Value, path: seq<Bytes>, v: Value)
    requires obj.JObj? && |path| > 1 && SetAlong(obj, path, v).Some?
    ensures Opened(obj, path[0]).Some? && GetIn(Opened(obj, path[0]), path[0]).Some?
    ensures GetIn(Opened(obj, path[0]), path[0]).value.JObj?
    ensures SetAlong(GetIn(Opened(obj, path[0]), path[0]).value, path[1..], v).Some?
  {
    hide Opened;
  }

  lemma PartLater(path: seq<Bytes>, other: seq<Bytes>)
    requires path != [] && other != [] && path[0] == other[0] && !(path <= other) && !(other <= path)
    ensures |path| > 1 && |other| > 1 && !(path[1..] <= other[1..]) && !(other[1..] <= path[1..])
  {
    assert path == [path[0]] + path[1..] && other == [path[0]] + other[1..];
  }

  /** A path that is neither above nor below the one set leads where it led. */
  lemma {:induction false} OthersAlong(obj: Value, path: seq<Bytes>, v: Value, other: seq<Bytes>)
    requires obj.JObj? && path != [] && SetAlong(obj, path, v).Some?
    requires !(path <= other) && !(other <= path)
    ensures Walk(SetAlong(obj, path, v), other) == Walk(Some(obj), other)
    decreases |path|
  {
    hide SetAlong, Opened, GetIn;
    OneLevel(obj, path, v, other[0]);
    if other[0] == path[0] {
      PartLater(path, other);
      FoundInner(obj, path, v);
      var inner := GetIn(Opened(obj, path[0]), path[0]).value;
      OthersAlong(inner, path[1..], v, other[1..]);
      OpenedGets(obj, path[0], path[0]);
      InnerBefore(obj, path[0], other[1..]);
    }
  }

  lemma WalkOfEmpty(path: seq<Bytes>)
    requires path != []
    ensures Walk(Some(EMPTY), path) == None
  {
    if |path| > 1 { WalkOfNothing(None, path[1..]); } else { assert path[1..] == []; }
  }

  /** A key that holds no object leads nowhere further, and neither does the empty object put there. */
  lemma InnerBefore(obj: Value, key: Bytes, path: seq<Bytes>)
    requires obj.JObj? && Opened(obj, key).Some? && path != []
    ensures Walk(GetIn(Some(obj), key), path) == Walk(GetIn(Opened(obj, key), key), path)
  {
    OpenedGets(obj, key, key);
    if AsObject(GetIn(Some(obj), key)) == None {
      WalkOfNothing(GetIn(Some(obj), key), path);
      WalkOfEmpty(path);
    }
  }

  // When it fails

  /** No room for another key. */
  predicate Full(obj: Value)
    requires obj.JObj?
  {
    Grown(|obj.entries|, obj.cap, OBJECT_MAX_CAPACITY) == None
  }

  /** The value after `k` keys is in the way: it is no object, or a full one without the next key. */
  predicate InTheWay(obj: Value, path: seq<Bytes>, k: nat)
    requires k < |path|
  {
    var at := Walk(Some(obj), path[..k]);
    at.Some? && (!at.value.JObj? || (GetIn(at, path[k]) == None && Full(at.value)))
  }

  /** It fails exactly when something is in the way. */
  lemma {:induction false} FailsAlong(obj: Value, path: seq<Bytes>, v: Value)
    requires obj.JObj? && path != []
    ensures SetAlong(obj, path, v) == None <==> exists k :: 0 <= k < |path| && InTheWay(obj, path, k)
    decreases |path|
  {
    hide Full, Grown;
    assert path[..0] == [];
    assert InTheWay(obj, path, 0) <==> GetIn(Some(obj), path[0]) == None && Full(obj);
    if GetIn(Some(obj), path[0]) == None && Full(obj) { FullFails(obj, path, v); }
    if |path| == 1 {
      OneKeyFails(obj, path, v);
    } else if GetIn(Some(obj), path[0]) == None {
      if !Full(obj) {
        OpensNew(obj, path[0]);
        EmptyTakes(path[1..], v);
        forall k | 0 < k < |path| ensures !InTheWay(obj, path, k) {
          NoneBeyond(obj, path, k);
        }
      }
    } else if AsObject(GetIn(Some(obj), path[0])) == None {
      WalkOne(obj, path);
      assert InTheWay(obj, path, 1);
      OpensNone(obj, path[0]);
    } else {
      var inner := GetIn(Some(obj), path[0]).value;
      FailsAlong(inner, path[1..], v);
      forall k | 0 < k < |path| ensures InTheWay(obj, path, k) <==> InTheWay(inner, path[1..], k - 1) {
        InTheWayInside(obj, path, k);
      }
      if SetAlong(inner, path[1..], v) == None {
        var k :| 0 <= k < |path[1..]| && InTheWay(inner, path[1..], k);
        assert InTheWay(obj, path, k + 1);
      }
    }
  }

  /** The empty object takes any path, so once a new object is put in nothing fails any more. */
  lemma {:induction false} EmptyTakes(path: seq<Bytes>, v: Value)
    requires path != []
    ensures SetAlong(EMPTY, path, v).Some?
  {
    if |path| > 1 {
      OpensNew(EMPTY, path[0]);
      EmptyTakes(path[1..], v);
    }
  }

  lemma FullFails(obj: Value, path: seq<Bytes>, v: Value)
    requires obj.JObj? && path != [] && GetIn(Some(obj), path[0]) == None && Full(obj)
    ensures SetAlong(obj, path, v) == None
  {
  }

  lemma OneKeyFails(obj: Value, path: seq<Bytes>, v: Value)
    requires obj.JObj? && |path| == 1
    ensures SetAlong(obj, path, v) == None <==> GetIn(Some(obj), path[0]) == None && Full(obj)
  {
  }

  lemma OpensNew(obj: Value, key: Bytes)
    requires obj.JObj? && GetIn(Some(obj), key) == None && !Full(obj)
    ensures Opened(obj, key).Some? && GetIn(Opened(obj, key), key) == Some(EMPTY)
  {
    AddedGets(obj.entries, obj.cap, key, EMPTY, key);
  }

  lemma OpensNone(obj: Value, key: Bytes)
    requires obj.JObj? && GetIn(Some(obj), key).Some? && AsObject(GetIn(Some(obj), key)) == None
    ensures Opened(obj, key) == None
  {
  }

  lemma WalkOne(obj: Value, path: seq<Bytes>)
    requires |path| > 1
    ensures Walk(Some(obj), path[..1]) == GetIn(Some(obj), path[0])
  {
    assert path[..1][1..] == [];
  }

  lemma NoneBeyond(obj: Value, path: seq<Bytes>, k: nat)
    requires 0 < k < |path| && GetIn(Some(obj), path[0]) == None
    ensures !InTheWay(obj, path, k)
  {
    assert path[..k][0] == path[0];
    assert Walk(Some(obj), path[..k]) == Walk(None, path[..k][1..]);
    if k > 1 { WalkOfNothing(None, path[..k][1..]); } else { assert path[..k][1..] == []; }
  }

  lemma InTheWayInside(obj: Value, path: seq<Bytes>, k: nat)
    requires 0 < k < |path| && GetIn(Some(obj), path[0]).Some?
    ensures InTheWay(obj, path, k) <==> InTheWay(GetIn(Some(obj), path[0]).value, path[1..], k - 1)
  {
    hide Full;
    assert path[..k][1..] == path[1..][..k - 1] && path[..k][0] == path[0];
  }

  // Dotted names

  /** After a successful call the value is found at the name, */
  lemma SetThenGet(obj: Value, name: Bytes, v: Value)
    requires obj.JObj? && DotSet(obj, name, v).Some?
    ensures DotGet(DotSet(obj, name, v), name) == Some(v)
  {
    DotSetAlong(obj, name, v);
    DotGetWalks(DotSet(obj, name, v), name);
    FoundAlong(obj, Segments(name), v, []);
    assert Segments(name) + [] == Segments(name);
  }

  /** what the value holds is found below it, */
  lemma SetThenGetBelow(obj: Value, name: Bytes, v: Value, below: Bytes)
    requires obj.JObj? && DotSet(obj, name, v).Some?
    ensures DotGet(DotSet(obj, name, v), name + [DOT] + below) == DotGet(AsObject(Some(v)), below)
  {
    DotSetAlong(obj, name, v);
    DotGetWalks(DotSet(obj, name, v), name + [DOT] + below);
    SegmentsJoin(name, below);
    FoundAlong(obj, Segments(name), v, Segments(below));
    DotGetWalks(AsObject(Some(v)), below);
    if AsObject(Some(v)) == None {
      WalkOfNothing(Some(v), Segments(below));
      WalkOfNothing(None, Segments(below));
    }
  }

  lemma {:induction false} SegmentsJoin(name: Bytes, below: Bytes)
    ensures Segments(name + [DOT] + below) == Segments(name) + Segments(below)
    decreases |name|
  {
    DotAfter(name, below);
    var whole := name + [DOT] + below;
    match DotPosition(name)
    case None =>
      assert whole[..|name|] == name && whole[|name| + 1..] == below;
    case Some(d) =>
      assert whole[..d] == name[..d] && whole[d + 1..] == name[d + 1..] + [DOT] + below;
      SegmentsJoin(name[d + 1..], below);
      assert Segments(whole) == [name[..d]] + (Segments(name[d + 1..]) + Segments(below));
  }

  lemma {:induction false} DotAfter(name: Bytes, below: Bytes)
    ensures DotPosition(name + [DOT] + below) ==
      if DotPosition(name).Some? then DotPosition(name) else Some(|name|)
  {
    if name != [] {
      assert (name + [DOT] + below)[1..] == name[1..] + [DOT] + below;
      DotAfter(name[1..], below);
    }
  }

  /** and every name that is neither above nor below it is found as before. */
  lemma SetLeavesOthers(obj: Value, name: Bytes, v: Value, other: Bytes)
    requires obj.JObj? && DotSet(obj, name, v).Some?
    requires !(Segments(name) <= Segments(other)) && !(Segments(other) <= Segments(name))
    ensures DotGet(DotSet(obj, name, v), other) == DotGet(Some(obj), other)
  {
    DotSetAlong(obj, name, v);
    DotGetWalks(DotSet(obj, name, v), other);
    DotGetWalks(Some(obj), other);
    OthersAlong(obj, Segments(name), v, Segments(other));
  }

  /** The call fails exactly when something on the way is no object, or is full. */
  lemma SetFails(obj: Value, name: Bytes, v: Value)
    requires obj.JObj?
    ensures DotSet(obj, name, v) == None <==> exists k :: 0 <= k < |Segments(name)| && InTheWay(obj, Segments(name), k)
  {
    DotSetAlong(obj, name, v);
    FailsAlong(obj, Segments(name), v);
  }

  // What stays well formed

  lemma AddKeeps(obj: Value, name: Bytes, v: Value)
    requires obj.JObj? && WellFormed(obj) && NoNul(name) && WellFormed(v)
    requires AddEntry(obj.entries, obj.cap, name, v).Some?
    ensures var (more, room) := AddEntry(obj.entries, obj.cap, name, v).value; WellFormed(JObj(more, room))
  {
  }

  lemma UpdateKeeps(obj: Value, i: nat, name: Bytes, v: Value)
    requires obj.JObj? && WellFormed(obj) && WellFormed(v) && i < |obj.entries| && obj.entries[i].name == name
    ensures WellFormed(JObj(obj.entries[i := Entry(name, v)], obj.cap))
  {
  }

  lemma NoNulParts(name: Bytes)
    requires NoNul(name) && DotPosition(name).Some?
    ensures NoNul(name[..DotPosition(name).value]) && NoNul(name[DotPosition(name).value + 1..])
  {
  }

  /** Unique keys, and the limits on every capacity. */
  lemma {:induction false} SetKeepsWellFormed(obj: Value, name: Bytes, v: Value)
    requires obj.JObj? && WellFormed(obj) && NoNul(name) && WellFormed(v) && DotSet(obj, name, v).Some?
    ensures WellFormed(DotSet(obj, name, v).value)
    decreases |name|
  {
    hide NoNul, WellFormed;
    match DotPosition(name)
    case None =>
      var i := Find(obj.entries, name);
      if i < |obj.entries| { UpdateKeeps(obj, i, name, v); } else { AddKeeps(obj, name, v); }
    case Some(d) =>
      NoNulParts(name);
      var ready := Opened(obj, name[..d]).value;
      OpenedKeeps(obj, name[..d]);
      SetKeepsWellFormed(GetIn(Some(ready), name[..d]).value, name[d + 1..], v);
      UpdateKeeps(ready, Find(ready.entries, name[..d]), name[..d],
                  DotSet(GetIn(Some(ready), name[..d]).value, name[d + 1..], v).value);
  }

  lemma OpenedKeeps(obj: Value, key: Bytes)
    requires obj.JObj? && WellFormed(obj) && NoNul(key) && Opened(obj, key).Some?
    ensures WellFormed(Opened(obj, key).value) && WellFormed(GetIn(Opened(obj, key), key).value)
  {
    if AsObject(Get(obj.entries, key)) == None { AddKeeps(obj, key, EMPTY); }
  }

  // The order of the keys

  function NamesIn(entries: seq<Entry>): seq<Bytes> {
    seq(|entries|, i requires 0 <= i < |entries| => entries[i].name)
  }

  /** No keys where there is no object. */
  function NamesOf(v: Option<Value>): seq<Bytes> {
    if AsObject(v) == None then [] else NamesIn(v.value.entries)
  }

  /** The keys stay in order, and a new one comes last. */
  ghost predicate KeysGrow(was: Option<Value>, now: Option<Value>, key: Bytes) {
    AsObject(now).Some? && NamesOf(now) == NamesOf(was) + if GetIn(was, key) == None then [key] else []
  }

  lemma AddedLast(obj: Value, key: Bytes, v: Value)
    requires obj.JObj? && AddEntry(obj.entries, obj.cap, key, v).Some?
    ensures var (more, room) := AddEntry(obj.entries, obj.cap, key, v).value; KeysGrow(Some(obj), Some(JObj(more,
      room)), key)
  {
  }

  lemma FirstKeys(obj: Value, path: seq<Bytes>, v: Value)
    requires obj.JObj? && path != [] && SetAlong(obj, path, v).Some?
    ensures KeysGrow(Some(obj), SetAlong(obj, path, v), path[0])
  {
    var key, i := path[0], Find(obj.entries, path[0]);
    if |path| == 1 {
      if i < |obj.entries| {
        assert NamesIn(obj.entries[i := Entry(key, v)]) == NamesIn(obj.entries);
      } else {
        AddedLast(obj, key, v);
      }
    } else {
      OpenedKeys(obj, key);
      var ready := Opened(obj, key).value;
      var changed := SetAlong(GetIn(Some(ready), key).value, path[1..], v).value;
      ReplacedKeys(ready, key, changed);
    }
  }

  lemma OpenedKeys(obj: Value, key: Bytes)
    requires obj.JObj? && Opened(obj, key).Some?
    ensures KeysGrow(Some(obj), Opened(obj, key), key)
  {
    if AsObject(GetIn(Some(obj), key)) == None {
      AddedLast(obj, key, EMPTY);
    } else {
      assert NamesIn(obj.entries) + [] == NamesIn(obj.entries);
    }
  }

  lemma ReplacedKeys(obj: Value, key: Bytes, v: Value)
    requires obj.JObj?
    ensures NamesIn(Replaced(obj, key, v).entries) == NamesIn(obj.entries)
  {
  }

  lemma {:induction false} KeysAlong(obj: Value, path: seq<Bytes>, v: Value, k: nat)
    requires obj.JObj? && k < |path| && SetAlong(obj, path, v).Some?
    ensures KeysGrow(Walk(Some(obj), path[..k]), Walk(SetAlong(obj, path, v), path[..k]), path[k])
    decreases |path|
  {
    hide SetAlong, Opened, GetIn, NamesOf, AsObject;
    if k == 0 {
      FirstKeys(obj, path, v);
      assert path[..0] == [];
    } else {
      FoundInner(obj, path, v);
      OneLevel(obj, path, v, path[0]);
      KeysAlong(GetIn(Opened(obj, path[0]), path[0]).value, path[1..], v, k - 1);
      assert path[..k][1..] == path[1..][..k - 1] && path[..k][0] == path[0];
      OpenedWalk(obj, path, k);
    }
  }

  /** Before the call the object that is put in at a new key has no keys, as little as what was not there. */
  lemma OpenedWalk(obj: Value, path: seq<Bytes>, k: nat)
    requires obj.JObj? && 0 < k < |path| && Opened(obj, path[0]).Some?
    ensures var was, ready := Walk(Some(obj), path[..k]), Walk(GetIn(Opened(obj, path[0]), path[0]), path[1..][..k - 1]);
      NamesOf(was) == NamesOf(ready) && GetIn(was, path[k]) == GetIn(ready, path[k])
  {
    hide Opened, GetIn;
    var key, more := path[0], path[1..][..k - 1];
    assert path[..k][1..] == more && path[..k][0] == key;
    if k == 1 {
      OpenedGets(obj, key, key);
      OpenedNames(obj, key, path[1]);
    } else {
      InnerBefore(obj, key, more);
    }
  }

  lemma OpenedNames(obj: Value, key: Bytes, next: Bytes)
    requires obj.JObj? && Opened(obj, key).Some?
    ensures NamesOf(GetIn(Some(obj), key)) == NamesOf(GetIn(Opened(obj, key), key))
    ensures GetIn(GetIn(Some(obj), key), next) == GetIn(GetIn(Opened(obj, key), key), next)
  {
    hide Opened;
    OpenedGets(obj, key, key);
  }

  /** In each object on the way to a dotted name the keys stay in order, and the next part comes last if it is new. */
  lemma SetKeepsOrder(obj: Value, name: Bytes, v: Value, k: nat)
    requires obj.JObj? && k < |Segments(name)| && DotSet(obj, name, v).Some?
    ensures var path := Segments(name);
      KeysGrow(Walk(Some(obj), path[..k]), Walk(DotSet(obj, name, v), path[..k]), path[k])
  {
    hide KeysGrow, Walk;
    DotSetAlong(obj, name, v);
    KeysAlong(obj, Segments(name), v, k);
  }

  // The code

  method FindDot(name: Bytes) returns (r: Option<nat>)
    ensures r == DotPosition(name)
  {
    var i := 0;
    while i < |name|
      invariant 0 <= i <= |name|
      invariant DotPosition(name) == match DotPosition(name[i..]) case None => None case Some(d) => Some(i + d)
    {
      if name[i] == DOT { return Some(i); }
      assert name[i..][1..] == name[i + 1..];
      i := i + 1;
    }
    r := None;
  }

  lemma OpenedCases(obj: Value, key: Bytes)
    requires obj.JObj?
    ensures AsObject(GetIn(Some(obj), key)).Some? ==> Opened(obj, key) == Some(obj)
    ensures AsObject(GetIn(Some(obj), key)) == None ==>
      Opened(obj, key) == match AddEntry(obj.entries, obj.cap, key, EMPTY)
        case None => None case Some((more, room)) => Some(JObj(more, room))
  {
  }

  /** A call that fails beyond a key did not have to put an object under it. */
  lemma NewNeverFails(obj: Value, name: Bytes, v: Value)
    requires obj.JObj? && DotPosition(name).Some?
    requires var key := name[..DotPosition(name).value];
      Opened(obj, key).Some? && DotSet(GetIn(Opened(obj, key), key).value, name[DotPosition(name).value + 1..], v) == None
    ensures Opened(obj, name[..DotPosition(name).value]) == Some(obj)
  {
    hide DotSet, SetAlong, Segments, DotPosition, Get;
    var key, later := name[..DotPosition(name).value], name[DotPosition(name).value + 1..];
    if AsObject(GetIn(Some(obj), key)) == None {
      OpenedGets(obj, key, key);
      DotSetAlong(EMPTY, later, v);
      EmptyTakes(Segments(later), v);
    }
  }
}

/** Dotted paths over objects that refer to one another, changed in place. */
module PathObjects {
  import opened Bytes
  import opened Paths
  import opened Values

  /** A value that is no object, or a reference to one. */
  datatype Slot = Plain(v: Value) | Nested(o: ObjectNode)

  class ObjectNode {
    var names: seq<Bytes>
    var slots: seq<Slot>
    var cap: nat
    ghost var repr: set<ObjectNode>

    /** A tree: the nested objects are each other's strangers. */
    ghost predicate Valid()
      reads this, repr
      decreases repr
    {
      && this in repr
      && |names| == |slots|
      && (forall i {:trigger slots[i]} :: 0 <= i < |slots| && slots[i].Nested? ==>
        && slots[i].o in repr && slots[i].o.repr < repr && this !in slots[i].o.repr
        && slots[i].o.Valid())
      && (forall i {:trigger slots[i]} :: 0 <= i < |slots| && slots[i].Plain? ==> !slots[i].v.JObj?)
      && (forall i, j {:trigger slots[i], slots[j]} ::
        0 <= i < j < |slots| && slots[i].Nested? && slots[j].Nested? ==> slots[i].o.repr !! slots[j].o.repr)
    }

    ghost function ValueAt(i: nat): Value
      requires Valid() && i < |slots|
      reads this, repr
      decreases repr, 0
    {
      if slots[i].Plain? then slots[i].v else slots[i].o.Model()
    }

    ghost function Entries(): (r: seq<Entry>)
      requires Valid()
      reads this, repr
      ensures |r| == |names| && forall i :: 0 <= i < |r| ==> r[i] == Entry(names[i], ValueAt(i))
      decreases repr, 1
    {
      seq(|names|, i requires 0 <= i < |names| && Valid() reads this, repr => Entry(names[i], ValueAt(i)))
    }

    /** The object as a value. */
    ghost function Model(): (r: Value)
      requires Valid()
      reads this, repr
      ensures r.JObj?
      decreases repr, 2
    {
      JObj(Entries(), cap)
    }

    constructor ()
      ensures Valid() && repr == {this} && Model() == EMPTY
    {
      names, slots, cap, repr := [], [], 0, {this};
    }

    method IndexOf(name: Bytes) returns (i: nat)
      requires Valid()
      ensures i == Find(Entries(), name)
    {
      i := 0;
      while i < |names|
        invariant 0 <= i <= |names| && Find(Entries(), name) >= i
      {
        if names[i] == name { return; }
        i := i + 1;
      }
    }

    /** `json_object_dotget_value` */
    method DotGetValue(name: Bytes) returns (r: Option<Slot>)
      requires Valid()
      ensures r.Some? && r.value.Nested? ==> r.value.o in repr && r.value.o.Valid()
      ensures DotGet(Some(Model()), name) ==
        if r == None then None else Some(if r.value.Plain? then r.value.v else r.value.o.Model())
      decreases |name|
    {
      var dot := FindDot(name);
      if dot == None {
        var i := IndexOf(name);
        return if i < |names| then Some(slots[i]) else None;
      }
      var i := IndexOf(name[..dot.value]);
      if i == |names| || slots[i].Plain? {
        DotGetNowhere(name[dot.value + 1..]);
        return None;
      }
      r := slots[i].o.DotGetValue(name[dot.value + 1..]);
    }

    /** A value that may be put into this object. */
    ghost predicate Welcome(s: Slot)
      reads this, Footprint(s), if s.Nested? then {s.o} else {}
    {
      match s
      case Plain(v) => !v.JObj?
      case Nested(o) => o.Valid() && o.repr !! repr
    }

    /** Over the old value. */
    method Put(i: nat, s: Slot)
      requires Valid() && Welcome(s) && i < |slots|
      modifies this
      ensures Valid() && repr == old(repr) + Footprint(s) && cap == old(cap)
      ensures Entries() == old(Entries())[i := Entry(old(names[i]), Held(s))]
    {
      hide Find;
      slots := slots[i := s];
      repr := repr + Footprint(s);
    }

    /** After the last, with room for `room` in all. */
    method Append(name: Bytes, s: Slot, room: nat)
      requires Valid() && Welcome(s)
      modifies this
      ensures Valid() && repr == old(repr) + Footprint(s) && cap == room
      ensures Entries() == old(Entries()) + [Entry(name, Held(s))]
      ensures names == old(names) + [name] && slots == old(slots) + [s]
    {
      hide Find;
      names := names + [name];
      slots := slots + [s];
      cap := room;
      repr := repr + Footprint(s);
    }

    /** `json_object_add` */
    method Add(name: Bytes, s: Slot) returns (ok: bool)
      requires Valid() && Welcome(s)
      modifies this
      ensures Valid()
      ensures var added := AddEntry(old(Entries()), old(cap), name, old(Held(s)));
        && (ok <==> added.Some?)
        && (ok ==> Entries() == added.value.0 && cap == added.value.1 && repr == old(repr) + Footprint(s))
        && (ok ==> names == old(names) + [name] && slots == old(slots) + [s])
      ensures !ok ==> unchanged(this)
    {
      hide SetEntry, Find;
      var i := IndexOf(name);
      if i < |names| { return false; }
      var room := cap;
      if |names| >= cap {
        room := Max(cap * 2, STARTING_CAPACITY);
        if room > OBJECT_MAX_CAPACITY { return false; }
      }
      Append(name, s, room);
      ok := true;
    }

    /** `json_object_set_value` */
    method SetValue(name: Bytes, s: Slot) returns (ok: bool)
      requires Valid() && Welcome(s)
      modifies this
      ensures Valid()
      ensures var now := SetEntry(old(Entries()), old(cap), name, old(Held(s)));
        && (ok <==> now.Some?)
        && (ok ==> Entries() == now.value.0 && cap == now.value.1 && repr == old(repr) + Footprint(s))
      ensures !ok ==> unchanged(this)
    {
      var i := IndexOf(name);
      if i < |names| {
        Put(i, s);
        return true;
      }
      ok := Add(name, s);
    }

    /** `json_object_get_object`, and a new empty object if there is none. */
    method Open(key: Bytes) returns (ok: bool, i: nat)
      requires Valid()
      modifies this
      ensures Valid() && fresh(repr - old(repr))
      ensures ok <==> Opened(old(Model()), key).Some?
      ensures ok ==> Model() == Opened(old(Model()), key).value
      ensures ok ==> i < |slots| && i == Find(Entries(), key) && slots[i].Nested?
      ensures !ok ==> unchanged(this)
    {
      hide Opened, SetEntry, DotSet, Replaced, Grown, AddEntry;
      OpenedCases(Model(), key);
      i := IndexOf(key);
      if i < |names| && slots[i].Nested? { return true, i; }
      var inner := new ObjectNode();
      AddedAt(Entries(), cap, key, EMPTY);
      ok := Add(key, Nested(inner));
    }

    /** Setting inside the nested object at `i`. */
    method DotSetInside(i: nat, name: Bytes, s: Slot) returns (ok: bool)
      requires Valid() && Welcome(s) && i < |slots| && slots[i].Nested?
      modifies repr
      ensures Valid() && fresh(repr - old(repr) - old(Footprint(s))) && names == old(names) && cap == old(cap)
      ensures var after := DotSet(old(ValueAt(i)), name, old(Held(s)));
        && (ok <==> after.Some?)
        && (ok ==> Entries() == old(Entries())[i := Entry(old(names[i]), after.value)])
      ensures !ok ==> Entries() == old(Entries())
      decreases |name|, 3
    {
      hide DotSet, Find, AddEntry, SetEntry;
      ok := slots[i].o.DotSetValue(name, s);
      repr := repr + slots[i].o.repr;
    }

    /** `json_object_dotset_value`: in place; when it fails the whole tree holds what it held. */
    method DotSetValue(name: Bytes, s: Slot) returns (ok: bool)
      requires Valid() && Welcome(s)
      modifies repr
      ensures Valid() && fresh(repr - old(repr) - old(Footprint(s)))
      ensures var after := DotSet(old(Model()), name, old(Held(s)));
        && (ok <==> after.Some?)
        && (ok ==> Model() == after.value)
      ensures !ok ==> Model() == old(Model())
      decreases |name|, 2
    {
      hide Opened, Replaced, SetEntry, Find, DotSet;
      ghost var obj := Model();
      DotSetUnfolds(obj, name, Held(s));
      var dot := FindDot(name);
      if dot == None {
        ok := SetValue(name, s);
        return;
      }
      var key, later := name[..dot.value], name[dot.value + 1..];
      var i;
      ok, i := Open(key);
      if !ok { return; }
      ghost var ready := Model();
      OpenedAt(ready, key);
      ok := DotSetInside(i, later, s);
      if !ok { NewNeverFails(obj, name, old(Held(s))); }
    }
  }

  ghost function Footprint(s: Slot): set<ObjectNode>
    reads if s.Nested? then {s.o} else {}
  {
    if s.Nested? then s.o.repr else {}
  }

  ghost function Held(s: Slot): Value
    requires s.Nested? ==> s.o.Valid()
    reads if s.Nested? then {s.o} + s.o.repr else {}
  {
    if s.Plain? then s.v else s.o.Model()
  }

  lemma DotGetNowhere(name: Bytes)
    ensures DotGet(None, name) == None
  {
    DotGetWalks(None, name);
    WalkOfNothing(None, Segments(name));
  }

  lemma AddedAt(entries: seq<Entry>, cap: nat, name: Bytes, v: Value)
    ensures AddEntry(entries, cap, name, v).Some? ==>
      Find(entries, name) == |entries| && Find(AddEntry(entries, cap, name, v).value.0, name) == |entries|
  {
    FindAfterAdd(entries, name, v, name);
  }

  lemma OpenedAt(obj: Value, key: Bytes)
    requires obj.JObj? && Find(obj.entries, key) < |obj.entries|
    ensures var i := Find(obj.entries, key);
      && GetIn(Some(obj), key) == Some(obj.entries[i].value)
      && forall w :: Replaced(obj, key, w) == JObj(obj.entries[i := Entry(key, w)], obj.cap)
  {
  }
}

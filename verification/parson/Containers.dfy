/** The growing arrays under parson's arrays and objects. */
module Containers {
  import opened Bytes
  import opened Values

  class JsonArray {
    var items: array<Value>
    var count: nat

    ghost predicate Valid()
      reads this
    {
      count <= items.Length <= ARRAY_MAX_CAPACITY
    }

    function Contents(): seq<Value>
      requires Valid()
      reads this, items
    {
      items[..count]
    }

    function Capacity(): nat
      reads this
    {
      items.Length
    }

    constructor ()
      ensures Valid() && fresh(items) && Contents() == [] && Capacity() == 0
    {
      items := new Value[0];
      count := 0;
    }

    /** `json_array_add` */
    method Add(v: Value) returns (ok: bool)
      requires Valid()
      modifies this, items
      ensures Valid() && (items == old(items) || fresh(items))
      ensures match AddItem(old(Contents()), old(Capacity()), v)
        case None => !ok && Contents() == old(Contents()) && Capacity() == old(Capacity())
        case Some((more, room)) => ok && Contents() == more && Capacity() == room
    {
      if count >= items.Length {
        var wanted := Max(items.Length * 2, STARTING_CAPACITY);
        if wanted > ARRAY_MAX_CAPACITY { return false; }
        ok := Resize(wanted);
        if !ok { return false; }
      }
      items[count] := v;
      count := count + 1;
      ok := true;
    }

    /** `json_array_resize` */
    method Resize(wanted: nat) returns (ok: bool)
      requires Valid() && wanted <= ARRAY_MAX_CAPACITY && (wanted > 0 ==> count <= wanted)
      modifies this
      ensures ok <==> wanted > 0
      ensures ok ==> Valid() && fresh(items) && Contents() == old(Contents()) && Capacity() == wanted
      ensures !ok ==> unchanged(this)
    {
      if wanted == 0 { return false; }
      var more := new Value[wanted];
      forall k | 0 <= k < count { more[k] := items[k]; }
      assert more[..count] == items[..count];
      items := more;
      ok := true;
    }
  }

  function Zip(names: seq<Bytes>, values: seq<Value>): (r: seq<Entry>)
    requires |names| == |values|
    ensures |r| == |names| && forall i :: 0 <= i < |r| ==> r[i] == Entry(names[i], values[i])
  {
    seq(|names|, i requires 0 <= i < |names| => Entry(names[i], values[i]))
  }

  class JsonObject {
    var names: array<Bytes>
    var values: array<Value>
    var count: nat

    ghost predicate Valid()
      reads this, names
    {
      && count <= names.Length == values.Length <= OBJECT_MAX_CAPACITY
      && forall i, j :: 0 <= i < j < count ==> names[i] != names[j]
    }

    function Entries(): (r: seq<Entry>)
      requires Valid()
      reads this, names, values
      ensures Unique(r)
    {
      Zip(names[..count], values[..count])
    }

    function Capacity(): nat
      reads this
    {
      names.Length
    }

    constructor ()
      ensures Valid() && fresh(names) && fresh(values) && Entries() == [] && Capacity() == 0
    {
      names := new Bytes[0];
      values := new Value[0];
      count := 0;
    }

    /** `json_object_nget_value`: the value under the first `n` bytes of the name. */
    method NGet(name: Bytes, n: nat) returns (r: Option<Value>)
      requires Valid() && n <= |name|
      ensures r == Get(Entries(), name[..n])
    {
      var i := 0;
      while i < count
        invariant 0 <= i <= count
        invariant Find(Entries(), name[..n]) >= i
      {
        if |names[i]| == n && names[i] == name[..n] {
          GetOwn(Entries(), i);
          return Some(values[i]);
        }
        i := i + 1;
      }
      r := None;
    }

    /** `json_object_get_value` */
    method GetValue(name: Bytes) returns (r: Option<Value>)
      requires Valid()
      ensures r == Get(Entries(), name)
    {
      assert name[..|name|] == name;
      r := NGet(name, |name|);
    }

    /** `json_object_add` */
    method Add(name: Bytes, v: Value) returns (ok: bool)
      requires Valid()
      modifies this, names, values
      ensures Valid() && ((names == old(names) && values == old(values)) || (fresh(names) && fresh(values)))
      ensures match AddEntry(old(Entries()), old(Capacity()), name, v)
        case None => !ok && Entries() == old(Entries()) && Capacity() == old(Capacity())
        case Some((more, room)) => ok && Entries() == more && Capacity() == room
    {
      hide Find, Zip;
      var there := GetValue(name);
      if there != None { return false; }
      if count >= names.Length {
        var wanted := Max(names.Length * 2, STARTING_CAPACITY);
        if wanted > OBJECT_MAX_CAPACITY { return false; }
        ok := Resize(wanted);
        if !ok { return false; }
      }
      Append(name, v);
      ok := true;
    }

    /** The last lines of `json_object_add`. */
    method Append(name: Bytes, v: Value)
      requires Valid() && count < names.Length && Find(Entries(), name) == count
      modifies this, names, values
      ensures Valid() && names == old(names) && values == old(values)
      ensures Entries() == old(Entries()) + [Entry(name, v)]
    {
      assert forall i :: 0 <= i < count ==> Entries()[i].name == names[i];
      names[count] := name;
      values[count] := v;
      count := count + 1;
    }

    /** `json_object_resize` */
    method Resize(wanted: nat) returns (ok: bool)
      requires Valid() && wanted <= OBJECT_MAX_CAPACITY && (wanted > 0 ==> count <= wanted)
      modifies this
      ensures ok <==> wanted > 0
      ensures ok ==> Valid() && fresh(names) && fresh(values)
      ensures ok ==> Entries() == old(Entries()) && Capacity() == wanted
      ensures !ok ==> unchanged(this)
    {
      if wanted == 0 { return false; }
      var moreNames, moreValues := new Bytes[wanted], new Value[wanted];
      forall k | 0 <= k < count { moreNames[k] := names[k]; }
      forall k | 0 <= k < count { moreValues[k] := values[k]; }
      assert moreNames[..count] == names[..count] && moreValues[..count] == values[..count];
      names := moreNames;
      values := moreValues;
      ok := true;
    }
  }
}

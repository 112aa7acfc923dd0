/** The machine keeps the globals of all objects in one list. Seen object by object it is
    the slot lists that src/object.c searches and extends. */
module ObjectSlots {
  import Machine
  import opened SlotList
  import opened Values
  import opened Wrappers

  function SlotsOf(globals: seq<Machine.Slot>, obj: nat): seq<Named<Value<nat, CInt>>> {
    if globals == [] then []
    else if globals[0].obj == obj then [Named(globals[0].name, globals[0].value)] + SlotsOf(globals[1..], obj)
    else SlotsOf(globals[1..], obj)
  }

  /** Reading a global is looking its name up in the list of its object. */
  lemma {:induction false} GlobalIsLookup(globals: seq<Machine.Slot>, obj: nat, name: string)
    ensures Machine.Global(globals, obj, name) ==
      match Lookup(SlotsOf(globals, obj), name)
      case Some(v) => v
      case None => Nil
    ensures Machine.FindSlot(globals, obj, name) < |globals| <==> Lookup(SlotsOf(globals, obj), name).Some?
    decreases |globals|
  {
    if globals != [] {
      GlobalIsLookup(globals[1..], obj, name);
      GlobalStep(globals, obj, name);
      LookupStep(Named(globals[0].name, globals[0].value), SlotsOf(globals[1..], obj), name);
      hide Lookup, Machine.Global, Machine.FindSlot;
    }
  }

  lemma LookupStep<V>(first: Named<V>, rest: seq<Named<V>>, name: string)
    ensures Lookup([first] + rest, name) == if first.name == name then Some(first.value) else Lookup(rest, name)
  {
    var s := [first] + rest;
    assert s[1..] == rest && s[0] == first;
    assert first.name != name ==> Position(s, name) == 1 + Position(rest, name);
  }

  lemma GlobalStep(globals: seq<Machine.Slot>, obj: nat, name: string)
    requires globals != []
    ensures var here, rest := globals[0].obj == obj && globals[0].name == name, globals[1..];
      && Machine.Global(globals, obj, name) == (if here then globals[0].value else Machine.Global(rest, obj, name))
      && (Machine.FindSlot(globals, obj, name) < |globals| <==> here || Machine.FindSlot(rest, obj, name) < |rest|)
  {
  }

  lemma {:induction false} OverwrittenIsStored(globals: seq<Machine.Slot>, obj: nat, name: string, v: Value<nat, CInt>)
    requires Machine.FindSlot(globals, obj, name) < |globals|
    ensures SlotsOf(globals[Machine.FindSlot(globals, obj, name) := Machine.Slot(obj, name, v)], obj)
         == Stored(SlotsOf(globals, obj), name, v)
    decreases |globals|
  {
    var k := Machine.FindSlot(globals, obj, name);
    var rest := globals[1..];
    var s := SlotsOf(globals, obj);
    var t := globals[k := Machine.Slot(obj, name, v)];
    if k == 0 {
      assert t[1..] == rest;
      assert s[0 := Named(name, v)] == [Named(name, v)] + SlotsOf(rest, obj);
    } else {
      assert t[1..] == rest[k - 1 := Machine.Slot(obj, name, v)];
      OverwrittenIsStored(rest, obj, name, v);
      GlobalIsLookup(rest, obj, name);
      if globals[0].obj == obj {
        var first := Named(globals[0].name, globals[0].value);
        var r := SlotsOf(rest, obj);
        assert s == [first] + r && s[1..] == r;
        var j := Position(r, name);
        assert s[j + 1 := Named(name, v)] == [first] + r[j := Named(name, v)];
      }
    }
  }

  lemma {:induction false} OthersUntouched(globals: seq<Machine.Slot>, k: nat, slot: Machine.Slot, other: nat)
    requires k < |globals| && globals[k].obj == slot.obj != other
    ensures SlotsOf(globals[k := slot], other) == SlotsOf(globals, other)
    decreases |globals|
  {
    if k > 0 {
      assert globals[k := slot][1..] == globals[1..][k - 1 := slot];
      OthersUntouched(globals[1..], k - 1, slot, other);
    } else {
      assert globals[k := slot][1..] == globals[1..];
    }
  }

  /** Writing a global is storing it in the list of the current object: in place, or in
      front. The lists of all other objects stay as they are. */
  lemma StoreIsStored(s: Machine.State, name: string, v: Value<nat, CInt>, other: nat)
    ensures var t := Machine.StoreGlobal(s, name, v);
      && SlotsOf(t.globals, s.obj) == Stored(SlotsOf(s.globals, s.obj), name, v)
      && (other != s.obj ==> SlotsOf(t.globals, other) == SlotsOf(s.globals, other))
  {
    var k := Machine.FindSlot(s.globals, s.obj, name);
    GlobalIsLookup(s.globals, s.obj, name);
    if k < |s.globals| {
      OverwrittenIsStored(s.globals, s.obj, name, v);
      if other != s.obj {
        OthersUntouched(s.globals, k, Machine.Slot(s.obj, name, v), other);
      }
    } else {
      var slot := Machine.Slot(s.obj, name, v);
      assert ([slot] + s.globals)[1..] == s.globals;
    }
  }
}

/** The named slots of an object, methods and globals alike: a linked list searched from
    the front, overwritten in place and extended in front. */
module SlotList {
  import opened Sequences
  import opened Wrappers

  datatype Named<V> = Named(name: string, value: V)

  /** The position of a name, or the number of slots. */
  function Position<V>(s: seq<Named<V>>, name: string): (k: nat)
    ensures k <= |s|
    ensures k < |s| ==> s[k].name == name
    ensures forall j :: 0 <= j < k ==> s[j].name != name
  {
    if s == [] || s[0].name == name then 0 else 1 + Position(s[1..], name)
  }

  function Lookup<V>(s: seq<Named<V>>, name: string): Option<V> {
    var k := Position(s, name);
    if k < |s| then Some(s[k].value) else None
  }

  function Stored<V>(s: seq<Named<V>>, name: string, value: V): seq<Named<V>> {
    var k := Position(s, name);
    if k < |s| then s[k := Named(name, value)] else [Named(name, value)] + s
  }

  ghost predicate UniqueNames<V>(s: seq<Named<V>>) {
    forall i, j :: 0 <= i < j < |s| ==> s[i].name != s[j].name
  }

  /** The list is a map: what is stored under a name is found, other names are untouched,
      and no name ever has two slots. */
  lemma StoredIsFound<V>(s: seq<Named<V>>, name: string, value: V, other: string)
    ensures Lookup(Stored(s, name, value), other) == if other == name then Some(value) else Lookup(s, other)
    ensures UniqueNames(s) ==> UniqueNames(Stored(s, name, value))
  {
    var k, t := Position(s, name), Stored(s, name, value);
    if k < |s| {
      assert forall j :: 0 <= j < |s| ==> t[j].name == s[j].name;
      SamePosition(t, s, other);
    } else {
      assert t[1..] == s;
    }
  }

  lemma {:induction false} SamePosition<V>(s: seq<Named<V>>, t: seq<Named<V>>, name: string)
    requires |s| == |t| && forall j :: 0 <= j < |s| ==> s[j].name == t[j].name
    ensures Position(s, name) == Position(t, name)
    decreases |s|
  {
    if s != [] && s[0].name != name {
      SamePosition(s[1..], t[1..], name);
    }
  }

  class Slot<V> {
    const name: string
    var value: V
    var next: Slot?<V>

    constructor (name: string, value: V, next: Slot?<V>)
      ensures this.name == name && this.value == value && this.next == next
    {
      this.name, this.value, this.next := name, value, next;
    }
  }

  ghost function At<V>(s: seq<Slot<V>>, i: nat): Slot?<V> {
    if i < |s| then s[i] else null
  }

  lemma AtBack<V>(c: seq<Slot<V>>, ns: Slot<V>, i: nat)
    requires i <= |c|
    ensures Back(c, ns)[i] == (if i < |c| then c[i] else ns)
    ensures At(Back(c, ns), i + 1) == if i == |c| then null else if i == |c| - 1 then ns else At(c, i + 1)
    ensures At(Back(c, ns), 0) == if c == [] then ns else At(c, 0)
  {
  }

  class Slots<V> {
    var first: Slot?<V>
    ghost var chain: seq<Slot<V>>
    ghost var content: seq<Named<V>>

    ghost predicate Valid()
      reads this, chain
    {
      && first == At(chain, 0) && |content| == |chain|
      && (forall i :: 0 <= i < |chain| ==>
            chain[i].next == At(chain, i + 1) && content[i] == Named(chain[i].name, chain[i].value))
      && UniqueNames(content)
    }

    /** What a walk along the list finds at its i-th step. */
    lemma Facts(i: nat)
      requires Valid() && i <= |chain|
      ensures first == At(chain, 0) && |content| == |chain|
      ensures i < |chain| ==> chain[i].next == At(chain, i + 1) && content[i] == Named(chain[i].name, chain[i].value)
    {
    }

    constructor ()
      ensures Valid() && content == [] && chain == []
    {
      first, chain, content := null, [], [];
    }

    /** The slot with this name, by strcmp along the list. */
    method Find(name: string) returns (cs: Slot?<V>)
      requires Valid()
      ensures cs == At(chain, Position(content, name))
    {
      cs := first;
      ghost var i := 0;
      while cs != null && cs.name != name
        invariant i <= |chain| && cs == At(chain, i)
        invariant forall j :: 0 <= j < i ==> content[j].name != name
        decreases |chain| - i
      {
        cs := cs.next;
        i := i + 1;
      }
      assert i == Position(content, name);
    }

    /** obj_get_code and obj_get_global. */
    method Get(name: string) returns (value: Option<V>)
      requires Valid()
      ensures value == Lookup(content, name)
    {
      var cs := Find(name);
      value := if cs == null then None else Some(cs.value);
    }

    method Overwrite(cs: Slot<V>, value: V, ghost k: nat)
      requires Valid() && k < |chain| && chain[k] == cs
      modifies cs`value, this`content
      ensures Valid() && content == old(content)[k := Named(cs.name, value)]
    {
      ghost var c := content;
      assert forall i :: 0 <= i < |chain| && i != k ==> c[i].name == chain[i].name != cs.name;
      cs.value := value;
      content := c[k := Named(cs.name, value)];
    }

    method Prepend(name: string, value: V)
      requires Valid() && UniqueNames(Front(Named(name, value), content))
      modifies this
      ensures Valid() && content == Front(Named(name, value), old(content))
      ensures fresh(chain[0]) && chain == Front(chain[0], old(chain))
    {
      hide Front, UniqueNames;
      ghost var c := chain;
      var ns := new Slot(name, value, first);
      first := ns;
      chain := Front(ns, c);
      content := Front(Named(name, value), content);
      forall i | 0 <= i < |chain|
        ensures chain[i].next == At(chain, i + 1) && content[i] == Named(chain[i].name, chain[i].value)
      {
        if i > 0 {
          assert chain[i] == c[i - 1] && content[i] == old(content)[i - 1];
        }
      }
    }

    /** obj_set_code and obj_set_global. */
    method Set(name: string, value: V)
      requires Valid()
      modifies this, chain
      ensures Valid() && content == Stored(old(content), name, value)
      ensures forall c :: c in chain ==> c in old(chain) || fresh(c)
    {
      StoredIsFound(content, name, value, name);
      hide UniqueNames;
      var cs := Find(name);
      if cs != null {
        Overwrite(cs, value, Position(content, name));
      } else {
        Prepend(name, value);
      }
    }

    /** One more slot behind the last. */
    method Append(last: Slot?<V>, name: string, value: V) returns (ns: Slot<V>)
      requires Valid() && UniqueNames(Back(content, Named(name, value)))
      requires last == if chain == [] then null else chain[|chain| - 1]
      modifies this, if last == null then {} else {last}
      ensures Valid() && content == Back(old(content), Named(name, value))
      ensures fresh(ns) && chain == Back(old(chain), ns)
      ensures forall c :: c in chain ==> c in old(chain) || c == ns
    {
      ghost var c := chain;
      assert forall i :: 0 <= i < |c| - 1 ==> c[i] != last by {
        assert forall i :: 0 <= i < |c| ==> c[i].name == content[i].name;
      }
      hide Back, UniqueNames, At;
      ns := new Slot(name, value, null);
      if last != null {
        last.next := ns;
      } else {
        first := ns;
      }
      chain := Back(c, ns);
      content := Back(content, Named(name, value));
      forall i | 0 <= i < |chain|
        ensures chain[i].next == At(chain, i + 1) && content[i] == Named(chain[i].name, chain[i].value)
      {
        AtBack(c, ns, i);
        if i < |c| {
          assert content[i] == old(content)[i];
        }
      }
      AtBack(c, ns, 0);
      forall s | s in chain ensures s in c || s == ns {
        var j :| 0 <= j < |chain| && chain[j] == s;
      }
    }

    /** One turn of the copying loop: a slot like os behind the last of the copy. */
    method CopySlot(copy: Slots<V>, os: Slot<V>, last: Slot?<V>, ghost i: nat) returns (ns: Slot<V>)
      requires Valid() && copy.Valid() && copy != this && (forall s :: s in copy.chain ==> s !in chain)
      requires i < |chain| && os == chain[i] && |copy.chain| == i && copy.content == content[..i]
      requires last == if i == 0 then null else copy.chain[i - 1]
      modifies copy, copy.chain
      ensures Valid() && copy.Valid()
      ensures |copy.chain| == i + 1 && copy.chain[i] == ns && copy.content == content[..i + 1]
      ensures fresh(ns) && copy.chain[..i] == old(copy.chain)
    {
      hide Back, UniqueNames, At;
      Facts(i);
      NextPrefix(content, i);
      assert i > 0 ==> last in copy.chain;
      ns := copy.Append(last, os.name, os.value);
      assert forall s :: s in chain ==> s.next == old(s.next) && s.value == old(s.value);
      LastOfBack(old(copy.chain), ns);
    }

    /** The copying loops of obj_copy, with the first new slot becoming the head. */
    method Copy() returns (copy: Slots<V>)
      requires Valid()
      ensures fresh(copy) && fresh(copy.chain) && copy.Valid() && copy.content == content
    {
      hide Back, UniqueNames, At;
      copy := new Slots();
      var os, last: Slot?<V> := first, null;
      ghost var i := 0;
      Facts(0);
      while os != null
        invariant i <= |chain| && os == At(chain, i) && Valid()
        invariant fresh(copy) && fresh(copy.chain) && copy.Valid() && |copy.chain| == i && copy.content == content[..i]
        invariant last == if i == 0 then null else copy.chain[i - 1]
        decreases |chain| - i
      {
        AtInside(chain, i);
        ghost var before := copy.chain;
        last := CopySlot(copy, os, last, i);
        assert forall j :: 0 <= j < i ==> copy.chain[j] == before[j];
        Facts(i);
        os := os.next;
        i := i + 1;
      }
      AtInside(chain, i);
    }

    /** The same loops as the code has them: the first new slot is never stored, but the
        slot before it, which is null (src/object.c:240-246). Whatever is copied, the head
        of the copy stays null. */
    method CopyHeadAsWritten() returns (head: Slot?<V>, ghost made: nat)
      requires Valid()
      ensures head == null && made == |content|
    {
      hide UniqueNames, At;
      head, made := null, 0;
      var os, last: Slot?<V> := first, null;
      Facts(0);
      while os != null
        invariant made <= |chain| && os == At(chain, made) && Valid()
        invariant head == null && (last == null <==> made == 0) && (last != null ==> fresh(last))
        decreases |chain| - made
      {
        AtInside(chain, made);
        Facts(made);
        var ns := new Slot(os.name, os.value, null);
        if last != null {
          last.next := ns;
        } else {
          head := last;
        }
        assert forall s :: s in chain ==> s.next == old(s.next) && s.value == old(s.value);
        last := ns;
        os := os.next;
        made := made + 1;
      }
      AtInside(chain, made);
    }
  }

  /** A list without a head is empty: the copy made above keeps no slot of a list that
      has any. */
  lemma HeadOfEmpty<V>(l: Slots<V>)
    requires l.Valid()
    ensures l.first == null <==> l.content == []
  {
  }

  lemma AtInside<V>(s: seq<Slot<V>>, i: nat)
    ensures i < |s| ==> At(s, i) == s[i]
    ensures i >= |s| ==> At(s, i) == null
  {
  }

  lemma LastOfBack<V>(c: seq<Slot<V>>, s: Slot<V>)
    ensures |Back(c, s)| == |c| + 1 && Back(c, s)[|c|] == s && Back(c, s)[..|c|] == c
  {
  }

  lemma NextPrefix<V>(s: seq<Named<V>>, n: nat)
    requires UniqueNames(s) && n < |s|
    ensures Back(s[..n], s[n]) == s[..n + 1] && UniqueNames(Back(s[..n], s[n]))
  {
  }
}

/** The object cache as it is linked: bucket chains in a table, and the recently-used list
    of unpinned entries, doubly linked from the oldest to the newest. */
module ObjectCache {
  import opened CacheModel
  import opened Sequences
  import opened Wrappers

  const CHAIN_FACTOR := 2

  class Entry<T> {
    const id: nat
    const content: T
    var pins: nat
    var listNext: Entry?<T>
    var newer: Entry?<T>
    var older: Entry?<T>

    constructor (id: nat, content: T, next: Entry?<T>)
      ensures this.id == id && this.content == content && pins == 1
      ensures listNext == next && newer == null && older == null
    {
      this.id, this.content, pins := id, content, 1;
      listNext, newer, older := next, null, null;
    }
  }

  ghost function At<T>(es: seq<Entry<T>>, i: int): Entry?<T> {
    if 0 <= i < |es| then es[i] else null
  }

  /** The first position from i on whose entry hashes to bucket b, or the end. */
  ghost function NextIn<T>(es: seq<Entry<T>>, i: nat, b: nat, size: nat): (j: nat)
    requires i <= |es| && size > 0
    ensures i <= j <= |es|
    ensures j < |es| ==> es[j].id % size == b
    ensures forall m :: i <= m < j ==> es[m].id % size != b
    decreases |es| - i
  {
    if i == |es| || es[i].id % size == b then i else NextIn(es, i + 1, b, size)
  }

  /** The entry a bucket or chain pointer has to name. */
  ghost function Chained<T>(es: seq<Entry<T>>, i: nat, b: nat, size: nat): Entry?<T>
    requires i <= |es| && size > 0
  {
    At(es, NextIn(es, i, b, size))
  }

  /** The recently-used list, from the oldest entry to the newest; entries outside it have
      no neighbours. */
  ghost predicate DoublyLinked<T>(es: seq<Entry<T>>, order: seq<Entry<T>>, newest: Entry?<T>, oldest: Entry?<T>)
    reads es`newer, es`older
  {
    && Distinct(order)
    && (forall e :: e in order ==> e in es)
    && oldest == At(order, 0) && newest == At(order, |order| - 1)
    && (forall i :: 0 <= i < |order| ==>
          order[i] in es && order[i].newer == At(order, i + 1) && order[i].older == At(order, i - 1))
    && (forall e :: e in es && e !in order ==> e.newer == null && e.older == null)
  }

  lemma FewerListed<T>(es: seq<Entry<T>>, k: nat, order: seq<Entry<T>>, newest: Entry?<T>, oldest: Entry?<T>)
    requires DoublyLinked(es, order, newest, oldest) && Distinct(es) && k < |es| && es[k] !in order
    ensures DoublyLinked(Without(es, k), order, newest, oldest)
  {
    hide Without;
    forall e | e in es ensures e in Without(es, k) <==> e != es[k] {
      Remaining(es, k, e);
    }
    forall e | e in Without(es, k) ensures e in es {
      Remaining(es, k, e);
    }
  }

  ghost predicate Mirror<T>(c: CacheModel.Cache<T>, es: seq<Entry<T>>, order: seq<Entry<T>>)
    reads es`pins
  {
    && |c.items| == |es| && |c.order| == |order|
    && (forall i :: 0 <= i < |es| ==> c.items[i] == Item(es[i].id, es[i].content, es[i].pins))
    && (forall i :: 0 <= i < |order| ==> c.order[i] == order[i].id)
  }

  lemma MirrorWithout<T>(c: CacheModel.Cache<T>, es: seq<Entry<T>>, order: seq<Entry<T>>, i: nat)
    requires Mirror(c, es, order) && order != [] && i == IndexOf(c.items, c.order[0]) < |es|
    ensures Mirror(EvictOldest(c), Without(es, i), Without(order, 0))
  {
    hide IndexOf;
    var t := EvictOldest(c);
    forall j | 0 <= j < |es| - 1 ensures t.items[j] == c.items[if j < i then j else j + 1] {
    }
  }

  /** Soundness alone, for the methods below. */
  lemma StaysSound<T>(c: CacheModel.Cache<T>, id: nat)
    requires Sound(c)
    ensures Sound(CacheModel.Get(c, id))
    ensures Pins(c, id) > 0 ==> Sound(Unpin(c, id))
    ensures c.order != [] ==> Sound(EvictOldest(c))
  {
    GetSound(c, id);
    if Pins(c, id) > 0 {
      UnpinSound(c, id);
    }
    if c.order != [] {
      EvictOldestSound(c);
    }
  }

  lemma FewerOwned<T>(es: seq<Entry<T>>, i: nat, repr: set<Entry<T>>)
    requires i < |es| && forall e :: e in es ==> e in repr
    ensures forall e :: e in Without(es, i) ==> e in repr
  {
  }

  /** An item with other pins, and the place k in the order given up. */
  ghost function Got<T>(c: CacheModel.Cache<T>, i: nat, k: nat, pins: nat): CacheModel.Cache<T>
    requires i < |c.items|
  {
    CacheModel.Cache(SetPins(c.items, i, pins), if k < |c.order| then Without(c.order, k) else c.order)
  }

  lemma GetSteps<T>(c: CacheModel.Cache<T>, id: nat, i: nat, k: nat)
    requires i == IndexOf(c.items, id) < |c.items|
    requires Remove(c.order, id) == if k < |c.order| then Without(c.order, k) else c.order
    ensures CacheModel.Get(c, id) == Got(c, i, k, c.items[i].pins + 1)
  {
  }

  lemma MirrorUnpinned<T>(c: CacheModel.Cache<T>, id: nat, i: nat, es: seq<Entry<T>>, order: seq<Entry<T>>)
    requires Pins(c, id) > 0 && i == IndexOf(c.items, id) < |es| == |c.items|
    requires Mirror(c.(items := SetPins(c.items, i, c.items[i].pins - 1)), es, order)
    ensures Mirror(Unpin(c, id), es, if es[i].pins == 0 then order + [es[i]] else order)
  {
  }

  lemma MirrorGot<T>(c: CacheModel.Cache<T>, i: nat, k: nat, pins: nat, es: seq<Entry<T>>, order: seq<Entry<T>>)
    requires i < |c.items| && Mirror(c.(items := SetPins(c.items, i, pins)), es, order)
    ensures Mirror(Got(c, i, k, pins), es, if k < |order| then Without(order, k) else order)
  {
  }

  class Cache<T> {
    const table: array<Entry?<T>>
    const size: nat
    var newest: Entry?<T>
    var oldest: Entry?<T>
    var entries: nat
    ghost var all: seq<Entry<T>>
    ghost var list: seq<Entry<T>>
    ghost var model: CacheModel.Cache<T>
    ghost var repr: set<Entry<T>>

    ghost predicate Counted()
      reads this`entries, this`all
    {
      && entries == |all| && table.Length == size > 0
      && Distinct(all)
    }

    /** Every bucket chain runs through exactly the entries that hash to it. */
    ghost predicate Chains()
      requires Counted()
      reads this`entries, this`all, table, all`listNext
    {
      ChainsThrough(all)
    }

    ghost predicate ChainsThrough(es: seq<Entry<T>>)
      requires table.Length == size > 0
      reads table, es`listNext
    {
      && (forall b :: 0 <= b < size ==> table[b] == Chained(es, 0, b, size))
      && (forall i :: 0 <= i < |es| ==> es[i].listNext == Chained(es, i + 1, es[i].id % size, size))
    }

    ghost predicate Listed()
      reads this`newest, this`oldest, this`all, this`list, all`newer, all`older
    {
      DoublyLinked(all, list, newest, oldest)
    }

    /** The value the linked structure stands for. */
    ghost predicate Mirrors()
      reads this`all, this`list, this`model, all`pins
    {
      Mirror(model, all, list)
    }

    ghost predicate Owned()
      reads this`all, this`repr
    {
      forall e :: e in all ==> e in repr
    }

    ghost predicate Valid()
      reads this, table, all
    {
      Counted() && Chains() && Listed() && Mirrors() && Sound(model) && Owned()
    }

    constructor (size: nat)
      requires size > 0
      ensures Valid() && model == CacheModel.Cache([], [])
      ensures fresh(table) && this.size == size && repr == {}
    {
      table := new Entry?<T>[size](_ => null);
      this.size := size;
      newest, oldest, entries := null, null, 0;
      all, list, model, repr := [], [], CacheModel.Cache([], []), {};
    }

    /** Along the chain of the bucket the id hashes to. */
    method Find(id: nat) returns (ce: Entry?<T>)
      requires Counted() && Chains() && Mirrors()
      ensures ce == At(all, IndexOf(model.items, id))
    {
      hide NextIn, IndexOf;
      var b := id % size;
      ce := table[b];
      ghost var i := NextIn(all, 0, b, size);
      while ce != null && ce.id != id
        invariant i <= |all| && ce == At(all, i) && (i < |all| ==> all[i].id % size == b)
        invariant forall j :: 0 <= j < i ==> all[j].id != id
        decreases |all| - i
      {
        assert ce.listNext == Chained(all, i + 1, b, size);
        ce := ce.listNext;
        i := NextIn(all, i + 1, b, size);
      }
      ghost var k := IndexOf(model.items, id);
      assert forall j :: 0 <= j < |all| ==> model.items[j].id == all[j].id;
      assert k == i;
    }

    /** Close the gap around an entry: its neighbours and the ends of the list are made to
        point past it. */
    method Splice(ce: Entry<T>)
      requires ce in all && ce.older != ce && ce.newer != ce
      requires (ce.older != null ==> ce.older in all) && (ce.newer != null ==> ce.newer in all)
      requires ce.older == null || ce.older != ce.newer
      modifies this`newest, this`oldest, all`newer, all`older
      ensures newest == (if old(newest) == ce then old(ce.older) else old(newest))
      ensures oldest == (if old(oldest) == ce then old(ce.newer) else old(oldest))
      ensures ce.newer == null && ce.older == null
      ensures forall e :: e in all && e != ce ==>
        && e.newer == (if e == old(ce.older) then old(ce.newer) else old(e.newer))
        && e.older == (if e == old(ce.newer) then old(ce.older) else old(e.older))
    {
      if newest == ce {
        newest := ce.older;
      }
      if oldest == ce {
        oldest := ce.newer;
      }
      if ce.older != null {
        ce.older.newer := ce.newer;
      }
      if ce.newer != null {
        ce.newer.older := ce.older;
      }
      ce.older := null;
      ce.newer := null;
    }

    /** Out of the recently-used list, if it is there. */
    method Unlink(ce: Entry<T>, ghost k: nat)
      requires Listed() && ce in all && (if k < |list| then list[k] == ce else ce !in list)
      modifies this`newest, this`oldest, this`list, all`newer, all`older
      ensures Listed() && list == if k < old(|list|) then Without(old(list), k) else old(list)
    {
      hide Without, At;
      ghost var es := list;
      if k < |es| {
        Ends(es, k);
        assert ce.newer == At(es, k + 1) && ce.older == At(es, k - 1);
      } else {
        EndsElsewhere(es, ce);
      }
      Splice(ce);
      if k < |es| {
        list := Without(es, k);
        forall i | 0 <= i < |list|
          ensures list[i] in all && list[i].newer == At(list, i + 1) && list[i].older == At(list, i - 1)
        {
          Neighbours(es, k, i);
        }
        forall e | e in all && e !in list ensures e.newer == null && e.older == null {
          if e in es {
            Remaining(es, k, e);
          }
        }
        forall e | e in list ensures e in all {
          Remaining(es, k, e);
        }
      }
    }

    /** To the newest end of the list. */
    method LinkNewest(ce: Entry<T>)
      requires Listed() && ce in all && ce !in list
      modifies this`newest, this`oldest, this`list, all`newer, all`older
      ensures Listed() && list == old(list) + [ce]
    {
      hide At;
      ghost var es := list;
      Appended(es, ce);
      ce.newer := null;
      ce.older := newest;
      if newest != null {
        newest.newer := ce;
      }
      newest := ce;
      if oldest == null {
        oldest := ce;
      }
      list := es + [ce];
      forall i | 0 <= i < |list|
        ensures list[i] in all && list[i].newer == At(list, i + 1) && list[i].older == At(list, i - 1)
      {
        AppendedAt(es, ce, i);
      }
    }

    /** A new entry at the front of its bucket chain. */
    method PutEntry(id: nat, content: T) returns (ne: Entry<T>)
      requires Counted() && Chains() && Listed()
      modifies this`entries, this`all, table
      ensures Counted() && Chains() && Listed()
      ensures fresh(ne) && all == Front(ne, old(all))
      ensures ne.id == id && ne.content == content && ne.pins == 1
    {
      hide NextIn, Chained, Front, At;
      ghost var es := all;
      var b := id % size;
      ne := new Entry(id, content, table[b]);
      entries := entries + 1;
      table[b] := ne;
      all := Front(ne, es);
      forall c: nat | c < size ensures table[c] == Chained(all, 0, c, size) {
        ShiftedFirst(ne, es, c, size);
      }
      forall i: nat | i < |all| ensures all[i].listNext == Chained(all, i + 1, all[i].id % size, size) {
        if i > 0 {
          assert all[i] == es[i - 1];
        }
        Shifted(ne, es, i, all[i].id % size, size);
      }
      forall i, j | 0 <= i < j < |all| ensures all[i] != all[j] {
        assert all[j] == es[j - 1] && (i > 0 ==> all[i] == es[i - 1]);
      }
    }

    /** The entry in front of ce in its bucket chain. */
    method FindBefore(ce: Entry<T>, ghost k: nat) returns (prev: Entry<T>, ghost p: nat)
      requires Counted() && Chains() && k < |all| && all[k] == ce && table[ce.id % size] != ce
      ensures p < k && prev == all[p] && prev.id % size == ce.id % size && NextIn(all, p + 1, ce.id % size, size) == k
    {
      hide NextIn;
      var b := ce.id % size;
      p := NextIn(all, 0, b, size);
      assert p <= k;
      prev := table[b];
      while prev.listNext != ce
        invariant p < k && prev == all[p] && prev.id % size == b
        decreases k - p
      {
        assert prev.listNext == Chained(all, p + 1, b, size);
        p := NextIn(all, p + 1, b, size);
        assert p <= k;
        prev := prev.listNext;
      }
      assert prev.listNext == Chained(all, p + 1, b, size) == all[k];
    }

    /** The one pointer that names an entry in its bucket chain is made to point past it. */
    method Bypass(ce: Entry<T>, ghost k: nat) returns (ghost p: nat)
      requires Counted() && Chains() && k < |all| && all[k] == ce
      modifies table, all`listNext
      ensures Names(all, k, p, size)
      ensures forall c :: 0 <= c < size ==>
        table[c] == if p == k && c == ce.id % size then old(ce.listNext) else old(table[c])
      ensures forall e :: e in all ==>
        e.listNext == if p < k && e == all[p] then old(ce.listNext) else old(e.listNext)
    {
      hide NextIn;
      var b := ce.id % size;
      p := k;
      if table[b] == ce {
        table[b] := ce.listNext;
      } else {
        var prev;
        prev, p := FindBefore(ce, k);
        prev.listNext := ce.listNext;
      }
    }

    /** Out of its bucket chain, and no longer counted. */
    method RemoveFromBucket(ce: Entry<T>, ghost k: nat)
      requires Counted() && Chains() && k < |all| && all[k] == ce
      modifies this`entries, this`all, table, all`listNext
      ensures Counted() && Chains() && all == Without(old(all), k)
    {
      hide Without, NextIn, Chained, Names;
      ghost var es := all;
      ghost var p := Bypass(ce, k);
      entries := entries - 1;
      all := Without(es, k);
      Ends(es, k);
      forall c: nat | c < size ensures table[c] == Chained(all, 0, c, size) {
        BucketAfter(es, k, p, c, size);
      }
      forall i: nat | i < |all| ensures all[i].listNext == Chained(all, i + 1, all[i].id % size, size) {
        EntryAfter(es, k, p, i, size);
      }
    }

    /** What eviction leaves when it forgets this step, as the code does: the pointer that
        named the evicted entry still names it, and the chains are wrong for the entries
        that stay, whichever was evicted. */
    lemma EvictionDangles(k: nat) returns (p: nat)
      requires Counted() && Chains() && k < |all|
      ensures Names(all, k, p, size)
      ensures if p == k then table[all[k].id % size] == all[k]
              else p < k && all[p] != all[k] && all[p].listNext == all[k]
      ensures all[k] !in Without(all, k) && !ChainsThrough(Without(all, k))
    {
      hide NextIn, Without, Names, Chained, ChainsThrough;
      p := Namer(all, k, 0, size);
      Named(k, p);
      NeverChained(all, k, 0, all[k].id % size, size);
      if p == k {
        BucketWrong(Without(all, k), all[k].id % size);
      } else {
        NeverChained(all, k, p + 1, all[p].id % size, size);
        EntryWrong(Without(all, k), p);
      }
    }

    lemma BucketWrong(es: seq<Entry<T>>, b: nat)
      requires table.Length == size > b && table[b] != Chained(es, 0, b, size)
      ensures !ChainsThrough(es)
    {
    }

    lemma EntryWrong(es: seq<Entry<T>>, i: nat)
      requires table.Length == size > 0 && i < |es|
      requires es[i].listNext != Chained(es, i + 1, es[i].id % size, size)
      ensures !ChainsThrough(es)
    {
    }

    lemma Named(k: nat, p: nat)
      requires Counted() && Chains() && k < |all| && Names(all, k, p, size)
      ensures if p == k then table[all[k].id % size] == all[k]
              else p < k && all[p] != all[k] && all[p].listNext == all[k]
    {
      hide NextIn;
    }

    /** Where an entry stands in the list: the end when it is pinned. */
    lemma ListPlace(i: nat) returns (k: nat)
      requires Mirrors() && Listed() && Sound(model) && i < |all|
      ensures if k < |list| then list[k] == all[i] else all[i] !in list
      ensures k <= |list| && (k < |list| <==> all[i].pins == 0)
      ensures Remove(model.order, all[i].id) == if k < |list| then Without(model.order, k) else model.order
    {
      k := OrderPlace(model, i);
      if k < |list| {
        assert list[k] in all;
        var j :| 0 <= j < |all| && all[j] == list[k];
        SameItem(model, i, j);
      }
    }

    method SetPinCount(ce: Entry<T>, pins: nat, ghost i: nat)
      requires Counted() && Mirrors() && i < |all| && all[i] == ce
      modifies ce`pins, this`model
      ensures Mirrors() && ce.pins == pins
      ensures model == old(model).(items := SetPins(old(model).items, i, pins))
    {
      ce.pins := pins;
      model := model.(items := SetPins(model.items, i, pins));
    }

    /** What an id found, or not found, by Find means for the model. */
    lemma FoundFacts(id: nat) returns (i: nat, k: nat)
      requires Valid()
      ensures i == IndexOf(model.items, id) <= |all|
      ensures i == |all| ==> CacheModel.Get(model, id) == model && Lookup(model, id) == None
      ensures i < |all| ==>
        && Lookup(model, id) == Some(all[i].content) && all[i] in repr
        && (if k < |list| then list[k] == all[i] else all[i] !in list)
        && k <= |list| == |model.order| && |model.items| == |all|
        && CacheModel.Get(model, id) == Got(model, i, k, all[i].pins + 1)
    {
      hide Sound, Chains, Remove, Without, Listed, Counted;
      i, k := IndexOf(model.items, id), 0;
      if i < |all| {
        k := ListPlace(i);
        hide CacheModel.Get;
        GetSteps(model, id, i, k);
      }
    }

    /** cache_get_object. */
    method Get(id: nat) returns (found: Option<T>)
      requires Valid()
      modifies this`newest, this`oldest, this`list, this`model, repr
      ensures Valid()
      ensures model == CacheModel.Get(old(model), id) && found == Lookup(old(model), id)
    {
      hide Counted, Chains, Listed, Sound, Without, Mirror, IndexOf, CacheModel.Get, Lookup, Got;
      var ce := Find(id);
      ghost var i, k := FoundFacts(id);
      if ce == null {
        return None;
      }
      ghost var c, es := model, list;
      StaysSound(c, id);
      SetPinCount(ce, ce.pins + 1, i);
      MirrorGot(c, i, k, ce.pins, all, es);
      Unlink(ce, k);
      model := Got(c, i, k, ce.pins);
      return Some(ce.content);
    }

    /** The entry at the old end of the list, among all entries. */
    lemma OldestFacts() returns (i: nat)
      requires Valid() && list != []
      ensures i < |all| && all[i] == list[0] == oldest && all[i] in repr
      ensures Distinct(all) && Distinct(list) && oldest !in Without(list, 0)
      ensures model.order != [] && Sound(EvictOldest(model))
      ensures Mirror(EvictOldest(model), Without(all, i), Without(list, 0))
    {
      i :| 0 <= i < |all| && all[i] == list[0];
      IndexUnique(model.items, i);
      StaysSound(model, 0);
      MirrorWithout(model, all, list, i);
      Remaining(list, 0, oldest);
    }

    /** The oldest unpinned entry leaves the list, its bucket chain and the count. */
    method EvictOne()
      requires Valid() && list != []
      modifies this`newest, this`oldest, this`entries, this`list, this`all, this`model, table, repr
      ensures Valid() && model == EvictOldest(old(model)) && |list| < old(|list|)
    {
      hide Counted, Chains, Sound, Without, DoublyLinked, Mirror, EvictOldest, Distinct;
      var ce := oldest;
      ghost var i := OldestFacts();
      ghost var c, es, order := model, all, list;
      FewerOwned(es, i, repr);
      Unlink(ce, 0);
      assert all == es && list == Without(order, 0);
      assert DoublyLinked(all, list, newest, oldest) && ce !in list;
      FewerListed(es, i, list, newest, oldest);
      RemoveFromBucket(ce, i);
      model := EvictOldest(c);
    }

    /** cache_put_object. */
    method Put(id: nat, content: T)
      requires Valid() && Lookup(model, id) == None
      modifies this`entries, this`all, this`model, this`repr, table
      ensures Valid() && fresh(repr - old(repr)) && model == CacheModel.Put(old(model), id, content)
    {
      hide Counted, Chains, Listed, Sound, Lookup;
      PutSound(model, id, content);
      ghost var es := all;
      var ne := PutEntry(id, content);
      repr := repr + {ne};
      model := CacheModel.Put(model, id, content);
      forall i | 0 <= i < |all| ensures model.items[i] == Item(all[i].id, all[i].content, all[i].pins) {
        assert i > 0 ==> all[i] == es[i - 1];
      }
    }

    /** One pin less; without any left, to the newest end of the list. */
    method UnpinOne(id: nat)
      requires Valid() && Pins(model, id) > 0
      modifies this`newest, this`oldest, this`list, this`model, repr
      ensures Valid() && model == Unpin(old(model), id)
    {
      hide Counted, Chains, Listed, Sound, Mirror, IndexOf, Unpin, CacheModel.Get, Without;
      var ce := Find(id);
      ghost var i, k := FoundFacts(id);
      ghost var c, es := model, list;
      HeldFacts(id, i, k);
      StaysSound(c, id);
      SetPinCount(ce, ce.pins - 1, i);
      MirrorUnpinned(c, id, i, all, es);
      if ce.pins == 0 {
        LinkNewest(ce);
      }
      model := Unpin(c, id);
    }

    /** What is held is there, pinned, and not in the list. */
    lemma HeldFacts(id: nat, i: nat, k: nat)
      requires Mirrors() && Listed() && Sound(model) && Pins(model, id) > 0 && i == IndexOf(model.items, id) <= |all|
      ensures i < |all| && all[i].id == id && all[i].pins == Pins(model, id) == model.items[i].pins && all[i] !in list
    {
      hide Sound, Listed;
      var p := ListPlace(i);
    }

    /** cache_release_object of an object that is held: give the pin up, and evict while
        there are too many entries and some are unpinned. */
    method Release(id: nat)
      requires Valid() && Pins(model, id) > 0
      modifies this`newest, this`oldest, this`entries, this`list, this`all, this`model, table, repr
      ensures Valid() && model == CacheModel.Release(old(model), id, size * CHAIN_FACTOR)
    {
      hide Valid, EvictOldest;
      UnpinOne(id);
      var bound := size * CHAIN_FACTOR;
      ghost var c := model;
      Fullness();
      while entries > bound && oldest != null
        invariant Valid()
        invariant entries == |model.items| && (oldest == null <==> list == []) && |list| == |model.order|
        invariant Evict(model, bound) == Evict(c, bound)
        decreases |model.order|
      {
        EvictOne();
        Fullness();
      }
    }

    lemma Fullness()
      requires Valid()
      ensures entries == |model.items| && (oldest == null <==> list == []) && |list| == |model.order|
    {
    }
  }

  lemma SameItem<T>(c: CacheModel.Cache<T>, i: nat, j: nat)
    requires Sound(c) && i < |c.items| && j < |c.items| && c.items[i].id == c.items[j].id
    ensures i == j
  {
  }

  /** What cutting an element out does to the neighbours of the others. */
  lemma Neighbours<T>(es: seq<Entry<T>>, k: nat, i: nat)
    requires Distinct(es) && k < |es| && i < |es| - 1
    ensures var rest, j := Without(es, k), if i < k then i else i + 1;
      && rest[i] == es[j] && es[j] != es[k]
      && At(rest, i + 1) == (if es[j] == At(es, k - 1) then At(es, k + 1) else At(es, j + 1))
      && At(rest, i - 1) == (if es[j] == At(es, k + 1) then At(es, k - 1) else At(es, j - 1))
  {
  }

  lemma Ends<T>(es: seq<Entry<T>>, k: nat)
    requires Distinct(es) && k < |es|
    ensures Distinct(Without(es, k))
    ensures At(es, k) == es[k] && At(es, k - 1) != es[k] && At(es, k + 1) != es[k]
    ensures At(es, k - 1) != null ==> At(es, k - 1) in es
    ensures At(es, k + 1) != null ==> At(es, k + 1) in es
    ensures At(es, k - 1) == null || At(es, k - 1) != At(es, k + 1)
    ensures var rest := Without(es, k);
      && At(rest, 0) == (if At(es, 0) == es[k] then At(es, k + 1) else At(es, 0))
      && At(rest, |rest| - 1) == (if At(es, |es| - 1) == es[k] then At(es, k - 1) else At(es, |es| - 1))
  {
  }

  lemma Remaining<T>(es: seq<T>, k: nat, e: T)
    requires Distinct(es) && k < |es|
    ensures e in Without(es, k) <==> e in es && e != es[k]
  {
    if e in es && e != es[k] {
      var j :| 0 <= j < |es| && es[j] == e;
      assert Without(es, k)[if j < k then j else j - 1] == e;
    }
  }

  lemma EndsElsewhere<T>(es: seq<Entry<T>>, ce: Entry<T>)
    requires ce !in es
    ensures At(es, 0) != ce && At(es, |es| - 1) != ce
  {
  }

  /** Chain pointers are the same behind a new first entry. */
  lemma {:induction false} ShiftedIndex<T>(ne: Entry<T>, es: seq<Entry<T>>, i: nat, b: nat, size: nat)
    requires i <= |es| && size > 0
    ensures NextIn(Front(ne, es), i + 1, b, size) == NextIn(es, i, b, size) + 1
    decreases |es| - i
  {
    hide Front;
    if i < |es| {
      assert Front(ne, es)[i + 1] == es[i];
      if es[i].id % size != b {
        ShiftedIndex(ne, es, i + 1, b, size);
      }
    }
  }

  lemma Shifted<T>(ne: Entry<T>, es: seq<Entry<T>>, i: nat, b: nat, size: nat)
    requires i <= |es| && size > 0
    ensures Chained(Front(ne, es), i + 1, b, size) == Chained(es, i, b, size)
  {
    ShiftedIndex(ne, es, i, b, size);
  }

  lemma ShiftedFirst<T>(ne: Entry<T>, es: seq<Entry<T>>, b: nat, size: nat)
    requires size > 0
    ensures Chained(Front(ne, es), 0, b, size) == if ne.id % size == b then ne else Chained(es, 0, b, size)
  {
    Shifted(ne, es, 0, b, size);
  }

  lemma Appended<T>(es: seq<Entry<T>>, ce: Entry<T>)
    requires Distinct(es) && ce !in es
    ensures Distinct(es + [ce]) && forall e :: e in es + [ce] <==> e in es || e == ce
    ensures At(es + [ce], 0) == (if es == [] then ce else At(es, 0)) && At(es + [ce], |es|) == ce
    ensures es == [] <==> At(es, 0) == null
    ensures es == [] <==> At(es, |es| - 1) == null
    ensures At(es, |es| - 1) != ce && (es != [] ==> At(es, |es| - 1) in es)
  {
  }

  lemma AppendedAt<T>(es: seq<Entry<T>>, ce: Entry<T>, i: nat)
    requires Distinct(es) && ce !in es && i <= |es|
    ensures var longer := es + [ce];
      && longer[i] == (if i < |es| then es[i] else ce)
      && At(longer, i + 1) == (if i == |es| then null else if es[i] == At(es, |es| - 1) then ce else At(es, i + 1))
      && At(longer, i - 1) == (if i == |es| then At(es, |es| - 1) else At(es, i - 1))
  {
  }

  lemma {:induction false} CutIndex<T>(es: seq<Entry<T>>, k: nat, i: nat, b: nat, size: nat)
    requires Distinct(es) && k < |es| && i < |es| && size > 0
    ensures i >= k ==> NextIn(Without(es, k), i, b, size) == NextIn(es, i + 1, b, size) - 1
    ensures i <= k ==> NextIn(Without(es, k), i, b, size)
                       == if NextIn(es, i, b, size) < k then NextIn(es, i, b, size) else NextIn(es, k + 1, b, size) - 1
    decreases |es| - i
  {
    hide Without;
    if i + 1 < |es| {
      assert Without(es, k)[i] == es[if i < k then i else i + 1];
      CutIndex(es, k, i + 1, b, size);
    }
  }

  /** Chain pointers after an entry is cut out: the same, but past it where they named it. */
  lemma CutChain<T>(es: seq<Entry<T>>, k: nat, i: nat, b: nat, size: nat)
    requires Distinct(es) && k < |es| && i < |es| && size > 0
    ensures i > k ==> Chained(Without(es, k), i, b, size) == Chained(es, i + 1, b, size)
    ensures i <= k && NextIn(es, i, b, size) != k ==> Chained(Without(es, k), i, b, size) == Chained(es, i, b, size)
    ensures i <= k && NextIn(es, i, b, size) == k ==> Chained(Without(es, k), i, b, size) == Chained(es, k + 1, b, size)
  {
    CutIndex(es, k, i, b, size);
    var j := NextIn(es, i, b, size);
    if i <= k && j > k {
      assert j == NextIn(es, k + 1, b, size);
    }
  }

  /** Position p has the entry whose chain pointer names the one at k; p is k itself when
      the bucket does. */
  ghost predicate Names<T>(es: seq<Entry<T>>, k: nat, p: nat, size: nat)
    requires k < |es| && size > 0
  {
    var b := es[k].id % size;
    if p == k then NextIn(es, 0, b, size) == k
    else p < k && es[p].id % size == b && NextIn(es, p + 1, b, size) == k
  }

  /** Some pointer names every entry: of its bucket, or of the last one before it there. */
  lemma {:induction false} Namer<T>(es: seq<Entry<T>>, k: nat, i: nat, size: nat) returns (p: nat)
    requires i <= k < |es| && size > 0
    requires i == 0 || es[i - 1].id % size == es[k].id % size
    ensures Names(es, k, p, size)
    decreases k - i
  {
    var b := es[k].id % size;
    var j := NextIn(es, i, b, size);
    assert j <= k;
    if j == k {
      p := if i == 0 then k else i - 1;
    } else {
      p := Namer(es, k, j + 1, size);
    }
  }

  lemma NeverChained<T>(es: seq<Entry<T>>, k: nat, i: nat, b: nat, size: nat)
    requires Distinct(es) && k < |es| && i < |es| && size > 0
    ensures es[k] !in Without(es, k) && Chained(Without(es, k), i, b, size) != es[k]
  {
    var rest := Without(es, k);
    forall j | 0 <= j < |rest| ensures rest[j] != es[k] {
      assert rest[j] == es[if j < k then j else j + 1];
    }
  }

  lemma BucketAfter<T>(es: seq<Entry<T>>, k: nat, p: nat, c: nat, size: nat)
    requires Distinct(es) && k < |es| && size > 0 && Names(es, k, p, size)
    ensures Chained(Without(es, k), 0, c, size)
      == if p == k && c == es[k].id % size then Chained(es, k + 1, c, size) else Chained(es, 0, c, size)
  {
    if |es| > 1 {
      CutChain(es, k, 0, c, size);
    }
  }

  lemma EntryAfter<T>(es: seq<Entry<T>>, k: nat, p: nat, i: nat, size: nat)
    requires Distinct(es) && k < |es| && size > 0 && Names(es, k, p, size) && i + 1 < |es|
    ensures p <= k
    ensures var rest, j := Without(es, k), if i < k then i else i + 1;
      && rest[i] == es[j] && es[j] != es[k] && (es[j] == es[p] <==> j == p)
      && Chained(rest, i + 1, es[j].id % size, size)
         == if p < k && j == p then Chained(es, k + 1, es[k].id % size, size)
            else Chained(es, j + 1, es[j].id % size, size)
  {
    var j := if i < k then i else i + 1;
    CutChain(es, k, i + 1, es[j].id % size, size);
  }
}

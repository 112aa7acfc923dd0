/** The recently-used list as src/cache.c keeps it: no entry's `newer` is ever set
    (src/cache.c:130-135), so of every link only `older` is there, and `newest` and `oldest`
    are mended as if both were. */
module UnlinkedCache {
  import opened CacheModel
  import opened Sequences
  import opened Wrappers

  /** An id that older lacks has a null `older`. */
  datatype Unlinked<T> = Unlinked(
    items: seq<Item<T>>,
    newest: Option<nat>,
    oldest: Option<nat>,
    older: map<nat, nat>)

  function Older(older: map<nat, nat>, id: nat): Option<nat> {
    if id in older then Some(older[id]) else None
  }

  /** Taking an entry out of the list: its `newer` is null, so nobody's `older` is mended, and
      `oldest` becomes null. */
  function Take<T>(u: Unlinked<T>, id: nat): Unlinked<T> {
    u.(newest := if u.newest == Some(id) then Older(u.older, id) else u.newest,
       oldest := if u.oldest == Some(id) then None else u.oldest,
       older := u.older - {id})
  }

  function GetUnlinked<T>(u: Unlinked<T>, id: nat): Unlinked<T> {
    var k := IndexOf(u.items, id);
    if k < |u.items| then Take(u, id).(items := SetPins(u.items, k, u.items[k].pins + 1)) else u
  }

  function PutUnlinked<T>(u: Unlinked<T>, id: nat, content: T): Unlinked<T> {
    u.(items := [Item(id, content, 1)] + u.items, older := u.older - {id})
  }

  /** Behind the newest, whose `newer` stays null. */
  function Splice<T>(u: Unlinked<T>, id: nat): Unlinked<T> {
    u.(newest := Some(id),
       oldest := if u.oldest == None then Some(id) else u.oldest,
       older := if u.newest.Some? then u.older[id := u.newest.value] else u.older - {id})
  }

  /** One round of the eviction loop ends it: the `newer` of the evicted entry is null, and
      both ends of the list become null. */
  function EvictUnlinked<T>(u: Unlinked<T>, bound: nat): Unlinked<T> {
    if |u.items| > bound && u.oldest.Some? then
      var k := IndexOf(u.items, u.oldest.value);
      u.(items := if k < |u.items| then u.items[..k] + u.items[k + 1..] else u.items, newest := None, oldest := None)
    else u
  }

  function UnpinUnlinked<T>(u: Unlinked<T>, id: nat): Unlinked<T> {
    var k := IndexOf(u.items, id);
    if k == |u.items| || u.items[k].pins == 0 then u
    else
      var t := u.(items := SetPins(u.items, k, u.items[k].pins - 1));
      if u.items[k].pins == 1 then Splice(t, id) else t
  }

  function DoUnlinked<T>(u: Unlinked<T>, e: Event<T>, bound: nat): Unlinked<T> {
    match e
    case Putting(id, content) => PutUnlinked(u, id, content)
    case Getting(id, _) => GetUnlinked(u, id)
    case Releasing(id) => EvictUnlinked(UnpinUnlinked(u, id), bound)
  }

  // ----- when the list is right -----

  function First(order: seq<nat>): Option<nat> {
    if order == [] then None else Some(order[0])
  }

  function Last(order: seq<nat>): Option<nat> {
    if order == [] then None else Some(order[|order| - 1])
  }

  ghost predicate LinkedAt(older: map<nat, nat>, order: seq<nat>, i: nat)
    requires i < |order|
  {
    if i == 0 then order[i] !in older else order[i] in older && older[order[i]] == order[i - 1]
  }

  /** The links that are there say what the release order is. */
  ghost predicate Linked(newest: Option<nat>, oldest: Option<nat>, older: map<nat, nat>, order: seq<nat>) {
    && newest == Last(order) && oldest == First(order)
    && (forall i :: 0 <= i < |order| ==> LinkedAt(older, order, i))
    && (forall id :: id in older ==> id in order)
  }

  /** The code's cache is the intended one. */
  ghost predicate Right<T>(u: Unlinked<T>, c: Cache<T>) {
    u.items == c.items && Linked(u.newest, u.oldest, u.older, c.order)
  }

  lemma OutsideTaken<T>(u: Unlinked<T>, id: nat, order: seq<nat>)
    requires Linked(u.newest, u.oldest, u.older, order) && id !in order
    ensures Take(u, id) == u
  {
    assert u.older - {id} == u.older;
  }

  lemma NewestTaken<T>(u: Unlinked<T>, order: seq<nat>)
    requires Distinct(order) && Linked(u.newest, u.oldest, u.older, order) && order != []
    ensures var t := Take(u, order[|order| - 1]); Linked(t.newest, t.oldest, t.older, order[..|order| - 1])
  {
    var n := |order| - 1;
    var rest := order[..n];
    var t := Take(u, order[n]);
    assert LinkedAt(u.older, order, n);
    forall i | 0 <= i < n ensures LinkedAt(t.older, rest, i) {
      assert LinkedAt(u.older, order, i) && order[i] != order[n];
    }
    forall x | x in t.older ensures x in rest {
      var i :| 0 <= i < |order| && order[i] == x;
      assert i < n && rest[i] == x;
    }
  }

  lemma MiddleTaken<T>(u: Unlinked<T>, order: seq<nat>, k: nat)
    requires Distinct(order) && Linked(u.newest, u.oldest, u.older, order) && k < |order| - 1
    ensures var t := Take(u, order[k]); !Linked(t.newest, t.oldest, t.older, order[..k] + order[k + 1..])
  {
    var t, rest := Take(u, order[k]), order[..k] + order[k + 1..];
    if k == 0 {
      assert t.oldest == None && First(rest) == Some(rest[0]);
    } else {
      assert LinkedAt(u.older, order, k + 1);
      assert rest[k] == order[k + 1] && rest[k - 1] == order[k - 1];
      assert !LinkedAt(t.older, rest, k);
    }
  }

  lemma TakenLinks<T>(u: Unlinked<T>, id: nat, order: seq<nat>)
    requires Distinct(order) && Linked(u.newest, u.oldest, u.older, order)
    ensures var t := Take(u, id);
      Linked(t.newest, t.oldest, t.older, Remove(order, id)) <==> (id in order ==> Last(order) == Some(id))
  {
    if id in order {
      var k :| 0 <= k < |order| && order[k] == id;
      assert id !in order[..k];
      RemoveAt(order, id, k);
      hide Take, Linked, Remove;
      if k < |order| - 1 {
        MiddleTaken(u, order, k);
      } else {
        assert order[..k] + order[k + 1..] == order[..k];
        NewestTaken(u, order);
      }
    } else {
      OutsideTaken(u, id, order);
    }
  }

  /** A get keeps the list right exactly when the entry is not in it, or is the newest:
      getting the oldest of several makes `oldest` null, and getting one in the middle leaves
      the next one's `older` on a pinned entry. */
  lemma GetRight<T>(u: Unlinked<T>, c: Cache<T>, id: nat)
    requires Sound(c) && Right(u, c)
    ensures Right(GetUnlinked(u, id), Get(c, id)) <==> (id in c.order ==> Last(c.order) == Some(id))
  {
    if IndexOf(c.items, id) < |c.items| {
      TakenLinks(u, id, c.order);
    } else {
      assert !Unpinned(c, id);
    }
  }

  lemma PutRight<T>(u: Unlinked<T>, c: Cache<T>, id: nat, content: T)
    requires Sound(c) && Right(u, c) && CacheModel.Lookup(c, id) == None
    ensures Right(PutUnlinked(u, id, content), Put(c, id, content))
  {
    assert !Unpinned(c, id);
    assert id !in c.order && id !in u.older;
    assert u.older - {id} == u.older;
  }

  lemma SpliceRight<T>(u: Unlinked<T>, order: seq<nat>, id: nat)
    requires Linked(u.newest, u.oldest, u.older, order) && id !in order
    ensures var t := Splice(u, id); Linked(t.newest, t.oldest, t.older, order + [id])
  {
    var t, more := Splice(u, id), order + [id];
    forall i | 0 <= i < |more| ensures LinkedAt(t.older, more, i) {
      if i < |order| {
        assert LinkedAt(u.older, order, i);
        assert more[i] == order[i] != id && (i > 0 ==> more[i - 1] == order[i - 1]);
      } else if order != [] {
        assert u.newest == Some(order[i - 1]) && more[i] == id && more[i - 1] == order[i - 1];
      }
    }
  }

  lemma UnpinRight<T>(u: Unlinked<T>, c: Cache<T>, id: nat)
    requires Sound(c) && Right(u, c) && Pins(c, id) > 0
    ensures Right(UnpinUnlinked(u, id), Unpin(c, id))
  {
    assert !Unpinned(c, id);
    SpliceRight(u, c.order, id);
  }

  /** An eviction keeps it right exactly when there is nothing to do, or one entry to choose
      from at most. */
  lemma EvictRight<T>(u: Unlinked<T>, c: Cache<T>, bound: nat)
    requires Sound(c) && Right(u, c)
    ensures Right(EvictUnlinked(u, bound), Evict(c, bound)) <==> |c.items| <= bound || |c.order| <= 1
  {
    if |c.items| <= bound || c.order == [] {
      assert EvictUnlinked(u, bound) == u && Evict(c, bound) == c;
    } else if |c.order| == 1 {
      LastEvicted(u, c, bound);
    } else {
      OthersLost(u, c, bound);
    }
  }

  lemma LastEvicted<T>(u: Unlinked<T>, c: Cache<T>, bound: nat)
    requires Sound(c) && Right(u, c) && |c.items| > bound && |c.order| == 1
    ensures Right(EvictUnlinked(u, bound), Evict(c, bound))
  {
    var only := c.order[0];
    assert LinkedAt(u.older, c.order, 0);
    assert only !in u.older && forall id :: id in c.order <==> id == only;
    assert u.older == map[] && c.order[1..] == [];
    var t := EvictOldest(c);
    assert Evict(c, bound) == Evict(t, bound) == t by {
      hide Sound, Right, EvictOldest;
    }
  }

  lemma OthersLost<T>(u: Unlinked<T>, c: Cache<T>, bound: nat)
    requires Sound(c) && Right(u, c) && |c.items| > bound && |c.order| > 1
    ensures !Right(EvictUnlinked(u, bound), Evict(c, bound))
  {
    var t := EvictUnlinked(u, bound);
    assert t.newest == None && |t.items| >= |c.items| - 1;
    EvictSound(c, bound);
    hide Sound, EvictUnlinked, Evict;
    var e := Evict(c, bound);
    assert e.order == [] ==> |e.items| == |c.items| - |c.order| < |t.items|;
    assert e.order != [] ==> Last(e.order) != t.newest;
  }

  // ----- over runs -----

  /** What an event must not do: get an entry with newer ones behind it, or evict with more
      than one to choose from. */
  ghost predicate Harmless<T>(c: Cache<T>, e: Event<T>, bound: nat)
    requires May(c, e)
  {
    match e
    case Putting(_, _) => true
    case Getting(id, _) => id in c.order ==> Last(c.order) == Some(id)
    case Releasing(id) => |Unpin(c, id).items| <= bound || |Unpin(c, id).order| <= 1
  }

  ghost predicate HarmlessRun<T>(c: Cache<T>, es: seq<Event<T>>, bound: nat)
    requires Runs(c, es, bound)
    decreases |es|
  {
    es == [] || (Harmless(c, es[0], bound) && HarmlessRun(Do(c, es[0], bound), es[1..], bound))
  }

  ghost predicate RightThroughout<T>(u: Unlinked<T>, c: Cache<T>, es: seq<Event<T>>, bound: nat)
    requires Runs(c, es, bound)
    decreases |es|
  {
    Right(u, c)
    && (es == [] || RightThroughout(DoUnlinked(u, es[0], bound), Do(c, es[0], bound), es[1..], bound))
  }

  lemma StepRight<T>(u: Unlinked<T>, c: Cache<T>, e: Event<T>, bound: nat)
    requires Sound(c) && Right(u, c) && May(c, e)
    ensures Right(DoUnlinked(u, e, bound), Do(c, e, bound)) <==> Harmless(c, e, bound)
  {
    match e
    case Putting(id, content) => PutRight(u, c, id, content);
    case Getting(id, _) => GetRight(u, c, id);
    case Releasing(id) =>
      UnpinRight(u, c, id);
      UnpinSound(c, id);
      EvictRight(UnpinUnlinked(u, id), Unpin(c, id), bound);
  }

  /** Over whole runs: the code's cache is the intended one in every state exactly when every
      event of the run is harmless. */
  lemma {:induction false} RunRight<T>(u: Unlinked<T>, c: Cache<T>, es: seq<Event<T>>, m: map<nat, T>, bound: nat)
    requires Sound(c) && Agrees(c, m) && Right(u, c) && Runs(c, es, bound)
    ensures RightThroughout(u, c, es, bound) <==> HarmlessRun(c, es, bound)
    decreases |es|
  {
    if es != [] {
      StepRight(u, c, es[0], bound);
      StepAgrees(c, es[0], m, bound);
      hide Right, Sound, Agrees, May, Do, DoUnlinked, Harmless, Noted;
      if Harmless(c, es[0], bound) {
        RunRight(DoUnlinked(u, es[0], bound), Do(c, es[0], bound), es[1..], Noted(m, es[0]), bound);
      }
    }
  }

  // ----- what the code keeps all the same -----

  function PinsOf<T>(u: Unlinked<T>, id: nat): nat {
    Pins(Cache(u.items, []), id)
  }

  predicate Finds<T>(u: Unlinked<T>, id: nat) {
    CacheModel.Lookup(Cache(u.items, []), id).Some?
  }

  ghost predicate UniqueIds<T>(items: seq<Item<T>>) {
    forall i, j :: 0 <= i < j < |items| ==> items[i].id != items[j].id
  }

  /** The next one to be evicted, if any, is there and unpinned. */
  ghost predicate Safe<T>(u: Unlinked<T>) {
    UniqueIds(u.items) && (u.oldest.Some? ==> Finds(u, u.oldest.value) && PinsOf(u, u.oldest.value) == 0)
  }

  ghost predicate MayUnlinked<T>(u: Unlinked<T>, e: Event<T>) {
    May(Cache(u.items, []), e)
  }

  lemma PinsChanged<T>(u: Unlinked<T>, t: Unlinked<T>, k: nat, pins: nat)
    requires UniqueIds(u.items) && k < |u.items| && t.items == SetPins(u.items, k, pins)
    ensures UniqueIds(t.items)
    ensures forall x :: Finds(t, x) == Finds(u, x) && PinsOf(t, x) == if x == u.items[k].id then pins else PinsOf(u, x)
  {
    forall x ensures Finds(t, x) == Finds(u, x) && PinsOf(t, x) == if x == u.items[k].id then pins else PinsOf(u, x) {
      SetPinsEffect(Cache(u.items, []), k, pins, [], x);
    }
  }

  lemma GetKeeps<T>(u: Unlinked<T>, id: nat)
    requires Safe(u) && Finds(u, id)
    ensures var t := GetUnlinked(u, id);
      Safe(t) && forall x :: PinsOf(t, x) == if x == id then PinsOf(u, x) + 1 else PinsOf(u, x)
  {
    var k := IndexOf(u.items, id);
    PinsChanged(u, GetUnlinked(u, id), k, u.items[k].pins + 1);
  }

  lemma PutKeeps<T>(u: Unlinked<T>, id: nat, content: T)
    requires Safe(u) && !Finds(u, id)
    ensures var t := PutUnlinked(u, id, content);
      Safe(t) && forall x :: PinsOf(t, x) == if x == id then 1 else PinsOf(u, x)
  {
    var t := PutUnlinked(u, id, content);
    assert t.items[1..] == u.items;
    forall x ensures IndexOf(t.items, x) == if x == id then 0 else 1 + IndexOf(u.items, x) {
    }
  }

  lemma UnpinKeeps<T>(u: Unlinked<T>, id: nat)
    requires Safe(u) && PinsOf(u, id) > 0
    ensures var t := UnpinUnlinked(u, id);
      Safe(t) && forall x :: PinsOf(t, x) == if x == id then PinsOf(u, x) - 1 else PinsOf(u, x)
  {
    var k := IndexOf(u.items, id);
    PinsChanged(u, UnpinUnlinked(u, id), k, u.items[k].pins - 1);
  }

  lemma EvictKeeps<T>(u: Unlinked<T>, bound: nat)
    requires Safe(u)
    ensures var t := EvictUnlinked(u, bound);
      && Safe(t) && |t.items| >= |u.items| - 1
      && forall x :: PinsOf(t, x) == PinsOf(u, x)
  {
    var t := EvictUnlinked(u, bound);
    if |u.items| > bound && u.oldest.Some? {
      var k := IndexOf(u.items, u.oldest.value);
      CutItems(u.items, k);
      forall x ensures PinsOf(t, x) == PinsOf(u, x) {
        WithoutItem(u.items, k, x);
        var j := IndexOf(u.items, x);
        assert j < |u.items| && j != k ==> t.items[if j < k then j else j - 1] == u.items[j];
      }
    }
  }

  lemma StepKeeps<T>(u: Unlinked<T>, e: Event<T>, bound: nat)
    requires Safe(u) && MayUnlinked(u, e)
    ensures var t := DoUnlinked(u, e, bound);
      Safe(t) && forall x :: PinsOf(t, x) == PinsOf(u, x) + Change(e, x)
  {
    assert e.Putting? ==> PinsOf(u, e.id) == 0;
    hide Safe, PinsOf, Finds, GetUnlinked, PutUnlinked, UnpinUnlinked, EvictUnlinked;
    match e
    case Putting(id, content) => PutKeeps(u, id, content);
    case Getting(id, found) => if found { GetKeeps(u, id); } else { NotThere(u, id); }
    case Releasing(id) =>
      UnpinKeeps(u, id);
      EvictKeeps(UnpinUnlinked(u, id), bound);
  }

  lemma NotThere<T>(u: Unlinked<T>, id: nat)
    requires !Finds(u, id)
    ensures GetUnlinked(u, id) == u
  {
  }

  ghost predicate UnlinkedRuns<T>(u: Unlinked<T>, es: seq<Event<T>>, bound: nat)
    decreases |es|
  {
    es == [] || (MayUnlinked(u, es[0]) && UnlinkedRuns(DoUnlinked(u, es[0], bound), es[1..], bound))
  }

  ghost function UnlinkedAfter<T>(u: Unlinked<T>, es: seq<Event<T>>, bound: nat): Unlinked<T>
    requires UnlinkedRuns(u, es, bound)
    decreases |es|
  {
    if es == [] then u else UnlinkedAfter(DoUnlinked(u, es[0], bound), es[1..], bound)
  }

  /** Over every run, harmless or not, the code loses entries from its list but evicts none
      that is held: the pins are the times an object was handed out less the times it was
      given back, and a held object is found. */
  lemma {:induction false} HeldStays<T>(u: Unlinked<T>, es: seq<Event<T>>, bound: nat, id: nat)
    requires Safe(u) && UnlinkedRuns(u, es, bound)
    ensures var t := UnlinkedAfter(u, es, bound);
      && Safe(t) && PinsOf(t, id) == PinsOf(u, id) + Held(es, id)
      && (PinsOf(u, id) + Held(es, id) > 0 ==> Finds(t, id))
    decreases |es|
  {
    if es != [] {
      StepKeeps(u, es[0], bound);
      hide Safe, PinsOf, Finds, MayUnlinked, DoUnlinked, Change;
      HeldStays(DoUnlinked(u, es[0], bound), es[1..], bound, id);
    }
  }
}

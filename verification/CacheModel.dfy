/** The object cache on values: what is in it, how often it is pinned, and the order in
    which unpinned objects were released. */
module CacheModel {
  import opened Sequences
  import opened Wrappers

  datatype Item<T> = Item(id: nat, content: T, pins: nat)

  /** Items stand newest put first; order has the unpinned ids, oldest release first. */
  datatype Cache<T> = Cache(items: seq<Item<T>>, order: seq<nat>)

  /** The position of an id, or the number of items. */
  function IndexOf<T>(items: seq<Item<T>>, id: nat): (k: nat)
    ensures k <= |items|
    ensures k < |items| ==> items[k].id == id
    ensures forall j :: 0 <= j < k ==> items[j].id != id
  {
    if items == [] || items[0].id == id then 0 else 1 + IndexOf(items[1..], id)
  }

  function Lookup<T>(c: Cache<T>, id: nat): Option<T> {
    var k := IndexOf(c.items, id);
    if k < |c.items| then Some(c.items[k].content) else None
  }

  function Pins<T>(c: Cache<T>, id: nat): nat {
    var k := IndexOf(c.items, id);
    if k < |c.items| then c.items[k].pins else 0
  }

  function SetPins<T>(items: seq<Item<T>>, k: nat, pins: nat): seq<Item<T>>
    requires k < |items|
  {
    items[k := items[k].(pins := pins)]
  }

  /** cache_get_object: one pin more, and out of the release order. */
  function Get<T>(c: Cache<T>, id: nat): Cache<T> {
    var k := IndexOf(c.items, id);
    if k < |c.items| then Cache(SetPins(c.items, k, c.items[k].pins + 1), Remove(c.order, id)) else c
  }

  /** cache_put_object of an id that is not there. */
  function Put<T>(c: Cache<T>, id: nat, content: T): Cache<T> {
    c.(items := [Item(id, content, 1)] + c.items)
  }

  /** The eviction loop: while there are more than `bound` entries and an unpinned one,
      the one released longest ago goes. */
  function Evict<T>(c: Cache<T>, bound: nat): Cache<T>
    decreases |c.order|
  {
    if |c.items| > bound && c.order != [] then Evict(EvictOldest(c), bound) else c
  }

  function EvictOldest<T>(c: Cache<T>): Cache<T>
    requires c.order != []
  {
    var k := IndexOf(c.items, c.order[0]);
    Cache(if k < |c.items| then c.items[..k] + c.items[k + 1..] else c.items, c.order[1..])
  }

  /** Give one pin up; the last one puts the object at the end of the release order. */
  function Unpin<T>(c: Cache<T>, id: nat): Cache<T>
    requires Pins(c, id) > 0
  {
    var k := IndexOf(c.items, id);
    Cache(SetPins(c.items, k, c.items[k].pins - 1), if c.items[k].pins == 1 then c.order + [id] else c.order)
  }

  /** cache_release_object of an object that is held. */
  function Release<T>(c: Cache<T>, id: nat, bound: nat): Cache<T>
    requires Pins(c, id) > 0
  {
    Evict(Unpin(c, id), bound)
  }

  /** Ids are unique, and the release order has exactly the unpinned ones, once each. */
  ghost predicate Sound<T>(c: Cache<T>) {
    && (forall i, j :: 0 <= i < j < |c.items| ==> c.items[i].id != c.items[j].id)
    && Distinct(c.order)
    && (forall id :: id in c.order <==> Unpinned(c, id))
  }

  ghost predicate Unpinned<T>(c: Cache<T>, id: nat) {
    Lookup(c, id).Some? && Pins(c, id) == 0
  }

  lemma IndexUnique<T>(items: seq<Item<T>>, k: nat)
    requires k < |items| && forall i, j :: 0 <= i < j < |items| ==> items[i].id != items[j].id
    ensures IndexOf(items, items[k].id) == k
  {
  }

  lemma SetPinsEffect<T>(c: Cache<T>, k: nat, pins: nat, order: seq<nat>, id: nat)
    requires k < |c.items| && forall i, j :: 0 <= i < j < |c.items| ==> c.items[i].id != c.items[j].id
    ensures var t := Cache(SetPins(c.items, k, pins), order);
      && Lookup(t, id) == Lookup(c, id)
      && Pins(t, id) == if id == c.items[k].id then pins else Pins(c, id)
  {
    var t := SetPins(c.items, k, pins);
    assert forall i :: 0 <= i < |t| ==> t[i].id == c.items[i].id;
    var j := IndexOf(c.items, id);
    IndexUnique(c.items, k);
    if j < |c.items| {
      IndexUnique(t, j);
    }
  }

  lemma GetEffect<T>(c: Cache<T>, id: nat)
    requires Sound(c) && Lookup(c, id).Some?
    ensures forall x :: Lookup(Get(c, id), x) == Lookup(c, x)
    ensures forall x :: Pins(Get(c, id), x) == if x == id then Pins(c, x) + 1 else Pins(c, x)
  {
    var k := IndexOf(c.items, id);
    var order := Remove(c.order, id);
    assert Pins(c, id) == c.items[k].pins;
    assert Get(c, id) == Cache(SetPins(c.items, k, c.items[k].pins + 1), order);
    hide Lookup, Pins, Remove, SetPins, IndexOf, Get;
    forall x ensures Lookup(Get(c, id), x) == Lookup(c, x)
      && Pins(Get(c, id), x) == if x == id then Pins(c, x) + 1 else Pins(c, x)
    {
      SetPinsEffect(c, k, c.items[k].pins + 1, order, x);
    }
  }

  lemma GetSound<T>(c: Cache<T>, id: nat)
    requires Sound(c)
    ensures Sound(Get(c, id))
    ensures forall x :: Lookup(Get(c, id), x) == Lookup(c, x)
    ensures forall x :: Pins(Get(c, id), x) == if x == id && Lookup(c, id).Some? then Pins(c, x) + 1 else Pins(c, x)
  {
    if IndexOf(c.items, id) < |c.items| {
      var t := Get(c, id);
      assert Lookup(c, id).Some? && t.order == Remove(c.order, id);
      assert |t.items| == |c.items| && forall i :: 0 <= i < |c.items| ==> t.items[i].id == c.items[i].id;
      hide Lookup, Pins, Get, SetPins, IndexOf, Distinct;
      RemoveDistinct(c.order, id);
      GetEffect(c, id);
      hide Remove;
      assert forall x :: Unpinned(Get(c, id), x) <==> Unpinned(c, x) && x != id;
    }
  }

  lemma PutSound<T>(c: Cache<T>, id: nat, content: T)
    requires Sound(c) && Lookup(c, id) == None
    ensures Sound(Put(c, id, content))
    ensures forall x :: Lookup(Put(c, id, content), x) == if x == id then Some(content) else Lookup(c, x)
    ensures forall x :: Pins(Put(c, id, content), x) == if x == id then 1 else Pins(c, x)
  {
    var t := Put(c, id, content);
    assert t.items[1..] == c.items;
    forall x ensures Lookup(t, x) == (if x == id then Some(content) else Lookup(c, x))
        && Pins(t, x) == if x == id then 1 else Pins(c, x) {
      assert IndexOf(t.items, x) == if x == id then 0 else 1 + IndexOf(c.items, x);
    }
  }

  lemma UnpinSound<T>(c: Cache<T>, id: nat)
    requires Sound(c) && Pins(c, id) > 0
    ensures Sound(Unpin(c, id))
    ensures forall x :: Lookup(Unpin(c, id), x) == Lookup(c, x)
    ensures forall x :: Pins(Unpin(c, id), x) == if x == id then Pins(c, x) - 1 else Pins(c, x)
  {
    var k, t := IndexOf(c.items, id), Unpin(c, id);
    forall x ensures Lookup(t, x) == Lookup(c, x) && Pins(t, x) == if x == id then Pins(c, x) - 1 else Pins(c, x) {
      SetPinsEffect(c, k, c.items[k].pins - 1, t.order, x);
    }
    assert !Unpinned(c, id);
  }

  lemma WithoutItem<T>(items: seq<Item<T>>, k: nat, x: nat)
    requires k < |items| && forall i, j :: 0 <= i < j < |items| ==> items[i].id != items[j].id
    ensures var rest := items[..k] + items[k + 1..];
      && (forall i, j :: 0 <= i < j < |rest| ==> rest[i].id != rest[j].id)
      && IndexOf(rest, x) ==
           if x == items[k].id then |rest|
           else if IndexOf(items, x) < k then IndexOf(items, x)
           else IndexOf(items, x) - 1
  {
    var rest, j := items[..k] + items[k + 1..], IndexOf(items, x);
    CutItems(items, k);
    hide IndexOf;
    if x != items[k].id && j < |items| {
      var i := if j < k then j else j - 1;
      assert rest[i] == items[j];
      IndexUnique(rest, i);
    } else {
      var i := IndexOf(rest, x);
      if i < |rest| {
        IndexUnique(items, if i < k then i else i + 1);
      }
    }
  }

  lemma CutItems<T>(items: seq<Item<T>>, k: nat)
    requires k < |items| && forall i, j :: 0 <= i < j < |items| ==> items[i].id != items[j].id
    ensures var rest := items[..k] + items[k + 1..];
      && |rest| == |items| - 1 && (forall m :: 0 <= m < |rest| ==> rest[m] == items[if m < k then m else m + 1])
      && (forall i, j :: 0 <= i < j < |rest| ==> rest[i].id != rest[j].id)
  {
    var rest := items[..k] + items[k + 1..];
    assert forall m :: 0 <= m < |rest| ==> rest[m] == items[if m < k then m else m + 1];
  }

  lemma EvictOldestAt<T>(c: Cache<T>, x: nat)
    requires Sound(c) && c.order != []
    ensures Lookup(EvictOldest(c), x) == if x == c.order[0] then None else Lookup(c, x)
    ensures Pins(EvictOldest(c), x) == Pins(c, x)
  {
    assert Unpinned(c, c.order[0]);
    var k, j := IndexOf(c.items, c.order[0]), IndexOf(c.items, x);
    assert k < |c.items|;
    WithoutItem(c.items, k, x);
    CutItems(c.items, k);
    assert EvictOldest(c).items == c.items[..k] + c.items[k + 1..];
    assert j == k <==> x == c.order[0];
    hide Sound, Unpinned, IndexOf, EvictOldest;
    assert j < |c.items| && j != k ==> EvictOldest(c).items[if j < k then j else j - 1] == c.items[j];
  }

  lemma EvictedItems<T>(c: Cache<T>)
    requires Sound(c) && c.order != []
    ensures var t := EvictOldest(c);
      |t.items| == |c.items| - 1 && forall i, j :: 0 <= i < j < |t.items| ==> t.items[i].id != t.items[j].id
  {
    assert Unpinned(c, c.order[0]);
    var k := IndexOf(c.items, c.order[0]);
    assert k < |c.items|;
    WithoutItem(c.items, k, 0);
  }

  lemma EvictedOrder<T>(c: Cache<T>)
    requires Distinct(c.order) && c.order != []
    ensures var t := EvictOldest(c);
      Distinct(t.order) && forall x :: x in t.order <==> x in c.order && x != c.order[0]
  {
    var t := EvictOldest(c);
    assert c.order == [c.order[0]] + t.order;
    forall i | 0 <= i < |t.order| ensures t.order[i] != c.order[0] {
      assert t.order[i] == c.order[i + 1];
    }
    forall i, j | 0 <= i < j < |t.order| ensures t.order[i] != t.order[j] {
      assert t.order[i] == c.order[i + 1] && t.order[j] == c.order[j + 1];
    }
  }

  lemma EvictOldestSound<T>(c: Cache<T>)
    requires Sound(c) && c.order != []
    ensures Sound(EvictOldest(c)) && |EvictOldest(c).items| == |c.items| - 1
    ensures forall x :: Lookup(EvictOldest(c), x) == if x == c.order[0] then None else Lookup(c, x)
    ensures forall x :: Pins(EvictOldest(c), x) == Pins(c, x)
  {
    var t := EvictOldest(c);
    EvictedItems(c);
    EvictedOrder(c);
    hide Lookup, Pins, IndexOf, EvictOldest, Distinct;
    forall x ensures Lookup(t, x) == (if x == c.order[0] then None else Lookup(c, x)) && Pins(t, x) == Pins(c, x) {
      EvictOldestAt(c, x);
    }
  }

  lemma AllPinned<T>(c: Cache<T>)
    requires Sound(c) && c.order == []
    ensures forall i :: 0 <= i < |c.items| ==> c.items[i].pins > 0
  {
    forall i | 0 <= i < |c.items| ensures c.items[i].pins > 0 {
      IndexUnique(c.items, i);
      assert Unpinned(c, c.items[i].id) || c.items[i].pins > 0;
    }
  }

  /** How many objects the eviction loop takes. */
  function Excess<T>(c: Cache<T>, bound: nat): nat {
    if |c.items| <= bound then 0
    else if |c.items| - bound < |c.order| then |c.items| - bound
    else |c.order|
  }

  lemma FrontAndRest(s: seq<nat>, n: nat)
    requires 1 <= n <= |s|
    ensures s[1..][n - 1..] == s[n..]
    ensures forall x :: x in s[..n] <==> x == s[0] || x in s[1..][..n - 1]
  {
    assert s[..n] == [s[0]] + s[1..][..n - 1];
  }

  /** Eviction: only unpinned objects go, those released longest ago first, and it stops
      at the bound or when everything left is pinned. */
  lemma {:induction false} EvictSound<T>(c: Cache<T>, bound: nat)
    requires Sound(c)
    ensures var t, n := Evict(c, bound), Excess(c, bound);
      && Sound(t)
      && t.order == c.order[n..] && |t.items| == |c.items| - n
      && (forall x :: Lookup(t, x) == if x in c.order[..n] then None else Lookup(c, x))
      && (forall x :: Pins(t, x) == Pins(c, x))
    ensures var t := Evict(c, bound);
      |t.items| <= bound || forall i :: 0 <= i < |t.items| ==> t.items[i].pins > 0
    decreases |c.order|
  {
    hide Lookup, Pins, Sound;
    if |c.items| > bound && c.order != [] {
      EvictOldestSound(c);
      var d, n := EvictOldest(c), Excess(c, bound);
      EvictSound(d, bound);
      assert n == Excess(d, bound) + 1 && d.order == c.order[1..];
      assert Evict(c, bound) == Evict(d, bound);
      hide Evict, Excess, EvictOldest;
      FrontAndRest(c.order, n);
    } else {
      assert c.order[..0] == [];
      if c.order == [] {
        AllPinned(c);
      }
    }
  }

  /** And it takes no more than it has to. */
  lemma EvictStops<T>(c: Cache<T>, bound: nat)
    requires Sound(c)
    ensures Evict(c, bound) == c || |Evict(c, bound).items| >= bound
  {
    EvictSound(c, bound);
    hide Sound, Lookup, Pins;
  }

  /** What clients of the cache see: an object put, asked for and found or not, released. */
  datatype Event<T> = Putting(id: nat, content: T) | Getting(id: nat, found: bool) | Releasing(id: nat)

  ghost predicate May<T>(c: Cache<T>, e: Event<T>) {
    match e
    case Putting(id, _) => Lookup(c, id) == None
    case Getting(id, found) => found <==> Lookup(c, id).Some?
    case Releasing(id) => Pins(c, id) > 0
  }

  ghost function Do<T>(c: Cache<T>, e: Event<T>, bound: nat): Cache<T>
    requires May(c, e)
  {
    match e
    case Putting(id, content) => Put(c, id, content)
    case Getting(id, _) => Get(c, id)
    case Releasing(id) => Release(c, id, bound)
  }

  ghost predicate Runs<T>(c: Cache<T>, es: seq<Event<T>>, bound: nat)
    decreases |es|
  {
    es == [] || (May(c, es[0]) && Runs(Do(c, es[0], bound), es[1..], bound))
  }

  ghost function After<T>(c: Cache<T>, es: seq<Event<T>>, bound: nat): Cache<T>
    requires Runs(c, es, bound)
    decreases |es|
  {
    if es == [] then c else After(Do(c, es[0], bound), es[1..], bound)
  }

  /** A plain map that forgets nothing, and a plain count of who holds what. */
  function Noted<T>(m: map<nat, T>, e: Event<T>): map<nat, T> {
    if e.Putting? then m[e.id := e.content] else m
  }

  function Stored<T>(m: map<nat, T>, es: seq<Event<T>>): map<nat, T>
    decreases |es|
  {
    if es == [] then m else Stored(Noted(m, es[0]), es[1..])
  }

  function Change<T>(e: Event<T>, id: nat): int {
    if e.id != id then 0
    else
      match e
      case Putting(_, _) => 1
      case Getting(_, found) => if found then 1 else 0
      case Releasing(_) => -1
  }

  function Held<T>(es: seq<Event<T>>, id: nat): int
    decreases |es|
  {
    if es == [] then 0 else Change(es[0], id) + Held(es[1..], id)
  }

  ghost predicate Agrees<T>(c: Cache<T>, m: map<nat, T>) {
    forall id :: Lookup(c, id).Some? ==> id in m && m[id] == Lookup(c, id).value
  }

  lemma ReleaseSound<T>(c: Cache<T>, id: nat, bound: nat)
    requires Sound(c) && Pins(c, id) > 0
    ensures Sound(Release(c, id, bound))
    ensures forall x :: Lookup(Release(c, id, bound), x).Some? ==> Lookup(Release(c, id, bound), x) == Lookup(c, x)
    ensures forall x :: Pins(Release(c, id, bound), x) == if x == id then Pins(c, x) - 1 else Pins(c, x)
  {
    hide Sound, Lookup, Pins, Evict, Unpin, Excess;
    UnpinSound(c, id);
    EvictSound(Unpin(c, id), bound);
  }

  lemma StepAgrees<T>(c: Cache<T>, e: Event<T>, m: map<nat, T>, bound: nat)
    requires Sound(c) && Agrees(c, m) && May(c, e)
    ensures Sound(Do(c, e, bound)) && Agrees(Do(c, e, bound), Noted(m, e))
    ensures forall id :: Pins(Do(c, e, bound), id) == Pins(c, id) + Change(e, id)
  {
    assert e.Putting? ==> Pins(c, e.id) == 0;
    hide Sound, Lookup, Pins, Release, Get, Put;
    match e
    case Putting(id, content) => PutSound(c, id, content);
    case Getting(id, _) => GetSound(c, id);
    case Releasing(id) => ReleaseSound(c, id, bound);
  }

  /** Over every run: what the cache finds is what was put last under that id, the pins of
      an object are the times it was handed out less the times it was given back, and an
      object that is held is found. */
  lemma {:induction false} RunAgrees<T>(c: Cache<T>, es: seq<Event<T>>, m: map<nat, T>, bound: nat, id: nat)
    requires Sound(c) && Agrees(c, m) && Runs(c, es, bound)
    ensures var t := After(c, es, bound);
      && Sound(t) && Agrees(t, Stored(m, es))
      && Pins(t, id) == Pins(c, id) + Held(es, id)
      && (Pins(c, id) + Held(es, id) > 0 ==> id in Stored(m, es) && Lookup(t, id) == Some(Stored(m, es)[id]))
    decreases |es|
  {
    if es != [] {
      StepAgrees(c, es[0], m, bound);
      var d := Do(c, es[0], bound);
      RunAgrees(d, es[1..], Noted(m, es[0]), bound, id);
    }
  }

  /** When an object was last given back: the number of the event, counted from one, or 0. */
  function LastRelease<T>(es: seq<Event<T>>, id: nat): nat {
    if es == [] then 0
    else if es[|es| - 1] == Releasing(id) then |es|
    else LastRelease(es[..|es| - 1], id)
  }

  ghost predicate ByRelease<T>(order: seq<nat>, es: seq<Event<T>>) {
    forall i, j :: 0 <= i < j < |order| ==> LastRelease(es, order[i]) < LastRelease(es, order[j])
  }

  lemma {:induction false} ReleasedBefore<T>(es: seq<Event<T>>, id: nat)
    ensures LastRelease(es, id) <= |es|
  {
    if es != [] {
      ReleasedBefore(es[..|es| - 1], id);
    }
  }

  lemma OneMoreEvent<T>(es: seq<Event<T>>, e: Event<T>, id: nat)
    ensures LastRelease(es + [e], id) == if e == Releasing(id) then |es| + 1 else LastRelease(es, id)
  {
    assert (es + [e])[..|es|] == es;
  }

  lemma ByReleaseRest<T>(order: seq<nat>, es: seq<Event<T>>, n: nat)
    requires ByRelease(order, es) && n <= |order|
    ensures ByRelease(order[n..], es)
  {
    var rest := order[n..];
    forall i, j | 0 <= i < j < |rest| ensures LastRelease(es, rest[i]) < LastRelease(es, rest[j]) {
      assert rest[i] == order[n + i] && rest[j] == order[n + j];
    }
  }

  lemma ByReleaseWithout<T>(order: seq<nat>, es: seq<Event<T>>, k: nat)
    requires ByRelease(order, es) && k < |order|
    ensures ByRelease(order[..k] + order[k + 1..], es)
  {
    var rest := order[..k] + order[k + 1..];
    forall i, j | 0 <= i < j < |rest| ensures LastRelease(es, rest[i]) < LastRelease(es, rest[j]) {
      assert rest[i] == order[if i < k then i else i + 1] && rest[j] == order[if j < k then j else j + 1];
    }
  }

  lemma ByReleaseLater<T>(order: seq<nat>, es: seq<Event<T>>, e: Event<T>)
    requires ByRelease(order, es) && forall id :: id in order ==> e != Releasing(id)
    ensures ByRelease(order, es + [e])
  {
    forall i, j | 0 <= i < j < |order| ensures LastRelease(es + [e], order[i]) < LastRelease(es + [e], order[j]) {
      OneMoreEvent(es, e, order[i]);
      OneMoreEvent(es, e, order[j]);
    }
  }

  lemma ReleasedLast<T>(order: seq<nat>, es: seq<Event<T>>, id: nat)
    requires ByRelease(order, es) && id !in order
    ensures ByRelease(order + [id], es + [Releasing(id)])
  {
    ByReleaseLater(order, es, Releasing(id));
    OneMoreEvent(es, Releasing(id), id);
    forall i | 0 <= i < |order| ensures LastRelease(es + [Releasing(id)], order[i]) <= |es| {
      OneMoreEvent(es, Releasing(id), order[i]);
      ReleasedBefore(es, order[i]);
    }
  }

  lemma StepByRelease<T>(c: Cache<T>, past: seq<Event<T>>, e: Event<T>, bound: nat)
    requires Sound(c) && May(c, e) && ByRelease(c.order, past)
    ensures ByRelease(Do(c, e, bound).order, past + [e])
  {
    match e
    case Putting(id, content) => ByReleaseLater(c.order, past, e);
    case Getting(id, found) =>
      ByReleaseLater(c.order, past, e);
      TakenOut(c, id, past + [e]);
    case Releasing(id) =>
      UnpinSound(c, id);
      UnpinByRelease(c, past, id);
      hide Sound, Unpin, Evict, ByRelease;
      EvictByRelease(Unpin(c, id), past + [e], bound);
  }

  lemma UnpinByRelease<T>(c: Cache<T>, past: seq<Event<T>>, id: nat)
    requires Sound(c) && Pins(c, id) > 0 && ByRelease(c.order, past)
    ensures ByRelease(Unpin(c, id).order, past + [Releasing(id)])
  {
    assert !Unpinned(c, id);
    hide Sound, ByRelease, Pins;
    ReleasedLast(c.order, past, id);
    ByReleaseLater(c.order, past, Releasing(id));
  }

  lemma EvictByRelease<T>(c: Cache<T>, es: seq<Event<T>>, bound: nat)
    requires Sound(c) && ByRelease(c.order, es)
    ensures ByRelease(Evict(c, bound).order, es)
  {
    hide Sound, Evict, ByRelease, Lookup, Pins;
    EvictSound(c, bound);
    var n := Excess(c, bound);
    assert n <= |c.order|;
    hide Excess;
    ByReleaseRest(c.order, es, n);
  }

  lemma TakenOut<T>(c: Cache<T>, id: nat, es: seq<Event<T>>)
    requires ByRelease(c.order, es)
    ensures ByRelease(Get(c, id).order, es)
  {
    if id in c.order && IndexOf(c.items, id) < |c.items| {
      var k := FirstPlace(c.order, id);
      RemoveAt(c.order, id, k);
      hide IndexOf, Remove;
      hide ByRelease;
      ByReleaseWithout(c.order, es, k);
    }
  }

  lemma {:induction false} FirstPlace(s: seq<nat>, x: nat) returns (k: nat)
    requires x in s
    ensures k < |s| && s[k] == x && x !in s[..k]
  {
    if s[0] == x {
      k := 0;
    } else {
      k := FirstPlace(s[1..], x);
      k := k + 1;
      assert s[..k] == [s[0]] + s[1..][..k - 1];
    }
  }

  /** Over every run the release order is by the time of the last release, the longest ago
      first: so those that an eviction takes are the least recently released. */
  lemma {:induction false} RunByRelease<T>(c: Cache<T>, past: seq<Event<T>>, es: seq<Event<T>>, m: map<nat, T>,
                                           bound: nat)
    requires Sound(c) && Agrees(c, m) && ByRelease(c.order, past) && Runs(c, es, bound)
    ensures ByRelease(After(c, es, bound).order, past + es)
    decreases |es|
  {
    hide Sound, Agrees, ByRelease, May, Do, Noted;
    if es == [] {
      assert past + es == past;
    } else {
      StepByRelease(c, past, es[0], bound);
      StepAgrees(c, es[0], m, bound);
      Regrouped(past, es);
      RunByRelease(Do(c, es[0], bound), past + [es[0]], es[1..], Noted(m, es[0]), bound);
    }
  }

  lemma Regrouped<T>(past: seq<Event<T>>, es: seq<Event<T>>)
    requires es != []
    ensures past + [es[0]] + es[1..] == past + es
  {
  }

  /** The pin as the flag that src/lobject.c makes of it: the first release unpins. */
  function ReleaseFlag<T>(c: Cache<T>, id: nat, bound: nat): Cache<T>
    requires Pins(c, id) > 0
  {
    var k := IndexOf(c.items, id);
    Evict(Cache(SetPins(c.items, k, 0), c.order + [id]), bound)
  }

  lemma CountKeepsHeld<T>(c: Cache<T>, id: nat, bound: nat)
    requires Sound(c) && Pins(c, id) > 1
    ensures Lookup(Release(c, id, bound), id).Some?
  {
    ReleaseSound(c, id, bound);
    assert Pins(Release(c, id, bound), id) > 0;
  }

  /** With two holders, counting keeps the object; with a flag it is evicted under the
      second exactly when the objects that are not in the release order do not fit the
      bound. */
  lemma FlagEvictsHeld<T>(c: Cache<T>, id: nat, bound: nat)
    requires Sound(c) && Pins(c, id) > 1
    ensures Lookup(Release(c, id, bound), id).Some?
    ensures Lookup(ReleaseFlag(c, id, bound), id) == None <==> |c.items| - |c.order| > bound
  {
    CountKeepsHeld(c, id, bound);
    assert id !in c.order by {
      assert !Unpinned(c, id);
    }
    OnePin(c, id);
    var flagged := Cache(SetPins(c.items, IndexOf(c.items, id), 0), c.order + [id]);
    EvictSound(flagged, bound);
    hide Lookup, Pins, Sound, Evict, SetPins, IndexOf, Release;
    var n := Excess(flagged, bound);
    if n == |flagged.order| {
      assert flagged.order[..n][n - 1] == id;
    } else {
      assert flagged.order[..n] == c.order[..n];
    }
  }

  /** The first release by flag is what the last one by count would be. */
  lemma OnePin<T>(c: Cache<T>, id: nat)
    requires Sound(c) && Pins(c, id) > 0
    ensures Sound(Cache(SetPins(c.items, IndexOf(c.items, id), 0), c.order + [id]))
    ensures Lookup(Cache(SetPins(c.items, IndexOf(c.items, id), 0), c.order + [id]), id).Some?
  {
    var k := IndexOf(c.items, id);
    var one := Cache(SetPins(c.items, k, 1), c.order);
    forall x ensures Lookup(one, x) == Lookup(c, x) && Pins(one, x) == if x == id then 1 else Pins(c, x) {
      SetPinsEffect(c, k, 1, c.order, x);
    }
    assert forall x :: Unpinned(one, x) <==> Unpinned(c, x);
    UnpinSound(one, id);
    assert Unpin(one, id) == Cache(SetPins(c.items, k, 0), c.order + [id]);
  }

  /** The place of an item in the release order: the end when it is pinned. */
  lemma OrderPlace<T>(c: Cache<T>, i: nat) returns (k: nat)
    requires Sound(c) && i < |c.items|
    ensures if k < |c.order| then c.order[k] == c.items[i].id else c.items[i].id !in c.order
    ensures k <= |c.order| && (k < |c.order| <==> c.items[i].pins == 0)
    ensures Remove(c.order, c.items[i].id) == if k < |c.order| then c.order[..k] + c.order[k + 1..] else c.order
  {
    var id := c.items[i].id;
    IndexUnique(c.items, i);
    assert Unpinned(c, id) <==> c.items[i].pins == 0;
    if id in c.order {
      k :| 0 <= k < |c.order| && c.order[k] == id;
      assert id !in c.order[..k];
      RemoveAt(c.order, id, k);
    } else {
      k := |c.order|;
    }
  }
}

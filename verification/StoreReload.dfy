/** What the store can load again: nothing is ever stored (persist_put has no caller), so an
    object made by a transaction is gone once it is evicted. */
module StoreReload {
  import opened LockTable
  import opened TxSystem
  import opened TxInvariant
  import opened Wrappers
  import opened StoreCache
  import C = CacheModel

  /** The next get of o finds it: it is still cached, or among the objects that are stored,
      which are the ones that were there at the start. */
  ghost predicate Findable(w: World, stored: set<nat>, o: nat) {
    o in stored || C.Lookup(w.cache, o).Some?
  }

  /** Who is evicted when c gives its newest lock back. */
  ghost function Evicted(w: World, c: nat): seq<nat>
    requires May(w, Unlock(c))
  {
    var d := C.Unpin(w.cache, w.sys.txs[c].locked[0]);
    var n := C.Excess(d, w.bound);
    if n <= |d.order| then d.order[..n] else d.order
  }

  /** Exactly when an object is gone for good: it is not stored, and finish evicts it. */
  lemma GoneExactly(w: World, a: Action, stored: set<nat>, o: nat)
    requires Inv(w) && May(w, a) && Findable(w, stored, o)
    ensures Findable(Step(w, a), stored, o) <==> !(a.Unlock? && o !in stored && o in Evicted(w, a.c))
  {
    if a.Unlock? {
      var l := w.sys.txs[a.c].locked[0];
      C.UnpinSound(w.cache, l);
      C.EvictSound(C.Unpin(w.cache, l), w.bound);
      hide C.Sound, C.Lookup, C.Pins, C.Evict, C.Unpin, C.Excess, LockInv, Enabled, Apply;
    } else if a.Get? {
      GetPinsExact(w, a);
      hide May, Inv, C.Lookup, Step;
    } else if a.Make? {
      MakePinsExact(w, a);
      hide May, Inv, C.Lookup, Step;
    } else {
      hide C.Lookup, Enabled, Apply, LockInv, LostBy;
    }
  }

  lemma {:induction false} ItemsFit(items: seq<C.Item<nat>>, objects: set<nat>)
    requires forall i, j :: 0 <= i < j < |items| ==> items[i].id != items[j].id
    requires forall i :: 0 <= i < |items| ==> items[i].id in objects
    ensures |items| <= |objects|
  {
    if items != [] {
      var rest := items[1..];
      assert forall i :: 0 <= i < |rest| ==> rest[i] == items[i + 1];
      ItemsFit(rest, objects - {items[0].id});
    }
  }

  lemma CacheFits(w: World)
    requires Inv(w)
    ensures |w.cache.items| <= |w.sys.objects|
  {
    forall i | 0 <= i < |w.cache.items| ensures w.cache.items[i].id in w.sys.objects {
      C.IndexUnique(w.cache.items, i);
      assert C.Lookup(w.cache, w.cache.items[i].id).Some?;
    }
    ItemsFit(w.cache.items, w.sys.objects);
  }

  lemma NobodyEvicted(w: World, c: nat)
    requires Inv(w) && May(w, Unlock(c)) && |w.sys.objects| <= w.bound
    ensures Evicted(w, c) == []
  {
    CacheFits(w);
  }

  lemma ObjectsGrow(w: World, a: Action)
    requires Inv(w) && May(w, a)
    ensures Step(w, a).bound == w.bound && w.sys.objects <= Step(w, a).sys.objects
    ensures forall o :: o in Step(w, a).sys.objects && o !in w.sys.objects ==> C.Lookup(Step(w, a).cache, o).Some?
  {
    if a.Make? {
      var o := w.sys.allocId;
      MakePinsExact(w, a);
      assert Step(w, a).cache == C.Put(w.cache, o, w.nextLock) && Step(w, a).sys.objects == w.sys.objects + {o};
    } else {
      SameObjects(w.sys, a);
      hide Apply, LockInv, LostBy, Enabled;
    }
  }

  lemma {:induction false} ObjectsOnlyGrow(w: World, acts: seq<Action>)
    requires Inv(w) && WorldRuns(w, acts)
    ensures w.sys.objects <= WorldAfter(w, acts).sys.objects
    decreases |acts|
  {
    if acts != [] {
      StepInv(w, acts[0]);
      ObjectsGrow(w, acts[0]);
      hide Inv, May, Step;
      ObjectsOnlyGrow(Step(w, acts[0]), acts[1..]);
    }
  }

  /** As long as the bound of the cache has room for all objects, every get finds its object,
      over every run. */
  lemma {:induction false} FittingFinds(w: World, acts: seq<Action>, stored: set<nat>, o: nat)
    requires Inv(w) && WorldRuns(w, acts) && |WorldAfter(w, acts).sys.objects| <= w.bound
    requires forall x :: x in w.sys.objects ==> Findable(w, stored, x)
    requires o in WorldAfter(w, acts).sys.objects
    ensures Findable(WorldAfter(w, acts), stored, o)
    decreases |acts|
  {
    if acts != [] {
      var a := acts[0];
      var t := Step(w, a);
      ObjectsOnlyGrow(w, acts);
      SubsetSize(w.sys.objects, WorldAfter(w, acts).sys.objects);
      StepInv(w, a);
      ObjectsGrow(w, a);
      if a.Unlock? {
        NobodyEvicted(w, a.c);
      }
      hide Inv, May, Step, Evicted, C.Lookup;
      forall x | x in t.sys.objects ensures Findable(t, stored, x) {
        if x in w.sys.objects {
          GoneExactly(w, a, stored, x);
        }
      }
      FittingFinds(t, acts[1..], stored, o);
    }
  }

  lemma SubsetSize(a: set<nat>, b: set<nat>)
    requires a <= b
    ensures |a| <= |b|
  {
    if a != b {
      assert b == a + (b - a);
    }
  }

  // ----- one object too many -----

  lemma {:induction false} WorldThen(w: World, acts: seq<Action>, a: Action)
    requires WorldRuns(w, acts) && May(WorldAfter(w, acts), a)
    ensures WorldRuns(w, acts + [a]) && WorldAfter(w, acts + [a]) == Step(WorldAfter(w, acts), a)
    decreases |acts|
  {
    hide May, Step;
    if acts == [] {
      assert acts + [a] == [a] && [a][1..] == [];
    } else {
      WorldThen(Step(w, acts[0]), acts[1..], a);
      assert (acts + [a])[1..] == acts[1..] + [a];
    }
  }

  /** Transaction 0 has made k objects, all pinned, the last one first in its list. */
  ghost predicate HasMade(w: World, e: World, k: nat) {
    && Inv(e) && Ready(e.sys, 0) && e.bound == w.bound && e.sys.allocId == w.sys.allocId + k
    && |e.cache.items| == k && e.cache.order == []
    && (k > 0 ==> e.sys.txs[0].locked != [] && e.sys.txs[0].locked[0] == w.sys.allocId + k - 1)
    && (k > 0 ==> C.Pins(e.cache, w.sys.allocId + k - 1) == 1 && w.sys.allocId + k - 1 in e.sys.objects)
  }

  lemma MakesOne(w: World, e: World, k: nat)
    requires HasMade(w, e, k)
    ensures May(e, Make(0)) && HasMade(w, Step(e, Make(0)), k + 1)
  {
    hide Inv, C.Pins, Step, May, Ready;
    MayMake(e);
    MadeCache(e, k);
    MadeSys(e);
    StepInv(e, Make(0));
    assert ([e.sys.allocId] + e.sys.txs[0].locked)[0] == e.sys.allocId;
  }

  lemma MayMake(e: World)
    requires Ready(e.sys, 0)
    ensures May(e, Make(0)) && 0 in e.sys.txs
  {
  }

  lemma MadeCache(e: World, k: nat)
    requires Inv(e) && May(e, Make(0)) && |e.cache.items| == k && e.cache.order == []
    ensures var t := Step(e, Make(0));
      && t.bound == e.bound && |t.cache.items| == k + 1 && t.cache.order == []
      && C.Pins(t.cache, e.sys.allocId) == 1
  {
    KnownObjects(e.sys);
    PutPins(e, e.sys.allocId);
    assert C.Pins(e.cache, e.sys.allocId) == 0;
    assert Step(e, Make(0)).cache == C.Put(e.cache, e.sys.allocId, e.nextLock);
    hide Inv, May, C.Pins, C.Lookup, LockInv, RequestAt;
  }

  lemma MadeSys(e: World)
    requires May(e, Make(0))
    ensures var t := Step(e, Make(0)).sys;
      && Ready(t, 0) && t.allocId == e.sys.allocId + 1 && e.sys.allocId in t.objects
      && t.txs[0].locked == [e.sys.allocId] + e.sys.txs[0].locked
  {
    hide RequestAt, C.Put;
  }

  lemma HasStarted(w: World)
    requires Fresh(w) && w.sys.maxTasks > 0
    ensures May(w, Start(0)) && HasMade(w, Step(w, Start(0)), 0)
  {
    FreshInv(w);
    StepInv(w, Start(0));
    hide Inv;
  }

  lemma {:induction false} MakesMany(w: World, k: nat) returns (acts: seq<Action>)
    requires Fresh(w) && w.sys.maxTasks > 0
    ensures WorldRuns(w, acts) && HasMade(w, WorldAfter(w, acts), k)
  {
    if k == 0 {
      HasStarted(w);
      acts := [Start(0)];
      assert acts[1..] == [];
      hide HasMade, May, Step, Fresh;
      assert WorldAfter(w, acts) == Step(w, Start(0));
    } else {
      hide HasMade, WorldRuns, WorldAfter, Fresh, May, Step;
      acts := MakesMany(w, k - 1);
      MakesOne(w, WorldAfter(w, acts), k - 1);
      WorldThen(w, acts, Make(0));
      acts := acts + [Make(0)];
    }
  }

  lemma LastPinGone(c: C.Cache<nat>, o: nat, bound: nat)
    requires C.Sound(c) && C.Pins(c, o) == 1 && c.order == [] && |c.items| == bound + 1
    ensures C.Lookup(C.Release(c, o, bound), o) == None
  {
    C.UnpinSound(c, o);
    var d := C.Unpin(c, o);
    assert d.order == [o] && |d.items| == bound + 1;
    hide C.Sound, C.Lookup, C.Pins, C.Evict, C.Unpin;
    C.EvictSound(d, bound);
    assert C.Excess(d, bound) == 1 && d.order[..1] == [o];
  }

  lemma NewestGone(w: World, e: World, k: nat)
    requires HasMade(w, e, k) && k == w.bound + 1
    ensures May(e, Unlock(0)) && C.Lookup(Step(e, Unlock(0)).cache, w.sys.allocId + k - 1) == None
    ensures w.sys.allocId + k - 1 in Step(e, Unlock(0)).sys.objects
  {
    var o := w.sys.allocId + k - 1;
    assert May(e, Unlock(0)) && e.sys.txs[0].locked[0] == o && C.Sound(e.cache);
    LastPinGone(e.cache, o, w.bound);
    assert Step(e, Unlock(0)).cache == C.Release(e.cache, o, w.bound);
    hide Inv, C.Lookup, C.Pins, C.Sound, C.Release;
    SameObjects(e.sys, Unlock(0));
  }

  lemma FreshObjects(w: World)
    requires Fresh(w)
    ensures forall o :: o in w.sys.objects ==> o < w.sys.allocId
  {
  }

  /** In every store, a transaction that makes one object more than the bound of the cache and
      begins to finish loses the object it made last: it exists, is not cached, and was never
      stored. */
  lemma OneTooMany(w: World) returns (acts: seq<Action>, o: nat)
    requires Fresh(w) && w.sys.maxTasks > 0
    ensures WorldRuns(w, acts)
    ensures o in WorldAfter(w, acts).sys.objects && !Findable(WorldAfter(w, acts), w.sys.objects, o)
  {
    hide HasMade, WorldRuns, WorldAfter, Fresh, May, Step, C.Lookup;
    FreshObjects(w);
    acts := MakesMany(w, w.bound + 1);
    o := w.sys.allocId + w.bound;
    NewestGone(w, WorldAfter(w, acts), w.bound + 1);
    WorldThen(w, acts, Unlock(0));
    acts := acts + [Unlock(0)];
  }
}

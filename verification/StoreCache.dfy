/** The transactions over the object cache: what src/store.c pins, and why a lock may be
    named by its object although the cache loads objects again with a new lock. */
module StoreCache {
  import opened LockQueue
  import opened LockTable
  import opened TxSystem
  import opened TxInvariant
  import opened TxRuns
  import opened Wrappers
  import C = CacheModel

  /** The content of a cache entry is the lock that was made for it. */
  datatype World = World(
    sys: Sys,
    cache: C.Cache<nat>,
    bound: nat,               // eviction starts above so many entries
    nextLock: nat,            // locks are numbered as they are made
    leaks: multiset<nat>)     // pins taken for requests that were refused

  // ----- what is pinned -----

  /** The pins a transaction answers for: one for each place in its list, and one for the
      object it waits to get. */
  function Wants(tx: Tx): multiset<nat> {
    multiset(tx.locked) + if tx.pending.Getting? then multiset{tx.pending.obj} else multiset{}
  }

  function WantsOf(txs: map<nat, Tx>, c: nat): multiset<nat> {
    if c in txs then Wants(txs[c]) else multiset{}
  }

  /** The pins of all transactions with a cid below n. */
  function Total(txs: map<nat, Tx>, n: nat): multiset<nat> {
    if n == 0 then multiset{} else Total(txs, n - 1) + WantsOf(txs, n - 1)
  }

  /** The pins that faulted requests leave behind: store_get_object returns without them
      (src/store.c:159-161). */
  function LostOf(txs: map<nat, Tx>, victims: seq<nat>, c: nat): multiset<nat> {
    if c in txs && c in victims && txs[c].pending.Getting? then multiset{txs[c].pending.obj} else multiset{}
  }

  function Lost(txs: map<nat, Tx>, victims: seq<nat>, n: nat): multiset<nat> {
    if n == 0 then multiset{} else Lost(txs, victims, n - 1) + LostOf(txs, victims, n - 1)
  }

  lemma {:induction false} SameTotal(txs: map<nat, Tx>, txs': map<nat, Tx>, n: nat)
    requires forall c: nat :: c < n ==> WantsOf(txs, c) == WantsOf(txs', c)
    ensures Total(txs, n) == Total(txs', n)
  {
    if n > 0 {
      SameTotal(txs, txs', n - 1);
    }
  }

  lemma {:induction false} OneMore(txs: map<nat, Tx>, txs': map<nat, Tx>, c: nat, o: nat, n: nat)
    requires c < n && WantsOf(txs', c) == WantsOf(txs, c) + multiset{o}
    requires forall d: nat :: d < n && d != c ==> WantsOf(txs, d) == WantsOf(txs', d)
    ensures Total(txs', n) == Total(txs, n) + multiset{o}
  {
    hide WantsOf;
    if c == n - 1 {
      SameTotal(txs, txs', n - 1);
    } else {
      OneMore(txs, txs', c, o, n - 1);
    }
  }

  lemma DoomedOne(txs: map<nat, Tx>, victims: seq<nat>, c: nat)
    ensures WantsOf(txs, c) == WantsOf(Doom(txs, victims), c) + LostOf(txs, victims, c)
  {
    hide Wants;
    if c in txs {
      assert Wants(txs[c]) == Wants(txs[c].(phase := Doomed, pending := Idle))
        + if txs[c].pending.Getting? then multiset{txs[c].pending.obj} else multiset{} by {
        IdleWants(txs[c]);
      }
    }
  }

  lemma IdleWants(tx: Tx)
    ensures Wants(tx) == Wants(tx.(phase := Doomed, pending := Idle))
      + if tx.pending.Getting? then multiset{tx.pending.obj} else multiset{}
  {
  }

  lemma {:induction false} DoomedTotal(txs: map<nat, Tx>, victims: seq<nat>, n: nat)
    ensures Total(txs, n) == Total(Doom(txs, victims), n) + Lost(txs, victims, n)
  {
    hide Doom, WantsOf, LostOf;
    if n > 0 {
      DoomedTotal(txs, victims, n - 1);
      DoomedOne(txs, victims, n - 1);
    }
  }

  lemma {:induction false} PartOfTotal(txs: map<nat, Tx>, c: nat, n: nat)
    requires c < n
    ensures WantsOf(txs, c) <= Total(txs, n)
  {
    hide WantsOf;
    if c < n - 1 {
      PartOfTotal(txs, c, n - 1);
    }
  }

  // ----- the steps -----

  /** store_get_object before it locks: the object is found and pinned, or loaded with a new
      lock and put. */
  function Fetch(w: World, o: nat): World {
    if C.Lookup(w.cache, o).Some? then w.(cache := C.Get(w.cache, o))
    else w.(cache := C.Put(w.cache, o, w.nextLock), nextLock := w.nextLock + 1)
  }

  /** The transactions at the moment the faults of a waiting request strike. */
  function Parked(s: Sys, c: nat, pending: Pending): map<nat, Tx>
    requires c in s.txs
  {
    s.txs[c := s.txs[c].(pending := pending)]
  }

  /** The pins that a request leaves behind through its faults. */
  function LostBy(s: Sys, a: Action): multiset<nat>
    requires a.c in s.txs
  {
    match a
    case Get(c, o, victims) =>
      if RequestAt(s.table, o, Shared, c).1 == Wait then Lost(Parked(s, c, Getting(o)), victims, s.maxTasks)
      else multiset{}
    case Set(c, o, name, value, victims) =>
      if RequestAt(s.table, o, Exclusive, c).1 == Wait then
        Lost(Parked(s, c, Setting(o, name, value)), victims, s.maxTasks)
      else multiset{}
    case _ => multiset{}
  }

  function Cached(w: World, a: Action): World
    requires Enabled(w.sys, a)
    requires a.Unlock? ==> C.Pins(w.cache, w.sys.txs[a.c].locked[0]) > 0
  {
    match a
    case Get(_, o, _) => Fetch(w, o).(leaks := w.leaks + LostBy(w.sys, a))
    case Set(_, _, _, _, _) => w.(leaks := w.leaks + LostBy(w.sys, a))
    case Make(_) => w.(cache := C.Put(w.cache, w.sys.allocId, w.nextLock), nextLock := w.nextLock + 1)
    case Unlock(c) => w.(cache := C.Release(w.cache, w.sys.txs[c].locked[0], w.bound))
    case _ => w
  }

  /** The transactions may do it, and the cache has what finish gives back. */
  ghost predicate May(w: World, a: Action) {
    Enabled(w.sys, a) && (a.Unlock? ==> C.Pins(w.cache, w.sys.txs[a.c].locked[0]) > 0)
  }

  ghost function Step(w: World, a: Action): World
    requires May(w, a)
  {
    Cached(w, a).(sys := Apply(w.sys, a))
  }

  // ----- what every step keeps -----

  /** The pins of every object are exactly what the live transactions answer for, and what
      was left behind. */
  ghost predicate PinsExact(w: World) {
    forall o: nat :: C.Pins(w.cache, o) == (Total(w.sys.txs, w.sys.maxTasks) + w.leaks)[o]
  }

  ghost predicate Known(cache: C.Cache<nat>, objects: set<nat>, nextLock: nat) {
    forall o :: C.Lookup(cache, o).Some? ==> o in objects && C.Lookup(cache, o).value < nextLock
  }

  ghost predicate Inv(w: World) {
    && LockInv(w.sys) && C.Sound(w.cache) && PinsExact(w)
    && Known(w.cache, w.sys.objects, w.nextLock)
  }

  /** Unlocking is always backed by a pin. */
  lemma UnlockPinned(w: World, c: nat)
    requires Inv(w) && Enabled(w.sys, Unlock(c))
    ensures C.Pins(w.cache, w.sys.txs[c].locked[0]) > 0
  {
    var o := w.sys.txs[c].locked[0];
    PartOfTotal(w.sys.txs, c, w.sys.maxTasks);
    assert o in WantsOf(w.sys.txs, c);
  }

  /** The change of the pins by one step. */
  ghost predicate Pinned(cache: C.Cache<nat>, cache': C.Cache<nat>, o: nat, d: int) {
    C.Sound(cache') && forall x :: C.Pins(cache', x) == if x == o then C.Pins(cache, x) + d else C.Pins(cache, x)
  }

  lemma FetchPins(w: World, o: nat)
    requires C.Sound(w.cache) && Known(w.cache, w.sys.objects, w.nextLock) && o in w.sys.objects
    ensures var f := Fetch(w, o);
      && Pinned(w.cache, f.cache, o, 1) && Known(f.cache, w.sys.objects, f.nextLock)
      && f.sys == w.sys && f.leaks == w.leaks && f.bound == w.bound
      && forall x :: C.Lookup(w.cache, x).Some? ==> C.Lookup(f.cache, x) == C.Lookup(w.cache, x)
  {
    if C.Lookup(w.cache, o).Some? {
      C.GetSound(w.cache, o);
    } else {
      assert C.Pins(w.cache, o) == 0;
      C.PutSound(w.cache, o, w.nextLock);
    }
    hide C.Sound, C.Lookup, C.Pins, C.Get, C.Put;
  }

  lemma PutPins(w: World, o: nat)
    requires C.Sound(w.cache) && Known(w.cache, w.sys.objects, w.nextLock) && o !in w.sys.objects
    ensures var cache := C.Put(w.cache, o, w.nextLock);
      && Pinned(w.cache, cache, o, 1) && Known(cache, w.sys.objects + {o}, w.nextLock + 1)
      && forall x :: C.Lookup(w.cache, x).Some? ==> C.Lookup(cache, x) == C.Lookup(w.cache, x)
  {
    assert C.Lookup(w.cache, o) == None;
    assert C.Pins(w.cache, o) == 0;
    C.PutSound(w.cache, o, w.nextLock);
    hide C.Sound, C.Lookup, C.Pins, C.Put;
  }

  lemma ReleasePins(w: World, o: nat)
    requires C.Sound(w.cache) && Known(w.cache, w.sys.objects, w.nextLock) && C.Pins(w.cache, o) > 0
    ensures var cache := C.Release(w.cache, o, w.bound);
      && Pinned(w.cache, cache, o, -1) && Known(cache, w.sys.objects, w.nextLock)
      && forall x :: C.Lookup(cache, x).Some? ==> C.Lookup(cache, x) == C.Lookup(w.cache, x)
  {
    C.ReleaseSound(w.cache, o, w.bound);
    hide C.Sound, C.Lookup, C.Pins, C.Release;
  }

  // ----- what a step does to the pins the transactions answer for -----

  lemma HoldWants(tx: Tx, o: nat)
    ensures tx.pending == Idle ==> Wants(Hold(tx, o)) == Wants(tx) + multiset{o}
    ensures tx.pending == Getting(o) ==> Wants(Hold(tx, o)) == Wants(tx)
  {
  }

  lemma HeldTotal(s: Sys, c: nat, o: nat)
    requires Ready(s, c) && c < s.maxTasks
    ensures Total(s.txs[c := Hold(s.txs[c], o)], s.maxTasks) == Total(s.txs, s.maxTasks) + multiset{o}
  {
    HoldWants(s.txs[c], o);
    hide Wants, Hold;
    OneMore(s.txs, s.txs[c := Hold(s.txs[c], o)], c, o, s.maxTasks);
  }

  lemma GetTotal(s: Sys, a: Action)
    requires Enabled(s, a) && a.Get? && a.c < s.maxTasks
    ensures Total(Apply(s, a).txs, s.maxTasks) + LostBy(s, a) == Total(s.txs, s.maxTasks) + multiset{a.obj}
  {
    var n := s.maxTasks;
    hide RequestAt, Faults, Hold, Doom;
    if RequestAt(s.table, a.obj, Shared, a.c).1 == Wait {
      var txs := Parked(s, a.c, Getting(a.obj));
      assert Apply(s, a).txs == Doom(txs, a.victims);
      DoomedTotal(txs, a.victims, n);
      assert Wants(txs[a.c]) == Wants(s.txs[a.c]) + multiset{a.obj};
      hide Wants, Apply, Enabled;
      OneMore(s.txs, txs, a.c, a.obj, n);
    } else {
      HeldTotal(s, a.c, a.obj);
    }
  }

  lemma SetTotal(s: Sys, a: Action)
    requires Enabled(s, a) && a.Set?
    ensures Total(Apply(s, a).txs, s.maxTasks) + LostBy(s, a) == Total(s.txs, s.maxTasks)
  {
    var n := s.maxTasks;
    hide RequestAt, Faults, Doom;
    if RequestAt(s.table, a.obj, Exclusive, a.c).1 == Wait {
      var txs := Parked(s, a.c, Setting(a.obj, a.name, a.value));
      assert Apply(s, a).txs == Doom(txs, a.victims);
      assert Wants(txs[a.c]) == Wants(s.txs[a.c]);
      hide Wants, Apply, Enabled;
      DoomedTotal(txs, a.victims, n);
      SameTotal(s.txs, txs, n);
    } else {
      SetChanges(s, a);
      var tx := Apply(s, a).txs[a.c];
      assert Wants(tx) == Wants(s.txs[a.c]);
      hide Wants, Apply, Enabled;
      SameTotal(s.txs, s.txs[a.c := tx], n);
    }
  }

  lemma SetChanges(s: Sys, a: Action)
    requires Enabled(s, a) && a.Set? && RequestAt(s.table, a.obj, Exclusive, a.c).1 != Wait
    ensures a.c in Apply(s, a).txs
    ensures var tx := Apply(s, a).txs[a.c];
      tx.locked == s.txs[a.c].locked && tx.pending == Idle && Apply(s, a).txs == s.txs[a.c := tx]
  {
    hide RequestAt, Faults;
  }

  lemma MakeTotal(s: Sys, a: Action)
    requires Enabled(s, a) && a.Make? && a.c < s.maxTasks
    ensures Total(Apply(s, a).txs, s.maxTasks) == Total(s.txs, s.maxTasks) + multiset{s.allocId}
  {
    hide RequestAt, Hold;
    HeldTotal(s, a.c, s.allocId);
  }

  lemma UnlockTotal(s: Sys, a: Action)
    requires Enabled(s, a) && a.Unlock? && a.c < s.maxTasks
    ensures Total(s.txs, s.maxTasks) == Total(Apply(s, a).txs, s.maxTasks) + multiset{s.txs[a.c].locked[0]}
  {
    var ls := s.txs[a.c].locked;
    assert ls == [ls[0]] + ls[1..];
    OneMore(Apply(s, a).txs, s.txs, a.c, ls[0], s.maxTasks);
  }

  lemma RestWants(s: Sys, a: Action)
    requires Enabled(s, a) && (a.Start? || a.Look? || a.Resume? || a.Retire?)
    ensures WantsOf(Apply(s, a).txs, a.c) == WantsOf(s.txs, a.c)
  {
    if a.Resume? && s.txs[a.c].pending.Getting? {
      HoldWants(s.txs[a.c], s.txs[a.c].pending.obj);
      hide Wants;
    }
  }

  lemma RestOthers(s: Sys, a: Action, c: nat)
    requires Enabled(s, a) && (a.Start? || a.Look? || a.Resume? || a.Retire?) && c != a.c
    ensures WantsOf(Apply(s, a).txs, c) == WantsOf(s.txs, c)
  {
    hide Wants, Hold;
  }

  lemma RestTotal(s: Sys, a: Action)
    requires Enabled(s, a) && (a.Start? || a.Look? || a.Resume? || a.Retire?)
    ensures Total(Apply(s, a).txs, s.maxTasks) == Total(s.txs, s.maxTasks)
  {
    hide Apply, WantsOf, Enabled;
    RestWants(s, a);
    forall c: nat | c != a.c ensures WantsOf(Apply(s, a).txs, c) == WantsOf(s.txs, c) {
      RestOthers(s, a, c);
    }
    SameTotal(s.txs, Apply(s, a).txs, s.maxTasks);
  }

  // ----- the invariant over every step -----

  lemma LiveInRange(s: Sys, a: Action)
    requires LockInv(s) && Enabled(s, a)
    ensures a.c < s.maxTasks
  {
  }

  lemma PinsFollow(w: World, w': World, o: nat, lost: multiset<nat>, d: int)
    requires PinsExact(w) && Pinned(w.cache, w'.cache, o, d) && w'.sys.maxTasks == w.sys.maxTasks && -1 <= d <= 1
    requires w'.leaks == w.leaks + lost
    requires var p, p' := Total(w.sys.txs, w.sys.maxTasks), Total(w'.sys.txs, w.sys.maxTasks);
      if d == 1 then p' + lost == p + multiset{o}
      else if d == 0 then p' + lost == p
      else p == p' + multiset{o} && lost == multiset{}
    ensures PinsExact(w')
  {
    hide C.Pins, C.Sound, Total;
    var p, p' := Total(w.sys.txs, w.sys.maxTasks), Total(w'.sys.txs, w.sys.maxTasks);
    forall x: nat ensures C.Pins(w'.cache, x) == (p' + w'.leaks)[x] {
      assert C.Pins(w.cache, x) == (p + w.leaks)[x];
      assert (p' + w'.leaks)[x] == p'[x] + w.leaks[x] + lost[x];
      if d == 1 {
        assert (p' + lost)[x] == (p + multiset{o})[x];
      } else if d == 0 {
        assert (p' + lost)[x] == p[x];
      }
    }
  }

  lemma SameMax(s: Sys, a: Action)
    requires Enabled(s, a)
    ensures Apply(s, a).maxTasks == s.maxTasks
  {
    hide RequestAt, Faults, Doom;
  }

  lemma GetPinsExact(w: World, a: Action)
    requires Inv(w) && May(w, a) && a.Get?
    ensures PinsExact(Step(w, a)) && C.Sound(Step(w, a).cache)
    ensures Known(Step(w, a).cache, w.sys.objects, Step(w, a).nextLock)
    ensures forall x :: C.Lookup(w.cache, x).Some? ==> C.Lookup(Step(w, a).cache, x) == C.Lookup(w.cache, x)
  {
    assert a.obj in w.sys.objects;
    hide PinsExact, Known, Fetch, C.Pins, C.Lookup, C.Sound, Total, LostBy, Apply, Enabled, LockInv;
    LiveInRange(w.sys, a);
    SameMax(w.sys, a);
    FetchPins(w, a.obj);
    GetTotal(w.sys, a);
    PinsFollow(w, Step(w, a), a.obj, LostBy(w.sys, a), 1);
  }

  lemma SetPinsExact(w: World, a: Action)
    requires Inv(w) && May(w, a) && a.Set?
    ensures PinsExact(Step(w, a)) && Step(w, a).cache == w.cache && Step(w, a).nextLock == w.nextLock
  {
    assert a.c in w.sys.txs;
    hide PinsExact, Known, C.Pins, C.Lookup, C.Sound, Total, LostBy, Apply, Enabled, LockInv;
    SameMax(w.sys, a);
    SetTotal(w.sys, a);
    PinsFollow(w, Step(w, a), 0, LostBy(w.sys, a), 0);
  }

  lemma MakePinsExact(w: World, a: Action)
    requires Inv(w) && May(w, a) && a.Make?
    ensures PinsExact(Step(w, a)) && C.Sound(Step(w, a).cache)
    ensures Known(Step(w, a).cache, w.sys.objects + {w.sys.allocId}, Step(w, a).nextLock)
    ensures forall x :: C.Lookup(w.cache, x).Some? ==> C.Lookup(Step(w, a).cache, x) == C.Lookup(w.cache, x)
  {
    hide PinsExact, Known, C.Pins, C.Lookup, C.Sound, Total, Apply, Enabled, LockInv;
    LiveInRange(w.sys, a);
    SameMax(w.sys, a);
    KnownObjects(w.sys);
    PutPins(w, w.sys.allocId);
    MakeTotal(w.sys, a);
    PinsFollow(w, Step(w, a), w.sys.allocId, multiset{}, 1);
  }

  lemma UnlockPinsExact(w: World, a: Action)
    requires Inv(w) && May(w, a) && a.Unlock?
    ensures PinsExact(Step(w, a)) && C.Sound(Step(w, a).cache)
    ensures Known(Step(w, a).cache, w.sys.objects, w.nextLock)
    ensures forall x :: C.Lookup(Step(w, a).cache, x).Some? ==> C.Lookup(Step(w, a).cache, x) == C.Lookup(w.cache, x)
  {
    var o := w.sys.txs[a.c].locked[0];
    hide PinsExact, Known, C.Pins, C.Lookup, C.Sound, Total, Apply, Enabled, LockInv;
    LiveInRange(w.sys, a);
    SameMax(w.sys, a);
    ReleasePins(w, o);
    UnlockTotal(w.sys, a);
    PinsFollow(w, Step(w, a), o, multiset{}, -1);
  }

  /** Every step keeps the pins exact. */
  lemma StepInv(w: World, a: Action)
    requires Inv(w) && May(w, a)
    ensures Inv(Step(w, a))
    ensures forall x :: C.Lookup(w.cache, x).Some? && C.Lookup(Step(w, a).cache, x).Some? ==>
      C.Lookup(Step(w, a).cache, x) == C.Lookup(w.cache, x)
  {
    StepKeeps(w.sys, a);
    match a
    case Get(_, _, _) =>
      GetPinsExact(w, a);
      SameObjects(w.sys, a);
      hide May, PinsExact, Known, C.Lookup, C.Sound, LockInv, Apply, Cached;
    case Set(_, _, _, _, _) =>
      SetPinsExact(w, a);
      SameObjects(w.sys, a);
      hide May, PinsExact, Known, C.Lookup, C.Sound, LockInv, Apply, Cached;
    case Make(_) =>
      MakePinsExact(w, a);
      hide May, PinsExact, Known, C.Lookup, C.Sound, LockInv;
    case Unlock(_) =>
      UnlockPinsExact(w, a);
      hide May, PinsExact, Known, C.Lookup, C.Sound, LockInv;
    case _ =>
      RestTotal(w.sys, a);
      hide Known, C.Lookup, C.Sound, C.Pins, LockInv, Total;
  }

  lemma SameObjects(s: Sys, a: Action)
    requires Enabled(s, a) && !a.Make?
    ensures Apply(s, a).objects == s.objects
  {
    hide RequestAt, Faults, Doom;
  }

  // ----- runs -----

  /** A store nobody has used yet, over an empty cache. */
  ghost predicate Fresh(w: World) {
    Initial(w.sys) && w.cache == C.Cache([], []) && w.leaks == multiset{}
  }

  ghost predicate WorldRuns(w: World, acts: seq<Action>)
    decreases |acts|
  {
    acts == [] || (May(w, acts[0]) && WorldRuns(Step(w, acts[0]), acts[1..]))
  }

  ghost function WorldAfter(w: World, acts: seq<Action>): World
    requires WorldRuns(w, acts)
    decreases |acts|
  {
    if acts == [] then w else WorldAfter(Step(w, acts[0]), acts[1..])
  }

  lemma {:induction false} NobodyTotal(n: nat)
    ensures Total(map[], n) == multiset{}
  {
    if n > 0 {
      NobodyTotal(n - 1);
    }
  }

  lemma FreshInv(w: World)
    requires Fresh(w)
    ensures Inv(w)
  {
    InitialOk(w.sys);
    NobodyTotal(w.sys.maxTasks);
  }

  lemma {:induction false} RunKeeps(w: World, acts: seq<Action>)
    requires Inv(w) && Runs(w.sys, acts)
    ensures WorldRuns(w, acts) && WorldAfter(w, acts).sys == After(w.sys, acts) && Inv(WorldAfter(w, acts))
    decreases |acts|
  {
    if acts != [] {
      if acts[0].Unlock? {
        UnlockPinned(w, acts[0].c);
      }
      assert May(w, acts[0]);
      StepInv(w, acts[0]);
      hide Inv, May, Enabled, Apply;
      RunKeeps(Step(w, acts[0]), acts[1..]);
    }
  }

  /** Every run of the transactions is one over the cache: finish always finds pinned what it
      gives back. And in every state the pins of an object are its places in the lists of the
      live transactions, the gets that wait for it, and the refused ones. */
  lemma RunPins(w: World, acts: seq<Action>, o: nat)
    requires Fresh(w) && Runs(w.sys, acts)
    ensures WorldRuns(w, acts) && WorldAfter(w, acts).sys == After(w.sys, acts) && Inv(WorldAfter(w, acts))
    ensures var e := WorldAfter(w, acts); C.Pins(e.cache, o) == Total(e.sys.txs, e.sys.maxTasks)[o] + e.leaks[o]
  {
    FreshInv(w);
    RunKeeps(w, acts);
    hide Fresh, Runs, WorldRuns, WorldAfter, LockInv;
    PinsAt(WorldAfter(w, acts), o);
  }

  // ----- what it is for -----

  /** A queued transaction answers for a pin. */
  lemma QueuedWants(s: Sys, o: nat, c: nat)
    requires LockInv(s) && c in Members(At(s.table, o))
    ensures c < s.maxTasks && o in WantsOf(s.txs, c)
  {
    assert c in s.txs;
    var tx := s.txs[c];
    assert RecordOk(s.table, s.objects, s.hist, c, tx);
    assert o in tx.locked || tx.pending == Getting(o);
  }

  /** An object that anybody holds or waits for is in the cache. */
  lemma QueuedIsCached(w: World, o: nat)
    requires Inv(w) && Members(At(w.sys.table, o)) != {}
    ensures C.Pins(w.cache, o) > 0 && C.Lookup(w.cache, o).Some?
  {
    var c :| c in Members(At(w.sys.table, o));
    QueuedWants(w.sys, o, c);
    PartOfTotal(w.sys.txs, c, w.sys.maxTasks);
    hide LockInv, WantsOf, Members;
    assert o in Total(w.sys.txs, w.sys.maxTasks);
    PinsAt(w, o);
  }

  lemma PinsAt(w: World, o: nat)
    requires PinsExact(w)
    ensures C.Pins(w.cache, o) == Total(w.sys.txs, w.sys.maxTasks)[o] + w.leaks[o]
    ensures C.Pins(w.cache, o) > 0 ==> C.Lookup(w.cache, o).Some?
  {
  }

  /** So a lock is never made twice for an object in use: whoever finds it missing finds
      its queue empty too, as the new lock's is. */
  lemma ReloadedIsFree(w: World, o: nat)
    requires Inv(w) && C.Lookup(w.cache, o) == None
    ensures At(w.sys.table, o) == []
  {
    var q := At(w.sys.table, o);
    if q != [] {
      assert WellFormed(q) && GroupOk(q[0]);
      assert q[0].entries[0] in Members(q);
      hide Inv, C.Lookup, Members;
      assert Members(q) != {};
      QueuedIsCached(w, o);
      assert false;
    }
  }

  /** In every state of the run somebody is queued on o. */
  ghost predicate InUse(w: World, acts: seq<Action>, o: nat)
    requires WorldRuns(w, acts)
    decreases |acts|
  {
    Members(At(w.sys.table, o)) != {} && (acts == [] || InUse(Step(w, acts[0]), acts[1..], o))
  }

  /** Over whole runs: as long as somebody is queued on an object it has one and the same
      lock, so a lock may be named by its object. */
  lemma {:induction false} OneLock(w: World, acts: seq<Action>, o: nat)
    requires Inv(w) && WorldRuns(w, acts) && InUse(w, acts, o)
    ensures C.Lookup(w.cache, o).Some? && C.Lookup(WorldAfter(w, acts).cache, o) == C.Lookup(w.cache, o)
    decreases |acts|
  {
    QueuedIsCached(w, o);
    if acts != [] {
      StepInv(w, acts[0]);
      hide Inv, May, C.Lookup, Members;
      OneLock(Step(w, acts[0]), acts[1..], o);
    }
  }

  lemma LeaksStay(w: World, a: Action, o: nat)
    requires May(w, a)
    ensures Step(w, a).leaks[o] >= w.leaks[o]
  {
    hide LostBy, Enabled, Apply;
  }

  /** An object whose get was refused once stays in the cache for good: its pin is never
      given back. */
  lemma {:induction false} LeakedStays(w: World, acts: seq<Action>, o: nat)
    requires Inv(w) && WorldRuns(w, acts) && w.leaks[o] > 0
    ensures C.Lookup(w.cache, o).Some? && C.Lookup(WorldAfter(w, acts).cache, o) == C.Lookup(w.cache, o)
    decreases |acts|
  {
    PinsAt(w, o);
    if acts != [] {
      StepInv(w, acts[0]);
      LeaksStay(w, acts[0], o);
      hide Inv, May, C.Lookup;
      LeakedStays(Step(w, acts[0]), acts[1..], o);
    }
  }

  lemma {:induction false} NothingLost(txs: map<nat, Tx>, n: nat)
    ensures Lost(txs, [], n) == multiset{}
  {
    if n > 0 {
      NothingLost(txs, n - 1);
    }
  }

  /** Pins are left behind by faults only. */
  lemma {:induction false} NoLeaksUnfaulted(w: World, acts: seq<Action>)
    requires WorldRuns(w, acts) && forall i :: 0 <= i < |acts| ==> Victims(acts[i]) == []
    ensures WorldAfter(w, acts).leaks == w.leaks
    decreases |acts|
  {
    if acts != [] {
      var a := acts[0];
      assert Step(w, a).leaks == w.leaks by {
        if a.Get? {
          NothingLost(Parked(w.sys, a.c, Getting(a.obj)), w.sys.maxTasks);
        } else if a.Set? {
          NothingLost(Parked(w.sys, a.c, Setting(a.obj, a.name, a.value)), w.sys.maxTasks);
        }
        hide Lost, Apply, Faults, RequestAt;
      }
      hide May, Step;
      forall i | 0 <= i < |acts[1..]| ensures Victims(acts[1..][i]) == [] {
        assert acts[1..][i] == acts[i + 1];
      }
      NoLeaksUnfaulted(Step(w, a), acts[1..]);
    }
  }

  /** When everybody has finished, an object is pinned exactly when some get of it was
      refused. */
  lemma QuietPins(w: World, o: nat)
    requires Inv(w) && w.sys.txs == map[]
    ensures C.Pins(w.cache, o) == w.leaks[o]
  {
    NobodyTotal(w.sys.maxTasks);
    PinsAt(w, o);
  }
}

/** All locks together: the wait relation read off their queues, the faults that
    resolve a deadlock, and progress. */
module LockTable {
  import opened LockQueue
  import opened WaitForGraph
  import opened WaitMatrix

  /** The queue of each lock; a lock that is not in the table is free. */
  type Table = map<nat, Queue>

  function At(t: Table, l: nat): Queue {
    if l in t then t[l] else []
  }

  /** x waits for y when x is behind the head of some lock that y holds. */
  function Edges(t: Table): Graph {
    set l, x, y | l in t && x in Waiting(t[l]) && y in Holding(t[l]) && x != y :: (x, y)
  }

  /** The edge that one queue contributes. */
  predicate EdgeOf(q: Queue, x: nat, y: nat) {
    x in Waiting(q) && y in Holding(q) && x != y
  }

  lemma EdgeWitness(t: Table, x: nat, y: nat) returns (l: nat)
    requires (x, y) in Edges(t)
    ensures l in t && EdgeOf(t[l], x, y)
  {
    l :| l in t && x in Waiting(t[l]) && y in Holding(t[l]) && x != y;
  }

  ghost predicate Blocked(t: Table, x: nat) {
    exists l :: l in t && x in Waiting(t[l])
  }

  ghost predicate Shaped(t: Table) {
    && (forall l :: l in t ==> WellFormed(t[l]))
    && (forall l, m :: l in t && m in t && l != m ==> Waiting(t[l]) !! Waiting(t[m]))
  }

  /** Every queue is well formed, every transaction is blocked in at most one lock,
      and nobody is deadlocked. */
  ghost predicate TableOk(t: Table) {
    Shaped(t) && Acyclic(Edges(t))
  }

  lemma ShapedAt(t: Table, l: nat)
    requires Shaped(t)
    ensures WellFormed(At(t, l))
  {
  }

  lemma NotWaitingAt(t: Table, l: nat, c: nat)
    requires !Blocked(t, c)
    ensures c !in Waiting(At(t, l))
  {
  }

  /** Under the shape invariant, blocked and "waits for someone" are the same. */
  lemma BlockedWaits(t: Table, x: nat)
    requires Shaped(t)
    ensures Blocked(t, x) <==> HasOut(Edges(t), x)
  {
    if Blocked(t, x) {
      var l :| l in t && x in Waiting(t[l]);
      var i :| 1 <= i < |t[l]| && x in t[l][i].entries;
      assert GroupOk(t[l][0]);
      var h := t[l][0].entries;
      assert x in h ==> |h| >= 2 && h[0] != h[1];
      var y := if h[0] != x then h[0] else h[1];
      assert y in Holding(t[l]);
      assert (x, y) in Edges(t);
    }
  }

  // ----- requests -----

  function RequestAt(t: Table, l: nat, mode: Mode, tx: nat): (Table, Answer) {
    var (q, a) := Request(At(t, l), mode, tx);
    (t[l := q], a)
  }

  lemma StaleUnmoved(t: Table, l: nat, c: nat)
    ensures RequestAt(t, l, Exclusive, c).1 == Stale ==> RequestAt(t, l, Exclusive, c).0 == t
  {
  }

  /** The edges a blocked request adds: from the requester to the other holders. */
  function NewEdges(q: Queue, tx: nat): Graph {
    set y | y in Holding(q) && y != tx :: (tx, y)
  }

  lemma RequestShaped(t: Table, l: nat, mode: Mode, tx: nat)
    requires Shaped(t) && !Blocked(t, tx)
    ensures Shaped(RequestAt(t, l, mode, tx).0)
  {
    var t' := RequestAt(t, l, mode, tx).0;
    RequestShape(At(t, l), mode, tx);
    RequestEffect(At(t, l), mode, tx);
    hide WellFormed, Request, Waiting, Holding, HeldExclusive;
    assert Waiting(t'[l]) <= Waiting(At(t, l)) + {tx};
    assert Waiting(t'[l]) == Waiting(At(t, l)) || l in t;
    assert forall m :: m in t' && m != l ==> m in t && t'[m] == t[m];
  }

  lemma RequestTable(t: Table, l: nat, mode: Mode, tx: nat)
    requires TableOk(t) && !Blocked(t, tx)
    ensures Shaped(RequestAt(t, l, mode, tx).0)
    ensures RequestAt(t, l, mode, tx).1 != Wait ==>
      Edges(RequestAt(t, l, mode, tx).0) == Edges(t) && TableOk(RequestAt(t, l, mode, tx).0)
    ensures RequestAt(t, l, mode, tx).1 == Wait ==>
      && Edges(RequestAt(t, l, mode, tx).0) == Edges(t) + NewEdges(At(t, l), tx)
      && Mute(Edges(RequestAt(t, l, mode, tx).0), tx) == Edges(t)
  {
    RequestShaped(t, l, mode, tx);
    if RequestAt(t, l, mode, tx).1 != Wait {
      GrantedEdges(t, l, mode, tx);
    } else {
      WaitingEdges(t, l, mode, tx);
      assert forall e :: e in Edges(t) ==> e.0 != tx;
      hide Shaped, Acyclic, RequestAt, Edges;
      assert Mute(Edges(t) + NewEdges(At(t, l), tx), tx) == Edges(t);
    }
  }

  lemma GrantedEdges(t: Table, l: nat, mode: Mode, tx: nat)
    requires Shaped(t) && !Blocked(t, tx) && RequestAt(t, l, mode, tx).1 != Wait
    ensures Edges(RequestAt(t, l, mode, tx).0) == Edges(t)
  {
    var t' := RequestAt(t, l, mode, tx).0;
    assert tx !in Waiting(At(t, l)) && WellFormed(At(t, l));
    RequestEffect(At(t, l), mode, tx);
    hide Shaped, WellFormed, Request, HeldExclusive, WaitsAs, Waiting;
    forall x: nat, y: nat ensures (x, y) in Edges(t') <==> (x, y) in Edges(t) {
      SameEdgeElsewhere(t, t', l, x, y);
    }
  }

  lemma WaitingEdges(t: Table, l: nat, mode: Mode, tx: nat)
    requires Shaped(t) && !Blocked(t, tx) && RequestAt(t, l, mode, tx).1 == Wait
    ensures Edges(RequestAt(t, l, mode, tx).0) == Edges(t) + NewEdges(At(t, l), tx)
  {
    var t' := RequestAt(t, l, mode, tx).0;
    assert tx !in Waiting(At(t, l)) && WellFormed(At(t, l));
    RequestEffect(At(t, l), mode, tx);
    hide Shaped, WellFormed, Request, HeldExclusive, WaitsAs, Waiting;
    forall x: nat, y: nat ensures (x, y) in Edges(t') <==> (x, y) in Edges(t) + NewEdges(At(t, l), tx) {
      SameEdgeElsewhere(t, t', l, x, y);
    }
  }

  lemma SameEdgeElsewhere(t: Table, t': Table, l: nat, x: nat, y: nat)
    requires t'.Keys == t.Keys + {l} && forall m :: m in t && m != l ==> t'[m] == t[m]
    ensures (x, y) in Edges(t) && !EdgeOf(At(t, l), x, y) ==> (x, y) in Edges(t')
    ensures (x, y) in Edges(t') && !EdgeOf(t'[l], x, y) ==> (x, y) in Edges(t)
    ensures EdgeOf(At(t, l), x, y) ==> (x, y) in Edges(t)
    ensures EdgeOf(t'[l], x, y) ==> (x, y) in Edges(t')
  {
    if (x, y) in Edges(t) && !EdgeOf(At(t, l), x, y) {
      var m := EdgeWitness(t, x, y);
      assert EdgeOf(t'[m], x, y);
    }
    if (x, y) in Edges(t') && !EdgeOf(t'[l], x, y) {
      var m := EdgeWitness(t', x, y);
      assert EdgeOf(t[m], x, y);
    }
  }

  // ----- faults -----

  function WithdrawTx(t: Table, v: nat): Table {
    map l | l in t :: Withdraw(t[l], v)
  }

  lemma NotWaitingUnmoved(q: Queue, v: nat)
    requires v !in Waiting(q)
    ensures Withdraw(q, v) == q
  {
    if q != [] {
      var k := GroupIndex(q, v, 1);
      assert k == |q|;
    }
  }

  /** q' is q without the waiting victims vs; the head and the other waiters are as
      before. */
  ghost predicate LeftBy(q: Queue, q': Queue, vs: set<nat>) {
    && WellFormed(q')
    && Holding(q') == Holding(q)
    && HeldExclusive(q') == HeldExclusive(q)
    && Waiting(q') == Waiting(q) - vs
    && (forall x, m :: x !in vs && WaitsAs(q, x, m) ==> WaitsAs(q', x, m))
  }

  lemma LeftByOne(q: Queue, v: nat)
    requires WellFormed(q)
    ensures LeftBy(q, Withdraw(q, v), {v})
  {
    if v in Waiting(q) {
      WithdrawShape(q, v);
      WithdrawEffect(q, v);
    } else {
      NotWaitingUnmoved(q, v);
    }
  }

  lemma LeftShape(t: Table, t': Table, v: nat)
    requires Shaped(t) && t'.Keys == t.Keys && forall l :: l in t ==> LeftBy(t[l], t'[l], {v})
    ensures Shaped(t') && !Blocked(t', v)
    ensures forall x :: x != v ==> (Blocked(t, x) <==> Blocked(t', x))
  {
    hide WellFormed, WaitsAs, Waiting, Holding, HeldExclusive;
    forall x | x != v && Blocked(t, x) ensures Blocked(t', x) {
      var l :| l in t && x in Waiting(t[l]);
      assert LeftBy(t[l], t'[l], {v});
    }
    forall x | Blocked(t', x) ensures Blocked(t, x) && x != v {
      var l :| l in t' && x in Waiting(t'[l]);
      assert LeftBy(t[l], t'[l], {v});
    }
  }

  lemma LeftEdges(t: Table, t': Table, v: nat)
    requires t'.Keys == t.Keys && forall l :: l in t ==> LeftBy(t[l], t'[l], {v})
    ensures Edges(t') == Mute(Edges(t), v)
  {
    hide WellFormed, WaitsAs, Waiting, Holding, HeldExclusive;
    forall x: nat, y: nat ensures (x, y) in Edges(t') <==> (x, y) in Mute(Edges(t), v) {
      if (x, y) in Edges(t') {
        var l := EdgeWitness(t', x, y);
        assert LeftBy(t[l], t'[l], {v}) && EdgeOf(t[l], x, y);
      }
      if (x, y) in Mute(Edges(t), v) {
        var l := EdgeWitness(t, x, y);
        assert LeftBy(t[l], t'[l], {v}) && EdgeOf(t'[l], x, y);
      }
    }
  }

  lemma WithdrawTable(t: Table, v: nat)
    requires Shaped(t) && Blocked(t, v)
    ensures Shaped(WithdrawTx(t, v)) && !Blocked(WithdrawTx(t, v), v)
    ensures Edges(WithdrawTx(t, v)) == Mute(Edges(t), v)
    ensures forall x :: x != v ==> (Blocked(t, x) <==> Blocked(WithdrawTx(t, v), x))
    ensures forall l :: l in t ==> LeftBy(t[l], WithdrawTx(t, v)[l], {v})
  {
    hide WellFormed, LeftBy, Edges, Mute, Blocked, Withdraw;
    var t' := WithdrawTx(t, v);
    forall l | l in t ensures LeftBy(t[l], t'[l], {v}) {
      LeftByOne(t[l], v);
    }
    LeftShape(t, t', v);
    LeftEdges(t, t', v);
  }

  function WithdrawAll(t: Table, victims: seq<nat>): Table
    decreases |victims|
  {
    if victims == [] then t else WithdrawAll(WithdrawTx(t, victims[0]), victims[1..])
  }

  /** The victims of one blocked request, in order: each is the youngest on a cycle
      through the requester when it is faulted, and no such cycle is left after the
      last one. */
  ghost predicate FaultRun(t: Table, root: nat, sids: map<nat, nat>, victims: seq<nat>)
    decreases |victims|
  {
    if victims == [] then !Reaches(Edges(t), root, root)
    else
      && YoungestOnCycle(Edges(t), sids, root, victims[0])
      && FaultRun(WithdrawTx(t, victims[0]), root, sids, victims[1..])
  }

  lemma OnCycleBlocked(t: Table, sids: map<nat, nat>, root: nat, v: nat)
    requires Shaped(t) && YoungestOnCycle(Edges(t), sids, root, v)
    ensures Blocked(t, v) && v in sids
  {
    var p :| IsWalk(Edges(t), p, root, root) && Youngest(sids, p, v);
    SearchedAllOut(Edges(t), p);
    BlockedWaits(t, v);
  }

  /** Faulting until no cycle is left restores the table invariant; the victims, and
      nobody else, stop being blocked. */
  lemma {:induction false} FaultsRestore(t: Table, root: nat, sids: map<nat, nat>, victims: seq<nat>)
    requires Shaped(t) && Acyclic(Mute(Edges(t), root)) && FaultRun(t, root, sids, victims)
    ensures TableOk(WithdrawAll(t, victims))
    ensures forall x :: Blocked(WithdrawAll(t, victims), x) <==> Blocked(t, x) && x !in victims
    ensures forall v :: v in victims ==> Blocked(t, v) && v in sids
    decreases |victims|
  {
    if victims == [] {
      CyclesPassRoot(Edges(t), root);
    } else {
      var v := victims[0];
      OnCycleBlocked(t, sids, root, v);
      WithdrawTable(t, v);
      MuteKeepsRooted(Edges(t), root, v);
      FaultsRestore(WithdrawTx(t, v), root, sids, victims[1..]);
      assert forall x :: x in victims <==> x == v || x in victims[1..];
    }
  }

  function SetOf(s: seq<nat>): set<nat> {
    set x | x in s
  }

  /** What the faults leave alone in each lock. */
  lemma {:induction false} FaultsTouch(t: Table, root: nat, sids: map<nat, nat>, victims: seq<nat>, l: nat)
    requires Shaped(t) && FaultRun(t, root, sids, victims) && l in t
    ensures l in WithdrawAll(t, victims)
    ensures LeftBy(t[l], WithdrawAll(t, victims)[l], SetOf(victims))
    decreases |victims|
  {
    if victims == [] {
    } else {
      var v := victims[0];
      var t1 := WithdrawTx(t, v);
      FirstFault(t, root, sids, victims);
      SetOfCons(victims);
      hide Shaped, LeftBy, FaultRun, SetOf, WithdrawTx;
      FaultsTouch(t1, root, sids, victims[1..], l);
      LeftByBoth(t[l], t1[l], WithdrawAll(t, victims)[l], {v}, SetOf(victims[1..]));
    }
  }

  lemma FirstFault(t: Table, root: nat, sids: map<nat, nat>, victims: seq<nat>)
    requires Shaped(t) && FaultRun(t, root, sids, victims) && victims != []
    ensures var t1 := WithdrawTx(t, victims[0]);
      && Shaped(t1) && FaultRun(t1, root, sids, victims[1..]) && t1.Keys == t.Keys
      && forall l :: l in t ==> LeftBy(t[l], t1[l], {victims[0]})
  {
    OnCycleBlocked(t, sids, root, victims[0]);
    WithdrawTable(t, victims[0]);
    hide Shaped, LeftBy, Reaches, YoungestOnCycle;
  }

  lemma SetOfCons(s: seq<nat>)
    requires s != []
    ensures SetOf(s) == {s[0]} + SetOf(s[1..])
  {
    assert s == [s[0]] + s[1..];
  }

  lemma {:induction false} WithdrawAllKeys(t: Table, victims: seq<nat>)
    ensures WithdrawAll(t, victims).Keys == t.Keys
    decreases |victims|
  {
    if victims != [] {
      WithdrawAllKeys(WithdrawTx(t, victims[0]), victims[1..]);
    }
  }

  lemma LeftUndisturbed(q: Queue, q': Queue, vs: set<nat>)
    requires LeftBy(q, q', vs)
    ensures Undisturbed(q, q', vs)
  {
    forall x | x !in vs ensures Kept(q, q', x) {
      WaitingAs(q, x);
    }
  }

  lemma LeftByBoth(q: Queue, q1: Queue, q2: Queue, vs: set<nat>, ws: set<nat>)
    requires LeftBy(q, q1, vs) && LeftBy(q1, q2, ws)
    ensures LeftBy(q, q2, vs + ws)
  {
  }

  /** Faulting ends: every fault leaves one waiter less, so from any state some run
      of faults reaches a state without a cycle through the requester. */
  lemma {:induction false} FaultRunExists(t: Table, root: nat, sids: map<nat, nat>) returns (victims: seq<nat>)
    requires Shaped(t) && forall x :: Blocked(t, x) ==> x in sids
    ensures FaultRun(t, root, sids, victims)
    decreases Edges(t)
  {
    victims := [];
    if Reaches(Edges(t), root, root) {
      var p :| IsWalk(Edges(t), p, root, root);
      SearchedAllOut(Edges(t), p);
      forall x | x in p ensures x in sids && HasOut(Edges(t), x) {
        BlockedWaits(t, x);
      }
      hide Edges, Shaped, Blocked, Reaches, WithdrawTx;
      var v := YoungestOf(sids, p);
      assert YoungestOnCycle(Edges(t), sids, root, v);
      BlockedWaits(t, v);
      WithdrawTable(t, v);
      var y :| (v, y) in Edges(t);
      assert (v, y) !in Edges(WithdrawTx(t, v));
      var rest := FaultRunExists(WithdrawTx(t, v), root, sids);
      victims := [v] + rest;
      assert victims[1..] == rest;
    }
  }

  lemma {:induction false} YoungestOf(sids: map<nat, nat>, p: seq<nat>) returns (v: nat)
    requires p != [] && forall w :: w in p ==> w in sids
    ensures Youngest(sids, p, v)
  {
    v := p[0];
    if |p| > 1 {
      var u := YoungestOf(sids, p[1..]);
      assert p == [p[0]] + p[1..];
      v := if sids[u] > sids[v] then u else v;
    }
  }

  // ----- when one search is enough, and when it is not -----

  ghost predicate HeadsExclusive(t: Table) {
    forall l :: l in t && Waiting(t[l]) != {} ==> HeldExclusive(t[l])
  }

  lemma ExclusiveHeadsOneEdge(t: Table)
    requires Shaped(t) && HeadsExclusive(t)
    ensures AtMostOneOut(Edges(t))
  {
    forall a, b | a in Edges(t) && b in Edges(t) && a.0 == b.0 ensures a == b {
      var l := EdgeWitness(t, a.0, a.1);
      var m := EdgeWitness(t, b.0, b.1);
      assert l == m;
      assert GroupOk(t[l][0]);
      assert t[l][0].entries == [t[l][0].entries[0]];
    }
  }

  /** No two transactions share a sid. */
  ghost predicate Apart(sids: map<nat, nat>) {
    forall x, y :: x in sids && y in sids && sids[x] == sids[y] ==> x == y
  }

  /** More than every member of a walk. */
  function Above(p: seq<nat>): (m: nat)
    ensures forall x :: x in p ==> x < m
  {
    if p == [] then 0
    else
      var m := Above(p[1..]);
      assert p == [p[0]] + p[1..];
      if p[0] < m then m else p[0] + 1
  }

  /** Whoever is on a cycle through the root is the youngest on one, for some sids. */
  lemma MadeYoungest(g: Graph, root: nat, v: nat) returns (sids: map<nat, nat>)
    requires OnCycle(g, root, v)
    ensures Apart(sids) && YoungestOnCycle(g, sids, root, v)
  {
    var p, k := CycleThrough(g, root, v);
    sids := map w | w in p :: if w == v then Above(p) else w;
    assert p[k] == v && sids[v] == Above(p);
    forall w | w in p ensures w in sids && sids[w] <= sids[v] {
      assert w < Above(p);
    }
    assert Youngest(sids, p, v);
  }

  lemma VictimOnCycle(g: Graph, sids: map<nat, nat>, root: nat, v: nat)
    requires YoungestOnCycle(g, sids, root, v)
    ensures OnCycle(g, root, v)
  {
    var p :| IsWalk(g, p, root, root) && Youngest(sids, p, v);
    var i :| 0 <= i < |p| && p[i] == v;
    WalkOnCycle(g, root, p, i);
  }

  lemma OneFault(t: Table, root: nat, sids: map<nat, nat>, v: nat)
    requires Shaped(t) && YoungestOnCycle(Edges(t), sids, root, v)
    ensures FaultRun(t, root, sids, [v]) <==> !Reaches(Mute(Edges(t), v), root, root)
  {
    OnCycleBlocked(t, sids, root, v);
    WithdrawTable(t, v);
    hide Edges, Mute, Reaches, Shaped, WithdrawTx;
    assert [v][1..] == [];
    assert FaultRun(WithdrawTx(t, v), root, sids, []) <==> !Reaches(Mute(Edges(t), v), root, root);
  }

  /** One search is enough after a blocked request, whoever is the youngest, exactly when
      there is only one way round from every transaction on a cycle through the requester:
      among those it waits for, one at most waits, along a chain, for the requester. */
  lemma SingleFaultExactly(t: Table, root: nat)
    requires Shaped(t) && Acyclic(Mute(Edges(t), root))
    ensures (forall sids: map<nat, nat>, v ::
               Apart(sids) && YoungestOnCycle(Edges(t), sids, root, v) ==> FaultRun(t, root, sids, [v]))
      <==> OneWay(Edges(t), root)
  {
    hide Edges, Mute, Acyclic, Shaped, Reaches, OneWay, FaultRun, Apart, YoungestOnCycle;
    var g := Edges(t);
    OneWayExactly(g, root);
    if OneWay(g, root) {
      forall sids: map<nat, nat>, v | Apart(sids) && YoungestOnCycle(g, sids, root, v)
        ensures FaultRun(t, root, sids, [v])
      {
        VictimOnCycle(g, sids, root, v);
        OneFault(t, root, sids, v);
      }
    } else {
      var v :| OnCycle(g, root, v) && Reaches(Mute(g, v), root, root);
      var sids := MadeYoungest(g, root, v);
      OneFault(t, root, sids, v);
    }
  }

  /** With exclusive holders there is always only one way. */
  lemma SingleFaultSuffices(t: Table, root: nat, sids: map<nat, nat>, v: nat)
    requires Shaped(t) && HeadsExclusive(t) && YoungestOnCycle(Edges(t), sids, root, v)
    ensures OneWay(Edges(t), root) && FaultRun(t, root, sids, [v])
  {
    ExclusiveHeadsOneEdge(t);
    assert OneWay(Edges(t), root);
    hide Edges, HeadsExclusive, Shaped, OneWay, AtMostOneOut;
    VictimOnCycle(Edges(t), sids, root, v);
    OneWayEnough(Edges(t), root, v);
    OneFault(t, root, sids, v);
  }

  /** The oldest transaction is never faulted: on every cycle there is a younger one. */
  lemma {:induction false} OldestSpared(t: Table, root: nat, sids: map<nat, nat>, victims: seq<nat>, c: nat)
    requires FaultRun(t, root, sids, victims) && Apart(sids)
    requires c in sids && forall x :: x in sids ==> sids[c] <= sids[x]
    ensures c !in victims
    decreases |victims|
  {
    if victims != [] {
      var g := Edges(t);
      var p :| IsWalk(g, p, root, root) && Youngest(sids, p, victims[0]);
      assert (p[0], p[0 + 1]) in g && p[0] in p && p[1] in p;
      assert p[0] != p[1];
      OldestSpared(WithdrawTx(t, victims[0]), root, sids, victims[1..], c);
    }
  }

  // ----- releases -----

  function ReleaseAt(t: Table, l: nat, c: nat): Table {
    if l in t then t[l := Release(t[l], c)] else t
  }

  /** A finishing transaction c has left some of its locks. */
  ghost predicate Released(t: Table, t': Table, c: nat) {
    t'.Keys == t.Keys && forall l :: l in t ==> t'[l] == t[l] || t'[l] == Release(t[l], c)
  }

  lemma ReleasedQueue(t: Table, t': Table, c: nat, l: nat)
    requires Shaped(t) && !Blocked(t, c) && Released(t, t', c) && l in t
    ensures WellFormed(t'[l]) && Waiting(t'[l]) <= Waiting(t[l])
    ensures Members(t'[l]) <= Members(t[l])
    ensures forall x :: x in Holding(t'[l]) && x !in Holding(t[l]) ==> x in Waiting(t[l]) && x !in Waiting(t'[l])
  {
    ReleaseShape(t[l], c);
    ReleaseEffect(t[l], c);
  }

  /** A transaction granted by a release is blocked nowhere. */
  lemma NewHolderRuns(t: Table, t': Table, c: nat, l: nat, x: nat)
    requires Shaped(t) && !Blocked(t, c) && Released(t, t', c)
    requires l in t && x in Holding(t'[l]) && x !in Holding(t[l])
    ensures !Blocked(t', x)
  {
    ReleasedQueue(t, t', c, l);
    forall m | m in t' ensures x !in Waiting(t'[m]) {
      ReleasedQueue(t, t', c, m);
    }
  }

  /** Granting the next group, or promoting an upgrade, never creates a deadlock:
      the new holders wait for nobody. So a search is needed only when a request
      blocks. */
  lemma ReleaseTable(t: Table, t': Table, c: nat)
    requires TableOk(t) && !Blocked(t, c) && Released(t, t', c)
    ensures TableOk(t')
    ensures forall x :: Blocked(t', x) ==> Blocked(t, x)
  {
    forall l | l in t'
      ensures WellFormed(t'[l]) && Waiting(t'[l]) <= Waiting(t[l])
    {
      ReleasedQueue(t, t', c, l);
    }
    forall x | Blocked(t', x) ensures Blocked(t, x) {
      var l :| l in t' && x in Waiting(t'[l]);
      assert x in Waiting(t[l]);
    }
    assert Shaped(t');
    forall e | e in Edges(t') && e !in Edges(t) ensures !HasOut(Edges(t'), e.1) {
      var l := EdgeWitness(t', e.0, e.1);
      assert !EdgeOf(t[l], e.0, e.1);
      NewHolderRuns(t, t', c, l, e.1);
      BlockedWaits(t', e.1);
    }
    SinkEdgesKeepAcyclic(Edges(t), Edges(t'));
  }

  // ----- progress -----

  /** Whoever is blocked waits, along a chain, for a transaction that is not. */
  lemma ChainToRunning(t: Table, x: nat) returns (p: seq<nat>)
    requires TableOk(t) && Blocked(t, x)
    ensures |p| >= 2 && IsPath(Edges(t), p) && p[0] == x && !Blocked(t, p[|p| - 1])
    ensures exists l :: l in t && p[|p| - 1] in Holding(t[l]) && p[|p| - 2] in Waiting(t[l])
  {
    BlockedWaits(t, x);
    p := ChainToSink(Edges(t), x);
    BlockedWaits(t, p[|p| - 1]);
    assert (p[|p| - 2], p[|p| - 2 + 1]) in Edges(t);
  }

  /** An unblocked transaction finishes: it leaves every lock. */
  function Finish(t: Table, c: nat): Table {
    map l | l in t :: Release(t[l], c)
  }

  /** A finish step does something: c runs and holds a lock. */
  ghost predicate CanFinish(t: Table, c: nat) {
    !Blocked(t, c) && exists l :: l in t && c in Holding(t[l])
  }

  function Drain(t: Table, schedule: seq<nat>): Table
    decreases |schedule|
  {
    if schedule == [] then t else Drain(Finish(t, schedule[0]), schedule[1..])
  }

  ghost predicate FinishSchedule(t: Table, schedule: seq<nat>)
    decreases |schedule|
  {
    schedule == [] || (CanFinish(t, schedule[0]) && FinishSchedule(Finish(t, schedule[0]), schedule[1..]))
  }

  /** Who is queued where. */
  function Occupied(t: Table): set<(nat, nat)> {
    set l, x | l in t && x in Members(t[l]) :: (l, x)
  }

  lemma FinishShrinks(t: Table, c: nat)
    requires TableOk(t) && CanFinish(t, c)
    ensures TableOk(Finish(t, c)) && Occupied(Finish(t, c)) < Occupied(t)
  {
    var t' := Finish(t, c);
    assert Released(t, t', c);
    ReleaseTable(t, t', c);
    forall l | l in t ensures Members(t'[l]) == Members(t[l]) - {c} {
      assert c !in Waiting(t[l]);
      ReleaseEffect(t[l], c);
    }
    var l :| l in t && c in Holding(t[l]);
    assert (l, c) in Occupied(t) && (l, c) !in Occupied(t');
  }

  /** Any schedule of finish steps is short, and one that cannot be continued has
      emptied every queue: nobody waits forever for running transactions that finish. */
  lemma {:induction false} DrainEmpties(t: Table, schedule: seq<nat>)
    requires TableOk(t) && FinishSchedule(t, schedule)
    ensures TableOk(Drain(t, schedule))
    ensures |schedule| + |Occupied(Drain(t, schedule))| <= |Occupied(t)|
    ensures (forall c :: !CanFinish(Drain(t, schedule), c)) ==>
      forall l :: l in Drain(t, schedule) ==> Drain(t, schedule)[l] == []
    decreases |schedule|
  {
    if schedule == [] {
      if forall c :: !CanFinish(t, c) {
        forall l | l in t ensures t[l] == [] {
          if t[l] != [] {
            assert GroupOk(t[l][0]);
            var x := t[l][0].entries[0];
            assert x in Holding(t[l]);
            assert !CanFinish(t, x);
            var p := ChainToRunning(t, x);
            var m :| m in t && p[|p| - 1] in Holding(t[m]);
            assert CanFinish(t, p[|p| - 1]);
          }
        }
      }
    } else {
      FinishShrinks(t, schedule[0]);
      StrictSubset(Occupied(Finish(t, schedule[0])), Occupied(t));
      DrainEmpties(Finish(t, schedule[0]), schedule[1..]);
    }
  }
}

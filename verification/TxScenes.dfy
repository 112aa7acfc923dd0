/** Two runs from the initial state, for any store with the object in it: one after which a
    single search leaves a deadlock, and one after which two shared groups are side by side. */
module TxScenes {
  import opened Sequences
  import opened LockQueue
  import opened WaitForGraph
  import opened WaitMatrix
  import opened LockTable
  import opened TxSystem
  import opened TxInvariant
  import opened TxRuns

  /** One more action at the end of a run. */
  lemma {:induction false} Then(s: Sys, acts: seq<Action>, a: Action)
    requires Runs(s, acts) && Enabled(After(s, acts), a)
    ensures Runs(s, acts + [a]) && After(s, acts + [a]) == Apply(After(s, acts), a)
    decreases |acts|
  {
    hide Enabled, Apply;
    if acts == [] {
      assert acts + [a] == [a] && [a][1..] == [];
    } else {
      Then(Apply(s, acts[0]), acts[1..], a);
      assert (acts + [a])[1..] == acts[1..] + [a];
    }
  }

  // ----- n transactions, the first k of them sharing one object -----

  function FirstCids(k: nat): (r: seq<nat>)
    ensures |r| == k && forall x: nat :: x in r <==> x < k
  {
    if k == 0 then [] else FirstCids(k - 1) + [k - 1]
  }

  function Txs(sid: nat, n: nat, o: nat, k: nat): map<nat, Tx> {
    map c | c in FirstCids(n) :: Tx(sid + c, if c < k then [o] else [], Active, Idle)
  }

  function ShareTable(o: nat, k: nat): Table {
    if k == 0 then map[] else map[o := [Group(Shared, FirstCids(k))]]
  }

  function Sharing(s: Sys, n: nat, o: nat, k: nat): Sys {
    s.(table := ShareTable(o, k), txs := Txs(s.nextSid, n, o, k), nextSid := s.nextSid + n)
  }

  lemma NoneYet(s: Sys, o: nat)
    requires Initial(s)
    ensures s == Sharing(s, 0, o, 0)
  {
    assert Txs(s.nextSid, 0, o, 0) == map[];
  }

  lemma OneMoreStarts(s: Sys, n: nat, o: nat)
    requires n < s.maxTasks
    ensures Enabled(Sharing(s, n, o, 0), Start(n))
    ensures Apply(Sharing(s, n, o, 0), Start(n)) == Sharing(s, n + 1, o, 0)
  {
    hide FirstCids, ShareTable;
    var t := Txs(s.nextSid, n, o, 0);
    assert Txs(s.nextSid, n + 1, o, 0) == t[n := Tx(s.nextSid + n, [], Active, Idle)];
    assert n !in t;
    hide Txs;
  }

  lemma {:induction false} Started(s: Sys, n: nat, o: nat) returns (acts: seq<Action>)
    requires Initial(s) && n <= s.maxTasks
    ensures Runs(s, acts) && After(s, acts) == Sharing(s, n, o, 0)
  {
    if n == 0 {
      NoneYet(s, o);
      acts := [];
    } else {
      hide Initial, Enabled, Apply, Runs, After, Sharing;
      acts := Started(s, n - 1, o);
      OneMoreStarts(s, n - 1, o);
      Then(s, acts, Start(n - 1));
      acts := acts + [Start(n - 1)];
    }
  }

  lemma OneMoreLocks(sid: nat, n: nat, o: nat, k: nat)
    requires k < n
    ensures k in Txs(sid, n, o, k) && Txs(sid, n, o, k)[k] == Tx(sid + k, [], Active, Idle)
    ensures Txs(sid, n, o, k)[k := Tx(sid + k, [o], Active, Idle)] == Txs(sid, n, o, k + 1)
  {
    hide FirstCids;
  }

  lemma OneMoreShare(o: nat, k: nat)
    ensures RequestAt(ShareTable(o, k), o, Shared, k) == (ShareTable(o, k + 1), Taken)
  {
    assert k !in FirstCids(k) && FirstCids(k + 1) == FirstCids(k) + [k];
    if k == 0 {
      assert FirstCids(1) == [0];
    } else {
      var q := [Group(Shared, FirstCids(k))];
      assert q[0 := Group(Shared, FirstCids(k) + [k])] == [Group(Shared, FirstCids(k + 1))];
      assert map[o := q][o := [Group(Shared, FirstCids(k + 1))]] == ShareTable(o, k + 1);
    }
  }

  lemma GetTaken(s: Sys, c: nat, o: nat, t: Table, sid: nat)
    requires c in s.txs && s.txs[c] == Tx(sid, [], Active, Idle) && o in s.objects
    requires RequestAt(s.table, o, Shared, c) == (t, Taken)
    ensures Enabled(s, Get(c, o, []))
    ensures Apply(s, Get(c, o, [])) == s.(table := t, txs := s.txs[c := Tx(sid, [o], Active, Idle)])
  {
    assert [o] + [] == [o];
    hide RequestAt, FaultRun;
  }

  lemma SharingGrows(s: Sys, n: nat, o: nat, k: nat)
    requires k < n
    ensures k in Sharing(s, n, o, k).txs && Sharing(s, n, o, k).txs[k] == Tx(s.nextSid + k, [], Active, Idle)
    ensures Sharing(s, n, o, k + 1) == Sharing(s, n, o, k).(table := ShareTable(o, k + 1),
      txs := Sharing(s, n, o, k).txs[k := Tx(s.nextSid + k, [o], Active, Idle)])
  {
    hide Txs, ShareTable;
    OneMoreLocks(s.nextSid, n, o, k);
  }

  lemma OneMoreShares(s: Sys, n: nat, o: nat, k: nat)
    requires k < n && o in s.objects
    ensures Enabled(Sharing(s, n, o, k), Get(k, o, []))
    ensures Apply(Sharing(s, n, o, k), Get(k, o, [])) == Sharing(s, n, o, k + 1)
  {
    hide RequestAt, Enabled, Apply, Txs, ShareTable;
    OneMoreShare(o, k);
    SharingGrows(s, n, o, k);
    hide *;
    GetTaken(Sharing(s, n, o, k), k, o, ShareTable(o, k + 1), s.nextSid + k);
  }

  lemma {:induction false} AllShare(s: Sys, n: nat, o: nat, k: nat) returns (acts: seq<Action>)
    requires Initial(s) && n <= s.maxTasks && o in s.objects && k <= n
    ensures Runs(s, acts) && After(s, acts) == Sharing(s, n, o, k)
  {
    hide Initial, Enabled, Apply, Runs, After, Sharing;
    if k == 0 {
      acts := Started(s, n, o);
    } else {
      acts := AllShare(s, n, o, k - 1);
      OneMoreShares(s, n, o, k - 1);
      Then(s, acts, Get(k - 1, o, []));
      acts := acts + [Get(k - 1, o, [])];
    }
  }

  // ----- a request that waits without a deadlock -----

  /** Everybody waits for smaller ids only. */
  ghost predicate Downhill(t: Table) {
    forall l, x, y :: l in t && x in Waiting(t[l]) && y in Holding(t[l]) && x != y ==> y < x
  }

  lemma DownhillFaultless(t: Table, c: nat, sids: map<nat, nat>)
    requires Downhill(t)
    ensures FaultRun(t, c, sids, [])
  {
    RankedAcyclic(Edges(t), x => x);
  }

  lemma NobodyDoomed(s: Sys, txs: map<nat, Tx>)
    ensures Doom(txs, []) == txs && s.doomed + SidsOf(txs, []) == s.doomed
  {
  }

  lemma GetWaits(s: Sys, c: nat, o: nat)
    requires Ready(s, c) && o in s.objects
    requires RequestAt(s.table, o, Shared, c).1 == Wait && Downhill(RequestAt(s.table, o, Shared, c).0)
    ensures Enabled(s, Get(c, o, []))
    ensures Apply(s, Get(c, o, [])) ==
      s.(table := RequestAt(s.table, o, Shared, c).0, txs := s.txs[c := s.txs[c].(pending := Getting(o))])
  {
    hide RequestAt, Downhill;
    DownhillFaultless(RequestAt(s.table, o, Shared, c).0, c, Sids(s));
    NobodyDoomed(s, s.txs[c := s.txs[c].(pending := Getting(o))]);
    NobodyDoomed(s, s.txs);
  }

  lemma SetWaits(s: Sys, c: nat, o: nat, name: string, value: int)
    requires Ready(s, c) && o in s.txs[c].locked
    requires RequestAt(s.table, o, Exclusive, c).1 == Wait && Downhill(RequestAt(s.table, o, Exclusive, c).0)
    ensures var a := Set(c, o, name, value, []);
      && Enabled(s, a)
      && Apply(s, a) ==
           s.(table := RequestAt(s.table, o, Exclusive, c).0,
              txs := s.txs[c := s.txs[c].(pending := Setting(o, name, value))])
  {
    hide RequestAt, Downhill;
    DownhillFaultless(RequestAt(s.table, o, Exclusive, c).0, c, Sids(s));
    NobodyDoomed(s, s.txs[c := s.txs[c].(pending := Setting(o, name, value))]);
    NobodyDoomed(s, s.txs);
  }

  /** The waiters and holders of a queue of known groups. */
  lemma TwoGroups(g: Group, h: Group)
    ensures Holding([g]) == (set x | x in g.entries) && Waiting([g]) == {}
    ensures Holding([g, h]) == (set x | x in g.entries) && Waiting([g, h]) == set x | x in h.entries
  {
    var q := [g, h];
    forall x | x in h.entries ensures x in Waiting(q) {
      StillBehind(q, 1, x);
    }
  }

  // ----- one search is not always enough -----

  /** Transactions 0, 1 and 2 share o, 0 has made two objects, and 1 and 2 may wait for one
      of them each. */
  function MadeTable(o: nat, m: nat, q: Queue, r: Queue): Table {
    ShareTable(o, 3)[m := q][m + 1 := r]
  }

  function MadeTxs(sid: nat, o: nat, m: nat, p: Pending, r: Pending): map<nat, Tx> {
    map[0 := Tx(sid, [m + 1, m, o], Active, Idle), 1 := Tx(sid + 1, [o], Active, p), 2 := Tx(sid + 2, [o], Active, r)]
  }

  const MINE: Queue := [Group(Exclusive, [0])]

  function Mine(c: nat): Queue {
    [Group(Exclusive, [0]), Group(Shared, [c])]
  }

  function Twofold(s: Sys, o: nat, q: Queue, r: Queue, p1: Pending, p2: Pending): Sys {
    s.(table := MadeTable(o, s.allocId, q, r), objects := s.objects + {s.allocId} + {s.allocId + 1},
       allocId := s.allocId + 2, txs := MadeTxs(s.nextSid, o, s.allocId, p1, p2), nextSid := s.nextSid + 3)
  }

  lemma Made(s: Sys, c: nat, m: nat, sid: nat, locked: seq<nat>)
    requires c in s.txs && s.txs[c] == Tx(sid, locked, Active, Idle) && s.allocId == m && m !in s.table
    ensures Enabled(s, Make(c))
    ensures Apply(s, Make(c)) ==
      s.(table := s.table[m := [Group(Exclusive, [c])]], objects := s.objects + {m}, allocId := m + 1,
         txs := s.txs[c := Tx(sid, [m] + locked, Active, Idle)])
  {
  }

  function MadeOnce(s: Sys, o: nat): Sys {
    var m := s.allocId;
    s.(table := ShareTable(o, 3)[m := MINE], objects := s.objects + {m}, allocId := m + 1,
       txs := Txs(s.nextSid, 3, o, 3)[0 := Tx(s.nextSid, [m, o], Active, Idle)], nextSid := s.nextSid + 3)
  }

  lemma AllThree(sid: nat, o: nat, m: nat)
    ensures var t := Txs(sid, 3, o, 3);
      && t.Keys == {0, 1, 2} && t[0] == Tx(sid, [o], Active, Idle)
      && t[0 := Tx(sid, [m + 1, m, o], Active, Idle)] == MadeTxs(sid, o, m, Idle, Idle)
  {
    hide FirstCids;
  }

  lemma MakesFirst(s: Sys, o: nat)
    requires o < s.allocId
    ensures Enabled(Sharing(s, 3, o, 3), Make(0))
    ensures Apply(Sharing(s, 3, o, 3), Make(0)) == MadeOnce(s, o)
  {
    var m := s.allocId;
    AllThree(s.nextSid, o, m);
    assert m !in ShareTable(o, 3);
    hide Apply, Enabled, Txs, ShareTable, MadeTxs;
    assert [m] + [o] == [m, o];
    Made(Sharing(s, 3, o, 3), 0, m, s.nextSid, [o]);
  }

  lemma MakesSecond(s: Sys, o: nat)
    requires o < s.allocId
    ensures Enabled(MadeOnce(s, o), Make(0))
    ensures Apply(MadeOnce(s, o), Make(0)) == Twofold(s, o, MINE, MINE, Idle, Idle)
  {
    var m := s.allocId;
    assert m + 1 !in ShareTable(o, 3)[m := MINE];
    hide Apply, Enabled, Txs, ShareTable, MadeTxs;
    AllThree(s.nextSid, o, m);
    assert [m + 1] + [m, o] == [m + 1, m, o];
    var t := Txs(s.nextSid, 3, o, 3);
    assert t[0 := Tx(s.nextSid, [m, o], Active, Idle)][0 := Tx(s.nextSid, [m + 1, m, o], Active, Idle)]
        == t[0 := Tx(s.nextSid, [m + 1, m, o], Active, Idle)];
    Made(MadeOnce(s, o), 0, m + 1, s.nextSid, [m, o]);
  }

  lemma Queued(c: nat)
    requires c != 0
    ensures Request(MINE, Shared, c) == (Mine(c), Wait)
  {
    assert MINE + [Group(Shared, [c])] == Mine(c);
  }

  lemma MadeDownhill(o: nat, m: nat, both: bool)
    requires o < m
    ensures Downhill(MadeTable(o, m, Mine(1), if both then Mine(2) else MINE))
  {
    TwoGroups(Group(Shared, FirstCids(3)), Group(Shared, []));
    TwoGroups(Group(Exclusive, [0]), Group(Shared, [1]));
    TwoGroups(Group(Exclusive, [0]), Group(Shared, [2]));
    hide FirstCids, Waiting, Holding;
  }

  lemma FirstWaits(s: Sys, o: nat)
    requires o < s.allocId && o in s.objects
    ensures var e, a := Twofold(s, o, MINE, MINE, Idle, Idle), Get(1, s.allocId, []);
      Enabled(e, a) && Apply(e, a) == Twofold(s, o, Mine(1), MINE, Getting(s.allocId), Idle)
  {
    var e := Twofold(s, o, MINE, MINE, Idle, Idle);
    var m := s.allocId;
    MadeDownhill(o, m, false);
    Queued(1);
    assert e.table[m := Mine(1)] == MadeTable(o, m, Mine(1), MINE);
    assert RequestAt(e.table, m, Shared, 1) == (MadeTable(o, m, Mine(1), MINE), Wait);
    hide Downhill, ShareTable, MadeTable, RequestAt, Enabled, Apply, Mine;
    GetWaits(e, 1, m);
  }

  lemma SecondWaits(s: Sys, o: nat)
    requires o < s.allocId && o in s.objects
    ensures var m := s.allocId;
      var e, a := Twofold(s, o, Mine(1), MINE, Getting(m), Idle), Get(2, m + 1, []);
      Enabled(e, a) && Apply(e, a) == Twofold(s, o, Mine(1), Mine(2), Getting(m), Getting(m + 1))
  {
    var m := s.allocId;
    var e := Twofold(s, o, Mine(1), MINE, Getting(m), Idle);
    MadeDownhill(o, m, true);
    Queued(2);
    assert e.table[m + 1 := Mine(2)] == MadeTable(o, m, Mine(1), Mine(2));
    assert RequestAt(e.table, m + 1, Shared, 2) == (MadeTable(o, m, Mine(1), Mine(2)), Wait);
    hide Downhill, ShareTable, MadeTable, RequestAt, Enabled, Apply, Mine;
    GetWaits(e, 2, m + 1);
  }

  lemma InitialObject(s: Sys, o: nat)
    requires Initial(s) && o in s.objects
    ensures o < s.allocId
  {
  }

  lemma BothWait(s: Sys, o: nat) returns (acts: seq<Action>)
    requires Initial(s) && 3 <= s.maxTasks && o in s.objects
    ensures Runs(s, acts)
    ensures After(s, acts) == Twofold(s, o, Mine(1), Mine(2), Getting(s.allocId), Getting(s.allocId + 1))
  {
    acts := AllShare(s, 3, o, 3);
    InitialObject(s, o);
    hide Initial, Enabled, Apply, Runs, After, Twofold, Sharing, MadeOnce, Mine;
    MakesFirst(s, o);
    MakesSecond(s, o);
    FirstWaits(s, o);
    SecondWaits(s, o);
    Then(s, acts, Make(0));
    acts := acts + [Make(0)];
    Then(s, acts, Make(0));
    acts := acts + [Make(0)];
    Then(s, acts, Get(1, s.allocId, []));
    acts := acts + [Get(1, s.allocId, [])];
    Then(s, acts, Get(2, s.allocId + 1, []));
    acts := acts + [Get(2, s.allocId + 1, [])];
  }

  lemma UpgradeQueued(o: nat, m: nat)
    requires o < m
    ensures var t := MadeTable(o, m, Mine(1), Mine(2));
      RequestAt(t, o, Exclusive, 0) == (t[o := [Group(Shared, [0, 1, 2]), Group(Exclusive, [0])]], Wait)
  {
    assert FirstCids(3) == [0, 1, 2];
    assert [Group(Shared, [0, 1, 2])] + [Group(Exclusive, [0])] == [Group(Shared, [0, 1, 2]), Group(Exclusive, [0])];
  }

  lemma TwoCycles(t: Table, o: nat, m: nat)
    requires o < m && t.Keys == {o, m, m + 1} && t[m] == Mine(1) && t[m + 1] == Mine(2)
    requires t[o] == [Group(Shared, [0, 1, 2]), Group(Exclusive, [0])]
    ensures Edges(t) == {(0, 1), (0, 2), (1, 0), (2, 0)}
  {
    TwoGroups(Group(Shared, [0, 1, 2]), Group(Exclusive, [0]));
    TwoGroups(Group(Exclusive, [0]), Group(Shared, [1]));
    TwoGroups(Group(Exclusive, [0]), Group(Shared, [2]));
    hide Waiting, Holding;
    forall x: nat, y: nat ensures (x, y) in Edges(t) <==> (x, y) in {(0, 1), (0, 2), (1, 0), (2, 0)} {
      assert (x, y) in Edges(t) <==> EdgeOf(t[o], x, y) || EdgeOf(t[m], x, y) || EdgeOf(t[m + 1], x, y);
    }
  }

  /** What 0 would wait for if it asked for the exclusive mode of o now. */
  lemma TwofoldEdges(o: nat, m: nat)
    requires o < m
    ensures var (t, a) := RequestAt(MadeTable(o, m, Mine(1), Mine(2)), o, Exclusive, 0);
      a == Wait && Edges(t) == {(0, 1), (0, 2), (1, 0), (2, 0)}
  {
    assert MadeTable(o, m, Mine(1), Mine(2)).Keys == {o, m, m + 1} by {
      hide FirstCids;
    }
    hide FirstCids, Request, RequestAt, Edges, ShareTable, Mine;
    UpgradeQueued(o, m);
    TwoCycles(RequestAt(MadeTable(o, m, Mine(1), Mine(2)), o, Exclusive, 0).0, o, m);
  }

  /** One search can miss a deadlock: in every store with an object o and room for three
      transactions there is a run after which a request of 0 for the exclusive mode of o
      closes two cycles at once. Faulting the youngest on the one that goes by 1 leaves the
      other: there are two ways on from 0. */
  lemma SingleFaultMisses(s: Sys, o: nat) returns (acts: seq<Action>)
    requires Initial(s) && 3 <= s.maxTasks && o in s.objects
    ensures Runs(s, acts)
    ensures var e := After(s, acts);
      && Ready(e, 0) && o in e.txs[0].locked
      && var (t, a) := RequestAt(e.table, o, Exclusive, 0);
         a == Wait && YoungestOnCycle(Edges(t), Sids(e), 0, 1) && !FaultRun(t, 0, Sids(e), [1]) && !OneWay(Edges(t), 0)
  {
    acts := BothWait(s, o);
    hide RequestAt, Runs, After, Initial, Sids, Ready, OneWay, YoungestOnCycle, FaultRun, Edges;
    InitialObject(s, o);
    TwofoldEdges(o, s.allocId);
    TwofoldState(s, o, Getting(s.allocId), Getting(s.allocId + 1));
    RequestInReach(s, acts, o, Exclusive, 0);
    hide Twofold, MadeTable, Mine, Shaped;
    var e := After(s, acts);
    TwoWays(RequestAt(e.table, o, Exclusive, 0).0, Sids(e));
  }

  lemma TwofoldState(s: Sys, o: nat, p1: Pending, p2: Pending)
    ensures var e := Twofold(s, o, Mine(1), Mine(2), p1, p2);
      && Ready(e, 0) && o in e.txs[0].locked && e.table == MadeTable(o, s.allocId, Mine(1), Mine(2))
      && 0 in Sids(e) && 1 in Sids(e) && Sids(e)[0] < Sids(e)[1]
  {
  }

  lemma RequestInReach(s: Sys, acts: seq<Action>, o: nat, mode: Mode, c: nat)
    requires Initial(s) && Runs(s, acts) && Ready(After(s, acts), c)
    ensures Shaped(RequestAt(After(s, acts).table, o, mode, c).0)
  {
    InitialOk(s);
    AlwaysLockInv(s, acts);
    hide Runs, After, Initial, RequestAt;
    IdleNotBlocked(After(s, acts), c);
    RequestShaped(After(s, acts).table, o, mode, c);
  }

  lemma TwoWays(t: Table, sids: map<nat, nat>)
    requires Shaped(t) && Edges(t) == {(0, 1), (0, 2), (1, 0), (2, 0)}
    requires 0 in sids && 1 in sids && sids[0] < sids[1]
    ensures YoungestOnCycle(Edges(t), sids, 0, 1) && !FaultRun(t, 0, sids, [1]) && !OneWay(Edges(t), 0)
  {
    hide Shaped, FaultRun, WithdrawTx;
    var g: Graph := {(0, 1), (0, 2), (1, 0), (2, 0)};
    assert IsWalk(g, [0, 1, 0], 0, 0) && Youngest(sids, [0, 1, 0], 1);
    assert IsWalk(Mute(g, 1), [0, 2, 0], 0, 0);
    assert IsWalk(g, [0, 2, 0], 0, 0);
    WalkOnCycle(g, 0, [0, 1, 0], 0);
    WalkOnCycle(g, 0, [0, 1, 0], 1);
    WalkOnCycle(g, 0, [0, 2, 0], 1);
    OneFault(t, 0, sids, 1);
  }

  // ----- two shared groups side by side -----

  /** Transactions 0, 1 and 2 share o, and 2 has made another object. */
  function UpgradingTxs(n: nat, o: nat, p0: Pending, tx2: Tx, p3: Pending): map<nat, Tx> {
    map[0 := Tx(n, [o], Active, p0), 1 := Tx(n + 1, [o], Active, Idle), 2 := tx2, 3 := Tx(n + 3, [], Active, p3)]
  }

  function Upgrading(s: Sys, o: nat, q: Queue, r: Queue, p0: Pending, tx2: Tx, p3: Pending): Sys {
    var n := s.nextSid;
    s.(table := map[o := q, s.allocId := r], objects := s.objects + {s.allocId}, allocId := s.allocId + 1,
       nextSid := n + 4, txs := UpgradingTxs(n, o, p0, tx2, p3))
  }

  const SHARERS: Group := Group(Shared, [0, 1, 2])
  const UPGRADE: Group := Group(Exclusive, [2])
  const LATE: Group := Group(Shared, [3])

  lemma AllFour(sid: nat, o: nat, m: nat)
    ensures var t := Txs(sid, 4, o, 3);
      && 2 in t && t[2] == Tx(sid + 2, [o], Active, Idle)
      && t[2 := Tx(sid + 2, [m, o], Active, Idle)] ==
           map[0 := Tx(sid, [o], Active, Idle), 1 := Tx(sid + 1, [o], Active, Idle),
               2 := Tx(sid + 2, [m, o], Active, Idle), 3 := Tx(sid + 3, [], Active, Idle)]
  {
    hide FirstCids;
  }

  lemma SharersTable(o: nat, m: nat)
    requires o < m
    ensures m !in ShareTable(o, 3) && ShareTable(o, 3)[m := [UPGRADE]] == map[o := [SHARERS], m := [UPGRADE]]
  {
    assert FirstCids(3) == [0, 1, 2];
  }

  lemma UpgraderMakes(s: Sys, o: nat)
    requires o < s.allocId
    ensures Enabled(Sharing(s, 4, o, 3), Make(2))
    ensures Apply(Sharing(s, 4, o, 3), Make(2)) ==
      Upgrading(s, o, [SHARERS], [UPGRADE], Idle, Tx(s.nextSid + 2, [s.allocId, o], Active, Idle), Idle)
  {
    var m := s.allocId;
    hide Apply, Enabled, Txs, ShareTable;
    AllFour(s.nextSid, o, m);
    SharersTable(o, m);
    assert [m] + [o] == [m, o];
    Made(Sharing(s, 4, o, 3), 2, m, s.nextSid + 2, [o]);
  }

  lemma BehindSharers(o: nat, m: nat, q: Queue)
    requires o < m && (q == [SHARERS, UPGRADE] || q == [SHARERS, UPGRADE, LATE])
    ensures Downhill(map[o := q, m := [UPGRADE]])
  {
    TwoGroups(UPGRADE, LATE);
    forall x | x in Waiting(q) ensures x == 2 || x == 3 {
    }
    assert Holding(q) == {0, 1, 2};
    hide Waiting, Holding;
  }

  lemma UpgradeWaits(s: Sys, o: nat, name: string, value: int)
    requires o < s.allocId && o in s.objects
    ensures var m := s.allocId;
      var e := Upgrading(s, o, [SHARERS], [UPGRADE], Idle, Tx(s.nextSid + 2, [m, o], Active, Idle), Idle);
      var a := Set(2, o, name, value, []);
      && Enabled(e, a)
      && Apply(e, a) == Upgrading(s, o, [SHARERS, UPGRADE], [UPGRADE], Idle,
                                  Tx(s.nextSid + 2, [m, o], Active, Setting(o, name, value)), Idle)
  {
    var m := s.allocId;
    var tx, tx' := Tx(s.nextSid + 2, [m, o], Active, Idle), Tx(s.nextSid + 2, [m, o], Active, Setting(o, name, value));
    var e := Upgrading(s, o, [SHARERS], [UPGRADE], Idle, tx, Idle);
    assert [SHARERS] + [UPGRADE] == [SHARERS, UPGRADE];
    assert Request([SHARERS], Exclusive, 2) == ([SHARERS, UPGRADE], Wait);
    BehindSharers(o, m, [SHARERS, UPGRADE]);
    hide Downhill, Request, Enabled, Apply;
    assert e.table[o := [SHARERS, UPGRADE]] == map[o := [SHARERS, UPGRADE], m := [UPGRADE]];
    assert RequestAt(e.table, o, Exclusive, 2) == (map[o := [SHARERS, UPGRADE], m := [UPGRADE]], Wait);
    assert e.txs[2 := tx'] == Upgrading(s, o, [SHARERS], [UPGRADE], Idle, tx', Idle).txs;
    hide RequestAt;
    SetWaits(e, 2, o, name, value);
  }

  lemma LateWaits(s: Sys, o: nat, tx: Tx)
    requires o < s.allocId && o in s.objects
    ensures var e := Upgrading(s, o, [SHARERS, UPGRADE], [UPGRADE], Idle, tx, Idle);
      && Enabled(e, Get(3, o, []))
      && Apply(e, Get(3, o, [])) ==
           Upgrading(s, o, [SHARERS, UPGRADE, LATE], [UPGRADE], Idle, tx, Getting(o))
  {
    var m := s.allocId;
    var e := Upgrading(s, o, [SHARERS, UPGRADE], [UPGRADE], Idle, tx, Idle);
    var q := [SHARERS, UPGRADE, LATE];
    assert [SHARERS, UPGRADE] + [LATE] == q;
    assert Request([SHARERS, UPGRADE], Shared, 3) == (q, Wait);
    BehindSharers(o, m, q);
    hide Downhill, Request, Enabled, Apply;
    assert e.table[o := q] == map[o := q, m := [UPGRADE]];
    assert RequestAt(e.table, o, Shared, 3) == (map[o := q, m := [UPGRADE]], Wait);
    assert e.txs[3 := Tx(s.nextSid + 3, [], Active, Getting(o))]
        == Upgrading(s, o, q, [UPGRADE], Idle, tx, Getting(o)).txs;
    hide RequestAt;
    GetWaits(e, 3, o);
  }

  // ----- the fault -----

  const ASKED: Queue := [UPGRADE, Group(Shared, [0])]

  lemma UpgraderLeaves(o: nat, m: nat)
    requires o < m
    ensures WithdrawTx(map[o := [SHARERS, UPGRADE, LATE], m := ASKED], 2) == map[o := [SHARERS, LATE], m := ASKED]
  {
    var q := [SHARERS, UPGRADE, LATE];
    assert GroupIndex(q, 2, 1) == 1;
    assert Remove([2], 2) == [];
    assert q[..1] + q[2..] == [SHARERS, LATE];
    assert Withdraw(q, 2) == [SHARERS, LATE];
    assert Withdraw(ASKED, 2) == ASKED by {
      assert GroupIndex(ASKED, 2, 2) == 2;
    }
  }

  lemma UpgraderOnCycle(o: nat, m: nat, sids: map<nat, nat>)
    requires o < m && 0 in sids && 2 in sids && sids[0] < sids[2]
    ensures YoungestOnCycle(Edges(map[o := [SHARERS, UPGRADE, LATE], m := ASKED]), sids, 0, 2)
  {
    var t: Table := map[o := [SHARERS, UPGRADE, LATE], m := ASKED];
    TwoGroups(UPGRADE, Group(Shared, [0]));
    StillBehind(t[o], 1, 2);
    StillBehind(t[m], 1, 0);
    assert 0 in Holding(t[o]) && 2 in UPGRADE.entries;
    hide Waiting, Holding;
    var g := Edges(t);
    assert EdgeOf(t[o], 2, 0) && EdgeOf(t[m], 0, 2);
    assert (0, 2) in g && (2, 0) in g;
    hide Edges;
    var p := [0, 2, 0];
    assert IsWalk(g, p, 0, 0);
    assert Youngest(sids, p, 2);
  }

  lemma NobodyOnCycle(o: nat, m: nat)
    requires o < m
    ensures !Reaches(Edges(map[o := [SHARERS, LATE], m := ASKED]), 0, 0)
  {
    var t: Table := map[o := [SHARERS, LATE], m := ASKED];
    TwoGroups(UPGRADE, Group(Shared, [0]));
    TwoGroups(SHARERS, LATE);
    hide Waiting, Holding;
    var rank: nat -> nat := x => if x == 3 then 2 else if x == 0 then 1 else 0;
    forall e | e in Edges(t) ensures rank(e.1) < rank(e.0) {
      var l := EdgeWitness(t, e.0, e.1);
    }
    RankedAcyclic(Edges(t), rank);
  }

  lemma UpgraderFaulted(o: nat, m: nat, sids: map<nat, nat>)
    requires o < m && 0 in sids && 2 in sids && sids[0] < sids[2]
    ensures FaultRun(map[o := [SHARERS, UPGRADE, LATE], m := ASKED], 0, sids, [2])
    ensures WithdrawAll(map[o := [SHARERS, UPGRADE, LATE], m := ASKED], [2]) == map[o := [SHARERS, LATE], m := ASKED]
  {
    hide WithdrawTx, YoungestOnCycle, Edges, Reaches;
    UpgraderLeaves(o, m);
    UpgraderOnCycle(o, m, sids);
    NobodyOnCycle(o, m);
    assert [2][1..] == [];
    assert FaultRun(map[o := [SHARERS, LATE], m := ASKED], 0, sids, []);
  }

  function Paired(s: Sys, o: nat): Sys {
    Upgrading(s, o, [SHARERS, LATE], ASKED, Getting(s.allocId),
              Tx(s.nextSid + 2, [s.allocId, o], Doomed, Idle), Getting(o))
      .(doomed := s.doomed + {s.nextSid + 2})
  }

  lemma OneDoomed(n: nat, o: nat, m: nat, pending: Pending)
    ensures var txs := UpgradingTxs(n, o, Idle, Tx(n + 2, [m, o], Active, pending), Getting(o));
      && 0 in txs && txs[0] == Tx(n, [o], Active, Idle)
      && Doom(txs[0 := Tx(n, [o], Active, Getting(m))], [2]) ==
           UpgradingTxs(n, o, Getting(m), Tx(n + 2, [m, o], Doomed, Idle), Getting(o))
  {
    assert forall c: nat :: c in [2] <==> c == 2;
  }

  lemma OneSid(n: nat, o: nat, tx: Tx)
    ensures SidsOf(UpgradingTxs(n, o, Idle, tx, Getting(o)), [2]) == {tx.sid}
  {
    var txs := UpgradingTxs(n, o, Idle, tx, Getting(o));
    assert 2 in [2] && 2 in txs && txs[2].sid == tx.sid;
    forall x ensures x in SidsOf(txs, [2]) <==> x in {tx.sid} {
    }
  }

  lemma YoungerSid(n: nat, o: nat, tx: Tx)
    requires tx.sid == n + 2
    ensures var txs := UpgradingTxs(n, o, Idle, tx, Getting(o));
      var sids := map c | c in txs :: txs[c].sid;
      0 in sids && 2 in sids && sids[0] < sids[2]
  {
  }

  lemma GetFaults(s: Sys, c: nat, o: nat, t: Table, victims: seq<nat>)
    requires Ready(s, c) && o in s.objects
    requires RequestAt(s.table, o, Shared, c) == (t, Wait) && FaultRun(t, c, Sids(s), victims)
    ensures Enabled(s, Get(c, o, victims))
    ensures Apply(s, Get(c, o, victims)) ==
      s.(table := WithdrawAll(t, victims), txs := Doom(s.txs[c := s.txs[c].(pending := Getting(o))], victims),
         doomed := s.doomed + SidsOf(s.txs, victims))
  {
    hide RequestAt, FaultRun, Doom, SidsOf, WithdrawAll;
  }

  lemma SharerQueued(o: nat, m: nat)
    requires o < m
    ensures RequestAt(map[o := [SHARERS, UPGRADE, LATE], m := [UPGRADE]], m, Shared, 0) ==
      (map[o := [SHARERS, UPGRADE, LATE], m := ASKED], Wait)
  {
    var q := [SHARERS, UPGRADE, LATE];
    assert [UPGRADE] + [Group(Shared, [0])] == ASKED;
    assert Request([UPGRADE], Shared, 0) == (ASKED, Wait);
    assert map[o := q, m := [UPGRADE]][m := ASKED] == map[o := q, m := ASKED];
  }

  lemma SharerAsks(s: Sys, o: nat, pending: Pending)
    requires o < s.allocId && o in s.objects
    ensures var m := s.allocId;
      var tx := Tx(s.nextSid + 2, [m, o], Active, pending);
      var e := Upgrading(s, o, [SHARERS, UPGRADE, LATE], [UPGRADE], Idle, tx, Getting(o));
      Enabled(e, Get(0, m, [2])) && Apply(e, Get(0, m, [2])) == Paired(s, o)
  {
    hide RequestAt, FaultRun, Doom, SidsOf, WithdrawAll, Enabled, Apply, UpgradingTxs;
    var m, n := s.allocId, s.nextSid;
    var q := [SHARERS, UPGRADE, LATE];
    var tx := Tx(n + 2, [m, o], Active, pending);
    var e := Upgrading(s, o, q, [UPGRADE], Idle, tx, Getting(o));
    SharerQueued(o, m);
    OneDoomed(n, o, m, pending);
    OneSid(n, o, tx);
    YoungerSid(n, o, tx);
    UpgraderFaulted(o, m, Sids(e));
    GetFaults(e, 0, m, map[o := q, m := ASKED], [2]);
  }

  /** A fault can leave two shared groups side by side, and then the stale answer comes
      though nobody waits for the exclusive mode. In every store with an object o and room for
      four transactions: 0, 1 and 2 share o, 2 asks to upgrade, 3 queues behind it, and 0 asks
      for an object that 2 has made, which faults 2. */
  lemma SharedPairAfterFault(s: Sys, o: nat, name: string, value: int) returns (acts: seq<Action>)
    requires Initial(s) && 4 <= s.maxTasks && o in s.objects
    ensures Runs(s, acts)
    ensures var e := After(s, acts);
      && At(e.table, o) == [Group(Shared, [0, 1, 2]), Group(Shared, [3])] && !NoSharedPair(At(e.table, o))
      && Ready(e, 1) && o in e.txs[1].locked
      && Request(At(e.table, o), Exclusive, 1).1 == Stale
      && forall x :: !WaitsAs(At(e.table, o), x, Exclusive)
  {
    acts := AllShare(s, 4, o, 3);
    InitialObject(s, o);
    var m := s.allocId;
    var pending := Setting(o, name, value);
    PairedState(s, o);
    hide Initial, Enabled, Apply, Runs, After, Upgrading, Sharing, Paired, Ready, Request, NoSharedPair, WaitsAs;
    UpgraderMakes(s, o);
    UpgradeWaits(s, o, name, value);
    LateWaits(s, o, Tx(s.nextSid + 2, [m, o], Active, pending));
    SharerAsks(s, o, pending);
    Then(s, acts, Make(2));
    acts := acts + [Make(2)];
    Then(s, acts, Set(2, o, name, value, []));
    acts := acts + [Set(2, o, name, value, [])];
    Then(s, acts, Get(3, o, []));
    acts := acts + [Get(3, o, [])];
    Then(s, acts, Get(0, m, [2]));
    acts := acts + [Get(0, m, [2])];
  }

  lemma PairedState(s: Sys, o: nat)
    requires o < s.allocId
    ensures var e := Paired(s, o);
      && At(e.table, o) == [Group(Shared, [0, 1, 2]), Group(Shared, [3])] && !NoSharedPair(At(e.table, o))
      && Ready(e, 1) && o in e.txs[1].locked
      && Request(At(e.table, o), Exclusive, 1).1 == Stale
      && forall x :: !WaitsAs(At(e.table, o), x, Exclusive)
  {
    var q := At(Paired(s, o).table, o);
    assert q[0].mode == Shared && q[0 + 1].mode == Shared;
  }
}

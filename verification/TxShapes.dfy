/** The exact shape of every reachable queue: never more than three groups; and exactly when
    a step leaves two shared groups side by side, which is when the stale answer comes though
    nobody else waits for the exclusive mode. */
module TxShapes {
  import opened LockQueue
  import opened WaitForGraph
  import opened LockTable
  import opened TxSystem
  import opened TxInvariant
  import opened TxRuns

  /** Nobody waits for the exclusive mode but an upgrade right behind a shared head, and a
      third group comes only behind one. */
  predicate Compact(q: Queue) {
    && |q| <= 3
    && (forall i :: 1 <= i < |q| && q[i].mode == Exclusive ==> i == 1 && q[0].mode == Shared)
    && (|q| == 3 ==> q[1].mode == Exclusive)
  }

  /** Only a holder asks for the exclusive mode of a lock that is not free. */
  lemma CompactRequest(q: Queue, mode: Mode, c: nat)
    requires WellFormed(q) && Compact(q) && (mode == Exclusive ==> q == [] || c in Holding(q))
    ensures Compact(Request(q, mode, c).0)
  {
    if q != [] {
      assert GroupOk(q[0]);
    }
  }

  lemma CompactRequestAt(t: Table, obj: nat, mode: Mode, c: nat, l: nat)
    requires Shaped(t) && Compact(At(t, l)) && (mode == Exclusive ==> At(t, obj) == [] || c in Holding(At(t, obj)))
    ensures Compact(At(RequestAt(t, obj, mode, c).0, l))
  {
    ShapedAt(t, l);
    hide Compact, Shaped, Request, WellFormed;
    if l == obj {
      CompactRequest(At(t, l), mode, c);
    }
  }

  lemma CompactRelease(q: Queue, c: nat)
    requires Compact(q)
    ensures Compact(Release(q, c))
  {
  }

  lemma CompactWithdraw(q: Queue, v: nat)
    requires WellFormed(q) && Compact(q)
    ensures Compact(Withdraw(q, v))
  {
    if v in Waiting(q) {
      var q' := Withdraw(q, v);
      var k, rest := WithdrawGroups(q, v);
      hide WellFormed, Withdraw;
      forall i | 1 <= i < |q'| && q'[i].mode == Exclusive ensures i == 1 && q'[0].mode == Shared {
        assert q[if rest == [] && i >= k then i + 1 else i].mode == Exclusive;
      }
    } else {
      NotWaitingUnmoved(q, v);
    }
  }

  lemma {:induction false} CompactFaults(t: Table, root: nat, sids: map<nat, nat>, victims: seq<nat>, l: nat)
    requires Shaped(t) && (victims == [] || FaultRun(t, root, sids, victims)) && Compact(At(t, l))
    ensures Compact(At(WithdrawAll(t, victims), l))
    decreases |victims|
  {
    if victims != [] {
      FirstFault(t, root, sids, victims);
      if l in t {
        CompactWithdraw(t[l], victims[0]);
      }
      hide Compact, FaultRun, Shaped, Withdraw;
      CompactFaults(WithdrawTx(t, victims[0]), root, sids, victims[1..], l);
    }
  }

  /** Whoever asks for the exclusive mode holds the lock, or made the object just now. */
  lemma ExclusiveByHolder(s: Sys, a: Action)
    requires LockInv(s) && Enabled(s, a) && IsRequest(a) && RequestMode(a) == Exclusive
    ensures var q := At(s.table, RequestObj(s, a)); q == [] || a.c in Holding(q)
  {
    hide Faults;
    if a.Make? {
      KnownObjects(s);
    } else {
      hide LockInv;
      HoldsLocked(s, a.c, a.obj);
    }
  }

  lemma StepCompact(s: Sys, a: Action, l: nat)
    requires LockInv(s) && Enabled(s, a) && Compact(At(s.table, l))
    ensures Compact(At(Apply(s, a).table, l))
  {
    assert Shaped(s.table);
    hide LockInv, Compact, Enabled, Apply, Request, Release, Shaped, RequestAt, At, WithdrawAll, FaultRun;
    StepQueues(s, a, l);
    if IsRequest(a) {
      var obj, mode := RequestObj(s, a), RequestMode(a);
      if mode == Exclusive {
        ExclusiveByHolder(s, a);
      }
      RequestShaped(s.table, obj, mode, a.c);
      CompactRequestAt(s.table, obj, mode, a.c, l);
      CompactFaults(RequestAt(s.table, obj, mode, a.c).0, a.c, Sids(s), Victims(a), l);
    } else if a.Unlock? {
      CompactRelease(At(s.table, l), a.c);
    }
  }

  /** No queue ever has more than three groups: the holders, one upgrade, and the shared
      requests that came behind it. */
  lemma {:induction false} ThreeGroups(s: Sys, acts: seq<Action>, l: nat)
    requires LockInv(s) && Compact(At(s.table, l)) && Runs(s, acts)
    ensures Compact(At(After(s, acts).table, l))
    decreases |acts|
  {
    if acts != [] {
      StepCompact(s, acts[0], l);
      StepKeeps(s, acts[0]);
      hide LockInv, Compact, Enabled, Apply;
      ThreeGroups(Apply(s, acts[0]), acts[1..], l);
    }
  }

  /** What that says of a third group, from the initial state on. */
  lemma ReachableQueue(s: Sys, acts: seq<Action>, l: nat)
    requires Initial(s) && Runs(s, acts)
    ensures var q := At(After(s, acts).table, l);
      && |q| <= 3
      && (|q| == 3 ==>
            && q[0].mode == Shared && q[2].mode == Shared
            && q[1].mode == Exclusive && |q[1].entries| == 1 && q[1].entries[0] in q[0].entries)
      && (|q| == 2 && q[1].mode == Exclusive ==> q[0].mode == Shared)
  {
    InitialOk(s);
    ThreeGroups(s, acts, l);
    AlwaysLockInv(s, acts);
    var e := After(s, acts);
    var q := At(e.table, l);
    if |q| == 3 {
      assert GroupOk(q[1]);
      ExclusiveUpgrades(e, l, 1, q[1].entries[0]);
    }
  }

  lemma OneMode(q: Queue, x: nat, m: Mode, n: Mode)
    requires WellFormed(q) && WaitsAs(q, x, m) && WaitsAs(q, x, n)
    ensures m == n
  {
    assert WaitsOnce(q);
  }

  lemma ModeAt(q: Queue, i: nat, x: nat)
    requires 1 <= i < |q| && x in q[i].entries
    ensures WaitsAs(q, x, q[i].mode)
  {
  }

  /** A transaction that waits for the exclusive mode holds the lock: it is upgrading. */
  lemma ExclusiveUpgrades(s: Sys, l: nat, i: nat, x: nat)
    requires LockInv(s)
    requires 1 <= i < |At(s.table, l)| && x in At(s.table, l)[i].entries && At(s.table, l)[i].mode == Exclusive
    ensures var q := At(s.table, l);
      x in Holding(q) && i == 1 && q[0].mode == Shared && q[1] == Group(Exclusive, [x]) && |q[0].entries| >= 2
  {
    var q := At(s.table, l);
    ModeAt(q, i, x);
    hide WaitsAs;
    UpgraderHolds(s, l, x);
    UpgradeInPlace(q, i, x);
  }

  lemma UpgraderHolds(s: Sys, l: nat, x: nat)
    requires LockInv(s) && WaitsAs(At(s.table, l), x, Exclusive)
    ensures WellFormed(At(s.table, l)) && x in Holding(At(s.table, l))
  {
    var q := At(s.table, l);
    ShapedAt(s.table, l);
    WaitingAs(q, x);
    hide WellFormed, WaitsAs, Waiting, Acyclic, HeldExclusive;
    assert x in Members(q) && x in s.txs;
    assert RecordOk(s.table, s.objects, s.hist, x, s.txs[x]);
    hide LockInv;
    if s.txs[x].pending.Getting? {
      OneMode(q, x, Shared, Exclusive);
    }
  }

  lemma UpgradeInPlace(q: Queue, i: nat, x: nat)
    requires WellFormed(q) && 1 <= i < |q| && x in q[i].entries && x in Holding(q)
    ensures i == 1 && q[0].mode == Shared && q[1] == Group(Exclusive, [x]) && |q[0].entries| >= 2
  {
  }

  // ----- two shared groups side by side -----

  /** The upgrade between two shared groups is taken out, and somebody stays behind it. */
  ghost predicate UpgradeLost(q: Queue, vs: set<nat>) {
    && |q| == 3
    && (exists v :: v in q[1].entries && v in vs)
    && (exists x :: x in q[2].entries && x !in vs)
  }

  /** Whoever waits after the faults waited in the same mode before. */
  lemma SameMode(q: Queue, q': Queue, vs: set<nat>, x: nat, m: Mode)
    requires LeftBy(q, q', vs)
    ensures WaitsAs(q', x, m) <==> WaitsAs(q, x, m) && x !in vs
  {
    WaitingAs(q, x);
    WaitingAs(q', x);
    hide WaitsAs, Waiting, Holding, HeldExclusive, WellFormed;
    if WaitsAs(q', x, m) {
      var n :| WaitsAs(q, x, n);
      OneMode(q', x, m, n);
    }
  }

  lemma PairNeedsLoss(q: Queue, q': Queue, vs: set<nat>)
    requires WellFormed(q) && NoSharedPair(q) && Compact(q) && Compact(q') && LeftBy(q, q', vs)
    requires !NoSharedPair(q')
    ensures UpgradeLost(q, vs)
  {
    assert |q'| == 2 && q'[0].mode == Shared && q'[1].mode == Shared && GroupOk(q'[1]);
    assert !HeldExclusive(q);
    var x := q'[1].entries[0];
    ModeAt(q', 1, x);
    SameMode(q, q', vs, x, Shared);
    var j :| 1 <= j < |q| && x in q[j].entries && q[j].mode == Shared;
    assert q[0].mode == Exclusive || q[0 + 1].mode == Exclusive;
    assert j == 2 && GroupOk(q[1]);
    var v := q[1].entries[0];
    hide LeftBy;
    if v !in vs {
      ModeAt(q, 1, v);
      SameMode(q, q', vs, v, Exclusive);
      assert false;
    }
  }

  lemma LossLeavesPair(q: Queue, q': Queue, vs: set<nat>)
    requires WellFormed(q) && Compact(q) && Compact(q') && LeftBy(q, q', vs)
    requires UpgradeLost(q, vs)
    ensures !NoSharedPair(q')
  {
    var v :| v in q[1].entries && v in vs;
    var x :| x in q[2].entries && x !in vs;
    assert GroupOk(q[1]) && !HeldExclusive(q') && WellFormed(q');
    hide LeftBy;
    ModeAt(q, 2, x);
    SameMode(q, q', vs, x, Shared);
    var i :| 1 <= i < |q'| && x in q'[i].entries && q'[i].mode == Shared;
    if |q'| == 3 {
      assert GroupOk(q'[1]);
      var w := q'[1].entries[0];
      ModeAt(q', 1, w);
      SameMode(q, q', vs, w, Exclusive);
      assert false;
    }
    assert q'[0].mode == Shared && q'[0 + 1].mode == Shared;
  }

  /** Exactly when a step leaves two shared groups side by side: it is a request whose faults
      take the upgrade out from between two of them, and not everybody behind it too. */
  lemma StepSharedPair(s: Sys, a: Action, l: nat)
    requires LockInv(s) && Enabled(s, a) && Compact(At(s.table, l)) && NoSharedPair(At(s.table, l))
    ensures NoSharedPair(At(Apply(s, a).table, l)) <==>
      !(IsRequest(a) &&
        UpgradeLost(At(RequestAt(s.table, RequestObj(s, a), RequestMode(a), a.c).0, l), SetOf(Victims(a))))
  {
    if Victims(a) == [] {
      StepNoSharedPair(s, a, l);
    } else {
      StepQueues(s, a, l);
      StepCompact(s, a, l);
      assert Shaped(s.table);
      hide LockInv, Compact, Enabled, Apply, Request, Shaped, NoSharedPair, UpgradeLost, FaultRun, Waiting;
      var obj, mode := RequestObj(s, a), RequestMode(a);
      RequestShaped(s.table, obj, mode, a.c);
      var t1 := RequestAt(s.table, obj, mode, a.c).0;
      var q, q' := At(t1, l), At(WithdrawAll(t1, Victims(a)), l);
      RequestedCompact(s, a, l);
      WithdrawAllKeys(t1, Victims(a));
      if l in t1 {
        FaultsTouch(t1, a.c, Sids(s), Victims(a), l);
        ShapedAt(t1, l);
        if NoSharedPair(q') {
          if UpgradeLost(q, SetOf(Victims(a))) {
            LossLeavesPair(q, q', SetOf(Victims(a)));
          }
        } else {
          PairNeedsLoss(q, q', SetOf(Victims(a)));
        }
      } else {
        NothingLost(SetOf(Victims(a)));
      }
    }
  }

  lemma NothingLost(vs: set<nat>)
    ensures NoSharedPair([]) && !UpgradeLost([], vs)
  {
  }

  lemma RequesterIdles(s: Sys, a: Action)
    requires LockInv(s) && Enabled(s, a) && IsRequest(a)
    ensures !Blocked(s.table, a.c)
  {
    assert Idles(s, a.c) by {
      hide Faults, LockInv;
    }
    hide Enabled, LockInv;
    IdleNotBlocked(s, a.c);
  }

  lemma RequestedCompact(s: Sys, a: Action, l: nat)
    requires LockInv(s) && Enabled(s, a) && IsRequest(a)
    requires Compact(At(s.table, l)) && NoSharedPair(At(s.table, l))
    ensures var q := At(RequestAt(s.table, RequestObj(s, a), RequestMode(a), a.c).0, l);
      Compact(q) && NoSharedPair(q)
  {
    assert Shaped(s.table);
    if l == RequestObj(s, a) {
      RequesterIdles(s, a);
      hide LockInv, Compact, Enabled, Request, Shaped, NoSharedPair, Waiting, Blocked;
      if RequestMode(a) == Exclusive {
        ExclusiveByHolder(s, a);
      }
      ShapedAt(s.table, l);
      NotWaitingAt(s.table, l, a.c);
      CompactRequest(At(s.table, l), RequestMode(a), a.c);
      RequestShape(At(s.table, l), RequestMode(a), a.c);
    }
  }

  /** What the stale answer tells in a reachable state: the asker shares a lock that others
      queue for; and somebody else is upgrading unless two shared groups are side by side. */
  lemma StaleMeans(s: Sys, acts: seq<Action>, c: nat, obj: nat)
    requires Initial(s) && Runs(s, acts)
    requires Ready(After(s, acts), c) && obj in After(s, acts).txs[c].locked
    ensures var q := At(After(s, acts).table, obj);
      && (Request(q, Exclusive, c).1 == Stale <==> q != [] && q[0].mode == Shared && |q| > 1)
      && (Request(q, Exclusive, c).1 == Stale ==>
            ((exists x :: x != c && WaitsAs(q, x, Exclusive)) <==> NoSharedPair(q)))
  {
    InitialOk(s);
    AlwaysLockInv(s, acts);
    var e := After(s, acts);
    HoldsLocked(e, c, obj);
    IdleNotBlocked(e, c);
    ThreeGroups(s, acts, obj);
    var q := At(e.table, obj);
    ShapedAt(e.table, obj);
    NotWaitingAt(e.table, obj, c);
    hide LockInv, Blocked, Runs, Initial, After, Ready, At;
    StaleShape(q, c);
  }

  lemma StaleShape(q: Queue, c: nat)
    requires WellFormed(q) && Compact(q) && c in Holding(q) && c !in Waiting(q)
    ensures Request(q, Exclusive, c).1 == Stale <==> q != [] && q[0].mode == Shared && |q| > 1
    ensures Request(q, Exclusive, c).1 == Stale ==>
      ((exists x :: x != c && WaitsAs(q, x, Exclusive)) <==> NoSharedPair(q))
  {
    if q[0].mode == Shared && |q| > 1 {
      if q[1].mode == Exclusive {
        assert GroupOk(q[1]);
        var x := q[1].entries[0];
        assert WaitsAs(q, x, Exclusive) && x != c;
      } else {
        assert q[0].mode == Shared && q[0 + 1].mode == Shared;
      }
    }
  }
}

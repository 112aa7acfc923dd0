/** Properties of whole runs: what holds in every reachable state, upgrade safety,
    no overtaking, and runs without faults. */
module TxRuns {
  import opened LockQueue
  import opened WaitForGraph
  import opened LockTable
  import opened TxSystem
  import opened TxInvariant

  /** The state of a store nobody has used yet. */
  ghost predicate Initial(s: Sys) {
    && s.table == map[] && s.txs == map[] && s.hist == [] && s.order == [] && s.doomed == {}
    && s.allocId >= FIRST_ALLOC_ID && forall o :: o in s.objects ==> o < s.allocId
  }

  /** Every action of the run is enabled when its turn comes. */
  ghost predicate Runs(s: Sys, acts: seq<Action>)
    decreases |acts|
  {
    acts == [] || (Enabled(s, acts[0]) && Runs(Apply(s, acts[0]), acts[1..]))
  }

  ghost function After(s: Sys, acts: seq<Action>): Sys
    requires Runs(s, acts)
    decreases |acts|
  {
    if acts == [] then s else After(Apply(s, acts[0]), acts[1..])
  }

  lemma InitialOk(s: Sys)
    requires Initial(s)
    ensures LockInv(s)
  {
    assert Edges(s.table) == {};
    RankedAcyclic(Edges(s.table), x => x);
  }

  /** The invariant holds in every state of every run. */
  lemma {:induction false} AlwaysLockInv(s: Sys, acts: seq<Action>)
    requires LockInv(s) && Runs(s, acts)
    ensures LockInv(After(s, acts))
    decreases |acts|
  {
    if acts != [] {
      StepKeeps(s, acts[0]);
      AlwaysLockInv(Apply(s, acts[0]), acts[1..]);
    }
  }

  /** Deadlock freedom as an invariant of runs: from the initial state on, the wait
      relation never has a cycle once a step has completed. */
  lemma NeverDeadlocked(s: Sys, acts: seq<Action>)
    requires Initial(s) && Runs(s, acts)
    ensures Acyclic(Edges(After(s, acts).table))
  {
    InitialOk(s);
    AlwaysLockInv(s, acts);
  }

  // ----- what one step does to one queue -----

  ghost predicate IsRequest(a: Action) {
    a.Get? || a.Set? || a.Make?
  }

  function RequestObj(s: Sys, a: Action): nat
    requires a.Get? || a.Set? || a.Make?
  {
    match a
    case Get(_, obj, _) => obj
    case Set(_, obj, _, _, _) => obj
    case Make(_) => s.allocId
  }

  function RequestMode(a: Action): Mode {
    if a.Get? then Shared else Exclusive
  }

  function Victims(a: Action): seq<nat> {
    match a
    case Get(_, _, victims) => victims
    case Set(_, _, _, _, victims) => victims
    case _ => []
  }

  /** A step is a request with its faults, a release, or leaves the queues alone. */
  lemma StepQueues(s: Sys, a: Action, l: nat)
    requires LockInv(s) && Enabled(s, a)
    ensures IsRequest(a) ==>
      && !Blocked(s.table, a.c)
      && At(Apply(s, a).table, l) ==
           At(WithdrawAll(RequestAt(s.table, RequestObj(s, a), RequestMode(a), a.c).0, Victims(a)), l)
      && (Victims(a) != [] ==>
            FaultRun(RequestAt(s.table, RequestObj(s, a), RequestMode(a), a.c).0, a.c, Sids(s), Victims(a)))
    ensures a.Unlock? ==>
      && !Blocked(s.table, a.c)
      && (At(Apply(s, a).table, l) == At(s.table, l) || At(Apply(s, a).table, l) == Release(At(s.table, l), a.c))
    ensures !IsRequest(a) && !a.Unlock? ==> At(Apply(s, a).table, l) == At(s.table, l)
  {
    if IsRequest(a) || a.Unlock? {
      ActorNotBlocked(s, a);
    }
    hide LockInv, FaultRun, Sids, RequestAt, Release, Blocked, Enabled, Apply, At, WithdrawAll;
    if IsRequest(a) {
      RequestMoves(s, a);
    } else if a.Unlock? {
      UnlockMovesOne(s, a, l);
    } else {
      OthersMoveNone(s, a);
    }
  }

  lemma OthersMoveNone(s: Sys, a: Action)
    requires Enabled(s, a) && !IsRequest(a) && !a.Unlock?
    ensures Apply(s, a).table == s.table
  {
    hide Request, FaultRun;
  }

  lemma ActorNotBlocked(s: Sys, a: Action)
    requires LockInv(s) && Enabled(s, a) && (IsRequest(a) || a.Unlock?)
    ensures !Blocked(s.table, a.c)
  {
    assert Idles(s, a.c) by {
      hide Faults, LockInv;
    }
    hide LockInv, Enabled, Blocked;
    IdleNotBlocked(s, a.c);
  }

  /** The table after a request: the stale answer and the immediate grant are the cases
      without faults. */
  lemma RequestMoves(s: Sys, a: Action)
    requires Enabled(s, a) && IsRequest(a)
    ensures var t1 := RequestAt(s.table, RequestObj(s, a), RequestMode(a), a.c).0;
      && Apply(s, a).table == WithdrawAll(t1, Victims(a))
      && (Victims(a) != [] ==> FaultRun(t1, a.c, Sids(s), Victims(a)))
  {
    hide FaultRun, Sids, Request;
    var (t1, answer) := RequestAt(s.table, RequestObj(s, a), RequestMode(a), a.c);
    if a.Set? && answer == Stale {
      StaleUnmoved(s.table, a.obj, a.c);
    }
  }

  lemma UnlockMovesOne(s: Sys, a: Action, l: nat)
    requires Enabled(s, a) && a.Unlock?
    ensures At(Apply(s, a).table, l) == At(s.table, l) || At(Apply(s, a).table, l) == Release(At(s.table, l), a.c)
  {
    hide Release;
  }

  // ----- holders stay until their own unlock -----

  lemma {:induction false} FaultedHolding(t: Table, root: nat, sids: map<nat, nat>, victims: seq<nat>, l: nat)
    requires Shaped(t) && (victims == [] || FaultRun(t, root, sids, victims))
    ensures Holding(At(WithdrawAll(t, victims), l)) == Holding(At(t, l))
    ensures HeldExclusive(At(WithdrawAll(t, victims), l)) == HeldExclusive(At(t, l))
  {
    WithdrawAllKeys(t, victims);
    if victims != [] && l in t {
      FaultsTouch(t, root, sids, victims, l);
    }
  }

  lemma StepHolds(s: Sys, a: Action, l: nat, c: nat)
    requires LockInv(s) && Enabled(s, a) && a != Unlock(c)
    requires c in Holding(At(s.table, l))
    ensures c in Holding(At(Apply(s, a).table, l))
  {
    assert Shaped(s.table);
    StepQueues(s, a, l);
    hide LockInv, Enabled, Apply, Shaped, FaultRun, Holding, HeldExclusive;
    if IsRequest(a) {
      var obj, mode := RequestObj(s, a), RequestMode(a);
      RequestShaped(s.table, obj, mode, a.c);
      FaultedHolding(RequestAt(s.table, obj, mode, a.c).0, a.c, Sids(s), Victims(a), l);
      RequestHolds(s.table, obj, mode, a.c, l, c);
    } else if a.Unlock? {
      ReleaseHolds(s.table, a.c, l, c);
    }
  }

  lemma RequestHolds(t: Table, obj: nat, mode: Mode, d: nat, l: nat, c: nat)
    requires Shaped(t) && !Blocked(t, d) && c in Holding(At(t, l))
    ensures c in Holding(At(RequestAt(t, obj, mode, d).0, l))
  {
    if l == obj {
      RequestEffect(At(t, obj), mode, d);
    }
  }

  lemma ReleaseHolds(t: Table, d: nat, l: nat, c: nat)
    requires Shaped(t) && !Blocked(t, d) && c in Holding(At(t, l)) && c != d
    ensures c in Holding(Release(At(t, l), d))
  {
    ReleaseEffect(t[l], d);
  }

  /** Upgrade safety: from its shared grant until its own unlock a transaction stays
      in the head group, so nobody else ever holds the lock exclusively in between. */
  lemma {:induction false} UpgradeSafe(s: Sys, acts: seq<Action>, l: nat, c: nat)
    requires LockInv(s) && Runs(s, acts) && Unlock(c) !in acts
    requires c in Holding(At(s.table, l))
    ensures c in Holding(At(After(s, acts).table, l))
    ensures HeldExclusive(At(After(s, acts).table, l)) ==> Holding(At(After(s, acts).table, l)) == {c}
    decreases |acts|
  {
    if acts == [] {
      ExclusiveAlone(s.table, l, c);
    } else {
      StepHolds(s, acts[0], l, c);
      StepKeeps(s, acts[0]);
      assert Unlock(c) !in acts[1..];
      UpgradeSafe(Apply(s, acts[0]), acts[1..], l, c);
    }
  }

  lemma ExclusiveAlone(t: Table, l: nat, c: nat)
    requires Shaped(t) && c in Holding(At(t, l))
    ensures HeldExclusive(At(t, l)) ==> Holding(At(t, l)) == {c}
  {
    assert GroupOk(t[l][0]);
  }

  /** A transaction queued twice in one lock is upgrading: it shares the head with
      others and is alone in the exclusive group right behind it. */
  lemma TwiceIsUpgrade(s: Sys, acts: seq<Action>, l: nat, c: nat)
    requires Initial(s) && Runs(s, acts)
    requires var q := At(After(s, acts).table, l); c in Holding(q) && c in Waiting(q)
    ensures var q := At(After(s, acts).table, l);
      && q[0].mode == Shared && |q[0].entries| >= 2
      && q[1] == Group(Exclusive, [c])
      && forall j :: 2 <= j < |q| ==> c !in q[j].entries
  {
    InitialOk(s);
    AlwaysLockInv(s, acts);
    var q := At(After(s, acts).table, l);
    assert WellFormed(q);
    hide LockInv, Runs, After, Initial;
    TwiceInQueue(q, c);
  }

  lemma TwiceInQueue(q: Queue, c: nat)
    requires WellFormed(q) && c in Holding(q) && c in Waiting(q)
    ensures q[0].mode == Shared && |q[0].entries| >= 2 && q[1] == Group(Exclusive, [c])
    ensures forall j :: 2 <= j < |q| ==> c !in q[j].entries
  {
    var i :| 1 <= i < |q| && c in q[i].entries;
    assert UpgradesOnly(q) && WaitsOnce(q);
  }

  // ----- no overtaking -----

  /** a waits for l in every state of the run. */
  ghost predicate WaitsThroughout(s: Sys, acts: seq<Action>, l: nat, a: nat)
    requires Runs(s, acts)
    decreases |acts|
  {
    a in Waiting(At(s.table, l)) && (acts == [] || WaitsThroughout(Apply(s, acts[0]), acts[1..], l, a))
  }

  lemma {:induction false} FaultedAhead(t: Table, root: nat, sids: map<nat, nat>, victims: seq<nat>, l: nat, a: nat)
    requires Shaped(t) && (victims == [] || FaultRun(t, root, sids, victims))
    requires a in Waiting(At(t, l)) && a in Waiting(At(WithdrawAll(t, victims), l))
    ensures Ahead(At(WithdrawAll(t, victims), l), a) <= Ahead(At(t, l), a)
    decreases |victims|
  {
    if victims != [] {
      FirstFault(t, root, sids, victims);
      var v := victims[0];
      var t1 := WithdrawTx(t, v);
      WithdrawAllKeys(t1, victims[1..]);
      FaultsTouch(t1, root, sids, victims[1..], l);
      assert LeftBy(t[l], t1[l], {v});
      assert a in Waiting(t1[l]) && a != v;
      if v in Waiting(t[l]) {
        WithdrawClearsAhead(t[l], v, a);
      } else {
        NotWaitingUnmoved(t[l], v);
      }
      FaultedAhead(t1, root, sids, victims[1..], l, a);
    }
  }

  lemma StepAhead(s: Sys, act: Action, l: nat, a: nat)
    requires LockInv(s) && Enabled(s, act)
    requires a in Waiting(At(s.table, l)) && a in Waiting(At(Apply(s, act).table, l))
    ensures Ahead(At(Apply(s, act).table, l), a) <= Ahead(At(s.table, l), a)
  {
    assert Shaped(s.table);
    StepQueues(s, act, l);
    hide Ahead, Request, Release, Waiting, Apply, LockInv, Enabled;
    if IsRequest(act) {
      var obj, mode := RequestObj(s, act), RequestMode(act);
      RequestShaped(s.table, obj, mode, act.c);
      RequestAhead(s.table, obj, mode, act.c, l, a);
      FaultedAhead(RequestAt(s.table, obj, mode, act.c).0, act.c, Sids(s), Victims(act), l, a);
    } else if act.Unlock? {
      if At(Apply(s, act).table, l) != At(s.table, l) {
        ReleaseAhead(s.table, act.c, l, a);
      }
    }
  }

  lemma RequestAhead(t: Table, obj: nat, mode: Mode, c: nat, l: nat, a: nat)
    requires Shaped(t) && !Blocked(t, c) && a in Waiting(At(t, l))
    ensures var q' := At(RequestAt(t, obj, mode, c).0, l);
      a in Waiting(q') && Ahead(q', a) == Ahead(At(t, l), a)
  {
    assert c !in Waiting(At(t, l));
    hide Ahead, Waiting;
    if l == obj {
      RequestStaysBehind(At(t, l), mode, c, a);
    }
  }

  lemma ReleaseAhead(t: Table, c: nat, l: nat, a: nat)
    requires Shaped(t) && !Blocked(t, c) && a in Waiting(At(t, l)) && a in Waiting(Release(At(t, l), c))
    ensures Ahead(Release(At(t, l), c), a) <= Ahead(At(t, l), a)
  {
    hide Ahead, Release;
    ReleaseClearsAhead(t[l], c, a);
  }

  /** No overtaking over whole runs: as long as a waits for l, every request granted
      on l, in the mode it is granted in, was already queued in front of a when the
      wait was first observed. Reentrant requests and upgrades in place are no
      exception. */
  lemma {:induction false} NoOvertaking(s: Sys, acts: seq<Action>, l: nat, a: nat)
    requires LockInv(s) && Runs(s, acts) && WaitsThroughout(s, acts, l, a)
    ensures At(After(s, acts).table, l) != [] && At(s.table, l) != []
    ensures Granted(At(After(s, acts).table, l)) <= Ahead(At(s.table, l), a)
    ensures Ahead(At(After(s, acts).table, l), a) <= Ahead(At(s.table, l), a)
    decreases |acts|
  {
    if acts == [] {
      GrantedAhead(At(s.table, l), a);
    } else {
      StepKeeps(s, acts[0]);
      NoOvertaking(Apply(s, acts[0]), acts[1..], l, a);
      StepAhead(s, acts[0], l, a);
    }
  }

  // ----- runs without faults -----

  lemma StepNoSharedPair(s: Sys, a: Action, l: nat)
    requires LockInv(s) && Enabled(s, a) && Victims(a) == []
    requires NoSharedPair(At(s.table, l))
    ensures NoSharedPair(At(Apply(s, a).table, l))
  {
    assert Shaped(s.table);
    StepQueues(s, a, l);
    hide LockInv, Enabled, Apply, NoSharedPair, Request, Release;
    if IsRequest(a) {
      if l == RequestObj(s, a) {
        RequestShape(At(s.table, l), RequestMode(a), a.c);
      }
    } else if a.Unlock? && l in s.table {
      ReleaseShape(s.table[l], a.c);
    }
  }

  /** While nobody is faulted, no two neighbouring groups are both shared: this is
      what the stale answer takes for granted about the request in between. */
  lemma {:induction false} NoSharedPairUnfaulted(s: Sys, acts: seq<Action>, l: nat)
    requires LockInv(s) && Runs(s, acts) && forall i :: 0 <= i < |acts| ==> Victims(acts[i]) == []
    requires NoSharedPair(At(s.table, l))
    ensures NoSharedPair(At(After(s, acts).table, l))
    decreases |acts|
  {
    if acts != [] {
      StepNoSharedPair(s, acts[0], l);
      StepKeeps(s, acts[0]);
      forall i | 0 <= i < |acts[1..]| ensures Victims(acts[1..][i]) == [] {
        assert acts[1..][i] == acts[i + 1];
      }
      NoSharedPairUnfaulted(Apply(s, acts[0]), acts[1..], l);
    }
  }

  // ----- identity -----

  lemma StepSids(s: Sys, a: Action, c: nat)
    requires Identities(s) && Enabled(s, a) && c in Apply(s, a).txs
    ensures Apply(s, a).txs[c].sid < s.nextSid ==> c in s.txs && s.txs[c].sid == Apply(s, a).txs[c].sid
  {
    hide Faults, RequestAt, Requested;
  }

  lemma NextSidGrows(s: Sys, a: Action)
    requires Enabled(s, a)
    ensures s.nextSid <= Apply(s, a).nextSid
  {
    hide Faults, RequestAt, Requested;
  }

  /** Over a run sids only grow, so a later transaction is always the younger. */
  lemma {:induction false} SidsGrow(s: Sys, acts: seq<Action>, c: nat)
    requires LockInv(s) && Runs(s, acts) && c in After(s, acts).txs
    ensures s.nextSid <= After(s, acts).nextSid
    ensures After(s, acts).txs[c].sid < s.nextSid ==>
      c in s.txs && s.txs[c].sid == After(s, acts).txs[c].sid
    decreases |acts|
  {
    if acts != [] {
      StepKeeps(s, acts[0]);
      assert Identities(s);
      hide LockInv, Enabled, Apply, Identities;
      SidsGrow(Apply(s, acts[0]), acts[1..], c);
      if After(s, acts).txs[c].sid < Apply(s, acts[0]).nextSid {
        StepSids(s, acts[0], c);
      }
      NextSidGrows(s, acts[0]);
    }
  }
}

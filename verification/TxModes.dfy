/** Who comes to hold a lock in which mode, over runs, told by the requests that were made. */
module TxModes {
  import opened Sequences
  import opened LockQueue
  import opened LockTable
  import opened TxSystem
  import opened TxInvariant
  import opened TxRuns
  import opened TxLedger

  /** x holds or waits for the exclusive mode. */
  ghost predicate WantsExclusive(q: Queue, x: nat) {
    (Exclusive, x) in Granted(q) || WaitsAs(q, x, Exclusive)
  }

  lemma RequestWants(q: Queue, mode: Mode, tx: nat, x: nat)
    requires WellFormed(q) && tx !in Waiting(q) && WantsExclusive(Request(q, mode, tx).0, x)
    ensures WantsExclusive(q, x) || (x == tx && mode == Exclusive)
  {
    RequestGranted(q, mode, tx);
    hide WellFormed, Request, Granted, HeldExclusive, WaitsAs;
    if WaitsAs(Request(q, mode, tx).0, x, Exclusive) {
      RequestWaits(q, mode, tx, x, Exclusive);
    }
  }

  lemma RequestWaits(q: Queue, mode: Mode, tx: nat, x: nat, m: Mode)
    requires WellFormed(q) && tx !in Waiting(q) && WaitsAs(Request(q, mode, tx).0, x, m)
    ensures WaitsAs(q, x, m) || (x == tx && m == mode)
  {
    var q' := Request(q, mode, tx).0;
    var i :| 1 <= i < |q'| && x in q'[i].entries && q'[i].mode == m;
    if i < |q| && x in q[i].entries && q[i].mode == m {
      assert WaitsAs(q, x, m);
    }
  }

  lemma ReleaseWants(q: Queue, tx: nat, x: nat)
    requires WellFormed(q) && tx !in Waiting(q) && WantsExclusive(Release(q, tx), x)
    ensures WantsExclusive(q, x)
  {
    if (Exclusive, x) in Granted(Release(q, tx)) {
      ReleaseGrantsAsked(q, tx, Exclusive, x);
    } else {
      ReleaseWaits(q, tx, x, Exclusive);
    }
  }

  lemma ReleaseWaits(q: Queue, tx: nat, x: nat, m: Mode)
    requires WellFormed(q) && tx !in Waiting(q) && WaitsAs(Release(q, tx), x, m)
    ensures WaitsAs(q, x, m)
  {
    var q' := Release(q, tx);
    var i :| 1 <= i < |q'| && x in q'[i].entries && q'[i].mode == m;
    if q' != q {
      var rest := Remove(q[0].entries, tx);
      var j := if rest == [] || Promotes(q, rest) then i + 1 else i;
      assert x in q[j].entries && q[j].mode == m;
    }
  }

  lemma WithdrawWants(q: Queue, v: nat, x: nat)
    requires WellFormed(q) && WantsExclusive(Withdraw(q, v), x)
    ensures WantsExclusive(q, x)
  {
    if v in Waiting(q) {
      var k, rest := WithdrawGroups(q, v);
      var q' := Withdraw(q, v);
      hide WellFormed, Withdraw;
      if i :| 1 <= i < |q'| && x in q'[i].entries && q'[i].mode == Exclusive {
        var j := if rest == [] && i >= k then i + 1 else i;
        assert x in q[j].entries && q[j].mode == Exclusive;
      }
    } else {
      NotWaitingUnmoved(q, v);
    }
  }

  lemma {:induction false} FaultsWant(t: Table, root: nat, sids: map<nat, nat>, victims: seq<nat>, l: nat, x: nat)
    requires Shaped(t) && (victims == [] || FaultRun(t, root, sids, victims))
    requires WantsExclusive(At(WithdrawAll(t, victims), l), x)
    ensures WantsExclusive(At(t, l), x)
    decreases |victims|
  {
    if victims != [] {
      FirstFault(t, root, sids, victims);
      hide FaultRun, Shaped, WantsExclusive, Withdraw;
      FaultsWant(WithdrawTx(t, victims[0]), root, sids, victims[1..], l, x);
      if l in t {
        assert WellFormed(t[l]) by {
          ShapedAt(t, l);
        }
        WithdrawWants(t[l], victims[0], x);
      }
    }
  }

  /** A step makes nobody want the exclusive mode but the one who asks for it. */
  lemma StepWants(s: Sys, a: Action, l: nat, x: nat)
    requires LockInv(s) && Enabled(s, a) && WantsExclusive(At(Apply(s, a).table, l), x)
    ensures WantsExclusive(At(s.table, l), x)
      || (IsRequest(a) && RequestMode(a) == Exclusive && RequestObj(s, a) == l && a.c == x)
  {
    assert Shaped(s.table);
    hide LockInv, Enabled, Apply, WantsExclusive, FaultRun, RequestAt, Release, Shaped, Blocked;
    StepQueues(s, a, l);
    if IsRequest(a) {
      var obj, mode := RequestObj(s, a), RequestMode(a);
      RequestShaped(s.table, obj, mode, a.c);
      FaultsWant(RequestAt(s.table, obj, mode, a.c).0, a.c, Sids(s), Victims(a), l, x);
      RequestWantsAt(s.table, obj, mode, a.c, l, x);
    } else if a.Unlock? {
      if At(Apply(s, a).table, l) != At(s.table, l) {
        ShapedAt(s.table, l);
        NotWaitingAt(s.table, l, a.c);
        ReleaseWants(At(s.table, l), a.c, x);
      }
    }
  }

  lemma RequestWantsAt(t: Table, obj: nat, mode: Mode, c: nat, l: nat, x: nat)
    requires Shaped(t) && !Blocked(t, c) && WantsExclusive(At(RequestAt(t, obj, mode, c).0, l), x)
    ensures WantsExclusive(At(t, l), x) || (mode == Exclusive && obj == l && c == x)
  {
    if l == obj {
      ShapedAt(t, l);
      NotWaitingAt(t, l, c);
      hide Shaped, Blocked, WantsExclusive, Request;
      RequestWants(At(t, l), mode, c, x);
    }
  }

  /** Since its start, c has asked to write to l, or has made it. */
  predicate AskedToWrite(first: nat, acts: seq<Action>, l: nat, c: nat) {
    acts != []
    && var front, a := acts[..|acts| - 1], acts[|acts| - 1];
       a != Start(c)
       && ((a.Set? && a.c == c && a.obj == l) || (a == Make(c) && first + Makes(front) == l)
           || AskedToWrite(first, front, l, c))
  }

  lemma MoreAsked(first: nat, front: seq<Action>, a: Action, l: nat, c: nat)
    ensures AskedToWrite(first, front + [a], l, c) <==>
      a != Start(c)
      && ((a.Set? && a.c == c && a.obj == l) || (a == Make(c) && first + Makes(front) == l)
          || AskedToWrite(first, front, l, c))
  {
    LastAppended(front, a);
  }

  lemma WanterLives(s: Sys, l: nat, x: nat)
    requires LockInv(s) && WantsExclusive(At(s.table, l), x)
    ensures x in s.txs
  {
    WaitingAs(At(s.table, l), x);
    assert x in Members(At(s.table, l));
  }

  /** Over every run: whoever holds a lock exclusively, or waits to, has asked to write to its
      object since it was started, or has made it. */
  lemma {:induction false} WritersAsked(s: Sys, acts: seq<Action>, l: nat, x: nat)
    requires Initial(s) && Runs(s, acts) && WantsExclusive(At(After(s, acts).table, l), x)
    ensures AskedToWrite(s.allocId, acts, l, x)
    decreases |acts|
  {
    hide WantsExclusive, AskedToWrite, Enabled, Apply, LockInv, Told, Runs, After;
    RunTold(s, acts);
    if acts == [] {
      NobodyWants(s, l, x);
    } else {
      var n := |acts| - 1;
      var front, a := acts[..n], acts[n];
      RunsFront(s, acts);
      RunTold(s, front);
      WanterLives(After(s, acts), l, x);
      StepWants(After(s, front), a, l, x);
      assert acts == front + [a];
      MoreAsked(s.allocId, front, a, l, x);
      if WantsExclusive(At(After(s, front).table, l), x) {
        WanterLives(After(s, front), l, x);
        StartsNobodyLive(After(s, front), a, x);
        WritersAsked(s, front, l, x);
      } else {
        MadeNow(s, front);
      }
    }
  }

  lemma NobodyWants(s: Sys, l: nat, x: nat)
    requires Initial(s)
    ensures Runs(s, []) && !WantsExclusive(At(After(s, []).table, l), x)
  {
  }

  lemma StartsNobodyLive(s: Sys, a: Action, x: nat)
    requires Enabled(s, a) && x in s.txs
    ensures a != Start(x)
  {
  }

  lemma MadeNow(s: Sys, front: seq<Action>)
    requires Runs(s, front) && Told(s, front)
    ensures After(s, front).allocId == s.allocId + Makes(front)
  {
    hide RecordTold;
  }

  // ----- readers alone -----

  /** Nobody has the lock, or one group shares it. */
  predicate OnlyReaders(q: Queue) {
    |q| <= 1 && (q != [] ==> q[0].mode == Shared)
  }

  predicate Writes(s: Sys, a: Action, l: nat) {
    (a.Set? && a.obj == l) || (a.Make? && s.allocId == l)
  }

  lemma StepReaders(s: Sys, a: Action, l: nat)
    requires LockInv(s) && Enabled(s, a) && OnlyReaders(At(s.table, l)) && !Writes(s, a, l)
    ensures OnlyReaders(At(Apply(s, a).table, l))
  {
    hide LockInv, Enabled, Apply, FaultRun, OnlyReaders, Release, RequestAt;
    StepQueues(s, a, l);
    if IsRequest(a) {
      var obj, mode := RequestObj(s, a), RequestMode(a);
      RequestReaders(s.table, obj, mode, a.c, l);
      FaultsReaders(RequestAt(s.table, obj, mode, a.c).0, Victims(a), l);
    } else if a.Unlock? {
      ReleaseReaders(At(s.table, l), a.c);
    }
  }

  lemma RequestReaders(t: Table, obj: nat, mode: Mode, c: nat, l: nat)
    requires OnlyReaders(At(t, l)) && (obj == l ==> mode == Shared)
    ensures OnlyReaders(At(RequestAt(t, obj, mode, c).0, l))
  {
  }

  lemma ReleaseReaders(q: Queue, c: nat)
    requires OnlyReaders(q)
    ensures OnlyReaders(Release(q, c))
  {
  }

  lemma {:induction false} FaultsReaders(t: Table, victims: seq<nat>, l: nat)
    requires OnlyReaders(At(t, l))
    ensures OnlyReaders(At(WithdrawAll(t, victims), l))
    decreases |victims|
  {
    if victims != [] {
      FaultsReaders(WithdrawTx(t, victims[0]), victims[1..], l);
    }
  }

  /** As long as nobody writes to an object that was there from the start, every get of it is
      granted at once. */
  lemma ReadersNeverWait(s: Sys, acts: seq<Action>, l: nat, c: nat)
    requires Initial(s) && Runs(s, acts) && l in s.objects && Ready(After(s, acts), c)
    requires forall a :: a in acts ==> !(a.Set? && a.obj == l)
    ensures RequestAt(After(s, acts).table, l, Shared, c).1 == Taken
  {
    InitialOk(s);
    RunReaders(s, acts, l);
  }

  lemma {:induction false} RunReaders(s: Sys, acts: seq<Action>, l: nat)
    requires LockInv(s) && Runs(s, acts) && l in s.objects && OnlyReaders(At(s.table, l))
    requires forall a :: a in acts ==> !(a.Set? && a.obj == l)
    ensures OnlyReaders(At(After(s, acts).table, l))
    decreases |acts|
  {
    if acts != [] {
      var a := acts[0];
      assert a in acts && l < s.allocId;
      StepReaders(s, a, l);
      StepKeeps(s, a);
      ObjectsStay(s, a);
      hide LockInv, Enabled, Apply, OnlyReaders;
      RunReaders(Apply(s, a), acts[1..], l);
    }
  }

  lemma ObjectsStay(s: Sys, a: Action)
    requires Enabled(s, a)
    ensures s.objects <= Apply(s, a).objects
  {
    hide Faults, RequestAt, Doom;
  }
}

/** Nobody waits forever: who can take a step, that every request is answered, and that
    transactions that ask for nothing more all finish, in whatever order they go on. */
module TxProgress {
  import opened LockQueue
  import opened LockTable
  import opened TxSystem
  import opened TxInvariant
  import opened TxRuns
  import opened TxLedger

  /** Steps that ask for nothing: waking up with the lock, unlocking, and the end. */
  predicate Finishing(a: Action) {
    a.Resume? || a.Unlock? || a.Retire?
  }

  /** What brings c nearer to its end. */
  function Next(s: Sys, c: nat): Action
    requires c in s.txs
  {
    if s.txs[c].pending != Idle then Resume(c)
    else if s.txs[c].locked != [] then Unlock(c)
    else Retire(c)
  }

  lemma RecordOf(s: Sys, c: nat)
    requires LockInv(s) && c in s.txs
    ensures TxOk(s.table, s.objects, c, s.txs[c])
  {
    assert RecordOk(s.table, s.objects, s.hist, c, s.txs[c]);
  }

  /** A live transaction can do nothing at all exactly when it is queued behind others. */
  lemma StuckExactly(s: Sys, c: nat)
    requires LockInv(s) && c in s.txs
    ensures Blocked(s.table, c) <==> forall a: Action :: a.c == c ==> !Enabled(s, a)
  {
    RecordOf(s, c);
    if Blocked(s.table, c) {
      var l :| l in s.table && c in Waiting(s.table[l]);
      hide LockInv, Faults;
      forall a: Action | a.c == c ensures !Enabled(s, a) {
      }
    } else {
      NextEnabled(s, c);
      assert Next(s, c).c == c;
    }
  }

  lemma NextEnabled(s: Sys, c: nat)
    requires c in s.txs && !Blocked(s.table, c)
    ensures Enabled(s, Next(s, c))
  {
    if s.txs[c].pending != Idle {
      assert s.txs[c].pending.obj in s.table ==> c !in Waiting(s.table[s.txs[c].pending.obj]);
    }
  }

  lemma QueuedIsLive(s: Sys, l: nat, x: nat)
    requires LockInv(s) && x in Members(At(s.table, l))
    ensures x in s.txs
  {
    assert l in s.table && x in Members(s.table[l]);
  }

  /** Faulting ends, so there are victims that answer a request. */
  lemma SomeVictims(s: Sys, c: nat, obj: nat, mode: Mode) returns (victims: seq<nat>)
    requires LockInv(s) && Ready(s, c)
    ensures Faults(s, c, obj, mode, victims)
  {
    var (t, a) := RequestAt(s.table, obj, mode, c);
    if a == Wait {
      IdleNotBlocked(s, c);
      RequestShaped(s.table, obj, mode, c);
      forall x | Blocked(t, x) ensures x in Sids(s) {
        NotWaitingAt(s.table, obj, c);
        ShapedAt(s.table, obj);
        BlockedBefore(s.table, obj, mode, c, x);
        if l :| l in s.table && x in Waiting(s.table[l]) {
          QueuedIsLive(s, l, x);
        }
      }
      victims := FaultRunExists(t, c, Sids(s));
    } else {
      victims := [];
    }
  }

  /** Whatever a running transaction asks for is answered: it may get any object there is, set
      and read the globals of those it has locked, and make one; and anybody may start where
      there is room. */
  lemma Answered(s: Sys, c: nat, obj: nat, name: string, value: int)
    requires LockInv(s)
    ensures c < s.maxTasks && c !in s.txs ==> Enabled(s, Start(c))
    ensures Ready(s, c) ==> Enabled(s, Make(c))
    ensures Ready(s, c) && obj in s.objects ==> exists victims :: Enabled(s, Get(c, obj, victims))
    ensures Ready(s, c) && obj in s.txs[c].locked ==>
      Enabled(s, Look(c, obj, name)) && exists victims :: Enabled(s, Set(c, obj, name, value, victims))
  {
    if Ready(s, c) {
      var getting := SomeVictims(s, c, obj, Shared);
      var setting := SomeVictims(s, c, obj, Exclusive);
      hide LockInv, Faults;
      assert obj in s.objects ==> Enabled(s, Get(c, obj, getting));
      assert obj in s.txs[c].locked ==> Enabled(s, Set(c, obj, name, value, setting));
    }
  }

  /** As long as there is a transaction, one of them can go on to its end. */
  lemma SomebodyGoesOn(s: Sys) returns (c: nat)
    requires LockInv(s) && s.txs != map[]
    ensures c in s.txs && Enabled(s, Next(s, c))
  {
    c :| c in s.txs;
    if Blocked(s.table, c) {
      var p := ChainToRunning(s.table, c);
      c := p[|p| - 1];
      var l :| l in s.table && c in Holding(s.table[l]);
      QueuedIsLive(s, l, c);
    }
    NextEnabled(s, c);
  }

  // ----- how much is left to do -----

  /** How many steps a transaction needs that asks for nothing more. */
  function Left(tx: Tx): nat {
    |tx.locked| + (if tx.pending == Idle then 0 else if tx.pending.Getting? then 2 else 1) + 1
  }

  function AllLeft(txs: map<nat, Tx>, n: nat): nat {
    if n == 0 then 0 else AllLeft(txs, n - 1) + if n - 1 in txs then Left(txs[n - 1]) else 0
  }

  lemma {:induction false} OneLess(txs: map<nat, Tx>, txs': map<nat, Tx>, n: nat, c: nat)
    requires c in txs && (if c in txs' then Left(txs[c]) == Left(txs'[c]) + 1 else Left(txs[c]) == 1)
    requires forall d :: d != c ==> (d in txs <==> d in txs') && (d in txs ==> txs'[d] == txs[d])
    ensures AllLeft(txs, n) == AllLeft(txs', n) + if c < n then 1 else 0
  {
    if n > 0 {
      OneLess(txs, txs', n - 1, c);
    }
  }

  /** Every step to the end is one step less to take. */
  lemma StepTakesOne(s: Sys, a: Action)
    requires LockInv(s) && Enabled(s, a) && Finishing(a)
    ensures AllLeft(s.txs, s.maxTasks) == AllLeft(Apply(s, a).txs, s.maxTasks) + 1
  {
    var t := Apply(s, a);
    forall d | d != a.c ensures (d in s.txs <==> d in t.txs) && (d in s.txs ==> t.txs[d] == s.txs[d]) {
      OthersRecord(s, a, d);
    }
    OwnRecord(s, a);
    assert Identities(s);
    hide LockInv, Enabled, Apply;
    OneLess(s.txs, t.txs, s.maxTasks, a.c);
  }

  lemma SomebodyQueued(q: Queue)
    requires WellFormed(q) && q != []
    ensures exists x :: x in Members(q)
  {
    assert GroupOk(q[0]) && q[0].entries[0] in Members(q);
  }

  lemma NothingLeft(s: Sys)
    requires LockInv(s) && s.txs == map[]
    ensures forall l :: At(s.table, l) == []
  {
    assert Shaped(s.table);
    hide LockInv, Members, Shaped, WellFormed;
    forall l ensures At(s.table, l) == [] {
      ShapedAt(s.table, l);
      if At(s.table, l) != [] {
        SomebodyQueued(At(s.table, l));
        var x :| x in Members(At(s.table, l));
        QueuedIsLive(s, l, x);
      }
    }
  }

  /** Over any run in which nobody asks for anything more, in whatever order the transactions
      go on: each step is one less to take; and where nobody can go on, everybody has finished
      and every lock is free. */
  lemma {:induction false} FinishingEnds(s: Sys, acts: seq<Action>)
    requires LockInv(s) && Runs(s, acts) && forall a :: a in acts ==> Finishing(a)
    ensures var e := After(s, acts);
      && |acts| + AllLeft(e.txs, e.maxTasks) == AllLeft(s.txs, s.maxTasks)
      && ((forall a :: Finishing(a) ==> !Enabled(e, a)) ==> e.txs == map[] && forall l :: At(e.table, l) == [])
    decreases |acts|
  {
    if acts == [] {
      if s.txs != map[] {
        var c := SomebodyGoesOn(s);
        assert Finishing(Next(s, c));
      } else {
        NothingLeft(s);
      }
    } else {
      assert acts[0] in acts;
      StepTakesOne(s, acts[0]);
      SameLimits(s, acts[0]);
      StepKeeps(s, acts[0]);
      hide LockInv, Enabled, Apply;
      FinishingEnds(Apply(s, acts[0]), acts[1..]);
    }
  }

  /** So from every reachable state everybody can finish, at any time. */
  lemma {:induction false} EverybodyFinishes(s: Sys) returns (acts: seq<Action>)
    requires LockInv(s)
    ensures Runs(s, acts) && (forall a :: a in acts ==> Finishing(a)) && After(s, acts).txs == map[]
    decreases AllLeft(s.txs, s.maxTasks)
  {
    acts := [];
    if s.txs != map[] {
      var c := SomebodyGoesOn(s);
      var a := Next(s, c);
      StepTakesOne(s, a);
      SameLimits(s, a);
      StepKeeps(s, a);
      hide LockInv, Enabled, Apply, Next;
      var rest := EverybodyFinishes(Apply(s, a));
      acts := [a] + rest;
      assert acts[1..] == rest;
    }
  }
}

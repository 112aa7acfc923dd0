/** The store: transactions with their ids and their locked lists over the lock
    table, all updated in place. The lemmas at the end say that each method does to
    the tables what the corresponding step of the transaction system does. */
module Store {
  import opened Wrappers
  import opened WaitMatrix
  import opened LockQueue
  import opened LockTable
  import opened LocksCtx
  import Sys = TxSystem
  import opened TxInvariant

  const SID_LIMIT: nat := 0x1_0000_0000_0000_0000

  /** The sid counter is a 64-bit word that wraps around. */
  function NextSid(sid: nat): nat {
    (sid + 1) % SID_LIMIT
  }

  /** A newer transaction has the larger sid exactly as long as the counter does not
      wrap. */
  lemma SidOrder(sid: nat)
    requires sid < SID_LIMIT
    ensures NextSid(sid) > sid <==> sid != SID_LIMIT - 1
    ensures NextSid(sid) > sid ==> NextSid(sid) == sid + 1
  {
    if sid == SID_LIMIT - 1 {
      assert (sid + 1) % SID_LIMIT == 0;
    } else {
      assert (sid + 1) % SID_LIMIT == sid + 1;
    }
  }

  /** Leave the listed locks one after the other. */
  function ReleaseList(t: Table, ls: seq<nat>, c: nat): Table
    decreases |ls|
  {
    if ls == [] then t else ReleaseList(ReleaseAt(t, ls[0], c), ls[1..], c)
  }

  /** Every lock c holds is in its list. */
  ghost predicate Listed(t: Table, ls: seq<nat>, c: nat) {
    forall l :: l in t && c in Holding(t[l]) ==> l in ls
  }

  lemma ReleaseListed(t: Table, ls: seq<nat>, c: nat)
    requires TableOk(t) && !Blocked(t, c) && ls != [] && Listed(t, ls, c)
    ensures var t' := ReleaseAt(t, ls[0], c);
      TableOk(t') && !Blocked(t', c) && Listed(t', ls[1..], c)
  {
    var l, t' := ls[0], ReleaseAt(t, ls[0], c);
    assert Released(t, t', c);
    ReleaseTable(t, t', c);
    forall m | m in t' && c in Holding(t'[m]) ensures m in ls[1..] {
      if m == l {
        LeaverHoldsNot(t[l], c);
      } else {
        assert m in ls;
      }
    }
  }

  class StoreTx {
    const sid: nat
    const cid: nat
    var locked: seq<nat>

    constructor (sid: nat, cid: nat)
      ensures this.sid == sid && this.cid == cid && locked == []
    {
      this.sid := sid;
      this.cid := cid;
      locked := [];
    }
  }

  class Store {
    const maxTasks: nat
    const locks: Locks
    const cidUsed: array<bool>
    var sidSeq: nat
    var allocId: nat
    var globals: map<Sys.Key, int>
    ghost var sids: map<nat, nat>   // the live transactions: their sids by cid

    /** Live cids are in range and in use, and live sids are distinct and older than
        the next one. */
    ghost predicate Ids()
      reads this, cidUsed
    {
      && cidUsed.Length == maxTasks
      && (forall c: nat :: c in sids <==> c < maxTasks && cidUsed[c])
      && (forall c :: c in sids ==> sids[c] < sidSeq)
      && (forall c, d :: c in sids && d in sids && sids[c] == sids[d] ==> c == d)
    }

    ghost predicate Valid()
      reads this, cidUsed, locks, locks.matrix, locks.txByCid, locks.blockedLock
    {
      && Ids() && locks.Valid() && locks.maxTasks == maxTasks && cidUsed != locks.matrix
      && locks.Knows(sids)
      && (forall l :: l in locks.queues ==> l < allocId)
      && (forall l, c :: l in locks.queues && c in Members(locks.queues[l]) ==> c in sids)
    }

    /** tx is live and not inside a lock call. */
    ghost predicate Running(tx: StoreTx)
      reads this, locks, tx
    {
      tx.cid in sids && sids[tx.cid] == tx.sid && !Blocked(locks.queues, tx.cid)
    }

    constructor (maxTasks: nat)
      ensures Valid() && this.maxTasks == maxTasks && sidSeq == 0 && allocId == Sys.FIRST_ALLOC_ID
      ensures sids == map[] && locks.queues == map[] && globals == map[]
    {
      this.maxTasks := maxTasks;
      locks := new Locks(maxTasks);
      cidUsed := new bool[maxTasks](_ => false);
      sidSeq := 0;
      allocId := Sys.FIRST_ALLOC_ID;
      globals := map[];
      sids := map[];
    }

    /** A new transaction gets the next sid and the smallest free cid. Without a free
        cid src/store.c leaves the cid unset. When the counter wraps around, live
        transactions are no longer older than the next one. */
    method StartTx() returns (res: Option<StoreTx>)
      requires Valid() && sidSeq < SID_LIMIT
      modifies this`sidSeq, this`sids, cidUsed
      ensures sidSeq == NextSid(old(sidSeq)) && locks.queues == old(locks.queues)
      ensures Valid() <==> sidSeq > old(sidSeq) || sids == map[]
      ensures res.None? <==> forall c: nat :: c < maxTasks ==> c in old(sids)
      ensures res.None? ==> sids == old(sids)
      ensures res.Some? ==>
        var tx := res.value;
        && fresh(tx) && tx.locked == [] && tx.sid == old(sidSeq) && Running(tx)
        && tx.cid !in old(sids) && sids == old(sids)[tx.cid := tx.sid]
        && (forall c: nat :: c < tx.cid ==> c in old(sids))
    {
      hide TableOk, Tracked, Represents, Waiting, Holding;
      var sid := sidSeq;
      sidSeq := NextSid(sidSeq);
      SidOrder(sid);
      var c := 0;
      while c < maxTasks && cidUsed[c]
        invariant 0 <= c <= maxTasks
        invariant forall d :: 0 <= d < c ==> cidUsed[d]
      {
        c := c + 1;
      }
      if c == maxTasks {
        return None;
      }
      NotQueued(c);
      cidUsed[c] := true;
      sids := sids[c := sid];
      var tx := new StoreTx(sid, c);
      return Some(tx);
    }

    lemma NotQueued(c: nat)
      requires forall l, d :: l in locks.queues && d in Members(locks.queues[l]) ==> d in sids
      requires c !in sids
      ensures !Blocked(locks.queues, c)
    {
      forall l | l in locks.queues ensures c !in Waiting(locks.queues[l]) {
        assert c !in Members(locks.queues[l]);
      }
    }

    /** Touch an object: take its lock shared and remember it for finish. A caller that
        has to wait remembers it with Remember when it is woken with the lock. */
    method GetObject(tx: StoreTx, obj: nat) returns (code: LockCode, victims: seq<nat>)
      requires Valid() && Running(tx) && obj < allocId
      modifies locks, locks.matrix, locks.txByCid, locks.blockedLock, tx
      ensures Valid()
      ensures var (t, a) := RequestAt(old(locks.queues), obj, Shared, tx.cid);
        && a != Stale && code == CodeOf(a, tx.cid, victims)
        && locks.queues == WithdrawAll(t, victims)
        && (if a == Wait then FaultRun(t, tx.cid, sids, victims) else victims == [])
      ensures tx.locked == if code == LockTaken then [obj] + old(tx.locked) else old(tx.locked)
    {
      ghost var t := locks.queues;
      code, victims := Lock(tx, obj, Shared);
      SharedNeverStale(At(t, obj), tx.cid);
      if code == LockTaken {
        Remember(tx, obj);
      }
    }

    /** Put an object in front of the list of what finish has to unlock. */
    method Remember(tx: StoreTx, obj: nat)
      modifies tx
      ensures tx.locked == [obj] + old(tx.locked)
    {
      tx.locked := [obj] + tx.locked;
    }

    method Lock(tx: StoreTx, obj: nat, mode: Mode) returns (code: LockCode, victims: seq<nat>)
      requires Valid() && Running(tx) && obj < allocId
      modifies locks, locks.matrix, locks.txByCid, locks.blockedLock
      ensures Valid()
      ensures var (t, a) := RequestAt(old(locks.queues), obj, mode, tx.cid);
        && code == CodeOf(a, tx.cid, victims)
        && locks.queues == WithdrawAll(t, victims)
        && (if a == Wait then FaultRun(t, tx.cid, sids, victims) else victims == [])
    {
      ghost var before := locks.queues;
      code, victims := locks.LockLock(obj, mode, tx.cid, tx.sid, sids);
      LockPlaces(before, obj, mode, tx.cid, sids, victims);
    }

    /** Writing a global: upgrade the object's lock, then write. A caller that has to
        wait writes with PutGlobal when it is woken with the lock. */
    method SetGlobal(tx: StoreTx, obj: nat, name: string, value: int) returns (code: LockCode, victims: seq<nat>)
      requires Valid() && Running(tx) && obj < allocId
      modifies this`globals, locks, locks.matrix, locks.txByCid, locks.blockedLock
      ensures Valid()
      ensures var (t, a) := RequestAt(old(locks.queues), obj, Exclusive, tx.cid);
        && code == CodeOf(a, tx.cid, victims)
        && locks.queues == WithdrawAll(t, victims)
        && (if a == Wait then FaultRun(t, tx.cid, sids, victims) else victims == [])
      ensures globals == if code == LockTaken then old(globals)[(obj, name) := value] else old(globals)
    {
      code, victims := Lock(tx, obj, Exclusive);
      if code == LockTaken {
        PutGlobal(obj, name, value);
      }
    }

    method PutGlobal(obj: nat, name: string, value: int)
      modifies this`globals
      ensures globals == old(globals)[(obj, name) := value]
    {
      globals := globals[(obj, name) := value];
    }

    /** A new object gets the next id and is locked exclusively: its lock is new, so the
        request is always granted. */
    method MakeObject(tx: StoreTx) returns (obj: nat)
      requires Valid() && Running(tx)
      modifies this`allocId, locks, locks.matrix, locks.txByCid, locks.blockedLock, tx
      ensures Valid() && obj == old(allocId) && allocId == obj + 1
      ensures locks.queues == old(locks.queues)[obj := [Group(Exclusive, [tx.cid])]]
      ensures tx.locked == [obj] + old(tx.locked)
    {
      obj := allocId;
      allocId := allocId + 1;
      var code, victims := Lock(tx, obj, Exclusive);
      Remember(tx, obj);
    }

    /** Unlock everything in the list, newest first, and give the cid back. */
    method FinishTx(tx: StoreTx)
      requires Valid() && Running(tx) && Listed(locks.queues, tx.locked, tx.cid)
      modifies this`sids, locks, locks.matrix, cidUsed, tx
      ensures Valid() && tx.locked == [] && sids == old(sids) - {tx.cid}
      ensures locks.queues == ReleaseList(old(locks.queues), old(tx.locked), tx.cid)
      ensures forall l :: l in locks.queues ==> tx.cid !in Members(locks.queues[l])
    {
      ghost var t, ls := locks.queues, tx.locked;
      while tx.locked != []
        invariant Valid() && Running(tx) && Listed(locks.queues, tx.locked, tx.cid) && sids == old(sids)
        invariant ReleaseList(t, ls, tx.cid) == ReleaseList(locks.queues, tx.locked, tx.cid)
        decreases |tx.locked|
      {
        UnlockNewest(tx);
      }
      forall l | l in locks.queues ensures tx.cid !in Members(locks.queues[l]) {
      }
      cidUsed[tx.cid] := false;
      sids := sids - {tx.cid};
    }

    method UnlockNewest(tx: StoreTx)
      requires Valid() && Running(tx) && Listed(locks.queues, tx.locked, tx.cid) && tx.locked != []
      modifies locks, locks.matrix, tx
      ensures Valid() && Running(tx) && Listed(locks.queues, tx.locked, tx.cid)
      ensures tx.locked == old(tx.locked)[1..]
      ensures locks.queues == ReleaseAt(old(locks.queues), old(tx.locked)[0], tx.cid)
    {
      ghost var t := locks.queues;
      var obj := tx.locked[0];
      ReleaseListed(t, tx.locked, tx.cid);
      UnlockPlaces(t, obj, tx.cid);
      locks.LockUnlock(obj, tx.cid, sids);
      tx.locked := tx.locked[1..];
    }

    /** When no transaction is live, the whole matrix is clear: what freeing the locks
        asserts. */
    lemma QuietMatrix()
      requires Valid() && sids == map[]
      ensures forall i :: 0 <= i < locks.matrix.Length ==> !locks.matrix[i]
    {
      NobodyWaits();
      AllClear(locks.matrix[..], maxTasks);
    }

    lemma NobodyWaits()
      requires Valid() && sids == map[]
      ensures Edges(locks.queues) == {}
    {
      forall l | l in locks.queues ensures Waiting(locks.queues[l]) == {} {
        assert forall c :: c in Members(locks.queues[l]) ==> c in sids;
      }
    }
  }

  /** What a lock call returns, by the answer to its request. */
  function CodeOf(a: Answer, c: nat, victims: seq<nat>): LockCode {
    match a
    case Taken => LockTaken
    case Stale => LockStale
    case Wait => if c in victims then LockDeadlock else LockWaiting
  }

  /** A request that waits is followed by the faults it causes, any other by none. */
  ghost predicate FaultsOf(t: Table, obj: nat, mode: Mode, c: nat, sids: map<nat, nat>, victims: seq<nat>) {
    var (t1, a) := RequestAt(t, obj, mode, c);
    if a == Wait then FaultRun(t1, c, sids, victims) else victims == []
  }

  /** A lock call queues nobody but the caller, and on no other lock. */
  lemma LockPlaces(t: Table, obj: nat, mode: Mode, c: nat, sids: map<nat, nat>, victims: seq<nat>)
    requires TableOk(t) && !Blocked(t, c)
    requires FaultsOf(t, obj, mode, c, sids, victims)
    ensures var t' := WithdrawAll(RequestAt(t, obj, mode, c).0, victims);
      && t'.Keys <= t.Keys + {obj}
      && forall l, x :: l in t' && x in Members(t'[l]) ==> x == c || (l in t && x in Members(t[l]))
  {
    var t1 := RequestAt(t, obj, mode, c).0;
    WithdrawAllKeys(t1, victims);
    assert c !in Waiting(At(t, obj)) && WellFormed(At(t, obj));
    RequestEffect(At(t, obj), mode, c);
    RequestShaped(t, obj, mode, c);
    forall l, x | l in t1 && x in Members(WithdrawAll(t1, victims)[l])
      ensures x == c || (l in t && x in Members(t[l]))
    {
      if victims != [] {
        FaultsTouch(t1, c, sids, victims, l);
      }
      assert x in Members(t1[l]);
    }
  }

  lemma UnlockPlaces(t: Table, obj: nat, c: nat)
    requires TableOk(t) && !Blocked(t, c)
    ensures var t' := ReleaseAt(t, obj, c);
      t'.Keys == t.Keys && forall l, x :: l in t' && x in Members(t'[l]) ==> x in Members(t[l])
  {
    var t' := ReleaseAt(t, obj, c);
    assert Released(t, t', c);
    forall l | l in t' ensures Members(t'[l]) <= Members(t[l]) {
      ReleasedQueue(t, t', c, l);
    }
  }

  // ----- the methods are the steps of the transaction system -----

  /** The transaction system asks for no more than the methods do, and gives them
      what they ask for: a transaction outside a lock call is not blocked, and its
      list covers what it holds. */
  lemma IdleIsRunning(s: Sys.Sys, c: nat)
    requires Sys.LockInv(s) && Sys.Idles(s, c)
    ensures !Blocked(s.table, c) && Listed(s.table, s.txs[c].locked, c)
  {
    IdleNotBlocked(s, c);
    assert Sys.RecordOk(s.table, s.objects, s.hist, c, s.txs[c]);
  }

  lemma GetIsStep(s: Sys.Sys, c: nat, obj: nat, victims: seq<nat>)
    requires Sys.Ready(s, c) && obj in s.objects
    requires FaultsOf(s.table, obj, Shared, c, Sys.Sids(s), victims)
    ensures Sys.Enabled(s, Sys.Get(c, obj, victims))
    ensures var s' := Sys.Apply(s, Sys.Get(c, obj, victims));
      var (t, a) := RequestAt(s.table, obj, Shared, c);
      && s'.table == WithdrawAll(t, victims) && s'.globals == s.globals
      && s'.txs[c].locked == (if CodeOf(a, c, victims) == LockTaken then [obj] + s.txs[c].locked else s.txs[c].locked)
      && (s'.txs[c].pending == Sys.Getting(obj) <==> CodeOf(a, c, victims) == LockWaiting)
      && (s'.txs[c].phase == Sys.Doomed <==> CodeOf(a, c, victims) == LockDeadlock)
  {
    SharedNeverStale(At(s.table, obj), c);
    assert RequestAt(s.table, obj, Shared, c).1 != Stale;
    hide FaultRun, RequestAt;
  }

  lemma SetIsStep(s: Sys.Sys, c: nat, obj: nat, name: string, value: int, victims: seq<nat>)
    requires Sys.Ready(s, c) && obj in s.txs[c].locked
    requires FaultsOf(s.table, obj, Exclusive, c, Sys.Sids(s), victims)
    ensures Sys.Enabled(s, Sys.Set(c, obj, name, value, victims))
    ensures var s' := Sys.Apply(s, Sys.Set(c, obj, name, value, victims));
      var (t, a) := RequestAt(s.table, obj, Exclusive, c);
      && s'.table == WithdrawAll(t, victims)
      && s'.globals == (if CodeOf(a, c, victims) == LockTaken then s.globals[(obj, name) := value] else s.globals)
      && s'.txs[c].locked == s.txs[c].locked
      && (s'.txs[c].pending == Sys.Setting(obj, name, value) <==> CodeOf(a, c, victims) == LockWaiting)
      && (s'.txs[c].phase == Sys.Doomed <==> CodeOf(a, c, victims) in {LockDeadlock, LockStale})
  {
    StaleUnmoved(s.table, obj, c);
    hide FaultRun, RequestAt;
  }

  /** Finishing in the transaction system: unlock while the list is not empty, then
      retire. */
  function Finished(s: Sys.Sys, c: nat): Sys.Sys
    requires Sys.Idles(s, c)
    decreases |s.txs[c].locked|
  {
    if s.txs[c].locked == [] then Sys.Apply(s, Sys.Retire(c))
    else Finished(Sys.Apply(s, Sys.Unlock(c)), c)
  }

  /** Finishing leaves the locks of the list, in its order, and takes its place in the
      serial order unless it had one. */
  lemma {:induction false} FinishIsSteps(s: Sys.Sys, c: nat)
    requires Sys.LockInv(s) && Sys.Idles(s, c)
    ensures var s' := Finished(s, c);
      && Sys.LockInv(s') && s'.txs == s.txs - {c} && s'.globals == s.globals
      && s'.table == ReleaseList(s.table, s.txs[c].locked, c)
      && s'.order == Sys.Leave(s, c)
    decreases |s.txs[c].locked|
  {
    if s.txs[c].locked == [] {
      StepKeeps(s, Sys.Retire(c));
    } else {
      StepKeeps(s, Sys.Unlock(c));
      var s1 := Sys.Apply(s, Sys.Unlock(c));
      assert s1.txs - {c} == s.txs - {c};
      FinishIsSteps(s1, c);
    }
  }
}

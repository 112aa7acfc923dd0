/** Every step of the transaction system keeps its invariant. */
module TxInvariant {
  import opened LockQueue
  import opened WaitForGraph
  import opened LockTable
  import opened TxSystem

  lemma IdleNotBlocked(s: Sys, c: nat)
    requires LockInv(s) && Idles(s, c)
    ensures !Blocked(s.table, c)
  {
    assert RecordOk(s.table, s.objects, s.hist, c, s.txs[c]);
  }

  /** Replacing one queue disturbs nobody else. */
  lemma PutQueue(t: Table, l: nat, q: Queue, out: set<nat>)
    requires Undisturbed(At(t, l), q, out)
    ensures forall m :: m in t[l := q] ==> Undisturbed(At(t, m), At(t[l := q], m), out)
  {
    forall m | m in t[l := q] ensures Undisturbed(At(t, m), At(t[l := q], m), out) {
      if m != l {
        forall x | x !in out ensures Kept(t[m], t[m], x) {
          WaitingAs(t[m], x);
        }
      }
    }
  }

  // ----- a granted request -----

  lemma TakenMoves(t: Table, l: nat, mode: Mode, c: nat)
    requires TableOk(t) && !Blocked(t, c) && RequestAt(t, l, mode, c).1 == Taken
    ensures var t' := RequestAt(t, l, mode, c).0;
      && TableOk(t') && t'.Keys == t.Keys + {l} && !Blocked(t', c)
      && (forall m :: m in t' ==> Undisturbed(At(t, m), At(t', m), {c}))
      && (forall m :: m != l ==> At(t', m) == At(t, m))
      && Holding(At(t', l)) == Holding(At(t, l)) + {c}
      && Waiting(At(t', l)) == Waiting(At(t, l))
      && (HeldExclusive(At(t, l)) || mode == Exclusive ==> HeldExclusive(At(t', l)))
  {
    var q := At(t, l);
    assert c !in Waiting(q);
    RequestTable(t, l, mode, c);
    RequestEffect(q, mode, c);
    RequestUndisturbed(q, mode, c);
    PutQueue(t, l, Request(q, mode, c).0, {c});
  }

  /** The requester of a granted request: its list grows, or it held the lock
      already. */
  lemma HoldKeeps(t: Table, t': Table, objects: set<nat>, objects': set<nat>, l: nat, c: nat, tx: Tx,
                  hist: seq<(nat, Op)>)
    requires RecordOk(t, objects, hist, c, tx) && tx.pending == Idle && tx.phase == Active
    requires objects <= objects' && l in objects' && !Blocked(t', c) && t'.Keys == t.Keys + {l}
    requires forall m :: m != l ==> At(t', m) == At(t, m)
    requires Holding(At(t', l)) == Holding(At(t, l)) + {c}
    requires HeldExclusive(At(t, l)) ==> HeldExclusive(At(t', l))
    ensures RecordOk(t', objects', hist, c, Hold(tx, l))
    ensures l in tx.locked ==> RecordOk(t', objects', hist, c, tx)
  {
    forall m | m in t' && c in Holding(t'[m]) ensures m == l || m in tx.locked {
      assert m != l ==> At(t', m) == At(t, m);
    }
    forall m | m in Hold(tx, l).locked ensures c in Holding(At(t', m)) && m in objects' {
      if m != l {
        assert m in tx.locked;
      }
    }
  }

  // ----- a request that waits -----

  /** A waiting request and its faults, seen from one lock. */
  lemma WaitMovesAt(t: Table, l: nat, mode: Mode, c: nat, sids: map<nat, nat>, victims: seq<nat>, m: nat)
    requires Shaped(t) && Shaped(RequestAt(t, l, mode, c).0) && c !in Waiting(At(t, l))
    requires RequestAt(t, l, mode, c).1 == Wait
    requires FaultRun(RequestAt(t, l, mode, c).0, c, sids, victims)
    ensures var q, q' := At(t, m), At(WithdrawAll(RequestAt(t, l, mode, c).0, victims), m);
      && Undisturbed(q, q', {c} + SetOf(victims))
      && Holding(q') == Holding(q)
      && HeldExclusive(q') == HeldExclusive(q)
      && Waiting(q') == Waiting(q) + (if m == l then {c} else {}) - SetOf(victims)
      && (m == l && c !in victims ==> WaitsAs(q', c, mode))
  {
    var t1 := RequestAt(t, l, mode, c).0;
    var t' := WithdrawAll(t1, victims);
    var q := At(t, l);
    RequestEffect(q, mode, c);
    RequestUndisturbed(q, mode, c);
    PutQueue(t, l, Request(q, mode, c).0, {c});
    WithdrawAllKeys(t1, victims);
    if m in t1 {
      FaultsTouch(t1, c, sids, victims, m);
      LeftUndisturbed(t1[m], t'[m], SetOf(victims));
      UndisturbedTwice(At(t, m), t1[m], t'[m], {c}, SetOf(victims));
    }
  }

  /** The table after a waiting request and its faults is in order, and the victims
      wait nowhere. */
  lemma WaitMoves(t: Table, l: nat, mode: Mode, c: nat, sids: map<nat, nat>, victims: seq<nat>)
    requires TableOk(t) && !Blocked(t, c) && RequestAt(t, l, mode, c).1 == Wait
    requires FaultRun(RequestAt(t, l, mode, c).0, c, sids, victims)
    ensures var t' := WithdrawAll(RequestAt(t, l, mode, c).0, victims);
      && TableOk(t') && t'.Keys == t.Keys && l in t
      && (forall v :: v in victims ==> !Blocked(t', v) && v in sids && (v == c || Blocked(t, v)))
  {
    var t1 := RequestAt(t, l, mode, c).0;
    assert c !in Waiting(At(t, l)) && WellFormed(At(t, l));
    RequestTable(t, l, mode, c);
    RequestEffect(At(t, l), mode, c);
    FaultsRestore(t1, c, sids, victims);
    WithdrawAllKeys(t1, victims);
    hide Shaped, TableOk, FaultRun, WithdrawAll, Edges, RequestAt, Blocked;
    forall v | v in victims ensures v == c || Blocked(t, v) {
      BlockedBefore(t, l, mode, c, v);
    }
  }

  lemma BlockedBefore(t: Table, l: nat, mode: Mode, c: nat, v: nat)
    requires WellFormed(At(t, l)) && c !in Waiting(At(t, l))
    requires Blocked(RequestAt(t, l, mode, c).0, v)
    ensures v == c || Blocked(t, v)
  {
    RequestEffect(At(t, l), mode, c);
    var t1 := RequestAt(t, l, mode, c).0;
    var m :| m in t1 && v in Waiting(t1[m]);
    assert v == c || v in Waiting(At(t, m));
  }

  /** Victims keep what they hold; the requester, unless it is a victim, waits for
      this lock and no other. */
  lemma WaitEverywhere(t: Table, l: nat, mode: Mode, c: nat, sids: map<nat, nat>, victims: seq<nat>)
    requires TableOk(t) && !Blocked(t, c) && RequestAt(t, l, mode, c).1 == Wait
    requires FaultRun(RequestAt(t, l, mode, c).0, c, sids, victims)
    ensures var t' := WithdrawAll(RequestAt(t, l, mode, c).0, victims);
      && (forall m :: Undisturbed(At(t, m), At(t', m), {c} + SetOf(victims)))
      && (forall m :: Holding(At(t', m)) == Holding(At(t, m)))
      && (forall m :: HeldExclusive(At(t', m)) == HeldExclusive(At(t, m)))
      && (c !in victims ==> c in Waiting(At(t', l)) && WaitsAs(At(t', l), c, mode))
      && (forall m :: c in Waiting(At(t', m)) ==> m == l)
  {
    var t' := WithdrawAll(RequestAt(t, l, mode, c).0, victims);
    assert forall m :: c !in Waiting(At(t, m));
    RequestShaped(t, l, mode, c);
    hide Undisturbed, FaultRun, Shaped, RequestAt, Waiting, Holding, HeldExclusive, WaitsAs,
         WithdrawAll, Blocked, Acyclic;
    forall m
      ensures Undisturbed(At(t, m), At(t', m), {c} + SetOf(victims))
      ensures Holding(At(t', m)) == Holding(At(t, m))
      ensures HeldExclusive(At(t', m)) == HeldExclusive(At(t, m))
      ensures m == l && c !in victims ==> c in Waiting(At(t', m)) && WaitsAs(At(t', m), c, mode)
      ensures c in Waiting(At(t', m)) ==> m == l
    {
      WaitMovesAt(t, l, mode, c, sids, victims, m);
    }
  }

  lemma UndisturbedTwice(q: Queue, q1: Queue, q2: Queue, vs: set<nat>, ws: set<nat>)
    requires Undisturbed(q, q1, vs) && Undisturbed(q1, q2, ws)
    ensures Undisturbed(q, q2, vs + ws)
  {
    forall x | x !in vs + ws ensures Kept(q, q2, x) {
      assert Kept(q, q1, x) && Kept(q1, q2, x);
      WaitingAs(q1, x);
    }
  }

  /** Holding on to its locks and waiting nowhere, a victim becomes doomed. Besides
      the requester root, only blocked transactions are victims. */
  lemma VictimKeeps(t: Table, t': Table, objects: set<nat>, c: nat, tx: Tx, hist: seq<(nat, Op)>, root: nat)
    requires TableOk(t) && RecordOk(t, objects, hist, c, tx)
    requires if c == root then tx.phase == Active && tx.pending == Idle else Blocked(t, c)
    requires !Blocked(t', c) && t'.Keys == t.Keys
    requires forall m :: Holding(At(t', m)) == Holding(At(t, m))
    requires forall m :: HeldExclusive(At(t', m)) == HeldExclusive(At(t, m))
    ensures RecordOk(t', objects, hist, c, tx.(phase := Doomed, pending := Idle))
  {
    if c != root && tx.pending.Getting? {
      GetterHoldsNot(t, objects, c, tx);
    }
    forall l | l in t' && c in Holding(t'[l]) ensures l in tx.locked {
      assert c in Holding(At(t, l));
    }
    assert Covered(t, c, tx, hist) && tx.phase == Active;
  }

  /** A transaction blocked while getting an object does not hold it yet. */
  lemma GetterHoldsNot(t: Table, objects: set<nat>, c: nat, tx: Tx)
    requires TableOk(t) && TxOk(t, objects, c, tx) && Blocked(t, c) && tx.pending.Getting?
    ensures c !in Holding(At(t, tx.pending.obj))
  {
    var l :| l in t && c in Waiting(t[l]);
    var i :| 1 <= i < |t[l]| && c in t[l][i].entries && t[l][i].mode == Shared;
  }

  lemma ParkedOk(t: Table, t': Table, objects: set<nat>, hist: seq<(nat, Op)>, c: nat, tx: Tx, pending: Pending)
    requires RecordOk(t, objects, hist, c, tx) && tx.phase == Active && tx.pending == Idle
    requires pending != Idle && pending.obj in objects && pending.obj in t && t'.Keys == t.Keys
    requires pending.Setting? ==> pending.obj in tx.locked
    requires forall m :: Holding(At(t', m)) == Holding(At(t, m))
    requires forall m :: HeldExclusive(At(t', m)) == HeldExclusive(At(t, m))
    requires c in Waiting(At(t', pending.obj)) && WaitsAs(At(t', pending.obj), c, PendingMode(pending))
    requires forall m :: c in Waiting(At(t', m)) ==> m == pending.obj
    ensures RecordOk(t', objects, hist, c, tx.(pending := pending))
  {
    hide Holding, Waiting, HeldExclusive, WaitsAs;
    forall l | l in t' && c in Waiting(t'[l]) ensures l == pending.obj {
      assert c in Waiting(At(t', l));
    }
    forall l | l in t' && c in Holding(t'[l]) ensures l in tx.locked {
      assert c in Holding(At(t, l));
    }
  }

  lemma UndisturbedMember(q: Queue, q': Queue, out: set<nat>, x: nat)
    requires Undisturbed(q, q', out) && x !in out && x in Members(q')
    ensures x in Members(q)
  {
    assert Kept(q, q', x);
  }

  lemma PlacesKeep(s: Sys, s': Sys, out: set<nat>, l: nat)
    requires Places(s) && out <= s'.txs.Keys && s.txs.Keys <= s'.txs.Keys
    requires s'.table.Keys <= s.table.Keys + {l} && l in s'.objects
    requires forall m :: m in s'.table ==> Undisturbed(At(s.table, m), At(s'.table, m), out)
    requires s.objects <= s'.objects && forall m :: m in s'.objects ==> m < s'.allocId
    ensures Places(s')
  {
    forall m, x | m in s'.table && x in Members(s'.table[m]) ensures x in s'.txs {
      if x !in out {
        UndisturbedMember(At(s.table, m), At(s'.table, m), out, x);
      }
    }
  }

  lemma LockedKnown(s: Sys, c: nat, obj: nat)
    requires LockInv(s) && c in s.txs && obj in s.txs[c].locked
    ensures obj in s.objects
  {
    assert RecordOk(s.table, s.objects, s.hist, c, s.txs[c]);
  }

  // ----- sids and cids -----

  lemma IdentitiesKeep(s: Sys, a: Action)
    requires Identities(s) && Enabled(s, a)
    ensures Identities(Apply(s, a))
  {
    var s' := Apply(s, a);
    HistSids(s, a);
    SameLimits(s, a);
    if a.Start? {
      hide Faults, RequestAt, Requested;
      assert s'.txs == s.txs[a.c := Tx(s.nextSid, [], Active, Idle)];
    } else {
      hide Apply, Enabled;
      forall c | c in s'.txs ensures c in s.txs && s'.txs[c].sid == s.txs[c].sid {
        SidStays(s, a, c);
      }
    }
  }

  lemma SidStays(s: Sys, a: Action, c: nat)
    requires Enabled(s, a) && !a.Start? && c in Apply(s, a).txs
    ensures c in s.txs && Apply(s, a).txs[c].sid == s.txs[c].sid
  {
    hide Faults, RequestAt, Requested;
  }

  lemma SameLimits(s: Sys, a: Action)
    requires Enabled(s, a)
    ensures Apply(s, a).maxTasks == s.maxTasks
    ensures Apply(s, a).nextSid == if a.Start? then s.nextSid + 1 else s.nextSid
  {
    hide Faults, RequestAt, Requested, Doom;
  }

  lemma HistSids(s: Sys, a: Action)
    requires Identities(s) && Enabled(s, a)
    ensures forall i :: 0 <= i < |Apply(s, a).hist| ==> Apply(s, a).hist[i].0 < s.nextSid
  {
    hide Faults, RequestAt, Requested, Doom;
  }

  // ----- one lemma per step -----

  ghost predicate TablesOk(s: Sys) {
    TableOk(s.table) && Places(s) && Records(s)
  }

  lemma ParkKeeps(s: Sys, c: nat, obj: nat, mode: Mode, pending: Pending, victims: seq<nat>)
    requires LockInv(s) && Ready(s, c) && obj in s.objects && Faults(s, c, obj, mode, victims)
    requires RequestAt(s.table, obj, mode, c).1 == Wait
    requires pending != Idle && pending.obj == obj && PendingMode(pending) == mode
    requires pending.Setting? ==> obj in s.txs[c].locked
    ensures TablesOk(Park(s, c, obj, mode, pending, victims))
  {
    hide RecordOk, Undisturbed, TableOk, FaultRun, RequestAt, Blocked, Identities;
    var s' := Park(s, c, obj, mode, pending, victims);
    IdleNotBlocked(s, c);
    WaitMoves(s.table, obj, mode, c, Sids(s), victims);
    WaitEverywhere(s.table, obj, mode, c, Sids(s), victims);
    var out := {c} + SetOf(victims);
    assert Records(s') by {
      forall d | d in s'.txs ensures RecordOk(s'.table, s'.objects, s'.hist, d, s'.txs[d]) {
        if d in victims {
          VictimKeeps(s.table, s'.table, s.objects, d, s.txs[d], s.hist, c);
        } else if d == c {
          ParkedOk(s.table, s'.table, s.objects, s.hist, c, s.txs[c], pending);
        } else {
          OthersKeep(s.table, s'.table, s.objects, s'.objects, s.hist, d, s.txs[d], out);
        }
      }
    }
    PlacesKeep(s, s', out, obj);
  }

  /** A request granted at once. */
  lemma GrantKeeps(s: Sys, c: nat, obj: nat, mode: Mode, objects': set<nat>, allocId': nat)
    requires LockInv(s) && Ready(s, c) && s.objects <= objects' && obj in objects'
    requires RequestAt(s.table, obj, mode, c).1 == Taken
    requires forall m :: m in objects' ==> m < allocId'
    ensures var s1 := s.(table := RequestAt(s.table, obj, mode, c).0, objects := objects', allocId := allocId');
      && TablesOk(s1.(txs := s.txs[c := Hold(s.txs[c], obj)]))
      && (obj in s.txs[c].locked ==> TablesOk(s1))
  {
    hide RecordOk, Undisturbed, TableOk, RequestAt, Blocked, Identities;
    var t' := RequestAt(s.table, obj, mode, c).0;
    IdleNotBlocked(s, c);
    TakenMoves(s.table, obj, mode, c);
    HoldKeeps(s.table, t', s.objects, objects', obj, c, s.txs[c], s.hist);
    forall d | d in s.txs && d != c ensures RecordOk(t', objects', s.hist, d, s.txs[d]) {
      OthersKeep(s.table, t', s.objects, objects', s.hist, d, s.txs[d], {c});
    }
    PlacesKeep(s, s.(table := t', objects := objects', allocId := allocId'), {c}, obj);
  }

  lemma SharedNeverStale(q: Queue, c: nat)
    ensures Request(q, Shared, c).1 != Stale
  {
  }

  lemma GetKeeps(s: Sys, a: Action)
    requires LockInv(s) && Enabled(s, a) && a.Get?
    ensures TablesOk(Apply(s, a))
  {
    hide LockInv, TablesOk;
    SharedNeverStale(At(s.table, a.obj), a.c);
    if RequestAt(s.table, a.obj, Shared, a.c).1 == Wait {
      ParkKeeps(s, a.c, a.obj, Shared, Getting(a.obj), a.victims);
    } else {
      KnownObjects(s);
      GrantKeeps(s, a.c, a.obj, Shared, s.objects, s.allocId);
    }
  }

  lemma KnownObjects(s: Sys)
    requires LockInv(s)
    ensures forall m :: m in s.objects ==> m < s.allocId
    ensures At(s.table, s.allocId) == []
  {
  }

  lemma MakeKeeps(s: Sys, a: Action)
    requires LockInv(s) && Enabled(s, a) && a.Make?
    ensures TablesOk(Apply(s, a))
  {
    hide LockInv, TablesOk;
    KnownObjects(s);
    GrantKeeps(s, a.c, s.allocId, Exclusive, s.objects + {s.allocId}, s.allocId + 1);
  }

  /** One more operation in the history, by a transaction that holds the lock it
      needs. */
  lemma Appended(t: Table, objects: set<nat>, hist: seq<(nat, Op)>, c: nat, tx: Tx, e: (nat, Op))
    requires RecordOk(t, objects, hist, c, tx)
    requires tx.sid == e.0 ==> c in Holding(At(t, e.1.key.0)) && (e.1.Write? ==> HeldExclusive(At(t, e.1.key.0)))
    ensures RecordOk(t, objects, hist + [e], c, tx)
  {
  }

  lemma AppendKeeps(s: Sys, c: nat, op: Op)
    requires TablesOk(s) && c in s.txs && Identities(s)
    requires c in Holding(At(s.table, op.key.0)) && (op.Write? ==> HeldExclusive(At(s.table, op.key.0)))
    ensures TablesOk(s.(hist := s.hist + [(s.txs[c].sid, op)]))
  {
    hide RecordOk, TableOk, Holding, HeldExclusive;
    forall d | d in s.txs ensures RecordOk(s.table, s.objects, s.hist + [(s.txs[c].sid, op)], d, s.txs[d]) {
      Appended(s.table, s.objects, s.hist, d, s.txs[d], (s.txs[c].sid, op));
    }
  }

  lemma TablesOkSame(s: Sys, s': Sys)
    requires TablesOk(s)
    requires s'.table == s.table && s'.objects == s.objects && s'.allocId == s.allocId
    requires s'.txs == s.txs && s'.hist == s.hist
    ensures TablesOk(s')
  {
  }

  lemma StoreKeeps(s: Sys, c: nat, key: Key, value: int)
    requires c in s.txs && Identities(s)
    requires TablesOk(s.(txs := s.txs[c := s.txs[c].(pending := Idle)]))
    requires c in Holding(At(s.table, key.0)) && HeldExclusive(At(s.table, key.0))
    ensures TablesOk(Store(s, c, key, value))
  {
    hide TablesOk, Holding, HeldExclusive;
    var s0 := s.(txs := s.txs[c := s.txs[c].(pending := Idle)]);
    AppendKeeps(s0, c, Write(key, value));
    TablesOkSame(s0.(hist := s.hist + [(s.txs[c].sid, Write(key, value))]), Store(s, c, key, value));
  }

  lemma StaleOk(t: Table, objects: set<nat>, hist: seq<(nat, Op)>, c: nat, tx: Tx)
    requires RecordOk(t, objects, hist, c, tx) && tx.phase == Active && tx.pending == Idle
    ensures RecordOk(t, objects, hist, c, tx.(phase := Doomed))
  {
  }

  lemma StaleKeeps(s: Sys, c: nat)
    requires LockInv(s) && Ready(s, c)
    ensures TablesOk(s.(txs := s.txs[c := s.txs[c].(phase := Doomed)], doomed := s.doomed + {s.txs[c].sid}))
  {
    hide RecordOk, TableOk, Identities;
    StaleOk(s.table, s.objects, s.hist, c, s.txs[c]);
  }

  lemma TakenExclusive(s: Sys, c: nat, obj: nat)
    requires LockInv(s) && Ready(s, c) && RequestAt(s.table, obj, Exclusive, c).1 == Taken
    ensures var t' := RequestAt(s.table, obj, Exclusive, c).0;
      c in Holding(At(t', obj)) && HeldExclusive(At(t', obj)) && Identities(s.(table := t'))
  {
    IdleNotBlocked(s, c);
    TakenMoves(s.table, obj, Exclusive, c);
  }

  /** An exclusive request granted at once lets the write happen. */
  lemma WriteKeeps(s: Sys, c: nat, key: Key, value: int)
    requires LockInv(s) && Ready(s, c) && key.0 in s.txs[c].locked
    requires RequestAt(s.table, key.0, Exclusive, c).1 == Taken
    ensures TablesOk(Store(s.(table := RequestAt(s.table, key.0, Exclusive, c).0), c, key, value))
  {
    hide LockInv, TablesOk, RequestAt, Identities, Holding, HeldExclusive;
    LockedKnown(s, c, key.0);
    KnownObjects(s);
    TakenExclusive(s, c, key.0);
    GrantKeeps(s, c, key.0, Exclusive, s.objects, s.allocId);
    var s1 := s.(table := RequestAt(s.table, key.0, Exclusive, c).0);
    assert s1.(txs := s1.txs[c := s1.txs[c].(pending := Idle)]) == s1;
    assert s.(table := s1.table, objects := s.objects, allocId := s.allocId) == s1;
    StoreKeeps(s1, c, key, value);
  }

  lemma SetKeeps(s: Sys, a: Action)
    requires LockInv(s) && Enabled(s, a) && a.Set?
    ensures TablesOk(Apply(s, a))
  {
    hide LockInv, TablesOk, RequestAt, Store;
    LockedKnown(s, a.c, a.obj);
    match RequestAt(s.table, a.obj, Exclusive, a.c).1
    case Wait => ParkKeeps(s, a.c, a.obj, Exclusive, Setting(a.obj, a.name, a.value), a.victims);
    case Stale => StaleKeeps(s, a.c);
    case Taken => WriteKeeps(s, a.c, (a.obj, a.name), a.value);
  }

  lemma HoldsLocked(s: Sys, c: nat, obj: nat)
    requires LockInv(s) && Ready(s, c) && obj in s.txs[c].locked
    ensures c in Holding(At(s.table, obj))
  {
    assert RecordOk(s.table, s.objects, s.hist, c, s.txs[c]);
  }

  lemma LookKeeps(s: Sys, a: Action)
    requires LockInv(s) && Enabled(s, a) && a.Look?
    ensures TablesOk(Apply(s, a))
  {
    hide Identities, TableOk, Places, Records, Holding;
    HoldsLocked(s, a.c, a.obj);
    AppendKeeps(s, a.c, Read((a.obj, a.name), Lookup(s.globals, (a.obj, a.name))));
  }

  /** A granted request is completed. */
  lemma ResumedOk(s: Sys, c: nat)
    requires LockInv(s) && Enabled(s, Resume(c))
    ensures var tx := s.txs[c];
      if tx.pending.Getting? then RecordOk(s.table, s.objects, s.hist, c, Hold(tx, tx.pending.obj))
      else
        && RecordOk(s.table, s.objects, s.hist, c, tx.(pending := Idle))
        && c in Holding(At(s.table, tx.pending.obj)) && HeldExclusive(At(s.table, tx.pending.obj))
  {
    assert RecordOk(s.table, s.objects, s.hist, c, s.txs[c]);
  }

  lemma ResumeGetKeeps(s: Sys, c: nat)
    requires LockInv(s) && Enabled(s, Resume(c)) && s.txs[c].pending.Getting?
    ensures TablesOk(Apply(s, Resume(c)))
  {
    ResumedOk(s, c);
    hide RecordOk, TableOk, Identities, Holding, HeldExclusive, Store;
  }

  lemma ResumeSetKeeps(s: Sys, c: nat)
    requires LockInv(s) && Enabled(s, Resume(c)) && s.txs[c].pending.Setting?
    ensures TablesOk(Apply(s, Resume(c)))
  {
    var tx := s.txs[c];
    ResumedOk(s, c);
    assert TablesOk(s.(txs := s.txs[c := tx.(pending := Idle)])) by {
      hide RecordOk, TableOk, Identities, Holding, HeldExclusive;
    }
    hide TablesOk, LockInv, Store, Identities, Holding, HeldExclusive;
    StoreKeeps(s, c, (tx.pending.obj, tx.pending.name), tx.pending.value);
  }

  lemma StartedOk(s: Sys, c: nat)
    requires LockInv(s) && c !in s.txs
    ensures RecordOk(s.table, s.objects, s.hist, c, Tx(s.nextSid, [], Active, Idle))
  {
    forall l | l in s.table ensures c !in Members(s.table[l]) {
    }
  }

  lemma StartKeeps(s: Sys, a: Action)
    requires LockInv(s) && Enabled(s, a) && a.Start?
    ensures TablesOk(Apply(s, a))
  {
    StartedOk(s, a.c);
    hide RecordOk, TableOk, Identities, Members;
  }

  lemma ReleaseUndisturbedAt(t: Table, l: nat, c: nat, m: nat)
    requires Shaped(t) && !Blocked(t, c)
    ensures Undisturbed(At(t, m), At(ReleaseAt(t, l, c), m), {c})
  {
    if l in t {
      ReleaseUndisturbed(t[l], c);
      PutQueue(t, l, Release(t[l], c), {c});
    }
    forall x ensures Kept(At(t, m), At(t, m), x) {
      WaitingAs(At(t, m), x);
    }
  }

  /** The leaver holds nothing outside the rest of its list. */
  lemma LeaverOk(s: Sys, c: nat)
    requires LockInv(s) && Enabled(s, Unlock(c))
    ensures var s' := Apply(s, Unlock(c));
      RecordOk(s'.table, s'.objects, s'.hist, c, s'.txs[c])
  {
    var s' := Apply(s, Unlock(c));
    var tx := s.txs[c];
    var l := tx.locked[0];
    IdleNotBlocked(s, c);
    assert RecordOk(s.table, s.objects, s.hist, c, tx);
    forall m | m in s'.table
      ensures c !in Waiting(s'.table[m])
      ensures c in Holding(s'.table[m]) ==> m in tx.locked[1..]
    {
      if m == l {
        ReleaseEffect(s.table[l], c);
      } else {
        assert m in tx.locked ==> m in tx.locked[1..];
      }
    }
  }

  lemma UnlockMoves(s: Sys, c: nat)
    requires LockInv(s) && Enabled(s, Unlock(c))
    ensures var t, t' := s.table, Apply(s, Unlock(c)).table;
      TableOk(t') && t'.Keys == t.Keys && forall m :: Undisturbed(At(t, m), At(t', m), {c})
  {
    var t, t' := s.table, Apply(s, Unlock(c)).table;
    IdleNotBlocked(s, c);
    assert Released(t, t', c);
    ReleaseTable(t, t', c);
    forall m ensures Undisturbed(At(t, m), At(t', m), {c}) {
      ReleaseUndisturbedAt(t, s.txs[c].locked[0], c, m);
    }
  }

  lemma UnlockKeeps(s: Sys, a: Action)
    requires LockInv(s) && Enabled(s, a) && a.Unlock?
    ensures TablesOk(Apply(s, a))
  {
    var c := a.c;
    var s' := Apply(s, a);
    UnlockMoves(s, c);
    LeaverOk(s, c);
    LockedKnown(s, c, s.txs[c].locked[0]);
    hide RecordOk, Undisturbed, TableOk, Release, Identities;
    assert Records(s') by {
      forall d | d in s'.txs ensures RecordOk(s'.table, s'.objects, s'.hist, d, s'.txs[d]) {
        if d != c {
          OthersKeep(s.table, s'.table, s.objects, s'.objects, s.hist, d, s.txs[d], {c});
        }
      }
    }
    PlacesKeep(s, s', {c}, s.txs[c].locked[0]);
  }

  /** After finish the transaction is in no wait group: its list covered every lock.
      So its row and column of the wait-for matrix are empty when its cid is reused. */
  lemma RetiredIsNowhere(s: Sys, c: nat)
    requires LockInv(s) && Enabled(s, Retire(c))
    ensures forall l :: l in s.table ==> c !in Members(s.table[l])
    ensures forall x: nat :: (c, x) !in Edges(s.table) && (x, c) !in Edges(s.table)
  {
    assert RecordOk(s.table, s.objects, s.hist, c, s.txs[c]);
    IdleNotBlocked(s, c);
  }

  lemma RetireKeeps(s: Sys, a: Action)
    requires LockInv(s) && Enabled(s, a) && a.Retire?
    ensures TablesOk(Apply(s, a))
  {
    RetiredIsNowhere(s, a.c);
    hide RecordOk, TableOk, Identities, Members, Edges;
  }

  /** Every step keeps the invariant: well-formed queues, at most one blocked request
      a transaction, no deadlock, distinct live cids and sids, and for every
      transaction a locked list that covers what it holds. */
  lemma StepKeeps(s: Sys, a: Action)
    requires LockInv(s) && Enabled(s, a)
    ensures LockInv(Apply(s, a))
  {
    IdentitiesKeep(s, a);
    hide Apply, Identities, TableOk, Places, Records;
    match a
    case Start(_) => StartKeeps(s, a);
    case Get(_, _, _) => GetKeeps(s, a);
    case Set(_, _, _, _, _) => SetKeeps(s, a);
    case Make(_) => MakeKeeps(s, a);
    case Look(_, _, _) => LookKeeps(s, a);
    case Resume(c) => if s.txs[c].pending.Getting? { ResumeGetKeeps(s, c); } else { ResumeSetKeeps(s, c); }
    case Unlock(_) => UnlockKeeps(s, a);
    case Retire(_) => RetireKeeps(s, a);
  }
}

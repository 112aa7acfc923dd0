/** The central promise: any interleaving of transactions behaves like a serial run,
    in the order of their first unlock. */
module Serializability {
  import opened Wrappers
  import opened LockQueue
  import opened LockTable
  import opened TxSystem
  import opened TxInvariant
  import opened TxRuns
  import opened Serial

  /** The transactions that have not begun to unlock. */
  function ActiveSids(s: Sys): set<nat> {
    set c | c in s.txs && s.txs[c].phase != Releasing :: s.txs[c].sid
  }

  /** pi lists every member of a, once. */
  ghost predicate Lists(pi: seq<nat>, a: set<nat>) {
    && (forall i, j :: 0 <= i < j < |pi| ==> pi[i] != pi[j])
    && (forall x :: x in pi <==> x in a)
  }

  /** The order is without repetition, holds no active transaction, and together with
      the active ones accounts for every operation. */
  ghost predicate OrderOk(s: Sys) {
    && (forall i, j :: 0 <= i < j < |s.order| ==> s.order[i] != s.order[j])
    && (forall x :: x in s.order ==> x < s.nextSid && x !in ActiveSids(s))
    && (forall i :: 0 <= i < |s.hist| ==> s.hist[i].0 in s.order || s.hist[i].0 in ActiveSids(s))
    && (forall x :: x in s.doomed ==> x in s.order || x in ActiveSids(s))
  }

  /** Whatever the order in which the active transactions are put behind the others,
      replaying everybody's operations serially reads the recorded values and ends in
      the present globals. */
  ghost predicate SerialInv(s: Sys, init: Globals) {
    forall pi :: Lists(pi, ActiveSids(s)) ==> Replay(init, Serialize(s.hist, s.order + pi)) == Some(s.globals)
  }

  // ----- one more operation -----

  /** Operations of other active transactions do not conflict with what c may do now:
      their locks exclude it. */
  lemma OthersIndependent(s: Sys, c: nat, op: Op, i: nat)
    requires TableOk(s.table) && Identities(s) && Records(s) && c in s.txs && i < |s.hist|
    requires c in Holding(At(s.table, op.key.0)) && (op.Write? ==> HeldExclusive(At(s.table, op.key.0)))
    requires s.hist[i].0 in ActiveSids(s) && s.hist[i].0 != s.txs[c].sid
    ensures Independent(op, s.hist[i].1)
  {
    var d :| d in s.txs && s.txs[d].phase != Releasing && s.txs[d].sid == s.hist[i].0;
    assert RecordOk(s.table, s.objects, s.hist, d, s.txs[d]);
    ExclusiveAlone(s.table, op.key.0, c);
  }

  lemma BehindIndependent(s: Sys, c: nat, op: Op, behind: seq<nat>)
    requires TableOk(s.table) && Identities(s) && Records(s) && c in s.txs
    requires c in Holding(At(s.table, op.key.0)) && (op.Write? ==> HeldExclusive(At(s.table, op.key.0)))
    requires forall x :: x in behind ==> x in ActiveSids(s) && x != s.txs[c].sid
    ensures var ys := Serialize(s.hist, behind); forall j :: 0 <= j < |ys| ==> Independent(op, ys[j])
  {
    hide TableOk, Records, Identities, Holding, HeldExclusive, Serialize, Independent;
    var ys := Serialize(s.hist, behind);
    forall j | 0 <= j < |ys| ensures Independent(op, ys[j]) {
      SerializeFrom(s.hist, behind, j);
      var i :| 0 <= i < |s.hist| && s.hist[i].0 in behind && s.hist[i].1 == ys[j];
      OthersIndependent(s, c, op, i);
    }
  }

  lemma SplitAt(order: seq<nat>, pi: seq<nat>, a: set<nat>, sid: nat) returns (before: seq<nat>, behind: seq<nat>)
    requires Lists(pi, a) && sid in a && sid !in order
    ensures order + pi == before + [sid] + behind && sid !in before && sid !in behind
    ensures forall x :: x in behind ==> x in a
  {
    assert sid in pi;
    var k :| 0 <= k < |pi| && pi[k] == sid;
    before, behind := order + pi[..k], pi[k + 1..];
    forall x | x in behind ensures x in a {
      assert x in pi;
    }
  }

  lemma OpInPlace(s: Sys, init: Globals, c: nat, op: Op, pi: seq<nat>)
    requires TableOk(s.table) && Identities(s) && Records(s) && OrderOk(s) && SerialInv(s, init)
    requires c in s.txs && s.txs[c].phase != Releasing && Lists(pi, ActiveSids(s))
    requires c in Holding(At(s.table, op.key.0)) && (op.Write? ==> HeldExclusive(At(s.table, op.key.0)))
    ensures Replay(init, Serialize(s.hist + [(s.txs[c].sid, op)], s.order + pi)) == DoOp(s.globals, op)
  {
    var sid := s.txs[c].sid;
    IsActive(s, c);
    assert sid !in s.order && Replay(init, Serialize(s.hist, s.order + pi)) == Some(s.globals);
    hide Serialize, Replay, TableOk, Records, Holding, HeldExclusive, Identities, OrderOk, SerialInv, Lists, ActiveSids;
    var before, behind := SplitAt(s.order, pi, ActiveSids(s), sid);
    BehindIndependent(s, c, op, behind);
    AppendInPlace(init, s.hist, before, sid, behind, op, s.globals);
  }

  /** The next operation of a transaction that holds the lock it needs keeps the run
      serializable. */
  lemma OpKeepsSerial(s: Sys, s': Sys, init: Globals, c: nat, op: Op)
    requires TableOk(s.table) && Identities(s) && Records(s) && OrderOk(s) && SerialInv(s, init)
    requires c in s.txs && s.txs[c].phase != Releasing
    requires c in Holding(At(s.table, op.key.0)) && (op.Write? ==> HeldExclusive(At(s.table, op.key.0)))
    requires DoOp(s.globals, op) == Some(s'.globals)
    requires s'.hist == s.hist + [(s.txs[c].sid, op)] && s'.order == s.order && ActiveSids(s') == ActiveSids(s)
    requires s'.nextSid == s.nextSid && s'.doomed == s.doomed
    ensures OrderOk(s') && SerialInv(s', init)
  {
    hide TableOk, Records, Identities, Holding, HeldExclusive, Serialize, Replay;
    forall pi | Lists(pi, ActiveSids(s'))
      ensures Replay(init, Serialize(s'.hist, s'.order + pi)) == Some(s'.globals)
    {
      OpInPlace(s, init, c, op, pi);
    }
    assert s.txs[c].sid in ActiveSids(s);
  }

  // ----- steps that perform no operation -----

  lemma SameSerial(s: Sys, s': Sys, init: Globals)
    requires OrderOk(s) && SerialInv(s, init)
    requires s'.hist == s.hist && s'.order == s.order && s'.globals == s.globals
    requires ActiveSids(s') == ActiveSids(s) && s'.nextSid == s.nextSid
    requires s'.doomed <= s.doomed + ActiveSids(s)
    ensures OrderOk(s') && SerialInv(s', init)
  {
  }

  /** Parking, and dooming the victims, changes nobody's sid or activity. */
  lemma DoomActive(s: Sys, c: nat, pending: Pending, victims: seq<nat>, s': Sys)
    requires c in s.txs && s'.txs == Doom(s.txs[c := s.txs[c].(pending := pending)], victims)
    requires forall v :: v in victims && v in s.txs ==> s.txs[v].phase != Releasing
    ensures ActiveSids(s') == ActiveSids(s)
    ensures SidsOf(s.txs, victims) <= ActiveSids(s)
  {
    assert forall d :: d in s.txs ==> s'.txs[d].sid == s.txs[d].sid
                                      && (s'.txs[d].phase == Releasing <==> s.txs[d].phase == Releasing);
  }

  lemma PutActive(s: Sys, s': Sys, c: nat, tx: Tx)
    requires c in s.txs && s'.txs == s.txs[c := tx] && tx.sid == s.txs[c].sid
    requires tx.phase != Releasing && s.txs[c].phase != Releasing
    ensures ActiveSids(s') == ActiveSids(s)
  {
    assert forall d :: d in s.txs ==> s'.txs[d].sid == s.txs[d].sid
                                      && (s'.txs[d].phase == Releasing <==> s.txs[d].phase == Releasing);
  }

  /** Only active transactions are faulted. */
  lemma VictimsActive(s: Sys, c: nat, obj: nat, mode: Mode, victims: seq<nat>)
    requires LockInv(s) && Ready(s, c) && Faults(s, c, obj, mode, victims)
    requires RequestAt(s.table, obj, mode, c).1 == Wait
    ensures forall v :: v in victims && v in s.txs ==> s.txs[v].phase == Active
  {
    IdleNotBlocked(s, c);
    WaitMoves(s.table, obj, mode, c, Sids(s), victims);
    forall v | v in victims && v in s.txs ensures s.txs[v].phase == Active {
      if v != c {
        var l :| l in s.table && v in Waiting(s.table[l]);
        assert RecordOk(s.table, s.objects, s.hist, v, s.txs[v]);
      }
    }
  }

  lemma ParkSerial(s: Sys, init: Globals, c: nat, obj: nat, mode: Mode, pending: Pending, victims: seq<nat>)
    requires LockInv(s) && OrderOk(s) && SerialInv(s, init)
    requires Ready(s, c) && Faults(s, c, obj, mode, victims) && RequestAt(s.table, obj, mode, c).1 == Wait
    ensures OrderOk(Park(s, c, obj, mode, pending, victims)) && SerialInv(Park(s, c, obj, mode, pending, victims), init)
  {
    var s' := Park(s, c, obj, mode, pending, victims);
    VictimsActive(s, c, obj, mode, victims);
    DoomActive(s, c, pending, victims, s');
    hide LockInv, OrderOk, SerialInv, Requested, ActiveSids;
    SameSerial(s, s', init);
  }

  lemma StartSerial(s: Sys, init: Globals, c: nat)
    requires LockInv(s) && OrderOk(s) && SerialInv(s, init) && Enabled(s, Start(c))
    ensures OrderOk(Apply(s, Start(c))) && SerialInv(Apply(s, Start(c)), init)
  {
    var s' := Apply(s, Start(c));
    var sid := s.nextSid;
    assert s'.hist == s.hist && s'.order == s.order && s'.globals == s.globals;
    assert s'.txs == s.txs[c := Tx(sid, [], Active, Idle)] && s'.doomed == s.doomed && s'.nextSid == sid + 1;
    StartActive(s, s', c);
    assert Identities(s);
    hide Identities, LockInv, Enabled, Apply, Lists, ActiveSids, Serialize, Replay;
    assert forall x :: x in ActiveSids(s') <==> x in ActiveSids(s) || x == sid;
    forall pi | Lists(pi, ActiveSids(s'))
      ensures Replay(init, Serialize(s.hist, s.order + pi)) == Some(s.globals)
    {
      NewcomerReplay(s, init, pi);
    }
  }

  lemma StartActive(s: Sys, s': Sys, c: nat)
    requires Identities(s) && c !in s.txs && s'.txs == s.txs[c := Tx(s.nextSid, [], Active, Idle)]
    ensures ActiveSids(s') == ActiveSids(s) + {s.nextSid} && s.nextSid !in ActiveSids(s)
  {
    assert s'.txs[c].sid == s.nextSid;
    assert forall d :: d in s.txs ==> s'.txs[d] == s.txs[d];
  }

  lemma NewcomerReplay(s: Sys, init: Globals, pi: seq<nat>)
    requires Identities(s) && SerialInv(s, init)
    requires Lists(pi, ActiveSids(s) + {s.nextSid}) && s.nextSid !in ActiveSids(s)
    ensures Replay(init, Serialize(s.hist, s.order + pi)) == Some(s.globals)
  {
    assert s.nextSid in pi;
    hide Identities, Lists, ActiveSids, Serialize, Replay;
    var k :| 0 <= k < |pi| && pi[k] == s.nextSid;
    NewcomerSerial(s, pi, k);
  }

  /** A transaction without operations adds nothing to the serial history. */
  lemma NewcomerSerial(s: Sys, pi: seq<nat>, k: nat)
    requires Identities(s) && Lists(pi, ActiveSids(s) + {s.nextSid}) && s.nextSid !in ActiveSids(s)
    requires k < |pi| && pi[k] == s.nextSid
    ensures Lists(pi[..k] + pi[k + 1..], ActiveSids(s))
    ensures Serialize(s.hist, s.order + pi) == Serialize(s.hist, s.order + (pi[..k] + pi[k + 1..]))
  {
    var x := s.nextSid;
    ListsWithout(pi, k, ActiveSids(s), x);
    ProjectEmpty(s.hist, x);
    hide Lists, ActiveSids, Identities, Serialize, Project;
    var a, b := s.order + pi[..k], pi[k + 1..];
    assert s.order + pi == a + [x] + b;
    assert s.order + (pi[..k] + b) == a + b;
    SkipEmpty(s.hist, a, x, b);
  }

  lemma ListsWithout(pi: seq<nat>, k: nat, active: set<nat>, x: nat)
    requires Lists(pi, active + {x}) && x !in active && k < |pi| && pi[k] == x
    ensures Lists(pi[..k] + pi[k + 1..], active)
  {
    var rest := pi[..k] + pi[k + 1..];
    var from := (i: int) => if i < k then i else i + 1;
    assert forall i :: 0 <= i < |rest| ==> rest[i] == pi[from(i)];
    forall y ensures y in rest <==> y in active {
      if y in active {
        var j :| 0 <= j < |pi| && pi[j] == y;
        assert rest[if j < k then j else j - 1] == y;
      }
      if y in rest {
        var i :| 0 <= i < |rest| && rest[i] == y;
        assert pi[from(i)] == y && pi[from(i)] != pi[k];
      }
    }
  }

  lemma SkipEmpty(hist: History, a: seq<nat>, x: nat, b: seq<nat>)
    requires Project(hist, x) == []
    ensures Serialize(hist, a + [x] + b) == Serialize(hist, a + b)
  {
    OneSerialized(hist, x);
    hide Serialize, Project;
    SerializeConcat(hist, a + [x], b);
    SerializeConcat(hist, a, [x]);
    SerializeConcat(hist, a, b);
  }

  /** The first unlock fixes a transaction's place: in front of all still active. */
  lemma LeaveSerial(s: Sys, s': Sys, init: Globals, sid: nat)
    requires OrderOk(s) && SerialInv(s, init) && sid in ActiveSids(s) && sid < s.nextSid
    requires s'.hist == s.hist && s'.globals == s.globals && s'.nextSid == s.nextSid && s'.doomed == s.doomed
    requires s'.order == s.order + [sid] && ActiveSids(s') == ActiveSids(s) - {sid}
    ensures OrderOk(s') && SerialInv(s', init)
  {
    forall pi | Lists(pi, ActiveSids(s'))
      ensures Replay(init, Serialize(s'.hist, s'.order + pi)) == Some(s'.globals)
    {
      assert Lists([sid] + pi, ActiveSids(s));
      assert s'.order + pi == s.order + ([sid] + pi);
    }
  }

  lemma LeaveActive(s: Sys, s': Sys, c: nat)
    requires Identities(s) && c in s.txs && s.txs[c].phase != Releasing
    requires forall d :: d in s'.txs && d != c ==> d in s.txs && s'.txs[d] == s.txs[d]
    requires forall d :: d in s.txs && d != c ==> d in s'.txs
    requires c in s'.txs ==> s'.txs[c].phase == Releasing
    ensures ActiveSids(s') == ActiveSids(s) - {s.txs[c].sid}
  {
    forall x ensures x in ActiveSids(s') <==> x in ActiveSids(s) && x != s.txs[c].sid {
      if x in ActiveSids(s) && x != s.txs[c].sid {
        var d :| d in s.txs && s.txs[d].phase != Releasing && s.txs[d].sid == x;
        assert d in s'.txs && s'.txs[d].sid == x;
      }
    }
  }

  lemma StayReleasing(s: Sys, s': Sys, c: nat)
    requires c in s.txs && s.txs[c].phase == Releasing
    requires forall d :: d in s'.txs && d != c ==> d in s.txs && s'.txs[d] == s.txs[d]
    requires forall d :: d in s.txs && d != c ==> d in s'.txs
    requires c in s'.txs ==> s'.txs[c].phase == Releasing
    ensures ActiveSids(s') == ActiveSids(s)
  {
    forall x ensures x in ActiveSids(s') <==> x in ActiveSids(s) {
      if x in ActiveSids(s) {
        var d :| d in s.txs && s.txs[d].phase != Releasing && s.txs[d].sid == x;
        assert d in s'.txs && s'.txs[d].sid == x;
      }
    }
  }

  lemma FinishSerial(s: Sys, init: Globals, a: Action)
    requires LockInv(s) && OrderOk(s) && SerialInv(s, init) && Enabled(s, a) && (a.Unlock? || a.Retire?)
    ensures OrderOk(Apply(s, a)) && SerialInv(Apply(s, a), init)
  {
    var c := a.c;
    var s' := Apply(s, a);
    hide OrderOk, SerialInv, Release, TableOk, Records, Places, ActiveSids;
    if s.txs[c].phase == Releasing {
      StayReleasing(s, s', c);
      SameSerial(s, s', init);
    } else {
      LeaveActive(s, s', c);
      IsActive(s, c);
      LeaveSerial(s, s', init, s.txs[c].sid);
    }
  }

  lemma IsActive(s: Sys, c: nat)
    requires Identities(s) && c in s.txs && s.txs[c].phase != Releasing
    ensures s.txs[c].sid in ActiveSids(s) && s.txs[c].sid < s.nextSid
  {
  }

  lemma GetSerial(s: Sys, init: Globals, a: Action)
    requires LockInv(s) && OrderOk(s) && SerialInv(s, init) && Enabled(s, a) && (a.Get? || a.Make?)
    ensures OrderOk(Apply(s, a)) && SerialInv(Apply(s, a), init)
  {
    hide LockInv, OrderOk, SerialInv, ActiveSids, RequestAt, Requested;
    if a.Get? && RequestAt(s.table, a.obj, Shared, a.c).1 == Wait {
      ParkSerial(s, init, a.c, a.obj, Shared, Getting(a.obj), a.victims);
    } else {
      var s' := Apply(s, a);
      PutActive(s, s', a.c, s'.txs[a.c]);
      SameSerial(s, s', init);
    }
  }

  /** A granted write, after the exclusive lock was taken. */
  lemma WriteSerial(s: Sys, init: Globals, c: nat, key: Key, value: int)
    requires LockInv(s) && OrderOk(s) && SerialInv(s, init)
    requires Ready(s, c) && key.0 in s.txs[c].locked && RequestAt(s.table, key.0, Exclusive, c).1 == Taken
    ensures var s' := Store(s.(table := RequestAt(s.table, key.0, Exclusive, c).0), c, key, value);
      OrderOk(s') && SerialInv(s', init)
  {
    var s1 := s.(table := RequestAt(s.table, key.0, Exclusive, c).0);
    var s' := Store(s1, c, key, value);
    LockedKnown(s, c, key.0);
    KnownObjects(s);
    TakenExclusive(s, c, key.0);
    GrantKeeps(s, c, key.0, Exclusive, s.objects, s.allocId);
    assert s.(table := s1.table, objects := s.objects, allocId := s.allocId) == s1;
    assert TablesOk(s1);
    PutActive(s1, s', c, s'.txs[c]);
    assert ActiveSids(s1) == ActiveSids(s);
    SameSerial(s, s1, init);
    hide LockInv, OrderOk, SerialInv, ActiveSids, RequestAt, Identities, Holding, HeldExclusive, Places, TableOk,
         Records;
    OpKeepsSerial(s1, s', init, c, Write(key, value));
  }

  lemma StaleSerial(s: Sys, init: Globals, c: nat)
    requires LockInv(s) && OrderOk(s) && SerialInv(s, init) && Ready(s, c)
    ensures var s' := s.(txs := s.txs[c := s.txs[c].(phase := Doomed)], doomed := s.doomed + {s.txs[c].sid});
      OrderOk(s') && SerialInv(s', init)
  {
    var s' := s.(txs := s.txs[c := s.txs[c].(phase := Doomed)], doomed := s.doomed + {s.txs[c].sid});
    IsActive(s, c);
    PutActive(s, s', c, s'.txs[c]);
    hide LockInv, OrderOk, SerialInv, ActiveSids;
    SameSerial(s, s', init);
  }

  lemma SetSerial(s: Sys, init: Globals, a: Action)
    requires LockInv(s) && OrderOk(s) && SerialInv(s, init) && Enabled(s, a) && a.Set?
    ensures OrderOk(Apply(s, a)) && SerialInv(Apply(s, a), init)
  {
    hide LockInv, OrderOk, SerialInv, ActiveSids, RequestAt, Requested, Store;
    match RequestAt(s.table, a.obj, Exclusive, a.c).1
    case Wait => ParkSerial(s, init, a.c, a.obj, Exclusive, Setting(a.obj, a.name, a.value), a.victims);
    case Stale => StaleSerial(s, init, a.c);
    case Taken => WriteSerial(s, init, a.c, (a.obj, a.name), a.value);
  }

  lemma LookSerial(s: Sys, init: Globals, a: Action)
    requires LockInv(s) && OrderOk(s) && SerialInv(s, init) && Enabled(s, a) && a.Look?
    ensures OrderOk(Apply(s, a)) && SerialInv(Apply(s, a), init)
  {
    HoldsLocked(s, a.c, a.obj);
    var key := (a.obj, a.name);
    hide OrderOk, SerialInv, Identities, Places, TableOk, Records, Holding;
    OpKeepsSerial(s, Apply(s, a), init, a.c, Read(key, Lookup(s.globals, key)));
  }

  lemma ResumeGetSerial(s: Sys, init: Globals, c: nat)
    requires LockInv(s) && OrderOk(s) && SerialInv(s, init) && Enabled(s, Resume(c)) && s.txs[c].pending.Getting?
    ensures OrderOk(Apply(s, Resume(c))) && SerialInv(Apply(s, Resume(c)), init)
  {
    PendingActive(s, c);
    var s' := Apply(s, Resume(c));
    hide LockInv, OrderOk, SerialInv, ActiveSids;
    PutActive(s, s', c, s'.txs[c]);
    SameSerial(s, s', init);
  }

  lemma PendingActive(s: Sys, c: nat)
    requires LockInv(s) && c in s.txs && s.txs[c].pending != Idle
    ensures s.txs[c].phase == Active
  {
    assert RecordOk(s.table, s.objects, s.hist, c, s.txs[c]);
  }

  lemma ResumeSetSerial(s: Sys, init: Globals, c: nat)
    requires LockInv(s) && OrderOk(s) && SerialInv(s, init) && Enabled(s, Resume(c)) && s.txs[c].pending.Setting?
    ensures OrderOk(Apply(s, Resume(c))) && SerialInv(Apply(s, Resume(c)), init)
  {
    PendingActive(s, c);
    ResumedOk(s, c);
    var p := s.txs[c].pending;
    var s' := Apply(s, Resume(c));
    PutActive(s, s', c, s'.txs[c]);
    hide OrderOk, SerialInv, Identities, Places, TableOk, Records, Holding, HeldExclusive, ActiveSids;
    OpKeepsSerial(s, s', init, c, Write((p.obj, p.name), p.value));
  }

  lemma StepSerial(s: Sys, init: Globals, a: Action)
    requires LockInv(s) && OrderOk(s) && SerialInv(s, init) && Enabled(s, a)
    ensures OrderOk(Apply(s, a)) && SerialInv(Apply(s, a), init)
  {
    hide Apply, LockInv, OrderOk, SerialInv;
    match a
    case Start(c) => StartSerial(s, init, c);
    case Get(_, _, _) => GetSerial(s, init, a);
    case Make(_) => GetSerial(s, init, a);
    case Set(_, _, _, _, _) => SetSerial(s, init, a);
    case Look(_, _, _) => LookSerial(s, init, a);
    case Resume(c) =>
      if s.txs[c].pending.Getting? { ResumeGetSerial(s, init, c); } else { ResumeSetSerial(s, init, c); }
    case Unlock(_) => FinishSerial(s, init, a);
    case Retire(_) => FinishSerial(s, init, a);
  }

  // ----- the theorems -----

  lemma {:induction false} RunSerial(s: Sys, init: Globals, acts: seq<Action>)
    requires LockInv(s) && OrderOk(s) && SerialInv(s, init) && Runs(s, acts)
    ensures LockInv(After(s, acts)) && OrderOk(After(s, acts)) && SerialInv(After(s, acts), init)
    decreases |acts|
  {
    if acts != [] {
      StepSerial(s, init, acts[0]);
      StepKeeps(s, acts[0]);
      hide LockInv, OrderOk, SerialInv, Enabled, Apply;
      RunSerial(Apply(s, acts[0]), init, acts[1..]);
    }
  }

  /** Serializability of every run, finished or not: put the transactions that are
      still active behind the others, in any order pi. Replaying all operations one
      transaction after the other, every read sees the value it saw in the run, and
      the globals end up as they are. */
  lemma EveryRunSerializable(s: Sys, acts: seq<Action>, pi: seq<nat>)
    requires Initial(s) && Runs(s, acts) && Lists(pi, ActiveSids(After(s, acts)))
    ensures var e := After(s, acts); Replay(s.globals, Serialize(e.hist, e.order + pi)) == Some(e.globals)
  {
    InitialOk(s);
    assert SerialInv(s, s.globals) by {
      forall p | Lists(p, ActiveSids(s)) ensures p == [] {
        NonEmptyHas(p);
      }
      assert s.order + [] == [];
    }
    RunSerial(s, s.globals, acts);
  }

  /** Parallel execution equals a serial run. Take a finished run whose aborted
      transactions wrote nothing, and let progs be what the other transactions
      execute. Running these programs one at a time, in the order of their first
      unlock, performs the same reads with the same values and the same writes, and
      ends in the same globals. */
  lemma ParallelEqualsSerial(s: Sys, acts: seq<Action>, progs: nat -> Program, steps: nat)
    requires Initial(s) && Runs(s, acts) && After(s, acts).txs == map[]
    requires forall t :: t in After(s, acts).doomed ==> ReadOnly(Project(After(s, acts).hist, t))
    requires forall t :: t in After(s, acts).order && t !in After(s, acts).doomed ==>
      var ops := Project(After(s, acts).hist, t);
      Follows(progs(t), ops) && progs(t)(ops) == Done
    requires steps >= |After(s, acts).hist|
    ensures var e := After(s, acts);
      SerialRun(progs, s.globals, Without(e.order, e.doomed), steps)
        == (Serialize(e.hist, Without(e.order, e.doomed)), e.globals)
  {
    var e := After(s, acts);
    EveryRunSerializable(s, acts, []);
    assert e.order + [] == e.order;
    DropReadOnly(s.globals, e.hist, e.order, e.doomed);
    var kept := Without(e.order, e.doomed);
    forall t | t in kept ensures t in e.order && t !in e.doomed {
      KeptMembers(e.order, e.doomed, t);
    }
    ReplayIsSerialRun(progs, s.globals, e.hist, kept, steps);
  }

  lemma NonEmptyHas(p: seq<nat>)
    ensures p != [] ==> exists x :: x in p
  {
    if p != [] {
      assert p[0] in p;
    }
  }

  lemma {:induction false} KeptMembers(order: seq<nat>, out: set<nat>, t: nat)
    requires t in Without(order, out)
    ensures t in order && t !in out
  {
    if order != [] && t in Without(order[1..], out) {
      KeptMembers(order[1..], out, t);
    }
  }
}

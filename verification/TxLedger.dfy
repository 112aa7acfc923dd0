/** What a run does, told by its list of actions: who reads and writes what and when, in
    which order the transactions leave, whom a search or a stale answer refuses. The state of
    the store is exactly that. Of the store itself the telling asks one thing only: what the
    lock answers to a request. */
module TxLedger {
  import opened LockQueue
  import opened LockTable
  import opened TxSystem
  import opened TxInvariant
  import opened TxRuns
  import opened Serial
  import opened Serializability

  // ----- runs, from their end -----

  lemma {:induction false} RunsFront(s: Sys, acts: seq<Action>)
    requires Runs(s, acts) && acts != []
    ensures var n := |acts| - 1;
      && Runs(s, acts[..n]) && Enabled(After(s, acts[..n]), acts[n])
      && After(s, acts) == Apply(After(s, acts[..n]), acts[n])
    decreases |acts|
  {
    var n := |acts| - 1;
    hide Enabled, Apply;
    if n == 0 {
      assert acts[..0] == [] && acts[1..] == [];
    } else {
      var rest := acts[1..];
      RunsFront(Apply(s, acts[0]), rest);
      assert acts[..n][1..] == rest[..n - 1] && acts[..n][0] == acts[0] && rest[n - 1] == acts[n];
    }
  }

  // ----- told by the actions alone -----

  /** How many transactions have been started, and how many objects made. */
  function Starts(acts: seq<Action>): nat {
    if acts == [] then 0 else Starts(acts[..|acts| - 1]) + if acts[|acts| - 1].Start? then 1 else 0
  }

  function Makes(acts: seq<Action>): nat {
    if acts == [] then 0 else Makes(acts[..|acts| - 1]) + if acts[|acts| - 1].Make? then 1 else 0
  }

  /** The sid of c, given at its last start: they are counted up from `first`. */
  function Sid(first: nat, acts: seq<Action>, c: nat): nat {
    if acts == [] then first
    else
      var front := acts[..|acts| - 1];
      if acts[|acts| - 1] == Start(c) then first + Starts(front) else Sid(first, front, c)
  }

  /** What c did last. */
  function LastBy(acts: seq<Action>, c: nat): Action {
    if acts == [] then Start(c)
    else if acts[|acts| - 1].c == c then acts[|acts| - 1]
    else LastBy(acts[..|acts| - 1], c)
  }

  /** c has begun to unlock since it was started. */
  predicate Leaving(acts: seq<Action>, c: nat) {
    acts != [] && acts[|acts| - 1] != Start(c) && (acts[|acts| - 1] == Unlock(c) || Leaving(acts[..|acts| - 1], c))
  }

  /** The last value written under a key, or the one that was there before. */
  function Latest(before: Globals, done: History, k: Key): int {
    if done == [] then Lookup(before, k)
    else
      var op := done[|done| - 1].1;
      if op.Write? && op.key == k then op.value else Latest(before, done[..|done| - 1], k)
  }

  // ----- told by the actions and the answers of the locks -----

  ghost function AnswerTo(s: Sys, front: seq<Action>, obj: nat, mode: Mode, c: nat): Answer
    requires Runs(s, front)
  {
    RequestAt(After(s, front).table, obj, mode, c).1
  }

  /** The operation that one more action performs: a read at once; a write at once if the lock
      is granted at once, and otherwise when its transaction wakes up. */
  ghost function Performs(s: Sys, front: seq<Action>, done: History, a: Action): History
    requires Runs(s, front)
  {
    var sid := Sid(s.nextSid, front, a.c);
    match a
    case Look(_, obj, name) => [(sid, Read((obj, name), Latest(s.globals, done, (obj, name))))]
    case Set(c, obj, name, value, _) =>
      if AnswerTo(s, front, obj, Exclusive, c) == Taken then [(sid, Write((obj, name), value))] else []
    case Resume(c) =>
      (match LastBy(front, c)
       case Set(_, obj, name, value, _) => [(sid, Write((obj, name), value))]
       case _ => [])
    case _ => []
  }

  /** All operations of a run, in the order of time. */
  ghost function Done(s: Sys, acts: seq<Action>): History
    requires Runs(s, acts)
    decreases |acts|
  {
    if acts == [] then []
    else
      RunsFront(s, acts);
      var front := acts[..|acts| - 1];
      var done := Done(s, front);
      done + Performs(s, front, done, acts[|acts| - 1])
  }

  /** The objects c has locked and not unlocked, the newest first. */
  ghost function Held(s: Sys, acts: seq<Action>, c: nat): seq<nat>
    requires Runs(s, acts)
    decreases |acts|
  {
    if acts == [] then []
    else
      RunsFront(s, acts);
      var front, a := acts[..|acts| - 1], acts[|acts| - 1];
      var held := Held(s, front, c);
      if a.c == c then HeldAfter(s, front, held, a) else held
  }

  ghost function HeldAfter(s: Sys, front: seq<Action>, held: seq<nat>, a: Action): seq<nat>
    requires Runs(s, front)
  {
    match a
    case Start(_) => []
    case Get(c, obj, _) => if AnswerTo(s, front, obj, Shared, c) == Taken then [obj] + held else held
    case Make(_) => [s.allocId + Makes(front)] + held
    case Resume(c) => if LastBy(front, c).Get? then [LastBy(front, c).obj] + held else held
    case Unlock(_) => if held == [] then [] else held[1..]
    case _ => held
  }

  /** The sids that one more action refuses: those of the victims of its search, and its own
      when it is answered stale. */
  ghost function Refuses(s: Sys, front: seq<Action>, a: Action): set<nat>
    requires Runs(s, front)
  {
    (set v | v in Victims(a) :: Sid(s.nextSid, front, v))
    + if a.Set? && AnswerTo(s, front, a.obj, Exclusive, a.c) == Stale then {Sid(s.nextSid, front, a.c)} else {}
  }

  ghost function Refused(s: Sys, acts: seq<Action>): set<nat>
    requires Runs(s, acts)
    decreases |acts|
  {
    if acts == [] then {}
    else
      RunsFront(s, acts);
      Refused(s, acts[..|acts| - 1]) + Refuses(s, acts[..|acts| - 1], acts[|acts| - 1])
  }

  /** The sids in the order in which they first unlock, or finish without a lock. */
  function Leavers(first: nat, acts: seq<Action>): seq<nat> {
    if acts == [] then []
    else
      var front, a := acts[..|acts| - 1], acts[|acts| - 1];
      Leavers(first, front)
      + if (a.Unlock? || a.Retire?) && !Leaving(front, a.c) then [Sid(first, front, a.c)] else []
  }

  // ----- what one step does to whom -----

  /** Nobody but the actor and the faulted has his record changed, and the faulted can only
      finish from then on. */
  lemma OthersRecord(s: Sys, a: Action, d: nat)
    requires Enabled(s, a) && d != a.c
    ensures d in Apply(s, a).txs <==> d in s.txs
    ensures d in s.txs ==>
      Apply(s, a).txs[d] == (if d in Victims(a) then s.txs[d].(phase := Doomed, pending := Idle) else s.txs[d])
  {
    hide FaultRun, Request;
  }

  /** A write that had to wait is made when the lock has come, and nothing else is. */
  lemma ResumeWrites(s: Sys, c: nat, k: Key)
    requires Enabled(s, Resume(c)) && s.txs[c].pending.Setting?
    ensures var p, t := s.txs[c].pending, Apply(s, Resume(c));
      && Lookup(t.globals, k) == (if k == (p.obj, p.name) then p.value else Lookup(s.globals, k))
      && t.hist == s.hist + [(s.txs[c].sid, Write((p.obj, p.name), p.value))]
      && t.txs == s.txs[c := s.txs[c].(pending := Idle)]
  {
  }

  // ----- one more action told -----

  lemma LastAppended(front: seq<Action>, a: Action)
    ensures var acts := front + [a]; |acts| == |front| + 1 && acts[..|acts| - 1] == front && acts[|acts| - 1] == a
  {
  }

  lemma MoreCounted(first: nat, front: seq<Action>, a: Action, c: nat)
    ensures var acts := front + [a];
      && Starts(acts) == Starts(front) + (if a.Start? then 1 else 0)
      && Makes(acts) == Makes(front) + (if a.Make? then 1 else 0)
      && Sid(first, acts, c) == (if a == Start(c) then first + Starts(front) else Sid(first, front, c))
      && LastBy(acts, c) == (if a.c == c then a else LastBy(front, c))
      && (Leaving(acts, c) <==> a != Start(c) && (a == Unlock(c) || Leaving(front, c)))
      && Leavers(first, acts) ==
           Leavers(first, front)
           + (if (a.Unlock? || a.Retire?) && !Leaving(front, a.c) then [Sid(first, front, a.c)] else [])
  {
    LastAppended(front, a);
    assert a == Start(c) ==> a.c == c;
  }

  lemma {:induction false} RunsBack(s: Sys, front: seq<Action>, a: Action)
    requires Runs(s, front) && Enabled(After(s, front), a)
    ensures Runs(s, front + [a]) && After(s, front + [a]) == Apply(After(s, front), a)
    decreases |front|
  {
    hide Enabled, Apply;
    if front == [] {
      assert front + [a] == [a] && [a][1..] == [];
    } else {
      RunsBack(Apply(s, front[0]), front[1..], a);
      assert (front + [a])[1..] == front[1..] + [a];
    }
  }

  lemma MoreTold(s: Sys, front: seq<Action>, a: Action)
    requires Runs(s, front) && Runs(s, front + [a])
    ensures Done(s, front + [a]) == Done(s, front) + Performs(s, front, Done(s, front), a)
    ensures Refused(s, front + [a]) == Refused(s, front) + Refuses(s, front, a)
  {
    LastAppended(front, a);
    hide Runs, AnswerTo, Performs, Refuses;
  }

  lemma MoreHeld(s: Sys, front: seq<Action>, a: Action, c: nat)
    requires Runs(s, front) && Runs(s, front + [a])
    ensures Held(s, front + [a], c) == if a.c == c then HeldAfter(s, front, Held(s, front, c), a) else Held(s, front, c)
  {
    LastAppended(front, a);
    hide Runs, HeldAfter;
  }

  // ----- the state of the store is what is told -----

  /** What is told of one live transaction is its record. */
  ghost predicate RecordTold(s: Sys, acts: seq<Action>, c: nat, tx: Tx)
    requires Runs(s, acts)
  {
    var last := LastBy(acts, c);
    && tx.sid == Sid(s.nextSid, acts, c) && tx.locked == Held(s, acts, c)
    && (tx.phase == Releasing <==> Leaving(acts, c))
    && (tx.phase != Releasing ==> (tx.phase == Doomed <==> tx.sid in Refused(s, acts)))
    && (tx.pending.Getting? ==> last.Get? && last.obj == tx.pending.obj)
    && (tx.pending.Setting? ==> last.Set? && tx.pending == Setting(last.obj, last.name, last.value))
  }

  ghost predicate Told(s: Sys, acts: seq<Action>)
    requires Runs(s, acts)
  {
    var e := After(s, acts);
    && (forall c :: c in e.txs ==> RecordTold(s, acts, c, e.txs[c]))
    && e.hist == Done(s, acts) && e.order == Leavers(s.nextSid, acts) && e.doomed == Refused(s, acts)
    && e.nextSid == s.nextSid + Starts(acts) && e.allocId == s.allocId + Makes(acts)
    && (forall k :: Lookup(e.globals, k) == Latest(s.globals, Done(s, acts), k))
    && (forall x :: x in e.doomed ==> x < e.nextSid)
  }

  /** Only active transactions are refused. */
  lemma VictimsAreActive(s: Sys, a: Action)
    requires LockInv(s) && Enabled(s, a)
    ensures forall v :: v in Victims(a) ==> v in s.txs && s.txs[v].phase == Active
  {
    hide Enabled, LockInv, Faults, RequestAt, Ready;
    if Victims(a) != [] {
      FaultingRequest(s, a);
      VictimsActive(s, a.c, RequestObj(s, a), RequestMode(a), Victims(a));
      VictimsLive(s, a.c, RequestObj(s, a), RequestMode(a), Victims(a));
    }
  }

  lemma VictimsLive(s: Sys, c: nat, obj: nat, mode: Mode, victims: seq<nat>)
    requires LockInv(s) && Ready(s, c) && Faults(s, c, obj, mode, victims)
    requires RequestAt(s.table, obj, mode, c).1 == Wait
    ensures forall v :: v in victims ==> v in s.txs
  {
    assert TableOk(s.table) && FaultRun(RequestAt(s.table, obj, mode, c).0, c, Sids(s), victims);
    hide TableOk, RequestAt, FaultRun;
    IdleNotBlocked(s, c);
    hide LockInv, Blocked, Faults;
    WaitMoves(s.table, obj, mode, c, Sids(s), victims);
  }

  lemma FaultingRequest(s: Sys, a: Action)
    requires Enabled(s, a) && Victims(a) != []
    ensures IsRequest(a) && Ready(s, a.c) && Faults(s, a.c, RequestObj(s, a), RequestMode(a), Victims(a))
    ensures RequestAt(s.table, RequestObj(s, a), RequestMode(a), a.c).1 == Wait
  {
    hide FaultRun, Request;
  }

  lemma RecordAt(s: Sys, front: seq<Action>, c: nat)
    requires Runs(s, front) && Told(s, front) && c in After(s, front).txs
    ensures RecordTold(s, front, c, After(s, front).txs[c])
  {
    hide RecordTold, Runs, After;
  }

  lemma SidAt(s: Sys, front: seq<Action>, c: nat)
    requires Runs(s, front) && Told(s, front) && c in After(s, front).txs
    ensures After(s, front).txs[c].sid == Sid(s.nextSid, front, c)
  {
    RecordAt(s, front, c);
  }

  lemma SidsApart(s: Sys, c: nat, d: nat)
    requires LockInv(s) && c in s.txs && d in s.txs
    ensures s.txs[c].sid == s.txs[d].sid <==> c == d
    ensures s.txs[c].sid < s.nextSid
  {
    assert Identities(s);
  }

  lemma ActorLive(s: Sys, a: Action)
    requires Enabled(s, a) && !a.Start?
    ensures a.c in s.txs
  {
    hide FaultRun, Request;
  }

  /** Of the transactions there are, exactly the victims and the one answered stale. */
  lemma RefusesWhom(s: Sys, front: seq<Action>, a: Action, c: nat)
    requires Runs(s, front) && Told(s, front) && LockInv(After(s, front)) && Enabled(After(s, front), a)
    requires c in After(s, front).txs
    ensures After(s, front).txs[c].sid in Refuses(s, front, a) <==>
      c in Victims(a) || (a.c == c && a.Set? && AnswerTo(s, front, a.obj, Exclusive, c) == Stale)
  {
    hide LockInv, Enabled, Runs, After, AnswerTo, Told, Sid;
    var e := After(s, front);
    VictimsAreActive(e, a);
    forall v | v in Victims(a) ensures v in e.txs && (Sid(s.nextSid, front, v) == e.txs[c].sid <==> v == c) {
      SidAt(s, front, v);
      SidsApart(e, v, c);
    }
    if a.Set? {
      ActorLive(e, a);
      SidAt(s, front, a.c);
      SidsApart(e, a.c, c);
    }
  }

  lemma OtherTold(s: Sys, front: seq<Action>, a: Action, d: nat)
    requires Runs(s, front) && Told(s, front) && LockInv(After(s, front)) && Enabled(After(s, front), a)
    requires Runs(s, front + [a]) && d != a.c && d in After(s, front).txs
    ensures d in Apply(After(s, front), a).txs && RecordTold(s, front + [a], d, Apply(After(s, front), a).txs[d])
  {
    hide Runs, After, Enabled, Apply, LockInv, Told, Performs, AnswerTo, Done, Held, Refused, Refuses;
    hide LastBy, Sid, Leaving, HeldAfter;
    var e := After(s, front);
    OthersRecord(e, a, d);
    RefusesWhom(s, front, a, d);
    VictimsAreActive(e, a);
    MoreCounted(s.nextSid, front, a, d);
    MoreTold(s, front, a);
    MoreHeld(s, front, a, d);
    RecordAt(s, front, d);
  }

  /** The record of the actor afterwards. */
  function OwnAfter(s: Sys, a: Action): Tx
    requires a.c in s.txs || a.Start?
  {
    match a
    case Start(_) => Tx(s.nextSid, [], Active, Idle)
    case Get(c, obj, victims) =>
      if RequestAt(s.table, obj, Shared, c).1 == Taken then Hold(s.txs[c], obj)
      else if c in victims then s.txs[c].(phase := Doomed, pending := Idle)
      else s.txs[c].(pending := Getting(obj))
    case Set(c, obj, name, value, victims) =>
      (match RequestAt(s.table, obj, Exclusive, c).1
       case Taken => s.txs[c]
       case Stale => s.txs[c].(phase := Doomed)
       case Wait =>
         if c in victims then s.txs[c].(phase := Doomed, pending := Idle)
         else s.txs[c].(pending := Setting(obj, name, value)))
    case Make(c) => Hold(s.txs[c], s.allocId)
    case Look(c, _, _) => s.txs[c]
    case Resume(c) =>
      if s.txs[c].pending.Getting? then Hold(s.txs[c], s.txs[c].pending.obj) else s.txs[c].(pending := Idle)
    case Unlock(c) =>
      s.txs[c].(locked := if s.txs[c].locked == [] then [] else s.txs[c].locked[1..], phase := Releasing)
    case Retire(c) => s.txs[c]
  }

  lemma OwnRecord(s: Sys, a: Action)
    requires Enabled(s, a)
    ensures a.c in s.txs || a.Start?
    ensures a.c in Apply(s, a).txs <==> !a.Retire?
    ensures !a.Retire? ==> Apply(s, a).txs[a.c] == OwnAfter(s, a)
  {
    if a.Get? {
      SharedNeverStale(At(s.table, a.obj), a.c);
    }
    hide Request, FaultRun;
  }

  /** What is told of the list changes with an action as the list itself does. */
  lemma SameChange(s: Sys, front: seq<Action>, a: Action)
    requires Runs(s, front) && !a.Retire? && (a.c in After(s, front).txs || a.Start?)
    requires After(s, front).allocId == s.allocId + Makes(front)
    requires a.Get? ==>
      AnswerTo(s, front, a.obj, Shared, a.c) == RequestAt(After(s, front).table, a.obj, Shared, a.c).1
    requires a.Resume? ==>
      var p := After(s, front).txs[a.c].pending;
      p != Idle && (p.Getting? ==> LastBy(front, a.c).Get? && LastBy(front, a.c).obj == p.obj)
        && (p.Setting? ==> LastBy(front, a.c).Set?)
    ensures OwnAfter(After(s, front), a).locked
         == HeldAfter(s, front, if a.Start? then [] else After(s, front).txs[a.c].locked, a)
  {
    hide Runs, After, RequestAt, AnswerTo, Makes, LastBy;
  }

  lemma OwnHeld(s: Sys, front: seq<Action>, a: Action)
    requires Runs(s, front) && Told(s, front) && Enabled(After(s, front), a) && !a.Retire?
    requires Runs(s, front + [a])
    ensures a.c in After(s, front).txs || a.Start?
    ensures OwnAfter(After(s, front), a).locked == Held(s, front + [a], a.c)
  {
    hide Runs, After, Enabled, Apply, Told, RequestAt, AnswerTo, Held, Makes, LastBy, Refused, Done, Leaving, Sid;
    hide OwnAfter;
    OwnRecord(After(s, front), a);
    OwnAnswers(s, front, a);
    MoreHeld(s, front, a, a.c);
    if !a.Start? {
      RecordAt(s, front, a.c);
    }
    if a.Resume? {
      ResumerPends(After(s, front), a.c);
    }
    AllocTold(s, front);
    SameChange(s, front, a);
  }

  lemma AllocTold(s: Sys, front: seq<Action>)
    requires Runs(s, front) && Told(s, front)
    ensures After(s, front).allocId == s.allocId + Makes(front)
  {
    hide RecordTold, Runs, After, Makes;
  }

  lemma ResumerPends(s: Sys, c: nat)
    requires Enabled(s, Resume(c))
    ensures c in s.txs && s.txs[c].pending != Idle
  {
  }

  lemma ActorsPhase(s: Sys, a: Action)
    requires LockInv(s) && Enabled(s, a) && (a.Get? || a.Set? || a.Make? || a.Look? || a.Resume?)
    ensures a.c in s.txs && s.txs[a.c].phase == Active
  {
    hide LockInv, Faults;
    if a.Resume? {
      PendingActive(s, a.c);
    }
  }

  lemma OwnPhase(s: Sys, front: seq<Action>, a: Action)
    requires Runs(s, front) && Told(s, front) && LockInv(After(s, front)) && Enabled(After(s, front), a)
    requires Runs(s, front + [a]) && !a.Retire?
    ensures a.c in After(s, front).txs || a.Start?
    ensures var tx := OwnAfter(After(s, front), a);
      && tx.sid == Sid(s.nextSid, front + [a], a.c)
      && (tx.phase == Releasing <==> Leaving(front + [a], a.c))
      && (tx.phase != Releasing ==> (tx.phase == Doomed <==> tx.sid in Refused(s, front + [a])))
  {
    hide Runs, After, Enabled, Apply, LockInv, Told, RequestAt, AnswerTo, Held, Makes, LastBy, Refused, Refuses, Done;
    hide Leaving, Sid, Leavers, Performs;
    var e, c := After(s, front), a.c;
    OwnRecord(e, a);
    MoreCounted(s.nextSid, front, a, c);
    MoreTold(s, front, a);
    OwnAnswers(s, front, a);
    if a.Start? {
      StartRefusesNobody(s, front, a);
    } else {
      RefusesWhom(s, front, a, c);
      RecordAt(s, front, c);
      if !a.Unlock? {
        ActorsPhase(e, a);
      }
    }
  }

  lemma StartRefusesNobody(s: Sys, front: seq<Action>, a: Action)
    requires Runs(s, front) && Told(s, front) && a.Start?
    ensures Refuses(s, front, a) == {} && After(s, front).nextSid !in Refused(s, front)
    ensures After(s, front).nextSid == s.nextSid + Starts(front)
  {
  }

  lemma OwnAnswers(s: Sys, front: seq<Action>, a: Action)
    requires Runs(s, front) && Enabled(After(s, front), a)
    ensures a.Get? ==> AnswerTo(s, front, a.obj, Shared, a.c) == RequestAt(After(s, front).table, a.obj, Shared, a.c).1
    ensures a.Set? ==>
      AnswerTo(s, front, a.obj, Exclusive, a.c) == RequestAt(After(s, front).table, a.obj, Exclusive, a.c).1
    ensures a.Get? && AnswerTo(s, front, a.obj, Shared, a.c) == Taken ==> a.c !in Victims(a)
    ensures a.Set? && AnswerTo(s, front, a.obj, Exclusive, a.c) != Wait ==> a.c !in Victims(a)
  {
    hide Request, FaultRun, Runs, After;
  }

  lemma OwnPending(s: Sys, front: seq<Action>, a: Action)
    requires Runs(s, front) && Told(s, front) && Enabled(After(s, front), a) && !a.Retire?
    ensures a.c in After(s, front).txs || a.Start?
    ensures var p, last := OwnAfter(After(s, front), a).pending, LastBy(front + [a], a.c);
      && (p.Getting? ==> last.Get? && last.obj == p.obj)
      && (p.Setting? ==> last.Set? && p == Setting(last.obj, last.name, last.value))
  {
    hide Runs, After, Apply, Enabled, Told, RequestAt, Held, Makes, Refused, Done, Leaving, Sid, LastBy, Leavers;
    var e, c := After(s, front), a.c;
    OwnRecord(e, a);
    MoreCounted(s.nextSid, front, a, c);
    if a.Unlock? {
      UnlockerIdles(e, c);
    }
    if a.Look? || a.Make? || a.Set? || a.Get? {
      AskerIdles(e, a);
    }
  }

  lemma UnlockerIdles(s: Sys, c: nat)
    requires Enabled(s, Unlock(c))
    ensures c in s.txs && s.txs[c].pending == Idle
  {
  }

  lemma AskerIdles(s: Sys, a: Action)
    requires Enabled(s, a) && (a.Get? || a.Set? || a.Make? || a.Look?)
    ensures a.c in s.txs && s.txs[a.c].pending == Idle
  {
    hide Faults;
  }

  lemma OwnTold(s: Sys, front: seq<Action>, a: Action)
    requires Runs(s, front) && Told(s, front) && LockInv(After(s, front)) && Enabled(After(s, front), a)
    requires Runs(s, front + [a]) && !a.Retire?
    ensures a.c in Apply(After(s, front), a).txs
    ensures RecordTold(s, front + [a], a.c, Apply(After(s, front), a).txs[a.c])
  {
    hide Runs, After, Enabled, Apply, LockInv, Told, Held, Refused, Leaving, Sid, LastBy;
    OwnRecord(After(s, front), a);
    OwnHeld(s, front, a);
    OwnPhase(s, front, a);
    OwnPending(s, front, a);
    hide OwnAfter;
  }

  lemma NumbersTold(s: Sys, front: seq<Action>, a: Action)
    requires Runs(s, front) && Told(s, front) && Enabled(After(s, front), a)
    ensures var t := Apply(After(s, front), a);
      t.nextSid == s.nextSid + Starts(front + [a]) && t.allocId == s.allocId + Makes(front + [a])
  {
    MoreCounted(s.nextSid, front, a, 0);
    hide Runs, After, Faults, RequestAt, Doom;
  }

  lemma OrderTold(s: Sys, front: seq<Action>, a: Action)
    requires Runs(s, front) && Told(s, front) && Enabled(After(s, front), a)
    ensures Apply(After(s, front), a).order == Leavers(s.nextSid, front + [a])
  {
    var e, c := After(s, front), a.c;
    MoreCounted(s.nextSid, front, a, c);
    assert a.Unlock? || a.Retire? ==> RecordTold(s, front, c, e.txs[c]);
    hide Runs, After, Faults, RequestAt, Doom, Held, Refused, Done;
  }

  /** The sids of the victims, by record and as told. */
  lemma VictimSids(s: Sys, front: seq<Action>, a: Action)
    requires Runs(s, front) && Told(s, front) && LockInv(After(s, front)) && Enabled(After(s, front), a)
    ensures SidsOf(After(s, front).txs, Victims(a)) == set v | v in Victims(a) :: Sid(s.nextSid, front, v)
  {
    hide Runs, After, Enabled, Told, LockInv, Sid;
    var e := After(s, front);
    VictimsAreActive(e, a);
    forall v | v in Victims(a) ensures v in e.txs && e.txs[v].sid == Sid(s.nextSid, front, v) {
      SidAt(s, front, v);
    }
  }

  lemma DoomedStep(s: Sys, a: Action)
    requires Enabled(s, a)
    ensures a.c in s.txs || !a.Set?
    ensures Apply(s, a).doomed == s.doomed + SidsOf(s.txs, Victims(a))
      + if a.Set? && RequestAt(s.table, a.obj, Exclusive, a.c).1 == Stale then {s.txs[a.c].sid} else {}
  {
    if a.Get? {
      SharedNeverStale(At(s.table, a.obj), a.c);
    }
    assert SidsOf(s.txs, []) == {};
    hide FaultRun, Request, SidsOf;
  }

  lemma DoomedTold(s: Sys, front: seq<Action>, a: Action)
    requires Runs(s, front) && Told(s, front) && LockInv(After(s, front)) && Enabled(After(s, front), a)
    requires Runs(s, front + [a])
    ensures Apply(After(s, front), a).doomed == Refused(s, front + [a])
    ensures forall x :: x in Apply(After(s, front), a).doomed ==> x < Apply(After(s, front), a).nextSid
  {
    hide Runs, After, Enabled, Apply, LockInv, Done, Refused, Told, RequestAt, Performs, SidsOf, Refuses;
    var e := After(s, front);
    DoomedBefore(s, front);
    DoomedStep(e, a);
    NextSidGrows(e, a);
    MoreTold(s, front, a);
    RefusesNow(s, front, a);
  }

  lemma DoomedBefore(s: Sys, front: seq<Action>)
    requires Runs(s, front) && Told(s, front)
    ensures After(s, front).doomed == Refused(s, front)
    ensures forall x :: x in After(s, front).doomed ==> x < After(s, front).nextSid
  {
    hide Runs, After, Refused, RecordTold;
  }

  lemma RefusesNow(s: Sys, front: seq<Action>, a: Action)
    requires Runs(s, front) && Told(s, front) && LockInv(After(s, front)) && Enabled(After(s, front), a)
    ensures a.Set? ==> a.c in After(s, front).txs
    ensures var e := After(s, front);
      && Refuses(s, front, a) == SidsOf(e.txs, Victims(a))
           + (if a.Set? && RequestAt(e.table, a.obj, Exclusive, a.c).1 == Stale then {e.txs[a.c].sid} else {})
      && forall x :: x in Refuses(s, front, a) ==> x < e.nextSid
  {
    hide Runs, After, Enabled, LockInv, Told, RequestAt, Sid;
    var e := After(s, front);
    VictimSids(s, front, a);
    if a.Set? {
      ActorLive(e, a);
      SidAt(s, front, a.c);
      OwnAnswers(s, front, a);
      SidsApart(e, a.c, a.c);
    }
    forall x | x in SidsOf(e.txs, Victims(a)) ensures x < e.nextSid {
      var v :| v in Victims(a) && v in e.txs && e.txs[v].sid == x;
      SidsApart(e, v, v);
    }
  }

  /** What is performed is what the step records. */
  lemma HistStep(s: Sys, front: seq<Action>, a: Action)
    requires Runs(s, front) && Told(s, front) && Enabled(After(s, front), a)
    ensures Apply(After(s, front), a).hist == After(s, front).hist + Performs(s, front, Done(s, front), a)
    ensures |Performs(s, front, Done(s, front), a)| <= 1
  {
    var e := After(s, front);
    assert forall k :: Lookup(e.globals, k) == Latest(s.globals, Done(s, front), k);
    hide Runs, After, Told, Faults, RequestAt, Sid, Done, Doom, Held, Refused, Leaving, Latest, LastBy;
    if a.Look? || a.Set? || a.Resume? {
      ActorLive(e, a);
      RecordAt(s, front, a.c);
    }
  }

  lemma GlobalsStep(s: Sys, a: Action, k: Key)
    requires Enabled(s, a)
    ensures |s.hist| <= |Apply(s, a).hist| <= |s.hist| + 1
    ensures Lookup(Apply(s, a).globals, k) ==
      if |Apply(s, a).hist| > |s.hist| && Apply(s, a).hist[|s.hist|].1.Write? && Apply(s, a).hist[|s.hist|].1.key == k
      then Apply(s, a).hist[|s.hist|].1.value
      else Lookup(s.globals, k)
  {
    hide Faults, RequestAt, Doom;
  }

  lemma LatestMore(before: Globals, done: History, more: History, k: Key)
    requires |more| <= 1
    ensures Latest(before, done + more, k) ==
      if more != [] && more[0].1.Write? && more[0].1.key == k then more[0].1.value else Latest(before, done, k)
  {
    if more == [] {
      assert done + more == done;
    } else {
      assert (done + more)[..|done|] == done && (done + more)[|done|] == more[0];
    }
  }

  lemma HistTold(s: Sys, front: seq<Action>, a: Action, k: Key)
    requires Runs(s, front) && Told(s, front) && Enabled(After(s, front), a)
    ensures Apply(After(s, front), a).hist == Done(s, front) + Performs(s, front, Done(s, front), a)
    ensures Lookup(Apply(After(s, front), a).globals, k)
         == Latest(s.globals, Done(s, front) + Performs(s, front, Done(s, front), a), k)
  {
    var e, more := After(s, front), Performs(s, front, Done(s, front), a);
    assert e.hist == Done(s, front) && Lookup(e.globals, k) == Latest(s.globals, Done(s, front), k);
    hide Runs, After, Told, Enabled, Apply, Performs, Done, Latest, Lookup;
    HistStep(s, front, a);
    GlobalsStep(e, a, k);
    LatestMore(s.globals, Done(s, front), more, k);
    assert more != [] ==> (e.hist + more)[|e.hist|] == more[0];
  }

  /** One more step is one more action told. */
  lemma StepTold(s: Sys, front: seq<Action>, a: Action)
    requires Runs(s, front) && Told(s, front) && LockInv(After(s, front)) && Enabled(After(s, front), a)
    ensures Runs(s, front + [a]) && After(s, front + [a]) == Apply(After(s, front), a) && Told(s, front + [a])
  {
    hide RecordTold, Runs, After, Enabled, Apply, LockInv, Held, Done, Refused, Performs, Starts, Makes, Leavers;
    hide Lookup, Latest, Told;
    RunsBack(s, front, a);
    var t := Apply(After(s, front), a);
    NumbersTold(s, front, a);
    OrderTold(s, front, a);
    DoomedTold(s, front, a);
    MoreTold(s, front, a);
    forall k
      ensures t.hist == Done(s, front + [a]) && Lookup(t.globals, k) == Latest(s.globals, Done(s, front + [a]), k)
    {
      HistTold(s, front, a, k);
    }
    HistTold(s, front, a, (0, ""));
    forall c | c in t.txs ensures RecordTold(s, front + [a], c, t.txs[c]) {
      EachTold(s, front, a, c);
    }
    TellAll(s, front + [a]);
  }

  lemma EachTold(s: Sys, front: seq<Action>, a: Action, c: nat)
    requires Runs(s, front) && Told(s, front) && LockInv(After(s, front)) && Enabled(After(s, front), a)
    requires Runs(s, front + [a]) && c in Apply(After(s, front), a).txs
    ensures RecordTold(s, front + [a], c, Apply(After(s, front), a).txs[c])
  {
    hide RecordTold, Runs, After, Enabled, Apply, LockInv, Told;
    if c == a.c {
      OwnRecord(After(s, front), a);
      OwnTold(s, front, a);
    } else {
      OthersRecord(After(s, front), a, c);
      OtherTold(s, front, a, c);
    }
  }

  lemma TellAll(s: Sys, acts: seq<Action>)
    requires Runs(s, acts)
    requires var e := After(s, acts);
      && (forall c :: c in e.txs ==> RecordTold(s, acts, c, e.txs[c]))
      && e.hist == Done(s, acts) && e.order == Leavers(s.nextSid, acts) && e.doomed == Refused(s, acts)
      && e.nextSid == s.nextSid + Starts(acts) && e.allocId == s.allocId + Makes(acts)
      && (forall k :: Lookup(e.globals, k) == Latest(s.globals, Done(s, acts), k))
      && (forall x :: x in e.doomed ==> x < e.nextSid)
    ensures Told(s, acts)
  {
    hide RecordTold, Runs, After, Held, Done, Refused, Starts, Makes, Leavers, Lookup, Latest;
  }

  /** Over every run from the start: the history is exactly the reads and writes that the
      actions ask for, each once its lock is granted, at once or when its transaction wakes up,
      in that order and with those values; the globals are what was written last; and sids,
      locked lists, refusals and the order of leaving are as told. */
  lemma {:induction false} RunTold(s: Sys, acts: seq<Action>)
    requires Initial(s) && Runs(s, acts)
    ensures Told(s, acts) && LockInv(After(s, acts))
    decreases |acts|
  {
    hide Told, Runs, After, Enabled, Apply, LockInv, Initial;
    InitialOk(s);
    AlwaysLockInv(s, acts);
    if acts == [] {
      NothingTold(s);
    } else {
      var n := |acts| - 1;
      RunsFront(s, acts);
      RunTold(s, acts[..n]);
      assert acts == acts[..n] + [acts[n]];
      StepTold(s, acts[..n], acts[n]);
    }
  }

  lemma NothingTold(s: Sys)
    requires Initial(s)
    ensures Told(s, [])
  {
  }

  // ----- what it means -----

  /** Whoever is refused does nothing from then on but unlock and finish. */
  lemma RefusedOnlyFinishes(s: Sys, acts: seq<Action>, a: Action)
    requires Initial(s) && Runs(s, acts) && Enabled(After(s, acts), a) && !a.Start?
    requires Sid(s.nextSid, acts, a.c) in Refused(s, acts)
    ensures a.Unlock? || a.Retire?
  {
    hide Runs, After, Enabled, LockInv, Told, Refused, Initial, Sid;
    RunTold(s, acts);
    ActorLive(After(s, acts), a);
    RecordAt(s, acts, a.c);
    if !a.Unlock? && !a.Retire? {
      ActorsPhase(After(s, acts), a);
    }
  }

  /** The live transaction that was started first is never refused by a search. */
  lemma OldestGoesOn(s: Sys, acts: seq<Action>, a: Action, c: nat)
    requires Initial(s) && Runs(s, acts) && Enabled(After(s, acts), a) && c in After(s, acts).txs
    requires forall d :: d in After(s, acts).txs ==> Sid(s.nextSid, acts, c) <= Sid(s.nextSid, acts, d)
    ensures c !in Victims(a)
  {
    RunTold(s, acts);
    hide Runs, After, Enabled, LockInv, Told, Initial, Sid;
    var e := After(s, acts);
    if Victims(a) != [] {
      FaultingRequest(e, a);
      forall d | d in e.txs ensures e.txs[d].sid == Sid(s.nextSid, acts, d) {
        SidAt(s, acts, d);
      }
      forall d, f | d in e.txs && f in e.txs && e.txs[d].sid == e.txs[f].sid ensures d == f {
        SidsApart(e, d, f);
      }
      OldestSpared(RequestAt(e.table, RequestObj(e, a), RequestMode(a), a.c).0, a.c, Sids(e), Victims(a), c);
    }
  }

  /** And whoever has begun to unlock only unlocks and finishes. */
  lemma LeavingOnlyFinishes(s: Sys, acts: seq<Action>, a: Action)
    requires Initial(s) && Runs(s, acts) && Enabled(After(s, acts), a) && !a.Start? && Leaving(acts, a.c)
    ensures a.Unlock? || a.Retire?
  {
    hide Runs, After, Enabled, LockInv, Told, Refused, Initial, Leaving;
    RunTold(s, acts);
    ActorLive(After(s, acts), a);
    RecordAt(s, acts, a.c);
    if !a.Unlock? && !a.Retire? {
      ActorsPhase(After(s, acts), a);
    }
  }

  /** Parallel execution of programs equals a serial run. Take a finished run in which the
      refused transactions wrote nothing, and let progs be what the other transactions are to
      do: at each point the actions of a transaction ask for what its program wants next, given
      the values it has read. Then running the programs one at a time, in the order in which
      the transactions first unlock, performs the same reads with the same values and the same
      writes, and ends in the same globals. */
  lemma ProgramsRunSerially(s: Sys, acts: seq<Action>, progs: nat -> Program, steps: nat)
    requires Initial(s) && Runs(s, acts) && After(s, acts).txs == map[]
    requires forall t :: t in Refused(s, acts) ==> ReadOnly(Project(Done(s, acts), t))
    requires forall t :: t in Leavers(s.nextSid, acts) && t !in Refused(s, acts) ==>
      Follows(progs(t), Project(Done(s, acts), t)) && progs(t)(Project(Done(s, acts), t)) == Intent.Done
    requires steps >= |Done(s, acts)|
    ensures var order := Serial.Without(Leavers(s.nextSid, acts), Refused(s, acts));
      SerialRun(progs, s.globals, order, steps) == (Serialize(Done(s, acts), order), After(s, acts).globals)
  {
    RunTold(s, acts);
    ParallelEqualsSerial(s, acts, progs, steps);
  }
}

/** The store's transactions over the lock table, as a step system: any number of
    tasks start transactions, touch objects, read and write their globals, and
    finish, in any interleaving. */
module TxSystem {
  import opened LockQueue
  import opened LockTable

  /** A global's name on an object, and the 64-bit word stored there (0 is nil). */
  type Key = (nat, string)
  const NIL: int := 0
  /** Object ids below this one are the persisted objects. */
  const FIRST_ALLOC_ID: nat := 1000

  datatype Op = Read(key: Key, value: int) | Write(key: Key, value: int)

  /** What a task is doing inside a lock call it has not come back from. */
  datatype Pending = Idle | Getting(obj: nat) | Setting(obj: nat, name: string, value: int)

  /** Doomed: a lock call failed, so only finishing is left. Releasing: inside finish. */
  datatype Phase = Active | Doomed | Releasing

  datatype Tx = Tx(sid: nat, locked: seq<nat>, phase: Phase, pending: Pending)

  datatype Sys = Sys(
    maxTasks: nat,
    table: Table,
    txs: map<nat, Tx>,         // live transactions by cid
    nextSid: nat,
    objects: set<nat>,
    allocId: nat,
    globals: map<Key, int>,
    hist: seq<(nat, Op)>,      // every read and write so far, with the sid of its transaction
    order: seq<nat>,           // sids in the order of their first unlock
    doomed: set<nat>)          // sids that were refused or faulted

  datatype Action =
    | Start(c: nat)
    | Get(c: nat, obj: nat, victims: seq<nat>)
    | Set(c: nat, obj: nat, name: string, value: int, victims: seq<nat>)
    | Make(c: nat)
    | Look(c: nat, obj: nat, name: string)
    | Resume(c: nat)
    | Unlock(c: nat)
    | Retire(c: nat)

  function Sids(s: Sys): map<nat, nat> {
    map c | c in s.txs :: s.txs[c].sid
  }

  function Lookup(g: map<Key, int>, k: Key): int {
    if k in g then g[k] else NIL
  }

  predicate Ready(s: Sys, c: nat) {
    c in s.txs && s.txs[c].phase == Active && s.txs[c].pending == Idle
  }

  /** Free to finish: not inside a lock call. */
  predicate Idles(s: Sys, c: nat) {
    c in s.txs && s.txs[c].pending == Idle
  }

  // ----- the steps -----

  /** A request that has to wait is followed by the faults it causes; any other
      request faults nobody. */
  ghost predicate Faults(s: Sys, c: nat, obj: nat, mode: Mode, victims: seq<nat>) {
    var (t, a) := RequestAt(s.table, obj, mode, c);
    if a == Wait then FaultRun(t, c, Sids(s), victims) else victims == []
  }

  ghost predicate Enabled(s: Sys, a: Action) {
    match a
    case Start(c) => c < s.maxTasks && c !in s.txs
    case Get(c, obj, victims) => Ready(s, c) && obj in s.objects && Faults(s, c, obj, Shared, victims)
    case Set(c, obj, name, value, victims) =>
      Ready(s, c) && obj in s.txs[c].locked && Faults(s, c, obj, Exclusive, victims)
    case Make(c) => Ready(s, c)
    case Look(c, obj, name) => Ready(s, c) && obj in s.txs[c].locked
    case Resume(c) =>
      c in s.txs && s.txs[c].pending != Idle && c !in Waiting(At(s.table, s.txs[c].pending.obj))
    case Unlock(c) => Idles(s, c) && s.txs[c].locked != []
    case Retire(c) => Idles(s, c) && s.txs[c].locked == []
  }

  function Doom(txs: map<nat, Tx>, victims: seq<nat>): map<nat, Tx> {
    map c | c in txs :: if c in victims then txs[c].(phase := Doomed, pending := Idle) else txs[c]
  }

  function SidsOf(txs: map<nat, Tx>, victims: seq<nat>): set<nat> {
    set c | c in victims && c in txs :: txs[c].sid
  }

  /** The table after a request and the faults it causes. */
  function Requested(s: Sys, c: nat, obj: nat, mode: Mode, victims: seq<nat>): Table {
    WithdrawAll(RequestAt(s.table, obj, mode, c).0, victims)
  }

  /** c has to wait: it is marked as pending, and the victims as doomed. */
  function Park(s: Sys, c: nat, obj: nat, mode: Mode, pending: Pending, victims: seq<nat>): Sys
    requires c in s.txs
  {
    s.(table := Requested(s, c, obj, mode, victims),
       txs := Doom(s.txs[c := s.txs[c].(pending := pending)], victims),
       doomed := s.doomed + SidsOf(s.txs, victims))
  }

  function Hold(tx: Tx, obj: nat): Tx {
    tx.(locked := [obj] + tx.locked, pending := Idle)
  }

  function Store(s: Sys, c: nat, key: Key, value: int): Sys
    requires c in s.txs
  {
    s.(globals := s.globals[key := value],
       hist := s.hist + [(s.txs[c].sid, Write(key, value))],
       txs := s.txs[c := s.txs[c].(pending := Idle)])
  }

  /** The transaction's place in the serial order is fixed by its first unlock. */
  function Leave(s: Sys, c: nat): seq<nat>
    requires c in s.txs
  {
    if s.txs[c].phase == Releasing then s.order else s.order + [s.txs[c].sid]
  }

  function Apply(s: Sys, a: Action): Sys
    requires Enabled(s, a)
  {
    match a
    case Start(c) =>
      s.(txs := s.txs[c := Tx(s.nextSid, [], Active, Idle)], nextSid := s.nextSid + 1)
    case Get(c, obj, victims) =>
      if RequestAt(s.table, obj, Shared, c).1 == Wait then Park(s, c, obj, Shared, Getting(obj), victims)
      else s.(table := RequestAt(s.table, obj, Shared, c).0, txs := s.txs[c := Hold(s.txs[c], obj)])
    case Set(c, obj, name, value, victims) =>
      (match RequestAt(s.table, obj, Exclusive, c).1
       case Wait => Park(s, c, obj, Exclusive, Setting(obj, name, value), victims)
       case Stale =>
         s.(txs := s.txs[c := s.txs[c].(phase := Doomed)], doomed := s.doomed + {s.txs[c].sid})
       case Taken =>
         Store(s.(table := RequestAt(s.table, obj, Exclusive, c).0), c, (obj, name), value))
    case Make(c) =>
      s.(table := RequestAt(s.table, s.allocId, Exclusive, c).0,
         objects := s.objects + {s.allocId}, allocId := s.allocId + 1,
         txs := s.txs[c := Hold(s.txs[c], s.allocId)])
    case Look(c, obj, name) =>
      s.(hist := s.hist + [(s.txs[c].sid, Read((obj, name), Lookup(s.globals, (obj, name))))])
    case Resume(c) =>
      (match s.txs[c].pending
       case Getting(obj) => s.(txs := s.txs[c := Hold(s.txs[c], obj)])
       case Setting(obj, name, value) => Store(s, c, (obj, name), value))
    case Unlock(c) =>
      var tx := s.txs[c];
      s.(table := ReleaseAt(s.table, tx.locked[0], c),
         txs := s.txs[c := tx.(locked := tx.locked[1..], phase := Releasing)],
         order := Leave(s, c))
    case Retire(c) =>
      s.(txs := s.txs - {c}, order := Leave(s, c))
  }

  // ----- what every step keeps -----

  /** The lock table and the record of one transaction agree. */
  ghost predicate TxOk(t: Table, objects: set<nat>, c: nat, tx: Tx) {
    && (forall l :: l in t && c in Waiting(t[l]) ==> tx.pending != Idle && tx.pending.obj == l)
    && (forall l :: l in t && c in Holding(t[l]) ==> l in tx.locked || tx.pending == Getting(l))
    && (forall l :: l in tx.locked ==> l in objects)
    && (tx.phase != Releasing ==> forall l :: l in tx.locked ==> c in Holding(At(t, l)))
    && (tx.pending != Idle ==>
          && tx.phase == Active
          && tx.pending.obj in objects
          && var q := At(t, tx.pending.obj);
             if c in Waiting(q) then WaitsAs(q, c, PendingMode(tx.pending))
             else c in Holding(q) && (tx.pending.Setting? ==> HeldExclusive(q)))
    && (tx.pending.Setting? ==> tx.pending.obj in tx.locked)
  }

  function PendingMode(p: Pending): Mode {
    if p.Setting? then Exclusive else Shared
  }

  /** Every read and write of a transaction that has not begun to unlock is still
      covered by a lock it holds. */
  ghost predicate Covered(t: Table, c: nat, tx: Tx, hist: seq<(nat, Op)>) {
    tx.phase != Releasing ==>
      forall i :: 0 <= i < |hist| && hist[i].0 == tx.sid ==>
        && c in Holding(At(t, hist[i].1.key.0))
        && (hist[i].1.Write? ==> HeldExclusive(At(t, hist[i].1.key.0)))
  }

  ghost predicate RecordOk(t: Table, objects: set<nat>, hist: seq<(nat, Op)>, c: nat, tx: Tx) {
    TxOk(t, objects, c, tx) && Covered(t, c, tx, hist)
  }

  ghost predicate Records(s: Sys) {
    forall c :: c in s.txs ==> RecordOk(s.table, s.objects, s.hist, c, s.txs[c])
  }

  /** Live cids are in range, and no two live transactions share a sid. */
  ghost predicate Identities(s: Sys) {
    && (forall c :: c in s.txs ==> c < s.maxTasks && s.txs[c].sid < s.nextSid)
    && (forall c, d :: c in s.txs && d in s.txs && s.txs[c].sid == s.txs[d].sid ==> c == d)
    && (forall i :: 0 <= i < |s.hist| ==> s.hist[i].0 < s.nextSid)
  }

  /** Only live transactions are queued, and only on objects that exist. */
  ghost predicate Places(s: Sys) {
    && (forall l, c :: l in s.table && c in Members(s.table[l]) ==> c in s.txs)
    && (forall l :: l in s.table ==> l in s.objects)
    && (forall l :: l in s.objects ==> l < s.allocId)
  }

  ghost predicate LockInv(s: Sys) {
    TableOk(s.table) && Identities(s) && Places(s) && Records(s)
  }

  /** A pending request stays pending, in its mode, or is granted. */
  lemma PendingKept(q: Queue, q': Queue, c: nat, pending: Pending)
    requires pending != Idle && Kept(q, q', c)
    requires if c in Waiting(q) then WaitsAs(q, c, PendingMode(pending))
             else c in Holding(q) && (pending.Setting? ==> HeldExclusive(q))
    ensures if c in Waiting(q') then WaitsAs(q', c, PendingMode(pending))
            else c in Holding(q') && (pending.Setting? ==> HeldExclusive(q'))
  {
    hide Waiting, Holding, HeldExclusive, WaitsAs;
  }

  /** A transaction nobody acted on keeps its record in step. */
  lemma OthersOk(t: Table, t': Table, objects: set<nat>, objects': set<nat>, c: nat, tx: Tx, out: set<nat>)
    requires TxOk(t, objects, c, tx) && c !in out && objects <= objects'
    requires forall l :: l in t' ==> Undisturbed(At(t, l), At(t', l), out)
    requires t.Keys <= t'.Keys
    ensures TxOk(t', objects', c, tx)
  {
    forall l ensures Kept(At(t, l), At(t', l), c) {
      if l in t' {
        assert Undisturbed(At(t, l), At(t', l), out);
      }
    }
    hide Waiting, Holding, HeldExclusive, WaitsAs;
    if tx.pending != Idle {
      PendingKept(At(t, tx.pending.obj), At(t', tx.pending.obj), c, tx.pending);
    }
    forall l | l in t' && c in Waiting(t'[l]) ensures tx.pending != Idle && tx.pending.obj == l {
      assert Kept(At(t, l), At(t', l), c);
    }
    forall l | l in t' && c in Holding(t'[l]) ensures l in tx.locked || tx.pending == Getting(l) {
      assert Kept(At(t, l), At(t', l), c);
    }
    if tx.phase != Releasing {
      forall l | l in tx.locked ensures c in Holding(At(t', l)) {
        assert Kept(At(t, l), At(t', l), c);
      }
    }
  }

  lemma OthersCovered(t: Table, t': Table, c: nat, tx: Tx, hist: seq<(nat, Op)>, out: set<nat>)
    requires Covered(t, c, tx, hist) && c !in out
    requires forall l :: l in t' ==> Undisturbed(At(t, l), At(t', l), out)
    requires t.Keys <= t'.Keys
    ensures Covered(t', c, tx, hist)
  {
    forall l ensures Kept(At(t, l), At(t', l), c) {
      if l in t' {
        assert Undisturbed(At(t, l), At(t', l), out);
      }
    }
  }

  lemma OthersKeep(t: Table, t': Table, objects: set<nat>, objects': set<nat>, hist: seq<(nat, Op)>,
                   c: nat, tx: Tx, out: set<nat>)
    requires RecordOk(t, objects, hist, c, tx) && c !in out && objects <= objects'
    requires forall l :: l in t' ==> Undisturbed(At(t, l), At(t', l), out)
    requires t.Keys <= t'.Keys
    ensures RecordOk(t', objects', hist, c, tx)
  {
    OthersOk(t, t', objects, objects', c, tx, out);
    OthersCovered(t, t', c, tx, hist, out);
  }
}

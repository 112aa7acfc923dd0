/** The central lock support structure: the queues of all locks, the wait-for matrix
    that mirrors them, and the two entry points that update both in place. */
module LocksCtx {
  import opened WaitForGraph
  import opened WaitMatrix
  import opened LockQueue
  import opened LockTable

  /** What a lock call returns, or that its caller has to wait. */
  datatype LockCode = LockTaken | LockWaiting | LockDeadlock | LockStale

  function Pairs(xs: seq<nat>, ys: seq<nat>): Graph {
    set x, y | x in xs && y in ys && x != y :: (x, y)
  }

  predicate InRange(s: seq<nat>, n: nat) {
    forall x :: x in s ==> x < n
  }

  /** Victims faulted so far, each the youngest on a cycle at its time. */
  ghost predicate FaultSteps(t: Table, root: nat, sids: map<nat, nat>, victims: seq<nat>)
    decreases |victims|
  {
    victims == [] ||
    (YoungestOnCycle(Edges(t), sids, root, victims[0])
     && FaultSteps(WithdrawTx(t, victims[0]), root, sids, victims[1..]))
  }

  lemma {:induction false} FaultOneMore(t: Table, root: nat, sids: map<nat, nat>, victims: seq<nat>, v: nat)
    requires FaultSteps(t, root, sids, victims)
    requires YoungestOnCycle(Edges(WithdrawAll(t, victims)), sids, root, v)
    ensures FaultSteps(t, root, sids, victims + [v])
    ensures WithdrawAll(t, victims + [v]) == WithdrawTx(WithdrawAll(t, victims), v)
    decreases |victims|
  {
    if victims == [] {
      assert [v][1..] == [];
    } else {
      assert (victims + [v])[1..] == victims[1..] + [v];
      FaultOneMore(WithdrawTx(t, victims[0]), root, sids, victims[1..], v);
    }
  }

  lemma {:induction false} FaultsDone(t: Table, root: nat, sids: map<nat, nat>, victims: seq<nat>)
    requires FaultSteps(t, root, sids, victims) && !Reaches(Edges(WithdrawAll(t, victims)), root, root)
    ensures FaultRun(t, root, sids, victims)
    decreases |victims|
  {
    if victims != [] {
      FaultsDone(WithdrawTx(t, victims[0]), root, sids, victims[1..]);
    }
  }

  // ----- the bookkeeping of blocked transactions -----

  /** Only cids below n are queued, and `where` says which lock a blocked one waits for. */
  ghost predicate Tracked(t: Table, n: nat, where: seq<nat>) {
    && |where| == n
    && (forall l, x :: l in t && x in Members(t[l]) ==> x < n)
    && (forall l, x :: l in t && x in Waiting(t[l]) ==> x < n && where[x] == l)
  }

  /** Blocked transactions are known by their sids. */
  ghost predicate Known(t: Table, n: nat, txs: seq<nat>, sids: map<nat, nat>) {
    && |txs| == n
    && (forall x: nat :: Blocked(t, x) ==> x < n && x in sids && txs[x] == sids[x])
  }

  lemma RequestBlocks(t: Table, l: nat, mode: Mode, c: nat, x: nat)
    requires TableOk(t) && !Blocked(t, c) && Blocked(RequestAt(t, l, mode, c).0, x)
    ensures Blocked(t, x) || (x == c && RequestAt(t, l, mode, c).1 == Wait)
  {
    assert c !in Waiting(At(t, l)) && WellFormed(At(t, l));
    RequestEffect(At(t, l), mode, c);
    var t' := RequestAt(t, l, mode, c).0;
    var k :| k in t' && x in Waiting(t'[k]);
    assert x == c || x in Waiting(At(t, k));
  }

  lemma TrackRequest(t: Table, l: nat, mode: Mode, c: nat, n: nat, where: seq<nat>)
    requires TableOk(t) && !Blocked(t, c) && Tracked(t, n, where) && c < n
    ensures var (t', a) := RequestAt(t, l, mode, c);
      Tracked(t', n, if a == Wait then where[c := l] else where)
  {
    var (t', a) := RequestAt(t, l, mode, c);
    assert c !in Waiting(At(t, l)) && WellFormed(At(t, l));
    RequestEffect(At(t, l), mode, c);
    hide WellFormed, Request, HeldExclusive, WaitsAs, Acyclic, Holding, Waiting;
    forall k, x | k in t' && x in Members(t'[k]) ensures x < n {
      assert k != l ==> t'[k] == t[k];
      assert x == c || x in Members(At(t, k));
    }
    forall k, x | k in t' && x in Waiting(t'[k])
      ensures x < n && (if a == Wait then where[c := l] else where)[x] == k
    {
      assert x in Members(t'[k]);
      if k != l {
        assert t'[k] == t[k] && x != c;
      } else if x in Waiting(At(t, l)) {
        assert x != c;
      }
    }
  }

  lemma KnowRequest(t: Table, l: nat, mode: Mode, c: nat, n: nat, txs: seq<nat>, sids: map<nat, nat>)
    requires TableOk(t) && !Blocked(t, c) && Known(t, n, txs, sids) && c < n && c in sids
    ensures var (t', a) := RequestAt(t, l, mode, c);
      Known(t', n, if a == Wait then txs[c := sids[c]] else txs, sids)
  {
    var (t', a) := RequestAt(t, l, mode, c);
    forall x: nat | Blocked(t', x)
      ensures x < n && x in sids && (if a == Wait then txs[c := sids[c]] else txs)[x] == sids[x]
    {
      RequestBlocks(t, l, mode, c, x);
    }
  }

  lemma TrackWithdraw(t: Table, v: nat, n: nat, where: seq<nat>, txs: seq<nat>, sids: map<nat, nat>)
    requires Shaped(t) && Blocked(t, v) && Tracked(t, n, where) && Known(t, n, txs, sids)
    ensures Tracked(WithdrawTx(t, v), n, where) && Known(WithdrawTx(t, v), n, txs, sids)
  {
    hide Shaped, Blocked, LeftBy, Withdraw, Edges, Mute;
    WithdrawTable(t, v);
    var t' := WithdrawTx(t, v);
    forall k | k in t' ensures Waiting(t'[k]) <= Waiting(t[k]) && Members(t'[k]) <= Members(t[k]) {
      FewerLeft(t[k], t'[k], v);
    }
    hide Waiting, Members, WithdrawTx;
  }

  lemma FewerLeft(q: Queue, q': Queue, v: nat)
    requires LeftBy(q, q', {v})
    ensures Waiting(q') <= Waiting(q) && Members(q') <= Members(q)
  {
    hide Waiting, Holding, WaitsAs, WellFormed;
  }

  lemma TrackRelease(t: Table, t': Table, c: nat, n: nat, where: seq<nat>, txs: seq<nat>, sids: map<nat, nat>)
    requires TableOk(t) && !Blocked(t, c) && Released(t, t', c) && Tracked(t, n, where)
    ensures Tracked(t', n, where)
    ensures Known(t, n, txs, sids) ==> Known(t', n, txs, sids)
  {
    ReleaseTable(t, t', c);
    forall k | k in t' ensures Waiting(t'[k]) <= Waiting(t[k]) && Members(t'[k]) <= Members(t[k]) {
      ReleasedQueue(t, t', c, k);
    }
  }

  // ----- the edges a release changes -----

  /** The entries of the groups behind the head, up to group k. */
  function Behind(q: Queue, k: nat): seq<nat>
    requires k <= |q|
  {
    if k <= 1 then [] else Behind(q, k - 1) + q[k - 1].entries
  }

  lemma {:induction false} BehindMembers(q: Queue, k: nat)
    requires k <= |q|
    ensures forall x :: x in Behind(q, k) <==> exists i :: 1 <= i < k && x in q[i].entries
    decreases k
  {
    if k > 1 {
      BehindMembers(q, k - 1);
      forall x ensures x in Behind(q, k) <==> exists i :: 1 <= i < k && x in q[i].entries {
        if x in q[k - 1].entries {
          assert x in Behind(q, k);
        }
      }
    }
  }

  function Heads(q: Queue): seq<nat> {
    if q == [] then [] else q[0].entries
  }

  /** What a release does to the graph: everybody behind the head stops waiting for the
      leaver, and everybody still behind waits for the head as it is now. */
  lemma ReleaseEdges(t: Table, l: nat, c: nat, behind: seq<nat>, still: seq<nat>, heads: seq<nat>)
    requires TableOk(t) && !Blocked(t, c) && l in t && c in Holding(t[l])
    requires forall x :: x in behind <==> x in Waiting(t[l])
    requires forall x :: x in still <==> x in Waiting(Release(t[l], c))
    requires forall x :: x in heads <==> x in Holding(Release(t[l], c))
    ensures Edges(ReleaseAt(t, l, c)) == Edges(t) - Pairs(behind, [c]) + Pairs(still, heads)
  {
    var t' := ReleaseAt(t, l, c);
    var g' := Edges(t) - Pairs(behind, [c]) + Pairs(still, heads);
    forall x: nat, y: nat ensures (x, y) in Edges(t') <==> (x, y) in g' {
      ReleaseEdge(t, l, c, x, y);
    }
  }

  lemma ReleaseEdge(t: Table, l: nat, c: nat, x: nat, y: nat)
    requires TableOk(t) && !Blocked(t, c) && l in t && c in Holding(t[l])
    ensures (x, y) in Edges(ReleaseAt(t, l, c)) <==>
      ((x, y) in Edges(t) && !(x in Waiting(t[l]) && y == c)) || EdgeOf(Release(t[l], c), x, y)
  {
    var t' := ReleaseAt(t, l, c);
    ReleaseEffect(t[l], c);
    SameEdgeElsewhere(t, t', l, x, y);
    if (x, y) in Edges(t) && x in Waiting(t[l]) {
      var m := EdgeWitness(t, x, y);
      assert m == l;
      if x !in Waiting(t'[l]) {
        GrantedAlone(t[l], c, x);
      }
    }
    if (x, y) in Edges(t') && !EdgeOf(t'[l], x, y) {
      var m := EdgeWitness(t', x, y);
      assert m != l && t'[m] == t[m];
    }
  }

  /** lock_unlock as it is written in src/lock.c:399-406 sets the cells of everybody
      behind the head to true instead of clearing them. That leaves the matrix equal
      to the wait relation exactly when nobody is behind the head. */
  lemma UnlockAsWritten(t: Table, l: nat, c: nat)
    requires TableOk(t) && !Blocked(t, c) && l in t && c in Holding(t[l])
    ensures Edges(t) + Pairs(Behind(t[l], |t[l]|), [c]) == Edges(ReleaseAt(t, l, c)) <==> |t[l]| == 1
  {
    var q := t[l];
    var behind := Behind(q, |q|);
    BehindMembers(q, |q|);
    if |q| == 1 {
      forall x: nat, y: nat ensures (x, y) in Edges(t) <==> (x, y) in Edges(ReleaseAt(t, l, c)) {
        ReleaseEdge(t, l, c, x, y);
        ReleaseEffect(q, c);
      }
      assert Pairs(behind, [c]) == {};
    } else {
      assert GroupOk(q[1]);
      var w := q[1].entries[0];
      assert w in q[1].entries;
      assert w in Waiting(q) && w != c;
      assert (w, c) in Pairs(behind, [c]);
      ReleaseEffect(q, c);
      ReleaseShape(q, c);
      ReleaseEdge(t, l, c, w, c);
      LeaverHoldsNot(q, c);
    }
  }

  lemma LeaverHoldsNot(q: Queue, c: nat)
    requires WellFormed(q) && c !in Waiting(q)
    ensures c !in Holding(Release(q, c))
  {
    ReleaseEffect(q, c);
  }

  /** The code leaves a victim's row of the matrix as it is (src/lock.c:295-322), which is
      never right: whoever is faulted waits for somebody. */
  lemma FaultAsWritten(t: Table, v: nat)
    requires Shaped(t) && Blocked(t, v)
    ensures Edges(WithdrawTx(t, v)) < Edges(t)
  {
    WithdrawTable(t, v);
    BlockedWaits(t, v);
  }

  /** A shared request that joins the last group tells the detector nothing in
      src/lock.c:189-204. That is right exactly when the group it joins holds the
      lock; a joiner that has to wait is missing from the graph. */
  lemma JoinAsWritten(t: Table, l: nat, c: nat)
    requires TableOk(t) && !Blocked(t, c) && l in t && t[l] != []
    requires c !in Holding(t[l]) && t[l][|t[l]| - 1].mode == Shared
    ensures Edges(RequestAt(t, l, Shared, c).0) == Edges(t) <==> |t[l]| == 1
  {
    RequestTable(t, l, Shared, c);
    assert c !in Waiting(t[l]);
    RequestEffect(t[l], Shared, c);
    if |t[l]| > 1 {
      var y :| y in Holding(t[l]) - {c};
      assert (c, y) in NewEdges(t[l], c);
      assert (c, y) !in Edges(t) by {
        if (c, y) in Edges(t) {
          var m := EdgeWitness(t, c, y);
        }
      }
    }
  }

  class Locks {
    const maxTasks: nat
    const matrix: array<bool>
    const txByCid: array<nat>       // the sid of the transaction behind a blocked cid
    const blockedLock: array<nat>   // the lock a blocked cid waits for
    var queues: Table

    ghost predicate Separate()
    {
      matrix.Length == maxTasks * maxTasks && txByCid.Length == maxTasks && blockedLock.Length == maxTasks
      && txByCid != blockedLock
    }

    /** The matrix is exactly the wait relation read off the queues, and the bookkeeping
        of blocked transactions is in step. */
    ghost predicate InStep()
      reads this, matrix, txByCid, blockedLock
    {
      && Separate()
      && Represents(matrix[..], maxTasks, Edges(queues))
      && Tracked(queues, maxTasks, blockedLock[..])
    }

    ghost predicate Valid()
      reads this, matrix, txByCid, blockedLock
    {
      InStep() && TableOk(queues)
    }

    /** Blocked transactions are known by the sids given. */
    ghost predicate Knows(sids: map<nat, nat>)
      reads this, txByCid
      requires Separate()
    {
      Known(queues, maxTasks, txByCid[..], sids)
    }

    constructor (maxTasks: nat)
      ensures Valid() && this.maxTasks == maxTasks && queues == map[]
      ensures fresh(matrix) && fresh(txByCid) && fresh(blockedLock)
      ensures forall i :: 0 <= i < matrix.Length ==> !matrix[i]
    {
      this.maxTasks := maxTasks;
      var size := maxTasks * maxTasks;
      matrix := new bool[size](_ => false);
      txByCid := new nat[maxTasks](_ => 0);
      blockedLock := new nat[maxTasks](_ => 0);
      queues := map[];
      new;
      assert Edges(queues) == {};
      RankedAcyclic(Edges(queues), x => x);
    }

    /** Write every edge from xs to ys, except from a transaction to itself. */
    method MarkEdges(xs: seq<nat>, ys: seq<nat>, b: bool, ghost g: Graph)
      requires Separate() && Represents(matrix[..], maxTasks, g)
      requires InRange(xs, maxTasks) && InRange(ys, maxTasks)
      modifies matrix
      ensures Represents(matrix[..], maxTasks, if b then g + Pairs(xs, ys) else g - Pairs(xs, ys))
    {
      ghost var h := g;
      for i := 0 to |xs|
        invariant h == if b then g + Pairs(xs[..i], ys) else g - Pairs(xs[..i], ys)
        invariant Represents(matrix[..], maxTasks, h)
      {
        assert xs[i] in xs;
        MarkRow(xs[i], ys, b, h);
        h := if b then h + Pairs([xs[i]], ys) else h - Pairs([xs[i]], ys);
        assert xs[..i + 1] == xs[..i] + [xs[i]];
        assert Pairs(xs[..i + 1], ys) == Pairs(xs[..i], ys) + Pairs([xs[i]], ys);
      }
      assert xs[..|xs|] == xs;
    }

    /** One row of that: what x waits for. */
    method MarkRow(x: nat, ys: seq<nat>, b: bool, ghost g: Graph)
      requires Separate() && Represents(matrix[..], maxTasks, g)
      requires x < maxTasks && InRange(ys, maxTasks)
      modifies matrix
      ensures Represents(matrix[..], maxTasks, if b then g + Pairs([x], ys) else g - Pairs([x], ys))
    {
      ghost var h := g;
      for j := 0 to |ys|
        invariant h == if b then g + Pairs([x], ys[..j]) else g - Pairs([x], ys[..j])
        invariant Represents(matrix[..], maxTasks, h)
      {
        assert ys[j] in ys;
        assert ys[..j + 1] == ys[..j] + [ys[j]];
        if x != ys[j] {
          WriteCell(matrix[..], maxTasks, h, x, ys[j], b);
          ghost var before := matrix[..];
          var k := Cell(maxTasks, x, ys[j]);
          matrix[k] := b;
          assert matrix[..] == before[k := b];
          h := if b then h + {(x, ys[j])} else h - {(x, ys[j])};
          assert Pairs([x], ys[..j + 1]) == Pairs([x], ys[..j]) + {(x, ys[j])};
        } else {
          assert Pairs([x], ys[..j + 1]) == Pairs([x], ys[..j]);
        }
      }
      assert ys[..|ys|] == ys;
    }

    /** The detector learns about one blocked request: edges to the other holders, and
        where the requester waits. */
    method NoteWait(l: nat, cid: nat, sid: nat, ghost mode: Mode, ghost sids: map<nat, nat>, ghost t: Table)
      requires Separate() && cid < maxTasks && TableOk(t) && !Blocked(t, cid)
      requires Represents(matrix[..], maxTasks, Edges(t)) && Tracked(t, maxTasks, blockedLock[..])
      requires Known(t, maxTasks, txByCid[..], sids) && cid in sids && sids[cid] == sid
      requires RequestAt(t, l, mode, cid) == (queues, Wait)
      modifies matrix, txByCid, blockedLock
      ensures InStep() && Knows(sids) && txByCid[cid] == sid
    {
      RequestTable(t, l, mode, cid);
      TrackRequest(t, l, mode, cid, maxTasks, blockedLock[..]);
      KnowRequest(t, l, mode, cid, maxTasks, txByCid[..], sids);
      WaitHeads(t, l, mode, cid);
      ghost var where, txs := blockedLock[..], txByCid[..];
      var heads := queues[l][0].entries;
      forall y | y in heads ensures y < maxTasks {
        assert y in Members(t[l]);
      }
      MarkEdges([cid], heads, true, Edges(t));
      assert Pairs([cid], heads) == NewEdges(At(t, l), cid);
      txByCid[cid] := sid;
      blockedLock[cid] := l;
      assert blockedLock[..] == where[cid := l] && txByCid[..] == txs[cid := sid];
    }

    lemma WaitHeads(t: Table, l: nat, mode: Mode, c: nat)
      requires TableOk(t) && !Blocked(t, c) && RequestAt(t, l, mode, c).1 == Wait
      ensures var t' := RequestAt(t, l, mode, c).0;
        l in t && t'[l] != [] && t[l] != [] && t'[l][0] == t[l][0]
    {
      assert c !in Waiting(At(t, l)) && WellFormed(At(t, l));
      RequestEffect(At(t, l), mode, c);
    }

    /** Withdraw a faulted transaction from the group it waits in, wherever that is,
        and clear its row. */
    method Fault(v: nat, ghost sids: map<nat, nat>)
      requires InStep() && Shaped(queues) && Blocked(queues, v) && Knows(sids)
      modifies this`queues, matrix
      ensures InStep() && Knows(sids) && queues == WithdrawTx(old(queues), v)
    {
      ghost var t := queues;
      var fl := blockedLock[v];
      WithdrawOne(t, v, fl);
      TrackWithdraw(t, v, maxTasks, blockedLock[..], txByCid[..], sids);
      WithdrawTable(t, v);
      queues := queues[fl := Withdraw(queues[fl], v)];
      var all := seq(maxTasks, i => i);
      assert forall x :: 0 <= x < maxTasks ==> all[x] == x;
      ClearedRow(Edges(t), v, all, maxTasks);
      MarkEdges([v], all, false, Edges(t));
    }

    lemma WithdrawOne(t: Table, v: nat, fl: nat)
      requires Shaped(t) && Blocked(t, v)
      requires forall l :: l in t && v in Waiting(t[l]) ==> l == fl
      ensures fl in t && WithdrawTx(t, v) == t[fl := Withdraw(t[fl], v)]
    {
      var l :| l in t && v in Waiting(t[l]);
      forall k | k in t && k != fl ensures Withdraw(t[k], v) == t[k] {
        NotWaitingUnmoved(t[k], v);
      }
    }

    lemma ClearedRow(g: Graph, v: nat, all: seq<nat>, n: nat)
      requires |all| == n && forall x :: 0 <= x < n ==> all[x] == x
      requires forall e :: e in g ==> e.0 != e.1 && e.1 < n
      ensures g - Pairs([v], all) == Mute(g, v)
    {
      forall e | e in g && e.0 == v ensures e in Pairs([v], all) {
        assert all[e.1] == e.1;
      }
    }

    /** lock_lock, up to the point where the caller goes to sleep. A request that has to
        wait searches the wait-for graph and faults the youngest transaction of a cycle
        through the requester, until no such cycle is left. */
    method LockLock(l: nat, mode: Mode, cid: nat, sid: nat, ghost sids: map<nat, nat>)
      returns (code: LockCode, victims: seq<nat>)
      requires Valid() && Knows(sids) && cid < maxTasks && !Blocked(queues, cid)
      requires cid in sids && sids[cid] == sid
      modifies this`queues, matrix, txByCid, blockedLock
      ensures Valid() && Knows(sids)
      ensures var (t, a) := RequestAt(old(queues), l, mode, cid);
        && (a == Taken ==> code == LockTaken && queues == t && victims == [])
        && (a == Stale ==> code == LockStale && queues == t == old(queues) && victims == [])
        && (a == Wait ==>
              && FaultRun(t, cid, sids, victims) && queues == WithdrawAll(t, victims)
              && code == if cid in victims then LockDeadlock else LockWaiting)
    {
      ghost var t0 := queues;
      ghost var (t, a) := RequestAt(queues, l, mode, cid);
      victims := [];
      RequestTable(t0, l, mode, cid);
      TrackRequest(t0, l, mode, cid, maxTasks, blockedLock[..]);
      KnowRequest(t0, l, mode, cid, maxTasks, txByCid[..], sids);
      var (q, answer) := Request(if l in queues then queues[l] else [], mode, cid);
      queues := queues[l := q];
      if answer != Wait {
        code := if answer == Taken then LockTaken else LockStale;
        StaleSame(t0, l, mode, cid);
        return;
      }
      NoteWait(l, cid, sid, mode, sids, t0);
      victims := Resolve(cid, sids);
      code := if cid in victims then LockDeadlock else LockWaiting;
      FaultsRestore(t, cid, sids, victims);
    }

    lemma StaleSame(t: Table, l: nat, mode: Mode, cid: nat)
      ensures RequestAt(t, l, mode, cid).1 == Stale ==> RequestAt(t, l, mode, cid).0 == t
    {
    }

    /** lock_unlock: leave the head group, hand the lock on when the group is empty or
        down to the transaction that upgrades, and tell the detector. The edges to the
        leaver are cleared, and everybody still behind waits for the new head. */
    method LockUnlock(l: nat, cid: nat, ghost sids: map<nat, nat>)
      requires Valid() && Knows(sids) && cid < maxTasks && !Blocked(queues, cid)
      modifies this`queues, matrix
      ensures Valid() && Knows(sids) && queues == ReleaseAt(old(queues), l, cid)
    {
      if l !in queues || queues[l] == [] || cid !in queues[l][0].entries {
        assert l in queues ==> Release(queues[l], cid) == queues[l];
        return;
      }
      hide Release, Edges;
      ghost var t := queues;
      var q := queues[l];
      queues := queues[l := Release(q, cid)];
      assert Released(t, queues, cid);
      ReleaseTable(t, queues, cid);
      TrackRelease(t, queues, cid, maxTasks, blockedLock[..], txByCid[..], sids);
      ReleaseEffect(q, cid);
      UpdateEdges(q, queues[l], cid, Edges(t));
      BehindMembers(q, |q|);
      BehindMembers(queues[l], |queues[l]|);
      ReleaseEdges(t, l, cid, Behind(q, |q|), Behind(queues[l], |queues[l]|), Heads(queues[l]));
    }

    method UpdateEdges(q: Queue, q': Queue, cid: nat, ghost g: Graph)
      requires Separate() && Represents(matrix[..], maxTasks, g) && cid < maxTasks
      requires forall x :: x in Members(q) ==> x < maxTasks
      requires forall x :: x in Members(q') ==> x < maxTasks
      modifies matrix
      ensures Represents(matrix[..], maxTasks,
                         g - Pairs(Behind(q, |q|), [cid]) + Pairs(Behind(q', |q'|), Heads(q')))
    {
      MarkBehind(q, [cid], false, g);
      forall x | x in Heads(q') ensures x < maxTasks {
        assert x in Members(q');
      }
      MarkBehind(q', Heads(q'), true, g - Pairs(Behind(q, |q|), [cid]));
    }

    /** Write the edges from everybody behind the head of q to all of ys. */
    method MarkBehind(q: Queue, ys: seq<nat>, b: bool, ghost g: Graph)
      requires Separate() && Represents(matrix[..], maxTasks, g) && InRange(ys, maxTasks)
      requires forall x :: x in Members(q) ==> x < maxTasks
      modifies matrix
      ensures var behind := Pairs(Behind(q, |q|), ys);
        Represents(matrix[..], maxTasks, if b then g + behind else g - behind)
    {
      ghost var h := g;
      var k := 1;
      while k < |q|
        invariant 1 <= k && (k <= |q| || |q| == 0)
        invariant var done := Pairs(Behind(q, if k <= |q| then k else 0), ys); h == if b then g + done else g - done
        invariant Represents(matrix[..], maxTasks, h)
      {
        forall x | x in q[k].entries ensures x < maxTasks {
          BehindWaits(q, k, x);
        }
        MarkEdges(q[k].entries, ys, b, h);
        h := if b then h + Pairs(q[k].entries, ys) else h - Pairs(q[k].entries, ys);
        PairsConcat(Behind(q, k), q[k].entries, ys);
        k := k + 1;
      }
    }

    lemma BehindWaits(q: Queue, k: nat, x: nat)
      requires 1 <= k < |q| && x in q[k].entries
      ensures x in Members(q)
    {
    }

    lemma PairsConcat(a: seq<nat>, b: seq<nat>, ys: seq<nat>)
      ensures Pairs(a + b, ys) == Pairs(a, ys) + Pairs(b, ys)
    {
    }

    /** Search, fault the victim, and repeat until nothing is found. */
    method Resolve(root: nat, ghost sids: map<nat, nat>) returns (victims: seq<nat>)
      requires InStep() && Shaped(queues) && Knows(sids) && root < maxTasks
      requires root in sids && txByCid[root] == sids[root]
      requires Acyclic(Mute(Edges(queues), root))
      modifies this`queues, matrix
      ensures InStep() && Knows(sids)
      ensures FaultRun(old(queues), root, sids, victims) && queues == WithdrawAll(old(queues), victims)
    {
      ghost var t := queues;
      victims := [];
      while true
        invariant InStep() && Shaped(queues) && Knows(sids)
        invariant Acyclic(Mute(Edges(queues), root))
        invariant FaultSteps(t, root, sids, victims) && queues == WithdrawAll(t, victims)
        decreases Edges(queues)
      {
        ghost var g := Edges(queues);
        KnownSearchers(sids);
        var res := WfgDfs(matrix, maxTasks, txByCid, root, root, g, sids);
        if res.None? {
          FaultsDone(t, root, sids, victims);
          return;
        }
        var v := res.value;
        WholeCycle(g, root, sids, v);
        FaultOneMore(t, root, sids, victims, v);
        FaultProgress(queues, root, sids, v);
        Fault(v, sids);
        victims := victims + [v];
      }
    }

    lemma FaultProgress(t: Table, root: nat, sids: map<nat, nat>, v: nat)
      requires Shaped(t) && Acyclic(Mute(Edges(t), root)) && YoungestOnCycle(Edges(t), sids, root, v)
      ensures Blocked(t, v) && Shaped(WithdrawTx(t, v)) && Acyclic(Mute(Edges(WithdrawTx(t, v)), root))
      ensures Edges(WithdrawTx(t, v)) < Edges(t)
    {
      OnCycleBlocked(t, sids, root, v);
      WithdrawTable(t, v);
      MuteKeepsRooted(Edges(t), root, v);
      BlockedWaits(t, v);
      var y :| (v, y) in Edges(t);
      assert (v, y) !in Mute(Edges(t), v);
    }

    lemma KnownSearchers(sids: map<nat, nat>)
      requires Separate() && Shaped(queues) && Knows(sids)
      ensures forall x: nat :: HasOut(Edges(queues), x) ==> x < maxTasks && x in sids && txByCid[x] == sids[x]
    {
      hide Edges;
      forall x: nat | HasOut(Edges(queues), x) ensures x < maxTasks && x in sids && txByCid[x] == sids[x] {
        BlockedWaits(queues, x);
      }
    }

    lemma WholeCycle(g: Graph, root: nat, sids: map<nat, nat>, v: nat)
      requires exists p :: IsWalk(g, p, root, root) && Youngest(sids, p[1..], v)
      ensures YoungestOnCycle(g, sids, root, v)
    {
      var p :| IsWalk(g, p, root, root) && Youngest(sids, p[1..], v);
      assert p == [p[0]] + p[1..];
      assert p[0] == p[1..][|p| - 2];
      assert Youngest(sids, p, v);
    }
  }
}

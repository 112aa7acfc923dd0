/** Replaying operations one after the other, and the laws of reordering them. */
module Serial {
  import opened Wrappers
  import opened TxSystem

  type Globals = map<Key, int>
  type History = seq<(nat, Op)>

  /** One operation on its own: a read must see what it recorded. */
  function DoOp(g: Globals, op: Op): Option<Globals> {
    match op
    case Read(k, v) => if Lookup(g, k) == v then Some(g) else None
    case Write(k, v) => Some(g[k := v])
  }

  /** Run the operations in order; None when some read would see another value. */
  function Replay(g: Globals, ops: seq<Op>): Option<Globals>
    decreases |ops|
  {
    if ops == [] then Some(g)
    else match DoOp(g, ops[0])
      case None => None
      case Some(h) => Replay(h, ops[1..])
  }

  /** The operations of one transaction, in order. */
  function Project(hist: History, sid: nat): seq<Op>
    decreases |hist|
  {
    if hist == [] then []
    else Project(hist[..|hist| - 1], sid)
         + if hist[|hist| - 1].0 == sid then [hist[|hist| - 1].1] else []
  }

  /** One transaction after the other, in the given order. */
  function Serialize(hist: History, order: seq<nat>): seq<Op> {
    if order == [] then [] else Project(hist, order[0]) + Serialize(hist, order[1..])
  }

  lemma {:induction false} ReplayConcat(g: Globals, a: seq<Op>, b: seq<Op>)
    ensures Replay(g, a + b) == match Replay(g, a) case None => None case Some(h) => Replay(h, b)
    decreases |a|
  {
    if a == [] {
      assert a + b == b;
    } else {
      assert (a + b)[1..] == a[1..] + b;
      match DoOp(g, a[0])
      case None =>
      case Some(h) => ReplayConcat(h, a[1..], b);
    }
  }

  /** Two operations that do not conflict: on different objects, or both reads. */
  predicate Independent(p: Op, q: Op) {
    p.key.0 != q.key.0 || (p.Read? && q.Read?)
  }

  lemma SwapTwo(g: Globals, p: Op, q: Op)
    requires Independent(p, q)
    ensures Replay(g, [p, q]) == Replay(g, [q, p])
  {
    var pq, qp := [p, q], [q, p];
    assert pq[1..] == [q] && qp[1..] == [p];
    if p.Write? && q.Write? {
      assert g[p.key := p.value][q.key := q.value] == g[q.key := q.value][p.key := p.value];
    }
  }

  /** An operation moves to the front of operations it does not conflict with. */
  lemma {:induction false} MoveFront(g: Globals, ys: seq<Op>, op: Op)
    requires forall i :: 0 <= i < |ys| ==> Independent(op, ys[i])
    ensures Replay(g, ys + [op]) == Replay(g, [op] + ys)
    decreases |ys|
  {
    if ys == [] {
      assert ys + [op] == [op] + ys;
    } else {
      var y, rest := ys[0], ys[1..];
      assert ys + [op] == [y] + (rest + [op]);
      ReplayConcat(g, [y], rest + [op]);
      match DoOp(g, y) {
        case None =>
        case Some(h) => MoveFront(h, rest, op);
      }
      ReplayConcat(g, [y], [op] + rest);
      assert [y] + ([op] + rest) == [y, op] + rest;
      ReplayConcat(g, [y, op], rest);
      SwapTwo(g, op, y);
      assert [op] + ys == [op, y] + rest;
      ReplayConcat(g, [op, y], rest);
    }
  }

  // ----- how the serial history grows -----

  lemma {:induction false} SerializeConcat(hist: History, a: seq<nat>, b: seq<nat>)
    ensures Serialize(hist, a + b) == Serialize(hist, a) + Serialize(hist, b)
    decreases |a|
  {
    if a == [] {
      assert a + b == b;
    } else {
      assert (a + b)[1..] == a[1..] + b;
      SerializeConcat(hist, a[1..], b);
    }
  }

  lemma ProjectAppend(hist: History, e: (nat, Op), sid: nat)
    ensures Project(hist + [e], sid) == Project(hist, sid) + if e.0 == sid then [e.1] else []
  {
    assert (hist + [e])[..|hist|] == hist;
  }

  lemma {:induction false} SerializeOther(hist: History, e: (nat, Op), order: seq<nat>)
    requires e.0 !in order
    ensures Serialize(hist + [e], order) == Serialize(hist, order)
  {
    if order != [] {
      ProjectAppend(hist, e, order[0]);
      SerializeOther(hist, e, order[1..]);
    }
  }

  lemma {:induction false} ProjectEmpty(hist: History, sid: nat)
    requires forall i :: 0 <= i < |hist| ==> hist[i].0 != sid
    ensures Project(hist, sid) == []
    decreases |hist|
  {
    if hist != [] {
      ProjectEmpty(hist[..|hist| - 1], sid);
    }
  }

  lemma {:induction false} ProjectFrom(hist: History, sid: nat, j: nat)
    requires j < |Project(hist, sid)|
    ensures exists i :: 0 <= i < |hist| && hist[i] == (sid, Project(hist, sid)[j])
    decreases |hist|
  {
    var n := |hist| - 1;
    var front := hist[..n];
    if j < |Project(front, sid)| {
      ProjectFrom(front, sid, j);
      var i :| 0 <= i < |front| && front[i] == (sid, Project(front, sid)[j]);
      assert hist[i] == (sid, Project(hist, sid)[j]);
    } else {
      assert hist[n] == (sid, Project(hist, sid)[j]);
    }
  }

  lemma {:induction false} ProjectShort(hist: History, sid: nat)
    ensures |Project(hist, sid)| <= |hist|
    decreases |hist|
  {
    if hist != [] {
      ProjectShort(hist[..|hist| - 1], sid);
    }
  }

  /** Every serialized operation was performed by a transaction in the order. */
  lemma {:induction false} SerializeFrom(hist: History, order: seq<nat>, j: nat)
    requires j < |Serialize(hist, order)|
    ensures exists i :: 0 <= i < |hist| && hist[i].0 in order && hist[i].1 == Serialize(hist, order)[j]
  {
    var p := Project(hist, order[0]);
    if j < |p| {
      ProjectFrom(hist, order[0], j);
    } else {
      SerializeFrom(hist, order[1..], j - |p|);
      var i :| 0 <= i < |hist| && hist[i].0 in order[1..] && hist[i].1 == Serialize(hist, order[1..])[j - |p|];
      assert hist[i].0 in order;
    }
  }

  /** An operation inserted in front of operations it does not conflict with acts as
      if it came last. */
  lemma ReplayInsert(init: Globals, xs: seq<Op>, op: Op, ys: seq<Op>, g: Globals)
    requires Replay(init, xs + ys) == Some(g)
    requires forall j :: 0 <= j < |ys| ==> Independent(op, ys[j])
    ensures Replay(init, xs + ([op] + ys)) == DoOp(g, op)
  {
    ReplayConcat(init, xs, ys);
    ReplayConcat(init, xs, [op] + ys);
    var h := Replay(init, xs).value;
    MoveFront(h, ys, op);
    ReplayConcat(h, ys, [op]);
    assert [op][1..] == [];
  }

  lemma SerializeLast(hist: History, before: seq<nat>, sid: nat, op: Op)
    requires sid !in before
    ensures Serialize(hist + [(sid, op)], before + [sid]) == Serialize(hist, before + [sid]) + [op]
  {
    hide Serialize, Project, Replay;
    var hist' := hist + [(sid, op)];
    SerializeConcat(hist, before, [sid]);
    SerializeConcat(hist', before, [sid]);
    SerializeOther(hist, (sid, op), before);
    ProjectAppend(hist, (sid, op), sid);
    OneSerialized(hist, sid);
    OneSerialized(hist', sid);
    assert Serialize(hist, before) + (Project(hist, sid) + [op])
        == (Serialize(hist, before) + Project(hist, sid)) + [op];
  }

  lemma SerializeInPlace(hist: History, before: seq<nat>, sid: nat, behind: seq<nat>, op: Op)
    requires sid !in before && sid !in behind
    ensures Serialize(hist + [(sid, op)], before + [sid] + behind)
         == Serialize(hist, before + [sid]) + ([op] + Serialize(hist, behind))
  {
    hide Serialize, Project, Replay;
    SerializeConcat(hist + [(sid, op)], before + [sid], behind);
    SerializeOther(hist, (sid, op), behind);
    SerializeLast(hist, before, sid, op);
    var xs, ys := Serialize(hist, before + [sid]), Serialize(hist, behind);
    assert (xs + [op]) + ys == xs + ([op] + ys);
  }

  /** A new operation of sid, last in time, replays in sid's own place of the serial
      order when it conflicts with nothing serialized behind it. */
  lemma AppendInPlace(init: Globals, hist: History, before: seq<nat>, sid: nat, behind: seq<nat>, op: Op,
                      g: Globals)
    requires sid !in before && sid !in behind
    requires Replay(init, Serialize(hist, before + [sid] + behind)) == Some(g)
    requires forall j :: 0 <= j < |Serialize(hist, behind)| ==> Independent(op, Serialize(hist, behind)[j])
    ensures Replay(init, Serialize(hist + [(sid, op)], before + [sid] + behind)) == DoOp(g, op)
  {
    SerializeConcat(hist, before + [sid], behind);
    SerializeInPlace(hist, before, sid, behind, op);
    ReplayInsert(init, Serialize(hist, before + [sid]), op, Serialize(hist, behind), g);
  }

  lemma OneSerialized(hist: History, sid: nat)
    ensures Serialize(hist, [sid]) == Project(hist, sid)
  {
    assert [sid][1..] == [];
  }

  // ----- transactions that wrote nothing can be left out -----

  predicate ReadOnly(ops: seq<Op>) {
    forall i :: 0 <= i < |ops| ==> ops[i].Read?
  }

  lemma {:induction false} ReadOnlyReplay(g: Globals, ops: seq<Op>)
    requires ReadOnly(ops) && Replay(g, ops).Some?
    ensures Replay(g, ops) == Some(g)
    decreases |ops|
  {
    if ops != [] {
      ReadOnlyReplay(g, ops[1..]);
    }
  }

  function Without(order: seq<nat>, out: set<nat>): seq<nat> {
    if order == [] then []
    else (if order[0] in out then [] else [order[0]]) + Without(order[1..], out)
  }

  lemma {:induction false} DropReadOnly(g: Globals, hist: History, order: seq<nat>, out: set<nat>)
    requires Replay(g, Serialize(hist, order)).Some?
    requires forall t :: t in out ==> ReadOnly(Project(hist, t))
    ensures Replay(g, Serialize(hist, Without(order, out))) == Replay(g, Serialize(hist, order))
    decreases |order|
  {
    if order != [] {
      var p, rest := Project(hist, order[0]), order[1..];
      ReplayConcat(g, p, Serialize(hist, rest));
      var h := Replay(g, p).value;
      DropReadOnly(h, hist, rest, out);
      if order[0] in out {
        ReadOnlyReplay(g, p);
        assert [] + Without(rest, out) == Without(rest, out);
      } else {
        var kept := [order[0]] + Without(rest, out);
        assert kept[1..] == Without(rest, out);
        ReplayConcat(g, p, Serialize(hist, Without(rest, out)));
      }
    }
  }

  // ----- transactions as deterministic programs -----

  /** What a program does next, given everything it has done and read so far. */
  datatype Intent = WantRead(key: Key) | WantWrite(key: Key, value: int) | Done
  type Program = seq<Op> -> Intent

  /** The recorded operations are the ones the program asks for. */
  ghost predicate Follows(p: Program, ops: seq<Op>) {
    forall i :: 0 <= i < |ops| ==> Asks(p(ops[..i]), ops[i])
  }

  predicate Asks(w: Intent, op: Op) {
    match w
    case WantRead(k) => op.Read? && op.key == k
    case WantWrite(k, v) => op == Write(k, v)
    case Done => false
  }

  /** Up to n steps of a program running alone: what it did, and the globals after. */
  function Solo(p: Program, g: Globals, n: nat): (seq<Op>, Globals) {
    if n == 0 then ([], g)
    else
      var (ops, h) := Solo(p, g, n - 1);
      match p(ops)
      case WantRead(k) => (ops + [Read(k, Lookup(h, k))], h)
      case WantWrite(k, v) => (ops + [Write(k, v)], h[k := v])
      case Done => (ops, h)
  }

  lemma {:induction false} SoloAgrees(p: Program, g: Globals, ops: seq<Op>, h: Globals, n: nat)
    requires Follows(p, ops) && p(ops) == Done && Replay(g, ops) == Some(h) && n >= |ops|
    ensures Solo(p, g, n) == (ops, h)
    decreases n
  {
    if n == |ops| {
      SoloPrefix(p, g, ops, h);
    } else {
      SoloAgrees(p, g, ops, h, n - 1);
    }
  }

  lemma {:induction false} SoloPrefix(p: Program, g: Globals, ops: seq<Op>, h: Globals)
    requires Follows(p, ops) && Replay(g, ops) == Some(h)
    ensures Solo(p, g, |ops|) == (ops, h)
    decreases |ops|
  {
    if ops != [] {
      var n := |ops| - 1;
      var front := ops[..n];
      assert ops == front + [ops[n]];
      ReplayConcat(g, front, [ops[n]]);
      forall i | 0 <= i < n ensures Asks(p(front[..i]), front[i]) {
        assert front[..i] == ops[..i];
      }
      SoloPrefix(p, g, front, Replay(g, front).value);
      assert Asks(p(ops[..n]), ops[n]);
      assert [ops[n]][1..] == [];
    }
  }

  /** The programs one at a time, in the given order: all operations, and the final
      globals. */
  function SerialRun(progs: nat -> Program, g: Globals, order: seq<nat>, n: nat): (seq<Op>, Globals)
    decreases |order|
  {
    if order == [] then ([], g)
    else
      var (ops, h) := Solo(progs(order[0]), g, n);
      var (more, k) := SerialRun(progs, h, order[1..], n);
      (ops + more, k)
  }

  /** Replaying what complete programs recorded is running them one at a time. */
  lemma {:induction false} ReplayIsSerialRun(progs: nat -> Program, g: Globals, hist: History, order: seq<nat>, n: nat)
    requires n >= |hist| && Replay(g, Serialize(hist, order)).Some?
    requires forall t :: t in order ==> Follows(progs(t), Project(hist, t)) && progs(t)(Project(hist, t)) == Done
    ensures SerialRun(progs, g, order, n) == (Serialize(hist, order), Replay(g, Serialize(hist, order)).value)
    decreases |order|
  {
    if order != [] {
      var t, rest := order[0], order[1..];
      ReplayConcat(g, Project(hist, t), Serialize(hist, rest));
      var h := Replay(g, Project(hist, t)).value;
      ProjectShort(hist, t);
      SoloAgrees(progs(t), g, Project(hist, t), h, n);
      ReplayIsSerialRun(progs, h, hist, rest, n);
    }
  }
}

/** The flat boolean matrix that stores the wait-for graph, and the depth-first
    search that picks a deadlock victim from it. */
module WaitMatrix {
  import opened Wrappers
  import opened WaitForGraph

  /** Position of "x waits for y" in a matrix of n columns. */
  function Cell(n: nat, x: nat, y: nat): (i: nat)
    requires x < n && y < n
    ensures i < n * n
  {
    assert y * n <= (n - 1) * n;
    x + y * n
  }

  lemma RowsApart(n: nat, x: nat, y: nat, u: nat, v: nat)
    requires x < n && y < v && u < n && v < n
    ensures Cell(n, x, y) < Cell(n, u, v)
  {
    var d := v - (y + 1);
    assert v * n == (y + 1 + d) * n == (y + 1) * n + d * n;
    assert (y + 1) * n == y * n + n && d * n >= 0;
  }

  lemma CellInjective(n: nat, x: nat, y: nat, u: nat, v: nat)
    requires x < n && y < n && u < n && v < n
    requires Cell(n, x, y) == Cell(n, u, v)
    ensures x == u && y == v
  {
    if y < v {
      RowsApart(n, x, y, u, v);
    } else if v < y {
      RowsApart(n, u, v, x, y);
    }
  }

  ghost predicate Represents(m: seq<bool>, n: nat, g: Graph) {
    && |m| == n * n
    && (forall x: nat, y: nat :: x < n && y < n ==> (m[Cell(n, x, y)] <==> (x, y) in g))
    && (forall e :: e in g ==> e.0 < n && e.1 < n)
  }

  lemma PositiveFactor(x: int, n: nat)
    requires x * n > 0
    ensures x > 0
  {
  }

  /** Every position is the cell of its column and row. */
  lemma CellOnto(n: nat, i: nat)
    requires i < n * n
    ensures n > 0 && i % n < n && i / n < n && Cell(n, i % n, i / n) == i
  {
    assert (n - i / n) * n == n * n - i / n * n > 0;
    PositiveFactor(n - i / n, n);
  }

  /** The matrix of nobody waiting holds nothing. */
  lemma AllClear(m: seq<bool>, n: nat)
    requires Represents(m, n, {})
    ensures forall i :: 0 <= i < |m| ==> !m[i]
  {
    forall i | 0 <= i < |m| ensures !m[i] {
      CellOnto(n, i);
    }
  }

  /** Writing one cell adds or removes exactly one edge. */
  lemma WriteCell(m: seq<bool>, n: nat, g: Graph, x: nat, y: nat, b: bool)
    requires Represents(m, n, g) && x < n && y < n
    ensures Represents(m[Cell(n, x, y) := b], n, if b then g + {(x, y)} else g - {(x, y)})
  {
    forall u: nat, v: nat | u < n && v < n && Cell(n, u, v) == Cell(n, x, y)
      ensures u == x && v == y
    {
      CellInjective(n, u, v, x, y);
    }
  }

  /** v is the youngest member of p: nobody on p has a larger sequence id. */
  ghost predicate Youngest(sids: map<nat, nat>, p: seq<nat>, v: nat) {
    && v in p
    && (forall w :: w in p ==> w in sids)
    && (forall w :: w in p ==> sids[w] <= sids[v])
  }

  /** v is the youngest transaction on some cycle through root. */
  ghost predicate YoungestOnCycle(g: Graph, sids: map<nat, nat>, root: nat, v: nat) {
    exists p :: IsWalk(g, p, root, root) && Youngest(sids, p, v)
  }

  /** The recursive search, without a visited set: it looks from cid for a way back
      to root and answers the youngest transaction met on the way. It needs no
      visited set because only the root's own edges can close a cycle. */
  method WfgDfs(matrix: array<bool>, n: nat, txByCid: array<nat>, cid: nat, root: nat,
                ghost g: Graph, ghost sids: map<nat, nat>)
    returns (res: Option<nat>)
    requires Represents(matrix[..], n, g) && txByCid.Length == n
    requires cid < n && root < n
    requires Acyclic(Mute(g, root))
    requires forall x: nat :: HasOut(g, x) ==> x < n && x in sids && txByCid[x] == sids[x]
    requires root in sids && txByCid[root] == sids[root]
    ensures res.None? <==> !Reaches(g, cid, root)
    ensures res.Some? ==> exists p :: IsWalk(g, p, cid, root) && Youngest(sids, p[1..], res.value)
    decreases if cid == root then 1 else 0, Rank(Mute(g, root), cid)
  {
    var y := 0;
    while y < n
      invariant y <= n
      invariant forall z: nat :: z < y && (cid, z) in g ==> z != root && !Reaches(g, z, root)
    {
      if matrix[Cell(n, cid, y)] {
        assert (cid, y) in g;
        if y == root {
          ghost var p := [cid, root];
          assert IsWalk(g, p, cid, root) && p[1..] == [root];
          return Some(root);
        }
        EdgeRank(g, root, cid, y);
        var rec := WfgDfs(matrix, n, txByCid, y, root, g, sids);
        if rec.Some? {
          OneStepBack(g, cid, y, root, sids, rec.value);
          if txByCid[rec.value] < txByCid[y] {
            return Some(y);
          }
          return rec;
        }
      }
      y := y + 1;
    }
    NoWayBack(g, cid, root, n);
    return None;
  }

  /** Outside the root every edge leads down in rank: the search ends. */
  lemma EdgeRank(g: Graph, root: nat, x: nat, y: nat)
    requires Acyclic(Mute(g, root)) && (x, y) in g
    ensures x != root ==> Rank(Mute(g, root), y) < Rank(Mute(g, root), x)
  {
    if x != root {
      RankDrops(Mute(g, root), x, y);
    }
  }

  /** A way back from y, seen from a node that waits for y. */
  lemma OneStepBack(g: Graph, cid: nat, y: nat, root: nat, sids: map<nat, nat>, r: nat)
    requires (cid, y) in g && root in sids && forall x: nat :: HasOut(g, x) ==> x in sids
    requires exists q :: IsWalk(g, q, y, root) && Youngest(sids, q[1..], r)
    ensures HasOut(g, y) && (r == root || HasOut(g, r))
    ensures exists p :: IsWalk(g, p, cid, root) && Youngest(sids, p[1..], if sids[r] < sids[y] then y else r)
  {
    var q :| IsWalk(g, q, y, root) && Youngest(sids, q[1..], r);
    SearchedAllOut(g, q);
    assert q == [y] + q[1..];
    var p := Prepend(g, cid, q, y, root);
    assert Youngest(sids, p[1..], if sids[r] < sids[y] then y else r);
  }

  lemma NoWayBack(g: Graph, cid: nat, root: nat, n: nat)
    requires forall e :: e in g ==> e.1 < n
    requires forall z: nat :: z < n && (cid, z) in g ==> z != root && !Reaches(g, z, root)
    ensures !Reaches(g, cid, root)
  {
    if Reaches(g, cid, root) {
      FirstStep(g, cid, root);
      assert false;
    }
  }

  lemma Prepend(g: Graph, cid: nat, q: seq<nat>, y: nat, root: nat) returns (p: seq<nat>)
    requires (cid, y) in g && IsWalk(g, q, y, root)
    ensures p == [cid] + q && p[1..] == q && IsWalk(g, p, cid, root)
  {
    WalkJoin(g, [cid, y], q);
    p := [cid, y] + q[1..];
    assert p == [cid] + q;
  }

  /** Everybody on a walk, except perhaps its end, waits for someone. */
  lemma SearchedAllOut(g: Graph, q: seq<nat>)
    requires IsPath(g, q)
    ensures forall i :: 0 <= i < |q| - 1 ==> HasOut(g, q[i])
  {
    forall i | 0 <= i < |q| - 1 ensures HasOut(g, q[i]) {
      assert (q[i], q[i + 1]) in g;
    }
  }

  lemma FirstStep(g: Graph, x: nat, y: nat)
    requires Reaches(g, x, y)
    ensures exists z :: (x, z) in g && (z == y || Reaches(g, z, y))
  {
    var p :| IsWalk(g, p, x, y);
    assert (p[0], p[1]) in g;
    if |p| > 2 {
      WalkSuffix(g, p, 1);
      assert IsWalk(g, p[1..], p[1], y);
    }
  }
}

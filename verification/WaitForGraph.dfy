/** Directed graphs over small transaction ids: who waits for whom. The deadlock
    detector searches such a graph, so paths, cycles and ranks live here. */
module WaitForGraph {

  /** (x, y) is an edge when x waits for y. */
  type Graph = set<(nat, nat)>

  ghost predicate IsPath(g: Graph, p: seq<nat>) {
    |p| >= 1 && forall i :: 0 <= i < |p| - 1 ==> (p[i], p[i + 1]) in g
  }

  ghost predicate IsWalk(g: Graph, p: seq<nat>, x: nat, y: nat) {
    |p| >= 2 && IsPath(g, p) && p[0] == x && p[|p| - 1] == y
  }

  ghost predicate Reaches(g: Graph, x: nat, y: nat) {
    exists p :: IsWalk(g, p, x, y)
  }

  ghost predicate Acyclic(g: Graph) {
    forall x, p :: !IsWalk(g, p, x, x)
  }

  ghost predicate HasOut(g: Graph, x: nat) {
    exists y :: (x, y) in g
  }

  /** The graph without the edges that leave x. */
  function Mute(g: Graph, x: nat): Graph {
    set e | e in g && e.0 != x
  }

  lemma WalkSuffix(g: Graph, p: seq<nat>, i: nat)
    requires IsPath(g, p) && i < |p|
    ensures IsPath(g, p[i..])
  {
    var q := p[i..];
    forall k | 0 <= k < |q| - 1 ensures (q[k], q[k + 1]) in g {
      assert q[k] == p[i + k] && q[k + 1] == p[i + k + 1];
    }
  }

  lemma WalkPrefix(g: Graph, p: seq<nat>, i: nat)
    requires IsPath(g, p) && i < |p|
    ensures IsPath(g, p[..i + 1])
  {
    var q := p[..i + 1];
    forall k | 0 <= k < |q| - 1 ensures (q[k], q[k + 1]) in g {
      assert q[k] == p[k] && q[k + 1] == p[k + 1];
    }
  }

  lemma WalkJoin(g: Graph, p: seq<nat>, q: seq<nat>)
    requires IsPath(g, p) && IsPath(g, q) && p[|p| - 1] == q[0]
    ensures IsPath(g, p + q[1..])
  {
    var r := p + q[1..];
    forall k | 0 <= k < |r| - 1 ensures (r[k], r[k + 1]) in g {
      if k < |p| - 1 {
        assert r[k] == p[k] && r[k + 1] == p[k + 1];
      } else {
        var j := k - (|p| - 1);
        assert r[k] == q[j] && r[k + 1] == q[j + 1];
      }
    }
  }

  lemma ReachesTrans(g: Graph, x: nat, y: nat, z: nat)
    requires Reaches(g, x, y) && Reaches(g, y, z)
    ensures Reaches(g, x, z)
  {
    var p :| IsWalk(g, p, x, y);
    var q :| IsWalk(g, q, y, z);
    WalkJoin(g, p, q);
    assert IsWalk(g, p + q[1..], x, z);
  }

  lemma EdgeReaches(g: Graph, x: nat, y: nat)
    requires (x, y) in g
    ensures Reaches(g, x, y)
  {
    assert IsWalk(g, [x, y], x, y);
  }

  /** Removing edges keeps a graph acyclic. */
  lemma {:induction false} SubgraphAcyclic(g: Graph, h: Graph)
    requires h <= g && Acyclic(g)
    ensures Acyclic(h)
  {
    forall x, p ensures !IsWalk(h, p, x, x) {
      if IsWalk(h, p, x, x) {
        assert IsWalk(g, p, x, x);
      }
    }
  }

  /** New edges are harmless when each leads to a node that waits for nobody. */
  lemma SinkEdgesKeepAcyclic(g: Graph, h: Graph)
    requires Acyclic(g)
    requires forall e :: e in h && e !in g ==> !HasOut(h, e.1)
    ensures Acyclic(h)
  {
    forall x, p ensures !IsWalk(h, p, x, x) {
      if IsWalk(h, p, x, x) {
        forall i | 0 <= i < |p| - 1 ensures (p[i], p[i + 1]) in g {
          var next := if i + 2 < |p| then p[i + 2] else p[1];
          assert (p[i + 1], next) in h;
        }
        assert IsWalk(g, p, x, x);
      }
    }
  }

  // ----- ranks: the measure that bounds a search without a visited set -----

  ghost function Below(g: Graph, x: nat): set<nat> {
    set e | e in g && Reaches(g, x, e.1) :: e.1
  }

  ghost function Rank(g: Graph, x: nat): nat {
    |Below(g, x)|
  }

  lemma StrictSubset<T>(a: set<T>, b: set<T>)
    requires a < b
    ensures |a| < |b|
  {
    var d := b - a;
    assert b == a + d && a !! d;
    assert |b| == |a| + |d|;
    var e :| e in d;
    assert |d| > 0;
  }

  /** In an acyclic graph every edge leads to a node of smaller rank. */
  lemma RankDrops(g: Graph, x: nat, y: nat)
    requires Acyclic(g) && (x, y) in g
    ensures Rank(g, y) < Rank(g, x)
  {
    EdgeReaches(g, x, y);
    forall z | z in Below(g, y) ensures z in Below(g, x) {
      var e :| e in g && Reaches(g, y, e.1) && e.1 == z;
      ReachesTrans(g, x, y, z);
    }
    assert y in Below(g, x);
    assert y !in Below(g, y);
    StrictSubset(Below(g, y), Below(g, x));
  }

  /** Conversely, a rank that drops along every edge rules out cycles. */
  lemma {:induction false} RankedWalk(g: Graph, rank: nat -> nat, p: seq<nat>)
    requires forall e :: e in g ==> rank(e.1) < rank(e.0)
    requires IsPath(g, p)
    ensures |p| >= 2 ==> rank(p[|p| - 1]) < rank(p[0])
    decreases |p|
  {
    if |p| >= 2 {
      WalkSuffix(g, p, 1);
      RankedWalk(g, rank, p[1..]);
      assert (p[0], p[1]) in g;
    }
  }

  lemma RankedAcyclic(g: Graph, rank: nat -> nat)
    requires forall e :: e in g ==> rank(e.1) < rank(e.0)
    ensures Acyclic(g)
  {
    forall x, p ensures !IsWalk(g, p, x, x) {
      if IsPath(g, p) {
        RankedWalk(g, rank, p);
      }
    }
  }

  /** From any node of an acyclic graph that waits for someone, a chain of waits
      ends at a node that waits for nobody. */
  lemma {:induction false} ChainToSink(g: Graph, x: nat) returns (p: seq<nat>)
    requires Acyclic(g) && HasOut(g, x)
    ensures |p| >= 2 && IsPath(g, p) && p[0] == x && !HasOut(g, p[|p| - 1])
    decreases Rank(g, x)
  {
    var y :| (x, y) in g;
    if HasOut(g, y) {
      RankDrops(g, x, y);
      var q := ChainToSink(g, y);
      WalkJoin(g, [x, y], q);
      p := [x, y] + q[1..];
    } else {
      p := [x, y];
    }
  }

  // ----- cycles through one root -----

  /** When the graph without the root's own edges is acyclic, every cycle passes
      through the root. */
  lemma CyclesPassRoot(g: Graph, root: nat)
    requires Acyclic(Mute(g, root)) && !Reaches(g, root, root)
    ensures Acyclic(g)
  {
    forall x, p ensures !IsWalk(g, p, x, x) {
      if IsWalk(g, p, x, x) {
        if i :| 0 <= i < |p| - 1 && p[i] == root {
          RotateCycle(g, p, i);
        } else {
          AvoidingWalk(g, root, p);
        }
      }
    }
  }

  lemma AvoidingWalk(g: Graph, root: nat, p: seq<nat>)
    requires IsPath(g, p) && |p| >= 2 && forall i :: 0 <= i < |p| - 1 ==> p[i] != root
    ensures IsWalk(Mute(g, root), p, p[0], p[|p| - 1])
  {
    forall i | 0 <= i < |p| - 1 ensures (p[i], p[i + 1]) in Mute(g, root) {
      assert (p[i], p[i + 1]) in g;
    }
  }

  lemma RotateCycle(g: Graph, p: seq<nat>, i: nat)
    requires |p| >= 2 && IsPath(g, p) && p[0] == p[|p| - 1] && i < |p| - 1
    ensures Reaches(g, p[i], p[i])
  {
    WalkSuffix(g, p, i);
    WalkPrefix(g, p, i);
    var a, b := p[i..], p[..i + 1];
    WalkJoin(g, a, b);
    assert IsWalk(g, a + b[1..], p[i], p[i]);
  }

  /** Silencing one more node keeps the graph acyclic outside the root. */
  lemma MuteKeepsRooted(g: Graph, root: nat, v: nat)
    requires Acyclic(Mute(g, root))
    ensures Acyclic(Mute(Mute(g, v), root))
  {
    SubgraphAcyclic(Mute(g, root), Mute(Mute(g, v), root));
  }

  // ----- graphs where everybody waits for at most one other -----

  ghost predicate AtMostOneOut(g: Graph) {
    forall a, b :: a in g && b in g && a.0 == b.0 ==> a == b
  }

  /** With at most one edge out of each node there is at most one cycle through
      the root, so silencing any node on it leaves none. */
  lemma {:induction false} OneCycleOnly(g: Graph, root: nat, p: seq<nat>, k: nat)
    requires AtMostOneOut(g) && IsWalk(g, p, root, root)
    requires k < |p| - 1
    ensures !Reaches(Mute(g, p[k]), root, root)
  {
    var h := Mute(g, p[k]);
    if Reaches(h, root, root) {
      var q :| IsWalk(h, q, root, root);
      Repeat(h, g, p, q, k);
    }
  }

  /** A walk in the silenced graph shadows p step by step, so it cannot get past
      position k of p. */
  lemma {:induction false} Lockstep(g: Graph, h: Graph, p: seq<nat>, q: seq<nat>, k: nat)
    requires AtMostOneOut(g) && h <= g && IsPath(g, p) && IsPath(h, q)
    requires p[0] == q[0] && k < |p| - 1
    ensures forall j :: 0 <= j <= k && j < |q| ==> q[j] == p[j]
  {
    if k > 0 {
      Lockstep(g, h, p, q, k - 1);
      if k < |q| {
        assert q[k - 1] == p[k - 1];
        assert (q[k - 1], q[k]) in g;
        assert (p[k - 1], p[k - 1 + 1]) in g;
      }
    }
  }

  /** A walk that closes a cycle at the start of p comes back to every position of
      p, because p can only repeat that cycle. */
  lemma {:induction false} Repeat(h: Graph, g: Graph, p: seq<nat>, q: seq<nat>, k: nat)
    requires AtMostOneOut(g) && h <= g && IsPath(g, p) && IsPath(h, q)
    requires |q| >= 2 && q[0] == q[|q| - 1] && p[0] == q[0] && k < |p| - 1
    ensures HasOut(h, p[k])
    decreases k
  {
    if k < |q| - 1 {
      Lockstep(g, h, p, q, k);
      assert (q[k], q[k + 1]) in h;
    } else {
      var n := |q| - 1;
      if n < |p| - 1 {
        Lockstep(g, h, p, q, n);
      }
      WalkSuffix(g, p, n);
      Repeat(h, g, p[n..], q, k - n);
    }
  }

  // ----- when silencing any one node breaks every cycle through the root -----

  /** x lies on a cycle through the root. */
  ghost predicate OnCycle(g: Graph, root: nat, x: nat) {
    Reaches(g, root, x) && Reaches(g, x, root)
  }

  /** On the cycles through the root there is only one way to go from each node. */
  ghost predicate OneWay(g: Graph, root: nat) {
    forall x, y, z ::
      (x, y) in g && (x, z) in g && OnCycle(g, root, x) && OnCycle(g, root, y) && OnCycle(g, root, z) ==> y == z
  }

  /** The part of the graph that cycles through the root are made of. */
  ghost function Cyclic(g: Graph, root: nat): Graph {
    set e | e in g && OnCycle(g, root, e.0) && OnCycle(g, root, e.1)
  }

  lemma WalkOnCycle(g: Graph, root: nat, p: seq<nat>, i: nat)
    requires IsWalk(g, p, root, root) && i < |p|
    ensures OnCycle(g, root, p[i])
  {
    if 0 < i < |p| - 1 {
      WalkPrefix(g, p, i);
      WalkSuffix(g, p, i);
      assert IsWalk(g, p[..i + 1], root, p[i]) && IsWalk(g, p[i..], p[i], root);
    } else {
      assert p[i] == root;
    }
  }

  lemma WalkIsCyclic(g: Graph, root: nat, p: seq<nat>)
    requires IsWalk(g, p, root, root)
    ensures IsWalk(Cyclic(g, root), p, root, root)
  {
    forall i | 0 <= i < |p| - 1 ensures (p[i], p[i + 1]) in Cyclic(g, root) {
      WalkOnCycle(g, root, p, i);
      WalkOnCycle(g, root, p, i + 1);
    }
  }

  lemma CycleThrough(g: Graph, root: nat, v: nat) returns (p: seq<nat>, k: nat)
    requires OnCycle(g, root, v)
    ensures IsWalk(g, p, root, root) && k < |p| - 1 && p[k] == v
  {
    var a :| IsWalk(g, a, root, v);
    var b :| IsWalk(g, b, v, root);
    WalkJoin(g, a, b);
    p, k := a + b[1..], |a| - 1;
  }

  lemma CyclicAvoiding(g: Graph, root: nat, v: nat)
    requires Reaches(Mute(g, v), root, root)
    ensures Reaches(Mute(Cyclic(g, root), v), root, root)
  {
    var h := Cyclic(g, root);
    var q :| IsWalk(Mute(g, v), q, root, root);
    assert IsWalk(g, q, root, root);
    WalkIsCyclic(g, root, q);
    forall i | 0 <= i < |q| - 1 ensures (q[i], q[i + 1]) in Mute(h, v) {
      assert (q[i], q[i + 1]) in Mute(g, v) && (q[i], q[i + 1]) in h;
    }
    assert IsWalk(Mute(h, v), q, root, root);
  }

  lemma OneWayEnough(g: Graph, root: nat, v: nat)
    requires OneWay(g, root) && OnCycle(g, root, v)
    ensures !Reaches(Mute(g, v), root, root)
  {
    var h := Cyclic(g, root);
    var p, k := CycleThrough(g, root, v);
    WalkIsCyclic(g, root, p);
    OneCycleOnly(h, root, p, k);
    if Reaches(Mute(g, v), root, root) {
      CyclicAvoiding(g, root, v);
    }
  }

  /** A walk to y that leaves x for good: x comes only first. */
  lemma {:induction false} LeaveOnce(g: Graph, p: seq<nat>, x: nat, y: nat) returns (q: seq<nat>)
    requires IsWalk(g, p, x, y) && x != y
    ensures IsWalk(g, q, x, y) && forall i :: 1 <= i < |q| ==> q[i] != x
    decreases |p|
  {
    if i :| 1 <= i < |p| && p[i] == x {
      WalkSuffix(g, p, i);
      q := LeaveOnce(g, p[i..], x, y);
    } else {
      q := p;
    }
  }

  /** A walk to y that ends at its first arrival. */
  lemma {:induction false} ArriveOnce(g: Graph, p: seq<nat>, x: nat, y: nat) returns (q: seq<nat>)
    requires IsWalk(g, p, x, y) && x != y
    ensures IsWalk(g, q, x, y) && forall i :: 0 <= i < |q| - 1 ==> q[i] != y
    decreases |p|
  {
    if i :| 0 <= i < |p| - 1 && p[i] == y {
      WalkPrefix(g, p, i);
      q := ArriveOnce(g, p[..i + 1], x, y);
    } else {
      q := p;
    }
  }

  /** Where x can go to z, no walk from the root to x that leaves the root for good comes
      by z: it would close a cycle without the root. */
  lemma NotBefore(g: Graph, root: nat, q: seq<nat>, x: nat, z: nat)
    requires Acyclic(Mute(g, root)) && z != root && (x, z) in g && x != root
    requires IsWalk(g, q, root, x) && forall i :: 1 <= i < |q| ==> q[i] != root
    ensures z !in q
  {
    if i :| 0 <= i < |q| && q[i] == z {
      WalkSuffix(g, q, i);
      WalkJoin(g, q[i..], [x, z]);
      var c := q[i..] + [x, z][1..];
      assert forall k :: 0 <= k < |c| - 1 ==> c[k] == q[i + k];
      AvoidingWalk(g, root, c);
      assert IsWalk(Mute(g, root), c, z, z);
    }
  }

  lemma SilencedWalk(g: Graph, q: seq<nat>, x: nat, y: nat, v: nat)
    requires IsWalk(g, q, x, y) && forall i :: 0 <= i < |q| - 1 ==> q[i] != v
    ensures Reaches(Mute(g, v), x, y)
  {
    AvoidingWalk(g, v, q);
    assert IsWalk(Mute(g, v), q, x, y);
  }

  /** Two ways from x: if y never comes by z on its way to the root, silencing z leaves the
      cycle over y. */
  lemma SecondWay(g: Graph, root: nat, x: nat, y: nat, z: nat)
    requires Acyclic(Mute(g, root)) && (x, y) in g && (x, z) in g && y != z && z != root
    requires x == root || Reaches(g, root, x)
    requires y == root || (Reaches(g, y, root) && !Reaches(Mute(g, root), y, z))
    ensures Reaches(Mute(g, z), root, root)
  {
    var h := Mute(g, z);
    if x == z {
      SilencedWalk(g, [x, x], x, x, root);
      assert false;
    }
    EdgeReaches(h, x, y);
    if x != root {
      var p :| IsWalk(g, p, root, x);
      var q := LeaveOnce(g, p, root, x);
      NotBefore(g, root, q, x, z);
      SilencedWalk(g, q, root, x, z);
      ReachesTrans(h, root, x, y);
    }
    if y != root {
      var p :| IsWalk(g, p, y, root);
      var q := ArriveOnce(g, p, y, root);
      if i :| 0 <= i < |q| - 1 && q[i] == z {
        WalkPrefix(g, q, i);
        assert IsWalk(g, q[..i + 1], y, z);
        SilencedWalk(g, q[..i + 1], y, z, root);
      }
      SilencedWalk(g, q, y, root, z);
      ReachesTrans(h, root, y, root);
    }
  }

  /** In a graph whose cycles all pass the root: silencing any node on them leaves none,
      whichever it is, exactly when there is only one way to go round. */
  lemma OneWayExactly(g: Graph, root: nat)
    requires Acyclic(Mute(g, root))
    ensures (forall v :: OnCycle(g, root, v) ==> !Reaches(Mute(g, v), root, root)) <==> OneWay(g, root)
  {
    if OneWay(g, root) {
      forall v | OnCycle(g, root, v) ensures !Reaches(Mute(g, v), root, root) {
        OneWayEnough(g, root, v);
      }
    } else {
      var x, y, z :| (x, y) in g && (x, z) in g && y != z
        && OnCycle(g, root, x) && OnCycle(g, root, y) && OnCycle(g, root, z);
      if z == root || (y != root && Reaches(Mute(g, root), y, z)) {
        if z != root && Reaches(Mute(g, root), z, y) {
          ReachesTrans(Mute(g, root), y, z, y);
          assert false;
        }
        SecondWay(g, root, x, z, y);
      } else {
        SecondWay(g, root, x, y, z);
      }
    }
  }
}

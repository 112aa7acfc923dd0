/** Methods through the prototype graph: the object itself, then its parents in order, each
    with its own parents before the next. */
module MethodLookup {
  import opened CodeBuffer
  import opened SlotList
  import opened Wrappers

  datatype Node = Node(parents: seq<nat>, methods: seq<Named<Code>>)

  type World = map<nat, Node>

  /** Parents exist, and are older than their children. */
  predicate Grown(w: World) {
    forall id :: id in w ==> Elders(w, w[id].parents, id)
  }

  predicate Elders(w: World, ps: seq<nat>, child: nat) {
    forall p :: p in ps ==> p in w && p < child
  }

  lemma EldersPart(w: World, ps: seq<nat>, child: nat, i: nat)
    requires Elders(w, ps, child) && i <= |ps|
    ensures Elders(w, ps[..i], child) && Elders(w, ps[i..], child)
  {
    assert forall p :: p in ps[..i] || p in ps[i..] ==> p in ps;
  }

  /** obj_get_code: a method whose buffer is empty counts as none. */
  function CodeOf(node: Node, name: string): Code {
    match Lookup(node.methods, name)
    case None => []
    case Some(code) => code
  }

  function CodeAt(w: World, a: nat, name: string): Code {
    if a in w then CodeOf(w[a], name) else []
  }

  /** All objects the search may visit, in depth-first parent order. */
  function Order(w: World, id: nat): seq<nat>
    requires Grown(w) && id in w
    decreases id, |w[id].parents| + 1
  {
    [id] + OrderOf(w, w[id].parents, id)
  }

  function OrderOf(w: World, ps: seq<nat>, child: nat): seq<nat>
    requires Grown(w) && Elders(w, ps, child)
    decreases child, |ps|
  {
    if ps == [] then []
    else
      EldersPart(w, ps, child, 1);
      Order(w, ps[0]) + OrderOf(w, ps[1..], child)
  }

  /** The first of some objects that defines the name, or their number. */
  function First(w: World, order: seq<nat>, name: string): (k: nat)
    ensures k <= |order|
    ensures k < |order| ==> CodeAt(w, order[k], name) != []
    ensures forall j :: 0 <= j < k ==> CodeAt(w, order[j], name) == []
  {
    if order == [] || CodeAt(w, order[0], name) != [] then 0 else 1 + First(w, order[1..], name)
  }

  lemma OrderInWorld(w: World, id: nat, a: nat)
    requires Grown(w) && id in w && a in Order(w, id)
    ensures a in w && a <= id
    decreases id, |w[id].parents| + 1
  {
    if a != id {
      OrderOfInWorld(w, w[id].parents, id, a);
    }
  }

  lemma OrderOfInWorld(w: World, ps: seq<nat>, child: nat, a: nat)
    requires Grown(w) && Elders(w, ps, child) && a in OrderOf(w, ps, child)
    ensures a in w && a < child
    decreases child, |ps|
  {
    if a in Order(w, ps[0]) {
      OrderInWorld(w, ps[0], a);
    } else {
      EldersPart(w, ps, child, 1);
      OrderOfInWorld(w, ps[1..], child, a);
    }
  }

  ghost predicate IsPath(w: World, path: seq<nat>) {
    && path != [] && (forall i :: 0 <= i < |path| ==> path[i] in w)
    && (forall i :: 0 <= i < |path| - 1 ==> path[i + 1] in w[path[i]].parents)
  }

  /** An ancestor: the object itself or one reached over parents. */
  ghost predicate Inherits(w: World, id: nat, a: nat) {
    exists path :: IsPath(w, path) && path[0] == id && path[|path| - 1] == a
  }

  lemma {:induction false} PathInOrder(w: World, path: seq<nat>)
    requires Grown(w) && IsPath(w, path)
    ensures path[|path| - 1] in Order(w, path[0])
    decreases |path|
  {
    if |path| > 1 {
      var ps := w[path[0]].parents;
      assert IsPath(w, path[1..]);
      PathInOrder(w, path[1..]);
      ParentInOrder(w, ps, path[0], path[1], path[|path| - 1]);
    }
  }

  lemma {:induction false} ParentInOrder(w: World, ps: seq<nat>, child: nat, p: nat, a: nat)
    requires Grown(w) && Elders(w, ps, child) && p in ps && a in Order(w, p)
    ensures a in OrderOf(w, ps, child)
    decreases |ps|
  {
    if ps[0] != p {
      EldersPart(w, ps, child, 1);
      ParentInOrder(w, ps[1..], child, p, a);
    }
  }

  lemma {:induction false} OrderInherits(w: World, id: nat, a: nat)
    requires Grown(w) && id in w && a in Order(w, id)
    ensures Inherits(w, id, a)
    decreases id, |w[id].parents| + 1
  {
    if a == id {
      assert IsPath(w, [id]);
    } else {
      var p := OrderOfInherits(w, w[id].parents, id, a);
      var path :| IsPath(w, path) && path[0] == p && path[|path| - 1] == a;
      assert IsPath(w, [id] + path);
    }
  }

  lemma {:induction false} OrderOfInherits(w: World, ps: seq<nat>, child: nat, a: nat) returns (p: nat)
    requires Grown(w) && Elders(w, ps, child) && a in OrderOf(w, ps, child)
    ensures p in ps && Inherits(w, p, a)
    decreases child, |ps|
  {
    if a in Order(w, ps[0]) {
      p := ps[0];
      OrderInherits(w, p, a);
    } else {
      EldersPart(w, ps, child, 1);
      p := OrderOfInherits(w, ps[1..], child, a);
    }
  }

  /** The order lists exactly the ancestors. */
  lemma OrderIsAncestors(w: World, id: nat, a: nat)
    requires Grown(w) && id in w
    ensures a in Order(w, id) <==> Inherits(w, id, a)
  {
    if a in Order(w, id) {
      OrderInherits(w, id, a);
    }
    if Inherits(w, id, a) {
      var path :| IsPath(w, path) && path[0] == id && path[|path| - 1] == a;
      PathInOrder(w, path);
    }
  }

  /** "Not found" is the answer exactly when no ancestor defines the name. */
  lemma NotFoundExactly(w: World, id: nat, name: string)
    requires Grown(w) && id in w
    ensures First(w, Order(w, id), name) == |Order(w, id)|
      <==> forall a :: Inherits(w, id, a) ==> CodeAt(w, a, name) == []
  {
    var o := Order(w, id);
    var k := First(w, o, name);
    if k < |o| {
      OrderIsAncestors(w, id, o[k]);
    } else {
      forall a | Inherits(w, id, a) ensures CodeAt(w, a, name) == [] {
        OrderIsAncestors(w, id, a);
      }
    }
  }

  lemma {:induction false} FirstOfBoth(w: World, x: seq<nat>, y: seq<nat>, name: string)
    ensures First(w, x + y, name) == if First(w, x, name) < |x| then First(w, x, name) else |x| + First(w, y, name)
    decreases |x|
  {
    if x == [] {
      assert x + y == y;
    } else {
      assert (x + y)[1..] == x[1..] + y;
      FirstOfBoth(w, x[1..], y, name);
    }
  }

  lemma {:induction false} OrderOfSplit(w: World, ps: seq<nat>, i: nat, child: nat)
    requires Grown(w) && Elders(w, ps, child) && i <= |ps|
    ensures Elders(w, ps[..i], child) && Elders(w, ps[i..], child)
    ensures OrderOf(w, ps, child) == OrderOf(w, ps[..i], child) + OrderOf(w, ps[i..], child)
    decreases i
  {
    EldersPart(w, ps, child, i);
    if i == 0 {
      assert ps[..0] == [] && ps[0..] == ps;
    } else {
      EldersPart(w, ps, child, 1);
      OrderOfSplit(w, ps[1..], i - 1, child);
      assert ps[..i][1..] == ps[1..][..i - 1] && ps[i..] == ps[1..][i - 1..];
    }
  }

  lemma NoParents(w: World, child: nat)
    requires Grown(w)
    ensures OrderOf(w, [], child) == []
  {
  }

  /** The objects a search touches: up to the one that has the method, or all. */
  function Touched(w: World, order: seq<nat>, name: string): seq<nat> {
    var k := First(w, order, name);
    order[..if k < |order| then k + 1 else k]
  }

  function Found(w: World, order: seq<nat>, name: string): Code {
    var k := First(w, order, name);
    if k < |order| then CodeAt(w, order[k], name) else []
  }

  lemma SearchedOne(w: World, id: nat, name: string)
    requires id in w
    ensures Found(w, [id], name) == CodeOf(w[id], name) && Touched(w, [id], name) == [id]
  {
    assert First(w, [id][1..], name) == 0;
  }

  lemma SearchedMore(w: World, order: seq<nat>, next: seq<nat>, name: string)
    requires Found(w, order, name) == []
    ensures Found(w, order + next, name) == Found(w, next, name)
    ensures Touched(w, order + next, name) == Touched(w, order, name) + Touched(w, next, name)
  {
    hide First;
    FirstOfBoth(w, order, next, name);
    var k := First(w, next, name);
    if k < |next| {
      assert (order + next)[..|order| + k + 1] == order + next[..k + 1];
    }
  }

  lemma SearchedEnough(w: World, order: seq<nat>, rest: seq<nat>, name: string)
    requires Found(w, order, name) != [] || rest == []
    ensures Found(w, order + rest, name) == Found(w, order, name)
    ensures Touched(w, order + rest, name) == Touched(w, order, name)
  {
    hide First;
    if rest == [] {
      assert order + rest == order;
    } else {
      FirstOfBoth(w, order, rest, name);
      var k := First(w, order, name);
      assert (order + rest)[..k + 1] == order[..k + 1];
    }
  }

  lemma NextParent(w: World, ps: seq<nat>, i: nat, child: nat)
    requires Grown(w) && Elders(w, ps, child) && i < |ps|
    ensures Elders(w, ps[..i], child) && Elders(w, ps[..i + 1], child)
    ensures OrderOf(w, ps[..i + 1], child) == OrderOf(w, ps[..i], child) + Order(w, ps[i])
  {
    var qs := ps[..i + 1];
    assert forall p :: p in qs ==> p in ps;
    OrderOfSplit(w, qs, i, child);
    assert qs[..i] == ps[..i] && qs[i..] == [ps[i]] && [ps[i]][1..] == [];
  }

  /** eval_get_code_recursive: the code found, empty for "not found", and the objects it
      got hold of, each through store_get_object. */
  method FindCode(w: World, id: nat, name: string) returns (code: Code, touched: seq<nat>)
    requires Grown(w) && id in w
    ensures code == Answer(w, id, name) && touched == Touched(w, Order(w, id), name)
    decreases id
  {
    hide First, Found, Touched, CodeAt, OrderOf;
    var ps := w[id].parents;
    code, touched := CodeOf(w[id], name), [id];
    ghost var order := [id];
    SearchedOne(w, id, name);
    var idx := 0;
    EldersPart(w, ps, id, 0);
    NoParents(w, id);
    assert ps[..0] == [] && ps[|ps|..] == [];
    while code == [] && idx < |ps|
      invariant idx <= |ps| && Elders(w, ps[..idx], id)
      invariant order == [id] + OrderOf(w, ps[..idx], id)
      invariant code == Found(w, order, name) && touched == Touched(w, order, name)
      decreases |ps| - idx
    {
      var p := ps[idx];
      assert p in ps;
      EldersPart(w, ps, id, idx + 1);
      var inherited, more := FindCode(w, p, name);
      SearchedMore(w, order, Order(w, p), name);
      NextParent(w, ps, idx, id);
      code, touched := inherited, touched + more;
      order := order + Order(w, p);
      idx := idx + 1;
    }
    EldersPart(w, ps, id, idx);
    OrderOfSplit(w, ps, idx, id);
    assert Order(w, id) == order + OrderOf(w, ps[idx..], id);
    SearchedEnough(w, order, OrderOf(w, ps[idx..], id), name);
  }

  // ----- which definition is found, told by paths -----

  /** The object at the end of a path, which names at each object the position of a parent. */
  function End(w: World, id: nat, path: seq<nat>): Option<nat>
    decreases |path|
  {
    if id !in w then None
    else if path == [] then Some(id)
    else if path[0] < |w[id].parents| then End(w, w[id].parents[path[0]], path[1..])
    else None
  }

  /** A path whose end has code of that name. */
  predicate Defines(w: World, id: nat, path: seq<nat>, name: string) {
    End(w, id, path).Some? && CodeAt(w, End(w, id, path).value, name) != []
  }

  /** The order of depth first: an object before its parents, and those in their order. */
  predicate Before(p: seq<nat>, q: seq<nat>) {
    q != [] && (p == [] || p[0] < q[0] || (p[0] == q[0] && Before(p[1..], q[1..])))
  }

  lemma {:induction false} BeforeIsStrict(p: seq<nat>, q: seq<nat>)
    requires Before(p, q)
    ensures p != q && !Before(q, p)
    decreases |p|
  {
    if p != [] && p[0] == q[0] {
      BeforeIsStrict(p[1..], q[1..]);
    }
  }

  /** What the search answers. */
  function Answer(w: World, id: nat, name: string): Code
    requires Grown(w) && id in w
  {
    Found(w, Order(w, id), name)
  }

  /** What is found through the parents from position i on, the first that has something. */
  lemma {:induction false} FoundThrough(w: World, ps: seq<nat>, child: nat, name: string) returns (i: nat)
    requires Grown(w) && Elders(w, ps, child)
    ensures i <= |ps| && forall j :: 0 <= j < i ==> Answer(w, ps[j], name) == []
    ensures if i < |ps| then
              Answer(w, ps[i], name) != [] && Found(w, OrderOf(w, ps, child), name) == Answer(w, ps[i], name)
            else Found(w, OrderOf(w, ps, child), name) == []
    decreases |ps|
  {
    if ps == [] {
      i := 0;
    } else {
      EldersPart(w, ps, child, 1);
      hide First, Found, Touched, CodeAt, Order;
      if Answer(w, ps[0], name) != [] {
        i := 0;
        SearchedEnough(w, Order(w, ps[0]), OrderOf(w, ps[1..], child), name);
      } else {
        SearchedMore(w, Order(w, ps[0]), OrderOf(w, ps[1..], child), name);
        var k := FoundThrough(w, ps[1..], child, name);
        i := k + 1;
      }
    }
  }

  /** The answer without the order: the object's own code if it has any, else that of the first
      parent whose own search finds something. */
  lemma OwnCodeFirst(w: World, id: nat, name: string) returns (i: nat)
    requires Grown(w) && id in w
    ensures CodeAt(w, id, name) != [] ==> Answer(w, id, name) == CodeAt(w, id, name)
    ensures CodeAt(w, id, name) == [] ==>
      && i <= |w[id].parents| && Elders(w, w[id].parents, id)
      && (forall j :: 0 <= j < i ==> w[id].parents[j] in w && Answer(w, w[id].parents[j], name) == [])
      && (if i < |w[id].parents| then
            w[id].parents[i] in w && Answer(w, w[id].parents[i], name) != []
            && Answer(w, id, name) == Answer(w, w[id].parents[i], name)
          else Answer(w, id, name) == [])
  {
    var ps := w[id].parents;
    SearchedOne(w, id, name);
    i := 0;
    if CodeAt(w, id, name) != [] {
      SearchedEnough(w, [id], OrderOf(w, ps, id), name);
    } else {
      SearchedMore(w, [id], OrderOf(w, ps, id), name);
      i := FoundThrough(w, ps, id, name);
      assert forall j :: 0 <= j < |ps| ==> ps[j] in ps;
    }
  }

  /** If any path ends at a definition, the search finds one. */
  lemma {:induction false} DefinedIsFound(w: World, id: nat, path: seq<nat>, name: string)
    requires Grown(w) && id in w && Defines(w, id, path, name)
    ensures Answer(w, id, name) != []
    decreases |path|
  {
    var i := OwnCodeFirst(w, id, name);
    if path != [] && CodeAt(w, id, name) == [] {
      DefinedIsFound(w, w[id].parents[path[0]], path[1..], name);
    }
  }

  /** The search finds the definition at the end of the path that is first in the order of depth
      first among all paths that end at one. */
  lemma {:induction false} FirstPathFound(w: World, id: nat, name: string) returns (path: seq<nat>)
    requires Grown(w) && id in w && Answer(w, id, name) != []
    ensures Defines(w, id, path, name) && CodeAt(w, End(w, id, path).value, name) == Answer(w, id, name)
    ensures forall q :: Defines(w, id, q, name) ==> q == path || Before(path, q)
    decreases id
  {
    var i := OwnCodeFirst(w, id, name);
    path := [];
    if CodeAt(w, id, name) == [] {
      var ps := w[id].parents;
      assert ps[i] in ps;
      var rest := FirstPathFound(w, ps[i], name);
      path := [i] + rest;
      assert path[1..] == rest;
      forall q | Defines(w, id, q, name) ensures q == path || Before(path, q) {
        assert q != [] && ps[q[0]] in ps;
        DefinedIsFound(w, ps[q[0]], q[1..], name);
        assert q == [q[0]] + q[1..];
      }
    }
  }

  /** The objects the search gets hold of: with code of its own the object alone; else besides
      it, in turn, what the search of each parent gets hold of, up to the first that finds
      something. */
  function TouchedThrough(w: World, ps: seq<nat>, child: nat, name: string): seq<nat>
    requires Grown(w) && Elders(w, ps, child)
  {
    if ps == [] then []
    else
      EldersPart(w, ps, child, 1);
      Touched(w, Order(w, ps[0]), name)
      + if Answer(w, ps[0], name) != [] then [] else TouchedThrough(w, ps[1..], child, name)
  }

  lemma {:induction false} TouchedByParents(w: World, ps: seq<nat>, child: nat, name: string)
    requires Grown(w) && Elders(w, ps, child)
    ensures Touched(w, OrderOf(w, ps, child), name) == TouchedThrough(w, ps, child, name)
    decreases |ps|
  {
    if ps != [] {
      EldersPart(w, ps, child, 1);
      TouchedByParents(w, ps[1..], child, name);
      if Answer(w, ps[0], name) != [] {
        SearchedEnough(w, Order(w, ps[0]), OrderOf(w, ps[1..], child), name);
      } else {
        SearchedMore(w, Order(w, ps[0]), OrderOf(w, ps[1..], child), name);
      }
    }
  }

  lemma TouchedFirst(w: World, id: nat, name: string)
    requires Grown(w) && id in w
    ensures Touched(w, Order(w, id), name) ==
      [id] + if CodeAt(w, id, name) != [] then [] else TouchedThrough(w, w[id].parents, id, name)
  {
    var ps := w[id].parents;
    SearchedOne(w, id, name);
    TouchedByParents(w, ps, id, name);
    if CodeAt(w, id, name) != [] {
      SearchedEnough(w, [id], OrderOf(w, ps, id), name);
    } else {
      SearchedMore(w, [id], OrderOf(w, ps, id), name);
    }
  }

  /** The objects there are, and the next id to give. */
  datatype Growth = Growth(w: World, next: nat)

  datatype Change = MakeObject(parent: nat) | SetCode(id: nat, name: string, code: Code)

  predicate CanChange(g: Growth, c: Change) {
    match c
    case MakeObject(parent) => parent in g.w
    case SetCode(id, _, _) => id in g.w
  }

  /** store_make_object and obj_set_code. */
  function Changed(g: Growth, c: Change): Growth
    requires CanChange(g, c)
  {
    match c
    case MakeObject(parent) => Growth(g.w[g.next := Node([parent], [])], g.next + 1)
    case SetCode(id, name, code) =>
      g.(w := g.w[id := g.w[id].(methods := Stored(g.w[id].methods, name, code))])
  }

  ghost predicate Sane(g: Growth) {
    Grown(g.w) && forall id :: id in g.w ==> id < g.next
  }

  ghost predicate Grows(g: Growth, cs: seq<Change>)
    decreases |cs|
  {
    cs == [] || (CanChange(g, cs[0]) && Grows(Changed(g, cs[0]), cs[1..]))
  }

  ghost function After(g: Growth, cs: seq<Change>): Growth
    requires Grows(g, cs)
    decreases |cs|
  {
    if cs == [] then g else After(Changed(g, cs[0]), cs[1..])
  }

  /** The stub objects 0, 1 and 2 have no parents, and ids are given from 1000 on. */
  function FirstObjects(m0: seq<Named<Code>>, m1: seq<Named<Code>>, m2: seq<Named<Code>>): Growth {
    Growth(map[0 := Node([], m0), 1 := Node([], m1), 2 := Node([], m2)], 1000)
  }

  lemma ChangeSane(g: Growth, c: Change)
    requires Sane(g) && CanChange(g, c)
    ensures Sane(Changed(g, c))
  {
    var h := Changed(g, c);
    forall id, p | id in h.w && p in h.w[id].parents ensures p in h.w && p < id {
      if c.MakeObject? && id == g.next {
        assert p == c.parent;
      } else {
        assert p in g.w[id].parents;
      }
    }
  }

  lemma {:induction false} GrowthSane(g: Growth, cs: seq<Change>)
    requires Sane(g) && Grows(g, cs)
    ensures Sane(After(g, cs))
    decreases |cs|
  {
    if cs != [] {
      ChangeSane(g, cs[0]);
      GrowthSane(Changed(g, cs[0]), cs[1..]);
    }
  }

  /** In every world that grows from the first objects, the parent graph has no cycle, so
      the search ends; its order holds only existing objects, none younger than the start. */
  lemma SearchAlwaysEnds(m0: seq<Named<Code>>, m1: seq<Named<Code>>, m2: seq<Named<Code>>,
                         cs: seq<Change>, id: nat, a: nat)
    requires Grows(FirstObjects(m0, m1, m2), cs) && id in After(FirstObjects(m0, m1, m2), cs).w
    ensures var w := After(FirstObjects(m0, m1, m2), cs).w;
      Grown(w) && (Inherits(w, id, a) ==> a in w && a <= id) && (Inherits(w, id, a) && Inherits(w, a, id) ==> a == id)
  {
    var g := FirstObjects(m0, m1, m2);
    assert Sane(g);
    GrowthSane(g, cs);
    var w := After(g, cs).w;
    if Inherits(w, id, a) {
      OrderIsAncestors(w, id, a);
      OrderInWorld(w, id, a);
      if Inherits(w, a, id) {
        OrderIsAncestors(w, a, id);
        OrderInWorld(w, a, id);
      }
    }
  }
}

/** Strings on the heap and the reference counts the machine keeps by hand. */
module Strings {
  import opened Values

  /** A 16-bit count next to the text. */
  datatype HeapString = HeapString(count: nat, text: string)

  type Heap = map<nat, HeapString>

  const COUNTS := 0x1_0000

  /** What one stack slot holds: a value, or something the machine saved for itself. */
  datatype Cell =
    | Unused
    | Val(v: Value<nat, CInt>)
    | SavedFp(fp: nat)
    | SavedIp(ip: int)
    | SavedObj(obj: nat)

  /** Make a string that holds one reference; the length is cut to 16 bits. */
  function MakeString(heap: Heap, address: nat, text: string): Heap {
    heap[address := HeapString(1, text[..|text| % COUNTS])]
  }

  function IncRef(heap: Heap, v: Value<nat, CInt>): Heap {
    if v.String? && v.address in heap then
      var hs := heap[v.address];
      heap[v.address := hs.(count := (hs.count + 1) % COUNTS)]
    else
      heap
  }

  /** Give one reference up, and free the string when the count comes to zero. */
  function DecRef(heap: Heap, v: Value<nat, CInt>): Heap {
    if v.String? && v.address in heap then
      var hs := heap[v.address];
      if (hs.count - 1) % COUNTS == 0 then heap - {v.address}
      else heap[v.address := hs.(count := (hs.count - 1) % COUNTS)]
    else
      heap
  }

  /** val_clear on a cell. What the machine saves in cells is aligned, so its tag bits
      read as nil and nothing is given up. */
  function DropCell(heap: Heap, c: Cell): Heap {
    if c.Val? then DecRef(heap, c.v) else heap
  }

  /** Clear cells from the top down. */
  function DropCells(heap: Heap, cells: seq<Cell>): Heap {
    if cells == [] then heap
    else DropCells(DropCell(heap, cells[|cells| - 1]), cells[..|cells| - 1])
  }

  ghost function CountOf(m: multiset<Cell>, address: nat): nat {
    m[Val(String(address))]
  }

  /** The heap holds exactly the strings that m refers to, each with its number of
      references as 16 bits can tell it. */
  ghost predicate CountedBy(heap: Heap, m: multiset<Cell>) {
    forall a: nat :: Counted(heap, m, a)
  }

  ghost predicate Counted(heap: Heap, m: multiset<Cell>, a: nat) {
    && (a in heap <==> CountOf(m, a) > 0)
    && (a in heap ==> heap[a].count == CountOf(m, a) % COUNTS)
  }

  /** No string is referred to more than `most` times. */
  ghost predicate AtMost(m: multiset<Cell>, most: nat) {
    forall a: nat :: CountOf(m, a) <= most
  }

  lemma IncRefCounts(heap: Heap, m: multiset<Cell>, v: Value<nat, CInt>)
    requires CountedBy(heap, m) && Val(v) in m
    ensures CountedBy(IncRef(heap, v), m + multiset{Val(v)})
  {
    forall a: nat ensures Counted(IncRef(heap, v), m + multiset{Val(v)}, a) {
      assert Counted(heap, m, a);
      if v == String(a) {
        assert CountOf(m + multiset{Val(v)}, a) == CountOf(m, a) + 1;
      } else {
        assert Val(v) != Val(String(a));
        assert CountOf(m + multiset{Val(v)}, a) == CountOf(m, a);
      }
    }
  }

  /** Giving up a reference is exact as long as the string had at most 65536. */
  lemma DropCellCounts(heap: Heap, m: multiset<Cell>, c: Cell)
    requires CountedBy(heap, m) && c in m && AtMost(m, COUNTS)
    ensures CountedBy(DropCell(heap, c), m - multiset{c})
  {
    forall a: nat ensures Counted(DropCell(heap, c), m - multiset{c}, a) {
      assert Counted(heap, m, a);
      if c == Val(String(a)) {
        assert CountOf(m - multiset{c}, a) == CountOf(m, a) - 1;
        assert 0 < CountOf(m, a) <= COUNTS;
      } else {
        assert CountOf(m - multiset{c}, a) == CountOf(m, a);
      }
    }
  }

  lemma MakeStringCounts(heap: Heap, m: multiset<Cell>, address: nat, text: string)
    requires CountedBy(heap, m) && address !in heap
    ensures CountedBy(MakeString(heap, address, text), m + multiset{Val(String(address))})
  {
    forall a: nat ensures Counted(MakeString(heap, address, text), m + multiset{Val(String(address))}, a) {
      assert Counted(heap, m, a);
      if a == address {
        assert CountOf(m + multiset{Val(String(address))}, a) == CountOf(m, a) + 1;
      } else {
        assert Val(String(a)) != Val(String(address));
        assert CountOf(m + multiset{Val(String(address))}, a) == CountOf(m, a);
      }
    }
  }

  lemma {:induction false} DropCellsCounts(heap: Heap, m: multiset<Cell>, cells: seq<Cell>)
    requires CountedBy(heap, m + multiset(cells)) && AtMost(m + multiset(cells), COUNTS)
    ensures CountedBy(DropCells(heap, cells), m)
    decreases |cells|
  {
    if cells == [] {
      assert m + multiset(cells) == m;
    } else {
      var c, rest := cells[|cells| - 1], cells[..|cells| - 1];
      assert cells == rest + [c];
      assert m + multiset(cells) - multiset{c} == m + multiset(rest);
      DropCellCounts(heap, m + multiset(cells), c);
      assert AtMost(m + multiset(rest), COUNTS) by {
        forall a: nat ensures CountOf(m + multiset(rest), a) <= COUNTS {
          assert CountOf(m + multiset(cells), a) <= COUNTS;
        }
      }
      DropCellsCounts(DropCell(heap, c), m, rest);
    }
  }

  /** Exactly when a reference given up frees the string: the references left are none,
      or a positive multiple of 65536, when other cells still name what is freed. */
  lemma FreedWhen(heap: Heap, m: multiset<Cell>, a: nat)
    requires CountedBy(heap, m) && CountOf(m, a) > 0
    ensures a !in DecRef(heap, String(a)) <==> (CountOf(m, a) - 1) % COUNTS == 0
  {
    assert Counted(heap, m, a);
  }
}

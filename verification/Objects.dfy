/** An object in memory: its id, a growing array of parents, and two slot lists. */
module Objects {
  import opened CodeBuffer
  import opened Sequences
  import opened SlotList
  import opened Strings
  import opened Values

  /** Removing a parent just added undoes the addition; if it was there before, it is the
      earlier one that goes. */
  lemma RemoveUndoesAdd(ps: seq<nat>, p: nat)
    ensures Remove(ps + [p], p) == if p in ps then Remove(ps, p) + [p] else ps
  {
    if p in ps {
      RemovedAppend(ps, p);
    } else {
      assert (ps + [p])[..|ps|] == ps && (ps + [p])[|ps| + 1..] == [];
      RemoveAt(ps + [p], p, |ps|);
    }
  }

  lemma {:induction false} RemovedAppend(ps: seq<nat>, p: nat)
    requires p in ps
    ensures Remove(ps + [p], p) == Remove(ps, p) + [p]
    decreases |ps|
  {
    assert (ps + [p])[1..] == ps[1..] + [p];
    if ps[0] != p {
      RemovedAppend(ps[1..], p);
    }
  }

  /** The low k bytes of one id and the other bytes of another. */
  function Mixed(low: nat, high: nat, k: nat): nat {
    if k == 0 then high else low % 256 + 256 * Mixed(low / 256, high / 256, k - 1)
  }

  /** How many of the bytes of entry j are moved, when n bytes are moved to entry i. */
  function BytesAt(i: nat, j: nat, n: nat): nat
    requires i <= j
  {
    if n < 8 * (j - i) then 0 else if n >= 8 * (j - i) + 8 then 8 else n - 8 * (j - i)
  }

  /** The entry at i as obj_remove_parent takes it out: it moves as many bytes as there
      are entries behind it, not as many entries (src/object.c:84). */
  function RemovedAsWritten(ps: seq<nat>, i: nat): seq<nat>
    requires i < |ps|
  {
    seq(|ps| - 1, j requires 0 <= j < |ps| - 1 =>
      if j < i then ps[j] else Mixed(ps[j + 1], ps[j], BytesAt(i, j, |ps| - i - 1)))
  }

  lemma {:induction false} MixedIsLow(low: nat, high: nat, k: nat)
    ensures Mixed(low, high, k) == low <==> Upper(low, k) == Upper(high, k)
  {
    if k > 0 {
      MixedIsLow(low / 256, high / 256, k - 1);
      assert low == low % 256 + 256 * (low / 256);
    }
  }

  predicate Word(id: nat) {
    id < 0x1_0000_0000_0000_0000
  }

  /** An id of 64 bits has nothing above its eight bytes. */
  lemma EightBytes(id: nat)
    requires Word(id)
    ensures Upper(id, 8) == 0
  {
    assert Power(8) == 0x1_0000_0000_0000_0000;
    NothingAbove(id, 8);
  }

  lemma {:induction false} NothingAbove(id: nat, k: nat)
    requires id < Power(k)
    ensures Upper(id, k) == 0
  {
    if k > 0 {
      assert id / 256 < Power(k - 1);
      NothingAbove(id / 256, k - 1);
    }
  }

  lemma RemoveShifts(ps: seq<nat>, i: nat)
    requires i < |ps| && ps[i] !in ps[..i]
    ensures var good := Remove(ps, ps[i]);
      |good| == |ps| - 1 && forall j :: 0 <= j < |good| ==> good[j] == ps[if j < i then j else j + 1]
  {
    RemoveAt(ps, ps[i], i);
  }

  /** Entry j and the one behind it differ in the bytes that are moved at most. */
  predicate MovedEnough(ps: seq<nat>, i: nat, j: nat)
    requires i <= j < |ps| - 1
  {
    var k := BytesAt(i, j, |ps| - i - 1);
    Upper(ps[j + 1], k) == Upper(ps[j], k)
  }

  lemma RightAt(ps: seq<nat>, i: nat, j: nat)
    requires i <= j < |ps| - 1
    ensures RemovedAsWritten(ps, i)[j] == ps[j + 1] <==> MovedEnough(ps, i, j)
  {
    MixedIsLow(ps[j + 1], ps[j], BytesAt(i, j, |ps| - i - 1));
  }

  /** The result is right exactly when every entry agrees with the one behind it above the
      bytes that were moved, duplicates or not. */
  lemma RemoveExact(ps: seq<nat>, i: nat)
    requires i < |ps| && ps[i] !in ps[..i]
    ensures RemovedAsWritten(ps, i) == Remove(ps, ps[i])
      <==> forall j :: i <= j < |ps| - 1 ==> MovedEnough(ps, i, j)
  {
    RemoveShifts(ps, i);
    var good, bad := Remove(ps, ps[i]), RemovedAsWritten(ps, i);
    assert |bad| == |good| && forall j :: 0 <= j < i ==> bad[j] == good[j];
    forall j | i <= j < |ps| - 1 ensures bad[j] == good[j] <==> MovedEnough(ps, i, j) {
      RightAt(ps, i, j);
    }
    hide Remove, RemovedAsWritten, MovedEnough;
    if forall j :: i <= j < |ps| - 1 ==> MovedEnough(ps, i, j) {
      assert forall j :: 0 <= j < |bad| ==> bad[j] == good[j];
    }
  }

  predicate SameNext(ps: seq<nat>, j: nat)
    requires j < |ps| - 1
  {
    ps[j + 1] == ps[j]
  }

  /** Equal to the one behind it, each from q on, is equal to the last. */
  lemma {:induction false} AllLast(ps: seq<nat>, q: nat)
    requires q < |ps|
    ensures (forall j :: q <= j < |ps| - 1 ==> SameNext(ps, j))
      <==> (forall j :: q <= j < |ps| ==> ps[j] == ps[|ps| - 1])
    decreases |ps| - q
  {
    if q < |ps| - 1 {
      AllLast(ps, q + 1);
      assert (forall j :: q <= j < |ps| - 1 ==> SameNext(ps, j)) ==> SameNext(ps, q);
      if forall j :: q <= j < |ps| ==> ps[j] == ps[|ps| - 1] {
        assert ps[q + 1] == ps[q];
      }
    }
  }

  lemma WordAt(ps: seq<nat>, i: nat, j: nat, q: nat, r: nat)
    requires i <= j < |ps| - 1 && Word(ps[j]) && Word(ps[j + 1]) && |ps| - i - 1 == 8 * q + r && r < 8
    ensures j < i + q ==> MovedEnough(ps, i, j)
    ensures j == i + q ==> (MovedEnough(ps, i, j) <==> Upper(ps[j + 1], r) == Upper(ps[j], r))
    ensures j > i + q ==> (MovedEnough(ps, i, j) <==> SameNext(ps, j))
  {
    EightBytes(ps[j]);
    EightBytes(ps[j + 1]);
    assert BytesAt(i, j, |ps| - i - 1) == if j < i + q then 8 else if j == i + q then r else 0;
    assert Upper(ps[j], 0) == ps[j] && Upper(ps[j + 1], 0) == ps[j + 1];
  }

  lemma WordsMoved(ps: seq<nat>, i: nat, q: nat, r: nat)
    requires i < |ps| - 1 && (forall p :: p in ps ==> Word(p)) && |ps| - i - 1 == 8 * q + r && r < 8
    ensures (forall j :: i <= j < |ps| - 1 ==> MovedEnough(ps, i, j))
      <==> Upper(ps[i + q + 1], r) == Upper(ps[i + q], r) && forall j :: i + q + 1 <= j < |ps| - 1 ==> SameNext(ps, j)
  {
    hide MovedEnough, SameNext, Upper, Word;
    WordAt(ps, i, i + q, q, r);
    forall j | i <= j < |ps| - 1
      ensures j < i + q ==> MovedEnough(ps, i, j)
      ensures j > i + q ==> (MovedEnough(ps, i, j) <==> SameNext(ps, j))
    {
      WordAt(ps, i, j, q, r);
    }
  }

  /** For ids of 64 bits: behind the removed one are 8 * q + r entries, and as many bytes are
      moved. So q entries come right, the next one if it agrees with the one behind it above
      its low r bytes, and the rest if they are all equal. */
  lemma RemoveExactWords(ps: seq<nat>, i: nat, q: nat, r: nat)
    requires i < |ps| && ps[i] !in ps[..i] && forall p :: p in ps ==> Word(p)
    requires |ps| - i - 1 == 8 * q + r && r < 8
    ensures RemovedAsWritten(ps, i) == Remove(ps, ps[i])
      <==> i == |ps| - 1
           || (Upper(ps[i + q + 1], r) == Upper(ps[i + q], r) && forall j :: i + q < j < |ps| ==> ps[j] == ps[|ps| - 1])
  {
    hide Remove, RemovedAsWritten, MovedEnough, SameNext, Upper, Word;
    RemoveExact(ps, i);
    if i < |ps| - 1 {
      WordsMoved(ps, i, q, r);
      AllLast(ps, i + q + 1);
    }
  }

  /** With distinct parents that is: the last one is removed, or the last but one and the two
      differ in their lowest byte at most. */
  lemma RemoveExactDistinct(ps: seq<nat>, i: nat)
    requires i < |ps| && forall j, k :: 0 <= j < k < |ps| ==> ps[j] != ps[k]
    ensures RemovedAsWritten(ps, i) == Remove(ps, ps[i])
      <==> (i == |ps| - 1 || (i == |ps| - 2 && ps[i] / 256 == ps[i + 1] / 256))
  {
    hide Remove, RemovedAsWritten, MovedEnough;
    RemoveExact(ps, i);
    if i == |ps| - 2 {
      OneByteMoves(ps, i);
    } else if i < |ps| - 2 {
      NothingReaches(ps, i);
    }
  }

  lemma OneByteMoves(ps: seq<nat>, i: nat)
    requires i == |ps| - 2
    ensures MovedEnough(ps, i, i) <==> ps[i] / 256 == ps[i + 1] / 256
  {
    assert BytesAt(i, i, 1) == 1;
    assert Upper(ps[i + 1], 1) == Upper(ps[i + 1] / 256, 0) && Upper(ps[i], 1) == Upper(ps[i] / 256, 0);
  }

  lemma NothingReaches(ps: seq<nat>, i: nat)
    requires i < |ps| - 2
    ensures MovedEnough(ps, i, |ps| - 2) <==> ps[|ps| - 1] == ps[|ps| - 2]
  {
    assert BytesAt(i, |ps| - 2, |ps| - i - 1) == 0;
    assert forall id: nat :: Upper(id, 0) == id;
  }

  /** The references that copying the globals adds, slot by slot. */
  function IncRefs(heap: Heap, gs: seq<Named<Value<nat, CInt>>>): Heap {
    if gs == [] then heap else IncRefs(IncRef(heap, gs[0].value), gs[1..])
  }

  ghost function Cells(gs: seq<Named<Value<nat, CInt>>>): multiset<Cell> {
    if gs == [] then multiset{} else multiset{Val(gs[0].value)} + Cells(gs[1..])
  }

  /** Copying an object keeps the counts exact: the copy's globals are counted too. */
  lemma {:induction false} CopyCounts(heap: Heap, m: multiset<Cell>, gs: seq<Named<Value<nat, CInt>>>)
    requires CountedBy(heap, m) && forall g :: g in gs ==> g.value.String? ==> Val(g.value) in m
    ensures CountedBy(IncRefs(heap, gs), m + Cells(gs))
    decreases |gs|
  {
    if gs == [] {
      assert m + Cells(gs) == m;
    } else {
      var v := gs[0].value;
      var more := m + multiset{Val(v)};
      assert CountedBy(IncRef(heap, v), more) by {
        if v.String? {
          IncRefCounts(heap, m, v);
        } else {
          forall a: nat ensures Counted(heap, more, a) {
            assert Counted(heap, m, a) && Val(String(a)) != Val(v);
          }
        }
      }
      forall g | g in gs[1..] && g.value.String? ensures Val(g.value) in more {
        assert g in gs;
      }
      CopyCounts(IncRef(heap, v), more, gs[1..]);
      assert more + Cells(gs[1..]) == m + Cells(gs);
    }
  }

  lemma {:induction false} CellsName(gs: seq<Named<Value<nat, CInt>>>, c: Cell)
    ensures c in Cells(gs) <==> exists i :: 0 <= i < |gs| && Val(gs[i].value) == c
    decreases |gs|
  {
    if gs != [] {
      CellsName(gs[1..], c);
      if i :| 0 <= i < |gs| && Val(gs[i].value) == c {
        if i > 0 {
          assert gs[1..][i - 1] == gs[i];
        }
      }
      if c in Cells(gs) && c != Val(gs[0].value) {
        var j :| 0 <= j < |gs[1..]| && Val(gs[1..][j].value) == c;
        assert gs[j + 1] == gs[1..][j];
      }
    }
  }

  /** The copy that loses its head keeps the references all the same: no cell stands for
      them, and the counts are right only if no global is a string. */
  lemma LostCopyLeaks(heap: Heap, m: multiset<Cell>, gs: seq<Named<Value<nat, CInt>>>)
    requires CountedBy(heap, m) && (forall g :: g in gs ==> g.value.String? ==> Val(g.value) in m)
    requires AtMost(m + Cells(gs), COUNTS - 1)
    ensures CountedBy(IncRefs(heap, gs), m) <==> forall g :: g in gs ==> !g.value.String?
  {
    CopyCounts(heap, m, gs);
    var all := m + Cells(gs);
    if g :| g in gs && g.value.String? {
      var a := g.value.address;
      CellsName(gs, Val(g.value));
      assert Counted(IncRefs(heap, gs), all, a) && CountOf(all, a) <= COUNTS - 1;
      assert CountOf(m, a) < CountOf(all, a);
      assert !Counted(IncRefs(heap, gs), m, a);
    } else {
      forall a: nat ensures Counted(IncRefs(heap, gs), m, a) {
        CellsName(gs, Val(String(a)));
        assert Counted(IncRefs(heap, gs), all, a);
      }
    }
  }

  class Object {
    var id: nat
    var parents: array<nat>
    var parentCount: nat
    var methods: Slots<Code>
    var globals: Slots<Value<nat, CInt>>

    ghost predicate Valid()
      reads this, methods, methods.chain, globals, globals.chain
    {
      parentCount <= parents.Length && methods.Valid() && globals.Valid()
    }

    constructor (id: nat)
      ensures Valid() && this.id == id && parentCount == 0
      ensures methods.content == [] && globals.content == []
      ensures fresh(parents) && fresh(methods) && fresh(globals) && fresh(methods.chain) && fresh(globals.chain)
    {
      this.id, parentCount := id, 0;
      parents := new nat[0];
      methods := new Slots();
      globals := new Slots();
    }

    /** obj_add_parent: realloc to one entry more, then the new one at the end. */
    method AddParent(p: nat)
      requires parentCount <= parents.Length
      modifies this`parents, this`parentCount
      ensures fresh(parents) && parentCount == old(parentCount) + 1 <= parents.Length
      ensures parents[..parentCount] == old(parents[..parentCount]) + [p]
    {
      var grown := new nat[parentCount + 1];
      for i := 0 to parentCount
        invariant parentCount == old(parentCount) && parents == old(parents) && grown[..i] == parents[..i]
      {
        grown[i] := parents[i];
      }
      grown[parentCount] := p;
      assert grown[..parentCount + 1] == grown[..parentCount] + [p];
      parents := grown;
      parentCount := parentCount + 1;
    }

    /** obj_remove_parent: the first occurrence goes, the entries behind it move down. */
    method RemoveParent(p: nat)
      requires parentCount <= parents.Length
      modifies this`parentCount, parents
      ensures parentCount <= parents.Length
      ensures parents[..parentCount] == Remove(old(parents[..parentCount]), p)
    {
      hide Remove;
      ghost var ps := parents[..parentCount];
      for i := 0 to parentCount
        invariant parentCount == |ps| && parents[..parentCount] == ps && p !in ps[..i]
      {
        assert parents[i] == ps[i];
        if parents[i] == p {
          RemoveAt(ps, p, i);
          assert parents[..i] == ps[..i] && parents[i + 1..parentCount] == ps[i + 1..];
          CloseGap(i);
          return;
        }
        assert ps[..i + 1] == ps[..i] + [ps[i]];
      }
      assert ps[..|ps|] == ps;
    }

    method CloseGap(i: nat)
      requires i < parentCount <= parents.Length
      modifies this`parentCount, parents
      ensures parentCount == old(parentCount) - 1
      ensures parents[..parentCount] == old(parents[..i]) + old(parents[i + 1..parentCount])
    {
      ghost var ps := parents[..];
      var j := i;
      while j + 1 < parentCount
        invariant i <= j < parentCount && parentCount == old(parentCount)
        invariant parents[..j] == ps[..i] + ps[i + 1..j + 1] && parents[j + 1..] == ps[j + 1..]
      {
        assert parents[j + 1] == parents[j + 1..][0] == ps[j + 1];
        parents[j] := parents[j + 1];
        assert parents[..j + 1] == ps[..i] + ps[i + 1..j + 1] + [ps[j + 1]];
        assert ps[i + 1..j + 2] == ps[i + 1..j + 1] + [ps[j + 1]];
        assert parents[j + 2..] == ps[j + 2..];
        j := j + 1;
      }
      parentCount := parentCount - 1;
    }

    /** The reference that the copying loop adds for each global. */
    method CountGlobals(heap: Heap) returns (h: Heap)
      requires Valid()
      ensures h == IncRefs(heap, globals.content)
    {
      h := heap;
      var gs := globals.first;
      ghost var i := 0;
      while gs != null
        invariant i <= |globals.chain| && gs == SlotList.At(globals.chain, i)
        invariant IncRefs(heap, globals.content) == IncRefs(h, globals.content[i..])
        decreases |globals.chain| - i
      {
        assert globals.content[i..][0] == Named(gs.name, gs.value);
        assert globals.content[i..][1..] == globals.content[i + 1..];
        h := IncRef(h, gs.value);
        gs := gs.next;
        i := i + 1;
      }
    }

    method CopyParents() returns (ps: array<nat>)
      requires parentCount <= parents.Length
      ensures fresh(ps) && ps.Length == parentCount && ps[..] == parents[..parentCount]
    {
      ps := new nat[parentCount];
      for i := 0 to parentCount
        invariant ps[..i] == parents[..i]
      {
        ps[i] := parents[i];
      }
      assert ps[..] == ps[..parentCount];
    }

    constructor Of(id: nat, parents: array<nat>, methods: Slots<Code>, globals: Slots<Value<nat, CInt>>)
      ensures this.id == id && this.parents == parents && parentCount == parents.Length
      ensures this.methods == methods && this.globals == globals
    {
      this.id, this.parents, parentCount := id, parents, parents.Length;
      this.methods, this.globals := methods, globals;
    }

    /** obj_copy, with the first copied slots becoming the heads of the lists. */
    method Copy(heap: Heap) returns (copy: Object, h: Heap)
      requires Valid()
      ensures fresh(copy) && copy.Valid() && copy.id == id
      ensures copy.parents[..copy.parentCount] == parents[..parentCount]
      ensures copy.methods.content == methods.content && copy.globals.content == globals.content
      ensures h == IncRefs(heap, globals.content)
    {
      hide IncRefs;
      h := CountGlobals(heap);
      var ps := CopyParents();
      var ms := methods.Copy();
      var gs := globals.Copy();
      copy := new Object.Of(id, ps, ms, gs);
      assert ps[..ps.Length] == ps[..];
    }

    ghost function AsCode(): ObjectCode
      requires Valid()
      reads this, parents, methods, methods.chain, globals, globals.chain
    {
      ObjectCode(id, parents[..parentCount], methods.content)
    }

    /** The first pass over the methods. */
    method SizeRequired() returns (size: nat, count: nat)
      requires Valid()
      ensures size == |Bytes(AsCode())| && count == |methods.content|
    {
      size, count := 8 + 4 + parentCount * 8 + 4, 0;
      var cms := methods.first;
      ghost var i := 0;
      while cms != null
        invariant count == i <= |methods.chain| && cms == SlotList.At(methods.chain, i)
        invariant size + MethodsSize(methods.content[i..]) == Size(AsCode())
        decreases |methods.chain| - i
      {
        assert methods.content[i..][0] == Named(cms.name, cms.value);
        assert methods.content[i..][1..] == methods.content[i + 1..];
        size := size + 4 + |cms.name| + 4 + |cms.value|;
        count := count + 1;
        cms := cms.next;
        i := i + 1;
      }
      SizeIsExact(AsCode());
    }

    method WriteParents(dst: array<Byte>, at: nat) returns (end: nat)
      requires Valid() && at + |ParentBytes(parents[..parentCount])| <= dst.Length
      modifies dst
      ensures Valid() && AsCode() == old(AsCode())
      ensures end == at + |ParentBytes(AsCode().parents)|
      ensures Wrote(old(dst[..]), dst[..], at, ParentBytes(AsCode().parents))
    {
      hide LittleEndian, Wrote, ParentBytes, Slots.Valid;
      ghost var ps, before, done := parents[..parentCount], dst[..], [];
      end := at;
      WroteNothing(before, at);
      assert ps[0..] == ps && ParentsDone(ps, 0, done);
      for i := 0 to parentCount
        invariant Valid() && AsCode() == old(AsCode())
        invariant end == at + |done| && ParentsDone(ps, i, done)
        invariant Wrote(before, dst[..], at, done)
      {
        ParentsWritten(ps, i, done);
        ghost var middle := dst[..];
        end := Copied(dst, end, LittleEndian(parents[i], 8));
        WroteBoth(before, middle, dst[..], at, done, LittleEndian(ps[i], 8));
        done := done + LittleEndian(ps[i], 8);
      }
      ParentsWritten(ps, parentCount, done);
    }

    method WriteMethods(dst: array<Byte>, at: nat) returns (end: nat)
      requires Valid() && at + |MethodsBytes(methods.content)| <= dst.Length
      modifies dst
      ensures Valid() && AsCode() == old(AsCode())
      ensures end == at + |MethodsBytes(AsCode().methods)|
      ensures Wrote(old(dst[..]), dst[..], at, MethodsBytes(AsCode().methods))
    {
      hide LittleEndian, NameBytes, MethodBytes, MethodsBytes, Wrote, Slots.Valid;
      ghost var ms, before, done := methods.content, dst[..], [];
      end := at;
      WroteNothing(before, at);
      assert ms[0..] == ms && MethodsDone(ms, 0, done);
      methods.Facts(0);
      var cms := methods.first;
      ghost var i := 0;
      while cms != null
        invariant Valid() && AsCode() == old(AsCode())
        invariant i <= |methods.chain| && cms == SlotList.At(methods.chain, i)
        invariant end == at + |done| && MethodsDone(ms, i, done)
        invariant Wrote(before, dst[..], at, done)
        decreases |methods.chain| - i
      {
        MethodsWritten(ms, i, done);
        methods.Facts(i);
        ghost var middle := dst[..];
        end := WriteMethod(dst, end, cms.name, cms.value);
        WroteBoth(before, middle, dst[..], at, done, MethodBytes(ms[i]));
        done := done + MethodBytes(ms[i]);
        cms := cms.next;
        i := i + 1;
      }
      MethodsWritten(ms, i, done);
    }

    /** obj_code_to_buffer: into the buffer given if it is long enough, else into a longer
        one; the bytes behind the object's stay as they were. */
    method CodeToBuffer(buffer: array<Byte>, bufLen: nat) returns (out: array<Byte>, len: nat)
      requires Valid() && bufLen <= buffer.Length
      modifies buffer
      ensures Valid() && AsCode() == old(AsCode())
      ensures len == |Bytes(AsCode())| <= out.Length && out[..len] == Bytes(AsCode())
      ensures if len <= bufLen then out == buffer && out[len..] == old(buffer[len..]) else fresh(out)
    {
      hide LittleEndian, ParentBytes, MethodsBytes, Wrote;
      var count;
      len, count := SizeRequired();
      out := buffer;
      if bufLen < len {
        out := new Byte[len];
      }
      ghost var before := out[..];
      WriteObject(out, count);
      WroteAll(before, out[..], Bytes(AsCode()));
    }

    method WriteObject(dst: array<Byte>, count: nat)
      requires Valid() && count == |methods.content| && |Bytes(AsCode())| <= dst.Length
      modifies dst
      ensures Valid() && AsCode() == old(AsCode()) && Wrote(old(dst[..]), dst[..], 0, Bytes(AsCode()))
    {
      hide LittleEndian, ParentBytes, MethodsBytes, Wrote, Bytes, Slots.Valid;
      ghost var o, before := AsCode(), dst[..];
      ghost var p := Parts(o);
      var end := Copied(dst, 0, LittleEndian(id, 8));
      ghost var b1 := dst[..];
      end := Copied(dst, end, LittleEndian(parentCount, 4));
      ghost var b2 := dst[..];
      WroteBoth(before, b1, b2, 0, p[0], LittleEndian(parentCount, 4));
      end := WriteParents(dst, end);
      ghost var b3 := dst[..];
      WroteBoth(before, b2, b3, 0, p[1], ParentBytes(o.parents));
      end := Copied(dst, end, LittleEndian(count, 4));
      ghost var b4 := dst[..];
      WroteBoth(before, b3, b4, 0, p[2], LittleEndian(count, 4));
      end := WriteMethods(dst, end);
      WroteBoth(before, b4, dst[..], 0, p[3], MethodsBytes(o.methods));
    }
  }

  /** What has been written after each field. */
  lemma Parts(o: ObjectCode) returns (p: seq<seq<Byte>>)
    ensures |p| == 4 && p[0] == LittleEndian(o.id, 8) && p[1] == p[0] + LittleEndian(|o.parents|, 4)
    ensures p[2] == p[1] + ParentBytes(o.parents) && p[3] == p[2] + LittleEndian(|o.methods|, 4)
    ensures Bytes(o) == p[3] + MethodsBytes(o.methods)
    ensures |p[0]| <= |p[1]| <= |p[2]| <= |p[3]| <= |Bytes(o)|
  {
    hide LittleEndian;
    var p1 := LittleEndian(o.id, 8);
    var p2 := p1 + LittleEndian(|o.parents|, 4);
    var p3 := p2 + ParentBytes(o.parents);
    p := [p1, p2, p3, p3 + LittleEndian(|o.methods|, 4)];
  }

  ghost predicate ParentsDone(ps: seq<nat>, i: nat, done: seq<Byte>) {
    i <= |ps| && done + ParentBytes(ps[i..]) == ParentBytes(ps)
  }

  lemma ParentsWritten(ps: seq<nat>, i: nat, done: seq<Byte>)
    requires ParentsDone(ps, i, done)
    ensures i < |ps| ==>
      ParentsDone(ps, i + 1, done + LittleEndian(ps[i], 8)) && |done| + |LittleEndian(ps[i], 8)| <= |ParentBytes(ps)|
    ensures i == |ps| ==> done == ParentBytes(ps)
  {
    hide LittleEndian;
    if i < |ps| {
      assert ps[i..][0] == ps[i] && ps[i..][1..] == ps[i + 1..];
      assert done + LittleEndian(ps[i], 8) + ParentBytes(ps[i + 1..]) == done + ParentBytes(ps[i..]);
    }
  }

  ghost predicate MethodsDone(ms: seq<Named<Code>>, i: nat, done: seq<Byte>) {
    i <= |ms| && done + MethodsBytes(ms[i..]) == MethodsBytes(ms)
  }

  lemma MethodsWritten(ms: seq<Named<Code>>, i: nat, done: seq<Byte>)
    requires MethodsDone(ms, i, done)
    ensures i < |ms| ==>
      MethodsDone(ms, i + 1, done + MethodBytes(ms[i])) && |done| + |MethodBytes(ms[i])| <= |MethodsBytes(ms)|
    ensures i == |ms| ==> done == MethodsBytes(ms)
  {
    hide MethodBytes;
    if i < |ms| {
      assert ms[i..][0] == ms[i] && ms[i..][1..] == ms[i + 1..];
      assert done + MethodBytes(ms[i]) + MethodsBytes(ms[i + 1..]) == done + MethodsBytes(ms[i..]);
    }
  }

  /** The buffer after is the buffer before, with bs at position `at`. */
  ghost predicate Wrote(before: seq<Byte>, after: seq<Byte>, at: nat, bs: seq<Byte>) {
    at + |bs| <= |before| && after == before[..at] + bs + before[at + |bs|..]
  }

  lemma WroteNothing(before: seq<Byte>, at: nat)
    requires at <= |before|
    ensures Wrote(before, before, at, [])
  {
  }

  lemma WroteBoth(before: seq<Byte>, middle: seq<Byte>, after: seq<Byte>, at: nat, x: seq<Byte>, y: seq<Byte>)
    requires Wrote(before, middle, at, x) && Wrote(middle, after, at + |x|, y)
    ensures Wrote(before, after, at, x + y)
  {
    assert middle[..at + |x|] == before[..at] + x;
    assert middle[at + |x| + |y|..] == before[at + |x| + |y|..];
  }

  lemma WroteAll(before: seq<Byte>, after: seq<Byte>, bs: seq<Byte>)
    requires Wrote(before, after, 0, bs)
    ensures |bs| <= |before| == |after| && after[..|bs|] == bs && after[|bs|..] == before[|bs|..]
  {
  }

  method WriteBlock(dst: array<Byte>, at: nat, block: seq<Byte>) returns (end: nat)
    requires at + |BlockBytes(block)| <= dst.Length
    modifies dst
    ensures end == at + |BlockBytes(block)| && Wrote(old(dst[..]), dst[..], at, BlockBytes(block))
  {
    hide LittleEndian, Wrote;
    ghost var before := dst[..];
    end := Copied(dst, at, LittleEndian(|block|, 4));
    ghost var middle := dst[..];
    end := Copied(dst, end, block);
    WroteBoth(before, middle, dst[..], at, LittleEndian(|block|, 4), block);
  }

  method WriteMethod(dst: array<Byte>, at: nat, name: string, code: Code) returns (end: nat)
    requires at + |MethodBytes(Named(name, code))| <= dst.Length
    modifies dst
    ensures end == at + |MethodBytes(Named(name, code))|
    ensures Wrote(old(dst[..]), dst[..], at, MethodBytes(Named(name, code)))
  {
    hide NameBytes, BlockBytes, Wrote;
    ghost var before := dst[..];
    end := WriteBlock(dst, at, NameBytes(name));
    ghost var middle := dst[..];
    end := WriteBlock(dst, end, code);
    WroteBoth(before, middle, dst[..], at, BlockBytes(NameBytes(name)), BlockBytes(code));
  }

  /** memcpy into a buffer; the next free position is returned. */
  method Copied(dst: array<Byte>, at: nat, bs: seq<Byte>) returns (end: nat)
    requires at + |bs| <= dst.Length
    modifies dst
    ensures end == at + |bs| && Wrote(old(dst[..]), dst[..], at, bs)
  {
    for i := 0 to |bs|
      invariant forall j :: 0 <= j < dst.Length ==> dst[j] == if at <= j < at + i then bs[j - at] else old(dst[j])
    {
      dst[at + i] := bs[i];
    }
    end := at + |bs|;
  }
}

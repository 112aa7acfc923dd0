/** Where src/eval.c departs from its own documentation, and exactly when it shows. The
    handlers below act in the order of the code; the ones in Machine read their sources
    before they clear anything, and RETURN leaves SP where src/eval.h puts it. */
module EvalAsWritten {
  import opened Machine
  import opened References
  import opened Scalars
  import opened Strings
  import opened Values
  import opened Wrappers

  /** SP is left one above the returned value, on a cell set to nil. */
  function ReturnAsWritten(s: State, reg: nat): Outcome {
    if !InFrame(s, reg) || !Nested(s) then Raised
    else
      var v := Reg(s, reg);
      Running(s.(
        stack := s.stack[..s.fp - 3] + [Val(v), Val(Nil)],
        heap := DropCells(IncRef(s.heap, v), s.stack[s.fp - 1..]),
        fp := s.stack[s.fp - 3].fp,
        ip := s.stack[s.fp - 2].ip,
        obj := s.stack[s.fp - 1].obj))
  }

  /** The caller that pops the result, as the documentation asks it to, gets nil instead
      of the value, for every value returned. */
  lemma PopMissesResult(s: State, reg: nat, dst: nat)
    requires DoReturn(s, reg).Running?
    requires InFrame(DoReturn(s, reg).s, dst) && DoReturn(s, reg).s.fp + dst < |DoReturn(s, reg).s.stack| - 1
    ensures ReturnAsWritten(s, reg).Running? && InFrame(s, reg)
    ensures DoPop(DoReturn(s, reg).s, dst).Running? && DoPop(ReturnAsWritten(s, reg).s, dst).Running?
    ensures var good, bad := DoPop(DoReturn(s, reg).s, dst).s, DoPop(ReturnAsWritten(s, reg).s, dst).s;
      && InFrame(good, dst) && Reg(good, dst) == Reg(s, reg)
      && InFrame(bad, dst) && Reg(bad, dst) == Nil
      && |bad.stack| == |good.stack| + 1
  {
  }

  /** The references are right even so: the extra cell names nothing. */
  lemma ExtraCellBalances(s: State, reg: nat)
    requires Balanced(s) && Bounded(s) && DoReturn(s, reg).Running?
    ensures ReturnAsWritten(s, reg).Running? && Balanced(ReturnAsWritten(s, reg).s)
  {
    var t := DoReturn(s, reg).s;
    ReturnCounts(s, reg);
    PushCounts(t, Nil);
    assert t.stack + [Val(Nil)] == s.stack[..s.fp - 3] + [Val(Reg(s, reg)), Val(Nil)];
    assert ReturnAsWritten(s, reg).s == PushValue(t, Nil);
  }

  /** Write a register that has been cleared. */
  function Fill(s: State, r: nat, v: Value<nat, CInt>): State
    requires InFrame(s, r)
  {
    s.(stack := s.stack[s.fp + r := Val(v)])
  }

  /** MOV clears dst, then reads src. */
  function MovAsWritten(s: State, dst: nat, src: nat): Outcome {
    if !InFrame(s, dst) || !InFrame(s, src) then Raised
    else
      var t := SetReg(s, dst, Nil);
      var v := Reg(t, src);
      Running(Fill(t.(heap := IncRef(t.heap, v)), dst, v))
  }

  function ConcatAsWritten(s: State, dst: nat, a: nat, b: nat, at: nat): Outcome {
    if !InFrame(s, dst) || !InFrame(s, a) || !InFrame(s, b) || !Reg(s, a).String? || !Reg(s, b).String? then Raised
    else
      var t := SetReg(s, dst, Nil);
      // the string getters assert the type of what they are given
      if !Reg(t, a).String? || !Reg(t, b).String? then Raised
      else
        var text := Text(t.heap, Reg(t, a).address) + Text(t.heap, Reg(t, b).address);
        Running(Fill(t.(heap := MakeString(t.heap, at, text)), dst, String(at)))
  }

  function Apply1AsWritten(s: State, op: UnaryOp, dst: nat, src: nat): Outcome {
    if !InFrame(s, dst) || !InFrame(s, src) || Unary(op, Reg(s, src), Texts(s.heap)) == None then Raised
    else
      var t := SetReg(s, dst, Nil);
      match Unary(op, Reg(t, src), Texts(t.heap))
      case None => Raised
      case Some(v) => Running(Fill(t, dst, v))
  }

  /** What the code of the comparing and logical instructions makes of two registers, or None
      when a getter's assertion stops it. AND and OR look at the second one only when the
      first does not decide; LE and LT answer false when the first is neither an int nor a
      string. */
  function Written(op: BinaryOp, x: Value<nat, CInt>, y: Value<nat, CInt>, rounded: bv32, text: nat -> string)
    : Option<Value<nat, CInt>>
  {
    if (op == And && x == Bool(false)) || ((op == Le || op == Lt) && !x.Int? && !x.String?) then Some(Bool(false))
    else if op == Or && x == Bool(true) then Some(Bool(true))
    else Binary(op, x, y, rounded, text)
  }

  lemma WrittenAgrees(op: BinaryOp, x: Value<nat, CInt>, y: Value<nat, CInt>, rounded: bv32, text: nat -> string)
    requires Binary(op, x, y, rounded, text).Some?
    ensures Written(op, x, y, rounded, text) == Binary(op, x, y, rounded, text)
  {
  }

  /** AND, OR, EQ, LE and LT clear dst first; arithmetic computes first. AND and OR check
      their types before they clear. */
  function Apply2AsWritten(s: State, op: BinaryOp, dst: nat, a: nat, b: nat, rounded: bv32): Outcome {
    if op.Add? || op.Sub? || op.Mul? then DoApply2(s, op, dst, a, b, rounded)
    else if !InFrame(s, dst) || !InFrame(s, a) || !InFrame(s, b)
            || ((op == And || op == Or) && !(Reg(s, a).Bool? && Reg(s, b).Bool?)) then Raised
    else
      var t := SetReg(s, dst, Nil);
      match Written(op, Reg(t, a), Reg(t, b), rounded, Texts(t.heap))
      case None => Raised
      case Some(v) => Running(Fill(t, dst, v))
  }

  lemma TwoCells(s: seq<Cell>, i: nat, j: nat)
    requires i < |s| && j < |s| && i != j && s[i] == s[j] && s[i] != Unused
    ensures multiset(s)[s[i]] >= 2
  {
    var rest := s[i := Unused];
    Replaced(s, i, Unused);
    assert rest[j] in multiset(rest);
  }

  /** A string that another register names survives the clearing of this one. */
  lemma OtherTextStays(s: State, dst: nat, r: nat)
    requires Balanced(s) && Bounded(s) && InFrame(s, dst) && InFrame(s, r) && r != dst && Reg(s, r).String?
    ensures var a, h := Reg(s, r).address, DecRef(s.heap, Reg(s, dst));
      a in s.heap && a in h && h[a].text == s.heap[a].text
  {
    var a := Reg(s, r).address;
    RegIsNamed(s, r);
    assert Counted(s.heap, Named(s), a);
    if Reg(s, dst) == Reg(s, r) {
      TwoCells(s.stack, s.fp + dst, s.fp + r);
      assert 2 <= multiset(s.stack)[Val(String(a))] <= CountOf(Named(s), a) <= COUNTS - 1;
    }
  }

  lemma IncDecCommute(s: State, dst: nat, src: nat)
    requires Balanced(s) && Bounded(s) && InFrame(s, dst) && InFrame(s, src) && dst != src
    ensures IncRef(DecRef(s.heap, Reg(s, dst)), Reg(s, src)) == DecRef(IncRef(s.heap, Reg(s, src)), Reg(s, dst))
  {
    var v, previous := Reg(s, src), Reg(s, dst);
    if v.String? {
      OtherTextStays(s, dst, src);
      assert Counted(s.heap, Named(s), v.address) && CountOf(Named(s), v.address) <= COUNTS - 1;
      if previous == v {
        TwoCells(s.stack, s.fp + dst, s.fp + src);
        assert 2 <= CountOf(Named(s), v.address);
      }
      assert s.heap[v.address].count == CountOf(Named(s), v.address);
      hide Balanced, Bounded, Named, CountOf, DecRef, IncRef;
      HeapsCommute(s.heap, previous, v);
    }
  }

  lemma HeapsCommute(heap: Heap, p: Value<nat, CInt>, v: Value<nat, CInt>)
    requires v.String? && v.address in heap && heap[v.address].count < COUNTS
    requires p == v ==> 2 <= heap[v.address].count
    ensures IncRef(DecRef(heap, p), v) == DecRef(IncRef(heap, v), p)
  {
    if p.String? && p.address in heap && p != v {
      assert p.address != v.address;
      var hs := heap[v.address].(count := (heap[v.address].count + 1) % COUNTS);
      assert (heap - {p.address})[v.address := hs] == heap[v.address := hs] - {p.address};
    }
  }

  /** MOV does what it says unless it moves a register to itself, when the value is lost. */
  lemma MovExact(s: State, dst: nat, src: nat)
    requires Balanced(s) && Bounded(s) && DoMov(s, dst, src).Running?
    ensures MovAsWritten(s, dst, src) == DoMov(s, dst, src) <==> dst != src || Reg(s, src) == Nil
  {
    var k := s.fp + dst;
    assert s.stack[k := Val(Nil)][k := Val(Reg(s, src))] == s.stack[k := Val(Reg(s, src))];
    if dst != src {
      IncDecCommute(s, dst, src);
    } else if Reg(s, src) != Nil {
      assert MovAsWritten(s, dst, src).s.stack[k] == Val(Nil);
      assert DoMov(s, dst, src).s.stack[k] == Val(Reg(s, src));
    }
  }

  lemma MakeDecCommute(s: State, dst: nat, at: nat, text: string)
    requires Balanced(s) && InFrame(s, dst) && at !in s.heap
    ensures MakeString(DecRef(s.heap, Reg(s, dst)), at, text) == DecRef(MakeString(s.heap, at, text), Reg(s, dst))
  {
    RegIsNamed(s, dst);
    if Reg(s, dst).String? {
      assert Counted(s.heap, Named(s), Reg(s, dst).address);
    }
  }

  /** CONCAT does what it says unless the destination is one of the sources, when an
      assertion of the string getters stops the program. */
  lemma ConcatExact(s: State, dst: nat, a: nat, b: nat, at: nat)
    requires Balanced(s) && Bounded(s) && at !in s.heap && DoConcat(s, dst, a, b, at).Running?
    ensures ConcatAsWritten(s, dst, a, b, at) == DoConcat(s, dst, a, b, at) <==> dst != a && dst != b
  {
    if dst != a && dst != b {
      OtherTextStays(s, dst, a);
      OtherTextStays(s, dst, b);
      var k := s.fp + dst;
      var text := Text(s.heap, Reg(s, a).address) + Text(s.heap, Reg(s, b).address);
      assert s.stack[k := Val(Nil)][k := Val(String(at))] == s.stack[k := Val(String(at))];
      MakeDecCommute(s, dst, at, text);
    }
  }

  lemma Apply1Apart(s: State, op: UnaryOp, dst: nat, src: nat)
    requires Balanced(s) && Bounded(s) && DoApply1(s, op, dst, src).Running? && dst != src
    ensures Apply1AsWritten(s, op, dst, src) == DoApply1(s, op, dst, src)
  {
    var k, t := s.fp + dst, SetReg(s, dst, Nil);
    if Reg(s, src).String? {
      OtherTextStays(s, dst, src);
    }
    assert Unary(op, Reg(t, src), Texts(t.heap)) == Unary(op, Reg(s, src), Texts(s.heap));
    hide CountedBy, AtMost, Named, DecRef, Unary;
    var v := Unary(op, Reg(s, src), Texts(s.heap)).value;
    assert s.stack[k := Val(Nil)][k := Val(v)] == s.stack[k := Val(v)];
  }

  /** The instructions with one source do what they say unless they write to it: TYPE then
      answers the number of nil, and the others stop. */
  lemma Apply1Exact(s: State, op: UnaryOp, dst: nat, src: nat)
    requires Balanced(s) && Bounded(s) && DoApply1(s, op, dst, src).Running?
    ensures Apply1AsWritten(s, op, dst, src) == DoApply1(s, op, dst, src)
      <==> (dst != src || (op == Type && Reg(s, src) == Nil))
  {
    hide CountedBy, AtMost, Named;
    if dst != src {
      Apply1Apart(s, op, dst, src);
    } else if op == Type {
      var k := s.fp + dst;
      var v := Unary(op, Reg(s, src), Texts(s.heap)).value;
      TagsDiffer(Reg(s, src));
      assert s.stack[k := Val(Nil)][k := Val(v)] == s.stack[k := Val(v)];
      assert DoApply1(s, op, dst, src).s.stack[k] == Val(v);
      assert Apply1AsWritten(s, op, dst, src).s.stack[k] == Val(Int(0));
    }
  }

  lemma TagsDiffer(v: Value<nat, CInt>)
    ensures TypeNumber(v) == 0 <==> v == Nil
  {
  }

  lemma Apply2Apart(s: State, op: BinaryOp, dst: nat, a: nat, b: nat, rounded: bv32)
    requires Balanced(s) && Bounded(s) && DoApply2(s, op, dst, a, b, rounded).Running? && dst != a && dst != b
    ensures Apply2AsWritten(s, op, dst, a, b, rounded) == DoApply2(s, op, dst, a, b, rounded)
  {
    var k, t := s.fp + dst, SetReg(s, dst, Nil);
    if Reg(s, a).String? {
      OtherTextStays(s, dst, a);
    }
    if Reg(s, b).String? {
      OtherTextStays(s, dst, b);
    }
    assert Binary(op, Reg(t, a), Reg(t, b), rounded, Texts(t.heap))
        == Binary(op, Reg(s, a), Reg(s, b), rounded, Texts(s.heap));
    WrittenAgrees(op, Reg(t, a), Reg(t, b), rounded, Texts(t.heap));
    assert op == And || op == Or ==> Reg(s, a).Bool? && Reg(s, b).Bool?;
    hide CountedBy, AtMost, Named, DecRef, Binary, Written;
    var v := Binary(op, Reg(s, a), Reg(s, b), rounded, Texts(s.heap)).value;
    assert s.stack[k := Val(Nil)][k := Val(v)] == s.stack[k := Val(v)];
  }

  /** What one of the instructions finds in a register it has cleared itself. */
  lemma ClearedSource(s: State, op: BinaryOp, dst: nat, a: nat, b: nat, rounded: bv32)
    requires DoApply2(s, op, dst, a, b, rounded).Running? && (dst == a || dst == b)
    requires !op.Add? && !op.Sub? && !op.Mul?
    ensures var t, v := SetReg(s, dst, Nil), Binary(op, Reg(s, a), Reg(s, b), rounded, Texts(s.heap)).value;
      (Written(op, Reg(t, a), Reg(t, b), rounded, Texts(t.heap)) == Some(v)
       <==> ((op == Eq && v == Bool(false))
             || ((op == Le || op == Lt) && dst == a && v == Bool(false))
             || (op == And && dst == b != a && Reg(s, a) == Bool(false))
             || (op == Or && dst == b != a && Reg(s, a) == Bool(true))))
  {
    hide DecRef, Order, Compare, Texts;
  }

  /** Both forms store one value in the same register of the same state. */
  lemma StoredAlike(s: State, dst: nat, v: Value<nat, CInt>, w: Value<nat, CInt>)
    requires InFrame(s, dst)
    ensures SetReg(s, dst, v) == Fill(SetReg(s, dst, Nil), dst, w) <==> v == w
  {
    var k := s.fp + dst;
    assert s.stack[k := Val(Nil)][k := Val(w)] == s.stack[k := Val(w)];
    assert SetReg(s, dst, v).stack[k] == Val(v);
    assert Fill(SetReg(s, dst, Nil), dst, w).stack[k] == Val(w);
  }

  /** The comparing and logical instructions do what they say unless the destination is one
      of the sources; and then exactly when the answer is the one that the cleared register
      still gives: EQ not equal; LE and LT false, with the first source cleared; AND and OR
      with the second source cleared and the first deciding alone. */
  lemma Apply2Exact(s: State, op: BinaryOp, dst: nat, a: nat, b: nat, rounded: bv32)
    requires Balanced(s) && Bounded(s) && DoApply2(s, op, dst, a, b, rounded).Running?
    ensures Apply2AsWritten(s, op, dst, a, b, rounded) == DoApply2(s, op, dst, a, b, rounded)
      <==> ((dst != a && dst != b) || op.Add? || op.Sub? || op.Mul?
            || (op == Eq && !Equal(Reg(s, a), Reg(s, b), Texts(s.heap)))
            || ((op == Le || op == Lt) && dst == a
                && Binary(op, Reg(s, a), Reg(s, b), rounded, Texts(s.heap)) == Some(Bool(false)))
            || (op == And && dst == b != a && Reg(s, a) == Bool(false))
            || (op == Or && dst == b != a && Reg(s, a) == Bool(true)))
  {
    hide CountedBy, AtMost, Named;
    if op.Add? || op.Sub? || op.Mul? {
      return;
    }
    if dst != a && dst != b {
      Apply2Apart(s, op, dst, a, b, rounded);
    } else {
      ClearedSource(s, op, dst, a, b, rounded);
      var t, v := SetReg(s, dst, Nil), Binary(op, Reg(s, a), Reg(s, b), rounded, Texts(s.heap)).value;
      assert op == And || op == Or ==> Reg(s, a).Bool? && Reg(s, b).Bool?;
      assert op == Eq ==> v == Bool(Equal(Reg(s, a), Reg(s, b), Texts(s.heap)));
      hide Binary, Written, Equal, DecRef;
      var w := Written(op, Reg(t, a), Reg(t, b), rounded, Texts(t.heap));
      if w.Some? {
        StoredAlike(s, dst, v, w.value);
      }
    }
  }

  /** LE and LT of types they cannot compare: the code reports the mismatch and goes on. It
      then stores false exactly when the first source is neither an int nor a string. */
  lemma MismatchGoesOn(s: State, op: BinaryOp, dst: nat, a: nat, b: nat, rounded: bv32)
    requires Balanced(s) && Bounded(s) && (op == Le || op == Lt) && dst != a && dst != b
    requires InFrame(s, dst) && InFrame(s, a) && InFrame(s, b) && DoApply2(s, op, dst, a, b, rounded) == Raised
    ensures Apply2AsWritten(s, op, dst, a, b, rounded) ==
      if Reg(s, a).Int? || Reg(s, a).String? then Raised else Running(SetReg(s, dst, Bool(false)))
  {
    var t := SetReg(s, dst, Nil);
    assert Reg(t, a) == Reg(s, a) && Reg(t, b) == Reg(s, b);
    StoredAlike(s, dst, Bool(false), Bool(false));
    hide CountedBy, AtMost, Named, DecRef;
  }

  /** Where SYSCALL looks for the name of the call: below the arguments, in the frame. */
  predicate NamesCall(s: State, nargs: nat) {
    var slot := |s.stack| - nargs - 1;
    s.fp <= slot && s.stack[slot].Val? && s.stack[slot].v.String?
  }

  /** The table has the call, with an arity the code can pass on. */
  predicate Callable(s: State, nargs: nat, table: seq<SyscallEntry>)
    requires NamesCall(s, nargs)
  {
    var name := CString(Text(s.heap, s.stack[|s.stack| - nargs - 1].v.address));
    nargs <= 3 && SyscallEntry(name, nargs) in table
  }

  /** Whether the call is found or not, its name and its arguments are given up. */
  function SyscallAsWritten(s: State, nargs: nat): Outcome {
    if !NamesCall(s, nargs) then Raised
    else
      var slot := |s.stack| - nargs - 1;
      Running(s.(stack := s.stack[..slot], heap := DropCells(s.heap, s.stack[slot..])))
  }

  /** For a call that is not in the table, or has more than three arguments, the code reports
      the error and goes on without name and arguments. The counts are right even so. */
  lemma SyscallExact(s: State, nargs: nat, table: seq<SyscallEntry>)
    requires Balanced(s) && Bounded(s)
    ensures SyscallAsWritten(s, nargs) == DoSyscall(s, nargs, table)
      <==> (NamesCall(s, nargs) ==> Callable(s, nargs, table))
    ensures NamesCall(s, nargs) ==> Balanced(SyscallAsWritten(s, nargs).s)
  {
    if NamesCall(s, nargs) {
      var slot := |s.stack| - nargs - 1;
      InTable(table, CString(Text(s.heap, s.stack[slot].v.address)), nargs);
      hide Balanced, Bounded, DropCells, CString, Text, FindSyscall;
      CutCounts(s, slot);
    }
  }
}

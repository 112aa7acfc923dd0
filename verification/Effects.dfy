/** What the instructions are for: which register changes and to what, and which pairs of
    instructions undo or answer each other. */
module Effects {
  import opened Frames
  import opened Machine
  import opened Scalars
  import opened Strings
  import opened References
  import opened Values
  import opened Wrappers

  /** The register an instruction writes, for those that write one and leave the stack as
      long as it is. */
  function Target(i: Instr): Option<nat> {
    match i
    case Mov(dst, _) => Some(dst)
    case Clear(dst) => Some(dst)
    case LoadTrue(dst) => Some(dst)
    case LoadInt(dst, _) => Some(dst)
    case LoadFloat(dst, _) => Some(dst)
    case LoadString(dst, _, _) => Some(dst)
    case Apply1(_, dst, _) => Some(dst)
    case Apply2(_, dst, _, _, _) => Some(dst)
    case Concat(dst, _, _, _) => Some(dst)
    case GetGlobal(dst, _) => Some(dst)
    case MakeObj(dst, _, _) => Some(dst)
    case Self(dst) => Some(dst)
    case Parent(dst, _) => Some(dst)
    case _ => None
  }

  /** Such an instruction changes that one cell, and of the rest only ip and counts. */
  lemma WritesOnlyTarget(s: State, i: Instr, r: nat)
    requires Exec(s, i).Running? && Target(i) == Some(r)
    ensures var t := Exec(s, i).s;
      && InFrame(s, r) && InFrame(t, r) && t.stack == s.stack[s.fp + r := Val(Reg(t, r))]
      && t.fp == s.fp && t.obj == s.obj && t.globals == s.globals && t.host == s.host
      && t.ip == s.ip + Size(i)
  {
    hide Unary, Binary, IncRef, DecRef, MakeString, FindSlot, CString;
  }

  /** Only SETGLOBAL touches globals. */
  lemma OnlySetGlobalStores(s: State, i: Instr)
    requires Exec(s, i).Running? && !i.SetGlobal?
    ensures Exec(s, i).s.globals == s.globals
  {
    hide Unary, Binary, IncRef, DecRef, MakeString, FindSlot, CString, DropCells, DropCell;
  }

  lemma MovCopies(s: State, dst: nat, src: nat)
    requires Exec(s, Mov(dst, src)).Running?
    ensures var t := Exec(s, Mov(dst, src)).s;
      InFrame(s, src) && InFrame(t, dst) && InFrame(t, src) && Reg(t, dst) == Reg(t, src) == Reg(s, src)
  {
  }

  /** PUSH and POP in a row are MOV, counts and all. */
  lemma PushPopIsMov(s: State, src: nat, dst: nat)
    requires Framed(s.stack, s.fp) && Exec(s, Mov(dst, src)).Running?
    ensures Exec(s, Push(src)).Running? && Exec(Exec(s, Push(src)).s, Pop(dst)).Running?
    ensures Exec(Exec(s, Push(src)).s, Pop(dst)).s == Exec(s, Mov(dst, src)).s.(ip := s.ip + 4)
  {
    hide IncRef, DecRef;
    FrameFacts(s.stack, s.fp);
    var p := Exec(s, Push(src)).s;
    var v, k := Val(Reg(s, src)), s.fp + dst;
    assert p.stack[..|p.stack| - 1] == s.stack;
    assert p.stack[k := v][..|p.stack| - 1] == s.stack[k := v];
  }

  /** What CALL leaves in the callee's registers: the arguments, in order; ARGS_LOCALS with
      their number then succeeds and gives registers of nil above them. */
  lemma CalleeSeesArguments(s: State, nargs: nat, nlocals: nat, entry: Option<int>, k: nat)
    requires Framed(s.stack, s.fp) && Exec(s, Call(nargs, entry)).Running? && k < nargs + nlocals
    ensures var c := Exec(s, Call(nargs, entry)).s;
      && Exec(c, ArgsLocals(nargs, nlocals)).Running?
      && var t := Exec(c, ArgsLocals(nargs, nlocals)).s;
      && InFrame(t, k)
      && (k < nargs ==> Val(Reg(t, k)) == s.stack[|s.stack| - nargs + k])
      && (k >= nargs ==> Reg(t, k) == Nil)
      && !InFrame(t, nargs + nlocals)
  {
    hide IncRef, DecRef, DropCell, Framed, DoCall;
    CallOpens(s, nargs, entry);
    FrameFacts(s.stack, s.fp);
    var c := Exec(s, Call(nargs, entry)).s;
    if k < nargs {
      assert c.stack[c.fp..][k] == s.stack[c.fp..][k];
    }
  }

  lemma FoundAgain(g: seq<Slot>, obj: nat, name: string, slot: Slot, obj': nat, name': string)
    requires slot.obj == obj && slot.name == name
    ensures var k := FindSlot(g, obj, name);
      Global(if k < |g| then g[k := slot] else [slot] + g, obj', name')
      == if obj' == obj && name' == name then slot.value else Global(g, obj', name')
  {
    var k := FindSlot(g, obj, name);
    if k < |g| {
      OverwrittenFound(g, k, slot, obj', name');
    } else {
      PrependedFound(g, slot, obj', name');
    }
  }

  lemma OverwrittenFound(g: seq<Slot>, k: nat, slot: Slot, obj: nat, name: string)
    requires k < |g| && k == FindSlot(g, slot.obj, slot.name)
    ensures Global(g[k := slot], obj, name) ==
      if obj == slot.obj && name == slot.name then slot.value else Global(g, obj, name)
  {
    hide FindSlot;
    var h, j := g[k := slot], FindSlot(g, obj, name);
    SameSlots(g, h, obj, name);
    assert j < |g| ==> h[j] == if j == k then slot else g[j];
  }

  lemma PrependedFound(g: seq<Slot>, slot: Slot, obj: nat, name: string)
    ensures Global([slot] + g, obj, name) ==
      if obj == slot.obj && name == slot.name then slot.value else Global(g, obj, name)
  {
    var h := [slot] + g;
    assert h[0] == slot && h[1..] == g;
    if obj == slot.obj && name == slot.name {
      assert FindSlot(h, obj, name) == 0;
    } else {
      var j := FindSlot(g, obj, name);
      assert FindSlot(h, obj, name) == 1 + j;
      assert j < |g| ==> h[1 + j] == g[j];
    }
  }

  lemma {:induction false} SameSlots(g: seq<Slot>, h: seq<Slot>, obj: nat, name: string)
    requires |g| == |h| && forall j :: 0 <= j < |g| ==> g[j].obj == h[j].obj && g[j].name == h[j].name
    ensures FindSlot(g, obj, name) == FindSlot(h, obj, name)
    decreases |g|
  {
    if g != [] && !(g[0].obj == obj && g[0].name == name) {
      SameSlots(g[1..], h[1..], obj, name);
    }
  }

  /** SETGLOBAL stores under the current object and the name, and nothing else changes. */
  lemma SetGlobalStores(s: State, name: nat, src: nat, obj: nat, other: string)
    requires Exec(s, SetGlobal(name, src, true)).Running?
    ensures StringReg(s, name).Some? && InFrame(s, src)
    ensures var t := Exec(s, SetGlobal(name, src, true)).s;
      && t.stack == s.stack && t.fp == s.fp && t.obj == s.obj && t.host == s.host
      && Global(t.globals, obj, other)
         == if obj == s.obj && other == StringReg(s, name).value then Reg(s, src) else Global(s.globals, obj, other)
  {
    hide IncRef, DecRef, CString, Text, FindSlot, Global;
    var n, v := StringReg(s, name).value, Reg(s, src);
    FoundAgain(s.globals, s.obj, n, Slot(s.obj, n, v), obj, other);
  }

  /** What was stored is read back by GETGLOBAL under the same name. */
  lemma SetThenGet(s: State, name: nat, src: nat, dst: nat)
    requires Balanced(s) && Bounded(s) && InFrame(s, dst) && Exec(s, SetGlobal(name, src, true)).Running?
    ensures var t := Exec(s, SetGlobal(name, src, true)).s;
      && InFrame(s, src) && Exec(t, GetGlobal(dst, name)).Running?
      && var u := Exec(t, GetGlobal(dst, name)).s;
      && InFrame(u, dst) && Reg(u, dst) == Reg(s, src)
  {
    hide IncRef, DecRef, CString, Text, FindSlot, Global, StoreGlobal;
    var n := StringReg(s, name).value;
    SetGlobalStores(s, name, src, s.obj, n);
    NameStays(s, name, src);
    hide StringReg, DoSetGlobal, Balanced, Bounded;
  }

  /** The string that names a global keeps its text while another value is stored. */
  lemma NameStays(s: State, name: nat, src: nat)
    requires Balanced(s) && Bounded(s) && Exec(s, SetGlobal(name, src, true)).Running?
    ensures StringReg(Exec(s, SetGlobal(name, src, true)).s, name) == StringReg(s, name)
  {
    hide IncRef, DecRef, FindSlot, CString;
    var t := Exec(s, SetGlobal(name, src, true)).s;
    var a := Reg(s, name).address;
    ExecCounts(s, SetGlobal(name, src, true));
    RegIsNamed(s, name);
    RegIsNamed(t, name);
    assert Counted(s.heap, Named(s), a) && Counted(t.heap, Named(t), a);
    TextKept(s, StringReg(s, name).value, Reg(s, src), a);
  }

  lemma TextKept(s: State, n: string, v: Value<nat, CInt>, a: nat)
    requires a in s.heap && a in StoreGlobal(s, n, v).heap
    ensures StoreGlobal(s, n, v).heap[a].text == s.heap[a].text
  {
  }

  /** CONCAT joins the texts; what exceeds 16 bits of length is cut off. */
  lemma ConcatJoins(s: State, dst: nat, a: nat, b: nat, at: nat)
    requires Balanced(s) && Bounded(s) && at !in s.heap && Exec(s, Concat(dst, a, b, at)).Running?
    ensures InFrame(s, a) && InFrame(s, b) && Reg(s, a).String? && Reg(s, b).String?
    ensures var t := Exec(s, Concat(dst, a, b, at)).s;
      var x, y := Text(s.heap, Reg(s, a).address), Text(s.heap, Reg(s, b).address);
      && InFrame(t, dst) && Reg(t, dst) == String(at) && at in t.heap
      && (t.heap[at].text == x + y <==> |x| + |y| < COUNTS)
  {
    var x, y := Text(s.heap, Reg(s, a).address), Text(s.heap, Reg(s, b).address);
    RegIsNamed(s, dst);
    if Reg(s, dst).String? {
      assert Counted(s.heap, Named(s), Reg(s, dst).address);
    }
    CutText(x + y);
  }

  lemma ConcatWhen(s: State, dst: nat, a: nat, b: nat, at: nat)
    ensures Exec(s, Concat(dst, a, b, at)).Running? <==>
      InFrame(s, dst) && InFrame(s, a) && InFrame(s, b) && Reg(s, a).String? && Reg(s, b).String?
  {
    hide MakeString, DecRef, Text;
  }

  lemma CutText(text: string)
    ensures text[..|text| % COUNTS] == text <==> |text| < COUNTS
  {
    if |text| < COUNTS {
      assert |text| % COUNTS == |text|;
    } else {
      assert |text[..|text| % COUNTS]| < COUNTS;
    }
  }

  // ----- when each instruction runs, and what it leaves -----

  /** Constants need a register and put the constant there. */
  lemma ConstantsLoad(s: State, dst: nat)
    ensures Exec(s, Clear(dst)).Running? <==> InFrame(s, dst)
    ensures Exec(s, LoadTrue(dst)).Running? <==> InFrame(s, dst)
    ensures InFrame(s, dst) ==>
      RegAfter(s, Clear(dst), dst) == Nil && RegAfter(s, LoadTrue(dst), dst) == Bool(true)
  {
    hide DecRef;
  }

  lemma NumbersLoad(s: State, dst: nat, n: CInt, bits: bv32)
    ensures Exec(s, LoadInt(dst, n)).Running? <==> InFrame(s, dst)
    ensures Exec(s, LoadFloat(dst, bits)).Running? <==> InFrame(s, dst)
    ensures InFrame(s, dst) ==>
      RegAfter(s, LoadInt(dst, n), dst) == Int(n) && RegAfter(s, LoadFloat(dst, bits), dst) == Float(bits)
  {
    hide DecRef;
  }

  /** The register after an instruction; nil stands for none. */
  function RegAfter(s: State, i: Instr, r: nat): Value<nat, CInt> {
    var o := Exec(s, i);
    if o.Running? && InFrame(o.s, r) then Reg(o.s, r) else Nil
  }

  /** SELF and PARENT put references: to the current object, and to its first parent if it has
      one. */
  lemma ReferencesLoad(s: State, dst: nat, first: Option<nat>)
    ensures Exec(s, Self(dst)).Running? <==> InFrame(s, dst)
    ensures Exec(s, Parent(dst, first)).Running? <==> InFrame(s, dst)
    ensures InFrame(s, dst) ==> RegAfter(s, Self(dst), dst) == Objref(s.obj)
    ensures InFrame(s, dst) ==>
      RegAfter(s, Parent(dst, first), dst) == (if first.Some? then Objref(first.value) else Nil)
  {
    hide DecRef;
  }

  /** MAKE_OBJ needs a reference to the parent, and puts one to the object just made. */
  lemma MakesObject(s: State, dst: nat, parent: nat, id: nat)
    ensures Exec(s, MakeObj(dst, parent, id)).Running? <==>
      InFrame(s, dst) && InFrame(s, parent) && Reg(s, parent).Objref?
    ensures Exec(s, MakeObj(dst, parent, id)).Running? ==> RegAfter(s, MakeObj(dst, parent, id), dst) == Objref(id)
  {
    hide DecRef;
  }

  /** LOAD_STRING makes a string with the text, up to 16 bits of length, that the register
      alone refers to. */
  lemma StringLoads(s: State, dst: nat, text: string, at: nat)
    requires Balanced(s) && Bounded(s) && at !in s.heap
    ensures Exec(s, LoadString(dst, text, at)).Running? <==> InFrame(s, dst)
    ensures InFrame(s, dst) ==>
      var t := Exec(s, LoadString(dst, text, at)).s;
      && InFrame(t, dst) && Reg(t, dst) == String(at) && at in t.heap && t.heap[at].count == 1
      && (t.heap[at].text == text <==> |text| < COUNTS)
  {
    if InFrame(s, dst) {
      RegIsNamed(s, dst);
      if Reg(s, dst).String? {
        assert Counted(s.heap, Named(s), Reg(s, dst).address);
      }
      CutText(text);
    }
  }

  /** JUMP goes on at its offset from the next instruction; JUMP_IF does if the register is
      true, and goes on behind itself otherwise. Nothing else changes. */
  lemma JumpsTo(s: State, cond: nat, offset: int)
    ensures Exec(s, Jump(offset)) == Running(s.(ip := s.ip + 5 + offset))
    ensures Exec(s, JumpIf(cond, offset)) ==
      if !InFrame(s, cond) then Raised
      else if Reg(s, cond) == Bool(true) then Running(s.(ip := s.ip + 6 + offset))
      else Running(s.(ip := s.ip + 6))
    ensures Exec(s, Noop) == Running(s.(ip := s.ip + 1))
  {
  }

  /** PUSH puts one cell on top, the register's value; POP takes one away and puts its value
      into the register. The other cells stay. */
  lemma StackMoves(s: State, r: nat, k: nat)
    requires Framed(s.stack, s.fp)
    ensures Exec(s, Push(r)).Running? <==> InFrame(s, r)
    ensures Exec(s, Pop(r)).Running? <==> InFrame(s, r)
    ensures InFrame(s, r) ==>
      var t := Exec(s, Push(r)).s.stack;
      |t| == |s.stack| + 1 && t[|s.stack|] == s.stack[s.fp + r] && (k < |s.stack| ==> t[k] == s.stack[k])
    ensures InFrame(s, r) ==>
      var t := Exec(s, Pop(r)).s.stack;
      && |t| == |s.stack| - 1
      && (s.fp + r < |t| ==> t[s.fp + r] == s.stack[|t|])
      && (k < |t| && k != s.fp + r ==> t[k] == s.stack[k])
  {
    hide IncRef, DecRef, Framed;
    FrameFacts(s.stack, s.fp);
  }

  /** MOV needs two registers, and the instructions that compute from one a result besides,
      which is what they store. */
  lemma ComputesWhen(s: State, dst: nat, src: nat, op: UnaryOp)
    ensures Exec(s, Mov(dst, src)).Running? <==> InFrame(s, dst) && InFrame(s, src)
    ensures Exec(s, Apply1(op, dst, src)).Running? <==>
      InFrame(s, dst) && InFrame(s, src) && Unary(op, Reg(s, src), Texts(s.heap)).Some?
    ensures Exec(s, Apply1(op, dst, src)).Running? ==>
      RegAfter(s, Apply1(op, dst, src), dst) == Unary(op, Reg(s, src), Texts(s.heap)).value
  {
    hide Unary, Binary, DecRef, IncRef;
  }

  /** The same for those that compute from two. */
  lemma CombinesWhen(s: State, dst: nat, a: nat, b: nat, op: BinaryOp, rounded: bv32)
    ensures Exec(s, Apply2(op, dst, a, b, rounded)).Running? <==>
      && InFrame(s, dst) && InFrame(s, a) && InFrame(s, b)
      && Binary(op, Reg(s, a), Reg(s, b), rounded, Texts(s.heap)).Some?
    ensures Exec(s, Apply2(op, dst, a, b, rounded)).Running? ==>
      RegAfter(s, Apply2(op, dst, a, b, rounded), dst)
        == Binary(op, Reg(s, a), Reg(s, b), rounded, Texts(s.heap)).value
  {
    hide Unary, Binary, DecRef;
  }

  /** GETGLOBAL reads the current object's global of that name. SETGLOBAL without its lock has
      the run retried, whatever its operands. */
  lemma GlobalsWhen(s: State, dst: nat, name: nat)
    ensures Exec(s, GetGlobal(dst, name)).Running? <==> InFrame(s, dst) && StringReg(s, name).Some?
    ensures Exec(s, GetGlobal(dst, name)).Running? ==>
      RegAfter(s, GetGlobal(dst, name), dst) == Global(s.globals, s.obj, StringReg(s, name).value)
    ensures Exec(s, SetGlobal(name, dst, true)).Running? <==> InFrame(s, dst) && StringReg(s, name).Some?
    ensures Exec(s, SetGlobal(name, dst, false)) == Retry(s.(ip := s.ip + 3))
  {
    hide DecRef, IncRef, FindSlot, CString, Text;
  }

  /** CALL needs, below the arguments, a method name over a reference to the callee, and code.
      It makes the callee the current object and goes on at the code. */
  lemma CallEnters(s: State, nargs: nat, entry: Option<int>)
    requires Framed(s.stack, s.fp)
    ensures Exec(s, Call(nargs, entry)).Running? <==>
      var slot := |s.stack| - nargs - 3;
      s.fp <= slot && s.stack[slot].v.Objref? && s.stack[slot + 1].v.String? && entry.Some?
    ensures Exec(s, Call(nargs, entry)).Running? ==>
      var t, slot := Exec(s, Call(nargs, entry)).s, |s.stack| - nargs - 3;
      t.ip == entry.value && t.globals == s.globals && s.stack[slot] == Val(Objref(t.obj))
  {
    hide DropCell, Framed;
    FrameFacts(s.stack, s.fp);
  }

  /** So SELF in the callee answers the object that was called, and GETGLOBAL reads its
      globals. */
  lemma CalleeIsCurrent(s: State, nargs: nat, entry: Option<int>, nlocals: nat, dst: nat, name: nat)
    requires Framed(s.stack, s.fp) && Exec(s, Call(nargs, entry)).Running? && dst < nargs + nlocals
    ensures Exec(Exec(s, Call(nargs, entry)).s, ArgsLocals(nargs, nlocals)).Running?
    ensures var callee := s.stack[|s.stack| - nargs - 3].v;
      var t := Exec(Exec(s, Call(nargs, entry)).s, ArgsLocals(nargs, nlocals)).s;
      && callee.Objref? && RegAfter(t, Self(dst), dst) == callee
      && (StringReg(t, name).Some? ==>
            RegAfter(t, GetGlobal(dst, name), dst) == Global(s.globals, callee.id, StringReg(t, name).value))
  {
    CallEnters(s, nargs, entry);
    CalleeSeesArguments(s, nargs, nlocals, entry, dst);
    var c := Exec(s, Call(nargs, entry)).s;
    FrameKeepsObject(c, nargs, nlocals);
    var t := Exec(c, ArgsLocals(nargs, nlocals)).s;
    hide Exec, StringReg, Global, RegAfter, InFrame;
    ReferencesLoad(t, dst, None);
    GlobalsWhen(t, dst, name);
  }

  /** ARGS_LOCALS needs the number of arguments that there are, and changes neither the current
      object nor a global. */
  lemma FrameKeepsObject(s: State, nargs: nat, nlocals: nat)
    ensures Exec(s, ArgsLocals(nargs, nlocals)).Running? <==> |s.stack| == s.fp + nargs
    ensures Exec(s, ArgsLocals(nargs, nlocals)).Running? ==>
      var t := Exec(s, ArgsLocals(nargs, nlocals)).s; t.obj == s.obj && t.globals == s.globals && t.fp == s.fp
  {
  }

  /** RETURN needs a frame to return from and a register; HALT the outermost frame, of which it
      leaves nothing but the unused cell. */
  lemma EndsWhen(s: State, reg: nat)
    requires Framed(s.stack, s.fp)
    ensures Exec(s, Return(reg)).Running? <==> InFrame(s, reg) && s.fp > 1
    ensures Exec(s, Halt).Halted? <==> s.fp == 1
    ensures Exec(s, Halt).Halted? ==> Exec(s, Halt).s.stack == [Unused] && Exec(s, Halt).s.globals == s.globals
  {
    FrameFacts(s.stack, s.fp);
    assert s.fp == 1 ==> s.stack[0] == Unused;
    hide Framed, DropCells, IncRef;
  }

  /** SYSCALL needs a call that the table has, and takes name and arguments away. */
  lemma CallsSystem(s: State, nargs: nat, table: seq<SyscallEntry>)
    requires Framed(s.stack, s.fp)
    ensures Exec(s, Syscall(nargs, table)).Running? <==>
      var slot := |s.stack| - nargs - 1;
      && s.fp <= slot && s.stack[slot].v.String? && nargs <= 3
      && SyscallEntry(CString(Text(s.heap, s.stack[slot].v.address)), nargs) in table
    ensures Exec(s, Syscall(nargs, table)).Running? ==>
      Exec(s, Syscall(nargs, table)).s.stack == s.stack[..|s.stack| - nargs - 1]
  {
    FrameFacts(s.stack, s.fp);
    hide Framed, DropCells, CString, Text;
    var slot := |s.stack| - nargs - 1;
    if s.fp <= slot && s.stack[slot].v.String? {
      InTable(table, CString(Text(s.heap, s.stack[slot].v.address)), nargs);
    }
  }
}

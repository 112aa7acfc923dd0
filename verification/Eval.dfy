/** The interpreter as it runs: one stack of cells and four registers, changed in place by
    the handlers of the dispatch loop. Each handler does what Machine says of its
    instruction; ip is past the operands when it starts. */
module Eval {
  import opened Frames
  import opened Machine
  import opened Scalars
  import opened Strings
  import opened Values
  import opened Wrappers

  datatype Status = Continue | Stopped | RetryTx | Error

  /** What a handler reports and leaves behind, against what the machine model says. An
      error leaves everything as it was. */
  predicate Agrees(o: Outcome, status: Status, before: State, after: State) {
    match o
    case Running(t) => status == Continue && after == t
    case Halted(t) => status == Stopped && after == t
    case Retry(t) => status == RetryTx && after == t
    case Raised => status == Error && after == before
  }

  /** One of the cells CALL takes over. */
  ghost function Overwritten(s: State, k: nat, c: Cell): State
    requires k < |s.stack|
  {
    s.(stack := s.stack[k := c], heap := DropCell(s.heap, s.stack[k]))
  }

  /** The callee's frame above its three saved cells. */
  ghost function Entered(s: State, slot: nat, code: int): State
    requires slot + 2 < |s.stack| && s.stack[slot].Val? && s.stack[slot].v.Objref?
  {
    var t := Overwritten(s, slot, SavedFp(s.fp));
    var u := Overwritten(t, slot + 1, SavedIp(s.ip));
    Overwritten(u, slot + 2, SavedObj(s.obj)).(fp := slot + 3, ip := code, obj := s.stack[slot].v.id)
  }

  lemma CallKeepsFrames(s: State, nargs: nat, entry: Option<int>)
    requires Framed(s.stack, s.fp) && DoCall(s, nargs, entry).Running?
    ensures var t := DoCall(s, nargs, entry).s; Framed(t.stack, t.fp)
  {
    HandlerKeepsFrames(s, Instr.Call(nargs, entry));
  }

  lemma ReturnKeepsFrames(s: State, reg: nat)
    requires Framed(s.stack, s.fp) && DoReturn(s, reg).Running?
    ensures var t := DoReturn(s, reg).s; Framed(t.stack, t.fp)
  {
    HandlerKeepsFrames(s, Instr.Return(reg));
  }

  lemma PopKeepsFrames(s: State, dst: nat)
    requires Framed(s.stack, s.fp) && DoPop(s, dst).Running?
    ensures var t := DoPop(s, dst).s; Framed(t.stack, t.fp)
  {
    HandlerKeepsFrames(s, Instr.Pop(dst));
  }

  lemma PopSteps(s: State, dst: nat)
    requires InFrame(s, dst) && s.fp <= |s.stack| - 1
    requires s.stack[|s.stack| - 1].Val?
    ensures var v := if s.fp + dst == |s.stack| - 1 then Nil else s.stack[|s.stack| - 1].v;
      var t := SetReg(s, dst, v);
      |t.stack| == |s.stack| && DoPop(s, dst) == Running(t.(stack := t.stack[..|t.stack| - 1]))
  {
  }

  lemma GetGlobalKeepsFrames(s: State, dst: nat, name: nat)
    requires Framed(s.stack, s.fp) && DoGetGlobal(s, dst, name).Running?
    ensures var t := DoGetGlobal(s, dst, name).s; Framed(t.stack, t.fp)
  {
    HandlerKeepsFrames(s, Instr.GetGlobal(dst, name));
  }

  lemma GetGlobalSteps(s: State, dst: nat, name: nat, k: nat, v: Value<nat, CInt>)
    requires InFrame(s, dst) && StringReg(s, name).Some?
    requires k == FindSlot(s.globals, s.obj, StringReg(s, name).value)
    requires v == if k < |s.globals| then s.globals[k].value else Nil
    ensures DoGetGlobal(s, dst, name) == Running(SetReg(s.(heap := IncRef(s.heap, v)), dst, v))
  {
  }

  lemma GetGlobalFails(s: State, dst: nat, name: nat)
    requires !InFrame(s, dst) || StringReg(s, name) == None
    ensures DoGetGlobal(s, dst, name) == Raised
  {
  }

  /** No object reference and method name below the arguments, or no code. */
  predicate NothingToCall(s: State, nargs: nat, entry: Option<int>) {
    var slot := |s.stack| - nargs - 3;
    slot < s.fp || entry == None || !(s.stack[slot].Val? && s.stack[slot].v.Objref?)
    || !(s.stack[slot + 1].Val? && s.stack[slot + 1].v.String?)
  }

  lemma CallFails(s: State, nargs: nat, entry: Option<int>)
    requires NothingToCall(s, nargs, entry)
    ensures DoCall(s, nargs, entry) == Raised
  {
  }

  /** The cells from k up are given up. */
  ghost function Cut(s: State, k: nat): State
    requires k <= |s.stack|
  {
    s.(stack := s.stack[..k], heap := DropCells(s.heap, s.stack[k..]))
  }

  /** The caller's registers are back, and the value is in the callee's slot. */
  ghost function Restored(s: State, v: Value<nat, CInt>): State
    requires Nested(s)
  {
    s.(stack := s.stack[s.fp - 3 := Val(v)], heap := IncRef(s.heap, v),
       fp := s.stack[s.fp - 3].fp, ip := s.stack[s.fp - 2].ip, obj := s.stack[s.fp - 1].obj)
  }

  lemma ReturnSteps(s: State, reg: nat)
    requires InFrame(s, reg) && Nested(s)
    ensures var w := Cut(Restored(s, Reg(s, reg)), s.fp - 1);
      |w.stack| == s.fp - 1 && DoReturn(s, reg) == Running(w.(stack := w.stack[..s.fp - 2]))
  {
    var u := Restored(s, Reg(s, reg));
    assert u.stack[s.fp - 1..] == s.stack[s.fp - 1..];
    assert u.stack[..s.fp - 1][..s.fp - 2] == s.stack[..s.fp - 3] + [Val(Reg(s, reg))];
  }

  lemma StoreIsSet(s: State, r: nat, v: Value<nat, CInt>)
    requires InFrame(s, r)
    ensures Store(s, r, v) == Running(SetReg(s, r, v))
  {
  }

  lemma CallSteps(s: State, nargs: nat, entry: Option<int>, slot: nat)
    requires slot + nargs + 3 == |s.stack| && s.fp <= slot && entry.Some?
    requires s.stack[slot].Val? && s.stack[slot].v.Objref? && s.stack[slot + 1].Val? && s.stack[slot + 1].v.String?
    ensures DoCall(s, nargs, entry) == Running(Entered(s, slot, entry.value))
  {
  }

  class EvalCtx {
    const stack: array<Cell>
    var sp: nat
    var fp: nat
    var ip: int
    var obj: nat
    var heap: Heap
    var globals: seq<Slot>
    ghost var host: multiset<Cell>

    ghost predicate Valid()
      reads this, stack
    {
      sp < stack.Length && Framed(stack[..sp + 1], fp)
    }

    ghost function Snapshot(): State
      requires sp < stack.Length
      reads this, stack
    {
      State(stack[..sp + 1], fp, ip, obj, heap, globals, host)
    }

    constructor (size: nat, heap: Heap, globals: seq<Slot>, ghost host: multiset<Cell>)
      requires 1 <= size
      ensures fresh(stack) && stack.Length == size && Valid()
      ensures Snapshot() == NewContext(heap, globals, host)
    {
      stack := new Cell[size](_ => Unused);
      sp, fp, ip, obj := 0, 1, 0, 0;
      this.heap, this.globals, this.host := heap, globals, host;
    }

    method IsReg(r: nat) returns (ok: bool)
      requires sp < stack.Length
      ensures ok == InFrame(Snapshot(), r)
    {
      ok := fp + r <= sp && stack[fp + r].Val?;
    }

    /** val_clear on a register, then a value in it. */
    method PutReg(r: nat, v: Value<nat, CInt>)
      requires sp < stack.Length && InFrame(Snapshot(), r)
      modifies this`heap, stack
      ensures Snapshot() == SetReg(old(Snapshot()), r, v)
    {
      heap := DecRef(heap, stack[fp + r].v);
      stack[fp + r] := Val(v);
    }

    /** val_clear on the top cells, one at a time, down to newTop. */
    method PopTo(newTop: nat)
      requires newTop <= sp < stack.Length
      modifies this`heap, this`sp
      ensures sp == newTop && Snapshot() == Cut(old(Snapshot()), newTop + 1)
    {
      assert stack[newTop + 1..sp + 1] == stack[..sp + 1][newTop + 1..];
      ghost var all := stack[newTop + 1..sp + 1];
      assert all[..sp - newTop] == all;
      while sp > newTop
        invariant newTop <= sp <= old(sp) && |all| == old(sp) - newTop
        invariant DropCells(old(heap), all) == DropCells(heap, all[..sp - newTop])
      {
        ghost var left := all[..sp - newTop];
        assert left[|left| - 1] == stack[sp] && left[..|left| - 1] == all[..sp - newTop - 1];
        heap := DropCell(heap, stack[sp]);
        sp := sp - 1;
      }
    }

    /** val_dec_ref on a cell, then something the machine saves in it. */
    method Overwrite(k: nat, c: Cell)
      requires k <= sp < stack.Length
      modifies this`heap, stack
      ensures Snapshot() == Overwritten(old(Snapshot()), k, c)
    {
      heap := DropCell(heap, stack[k]);
      stack[k] := c;
    }

    method SetCell(k: nat, c: Cell)
      requires k <= sp < stack.Length
      modifies stack
      ensures Snapshot() == old(Snapshot()).(stack := old(Snapshot()).stack[k := c])
    {
      stack[k] := c;
    }

    method Mov(dst: nat, src: nat) returns (status: Status)
      requires Valid()
      modifies this`heap, stack
      ensures Valid() && Agrees(DoMov(old(Snapshot()), dst, src), status, old(Snapshot()), Snapshot())
    {
      hide Framed, DropCells, DropCell, DecRef, IncRef, MakeString, CString, Text, FindSlot;
      FrameFacts(Snapshot().stack, fp);
      var okDst := IsReg(dst);
      var okSrc := IsReg(src);
      if !okDst || !okSrc {
        return Error;
      }
      var v := stack[fp + src].v;
      heap := IncRef(heap, v);
      PutReg(dst, v);
      HandlerKeepsFrames(old(Snapshot()), Instr.Mov(dst, src));
      return Continue;
    }

    /** eval_push_arg, and the part of PUSH behind its check. */
    method PushArg(v: Value<nat, CInt>)
      requires Valid() && sp + 1 < stack.Length
      modifies this`heap, this`sp, stack
      ensures Valid() && Snapshot() == PushValue(old(Snapshot()), v)
    {
      heap := IncRef(heap, v);
      sp := sp + 1;
      stack[sp] := Val(v);
      assert stack[..sp + 1] == old(stack[..sp + 1]) + [Val(v)];
      TopKeepsFrames(old(stack[..sp + 1]), stack[..sp + 1], fp);
    }

    method Push(src: nat) returns (status: Status)
      requires Valid() && sp + 1 < stack.Length
      modifies this`heap, this`sp, stack
      ensures Valid() && Agrees(DoPush(old(Snapshot()), src), status, old(Snapshot()), Snapshot())
    {
      hide Framed, DropCells, DropCell, DecRef, IncRef, MakeString, CString, Text, FindSlot;
      FrameFacts(Snapshot().stack, fp);
      var ok := IsReg(src);
      if !ok {
        return Error;
      }
      PushArg(stack[fp + src].v);
      return Continue;
    }

    method Pop(dst: nat) returns (status: Status)
      requires Valid()
      modifies this`heap, this`sp, stack
      ensures Valid() && Agrees(DoPop(old(Snapshot()), dst), status, old(Snapshot()), Snapshot())
    {
      hide Framed, DropCells, DropCell, DecRef, IncRef, MakeString, CString, Text, FindSlot;
      FrameFacts(Snapshot().stack, fp);
      ghost var s := Snapshot();
      var ok := IsReg(dst);
      if !ok {
        return Error;
      }
      PopSteps(s, dst);
      hide DoPop, SetReg, InFrame;
      var v := if fp + dst == sp then Nil else stack[sp].v;
      PutReg(dst, v);
      ghost var t := Snapshot();
      sp := sp - 1;
      assert Snapshot() == t.(stack := t.stack[..|t.stack| - 1]);
      PopKeepsFrames(s, dst);
      return Continue;
    }

    method CanCall(nargs: nat, entry: Option<int>) returns (ok: bool)
      requires Valid()
      ensures ok == !NothingToCall(Snapshot(), nargs, entry)
    {
      FrameFacts(Snapshot().stack, fp);
      hide Framed;
      ok := false;
      if sp >= fp + nargs + 2 {
        var slot := sp - nargs - 2;
        assert Snapshot().stack[slot] == stack[slot] && Snapshot().stack[slot + 1] == stack[slot + 1];
        ok := stack[slot].v.Objref? && stack[slot + 1].v.String? && entry != None;
      }
    }

    /** The callee and its code are found outside: `entry` is what the lookup gave. */
    method Call(nargs: nat, entry: Option<int>) returns (status: Status)
      requires Valid()
      modifies this`heap, this`fp, this`ip, this`obj, stack
      ensures Valid() && Agrees(DoCall(old(Snapshot()), nargs, entry), status, old(Snapshot()), Snapshot())
    {
      hide DoCall, Entered, Framed, DropCells, DropCell, DecRef, IncRef, MakeString, CString, Text, FindSlot;
      ghost var s := Snapshot();
      var ok := CanCall(nargs, entry);
      if !ok {
        CallFails(s, nargs, entry);
        return Error;
      }
      var slot := sp - nargs - 2;
      CallSteps(s, nargs, entry, slot);
      EnterFrame(slot, entry.value);
      hide NothingToCall;
      CallKeepsFrames(s, nargs, entry);
      return Continue;
    }

    method EnterFrame(slot: nat, code: int)
      requires slot + 2 <= sp < stack.Length && stack[slot].Val? && stack[slot].v.Objref?
      modifies this`heap, this`fp, this`ip, this`obj, stack
      ensures Snapshot() == Entered(old(Snapshot()), slot, code)
    {
      hide Overwritten;
      var callee := stack[slot].v.id;
      Overwrite(slot, SavedFp(fp));
      Overwrite(slot + 1, SavedIp(ip));
      Overwrite(slot + 2, SavedObj(obj));
      obj, fp, ip := callee, slot + 3, code;
    }

    method Restore(ret: Value<nat, CInt>)
      requires sp < stack.Length && Nested(Snapshot())
      modifies this`heap, this`fp, this`ip, this`obj, stack
      ensures Snapshot() == Restored(old(Snapshot()), ret)
    {
      var oldFp := fp;
      obj := stack[oldFp - 1].obj;
      ip := stack[oldFp - 2].ip;
      fp := stack[oldFp - 3].fp;
      SetCell(oldFp - 3, Val(ret));
      heap := IncRef(heap, ret);
    }

    method Return(reg: nat) returns (status: Status)
      requires Valid()
      modifies this`heap, this`sp, this`fp, this`ip, this`obj, stack
      ensures Valid() && Agrees(DoReturn(old(Snapshot()), reg), status, old(Snapshot()), Snapshot())
    {
      hide Framed, DropCells, DropCell, DecRef, IncRef, MakeString, CString, Text, FindSlot;
      FrameFacts(Snapshot().stack, fp);
      var ok := IsReg(reg);
      if !ok || fp == 1 {
        return Error;
      }
      hide DoReturn;
      ghost var s := Snapshot();
      assert Nested(s);
      LeaveFrame(reg);
      hide Nested, InFrame;
      ReturnKeepsFrames(s, reg);
      return Continue;
    }

    method LeaveFrame(reg: nat)
      requires sp < stack.Length && InFrame(Snapshot(), reg) && Nested(Snapshot())
      modifies this`heap, this`sp, this`fp, this`ip, this`obj, stack
      ensures sp < stack.Length && DoReturn(old(Snapshot()), reg) == Running(Snapshot())
    {
      ghost var s := Snapshot();
      var ret, oldFp := stack[fp + reg].v, fp;
      assert Reg(s, reg) == ret;
      ReturnSteps(s, reg);
      hide DoReturn, Cut, Restored, Nested, InFrame, IncRef, DropCells;
      Restore(ret);
      PopTo(oldFp - 2);
      ghost var w := Snapshot();
      sp := sp - 1;
      assert Snapshot() == w.(stack := w.stack[..oldFp - 2]);
    }

    method ArgsLocals(nargs: nat, nlocals: nat) returns (status: Status)
      requires Valid() && sp + nlocals < stack.Length
      modifies this`sp, stack
      ensures Valid() && Agrees(DoArgsLocals(old(Snapshot()), nargs, nlocals), status, old(Snapshot()), Snapshot())
    {
      hide Framed, DropCells, DropCell, DecRef, IncRef, MakeString, CString, Text, FindSlot;
      FrameFacts(Snapshot().stack, fp);
      if sp + 1 != fp + nargs {
        return Error;
      }
      ghost var s := Snapshot();
      for i := 0 to nlocals
        invariant sp == old(sp) && stack[..sp + 1 + i] == s.stack + Nils(i)
      {
        stack[sp + i + 1] := Val(Nil);
        assert stack[..sp + 1 + i + 1] == stack[..sp + 1 + i] + [Val(Nil)];
        assert Nils(i + 1) == Nils(i) + [Val(Nil)];
      }
      sp := sp + nlocals;
      assert Snapshot() == DoArgsLocals(s, nargs, nlocals).s;
      HandlerKeepsFrames(s, Instr.ArgsLocals(nargs, nlocals));
      return Continue;
    }

    /** CLEAR, TRUE, LOAD_INT, LOAD_FLOAT, SELF and PARENT: a value that is no string into a
        register. */
    method StoreValue(dst: nat, v: Value<nat, CInt>) returns (status: Status)
      requires Valid()
      modifies this`heap, stack
      ensures Valid() && Agrees(Store(old(Snapshot()), dst, v), status, old(Snapshot()), Snapshot())
    {
      var ok := IsReg(dst);
      if !ok {
        return Error;
      }
      PutReg(dst, v);
      FrameFacts(old(Snapshot()).stack, fp);
      TopKeepsFrames(old(Snapshot()).stack, Snapshot().stack, fp);
      return Continue;
    }

    method Apply1(op: UnaryOp, dst: nat, src: nat) returns (status: Status)
      requires Valid()
      modifies this`heap, stack
      ensures Valid() && Agrees(DoApply1(old(Snapshot()), op, dst, src), status, old(Snapshot()), Snapshot())
    {
      hide Framed, DecRef, Unary, Text, Store;
      var okDst := IsReg(dst);
      var okSrc := IsReg(src);
      if !okDst || !okSrc {
        return Error;
      }
      match Unary(op, stack[fp + src].v, Texts(heap))
      case None => status := Error;
      case Some(v) =>
        StoreIsSet(Snapshot(), dst, v);
        status := StoreValue(dst, v);
    }

    method Apply2(op: BinaryOp, dst: nat, srcA: nat, srcB: nat, rounded: bv32) returns (status: Status)
      requires Valid()
      modifies this`heap, stack
      ensures Valid()
      ensures Agrees(DoApply2(old(Snapshot()), op, dst, srcA, srcB, rounded), status, old(Snapshot()), Snapshot())
    {
      hide Framed, DecRef, Binary, Text, Store;
      var okDst := IsReg(dst);
      var okA := IsReg(srcA);
      var okB := IsReg(srcB);
      if !okDst || !okA || !okB {
        return Error;
      }
      match Binary(op, stack[fp + srcA].v, stack[fp + srcB].v, rounded, Texts(heap))
      case None => status := Error;
      case Some(v) =>
        StoreIsSet(Snapshot(), dst, v);
        status := StoreValue(dst, v);
    }

    method JumpIf(cond: nat, offset: int) returns (status: Status)
      requires Valid()
      modifies this`ip
      ensures Valid() && Agrees(DoJumpIf(old(Snapshot()), cond, offset), status, old(Snapshot()), Snapshot())
    {
      var ok := IsReg(cond);
      if !ok {
        return Error;
      }
      if stack[fp + cond].v == Bool(true) {
        ip := ip + offset;
      }
      return Continue;
    }

    method LoadString(dst: nat, text: string, address: nat) returns (status: Status)
      requires Valid()
      modifies this`heap, stack
      ensures Valid() && Agrees(StoreString(old(Snapshot()), dst, text, address), status, old(Snapshot()), Snapshot())
    {
      hide Framed, DropCells, DropCell, DecRef, IncRef, MakeString, CString, Text, FindSlot;
      FrameFacts(Snapshot().stack, fp);
      var ok := IsReg(dst);
      if !ok {
        return Error;
      }
      heap := MakeString(heap, address, text);
      PutReg(dst, String(address));
      HandlerKeepsFrames(old(Snapshot()), Instr.LoadString(dst, text, address));
      return Continue;
    }

    method Concat(dst: nat, srcA: nat, srcB: nat, address: nat) returns (status: Status)
      requires Valid()
      modifies this`heap, stack
      ensures Valid()
      ensures Agrees(DoConcat(old(Snapshot()), dst, srcA, srcB, address), status, old(Snapshot()), Snapshot())
    {
      hide Framed, DropCells, DropCell, DecRef, IncRef, MakeString, CString, Text, FindSlot;
      FrameFacts(Snapshot().stack, fp);
      var okA := IsReg(srcA);
      var okB := IsReg(srcB);
      if !okA || !okB || !stack[fp + srcA].v.String? || !stack[fp + srcB].v.String? {
        return Error;
      }
      var text := Text(heap, stack[fp + srcA].v.address) + Text(heap, stack[fp + srcB].v.address);
      status := LoadString(dst, text, address);
    }

    /** Along the table of system calls. */
    method SearchTable(table: seq<SyscallEntry>, name: string, arity: nat) returns (k: nat)
      ensures k == FindSyscall(table, name, arity)
    {
      k := 0;
      while k < |table| && !(table[k].arity == arity && table[k].name == name)
        invariant k <= |table| && FindSyscall(table, name, arity) == k + FindSyscall(table[k..], name, arity)
      {
        assert table[k..][1..] == table[k + 1..];
        k := k + 1;
      }
    }

    /** The call itself is made outside. */
    method Syscall(nargs: nat, table: seq<SyscallEntry>) returns (status: Status)
      requires Valid()
      modifies this`heap, this`sp
      ensures Valid() && Agrees(DoSyscall(old(Snapshot()), nargs, table), status, old(Snapshot()), Snapshot())
    {
      hide Framed, DropCells, DropCell, DecRef, IncRef, MakeString, CString, Text, FindSlot, FindSyscall;
      FrameFacts(Snapshot().stack, fp);
      if sp < fp + nargs || !stack[sp - nargs].v.String? || nargs > 3 {
        return Error;
      }
      var k := SearchTable(table, CString(Text(heap, stack[sp - nargs].v.address)), nargs);
      if k == |table| {
        return Error;
      }
      ghost var s := Snapshot();
      PopTo(sp - nargs - 1);
      HandlerKeepsFrames(s, Instr.Syscall(nargs, table));
      return Continue;
    }

    /** The loop of obj_get_global and obj_set_global along the slots of an object. */
    method SearchSlot(name: string) returns (k: nat)
      ensures k == FindSlot(globals, obj, name)
    {
      k := 0;
      while k < |globals| && !(globals[k].obj == obj && globals[k].name == name)
        invariant k <= |globals| && FindSlot(globals, obj, name) == k + FindSlot(globals[k..], obj, name)
      {
        assert globals[k..][1..] == globals[k + 1..];
        k := k + 1;
      }
    }

    /** The text in a register that names a global. */
    method NameIn(r: nat) returns (n: Option<string>)
      requires sp < stack.Length
      ensures n == StringReg(Snapshot(), r)
    {
      var ok := IsReg(r);
      n := if ok && stack[fp + r].v.String? then Some(CString(Text(heap, stack[fp + r].v.address))) else None;
    }

    method GetGlobal(dst: nat, nameReg: nat) returns (status: Status)
      requires Valid()
      modifies this`heap, stack
      ensures Valid() && Agrees(DoGetGlobal(old(Snapshot()), dst, nameReg), status, old(Snapshot()), Snapshot())
    {
      hide Framed, DropCells, DropCell, DecRef, IncRef, MakeString, CString, Text, FindSlot;
      FrameFacts(Snapshot().stack, fp);
      hide DoGetGlobal, SetReg, StringReg, InFrame;
      ghost var s := Snapshot();
      var okDst := IsReg(dst);
      var n := NameIn(nameReg);
      if !okDst || n == None {
        GetGlobalFails(s, dst, nameReg);
        return Error;
      }
      var k := SearchSlot(n.value);
      var v := if k < |globals| then globals[k].value else Nil;
      GetGlobalSteps(s, dst, nameReg, k, v);
      heap := IncRef(heap, v);
      PutReg(dst, v);
      GetGlobalKeepsFrames(s, dst, nameReg);
      return Continue;
    }

    /** `granted` is the answer of lock_lock for the exclusive lock. */
    method SetGlobal(nameReg: nat, src: nat, granted: bool) returns (status: Status)
      requires Valid()
      modifies this`heap, this`globals
      ensures Valid()
      ensures Agrees(DoSetGlobal(old(Snapshot()), nameReg, src, granted), status, old(Snapshot()), Snapshot())
    {
      hide Framed, DropCells, DropCell, DecRef, IncRef, MakeString, CString, Text, FindSlot;
      FrameFacts(Snapshot().stack, fp);
      if !granted {
        return RetryTx;
      }
      var okName := IsReg(nameReg);
      var okSrc := IsReg(src);
      if !okName || !okSrc || !stack[fp + nameReg].v.String? {
        return Error;
      }
      var name, v := CString(Text(heap, stack[fp + nameReg].v.address)), stack[fp + src].v;
      var k := SearchSlot(name);
      if k < |globals| {
        heap := DecRef(heap, globals[k].value);
        globals := globals[k := Slot(obj, name, v)];
      } else {
        globals := [Slot(obj, name, v)] + globals;
      }
      heap := IncRef(heap, v);
      return Continue;
    }

    method MakeObj(dst: nat, parent: nat, id: nat) returns (status: Status)
      requires Valid()
      modifies this`heap, stack
      ensures Valid() && Agrees(DoMakeObj(old(Snapshot()), dst, parent, id), status, old(Snapshot()), Snapshot())
    {
      hide Framed, DropCells, DropCell, DecRef, IncRef, MakeString, CString, Text, FindSlot;
      FrameFacts(Snapshot().stack, fp);
      var okDst := IsReg(dst);
      var okParent := IsReg(parent);
      if !okDst || !okParent || !stack[fp + parent].v.Objref? {
        return Error;
      }
      PutReg(dst, Objref(id));
      HandlerKeepsFrames(old(Snapshot()), Instr.MakeObj(dst, parent, id));
      return Continue;
    }

    method Halt() returns (status: Status)
      requires Valid()
      modifies this`heap, this`sp
      ensures Valid() && Agrees(DoHalt(old(Snapshot())), status, old(Snapshot()), Snapshot())
    {
      hide Framed, DropCells, DropCell, DecRef, IncRef, MakeString, CString, Text, FindSlot;
      FrameFacts(Snapshot().stack, fp);
      if fp != 1 {
        return Error;
      }
      ghost var s := Snapshot();
      PopTo(0);
      HandlerKeepsFrames(s, Instr.Halt);
      return Stopped;
    }

    /** The stack does not grow by itself: these two instructions need room on it. */
    predicate HasRoom(i: Instr)
      reads this
    {
      match i
      case Push(_) => sp + 1 < stack.Length
      case ArgsLocals(_, nlocals) => sp + nlocals < stack.Length
      case _ => true
    }

    static predicate MovesTheStack(i: Instr) {
      || i.Noop? || i.Halt? || i.Push? || i.Pop? || i.Call? || i.Return?
      || i.ArgsLocals? || i.Jump? || i.JumpIf? || i.Syscall?
    }

    /** The handlers that move the stack, the frame or ip. */
    method Move(i: Instr) returns (status: Status)
      requires Valid() && HasRoom(i) && MovesTheStack(i)
      modifies this`heap, this`sp, this`fp, this`ip, this`obj, stack
      ensures Valid() && Agrees(Act(old(Snapshot()), i), status, old(Snapshot()), Snapshot())
    {
      hide Framed, DoPush, DoPop, DoCall, DoReturn, DoArgsLocals, DoSyscall, DoJumpIf, DoHalt;
      status := Continue;
      match i {
        case Noop =>
        case Halt => status := Halt();
        case Push(src) => status := Push(src);
        case Pop(dst) => status := Pop(dst);
        case Call(nargs, entry) => status := Call(nargs, entry);
        case Return(reg) => status := Return(reg);
        case ArgsLocals(nargs, nlocals) => status := ArgsLocals(nargs, nlocals);
        case Jump(offset) => ip := ip + offset;
        case JumpIf(cond, offset) => status := JumpIf(cond, offset);
        case Syscall(nargs, table) => status := Syscall(nargs, table);
      }
    }

    /** The handlers that write registers and globals. */
    method Compute(i: Instr) returns (status: Status)
      requires Valid() && !MovesTheStack(i)
      modifies this`heap, this`globals, stack
      ensures Valid() && Agrees(Act(old(Snapshot()), i), status, old(Snapshot()), Snapshot())
    {
      hide Framed, DoMov, DoApply1, DoApply2, DoConcat, DoGetGlobal, DoSetGlobal, DoMakeObj, Store, StoreString;
      match i {
        case Mov(dst, src) => status := Mov(dst, src);
        case Clear(dst) => status := StoreValue(dst, Nil);
        case LoadTrue(dst) => status := StoreValue(dst, Bool(true));
        case LoadInt(dst, n) => status := StoreValue(dst, Int(n));
        case LoadFloat(dst, bits) => status := StoreValue(dst, Float(bits));
        case LoadString(dst, text, address) => status := LoadString(dst, text, address);
        case Apply1(op, dst, src) => status := Apply1(op, dst, src);
        case Apply2(op, dst, srcA, srcB, rounded) => status := Apply2(op, dst, srcA, srcB, rounded);
        case Concat(dst, srcA, srcB, address) => status := Concat(dst, srcA, srcB, address);
        case GetGlobal(dst, name) => status := GetGlobal(dst, name);
        case SetGlobal(name, src, granted) => status := SetGlobal(name, src, granted);
        case MakeObj(dst, parent, id) => status := MakeObj(dst, parent, id);
        case Self(dst) => status := StoreValue(dst, Objref(obj));
        case Parent(dst, first) => status := StoreValue(dst, if first.Some? then Objref(first.value) else Nil);
      }
    }

    /** One turn of the dispatch loop: ip moves past the instruction, then its handler acts.
        An error leaves ip, too, where it was. */
    method Step(i: Instr) returns (status: Status)
      requires Valid() && HasRoom(i)
      modifies this`heap, this`sp, this`fp, this`ip, this`obj, this`globals, stack
      ensures Valid() && Agrees(Exec(old(Snapshot()), i), status, old(Snapshot()), Snapshot())
    {
      hide Framed, Act, Size, MovesTheStack;
      ghost var s := Snapshot();
      ip := ip + Size(i);
      ghost var t := Snapshot();
      assert t == s.(ip := s.ip + Size(i)) && Exec(s, i) == Act(t, i);
      hide Exec;
      if MovesTheStack(i) {
        status := Move(i);
      } else {
        status := Compute(i);
      }
      if status == Error {
        assert Act(t, i) == Raised && Snapshot() == t;
        ip := ip - Size(i);
        assert Snapshot() == s;
      }
    }
  }
}

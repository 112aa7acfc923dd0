/** The stack machine on values: what each instruction does to the stack, the frame, the
    heap and the globals. Where the code still has "raise" as a comment, it raises. */
module Machine {
  import opened Scalars
  import opened Strings
  import opened Values
  import opened Wrappers

  /** A global variable in the slot list of its object. */
  datatype Slot = Slot(obj: nat, name: string, value: Value<nat, CInt>)

  /** sp is the last index of the stack. What C code outside the machine holds on to is
      in host, one Val cell a reference. */
  datatype State = State(
    stack: seq<Cell>,
    fp: nat,
    ip: int,
    obj: nat,
    heap: Heap,
    globals: seq<Slot>,
    host: multiset<Cell>
  )

  datatype SyscallEntry = SyscallEntry(name: string, arity: nat)

  /** Instructions with their operands. The answers of what lies outside the machine are
      operands too: the address malloc returns, the code found for a method, the table of system calls, the lock
      granted or not, the id of a new object, the first parent, a rounded float. */
  datatype Instr =
    | Noop
    | Halt
    | Mov(dst: nat, src: nat)
    | Push(src: nat)
    | Pop(dst: nat)
    | Call(nargs: nat, entry: Option<int>)
    | Return(reg: nat)
    | ArgsLocals(nargs: nat, nlocals: nat)
    | Clear(dst: nat)
    | LoadTrue(dst: nat)
    | LoadInt(dst: nat, i: CInt)
    | LoadFloat(dst: nat, bits: bv32)
    | LoadString(dst: nat, text: string, at: nat)
    | Apply1(op1: UnaryOp, dst: nat, src: nat)
    | Apply2(op2: BinaryOp, dst: nat, srcA: nat, srcB: nat, rounded: bv32)
    | Jump(offset: int)
    | JumpIf(cond: nat, offset: int)
    | Syscall(nargs: nat, table: seq<SyscallEntry>)
    | Concat(dst: nat, srcA: nat, srcB: nat, at: nat)
    | GetGlobal(dst: nat, name: nat)
    | SetGlobal(name: nat, src: nat, granted: bool)
    | MakeObj(dst: nat, parent: nat, id: nat)
    | Self(dst: nat)
    | Parent(dst: nat, first: Option<nat>)

  datatype Outcome = Running(s: State) | Halted(s: State) | Retry(s: State) | Raised

  /** The bytes an instruction takes: ip is past them when its handler acts. */
  function Size(i: Instr): nat {
    match i
    case Noop => 1
    case Halt => 1
    case Mov(_, _) => 3
    case Push(_) => 2
    case Pop(_) => 2
    case Call(_, _) => 2
    case Return(_) => 2
    case ArgsLocals(_, _) => 3
    case Clear(_) => 2
    case LoadTrue(_) => 2
    case LoadInt(_, _) => 6
    case LoadFloat(_, _) => 6
    case LoadString(_, text, _) => 4 + |text|
    case Apply1(_, _, _) => 3
    case Apply2(_, _, _, _, _) => 4
    case Jump(_) => 5
    case JumpIf(_, _) => 6
    case Syscall(_, _) => 2
    case Concat(_, _, _, _) => 4
    case GetGlobal(_, _) => 3
    case SetGlobal(_, _, _) => 3
    case MakeObj(_, _, _) => 3
    case Self(_) => 2
    case Parent(_, _) => 2
  }

  /** eval_new_ctx: the cell at index 0 is never used, so fp starts above sp. */
  function NewContext(heap: Heap, globals: seq<Slot>, host: multiset<Cell>): State {
    State([Unused], 1, 0, 0, heap, globals, host)
  }

  /** A register of the current frame, within the stack. */
  predicate InFrame(s: State, r: nat) {
    s.fp + r < |s.stack| && s.stack[s.fp + r].Val?
  }

  function Reg(s: State, r: nat): Value<nat, CInt>
    requires InFrame(s, r)
  {
    s.stack[s.fp + r].v
  }

  /** Clear a register and store a value in it. */
  function SetReg(s: State, r: nat, v: Value<nat, CInt>): State
    requires InFrame(s, r)
  {
    s.(stack := s.stack[s.fp + r := Val(v)], heap := DecRef(s.heap, Reg(s, r)))
  }

  function Text(heap: Heap, address: nat): string {
    if address in heap then heap[address].text else ""
  }

  function Texts(heap: Heap): nat -> string {
    (address: nat) => Text(heap, address)
  }

  /** A text as C functions on strings see it: up to the first terminator. */
  function CString(text: string): (r: string)
    ensures '\0' !in r && r <= text && (r == text <==> '\0' !in text)
  {
    if text == [] || text[0] == '\0' then "" else [text[0]] + CString(text[1..])
  }

  function StringReg(s: State, r: nat): Option<string> {
    if InFrame(s, r) && Reg(s, r).String? then Some(CString(Text(s.heap, Reg(s, r).address))) else None
  }

  /** The position of the slot with this name, or the number of slots. */
  function FindSlot(globals: seq<Slot>, obj: nat, name: string): (k: nat)
    ensures k <= |globals|
    ensures k < |globals| ==> globals[k].obj == obj && globals[k].name == name
    ensures forall j :: 0 <= j < k ==> !(globals[j].obj == obj && globals[j].name == name)
  {
    if globals == [] || (globals[0].obj == obj && globals[0].name == name) then 0
    else 1 + FindSlot(globals[1..], obj, name)
  }

  /** obj_get_global, without the reference it adds. */
  function Global(globals: seq<Slot>, obj: nat, name: string): Value<nat, CInt> {
    var k := FindSlot(globals, obj, name);
    if k < |globals| then globals[k].value else Nil
  }

  /** obj_set_global: overwrite the slot in place, or put a new one in front. */
  function StoreGlobal(s: State, name: string, v: Value<nat, CInt>): State {
    var k := FindSlot(s.globals, s.obj, name);
    if k < |s.globals| then
      s.(heap := IncRef(DecRef(s.heap, s.globals[k].value), v), globals := s.globals[k := Slot(s.obj, name, v)])
    else
      s.(heap := IncRef(s.heap, v), globals := [Slot(s.obj, name, v)] + s.globals)
  }

  function DoMov(s: State, dst: nat, src: nat): Outcome {
    if !InFrame(s, dst) || !InFrame(s, src) then Raised
    else
      var v := Reg(s, src);
      Running(SetReg(s.(heap := IncRef(s.heap, v)), dst, v))
  }

  function PushValue(s: State, v: Value<nat, CInt>): State {
    s.(stack := s.stack + [Val(v)], heap := IncRef(s.heap, v))
  }

  function DoPush(s: State, src: nat): Outcome {
    if !InFrame(s, src) then Raised else Running(PushValue(s, Reg(s, src)))
  }

  /** The top value moves to dst; popped to itself, it is given up. */
  function DoPop(s: State, dst: nat): Outcome {
    var sp := |s.stack| - 1;
    if !InFrame(s, dst) || sp < 0 || !s.stack[sp].Val? then Raised
    else
      var t := SetReg(s, dst, if s.fp + dst == sp then Nil else s.stack[sp].v);
      Running(t.(stack := t.stack[..sp]))
  }

  /** The slots below the arguments, for the callee, the method name and the one ignored,
      take what RETURN needs. */
  function DoCall(s: State, nargs: nat, entry: Option<int>): Outcome {
    var slot := |s.stack| - nargs - 3;
    if slot < s.fp || !s.stack[slot].Val? || !s.stack[slot].v.Objref?
       || !s.stack[slot + 1].Val? || !s.stack[slot + 1].v.String? || entry == None then
      Raised
    else
      Running(s.(
        stack := s.stack[slot := SavedFp(s.fp)][slot + 1 := SavedIp(s.ip)][slot + 2 := SavedObj(s.obj)],
        heap := DropCell(DropCell(DropCell(s.heap, s.stack[slot]), s.stack[slot + 1]), s.stack[slot + 2]),
        fp := slot + 3,
        ip := entry.value,
        obj := s.stack[slot].v.id))
  }

  /** A frame above the outermost one, with what CALL saved below it. */
  predicate Nested(s: State) {
    4 <= s.fp <= |s.stack| && s.stack[s.fp - 3].SavedFp? && s.stack[s.fp - 2].SavedIp? && s.stack[s.fp - 1].SavedObj?
  }

  function DoReturn(s: State, reg: nat): Outcome {
    if !InFrame(s, reg) || !Nested(s) then Raised
    else
      var v := Reg(s, reg);
      Running(s.(
        stack := s.stack[..s.fp - 3] + [Val(v)],
        heap := DropCells(IncRef(s.heap, v), s.stack[s.fp - 1..]),
        fp := s.stack[s.fp - 3].fp,
        ip := s.stack[s.fp - 2].ip,
        obj := s.stack[s.fp - 1].obj))
  }

  function Nils(n: nat): seq<Cell> {
    seq(n, _ => Val(Nil))
  }

  function DoArgsLocals(s: State, nargs: nat, nlocals: nat): Outcome {
    if |s.stack| != s.fp + nargs then Raised else Running(s.(stack := s.stack + Nils(nlocals)))
  }

  function Store(s: State, dst: nat, v: Value<nat, CInt>): Outcome {
    if !InFrame(s, dst) then Raised else Running(SetReg(s, dst, v))
  }

  /** Store a new string: it is made before the register is cleared. */
  function StoreString(s: State, dst: nat, text: string, at: nat): Outcome {
    if !InFrame(s, dst) then Raised
    else Running(SetReg(s.(heap := MakeString(s.heap, at, text)), dst, String(at)))
  }

  function DoApply1(s: State, op: UnaryOp, dst: nat, src: nat): Outcome {
    if !InFrame(s, dst) || !InFrame(s, src) then Raised
    else
      match Unary(op, Reg(s, src), Texts(s.heap))
      case None => Raised
      case Some(v) => Running(SetReg(s, dst, v))
  }

  function DoApply2(s: State, op: BinaryOp, dst: nat, a: nat, b: nat, rounded: bv32): Outcome {
    if !InFrame(s, dst) || !InFrame(s, a) || !InFrame(s, b) then Raised
    else
      match Binary(op, Reg(s, a), Reg(s, b), rounded, Texts(s.heap))
      case None => Raised
      case Some(v) => Running(SetReg(s, dst, v))
  }

  function DoConcat(s: State, dst: nat, a: nat, b: nat, at: nat): Outcome {
    if !InFrame(s, a) || !InFrame(s, b) || !Reg(s, a).String? || !Reg(s, b).String? then Raised
    else StoreString(s, dst, Text(s.heap, Reg(s, a).address) + Text(s.heap, Reg(s, b).address), at)
  }

  /** The position of the first system call of this name and arity, or the length of the
      table. */
  function FindSyscall(table: seq<SyscallEntry>, name: string, arity: nat): (k: nat)
    ensures k <= |table|
    ensures k < |table| ==> table[k] == SyscallEntry(name, arity)
    ensures forall j :: 0 <= j < k ==> table[j] != SyscallEntry(name, arity)
  {
    if table == [] || table[0] == SyscallEntry(name, arity) then 0 else 1 + FindSyscall(table[1..], name, arity)
  }

  lemma InTable(table: seq<SyscallEntry>, name: string, arity: nat)
    ensures SyscallEntry(name, arity) in table <==> FindSyscall(table, name, arity) < |table|
  {
  }

  /** The name and the arguments are given up; no result is left on the stack. */
  function DoSyscall(s: State, nargs: nat, table: seq<SyscallEntry>): Outcome {
    var slot := |s.stack| - nargs - 1;
    if slot < s.fp || !s.stack[slot].Val? || !s.stack[slot].v.String? || nargs > 3 then Raised
    else if FindSyscall(table, CString(Text(s.heap, s.stack[slot].v.address)), nargs) == |table| then Raised
    else Running(s.(stack := s.stack[..slot], heap := DropCells(s.heap, s.stack[slot..])))
  }

  function DoGetGlobal(s: State, dst: nat, name: nat): Outcome {
    match StringReg(s, name)
    case None => Raised
    case Some(n) =>
      if !InFrame(s, dst) then Raised
      else
        var v := Global(s.globals, s.obj, n);
        Running(SetReg(s.(heap := IncRef(s.heap, v)), dst, v))
  }

  function DoSetGlobal(s: State, name: nat, src: nat, granted: bool): Outcome {
    if !granted then Retry(s)
    else
      match StringReg(s, name)
      case None => Raised
      case Some(n) => if !InFrame(s, src) then Raised else Running(StoreGlobal(s, n, Reg(s, src)))
  }

  function DoMakeObj(s: State, dst: nat, parent: nat, id: nat): Outcome {
    if !InFrame(s, parent) || !Reg(s, parent).Objref? then Raised else Store(s, dst, Objref(id))
  }

  function DoJumpIf(s: State, cond: nat, offset: int): Outcome {
    if !InFrame(s, cond) then Raised
    else Running(if Reg(s, cond) == Bool(true) then s.(ip := s.ip + offset) else s)
  }

  /** In the outermost frame, everything above the unused cell is given up. */
  function DoHalt(s: State): Outcome {
    if s.fp != 1 || |s.stack| == 0 then Raised
    else Halted(s.(stack := s.stack[..1], heap := DropCells(s.heap, s.stack[1..])))
  }

  function Act(s: State, i: Instr): Outcome {
    match i
    case Noop => Running(s)
    case Halt => DoHalt(s)
    case Mov(dst, src) => DoMov(s, dst, src)
    case Push(src) => DoPush(s, src)
    case Pop(dst) => DoPop(s, dst)
    case Call(nargs, entry) => DoCall(s, nargs, entry)
    case Return(reg) => DoReturn(s, reg)
    case ArgsLocals(nargs, nlocals) => DoArgsLocals(s, nargs, nlocals)
    case Clear(dst) => Store(s, dst, Nil)
    case LoadTrue(dst) => Store(s, dst, Bool(true))
    case LoadInt(dst, n) => Store(s, dst, Int(n))
    case LoadFloat(dst, bits) => Store(s, dst, Float(bits))
    case LoadString(dst, text, at) => StoreString(s, dst, text, at)
    case Apply1(op, dst, src) => DoApply1(s, op, dst, src)
    case Apply2(op, dst, a, b, rounded) => DoApply2(s, op, dst, a, b, rounded)
    case Jump(offset) => Running(s.(ip := s.ip + offset))
    case JumpIf(cond, offset) => DoJumpIf(s, cond, offset)
    case Syscall(nargs, table) => DoSyscall(s, nargs, table)
    case Concat(dst, a, b, at) => DoConcat(s, dst, a, b, at)
    case GetGlobal(dst, name) => DoGetGlobal(s, dst, name)
    case SetGlobal(name, src, granted) => DoSetGlobal(s, name, src, granted)
    case MakeObj(dst, parent, id) => DoMakeObj(s, dst, parent, id)
    case Self(dst) => Store(s, dst, Objref(s.obj))
    case Parent(dst, first) => Store(s, dst, if first.Some? then Objref(first.value) else Nil)
  }

  /** One turn of the dispatch loop. */
  function Exec(s: State, i: Instr): Outcome {
    Act(s.(ip := s.ip + Size(i)), i)
  }

  /** malloc returns no address that is in use. */
  predicate Answers(s: State, i: Instr) {
    match i
    case LoadString(_, _, at) => at !in s.heap
    case Concat(_, _, _, at) => at !in s.heap
    case _ => true
  }

  /** What C code around the machine does with values: make a string, give a string up,
      push an argument (eval_push_arg). */
  datatype HostAct = MakeHandle(text: string, at: nat) | DropHandle(address: nat) | PushArg(v: Value<nat, CInt>)

  predicate HostMay(s: State, h: HostAct) {
    match h
    case MakeHandle(_, at) => at !in s.heap
    case DropHandle(a) => Val(String(a)) in s.host
    case PushArg(v) => v.String? ==> Val(v) in s.host
  }

  function HostDo(s: State, h: HostAct): State {
    match h
    case MakeHandle(text, at) =>
      s.(heap := MakeString(s.heap, at, text), host := s.host + multiset{Val(String(at))})
    case DropHandle(a) =>
      s.(heap := DecRef(s.heap, String(a)), host := s.host - multiset{Val(String(a))})
    case PushArg(v) => PushValue(s, v)
  }
}

/** The instructions as bytes, with the opcodes and operands of src/eval.h:99-148: what the
    dispatch loop of src/eval.c fetches and decodes. */
module Bytecode {
  import opened CodeBuffer
  import opened Machine
  import opened Scalars
  import opened Values
  import opened Wrappers

  /** What the handler of an instruction learns from outside, not from its bytes. */
  datatype Outside = Outside(
    entry: Option<int>, table: seq<SyscallEntry>, granted: bool, at: nat, id: nat, first: Option<nat>, rounded: bv32)

  ghost predicate Learns(i: Instr, o: Outside) {
    match i
    case Call(_, entry) => entry == o.entry
    case LoadString(_, _, at) => at == o.at
    case Apply2(_, _, _, _, rounded) => rounded == o.rounded
    case Syscall(_, table) => table == o.table
    case Concat(_, _, _, at) => at == o.at
    case SetGlobal(_, _, granted) => granted == o.granted
    case MakeObj(_, _, id) => id == o.id
    case Parent(_, first) => first == o.first
    case _ => true
  }

  /** Registers and counts are bytes, offsets C ints, lengths 16 bits, characters bytes. */
  predicate Fits(i: Instr) {
    match i
    case Noop => true
    case Halt => true
    case Mov(dst, src) => dst < 256 && src < 256
    case Push(src) => src < 256
    case Pop(dst) => dst < 256
    case Call(nargs, _) => nargs < 256
    case Return(reg) => reg < 256
    case ArgsLocals(nargs, nlocals) => nargs < 256 && nlocals < 256
    case Clear(dst) => dst < 256
    case LoadTrue(dst) => dst < 256
    case LoadInt(dst, _) => dst < 256
    case LoadFloat(dst, _) => dst < 256
    case LoadString(dst, text, _) =>
      dst < 256 && |text| < 0x1_0000 && forall k :: 0 <= k < |text| ==> text[k] as int < 256
    case Apply1(_, dst, src) => dst < 256 && src < 256
    case Apply2(_, dst, a, b, _) => dst < 256 && a < 256 && b < 256
    case Jump(offset) => -0x8000_0000 <= offset < 0x8000_0000
    case JumpIf(cond, offset) => cond < 256 && -0x8000_0000 <= offset < 0x8000_0000
    case Syscall(nargs, _) => nargs < 256
    case Concat(dst, a, b, _) => dst < 256 && a < 256 && b < 256
    case GetGlobal(dst, name) => dst < 256 && name < 256
    case SetGlobal(name, src, _) => name < 256 && src < 256
    case MakeObj(dst, parent, _) => dst < 256 && parent < 256
    case Self(dst) => dst < 256
    case Parent(dst, _) => dst < 256
  }

  function Opcode1(op: UnaryOp): Byte {
    match op
    case Type => 0x0F
    case Not => 0x12
    case Length => 0x22
  }

  function Opcode2(op: BinaryOp): Byte {
    match op
    case And => 0x10
    case Or => 0x11
    case Eq => 0x13
    case Le => 0x14
    case Lt => 0x15
    case Add => 0x16
    case Sub => 0x17
    case Mul => 0x18
  }

  /** A C int in four bytes. */
  function IntBytes(n: int): (bs: seq<Byte>)
    ensures |bs| == 4
  {
    LittleEndian(n % 0x1_0000_0000, 4)
  }

  function Encode(i: Instr): seq<Byte>
    requires Fits(i)
  {
    match i
    case Noop => [0x00]
    case Halt => [0x01]
    case Mov(dst, src) => [0x04, dst, src]
    case Push(src) => [0x05, src]
    case Pop(dst) => [0x06, dst]
    case Call(nargs, _) => [0x07, nargs]
    case Return(reg) => [0x08, reg]
    case ArgsLocals(nargs, nlocals) => [0x09, nargs, nlocals]
    case Clear(dst) => [0x0A, dst]
    case LoadTrue(dst) => [0x0B, dst]
    case LoadInt(dst, n) => [0x0C, dst] + IntBytes(n)
    case LoadFloat(dst, bits) => [0x0D, dst] + IntBytes(bits as int)
    case LoadString(dst, text, _) => [0x0E, dst] + LittleEndian(|text|, 2) + NameBytes(text)
    case Apply1(op, dst, src) => [Opcode1(op), dst, src]
    case Apply2(op, dst, a, b, _) => [Opcode2(op), dst, a, b]
    case Jump(offset) => [0x1B] + IntBytes(offset)
    case JumpIf(cond, offset) => [0x1C, cond] + IntBytes(offset)
    case Syscall(nargs, _) => [0x21, nargs]
    case Concat(dst, a, b, _) => [0x23, dst, a, b]
    case GetGlobal(dst, name) => [0x24, dst, name]
    case SetGlobal(name, src, _) => [0x25, name, src]
    case MakeObj(dst, parent, _) => [0x26, dst, parent]
    case Self(dst) => [0x27, dst]
    case Parent(dst, _) => [0x28, dst]
  }

  /** ip is moved past exactly the bytes of the instruction. */
  lemma SizeIsLength(i: Instr)
    requires Fits(i)
    ensures |Encode(i)| == Machine.Size(i)
  {
  }

  // ----- fetching -----

  /** How many operand bytes follow an opcode, before the text of a string. */
  function Operands(op: Byte): Option<nat> {
    if op <= 0x01 then Some(0)
    else if op == 0x04 || op == 0x09 || op == 0x0F || op == 0x12 || op == 0x22 || 0x24 <= op <= 0x26 then Some(2)
    else if 0x05 <= op <= 0x08 || op == 0x0A || op == 0x0B || op == 0x21 || op == 0x27 || op == 0x28 then Some(1)
    else if op == 0x0C || op == 0x0D || op == 0x1C then Some(5)
    else if op == 0x0E || op == 0x10 || op == 0x11 || 0x13 <= op <= 0x18 || op == 0x23 then Some(3)
    else if op == 0x1B then Some(4)
    else None
  }

  function ReadInt(bs: seq<Byte>): CInt {
    Wrap(FromLittleEndian(bs))
  }

  function ReadBits(bs: seq<Byte>): bv32 {
    (FromLittleEndian(bs) % 0x1_0000_0000) as bv32
  }

  /** The instruction of an opcode and its operand bytes. */
  function Simple(op: Byte, b: seq<Byte>, o: Outside): Option<Instr>
    requires Operands(op) == Some(|b|)
  {
    if op == 0x00 then Some(Noop)
    else if op == 0x01 then Some(Halt)
    else if op == 0x04 then Some(Mov(b[0], b[1]))
    else if op == 0x05 then Some(Push(b[0]))
    else if op == 0x06 then Some(Pop(b[0]))
    else if op == 0x07 then Some(Call(b[0], o.entry))
    else if op == 0x08 then Some(Return(b[0]))
    else if op == 0x09 then Some(ArgsLocals(b[0], b[1]))
    else if op == 0x0A then Some(Clear(b[0]))
    else if op == 0x0B then Some(LoadTrue(b[0]))
    else if op == 0x0C then Some(LoadInt(b[0], ReadInt(b[1..])))
    else if op == 0x0D then Some(LoadFloat(b[0], ReadBits(b[1..])))
    else if op == 0x0F then Some(Apply1(Type, b[0], b[1]))
    else if op == 0x10 then Some(Apply2(And, b[0], b[1], b[2], o.rounded))
    else if op == 0x11 then Some(Apply2(Or, b[0], b[1], b[2], o.rounded))
    else if op == 0x12 then Some(Apply1(Not, b[0], b[1]))
    else if op == 0x13 then Some(Apply2(Eq, b[0], b[1], b[2], o.rounded))
    else if op == 0x14 then Some(Apply2(Le, b[0], b[1], b[2], o.rounded))
    else if op == 0x15 then Some(Apply2(Lt, b[0], b[1], b[2], o.rounded))
    else if op == 0x16 then Some(Apply2(Add, b[0], b[1], b[2], o.rounded))
    else if op == 0x17 then Some(Apply2(Sub, b[0], b[1], b[2], o.rounded))
    else if op == 0x18 then Some(Apply2(Mul, b[0], b[1], b[2], o.rounded))
    else if op == 0x1B then Some(Jump(ReadInt(b)))
    else if op == 0x1C then Some(JumpIf(b[0], ReadInt(b[1..])))
    else if op == 0x21 then Some(Syscall(b[0], o.table))
    else if op == 0x22 then Some(Apply1(Length, b[0], b[1]))
    else if op == 0x23 then Some(Concat(b[0], b[1], b[2], o.at))
    else if op == 0x24 then Some(GetGlobal(b[0], b[1]))
    else if op == 0x25 then Some(SetGlobal(b[0], b[1], o.granted))
    else if op == 0x26 then Some(MakeObj(b[0], b[1], o.id))
    else if op == 0x27 then Some(Self(b[0]))
    else if op == 0x28 then Some(Parent(b[0], o.first))
    else None
  }

  /** What the dispatch loop does with the bytes from ip on: opcode, operands, text. */
  function Fetch(bs: seq<Byte>, o: Outside): Option<Instr> {
    if bs == [] then None
    else
      match Operands(bs[0])
      case None => None
      case Some(n) =>
        if |bs| < 1 + n then None
        else if bs[0] != 0x0E then Simple(bs[0], bs[1..1 + n], o)
        else
          var len := FromLittleEndian(bs[2..4]);
          if |bs| < 4 + len then None else Some(LoadString(bs[1], FromNameBytes(bs[4..4 + len]), o.at))
  }

  lemma IntBack(n: int)
    requires -0x8000_0000 <= n < 0x8000_0000
    ensures ReadInt(IntBytes(n)) == n
  {
    hide FromLittleEndian, LittleEndian;
    FourBytes(n % 0x1_0000_0000);
  }

  lemma AsNumber(bits: bv32)
    ensures bits as int < 0x1_0000_0000
  {
  }

  lemma AsBits(bits: bv32, n: nat)
    requires n == bits as int && n < 0x1_0000_0000
    ensures n as bv32 == bits
  {
  }

  lemma NumberBack(n: nat)
    requires n < 0x1_0000_0000
    ensures FromLittleEndian(IntBytes(n)) % 0x1_0000_0000 == n
  {
    hide FromLittleEndian, LittleEndian;
    FourBytes(n);
  }

  lemma FourBytes(n: nat)
    requires n < 0x1_0000_0000
    ensures FromLittleEndian(LittleEndian(n, 4)) == n
  {
    assert Power(4) == 0x1_0000_0000;
    hide FromLittleEndian, LittleEndian, Power;
    IntegerRoundTrip(n, 4);
  }

  lemma ReadAs(bs: seq<Byte>, n: nat)
    requires FromLittleEndian(bs) % 0x1_0000_0000 == n
    ensures ReadBits(bs) == n as bv32
  {
  }

  lemma BitsBack(bits: bv32)
    ensures ReadBits(IntBytes(bits as int)) == bits
  {
    hide ReadBits, IntBytes, FromLittleEndian;
    AsNumber(bits);
    NumberBack(bits as int);
    ReadAs(IntBytes(bits as int), bits as int);
    AsBits(bits, bits as int);
  }

  lemma SimpleFetched(op: Byte, b: seq<Byte>, rest: seq<Byte>, o: Outside)
    requires op != 0x0E && Operands(op) == Some(|b|)
    ensures Fetch([op] + b + rest, o) == Simple(op, b, o)
  {
    var bs := [op] + b + rest;
    assert bs[0] == op && bs[1..1 + |b|] == b;
  }

  lemma LengthBack(n: nat)
    requires n < 0x1_0000
    ensures FromLittleEndian(LittleEndian(n, 2)) == n
  {
    assert Power(2) == 0x1_0000;
    IntegerRoundTrip(n, 2);
  }

  lemma Slices(dst: Byte, len: seq<Byte>, text: seq<Byte>, rest: seq<Byte>)
    requires |len| == 2
    ensures var bs := [0x0E, dst] + len + text + rest;
      |bs| == 4 + |text| + |rest| && bs[0] == 0x0E && bs[1] == dst && bs[2..4] == len && bs[4..4 + |text|] == text
  {
  }

  lemma TextFetched(dst: Byte, text: string, rest: seq<Byte>, o: Outside)
    requires |text| < 0x1_0000 && forall k :: 0 <= k < |text| ==> text[k] as int < 256
    ensures Fetch([0x0E, dst] + LittleEndian(|text|, 2) + NameBytes(text) + rest, o)
         == Some(LoadString(dst, text, o.at))
  {
    hide LittleEndian, FromLittleEndian, NameBytes, FromNameBytes, Fetch;
    LengthBack(|text|);
    NameRoundTrip(text);
    Slices(dst, LittleEndian(|text|, 2), NameBytes(text), rest);
    TextAt([0x0E, dst] + LittleEndian(|text|, 2) + NameBytes(text) + rest, dst, text, o);
  }

  lemma TextAt(bs: seq<Byte>, dst: Byte, text: string, o: Outside)
    requires |bs| >= 4 + |text| && bs[0] == 0x0E && bs[1] == dst
    requires FromLittleEndian(bs[2..4]) == |text| && FromNameBytes(bs[4..4 + |text|]) == text
    ensures Fetch(bs, o) == Some(LoadString(dst, text, o.at))
  {
    hide FromLittleEndian, FromNameBytes, Simple;
  }

  /** The opcode and the operand bytes of every instruction but LOAD_STRING. */
  lemma SimpleEncoded(i: Instr, o: Outside)
    requires Fits(i) && Learns(i, o) && !i.LoadString?
    ensures Encode(i) != [] && Encode(i)[0] != 0x0E && Operands(Encode(i)[0]) == Some(|Encode(i)| - 1)
    ensures Simple(Encode(i)[0], Encode(i)[1..], o) == Some(i)
  {
    hide IntBytes, ReadInt, ReadBits;
    if i.LoadInt? || i.LoadFloat? || i.Jump? || i.JumpIf? {
      NumberEncoded(i, o);
    }
  }

  /** The same for those with a number of four bytes. */
  lemma NumberEncoded(i: Instr, o: Outside)
    requires Fits(i) && (i.LoadInt? || i.LoadFloat? || i.Jump? || i.JumpIf?)
    ensures Operands(Encode(i)[0]) == Some(|Encode(i)| - 1) && Simple(Encode(i)[0], Encode(i)[1..], o) == Some(i)
  {
    hide IntBytes, ReadInt, ReadBits;
    if i.LoadInt? {
      IntBack(i.i);
      assert Encode(i)[1..][1..] == IntBytes(i.i);
    } else if i.LoadFloat? {
      BitsBack(i.bits);
      assert Encode(i)[1..][1..] == IntBytes(i.bits as int);
    } else if i.Jump? {
      IntBack(i.offset);
      assert Encode(i)[1..] == IntBytes(i.offset);
    } else {
      IntBack(i.offset);
      assert Encode(i)[1..][1..] == IntBytes(i.offset);
    }
  }

  /** The bytes of an instruction are fetched back as that instruction, whatever follows. */
  lemma FetchedBack(i: Instr, rest: seq<Byte>, o: Outside)
    requires Fits(i) && Learns(i, o)
    ensures Fetch(Encode(i) + rest, o) == Some(i)
  {
    if i.LoadString? {
      TextFetched(i.dst, i.text, rest, o);
    } else {
      SimpleEncoded(i, o);
      hide Encode, Simple, Fits, Learns, Fetch;
      var bs := Encode(i);
      assert bs + rest == [bs[0]] + bs[1..] + rest;
      SimpleFetched(bs[0], bs[1..], rest, o);
    }
  }

  // ----- code -----

  ghost predicate AllFit(code: seq<Instr>) {
    forall k :: 0 <= k < |code| ==> Fits(code[k])
  }

  /** A piece of code is the bytes of its instructions. */
  ghost function Assembled(code: seq<Instr>): seq<Byte>
    requires AllFit(code)
  {
    if code == [] then [] else Encode(code[0]) + Assembled(code[1..])
  }

  /** Where the k-th instruction begins. */
  ghost function Offset(code: seq<Instr>, k: nat): nat
    requires k <= |code|
  {
    if k == 0 then 0 else Machine.Size(code[0]) + Offset(code[1..], k - 1)
  }

  /** The dispatch loop finds instruction k at its offset, and behind it the next one: an
      instruction that does not jump is followed by the one that comes after it. */
  lemma {:induction false} CodeIsFetched(code: seq<Instr>, k: nat, o: Outside)
    requires AllFit(code) && k < |code| && Learns(code[k], o)
    ensures Offset(code, k) <= |Assembled(code)| && Fetch(Assembled(code)[Offset(code, k)..], o) == Some(code[k])
    ensures Offset(code, k + 1) == Offset(code, k) + Machine.Size(code[k])
    decreases |code|
  {
    hide Encode, Fetch, Fits, Learns;
    var first, rest := Encode(code[0]), code[1..];
    SizeIsLength(code[0]);
    if k == 0 {
      FetchedBack(code[0], Assembled(rest), o);
      assert Assembled(code)[0..] == Assembled(code);
    } else {
      assert rest[k - 1] == code[k];
      CodeIsFetched(rest, k - 1, o);
      assert Assembled(code)[Offset(code, k)..] == Assembled(rest)[Offset(rest, k - 1)..];
    }
  }
}

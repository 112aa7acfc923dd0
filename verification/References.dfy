/** Reference conservation: the counts in the heap are the references in the cells, the
    globals and the hands of the host, after every instruction of every run. */
module References {
  import opened Machine
  import opened Scalars
  import opened Strings
  import opened Values
  import opened Wrappers

  ghost function GlobalCells(globals: seq<Slot>): seq<Cell> {
    seq(|globals|, i requires 0 <= i < |globals| => Val(globals[i].value))
  }

  /** Every cell that may name a string. */
  ghost function Named(s: State): multiset<Cell> {
    multiset(s.stack) + multiset(GlobalCells(s.globals)) + s.host
  }

  /** The heap holds exactly the strings something names, with the right counts. */
  ghost predicate Balanced(s: State) {
    CountedBy(s.heap, Named(s))
  }

  /** Fewer than 65536 references to every string. */
  ghost predicate Bounded(s: State) {
    AtMost(Named(s), COUNTS - 1)
  }

  ghost predicate NamesString(c: Cell) {
    c.Val? && c.v.String?
  }

  lemma SameReferences(heap: Heap, m: multiset<Cell>, n: multiset<Cell>)
    requires CountedBy(heap, m) && forall a: nat :: CountOf(m, a) == CountOf(n, a)
    ensures CountedBy(heap, n)
  {
    forall a: nat ensures Counted(heap, n, a) {
      assert Counted(heap, m, a);
    }
  }

  lemma PlainCell(heap: Heap, m: multiset<Cell>, c: Cell)
    requires CountedBy(heap, m) && !NamesString(c)
    ensures CountedBy(heap, m + multiset{c})
  {
    forall a: nat ensures CountOf(m, a) == CountOf(m + multiset{c}, a) {
      assert Val(String(a)) != c;
    }
    SameReferences(heap, m, m + multiset{c});
  }

  lemma OneMore(m: multiset<Cell>, c: Cell)
    requires AtMost(m, COUNTS - 1)
    ensures AtMost(m + multiset{c}, COUNTS)
  {
    forall a: nat ensures CountOf(m + multiset{c}, a) <= COUNTS {
      assert CountOf(m, a) <= COUNTS - 1;
    }
  }

  lemma Replaced<T>(s: seq<T>, k: nat, x: T)
    requires k < |s|
    ensures s[k] in multiset(s) && multiset(s[k := x]) == multiset(s) - multiset{s[k]} + multiset{x}
  {
  }

  /** Clearing a register and storing a value whose reference is already counted. */
  lemma SetRegCounts(s: State, r: nat, v: Value<nat, CInt>)
    requires InFrame(s, r) && CountedBy(s.heap, Named(s) + multiset{Val(v)}) && Bounded(s)
    ensures Balanced(SetReg(s, r, v))
  {
    var c := s.stack[s.fp + r];
    var t := SetReg(s, r, v);
    Replaced(s.stack, s.fp + r, Val(v));
    OneMore(Named(s), Val(v));
    DropCellCounts(s.heap, Named(s) + multiset{Val(v)}, c);
    assert Named(t) == Named(s) + multiset{Val(v)} - multiset{c};
  }

  lemma StoreCounts(s: State, r: nat, v: Value<nat, CInt>)
    requires InFrame(s, r) && Balanced(s) && Bounded(s) && !v.String?
    ensures Balanced(SetReg(s, r, v))
  {
    PlainCell(s.heap, Named(s), Val(v));
    SetRegCounts(s, r, v);
  }

  /** Storing one more reference to a value that some cell names. */
  lemma CopyCounts(s: State, r: nat, v: Value<nat, CInt>)
    requires InFrame(s, r) && Balanced(s) && Bounded(s) && Val(v) in Named(s)
    ensures Balanced(SetReg(s.(heap := IncRef(s.heap, v)), r, v))
  {
    IncRefCounts(s.heap, Named(s), v);
    var t := s.(heap := IncRef(s.heap, v));
    assert Named(t) == Named(s);
    SetRegCounts(t, r, v);
  }

  lemma RegIsNamed(s: State, r: nat)
    requires InFrame(s, r)
    ensures Val(Reg(s, r)) in Named(s)
  {
    assert s.stack[s.fp + r] in multiset(s.stack);
  }

  lemma SlotIsNamed(s: State, k: nat)
    requires k < |s.globals|
    ensures Val(s.globals[k].value) in Named(s)
  {
    assert GlobalCells(s.globals)[k] in multiset(GlobalCells(s.globals));
  }

  lemma StringCounts(s: State, r: nat, text: string, address: nat)
    requires InFrame(s, r) && Balanced(s) && Bounded(s) && address !in s.heap
    ensures Balanced(SetReg(s.(heap := MakeString(s.heap, address, text)), r, String(address)))
  {
    MakeStringCounts(s.heap, Named(s), address, text);
    var t := s.(heap := MakeString(s.heap, address, text));
    assert Named(t) == Named(s);
    SetRegCounts(t, r, String(address));
  }

  lemma PushCounts(s: State, v: Value<nat, CInt>)
    requires Balanced(s) && (v.String? ==> Val(v) in Named(s))
    ensures Balanced(PushValue(s, v))
  {
    var t := PushValue(s, v);
    assert Named(t) == Named(s) + multiset{Val(v)};
    if v.String? {
      IncRefCounts(s.heap, Named(s), v);
    } else {
      PlainCell(s.heap, Named(s), Val(v));
    }
  }

  ghost function Elsewhere(s: State): multiset<Cell> {
    multiset(GlobalCells(s.globals)) + s.host
  }

  lemma Split(s: State, k: nat)
    requires k <= |s.stack|
    ensures Named(s) == multiset(s.stack[..k]) + Elsewhere(s) + multiset(s.stack[k..])
  {
    assert s.stack == s.stack[..k] + s.stack[k..];
  }

  /** Everything from position k up is given up. */
  lemma CutCounts(s: State, k: nat)
    requires k <= |s.stack| && Balanced(s) && Bounded(s)
    ensures Balanced(s.(stack := s.stack[..k], heap := DropCells(s.heap, s.stack[k..])))
  {
    Split(s, k);
    OneMore(Named(s), Unused);
    DropCellsCounts(s.heap, multiset(s.stack[..k]) + Elsewhere(s), s.stack[k..]);
    var t := s.(stack := s.stack[..k], heap := DropCells(s.heap, s.stack[k..]));
    assert Named(t) == multiset(s.stack[..k]) + Elsewhere(s);
  }

  /** The top value moves into another register: its reference moves with it. */
  lemma PopIntoCounts(s: State, dst: nat)
    requires Balanced(s) && Bounded(s) && DoPop(s, dst).Running? && s.fp + dst < |s.stack| - 1
    ensures Balanced(DoPop(s, dst).s)
  {
    var sp := |s.stack| - 1;
    var t := s.(stack := s.stack[..sp]);
    Split(s, sp);
    assert s.stack[sp..] == [s.stack[sp]];
    assert Named(t) + multiset{s.stack[sp]} == Named(s);
    assert Bounded(t) by {
      forall a: nat ensures CountOf(Named(t), a) <= COUNTS - 1 {
        assert CountOf(Named(s), a) <= COUNTS - 1;
      }
    }
    SetRegCounts(t, dst, s.stack[sp].v);
    assert DoPop(s, dst).s == SetReg(t, dst, s.stack[sp].v);
  }

  lemma PopCounts(s: State, dst: nat)
    requires Balanced(s) && Bounded(s) && DoPop(s, dst).Running?
    ensures Balanced(DoPop(s, dst).s)
  {
    var sp := |s.stack| - 1;
    if s.fp + dst < sp {
      PopIntoCounts(s, dst);
    } else {
      CutCounts(s, sp);
      assert DropCells(s.heap, s.stack[sp..]) == DropCell(s.heap, s.stack[sp]) by {
        assert s.stack[sp..] == [s.stack[sp]];
      }
      assert DoPop(s, dst).s == s.(stack := s.stack[..sp], heap := DropCell(s.heap, s.stack[sp]));
    }
  }

  lemma LocalsCounts(s: State, n: nat)
    requires Balanced(s)
    ensures Balanced(s.(stack := s.stack + Nils(n)))
    decreases n
  {
    var t := s.(stack := s.stack + Nils(n));
    assert Named(t) == Named(s) + multiset(Nils(n));
    forall a: nat ensures CountOf(Named(t), a) == CountOf(Named(s), a) {
      assert forall i :: 0 <= i < n ==> Nils(n)[i] != Val(String(a));
      assert Val(String(a)) !in Nils(n);
      assert multiset(Nils(n))[Val(String(a))] == 0;
    }
    SameReferences(s.heap, Named(s), Named(t));
  }

  /** Overwriting a cell with something that is no string, after giving it up. */
  lemma OverwriteCounts(s: State, k: nat, c: Cell)
    requires k < |s.stack| && Balanced(s) && Bounded(s) && !NamesString(c)
    ensures var t := s.(stack := s.stack[k := c], heap := DropCell(s.heap, s.stack[k]));
      Balanced(t) && Bounded(t)
  {
    var previous := s.stack[k];
    var t := s.(stack := s.stack[k := c], heap := DropCell(s.heap, previous));
    Replaced(s.stack, k, c);
    OneMore(Named(s), Unused);
    DropCellCounts(s.heap, Named(s), previous);
    assert Named(t) == Named(s) - multiset{previous} + multiset{c};
    PlainCell(t.heap, Named(s) - multiset{previous}, c);
    forall a: nat ensures CountOf(Named(t), a) <= COUNTS - 1 {
      assert CountOf(Named(s), a) <= COUNTS - 1 && c != Val(String(a));
    }
  }

  lemma CallCounts(s: State, nargs: nat, entry: Option<int>)
    requires Balanced(s) && Bounded(s) && DoCall(s, nargs, entry).Running?
    ensures Balanced(DoCall(s, nargs, entry).s)
  {
    hide CountedBy, AtMost, DropCell, NamesString;
    var k := |s.stack| - nargs - 3;
    var t1 := s.(stack := s.stack[k := SavedFp(s.fp)], heap := DropCell(s.heap, s.stack[k]));
    var t2 := t1.(stack := t1.stack[k + 1 := SavedIp(s.ip)], heap := DropCell(t1.heap, t1.stack[k + 1]));
    var t3 := t2.(stack := t2.stack[k + 2 := SavedObj(s.obj)], heap := DropCell(t2.heap, t2.stack[k + 2]));
    SavedAreNoStrings(s);
    OverwriteCounts(s, k, SavedFp(s.fp));
    OverwriteCounts(t1, k + 1, SavedIp(s.ip));
    OverwriteCounts(t2, k + 2, SavedObj(s.obj));
    var t := DoCall(s, nargs, entry).s;
    assert t.stack == t3.stack && t.heap == t3.heap && t.globals == t3.globals && t.host == t3.host;
  }

  lemma SavedAreNoStrings(s: State)
    ensures !NamesString(SavedFp(s.fp)) && !NamesString(SavedIp(s.ip)) && !NamesString(SavedObj(s.obj))
  {
  }

  lemma LowAndSaved(stack: seq<Cell>, k: nat)
    requires 2 <= k <= |stack|
    ensures multiset(stack[..k]) == multiset(stack[..k - 2]) + multiset{stack[k - 2], stack[k - 1]}
  {
    assert stack[..k] == stack[..k - 2] + [stack[k - 2], stack[k - 1]];
  }

  lemma Regroup(low: multiset<Cell>, saved: multiset<Cell>, rest: multiset<Cell>,
                top: multiset<Cell>, v: multiset<Cell>)
    ensures low + saved + rest + top + v == low + v + rest + saved + top
  {
  }

  /** What RETURN drops from the stack, and the two saved cells it overwrites. */
  lemma ReturnSplit(s: State, reg: nat)
    requires DoReturn(s, reg).Running?
    ensures Named(s) + multiset{Val(Reg(s, reg))}
      == Named(DoReturn(s, reg).s) + multiset{s.stack[s.fp - 3], s.stack[s.fp - 2]} + multiset(s.stack[s.fp - 1..])
  {
    var k, t, v := s.fp - 1, DoReturn(s, reg).s, multiset{Val(Reg(s, reg))};
    var low, saved := multiset(s.stack[..k - 2]), multiset{s.stack[k - 2], s.stack[k - 1]};
    Split(s, k);
    LowAndSaved(s.stack, k);
    assert Named(t) == low + v + Elsewhere(s) by {
      assert t.stack == s.stack[..k - 2] + [Val(Reg(s, reg))];
      assert multiset(t.stack) == low + v;
    }
    hide Named, Elsewhere;
    Regroup(low, saved, Elsewhere(s), multiset(s.stack[k..]), v);
  }

  lemma ReturnCounts(s: State, reg: nat)
    requires Balanced(s) && Bounded(s) && DoReturn(s, reg).Running?
    ensures Balanced(DoReturn(s, reg).s)
  {
    var v, k, t := Reg(s, reg), s.fp - 1, DoReturn(s, reg).s;
    var saved := multiset{s.stack[k - 2], s.stack[k - 1]};
    assert t.heap == DropCells(IncRef(s.heap, v), s.stack[k..]);
    RegIsNamed(s, reg);
    IncRefCounts(s.heap, Named(s), v);
    OneMore(Named(s), Val(v));
    ReturnSplit(s, reg);
    hide CountedBy, AtMost, IncRef, DropCells, Named;
    DropCellsCounts(IncRef(s.heap, v), Named(t) + saved, s.stack[k..]);
    forall a: nat ensures CountOf(Named(t) + saved, a) == CountOf(Named(t), a) {
      assert s.stack[k - 2] != Val(String(a)) && s.stack[k - 1] != Val(String(a));
    }
    SameReferences(t.heap, Named(t) + saved, Named(t));
  }

  lemma OverwriteGlobalCounts(s: State, name: string, v: Value<nat, CInt>)
    requires Balanced(s) && Bounded(s) && Val(v) in multiset(s.stack) && FindSlot(s.globals, s.obj, name) < |s.globals|
    ensures Balanced(StoreGlobal(s, name, v))
  {
    var k, t, cells := FindSlot(s.globals, s.obj, name), StoreGlobal(s, name, v), GlobalCells(s.globals);
    var c := cells[k];
    assert GlobalCells(t.globals) == cells[k := Val(v)];
    Replaced(cells, k, Val(v));
    OneMore(Named(s), Unused);
    var m := Named(s) - multiset{c};
    DropCellCounts(s.heap, Named(s), c);
    assert Named(t) == m + multiset{Val(v)};
    IncRefCounts(DecRef(s.heap, s.globals[k].value), m, v);
  }

  lemma StoreGlobalCounts(s: State, name: string, v: Value<nat, CInt>)
    requires Balanced(s) && Bounded(s) && Val(v) in multiset(s.stack)
    ensures Balanced(StoreGlobal(s, name, v))
  {
    if FindSlot(s.globals, s.obj, name) < |s.globals| {
      OverwriteGlobalCounts(s, name, v);
    } else {
      var t, cells := StoreGlobal(s, name, v), GlobalCells(s.globals);
      assert GlobalCells(t.globals) == [Val(v)] + cells;
      assert Named(t) == Named(s) + multiset{Val(v)};
      IncRefCounts(s.heap, Named(s), v);
    }
  }

  lemma IpCounts(s: State, ip: int)
    requires Balanced(s)
    ensures Balanced(s.(ip := ip)) && (Bounded(s) ==> Bounded(s.(ip := ip)))
  {
    assert Named(s.(ip := ip)) == Named(s);
  }

  /** Every instruction keeps the counts exact, whether it goes on, halts or has to be
      retried; one that raises changes nothing. */
  lemma ActCounts(s: State, i: Instr)
    requires Balanced(s) && Bounded(s) && Answers(s, i)
    ensures var o := Act(s, i); !o.Raised? ==> Balanced(o.s)
  {
    hide Named, CountedBy, AtMost, DropCells, DropCell, IncRef, DecRef, MakeString, SetReg, Unary, Binary, StoreGlobal;
    if Act(s, i).Raised? {
      return;
    }
    match i
    case Noop =>
    case Jump(offset) => IpCounts(s, s.ip + offset);
    case JumpIf(_, offset) => IpCounts(s, s.ip + offset);
    case Halt => HaltCounts(s);
    case Mov(dst, src) => RegIsNamed(s, src); CopyCounts(s, dst, Reg(s, src));
    case Push(src) => RegIsNamed(s, src); PushCounts(s, Reg(s, src));
    case Pop(dst) => PopCounts(s, dst);
    case Call(nargs, entry) => CallCounts(s, nargs, entry);
    case Return(reg) => ReturnCounts(s, reg);
    case ArgsLocals(_, nlocals) => LocalsCounts(s, nlocals);
    case LoadString(dst, text, at) => StringCounts(s, dst, text, at);
    case Syscall(nargs, _) => CutCounts(s, |s.stack| - nargs - 1);
    case Concat(dst, a, b, at) =>
      StringCounts(s, dst, Text(s.heap, Reg(s, a).address) + Text(s.heap, Reg(s, b).address), at);
    case GetGlobal(dst, name) => GetGlobalCounts(s, dst, name);
    case SetGlobal(name, src, granted) =>
      if granted {
        assert s.stack[s.fp + src] in multiset(s.stack);
        StoreGlobalCounts(s, StringReg(s, name).value, Reg(s, src));
      }
    case _ => StoreActCounts(s, i);
  }

  /** The instructions that store a value which is no string. */
  lemma StoreActCounts(s: State, i: Instr)
    requires Balanced(s) && Bounded(s) && Act(s, i).Running?
    requires i.Clear? || i.LoadTrue? || i.LoadInt? || i.LoadFloat? || i.Apply1? || i.Apply2?
             || i.MakeObj? || i.Self? || i.Parent?
    ensures Balanced(Act(s, i).s)
  {
    hide Named, CountedBy, AtMost, DropCells, DropCell, IncRef, DecRef, MakeString, SetReg, Unary, Binary, StoreGlobal;
    match i
    case Clear(dst) => StoreCounts(s, dst, Nil);
    case LoadTrue(dst) => StoreCounts(s, dst, Bool(true));
    case LoadInt(dst, n) => StoreCounts(s, dst, Int(n));
    case LoadFloat(dst, bits) => StoreCounts(s, dst, Float(bits));
    case Apply1(op, dst, src) => StoreCounts(s, dst, Unary(op, Reg(s, src), Texts(s.heap)).value);
    case Apply2(op, dst, a, b, rounded) =>
      StoreCounts(s, dst, Binary(op, Reg(s, a), Reg(s, b), rounded, Texts(s.heap)).value);
    case MakeObj(dst, _, id) => StoreCounts(s, dst, Objref(id));
    case Self(dst) => StoreCounts(s, dst, Objref(s.obj));
    case Parent(dst, first) => StoreCounts(s, dst, if first.Some? then Objref(first.value) else Nil);
  }

  lemma GetGlobalCounts(s: State, dst: nat, name: nat)
    requires Balanced(s) && Bounded(s) && DoGetGlobal(s, dst, name).Running?
    ensures Balanced(DoGetGlobal(s, dst, name).s)
  {
    var n := StringReg(s, name).value;
    var k, v := FindSlot(s.globals, s.obj, n), Global(s.globals, s.obj, n);
    if k < |s.globals| {
      SlotIsNamed(s, k);
      CopyCounts(s, dst, v);
    } else {
      StoreCounts(s, dst, Nil);
    }
  }

  lemma HaltCounts(s: State)
    requires Balanced(s) && Bounded(s) && DoHalt(s).Halted?
    ensures Balanced(DoHalt(s).s)
  {
    CutCounts(s, 1);
  }

  lemma ExecCounts(s: State, i: Instr)
    requires Balanced(s) && Bounded(s) && Answers(s, i)
    ensures var o := Exec(s, i); !o.Raised? ==> Balanced(o.s)
  {
    hide CountedBy, AtMost, Act, Size;
    IpCounts(s, s.ip + Size(i));
    ActCounts(s.(ip := s.ip + Size(i)), i);
  }

  lemma HostCounts(s: State, h: HostAct)
    requires Balanced(s) && Bounded(s) && HostMay(s, h)
    ensures Balanced(HostDo(s, h))
  {
    match h
    case MakeHandle(text, at) =>
      MakeStringCounts(s.heap, Named(s), at, text);
      assert Named(HostDo(s, h)) == Named(s) + multiset{Val(String(at))};
    case DropHandle(a) =>
      OneMore(Named(s), Unused);
      DropCellCounts(s.heap, Named(s), Val(String(a)));
      assert Named(HostDo(s, h)) == Named(s) - multiset{Val(String(a))};
    case PushArg(v) => PushCounts(s, v);
  }

  /** One event of a run: an instruction, or something the host does. */
  datatype Event = Op(i: Instr) | Host(h: HostAct)

  ghost predicate May(s: State, e: Event) {
    match e
    case Op(i) => Answers(s, i) && Exec(s, i).Running?
    case Host(h) => HostMay(s, h)
  }

  ghost function Do(s: State, e: Event): State
    requires May(s, e)
  {
    match e
    case Op(i) => Exec(s, i).s
    case Host(h) => HostDo(s, h)
  }

  /** A run in which no string ever has 65536 references. */
  ghost predicate Runs(s: State, es: seq<Event>)
    decreases |es|
  {
    Bounded(s) && (es == [] || (May(s, es[0]) && Runs(Do(s, es[0]), es[1..])))
  }

  ghost function After(s: State, es: seq<Event>): State
    requires Runs(s, es)
    decreases |es|
  {
    if es == [] then s else After(Do(s, es[0]), es[1..])
  }

  lemma StepCounts(s: State, e: Event)
    requires Balanced(s) && Bounded(s) && May(s, e)
    ensures Balanced(Do(s, e))
  {
    match e
    case Op(i) => ExecCounts(s, i);
    case Host(h) => HostCounts(s, h);
  }

  /** The conservation law, over every run: a string is on the heap exactly as long as
      something names it, and its count is the number of cells, globals and handles
      that do. */
  lemma {:induction false} RunCounts(s: State, es: seq<Event>)
    requires Balanced(s) && Runs(s, es)
    ensures Balanced(After(s, es)) && Bounded(After(s, es))
    ensures forall a: nat ::
      a in After(s, es).heap ==> After(s, es).heap[a].count == CountOf(Named(After(s, es)), a)
    decreases |es|
  {
    if es == [] {
      forall a: nat | a in s.heap ensures s.heap[a].count == CountOf(Named(s), a) {
        assert Counted(s.heap, Named(s), a);
        assert CountOf(Named(s), a) <= COUNTS - 1;
      }
    } else {
      StepCounts(s, es[0]);
      RunCounts(Do(s, es[0]), es[1..]);
    }
  }

  /** A step frees a string exactly when it takes away the last references. */
  lemma FreedAtZero(s: State, e: Event, a: nat)
    requires Balanced(s) && Bounded(s) && May(s, e)
    ensures a in s.heap && a !in Do(s, e).heap <==> CountOf(Named(s), a) > 0 && CountOf(Named(Do(s, e)), a) == 0
  {
    StepCounts(s, e);
    assert Counted(s.heap, Named(s), a) && Counted(Do(s, e).heap, Named(Do(s, e)), a);
  }

  /** No value in a cell, a global or the host's hands ever names a freed string. */
  lemma NothingDangles(s: State, es: seq<Event>, a: nat)
    requires Balanced(s) && Runs(s, es) && Val(String(a)) in Named(After(s, es))
    ensures a in After(s, es).heap
  {
    RunCounts(s, es);
    assert Counted(After(s, es).heap, Named(After(s, es)), a);
  }

  /** After HALT in the outermost frame only globals and host hold references. */
  lemma HaltLeavesGlobals(s: State, a: nat)
    requires Balanced(s) && Bounded(s) && Exec(s, Halt).Halted? && s.stack[0] == Unused
    ensures var t := Exec(s, Halt).s;
      && t.globals == s.globals && t.host == s.host
      && (a in t.heap <==> CountOf(Elsewhere(s), a) > 0)
      && (a in t.heap ==> t.heap[a].count == CountOf(Elsewhere(s), a))
  {
    ExecCounts(s, Halt);
    var t := Exec(s, Halt).s;
    assert t.stack == [Unused];
    assert Named(t) == multiset{Unused} + Elsewhere(s);
    assert CountOf(Named(t), a) == CountOf(Elsewhere(s), a) <= CountOf(Named(s), a) <= COUNTS - 1;
    assert Counted(t.heap, Named(t), a);
  }

  /** eval_free_ctx throws the stack away as it is. After HALT that is harmless; after a
      run that has to be retried it loses the strings the stack still names, and the
      counts stay right only if there are none. */
  ghost function FreeContext(s: State): State {
    s.(stack := [])
  }

  lemma FreeContextLeaks(s: State)
    requires Balanced(s) && Bounded(s)
    ensures Balanced(FreeContext(s)) <==> forall c :: c in s.stack ==> !NamesString(c)
  {
    var t := FreeContext(s);
    assert Named(s) == multiset(s.stack) + Named(t);
    if forall c :: c in s.stack ==> !NamesString(c) {
      forall a: nat ensures CountOf(Named(s), a) == CountOf(Named(t), a) {
        assert Val(String(a)) !in s.stack;
        assert multiset(s.stack)[Val(String(a))] == 0;
      }
      SameReferences(s.heap, Named(s), Named(t));
    }
    if c :| c in s.stack && NamesString(c) {
      var a := c.v.address;
      assert multiset(s.stack)[c] > 0;
      assert Counted(s.heap, Named(s), a);
      assert CountOf(Named(t), a) < CountOf(Named(s), a) <= COUNTS - 1;
      assert !Counted(t.heap, Named(t), a);
    }
  }
}

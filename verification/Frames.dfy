/** Call frames: what CALL saves, RETURN restores, whatever happens in between. */
module Frames {
  import opened Machine
  import opened References
  import opened Scalars
  import opened Strings
  import opened Wrappers

  /** Frames on the stack, from the current one down: values only above fp, the three
      saved cells below it, and the caller's frame below those. */
  ghost predicate Framed(stack: seq<Cell>, fp: nat)
    decreases |stack|
  {
    && 1 <= fp <= |stack|
    && (forall k :: fp <= k < |stack| ==> stack[k].Val?)
    && if fp == 1 then stack[0] == Unused else Saved(stack, fp) && Framed(stack[..fp - 3], stack[fp - 3].fp)
  }

  ghost predicate Saved(stack: seq<Cell>, fp: nat) {
    && 4 <= fp <= |stack|
    && stack[fp - 3].SavedFp? && stack[fp - 2].SavedIp? && stack[fp - 1].SavedObj?
    && stack[fp - 3].fp <= fp - 3
  }

  /** What the current frame gives a handler to rely on. */
  lemma FrameFacts(stack: seq<Cell>, fp: nat)
    requires Framed(stack, fp)
    ensures 1 <= fp <= |stack| && (forall k :: fp <= k < |stack| ==> stack[k].Val?) && (fp > 1 ==> Saved(stack, fp))
  {
  }

  lemma TopKeepsFrames(stack: seq<Cell>, other: seq<Cell>, fp: nat)
    requires Framed(stack, fp) && fp <= |other| && other[..fp] == stack[..fp]
    requires forall k :: fp <= k < |other| ==> other[k].Val?
    ensures Framed(other, fp)
  {
    assert forall k :: 0 <= k < fp ==> other[k] == other[..fp][k] == stack[..fp][k] == stack[k];
    if fp > 1 {
      assert other[..fp - 3] == stack[..fp - 3];
    }
  }

  /** Instructions other than CALL and RETURN leave the frame alone and change nothing
      below it. */
  predicate Stays(i: Instr) {
    !i.Call? && !i.Return?
  }

  ghost predicate KeepsBelow(s: State, t: State) {
    && t.fp == s.fp && t.obj == s.obj && s.fp <= |t.stack| && s.fp <= |s.stack|
    && (forall k :: 0 <= k < s.fp ==> t.stack[k] == s.stack[k])
    && (forall k :: s.fp <= k < |t.stack| ==> t.stack[k].Val?)
  }

  lemma StaysBelow(s: State, i: Instr)
    requires s.fp <= |s.stack| && (forall k :: s.fp <= k < |s.stack| ==> s.stack[k].Val?)
    requires Stays(i) && Act(s, i).Running?
    ensures KeepsBelow(s, Act(s, i).s)
  {
    hide Unary, Binary, DropCells, DropCell, IncRef, DecRef, MakeString, FindSlot, CString, Text, Texts;
    hide FindSyscall, Global, StringReg;
  }

  lemma StaysInFrame(s: State, i: Instr)
    requires Framed(s.stack, s.fp) && Stays(i) && Exec(s, i).Running?
    ensures var t := Exec(s, i).s;
      && t.fp == s.fp && t.obj == s.obj && t.fp <= |t.stack| && t.stack[..s.fp] == s.stack[..s.fp]
      && Framed(t.stack, t.fp)
  {
    hide Act;
    var t := Exec(s, i).s;
    StaysBelow(s.(ip := s.ip + Size(i)), i);
    assert t.stack[..s.fp] == s.stack[..s.fp];
    TopKeepsFrames(s.stack, t.stack, s.fp);
  }

  lemma CallOpens(s: State, nargs: nat, entry: Option<int>)
    requires Framed(s.stack, s.fp) && Exec(s, Call(nargs, entry)).Running?
    ensures var t, slot := Exec(s, Call(nargs, entry)).s, |s.stack| - nargs - 3;
      && s.fp <= slot && t.fp == slot + 3 && |t.stack| == |s.stack| && Framed(t.stack, t.fp)
      && t.stack[..slot] == s.stack[..slot]
      && t.stack[slot] == SavedFp(s.fp) && t.stack[slot + 1] == SavedIp(s.ip + 2)
      && t.stack[slot + 2] == SavedObj(s.obj)
      && t.stack[t.fp..] == s.stack[t.fp..]
  {
    var t, slot := Exec(s, Call(nargs, entry)).s, |s.stack| - nargs - 3;
    assert t.stack[..slot] == s.stack[..slot];
    TopKeepsFrames(s.stack, s.stack[..slot], s.fp);
  }

  lemma ReturnCloses(s: State, reg: nat)
    requires Framed(s.stack, s.fp) && Exec(s, Return(reg)).Running?
    ensures var t := Exec(s, Return(reg)).s;
      Framed(t.stack, t.fp) && t.fp <= s.fp - 3 && t.stack[..s.fp - 3] == s.stack[..s.fp - 3]
  {
    var t, low := Exec(s, Return(reg)).s, s.stack[..s.fp - 3];
    assert Framed(low, s.stack[s.fp - 3].fp);
    TopKeepsFrames(low, low + [Val(Reg(s, reg))], t.fp);
  }

  /** Every instruction keeps the frames in shape. */
  lemma FramesKept(s: State, i: Instr)
    requires Framed(s.stack, s.fp) && Exec(s, i).Running?
    ensures Framed(Exec(s, i).s.stack, Exec(s, i).s.fp)
  {
    if i.Call? {
      CallOpens(s, i.nargs, i.entry);
    } else if i.Return? {
      ReturnCloses(s, i.reg);
    } else {
      StaysInFrame(s, i);
    }
  }

  /** The same for what a handler does once ip is past its operands. */
  lemma HandlerKeepsFrames(s: State, i: Instr)
    requires Framed(s.stack, s.fp) && !Act(s, i).Raised?
    ensures Framed(Act(s, i).s.stack, Act(s, i).s.fp)
  {
    var before := s.(ip := s.ip - Size(i));
    assert Exec(before, i) == Act(s, i) by {
      hide Act, Size;
    }
    hide Act, Exec, Framed;
    if Act(s, i).Running? {
      FramesKept(before, i);
    } else {
      HaltKeepsFrames(s, i);
    }
  }

  /** A handler that does not go on either changes nothing or empties the outermost frame. */
  lemma HaltKeepsFrames(s: State, i: Instr)
    requires Framed(s.stack, s.fp) && !Act(s, i).Raised? && !Act(s, i).Running?
    ensures Framed(Act(s, i).s.stack, Act(s, i).s.fp)
  {
  }

  lemma HostKeepsFrames(s: State, h: HostAct)
    requires Framed(s.stack, s.fp) && HostMay(s, h)
    ensures Framed(HostDo(s, h).stack, s.fp) && HostDo(s, h).fp == s.fp
  {
    if h.PushArg? {
      TopKeepsFrames(s.stack, s.stack + [Val(h.v)], s.fp);
    }
  }

  /** Over every run: below the unused cell nothing, above it frames. In particular HALT
      in the outermost frame never meets a saved cell. */
  lemma {:induction false} RunFramed(s: State, es: seq<Event>)
    requires Framed(s.stack, s.fp) && Runs(s, es)
    ensures Framed(After(s, es).stack, After(s, es).fp)
    decreases |es|
  {
    if es != [] {
      match es[0] {
        case Op(i) => FramesKept(s, i);
        case Host(h) => HostKeepsFrames(s, h);
      }
      RunFramed(Do(s, es[0]), es[1..]);
    }
  }

  /** base is the fp of the current frame or of one that waits below it. */
  ghost predicate OnChain(stack: seq<Cell>, fp: nat, base: nat)
    decreases |stack|
  {
    fp == base || (fp > base && Saved(stack, fp) && OnChain(stack[..fp - 3], stack[fp - 3].fp, base))
  }

  lemma ChainAbove(stack: seq<Cell>, fp: nat, base: nat)
    requires OnChain(stack, fp, base)
    ensures fp >= base && (fp > base ==> fp - 3 >= base)
    decreases |stack|
  {
    if fp > base {
      ChainAbove(stack[..fp - 3], stack[fp - 3].fp, base);
    }
  }

  lemma TopKeepsChain(stack: seq<Cell>, other: seq<Cell>, fp: nat, base: nat)
    requires OnChain(stack, fp, base) && fp <= |stack| && fp <= |other| && other[..fp] == stack[..fp]
    ensures OnChain(other, fp, base)
  {
    assert forall k :: 0 <= k < fp ==> other[k] == other[..fp][k] == stack[..fp][k] == stack[k];
    if fp > base {
      assert other[..fp - 3] == stack[..fp - 3];
    }
  }

  /** A run inside the frame at base and the calls it makes: the frame itself never
      returns. */
  ghost predicate Inside(s: State, ops: seq<Instr>, base: nat)
    decreases |ops|
  {
    ops == [] || (
      && !(ops[0].Return? && s.fp == base)
      && Exec(s, ops[0]).Running?
      && Inside(Exec(s, ops[0]).s, ops[1..], base))
  }

  ghost function Final(s: State, ops: seq<Instr>, base: nat): State
    requires Inside(s, ops, base)
    decreases |ops|
  {
    if ops == [] then s else Final(Exec(s, ops[0]).s, ops[1..], base)
  }

  lemma Shorter<T>(x: seq<T>, y: seq<T>, n: nat, m: nat)
    requires m <= n <= |x| && n <= |y| && x[..n] == y[..n]
    ensures x[..m] == y[..m]
  {
    assert x[..m] == x[..n][..m] && y[..m] == y[..n][..m];
  }

  lemma CallInside(s: State, nargs: nat, entry: Option<int>, base: nat)
    requires Framed(s.stack, s.fp) && OnChain(s.stack, s.fp, base) && Exec(s, Call(nargs, entry)).Running?
    ensures var t := Exec(s, Call(nargs, entry)).s;
      OnChain(t.stack, t.fp, base) && base <= |t.stack| && t.stack[..base] == s.stack[..base]
  {
    hide Exec, Framed;
    var t, slot := Exec(s, Call(nargs, entry)).s, |s.stack| - nargs - 3;
    CallOpens(s, nargs, entry);
    ChainAbove(s.stack, s.fp, base);
    Shorter(t.stack, s.stack, slot, base);
    Shorter(t.stack, s.stack, slot, s.fp);
    var low := t.stack[..slot];
    assert low[..s.fp] == s.stack[..s.fp];
    TopKeepsChain(s.stack, low, s.fp, base);
  }

  lemma ReturnInside(s: State, reg: nat, base: nat)
    requires Framed(s.stack, s.fp) && OnChain(s.stack, s.fp, base) && s.fp != base
    requires Exec(s, Return(reg)).Running?
    ensures var t := Exec(s, Return(reg)).s;
      OnChain(t.stack, t.fp, base) && base <= |t.stack| && t.stack[..base] == s.stack[..base]
  {
    var t := Exec(s, Return(reg)).s;
    ChainAbove(s.stack, s.fp, base);
    ReturnCloses(s, reg);
    assert t.fp == s.stack[s.fp - 3].fp;
    hide Exec;
    Shorter(t.stack, s.stack, s.fp - 3, base);
    var low := s.stack[..s.fp - 3];
    TopKeepsChain(low, t.stack, t.fp, base);
  }

  lemma FramedFits(s: State)
    requires Framed(s.stack, s.fp)
    ensures s.fp <= |s.stack|
  {
  }

  lemma StepInside(s: State, i: Instr, base: nat)
    requires Framed(s.stack, s.fp) && OnChain(s.stack, s.fp, base) && base <= |s.stack|
    requires Exec(s, i).Running? && !(i.Return? && s.fp == base)
    ensures var t := Exec(s, i).s;
      && Framed(t.stack, t.fp) && OnChain(t.stack, t.fp, base)
      && base <= |t.stack| && t.stack[..base] == s.stack[..base]
  {
    hide Exec, Framed, OnChain;
    FramesKept(s, i);
    if i.Call? {
      CallInside(s, i.nargs, i.entry, base);
    } else if i.Return? {
      ReturnInside(s, i.reg, base);
    } else {
      StaysInFrame(s, i);
      ChainAbove(s.stack, s.fp, base);
      FramedFits(s);
      var t := Exec(s, i).s;
      TopKeepsChain(s.stack, t.stack, s.fp, base);
      Shorter(t.stack, s.stack, s.fp, base);
    }
  }

  /** Whatever runs inside a frame, nested calls included, changes nothing below it. */
  lemma {:induction false} BelowUntouched(s: State, ops: seq<Instr>, base: nat)
    requires Framed(s.stack, s.fp) && OnChain(s.stack, s.fp, base) && base <= |s.stack| && Inside(s, ops, base)
    ensures var t := Final(s, ops, base);
      && Framed(t.stack, t.fp) && OnChain(t.stack, t.fp, base)
      && base <= |t.stack| && t.stack[..base] == s.stack[..base]
    decreases |ops|
  {
    if ops != [] {
      StepInside(s, ops[0], base);
      BelowUntouched(Exec(s, ops[0]).s, ops[1..], base);
    }
  }

  /** RETURN undoes what CALL saved. */
  lemma ReturnRestores(r: State, reg: nat, slot: nat, fp: nat, ip: int, obj: nat)
    requires r.fp == slot + 3 <= |r.stack| && Exec(r, Return(reg)).Running?
    requires r.stack[slot] == SavedFp(fp) && r.stack[slot + 1] == SavedIp(ip) && r.stack[slot + 2] == SavedObj(obj)
    ensures InFrame(r, reg)
    ensures var t := Exec(r, Return(reg)).s;
      t.fp == fp && t.ip == ip && t.obj == obj && t.stack == r.stack[..slot] + [Val(Reg(r, reg))]
  {
  }

  /** Frame balance: a call, anything inside it, and the RETURN of its frame restore the
      caller's frame, object and return address, leave the cells below the callee's slot
      as they were, and put the returned value in that slot, on top of the stack. */
  lemma CallReturns(s: State, nargs: nat, entry: Option<int>, ops: seq<Instr>, reg: nat)
    requires Framed(s.stack, s.fp) && Exec(s, Call(nargs, entry)).Running?
    requires var c := Exec(s, Call(nargs, entry)).s;
      Inside(c, ops, c.fp) && Final(c, ops, c.fp).fp == c.fp && Exec(Final(c, ops, c.fp), Return(reg)).Running?
    ensures var c := Exec(s, Call(nargs, entry)).s;
      var r := Final(c, ops, c.fp);
      var t := Exec(r, Return(reg)).s;
      && t.fp == s.fp && t.obj == s.obj && t.ip == s.ip + 2
      && s.fp <= |s.stack| - nargs - 3 && InFrame(r, reg)
      && t.stack == s.stack[..|s.stack| - nargs - 3] + [Val(Reg(r, reg))]
  {
    hide Exec, Inside, Final, Framed;
    var slot := |s.stack| - nargs - 3;
    CallOpens(s, nargs, entry);
    var c := Exec(s, Call(nargs, entry)).s;
    OwnChain(c);
    BelowUntouched(c, ops, c.fp);
    var r := Final(c, ops, c.fp);
    Shorter(r.stack, c.stack, slot + 3, slot);
    assert forall k :: slot <= k < slot + 3 ==>
      r.stack[k] == r.stack[..slot + 3][k] == c.stack[..slot + 3][k] == c.stack[k];
    ReturnRestores(r, reg, slot, s.fp, s.ip + 2, s.obj);
  }

  lemma OwnChain(c: State)
    ensures OnChain(c.stack, c.fp, c.fp)
    ensures Framed(c.stack, c.fp) ==> c.fp <= |c.stack|
  {
  }

  /** The caller's registers are among the cells below the slot. */
  lemma CallerKeepsRegisters(s: State, nargs: nat, entry: Option<int>, ops: seq<Instr>, reg: nat, k: nat)
    requires Framed(s.stack, s.fp) && Exec(s, Call(nargs, entry)).Running?
    requires var c := Exec(s, Call(nargs, entry)).s;
      Inside(c, ops, c.fp) && Final(c, ops, c.fp).fp == c.fp && Exec(Final(c, ops, c.fp), Return(reg)).Running?
    requires s.fp + k < |s.stack| - nargs - 3
    ensures var c := Exec(s, Call(nargs, entry)).s;
      var t := Exec(Final(c, ops, c.fp), Return(reg)).s;
      InFrame(s, k) && InFrame(t, k) && Reg(t, k) == Reg(s, k)
  {
    hide Exec, Inside, Final;
    CallReturns(s, nargs, entry, ops, reg);
  }
}

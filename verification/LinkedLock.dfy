/** One lock as the linked structure it is: wait groups chained from the first, which
    holds the lock, to the last, which new requests join. */
module LinkedLock {
  import opened LockQueue
  import opened Sequences

  class WaitGroup {
    var mode: Mode
    var entries: seq<nat>
    var next: WaitGroup?

    constructor (mode: Mode, tx: nat)
      ensures this.mode == mode && entries == [tx] && next == null
    {
      this.mode := mode;
      entries := [tx];
      next := null;
    }
  }

  /** The group behind position i of a chain, if any. */
  ghost function Successor(gs: seq<WaitGroup>, i: nat): WaitGroup? {
    if i + 1 < |gs| then gs[i + 1] else null
  }

  class Lock {
    var firstWaitGroup: WaitGroup?
    var lastWaitGroup: WaitGroup?
    ghost var groups: seq<WaitGroup>

    /** The chain runs through all groups, and the last pointer names the final one. */
    ghost predicate Valid()
      reads this, groups
    {
      && (forall i, j :: 0 <= i < j < |groups| ==> groups[i] != groups[j])
      && (groups == [] ==> firstWaitGroup == null && lastWaitGroup == null)
      && (groups != [] ==> firstWaitGroup == groups[0] && lastWaitGroup == groups[|groups| - 1])
      && (forall i :: 0 <= i < |groups| ==>
            groups[i].next == Successor(groups, i))
    }

    ghost function Content(): Queue
      reads this, groups
    {
      seq(|groups|, i requires 0 <= i < |groups| reads this, groups => Group(groups[i].mode, groups[i].entries))
    }

    constructor ()
      ensures Valid() && Content() == []
    {
      firstWaitGroup, lastWaitGroup, groups := null, null, [];
    }

    /** The position of tx in a group's entries, found by scanning; -1 when absent. */
    static method Find(entries: seq<nat>, tx: nat) returns (idx: int)
      ensures idx == -1 <==> tx !in entries
      ensures idx != -1 ==> 0 <= idx < |entries| && entries[idx] == tx && tx !in entries[..idx]
    {
      for i := 0 to |entries|
        invariant tx !in entries[..i]
      {
        if entries[i] == tx {
          return i;
        }
      }
      return -1;
    }

    /** Put a new group behind the last one, or make it the only one. */
    method Append(mode: Mode, tx: nat)
      requires Valid()
      modifies this, groups
      ensures Valid() && Content() == old(Content()) + [Group(mode, [tx])]
    {
      var nwg := new WaitGroup(mode, tx);
      if lastWaitGroup == null {
        firstWaitGroup := nwg;
      } else {
        lastWaitGroup.next := nwg;
      }
      lastWaitGroup := nwg;
      groups := groups + [nwg];
    }

    /** lock_lock, up to the point where the caller goes to sleep. */
    method Request(mode: Mode, tx: nat) returns (answer: Answer)
      requires Valid() && WellFormed(Content())
      modifies this, groups
      ensures Valid()
      ensures (Content(), answer) == LockQueue.Request(old(Content()), mode, tx)
    {
      // case A: nobody holds the lock
      if firstWaitGroup == null {
        assert Content() == [];
        Append(mode, tx);
        assert Content() == [Group(mode, [tx])];
        return Taken;
      }
      ghost var q := Content();
      assert q[0] == Group(firstWaitGroup.mode, firstWaitGroup.entries);
      assert q[|q| - 1] == Group(lastWaitGroup.mode, lastWaitGroup.entries);
      var held := Find(firstWaitGroup.entries, tx);
      // case B: held already in this mode or a higher one
      if (firstWaitGroup.mode == mode || firstWaitGroup.mode == Exclusive) && held != -1 {
        return Taken;
      }
      // case C: a shared request joins a shared group at the end
      if mode == Shared && lastWaitGroup.mode == Shared {
        lastWaitGroup.entries := lastWaitGroup.entries + [tx];
        assert Content() == q[|q| - 1 := Group(Shared, q[|q| - 1].entries + [tx])];
        return if lastWaitGroup == firstWaitGroup then Taken else Wait;
      }
      // case D: an upgrade, stale, in place or queued
      if mode == Exclusive && firstWaitGroup.mode == Shared && held != -1 {
        if firstWaitGroup != lastWaitGroup {
          return Stale;
        }
        assert |groups| == 1;
        if |firstWaitGroup.entries| == 1 {
          firstWaitGroup.mode := Exclusive;
          assert groups[0] == firstWaitGroup && groups[0].next == null;
          assert Content() == [Group(Exclusive, q[0].entries)];
          return Taken;
        }
      }
      // case E: wait in a group of its own
      Append(mode, tx);
      return Wait;
    }

    /** lock_unlock on the queue: leave the head group, and hand the lock on when it is
        empty or its only member waits right behind it for the exclusive mode. */
    method Release(tx: nat)
      requires Valid() && WellFormed(Content())
      modifies this, groups
      ensures Valid() && Content() == LockQueue.Release(old(Content()), tx)
    {
      if firstWaitGroup == null {
        assert Content() == [];
        return;
      }
      ghost var q := Content();
      ghost var head := groups[0];
      assert head.next == Successor(groups, 0);
      assert q[0] == Group(firstWaitGroup.mode, firstWaitGroup.entries);
      var idx := Find(firstWaitGroup.entries, tx);
      if idx == -1 {
        return;
      }
      var es := firstWaitGroup.entries;
      RemoveAt(es, tx, idx);
      firstWaitGroup.entries := es[..idx] + es[idx + 1..];
      ghost var rest := Remove(q[0].entries, tx);
      assert forall i :: 0 < i < |groups| ==> groups[i] != head;
      assert Valid();
      assert Content() == q[0 := Group(q[0].mode, rest)];
      if |firstWaitGroup.entries| == 0 {
        DropFirst();
      } else if |firstWaitGroup.entries| == 1 {
        var next := firstWaitGroup.next;
        if next != null {
          assert q[1] == Group(next.mode, next.entries) && GroupOk(q[1]);
          if firstWaitGroup.mode == Shared && next.mode == Exclusive && firstWaitGroup.entries[0] == next.entries[0] {
            DropFirst();
          }
        }
      }
    }

    method DropFirst()
      requires Valid() && groups != []
      modifies this
      ensures Valid() && Content() == old(Content())[1..] && groups == old(groups)[1..]
    {
      assert groups[0].next == Successor(groups, 0);
      assert forall i :: 0 <= i < |groups| - 1 ==> groups[1..][i] == groups[i + 1];
      firstWaitGroup := firstWaitGroup.next;
      if firstWaitGroup == null {
        lastWaitGroup := null;
      }
      groups := groups[1..];
    }

    /** The group tx waits in, the one in front of it, and its place there. */
    method FindWaiting(tx: nat) returns (prev: WaitGroup, wg: WaitGroup, idx: int)
      requires Valid() && WellFormed(Content()) && tx in Waiting(Content())
      ensures var k := GroupIndex(Content(), tx, 1);
        1 <= k < |groups| && prev == groups[k - 1] && wg == groups[k]
      ensures 0 <= idx < |wg.entries| && wg.entries[idx] == tx && tx !in wg.entries[..idx]
    {
      ghost var q := Content();
      WaitingIndex(q, tx);
      ghost var k := GroupIndex(q, tx, 1);
      ContentAt();
      hide WellFormed, Waiting, Content;
      assert groups[0].next == groups[1];
      prev := firstWaitGroup;
      wg := firstWaitGroup.next;
      ghost var i := 1;
      idx := Find(wg.entries, tx);
      assert q[1] == Group(groups[1].mode, groups[1].entries);
      while idx == -1
        invariant 1 <= i <= k < |groups| && prev == groups[i - 1] && wg == groups[i]
        invariant idx == -1 <==> tx !in wg.entries
        invariant idx != -1 ==> 0 <= idx < |wg.entries| && wg.entries[idx] == tx && tx !in wg.entries[..idx]
        decreases k - i
      {
        assert q[i] == Group(groups[i].mode, groups[i].entries);
        assert groups[i].next == groups[i + 1];
        prev := wg;
        wg := wg.next;
        i := i + 1;
        assert q[i] == Group(groups[i].mode, groups[i].entries);
        idx := Find(wg.entries, tx);
      }
      assert q[i] == Group(groups[i].mode, groups[i].entries);
    }

    /** A faulted transaction leaves the group it waits in. An emptied group is taken
        out of the chain, and the last pointer moves back when it was the final one. */
    method Withdraw(tx: nat)
      requires Valid() && WellFormed(Content()) && tx in Waiting(Content())
      modifies this, groups
      ensures Valid() && Content() == LockQueue.Withdraw(old(Content()), tx)
    {
      ghost var q := Content();
      ghost var k := GroupIndex(q, tx, 1);
      var prev, wg, idx := FindWaiting(tx);
      ContentAt();
      WithdrawCases(q, k, tx);
      hide WellFormed, Waiting, GroupIndex, Content, LockQueue.Withdraw;
      RemoveAt(wg.entries, tx, idx);
      SetEntries(wg, wg.entries[..idx] + wg.entries[idx + 1..], k);
      assert Content() == q[k := Group(q[k].mode, Remove(q[k].entries, tx))];
      if |wg.entries| == 0 {
        Unchain(prev, wg, k);
      }
    }

    method SetEntries(wg: WaitGroup, entries: seq<nat>, ghost k: nat)
      requires Valid() && k < |groups| && groups[k] == wg
      modifies wg`entries
      ensures Valid() && wg.entries == entries && Content() == old(Content())[k := Group(wg.mode, entries)]
    {
      wg.entries := entries;
    }

    /** Take the group behind prev out of the chain. */
    method Unchain(prev: WaitGroup, wg: WaitGroup, ghost k: nat)
      requires Valid() && 1 <= k < |groups| && prev == groups[k - 1] && wg == groups[k]
      modifies this, prev`next
      ensures Valid() && Content() == Without(old(Content()), k)
    {
      hide Content, Without, Successor;
      ghost var gs, q := groups, Content();
      ContentAt();
      CutEnds(gs, k);
      prev.next := wg.next;
      lastWaitGroup := if lastWaitGroup == wg then prev else lastWaitGroup;
      groups := Without(gs, k);
      ContentAt();
      forall i | 0 <= i < |groups|
        ensures groups[i].next == Successor(groups, i) && Content()[i] == q[if i < k then i else i + 1]
      {
        CutSuccessor(gs, k, i);
      }
      assert Content() == Without(q, k);
    }

    lemma ContentAt()
      ensures |Content()| == |groups|
      ensures forall i :: 0 <= i < |groups| ==> Content()[i] == Group(groups[i].mode, groups[i].entries)
    {
    }
  }

  lemma WithdrawCases(q: Queue, k: nat, tx: nat)
    requires 1 <= k < |q| && k == GroupIndex(q, tx, 1)
    ensures var rest := Remove(q[k].entries, tx);
      var q1 := q[k := Group(q[k].mode, rest)];
      Withdraw(q, tx) == if |rest| == 0 then Without(q1, k) else q1
  {
    hide GroupIndex;
    var q1 := q[k := Group(q[k].mode, [])];
    assert q1[..k] == q[..k] && q1[k + 1..] == q[k + 1..];
  }

  lemma CutSuccessor(gs: seq<WaitGroup>, k: nat, i: nat)
    requires 1 <= k < |gs| && i < |gs| - 1 && forall m, n :: 0 <= m < n < |gs| ==> gs[m] != gs[n]
    ensures var rest, j := Without(gs, k), if i < k then i else i + 1;
      && rest[i] == gs[j] && (gs[j] == gs[k - 1] <==> j == k - 1)
      && Successor(rest, i) == if j == k - 1 then Successor(gs, k) else Successor(gs, j)
  {
  }

  lemma CutEnds(gs: seq<WaitGroup>, k: nat)
    requires 1 <= k < |gs| && forall m, n :: 0 <= m < n < |gs| ==> gs[m] != gs[n]
    ensures var rest := Without(gs, k);
      && rest[0] == gs[0] && rest[|rest| - 1] == (if k == |gs| - 1 then gs[k - 1] else gs[|gs| - 1])
      && (forall m, n :: 0 <= m < n < |rest| ==> rest[m] != rest[n])
      && (forall g :: g in rest ==> g in gs)
  {
  }

  /** The code takes a group out of the chain without touching the last pointer
      (src/lock.c:308-317). The pointer then still names the final group exactly when
      the group taken out was not the final one. */
  lemma LastDangles(gs: seq<WaitGroup>, k: nat)
    requires 1 <= k < |gs| && forall i, j :: 0 <= i < j < |gs| ==> gs[i] != gs[j]
    ensures gs[|gs| - 1] == Without(gs, k)[|gs| - 2] <==> k + 1 < |gs|
  {
  }
}

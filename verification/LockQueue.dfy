/** One lock: a FIFO queue of wait groups. The first group holds the lock, the
    groups behind it wait. A transaction is named by its small id. */
module LockQueue {
  import opened Sequences

  datatype Mode = Shared | Exclusive
  datatype Group = Group(mode: Mode, entries: seq<nat>)
  type Queue = seq<Group>

  /** What a request answers: granted, must wait, or refused as stale. */
  datatype Answer = Taken | Wait | Stale

  // ----- the three operations on a queue -----

  function Request(q: Queue, mode: Mode, tx: nat): (Queue, Answer) {
    if q == [] then
      ([Group(mode, [tx])], Taken)
    else if (q[0].mode == mode || q[0].mode == Exclusive) && tx in q[0].entries then
      (q, Taken)
    else if mode == Shared && q[|q| - 1].mode == Shared then
      (q[|q| - 1 := Group(Shared, q[|q| - 1].entries + [tx])], if |q| == 1 then Taken else Wait)
    else if mode == Exclusive && q[0].mode == Shared && tx in q[0].entries && |q| > 1 then
      (q, Stale)
    else if mode == Exclusive && q[0].mode == Shared && tx in q[0].entries && |q[0].entries| == 1 then
      ([Group(Exclusive, q[0].entries)], Taken)
    else
      (q + [Group(mode, [tx])], Wait)
  }

  /** Whether the single member left in a shared head waits right behind it for the
      exclusive mode. */
  predicate Promotes(q: Queue, rest: seq<nat>) {
    |rest| == 1 && |q| > 1 && q[0].mode == Shared && q[1].mode == Exclusive
    && |q[1].entries| > 0 && rest[0] == q[1].entries[0]
  }

  function Release(q: Queue, tx: nat): Queue {
    if q == [] || tx !in q[0].entries then q
    else
      var rest := Remove(q[0].entries, tx);
      if rest == [] || Promotes(q, rest) then q[1..]
      else q[0 := Group(q[0].mode, rest)]
  }

  /** The first group at or behind i that tx is in; |q| when there is none. */
  function GroupIndex(q: Queue, tx: nat, i: nat): (k: nat)
    requires i <= |q|
    ensures i <= k <= |q|
    ensures k < |q| ==> tx in q[k].entries
    ensures forall j :: i <= j < k ==> tx !in q[j].entries
    decreases |q| - i
  {
    if i == |q| || tx in q[i].entries then i else GroupIndex(q, tx, i + 1)
  }

  /** Take a faulted transaction out of the group it waits in; an emptied group
      disappears. */
  function Withdraw(q: Queue, tx: nat): Queue {
    if q == [] then q
    else
      var k := GroupIndex(q, tx, 1);
      if k == |q| then q
      else
        var rest := Remove(q[k].entries, tx);
        if rest == [] then q[..k] + q[k + 1..] else q[k := Group(q[k].mode, rest)]
  }

  // ----- who holds and who waits -----

  function Holding(q: Queue): set<nat> {
    if q == [] then {} else set x | x in q[0].entries
  }

  function Waiting(q: Queue): set<nat> {
    set i, x | 1 <= i < |q| && x in q[i].entries :: x
  }

  function Members(q: Queue): set<nat> {
    Holding(q) + Waiting(q)
  }

  predicate HeldExclusive(q: Queue) {
    q != [] && q[0].mode == Exclusive
  }

  /** x waits in q in a group of this mode. */
  predicate WaitsAs(q: Queue, x: nat, mode: Mode) {
    exists i :: 1 <= i < |q| && x in q[i].entries && q[i].mode == mode
  }

  // ----- the shape of a reachable queue -----

  predicate GroupOk(g: Group) {
    && g.entries != []
    && Distinct(g.entries)
    && (g.mode == Exclusive ==> |g.entries| == 1)
  }

  /** No transaction waits in two groups. */
  predicate WaitsOnce(q: Queue) {
    forall i, j, x :: 1 <= i < j < |q| && x in q[i].entries ==> x !in q[j].entries
  }

  /** The only transaction that holds and waits at once is one upgrading: it shares
      the head with others and is alone in the exclusive group right behind it. */
  predicate UpgradesOnly(q: Queue) {
    forall j, x :: 1 <= j < |q| && x in q[0].entries && x in q[j].entries ==>
      j == 1 && q[0].mode == Shared && q[1] == Group(Exclusive, [x]) && |q[0].entries| >= 2
  }

  predicate WellFormed(q: Queue) {
    && (forall i :: 0 <= i < |q| ==> GroupOk(q[i]))
    && WaitsOnce(q)
    && UpgradesOnly(q)
  }

  /** No two neighbouring groups are both shared. */
  predicate NoSharedPair(q: Queue) {
    forall i :: 0 <= i < |q| - 1 ==> q[i].mode == Exclusive || q[i + 1].mode == Exclusive
  }

  // ----- requests -----

  lemma RequestShape(q: Queue, mode: Mode, tx: nat)
    requires WellFormed(q) && tx !in Waiting(q)
    ensures WellFormed(Request(q, mode, tx).0)
    ensures NoSharedPair(q) ==> NoSharedPair(Request(q, mode, tx).0)
  {
    var q' := Request(q, mode, tx).0;
    forall i | 0 <= i < |q'| ensures GroupOk(q'[i]) {
      if i < |q| {
        assert GroupOk(q[i]);
        assert i >= 1 ==> tx !in q[i].entries;
      }
    }
    forall i, x | 1 <= i < |q| && x in q[i].entries ensures x != tx {
    }
  }

  /** What each answer means for holders and waiters. */
  lemma RequestEffect(q: Queue, mode: Mode, tx: nat)
    requires WellFormed(q) && tx !in Waiting(q)
    ensures Request(q, mode, tx).1 == Taken ==>
      var q' := Request(q, mode, tx).0;
      && Holding(q') == Holding(q) + {tx} && Waiting(q') == Waiting(q)
      && (mode == Exclusive ==> HeldExclusive(q') && Holding(q') == {tx})
      && (HeldExclusive(q) ==> q' == q)
    ensures Request(q, mode, tx).1 == Wait ==>
      var q' := Request(q, mode, tx).0;
      && q != [] && q' != [] && q'[0] == q[0] && Waiting(q') == Waiting(q) + {tx}
      && WaitsAs(q', tx, mode) && Holding(q) - {tx} != {}
      && (forall x, m :: WaitsAs(q, x, m) ==> WaitsAs(q', x, m))
    ensures Request(q, mode, tx).1 == Stale ==>
      Request(q, mode, tx).0 == q && mode == Exclusive && tx in Holding(q)
  {
    var (q', a) := Request(q, mode, tx);
    if a == Wait {
      WaitEffect(q, mode, tx);
    } else if q != [] {
      assert GroupOk(q[0]);
      if a == Taken && mode == Shared && q' != q {
        assert Waiting(q') == {} == Waiting(q);
      }
    }
  }

  lemma WaitEffect(q: Queue, mode: Mode, tx: nat)
    requires WellFormed(q) && tx !in Waiting(q) && Request(q, mode, tx).1 == Wait
    ensures var q' := Request(q, mode, tx).0;
      && q != [] && q' != [] && q'[0] == q[0] && Waiting(q') == Waiting(q) + {tx}
      && WaitsAs(q', tx, mode) && Holding(q) - {tx} != {}
      && (forall x, m :: WaitsAs(q, x, m) ==> WaitsAs(q', x, m))
  {
    var q' := Request(q, mode, tx).0;
    assert GroupOk(q[0]);
    var k := |q'| - 1;
    assert tx in q'[k].entries && q'[k].mode == mode;
    assert forall i :: 0 <= i < k ==> q'[i] == q[i];
    forall x ensures x in Waiting(q') <==> x in Waiting(q) + {tx} {
      if x in Waiting(q) {
        var i :| 1 <= i < |q| && x in q[i].entries;
        assert x in q'[i].entries;
      }
    }
    forall x, m | WaitsAs(q, x, m) ensures WaitsAs(q', x, m) {
      var i :| 1 <= i < |q| && x in q[i].entries && q[i].mode == m;
      assert x in q'[i].entries && q'[i].mode == m;
    }
    if tx in q[0].entries {
      assert |q[0].entries| >= 2;
      assert q[0].entries[0] != q[0].entries[1];
    }
    var other := if q[0].entries[0] != tx then q[0].entries[0] else q[0].entries[1];
    assert other in Holding(q) - {tx};
  }

  // ----- releases -----

  lemma DropHead(q: Queue)
    requires WellFormed(q) && q != []
    ensures WellFormed(q[1..])
    ensures NoSharedPair(q) ==> NoSharedPair(q[1..])
  {
    var q' := q[1..];
    forall i | 0 <= i < |q'| ensures GroupOk(q'[i]) {
      assert GroupOk(q[i + 1]);
    }
    forall i, j, x | 0 <= i < j < |q'| && x in q'[i].entries ensures x !in q'[j].entries {
      assert x in q[i + 1].entries && q[j + 1] == q'[j];
    }
    if NoSharedPair(q) {
      forall i | 0 <= i < |q'| - 1 ensures q'[i].mode == Exclusive || q'[i + 1].mode == Exclusive {
        assert q[i + 1] == q'[i] && q[i + 1 + 1] == q'[i + 1];
      }
    }
  }

  lemma ShrinkHead(q: Queue, rest: seq<nat>)
    requires WellFormed(q) && q != [] && rest != [] && Distinct(rest) && |rest| < |q[0].entries|
    requires forall x :: x in rest ==> x in q[0].entries
    requires !Promotes(q, rest)
    ensures WellFormed(q[0 := Group(q[0].mode, rest)])
    ensures NoSharedPair(q) ==> NoSharedPair(q[0 := Group(q[0].mode, rest)])
  {
    var q' := q[0 := Group(q[0].mode, rest)];
    assert GroupOk(q[0]);
    forall i | 0 <= i < |q'| ensures GroupOk(q'[i]) {
      assert i > 0 ==> GroupOk(q[i]);
    }
    forall j, x | 1 <= j < |q'| && x in q'[0].entries && x in q'[j].entries
      ensures j == 1 && q'[0].mode == Shared && q'[1] == Group(Exclusive, [x]) && |rest| >= 2
    {
      assert x in q[0].entries && x in q[j].entries;
      assert q[1] == Group(Exclusive, [x]);
      assert x == rest[0] || |rest| >= 2;
    }
    assert WaitsOnce(q') by {
      forall i, j, x | 1 <= i < j < |q'| && x in q'[i].entries ensures x !in q'[j].entries {
        assert x in q[i].entries;
      }
    }
  }

  lemma ReleaseShape(q: Queue, tx: nat)
    requires WellFormed(q) && tx !in Waiting(q)
    ensures WellFormed(Release(q, tx))
    ensures NoSharedPair(q) ==> NoSharedPair(Release(q, tx))
  {
    if q != [] && tx in q[0].entries {
      assert GroupOk(q[0]);
      RemoveDistinct(q[0].entries, tx);
      var rest := Remove(q[0].entries, tx);
      if rest == [] || Promotes(q, rest) {
        DropHead(q);
      } else {
        ShrinkHead(q, rest);
      }
    }
  }

  /** Releasing takes the leaver out of the lock and everybody else stays: the rest
      of the head still holds, and whoever is newly granted came out of the waiters. */
  lemma ReleaseEffect(q: Queue, tx: nat)
    requires WellFormed(q) && tx !in Waiting(q)
    ensures var q' := Release(q, tx);
      && Members(q') == Members(q) - {tx}
      && Holding(q) - {tx} <= Holding(q')
      && Waiting(q') <= Waiting(q)
      && Holding(q') * Waiting(q') <= Holding(q) * Waiting(q)
      && (forall x :: x in Holding(q') && x !in Holding(q) ==> x !in Waiting(q'))
      && (forall x :: x in Waiting(q) && x !in Waiting(q') ==> x in Holding(q'))
      && (tx in Holding(q) || q' == q)
  {
    var q' := Release(q, tx);
    if q != [] && tx in q[0].entries {
      assert GroupOk(q[0]);
      RemoveDistinct(q[0].entries, tx);
      var rest := Remove(q[0].entries, tx);
      ReleaseShape(q, tx);
      if rest == [] || Promotes(q, rest) {
        assert forall i :: 0 <= i < |q'| ==> q'[i] == q[i + 1];
        forall x | x in Waiting(q') ensures x in Waiting(q) && x !in Holding(q') {
          var i :| 1 <= i < |q'| && x in q'[i].entries;
          assert x in q[i + 1].entries;
          assert x !in q[1].entries;
        }
        forall x | x in Waiting(q) ensures x in Members(q') {
          var i :| 1 <= i < |q| && x in q[i].entries;
          assert x in q'[i - 1].entries;
        }
        forall x | x in Holding(q') ensures x in Waiting(q) {
          assert x in q[1].entries;
        }
        forall x | x in Holding(q) - {tx} ensures x in Holding(q') {
          assert x in rest;
        }
      } else {
        assert forall i :: 1 <= i < |q'| ==> q'[i] == q[i];
        assert Waiting(q') == Waiting(q);
      }
    }
  }

  /** When a waiter is granted, the old head held nobody but the leaver and, in an
      upgrade, the granted transaction itself. */
  lemma GrantedAlone(q: Queue, tx: nat, x: nat)
    requires WellFormed(q) && tx !in Waiting(q) && x in Waiting(q)
    ensures x in Waiting(Release(q, tx)) || Holding(q) <= {tx, x}
  {
    var i :| 1 <= i < |q| && x in q[i].entries;
    if tx in q[0].entries {
      var rest := Remove(q[0].entries, tx);
      if rest == [] || Promotes(q, rest) {
        assert GroupOk(q[1]) && GroupOk(q[0]);
        if i > 1 {
          StillBehind(q[1..], i - 1, x);
        }
      } else {
        StillBehind(q[0 := Group(q[0].mode, rest)], i, x);
      }
    }
  }

  lemma StillBehind(q: Queue, i: nat, x: nat)
    requires 1 <= i < |q| && x in q[i].entries
    ensures x in Waiting(q)
  {
  }

  // ----- withdrawals -----

  /** The one group a blocked transaction waits in. */
  lemma WaitingGroup(q: Queue, tx: nat) returns (k: nat)
    requires WellFormed(q) && tx in Waiting(q)
    ensures k == GroupIndex(q, tx, 1) && 1 <= k < |q| && tx in q[k].entries && GroupOk(q[k])
    ensures forall j :: 1 <= j < |q| && j != k ==> tx !in q[j].entries
  {
    hide UpgradesOnly;
    k := GroupIndex(q, tx, 1);
    assert WaitsOnce(q) && GroupOk(q[k]);
  }

  /** A withdrawal, group by group. */
  lemma WithdrawGroups(q: Queue, tx: nat) returns (k: nat, rest: seq<nat>)
    requires WellFormed(q) && tx in Waiting(q)
    ensures 1 <= k < |q| && tx in q[k].entries && (forall j :: 1 <= j < |q| && j != k ==> tx !in q[j].entries)
    ensures (forall x :: x in rest <==> x in q[k].entries && x != tx) && Distinct(rest)
    ensures q[k].mode == Exclusive ==> rest == []
    ensures var q' := Withdraw(q, tx);
      if rest == [] then
        |q'| == |q| - 1 && forall i :: 0 <= i < |q'| ==> q'[i] == q[if i < k then i else i + 1]
      else
        |q'| == |q| && q'[k] == Group(q[k].mode, rest) && forall i :: 0 <= i < |q| && i != k ==> q'[i] == q[i]
  {
    hide WellFormed, GroupIndex, Remove;
    k := WaitingGroup(q, tx);
    RemoveDistinct(q[k].entries, tx);
    rest := Remove(q[k].entries, tx);
    assert Withdraw(q, tx) == if rest == [] then Without(q, k) else q[k := Group(q[k].mode, rest)];
    hide Withdraw, Without, Waiting;
  }

  lemma WithdrawShape(q: Queue, tx: nat)
    requires WellFormed(q) && tx in Waiting(q)
    ensures WellFormed(Withdraw(q, tx))
  {
    hide Withdraw, Waiting;
    var q' := Withdraw(q, tx);
    var k, rest := WithdrawGroups(q, tx);
    var from := (i: int) => if rest == [] && i >= k then i + 1 else i;
    forall i | 0 <= i < |q'| ensures GroupOk(q'[i]) && forall x :: x in q'[i].entries ==> x in q[from(i)].entries {
      assert GroupOk(q[from(i)]);
    }
    hide GroupOk;
    forall i, j, x | 1 <= i < j < |q'| && x in q'[i].entries ensures x !in q'[j].entries {
      assert x in q[from(i)].entries;
      assert x !in q[from(j)].entries;
    }
    forall j, x | 1 <= j < |q'| && x in q'[0].entries && x in q'[j].entries
      ensures j == 1 && q'[0].mode == Shared && q'[1] == Group(Exclusive, [x]) && |q'[0].entries| >= 2
    {
      UpgradeStays(q, q', k, rest, j, x);
    }
  }

  lemma UpgradeStays(q: Queue, q': Queue, k: nat, rest: seq<nat>, j: nat, x: nat)
    requires WellFormed(q) && 1 <= k < |q| && |q'| == (if rest == [] then |q| - 1 else |q|)
    requires rest != [] ==>
      q[k].mode == Shared && q'[k] == Group(Shared, rest) && forall y :: y in rest ==> y in q[k].entries
    requires forall i :: 0 <= i < |q'| && (rest == [] || i != k) ==>
      q'[i] == q[if rest == [] && i >= k then i + 1 else i]
    requires 1 <= j < |q'| && x in q'[0].entries && x in q'[j].entries
    ensures j == 1 && q'[0].mode == Shared && q'[1] == Group(Exclusive, [x]) && |q'[0].entries| >= 2
  {
    var m := if rest == [] && j >= k then j + 1 else j;
    assert q'[0] == q[0] && x in q[m].entries;
    assert m == 1 && q[1] == Group(Exclusive, [x]);
  }

  lemma CutSharedPair(q: Queue, k: nat)
    requires 1 <= k < |q| && NoSharedPair(q)
    ensures NoSharedPair(Without(q, k)) <==> !(q[k - 1].mode == Shared && k + 1 < |q| && q[k + 1].mode == Shared)
  {
    var q' := Without(q, k);
    if k + 1 < |q| && q[k - 1].mode == Shared && q[k + 1].mode == Shared {
      assert q'[k - 1] == q[k - 1] && q'[k - 1 + 1] == q[k + 1];
    } else {
      hide Without;
      forall i | 0 <= i < |q'| - 1 ensures q'[i].mode == Exclusive || q'[i + 1].mode == Exclusive {
        assert i < k - 1 ==> q'[i] == q[i] && q'[i + 1] == q[i + 1];
        assert i >= k ==> q'[i] == q[i + 1] && q'[i + 1] == q[i + 1 + 1];
      }
    }
  }

  lemma ShrunkSharedPair(q: Queue, k: nat, rest: seq<nat>)
    requires k < |q|
    ensures NoSharedPair(q[k := Group(q[k].mode, rest)]) <==> NoSharedPair(q)
  {
    var q' := q[k := Group(q[k].mode, rest)];
    assert forall i :: 0 <= i < |q| ==> q'[i].mode == q[i].mode;
  }

  /** When a withdrawal makes two shared groups neighbours: exactly when the victim was alone
      in a group between two shared ones. */
  lemma WithdrawSharedPair(q: Queue, v: nat)
    requires WellFormed(q) && v in Waiting(q) && NoSharedPair(q)
    ensures var k := GroupIndex(q, v, 1);
      && 1 <= k < |q|
      && (NoSharedPair(Withdraw(q, v)) <==>
            !(q[k].entries == [v] && q[k - 1].mode == Shared && k + 1 < |q| && q[k + 1].mode == Shared))
  {
    hide WellFormed, GroupIndex, Waiting, NoSharedPair, Remove;
    var k := WaitingGroup(q, v);
    var rest := Remove(q[k].entries, v);
    assert rest == [] ==> |q[k].entries| == 1 && q[k].entries[0] == v;
    assert q[k].entries == [v] ==> |rest| == 0;
    if rest == [] {
      assert Withdraw(q, v) == Without(q, k);
      CutSharedPair(q, k);
    } else {
      assert Withdraw(q, v) == q[k := Group(q[k].mode, rest)];
      ShrunkSharedPair(q, k, rest);
    }
  }

  /** A withdrawal takes the victim out of the waiters and touches nothing else. */
  lemma WithdrawEffect(q: Queue, tx: nat)
    requires WellFormed(q) && tx in Waiting(q)
    ensures var q' := Withdraw(q, tx);
      && q != [] && q' != [] && q'[0] == q[0]
      && Waiting(q') == Waiting(q) - {tx}
      && (forall x, m :: x != tx && WaitsAs(q, x, m) ==> WaitsAs(q', x, m))
  {
    hide WellFormed, Withdraw;
    var q' := Withdraw(q, tx);
    var k, rest := WithdrawGroups(q, tx);
    forall x | x in Waiting(q') ensures x in Waiting(q) && x != tx {
      var i :| 1 <= i < |q'| && x in q'[i].entries;
      var j := if rest == [] && i >= k then i + 1 else i;
      assert x in q[j].entries;
    }
    forall x, m | x != tx && WaitsAs(q, x, m) ensures WaitsAs(q', x, m) && x in Waiting(q') {
      var i :| 1 <= i < |q| && x in q[i].entries && q[i].mode == m;
      var j := if rest == [] && i > k then i - 1 else i;
      assert x in q'[j].entries && q'[j].mode == m;
    }
    forall x | x in Waiting(q) && x != tx ensures x in Waiting(q') {
      var i :| 1 <= i < |q| && x in q[i].entries;
      assert WaitsAs(q, x, q[i].mode);
    }
  }

  // ----- what an operation by some transactions leaves to all others -----

  /** Seen by a transaction outside `out`, the queue went from q to q' without
      disturbing it: holders keep holding, in the mode they had; waiters keep waiting
      in the mode they asked for, or are granted that mode. */
  ghost predicate Undisturbed(q: Queue, q': Queue, out: set<nat>) {
    forall x :: x !in out ==> Kept(q, q', x)
  }

  ghost predicate Kept(q: Queue, q': Queue, x: nat) {
    && (x in Holding(q) ==> x in Holding(q') && (HeldExclusive(q) ==> HeldExclusive(q')))
    && (x in Holding(q') ==> x in Members(q))
    && (x in Waiting(q') ==> x in Waiting(q))
    && (x in Waiting(q) && x !in Waiting(q') ==> x in Holding(q'))
    && (forall m :: WaitsAs(q, x, m) && x in Waiting(q') ==> WaitsAs(q', x, m))
    && (WaitsAs(q, x, Exclusive) && x !in Waiting(q') ==> HeldExclusive(q'))
  }

  lemma WaitingAs(q: Queue, x: nat)
    ensures x in Waiting(q) <==> exists m :: WaitsAs(q, x, m)
  {
    if x in Waiting(q) {
      var i :| 1 <= i < |q| && x in q[i].entries;
      assert WaitsAs(q, x, q[i].mode);
    }
  }

  lemma RequestUndisturbed(q: Queue, mode: Mode, tx: nat)
    requires WellFormed(q) && tx !in Waiting(q)
    ensures Undisturbed(q, Request(q, mode, tx).0, {tx})
  {
    RequestEffect(q, mode, tx);
    var (q', a) := Request(q, mode, tx);
    forall x | x != tx ensures Kept(q, q', x) {
      if a == Taken && HeldExclusive(q') && !HeldExclusive(q) {
        assert q == [] || Waiting(q) == {};
      }
      WaitingAs(q, x);
      if a == Taken && q' != q {
        assert Waiting(q) == {};
      }
    }
  }

  lemma ReleaseUndisturbed(q: Queue, tx: nat)
    requires WellFormed(q) && tx !in Waiting(q)
    ensures Undisturbed(q, Release(q, tx), {tx})
  {
    ReleaseEffect(q, tx);
    var q' := Release(q, tx);
    forall x | x != tx ensures Kept(q, q', x) {
      WaitingAs(q, x);
      if q' != q {
        ReleaseModes(q, tx, x);
      }
    }
  }

  lemma ReleaseModes(q: Queue, tx: nat, x: nat)
    requires WellFormed(q) && tx !in Waiting(q) && Release(q, tx) != q && x != tx
    ensures x in Holding(q) ==> !HeldExclusive(q)
    ensures forall m :: WaitsAs(q, x, m) && x in Waiting(Release(q, tx)) ==> WaitsAs(Release(q, tx), x, m)
    ensures WaitsAs(q, x, Exclusive) && x !in Waiting(Release(q, tx)) ==> HeldExclusive(Release(q, tx))
  {
    var q' := Release(q, tx);
    assert GroupOk(q[0]);
    if HeldExclusive(q) {
      assert q[0].entries == [tx];
    }
    var rest := Remove(q[0].entries, tx);
    forall m | WaitsAs(q, x, m)
      ensures x in Waiting(q') ==> WaitsAs(q', x, m)
      ensures m == Exclusive && x !in Waiting(q') ==> HeldExclusive(q')
    {
      var i :| 1 <= i < |q| && x in q[i].entries && q[i].mode == m;
      if rest == [] || Promotes(q, rest) {
        if i > 1 {
          assert x in q'[i - 1].entries && q'[i - 1].mode == m;
        } else {
          forall j | 1 <= j < |q'| ensures x !in q'[j].entries {
            assert q'[j] == q[j + 1];
          }
        }
      } else {
        assert x in q'[i].entries && q'[i].mode == m;
      }
    }
  }

  // ----- fairness: what stands in front of a waiter -----

  /** Everything queued in front of the group a waits in, with its mode. */
  function Ahead(q: Queue, a: nat): set<(Mode, nat)>
    requires q != []
  {
    set i, x | 0 <= i < GroupIndex(q, a, 1) && i < |q| && x in q[i].entries :: (q[i].mode, x)
  }

  /** The granted requests: who holds the lock, and in which mode. */
  function Granted(q: Queue): set<(Mode, nat)> {
    if q == [] then {} else set x | x in q[0].entries :: (q[0].mode, x)
  }

  lemma GrantedAhead(q: Queue, a: nat)
    requires q != []
    ensures Granted(q) <= Ahead(q, a)
  {
    forall x | x in q[0].entries ensures (q[0].mode, x) in Ahead(q, a) {
    }
  }

  lemma WaitingIndex(q: Queue, a: nat)
    requires a in Waiting(q)
    ensures 1 <= GroupIndex(q, a, 1) < |q|
  {
    var i :| 1 <= i < |q| && a in q[i].entries;
  }

  /** Nobody queues in front of a waiter. */
  lemma RequestStaysBehind(q: Queue, mode: Mode, tx: nat, a: nat)
    requires WellFormed(q) && tx !in Waiting(q) && a in Waiting(q)
    ensures var q' := Request(q, mode, tx).0;
      a in Waiting(q') && Ahead(q', a) == Ahead(q, a)
  {
    var q' := Request(q, mode, tx).0;
    WaitingIndex(q, a);
    var k := GroupIndex(q, a, 1);
    assert forall i :: 0 <= i < k ==> q'[i] == q[i];
    assert a in q'[k].entries;
    assert GroupIndex(q', a, 1) == k;
  }

  /** A release only clears entries in front of a waiter. */
  lemma ReleaseClearsAhead(q: Queue, tx: nat, a: nat)
    requires WellFormed(q) && tx !in Waiting(q)
    requires a in Waiting(q) && a in Waiting(Release(q, tx))
    ensures Ahead(Release(q, tx), a) <= Ahead(q, a)
  {
    var q' := Release(q, tx);
    WaitingIndex(q, a);
    WaitingIndex(q', a);
    var k, k' := GroupIndex(q, a, 1), GroupIndex(q', a, 1);
    if q' != q {
      var rest := Remove(q[0].entries, tx);
      if rest == [] || Promotes(q, rest) {
        assert a in q[k' + 1].entries;
        assert k == k' + 1;
        forall i, x | 0 <= i < k' && x in q'[i].entries ensures (q'[i].mode, x) in Ahead(q, a) {
          assert x in q[i + 1].entries && q[i + 1].mode == q'[i].mode;
        }
      } else {
        assert forall i :: 1 <= i < |q| ==> q'[i] == q[i];
        assert k == k';
        forall i, x | 0 <= i < k' && x in q'[i].entries ensures (q'[i].mode, x) in Ahead(q, a) {
          assert x in q[i].entries;
        }
      }
    }
  }

  /** A withdrawal only clears entries in front of the waiters that stay. */
  lemma WithdrawClearsAhead(q: Queue, v: nat, a: nat)
    requires WellFormed(q) && v in Waiting(q) && a in Waiting(q) && a != v
    ensures a in Waiting(Withdraw(q, v)) && Ahead(Withdraw(q, v), a) <= Ahead(q, a)
  {
    WithdrawEffect(q, v);
    var q' := Withdraw(q, v);
    WaitingIndex(q, a);
    WaitingIndex(q', a);
    WaitingIndex(q, v);
    var k, k', m := GroupIndex(q, a, 1), GroupIndex(q', a, 1), GroupIndex(q, v, 1);
    var rest := Remove(q[m].entries, v);
    var from := i => if rest == [] && i >= m then i + 1 else i;
    assert a in q[from(k')].entries;
    assert k == from(k');
    forall i, x | 0 <= i < k' && x in q'[i].entries ensures (q'[i].mode, x) in Ahead(q, a) {
      assert x in q[from(i)].entries && q[from(i)].mode == q'[i].mode;
    }
  }

  // ----- who is granted what -----

  /** Exactly when a request is answered how: by who holds, who waits, and nothing else. */
  lemma RequestAnswer(q: Queue, mode: Mode, tx: nat)
    requires WellFormed(q) && tx !in Waiting(q)
    ensures Request(q, mode, tx).1 == Taken <==>
      || q == []
      || (tx in Holding(q) && (mode == Shared || HeldExclusive(q)))
      || (Waiting(q) == {} && mode == Shared && !HeldExclusive(q))
      || (Waiting(q) == {} && mode == Exclusive && Holding(q) == {tx})
    ensures Request(q, mode, tx).1 == Stale <==>
      mode == Exclusive && tx in Holding(q) && !HeldExclusive(q) && Waiting(q) != {}
  {
    WaitersBehind(q);
    if q != [] {
      assert GroupOk(q[0]);
      SoleHolder(q[0].entries, tx);
    }
  }

  lemma WaitersBehind(q: Queue)
    requires WellFormed(q)
    ensures Waiting(q) != {} <==> |q| > 1
  {
    if |q| > 1 {
      assert GroupOk(q[1]);
      StillBehind(q, 1, q[1].entries[0]);
    }
  }

  lemma SoleHolder(entries: seq<nat>, tx: nat)
    requires Distinct(entries)
    ensures tx in entries && |entries| == 1 <==> (set x | x in entries) == {tx}
  {
    if |entries| >= 2 {
      NotSingle(entries, tx);
    } else if |entries| == 1 {
      assert entries[0] in entries;
      assert (set x | x in entries) == {entries[0]};
    }
  }

  lemma NotSingle(s: seq<nat>, x: nat)
    requires Distinct(s) && |s| >= 2
    ensures (set y | y in s) != {x}
  {
    var a, b, members := s[0], s[1], set y | y in s;
    assert a in members && b in members && a != b;
    assert a in {x} && b in {x} ==> a == b;
  }

  /** What a granted request leaves its requester with, and everybody else: the mode asked
      for, unless the requester has the exclusive mode already. */
  lemma RequestGranted(q: Queue, mode: Mode, tx: nat)
    requires WellFormed(q) && tx !in Waiting(q)
    ensures var (q', a) := Request(q, mode, tx);
      Granted(q') ==
        if a == Taken && !HeldExclusive(q) then
          if mode == Exclusive then {(Exclusive, tx)} else Granted(q) + {(Shared, tx)}
        else Granted(q)
  {
    var (q', a) := Request(q, mode, tx);
    if q != [] {
      assert GroupOk(q[0]);
      if a == Taken && q' != q && mode == Shared {
        assert q' == [Group(Shared, q[0].entries + [tx])];
      }
      if a == Taken && q' != q && mode == Exclusive {
        assert q[0].entries == [tx];
      }
    }
  }

  /** A request that waits is queued behind everybody, but joins the shared requests at the
      end if it is shared itself. */
  lemma RequestQueuesLast(q: Queue, mode: Mode, tx: nat, m: Mode, x: nat)
    requires WellFormed(q) && tx !in Waiting(q) && Request(q, mode, tx).1 == Wait
    requires (m, x) in Granted(q) || WaitsAs(q, x, m)
    ensures var q' := Request(q, mode, tx).0;
      && q' != []
      && ((m, x) in Ahead(q', tx) || (mode == m == Shared && x in q[|q| - 1].entries && q[|q| - 1].mode == Shared))
  {
    var q' := Request(q, mode, tx).0;
    assert forall i :: 1 <= i < |q| ==> tx !in q[i].entries;
    var n := if mode == Shared && q[|q| - 1].mode == Shared then |q| - 1 else |q|;
    assert |q'| == n + 1 && tx in q'[n].entries && forall i :: 0 <= i < n ==> q'[i] == q[i];
    assert n >= 1;
    assert GroupIndex(q', tx, 1) == n;
    if (m, x) in Granted(q) {
      assert x in q'[0].entries && (q'[0].mode, x) in Ahead(q', tx);
    } else {
      var i :| 1 <= i < |q| && x in q[i].entries && q[i].mode == m;
      if i < n {
        assert x in q'[i].entries && (q'[i].mode, x) in Ahead(q', tx);
      }
    }
  }

  /** The waiters that nobody but the holders stands in front of. */
  ghost predicate NextInLine(q: Queue, m: Mode, x: nat) {
    q != [] && WaitsAs(q, x, m) && Ahead(q, x) == Granted(q)
  }

  lemma FirstInLine(q: Queue, m: Mode, x: nat)
    requires WellFormed(q)
    ensures NextInLine(q, m, x) <==> |q| > 1 && q[1].mode == m && x in q[1].entries
  {
    if q != [] && WaitsAs(q, x, m) {
      var i :| 1 <= i < |q| && x in q[i].entries && q[i].mode == m;
      assert WaitsOnce(q) && GroupIndex(q, x, 1) == i;
      GrantedAhead(q, x);
      if i > 1 {
        assert GroupOk(q[0]) && GroupOk(q[1]);
        var y := q[1].entries[0];
        assert (q[1].mode, y) in Ahead(q, x);
        assert y in q[0].entries ==> q[1].mode == Exclusive && q[0].mode == Shared;
        assert (q[1].mode, y) !in Granted(q);
      } else {
        forall p | p in Ahead(q, x) ensures p in Granted(q) {
        }
      }
    }
  }

  /** The head after the leaver is gone: empty, a lone upgrader, or the others. */
  lemma RestOfHead(q: Queue, tx: nat)
    requires WellFormed(q) && tx !in Waiting(q) && tx in Holding(q)
    ensures var rest := Remove(q[0].entries, tx);
      && (forall x :: x in rest <==> x in Holding(q) && x != tx)
      && (rest == [] <==> Holding(q) == {tx})
      && (rest != [] && Promotes(q, rest) ==>
            q[1] == Group(Exclusive, [rest[0]]) && Holding(q) == {tx, rest[0]} && WaitsAs(q, rest[0], Exclusive))
  {
    assert GroupOk(q[0]);
    var rest := Remove(q[0].entries, tx);
    RemoveDistinct(q[0].entries, tx);
    SoleHolder(q[0].entries, tx);
    if rest != [] && Promotes(q, rest) {
      assert GroupOk(q[1]) && q[1].entries == [rest[0]];
      forall x ensures x in Holding(q) <==> x in {tx, rest[0]} {
        assert x in rest <==> x == rest[0];
      }
    }
  }

  lemma LoneUpgrader(q: Queue, tx: nat, y: nat)
    requires WellFormed(q) && tx !in Waiting(q) && tx in Holding(q)
    requires Holding(q) == {tx, y} && y != tx && WaitsAs(q, y, Exclusive)
    ensures Promotes(q, Remove(q[0].entries, tx)) && Remove(q[0].entries, tx) == [y]
  {
    assert GroupOk(q[0]);
    RemoveDistinct(q[0].entries, tx);
    var rest := Remove(q[0].entries, tx);
    forall x ensures x in rest <==> x == y {
      assert x in rest <==> x in Holding(q) && x != tx;
    }
    assert (set x | x in rest) == {y};
    SoleHolder(rest, y);
    assert rest == [y];
    var i :| 1 <= i < |q| && y in q[i].entries && q[i].mode == Exclusive;
  }

  /** What a release grants: nothing new while others hold; with a sole holder left that is
      upgrading, the exclusive mode to it; and with none left, what the next in line ask for. */
  lemma ReleaseGranted(q: Queue, tx: nat, m: Mode, x: nat)
    requires WellFormed(q) && tx !in Waiting(q) && tx in Holding(q)
    ensures (m, x) in Granted(Release(q, tx)) <==>
      if Holding(q) == {tx} then NextInLine(q, m, x)
      else if exists y :: Holding(q) == {tx, y} && WaitsAs(q, y, Exclusive) then
        m == Exclusive && x != tx && x in Holding(q)
      else (m, x) in Granted(q) && x != tx
  {
    var rest := Remove(q[0].entries, tx);
    RestOfHead(q, tx);
    FirstInLine(q, m, x);
    if y :| Holding(q) == {tx, y} && WaitsAs(q, y, Exclusive) {
      assert y != tx by {
        WaitingAs(q, y);
      }
      LoneUpgrader(q, tx, y);
    }
    hide WellFormed, NextInLine, WaitsAs, WaitsOnce, UpgradesOnly, GroupOk, Remove;
  }

  /** So whoever holds a lock after a release held it in that mode before, or waited for it. */
  lemma ReleaseGrantsAsked(q: Queue, tx: nat, m: Mode, x: nat)
    requires WellFormed(q) && tx !in Waiting(q) && (m, x) in Granted(Release(q, tx))
    ensures (m, x) in Granted(q) || WaitsAs(q, x, m)
  {
    if tx in Holding(q) {
      ReleaseGranted(q, tx, m, x);
      if y :| Holding(q) == {tx, y} && WaitsAs(q, y, Exclusive) {
        assert x in Holding(q) && x != tx ==> x == y;
      }
    }
  }
}

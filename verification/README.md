# A verified model of the CMOO driver

CMOO runs MOO code in parallel while promising the behaviour of a serial run (README:4-6,
doc/development.tex:563-565). This project models the parts of the driver that carry the
promise and proves, for every run, that they keep it.

## What is modelled

**Locks and transactions** (`src/lock.c`, `src/store.c`).
`LockQueue` has one lock as a FIFO queue of wait groups, with the cases of `lock_lock` and
`lock_unlock`; `LinkedLock` has the same lock as linked groups with a first and a last
pointer, updated in place. `WaitForGraph` and `WaitMatrix` have the wait-for graph, its flat
boolean matrix and the depth-first search for a victim. `LockTable` puts all locks together
and `LocksCtx` the matrix with them. `TxSystem` is a step system over any number of
transactions and locks: start, touch an object, read and write globals, make objects, sleep,
wake up, unlock, retire. A blocked transaction takes no other step; a request, its search and
its faults are one step, as the latches make them. `TxInvariant` and `TxRuns` prove what holds
in every reachable state and over whole runs, `TxShapes` which queues can be reached at all, and
`TxScenes` has two runs into states that the code takes to be impossible. `Serial` and
`Serializability` prove the central promise; `TxLedger` tells from the list of actions alone
what a run does (who reads and writes what and when, in which order transactions leave, whom a
search refuses), proves that the state is exactly that, and states the promise in those terms.
`TxModes` says who comes to hold a lock in which mode, and `TxProgress` that every request is
answered and everybody can finish. `Store` has the transactions, their ids and their
locked lists as `src/store.c` changes them, each method matched with its step, and `StoreCache`
puts the transactions over the object cache: what they pin, and why a lock may be named by its
object; `StoreReload` says which objects can be loaded again.

**The virtual machine** (`src/eval.c`, `src/types.c`).
`Values` has the tagged 64-bit words. `Strings` and `Machine` have the counted strings and
every instruction the code implements, debug aids aside, on a stack that mixes values with
saved registers. `References` proves that reference counts are exact over every run, `Frames`
that calls and returns balance, `Effects` what each instruction needs and does, `Scalars` what
the operators answer, on C ints with their sign and their width. `Bytecode` has the instructions
as bytes and what the dispatch loop fetches from them. `Eval` is the interpreter as an object with an array for a stack, changed by
one handler per instruction.

**Objects** (`src/object.c`) and **the cache** (`src/cache.c`).
`SlotList` and `Objects` have the linked slot lists, the parent array, copying and the
serializer; `CodeBuffer` the format; `MethodLookup` the search over the parent graph, told once by the order of
the visits and once by the paths along parents.
`ObjectSlots` says that the machine's globals are these slot lists. `CacheModel` has the cache
on values, `ObjectCache` as bucket chains over a doubly linked recently-used list, and
`UnlinkedCache` that list as the code keeps it. `Sequences` and `Wrappers` are shared.

## Where the code and its intent differ

The model follows what the code is documented to do in the places below, and says by a lemma
when the code as it stands does the same.

| what the code does | when that is right |
|---|---|
| unlock sets edges to the leaver instead of clearing them (src/lock.c:396-407) | `LocksCtx.UnlockAsWritten`: when nobody waits |
| a shared request that joins a waiting group adds no edges (src/lock.c:194-200) | `LocksCtx.JoinAsWritten`: when it joins the holders |
| one search per blocked request (src/lock.c:266) | `LockTable.SingleFaultExactly`: when there is only one way round from everybody on a cycle through the requester, as with exclusive holders; `TxScenes.SingleFaultMisses` is a run to a deadlock it leaves |
| a victim's row of the matrix stays (src/lock.c:295-322) | `LocksCtx.FaultAsWritten`: never |
| the last pointer is not moved back in a withdrawal (src/lock.c:308-317) | `LinkedLock.LastDangles`: when the group was not the last |
| the STALE comment takes for granted that neighbouring groups are not both shared (src/lock.c:214-218) | `TxShapes.StepSharedPair`: until a fault takes the upgrade out from between two of them; `TxScenes.SharedPairAfterFault` is a run that does, and `TxShapes.StaleMeans` what the answer then means |
| RETURN leaves SP one above the value (src/eval.c:288-295) | `EvalAsWritten.PopMissesResult`: the caller's POP gets nil, whatever was returned |
| MOV, CONCAT and the other writers clear dst before they read (src/eval.c:213-215, 394, 426, 461, 486, 512, 574, 623, 883, 916) | `EvalAsWritten.MovExact`, `ConcatExact`, `Apply1Exact`, `Apply2Exact`: when dst is no source, or the cleared register happens to give the answer |
| LE and LT drop the length comparison they make (src/eval.c:587-590, 636-639) | modelled as it is; `Scalars.LengthLost`: right unless the shorter string is a prefix of the other and stands on the wrong side; `Scalars.LeTransitiveUnless`: and then LE is no order |
| a retried run leaves its stack behind (src/eval.c:86-90) | `References.FreeContextLeaks`: when no cell names a string |
| release never sets `newer` of the entry before (src/cache.c:130-135) | `UnlinkedCache.RunRight`: as long as no get takes an entry with newer ones behind it, and no eviction has more than one to choose from; `UnlinkedCache.HeldStays`: no held object is evicted all the same |
| the pin is a flag (src/lobject.c:43-49) | `CacheModel.FlagEvictsHeld`: an object with two holders survives the first release when the entries outside the release order fit the bound |
| eviction leaves the bucket chain pointing at the freed entry (src/cache.c:142-153) | `ObjectCache.Cache.EvictionDangles`: never; `ObjectCache.Cache.RemoveFromBucket` is the missing step |
| obj_remove_parent moves too few bytes (src/object.c:84) | `Objects.RemoveExact`, `Objects.RemoveExactWords`: when the entries agree above the bytes that are moved |
| SYSCALL consumes its arguments when the call is not found (src/eval.c:843-853) | `EvalAsWritten.SyscallExact`: the counts are right even so |
| an evicted object that was never stored is gone (src/store.c:144-147) | `StoreReload.GoneExactly`: when eviction takes no such object; `StoreReload.FittingFinds`: when the bound has room for all; `StoreReload.OneTooMany` is a run that loses one |
| a refused get keeps its pin (src/store.c:159-161) | `StoreCache.QuietPins`: when no get is refused; `StoreCache.LeakedStays` says what it costs |
| obj_copy never stores a head (src/object.c:244, 263) | `SlotList.Slots.CopyHeadAsWritten`: for empty lists; `Objects.LostCopyLeaks` for the references |

## Model

| member | source | states |
|---|---|---|
| WaitForGraph.SinkEdgesKeepAcyclic | src/lock.c:360-407 | edges added by a hand-over lead to transactions that wait for nobody, so they close no cycle |
| WaitForGraph.RankDrops | src/lock.c:81-109 | in an acyclic graph every edge leads down in rank, the measure by which a search without a visited set ends |
| WaitForGraph.CyclesPassRoot | src/lock.c:248-266 | a graph acyclic but for the requester's own edges has a cycle only through the requester: searching from it is enough |
| WaitForGraph.ChainToSink | src/lock.c:291-293 | whoever waits in an acyclic graph waits along a chain for someone who does not wait |
| WaitForGraph.OneCycleOnly | src/lock.c:264-287 | with one outgoing edge a node, silencing any node of the cycle through the root leaves none |
| WaitForGraph.OneWayExactly | src/lock.c:264-287 | in a graph whose cycles all pass the requester, silencing any one node on them leaves none, whichever it is, exactly when each of them has only one way on round a cycle |
| WaitMatrix.CellInjective | src/lock.c:28-31 | the flat index of the matrix keeps pairs apart |
| WaitMatrix.WriteCell | src/lock.c:252-259 | writing one cell adds or removes exactly that edge |
| WaitMatrix.WfgDfs | src/lock.c:81-109 | the search answers nobody exactly when there is no way back to the root, and else the youngest on one way back; it ends |
| LockQueue.RequestShape | src/lock.c:163-246 | a request keeps the queue shape: non-empty groups of distinct members, single exclusive groups, nobody waiting twice, holding and waiting only while upgrading; without neighbouring shared groups it makes none |
| LockQueue.RequestEffect | src/lock.c:163-246 | taken: the requester holds, alone if exclusive, and nobody else's place changes; wait: it is added to the waiters; stale: nothing changes |
| LockQueue.ReleaseShape | src/lock.c:330-394 | a release keeps the queue shape |
| LockQueue.ReleaseEffect | src/lock.c:340-394 | the leaver is gone, the other holders stay, the newly granted come from the waiters, and everybody is still queued |
| LockQueue.GrantedAlone | src/lock.c:378-393 | a waiter is granted only when the head held nobody but the leaver and, in an upgrade, the waiter itself |
| LockQueue.ReleaseModes | src/lock.c:365-393 | over a release the waiters keep the mode they wait in, and a waiter for the exclusive mode that is granted holds exclusively |
| LockQueue.WithdrawShape | src/lock.c:295-318 | taking a faulted transaction out keeps the queue shape |
| LockQueue.WithdrawSharedPair | src/lock.c:295-318 | a withdrawal leaves two shared groups side by side exactly when the victim was alone in a group between two of them |
| LockQueue.WithdrawEffect | src/lock.c:295-318 | a withdrawal removes the victim from the waiters and touches neither the holders nor the other waiters |
| LockQueue.RequestStaysBehind | src/lock.c:166-246 | a request adds nothing in front of a waiter |
| LockQueue.ReleaseClearsAhead | src/lock.c:355-394 | a release adds nothing in front of a waiter |
| LockQueue.GrantedAhead | src/lock.c:40-43 | whatever is granted stands in front of every waiter |
| LockQueue.RequestAnswer | src/lock.c:163-246 | a request is taken exactly when the lock is free, or the requester holds it in that mode or a stronger one, or nobody waits and the holders all share, with the requester alone among them if it asks for the exclusive mode; it is stale exactly when a shared holder asks for the exclusive mode while others wait |
| LockQueue.RequestGranted | src/lock.c:170-241 | a granted request leaves its requester holding in the mode asked for, or in the exclusive mode it has already, and every other holder as it was |
| LockQueue.RequestQueuesLast | src/lock.c:187-246 | a request that waits is queued behind everybody, but joins the shared requests at the end if it is shared |
| LockQueue.ReleaseGranted | src/lock.c:355-394 | exactly who holds in which mode after a release: the other holders as before; the sole one left in the exclusive mode if it is upgrading; with none left, those next in line in the mode they asked for |
| LockQueue.ReleaseGrantsAsked | src/lock.c:330-394 | whoever holds a lock after a release held it in that mode before, or waited for that mode, waiters or not |
| LinkedLock.Lock.constructor | src/lock.c:142-152 | a new lock has neither group |
| LinkedLock.Lock.Append | src/lock.c:244-246 | a new group goes behind the last, and the last pointer names it |
| LinkedLock.Lock.Request | src/lock.c:163-246 | on the linked groups, exactly the request on the queue and its answer; the chain stays well linked |
| LinkedLock.Lock.Release | src/lock.c:330-394 | on the linked groups, exactly the release on the queue; the last pointer is cleared with the last group |
| LinkedLock.Lock.FindWaiting | src/lock.c:297-314 | the group a victim waits in, the one in front of it, and its place in the entries |
| LinkedLock.Lock.Withdraw | src/lock.c:295-318 | on the linked groups, exactly the withdrawal on the queue, the last pointer moved back where needed |
| LinkedLock.LastDangles | src/lock.c:308-317 | left alone, the last pointer names the final group exactly when another group was taken out |
| LockTable.BlockedWaits | src/lock.c:248-262 | blocked and waiting for somebody are the same |
| LockTable.RequestTable | src/lock.c:163-262 | a request that does not wait keeps all locks free of deadlock; one that waits adds exactly the edges to the other holders |
| LockTable.WithdrawTable | src/lock.c:295-318 | withdrawing a victim takes exactly its outgoing edges away |
| LockTable.FaultsRestore | src/lock.c:243-287 | searching and faulting until no cycle is left restores freedom from deadlock, and nobody but the victims stops being blocked |
| LockTable.FaultsTouch | src/lock.c:268-287 | the faults change no holder and no waiter but the victims |
| LockTable.FaultRunExists | src/lock.c:264-287 | faulting ends: from any state some sequence of victims leaves no cycle |
| LockTable.SingleFaultExactly | src/lock.c:264-287 | one search after a blocked request is enough, whatever the sids and whoever is found, exactly when each transaction on a cycle through the requester has only one way on round it |
| LockTable.SingleFaultSuffices | src/lock.c:266-287 | with exclusive holders everywhere there is only one way, and the victim of one search is enough |
| LockTable.OldestSpared | src/lock.c:81-109 | no search ever faults the oldest transaction: on every cycle there is a younger one |
| LockTable.NewHolderRuns | src/lock.c:365-393 | whoever a release grants is blocked nowhere |
| LockTable.ReleaseTable | src/lock.c:360-407 | granting the next group or promoting an upgrade never creates a deadlock, so a search is needed only when a request blocks |
| LockTable.ChainToRunning | src/lock.c:291-293 | whoever is blocked waits along a chain for a running transaction that holds a lock |
| LockTable.FinishShrinks | src/store.c:97-109 | a finishing transaction keeps freedom from deadlock and leaves fewer queued entries |
| LockTable.DrainEmpties | src/lock.c:330-394 | any schedule of finish steps is bounded by the queued entries, and one that cannot go on has emptied every queue |
| LocksCtx.ReleaseEdges | src/lock.c:396-407 | after a release the graph is the old one without the edges to the leaver, with those to the new holders |
| LocksCtx.UnlockAsWritten | src/lock.c:396-407 | setting the edges to the leaver, as the code does, gives the right graph exactly when the queue has no waiter |
| LocksCtx.JoinAsWritten | src/lock.c:187-205 | joining the last group without telling the detector leaves the graph right exactly when that group holds the lock |
| LocksCtx.FaultAsWritten | src/lock.c:295-322 | not clearing a victim's row always leaves edges too many |
| LocksCtx.Locks.constructor | src/lock.c:113-126 | a new context is empty, its matrix all false |
| LocksCtx.Locks.MarkEdges | src/lock.c:399-406 | the double loop writes exactly the edges between two groups |
| LocksCtx.Locks.NoteWait | src/lock.c:248-262 | a blocked request enters its edges to the other holders, its sid and its lock |
| LocksCtx.Locks.Fault | src/lock.c:268-318 | marking and withdrawing a victim, wherever it waits, keeps the matrix equal to the wait relation |
| LocksCtx.Locks.Resolve | src/lock.c:264-287 | search, fault, repeat: ends, with the victims of a correct run of faults |
| LocksCtx.Locks.LockLock | src/lock.c:163-289 | queues, matrix and answer after a request: each cell is true exactly when the one waits for the other, and there is no deadlock |
| LocksCtx.Locks.LockUnlock | src/lock.c:330-407 | queues and matrix after a release, again in step |
| TxInvariant.IdentitiesKeep | src/store.c:77-95 | live ids stay distinct and in range, sids older than the next one |
| TxInvariant.RetiredIsNowhere | src/store.c:97-115 | a transaction that has finished its list is in no wait group and in no edge: its row and column are false, as src/lock.c:128-134 asserts |
| TxInvariant.StepKeeps | src/store.c:77-196 | every step of every transaction keeps the whole invariant: queue shapes, one blocked place each, no deadlock, lists that cover what is held, operations covered by locks |
| TxRuns.AlwaysLockInv | src/lock.c:163-410 | the invariant holds in every state of every run |
| TxRuns.NeverDeadlocked | src/lock.c:243-287 | from the initial state on, no completed step ever leaves a cycle of waits |
| TxRuns.UpgradeSafe | src/lock.c:207-241 | from its shared grant until its own unlock a transaction stays a holder, so nobody else ever holds the lock exclusively in between |
| TxRuns.TwiceIsUpgrade | src/lock.c:378-393 | a transaction queued twice in a lock shares its head and is alone in the exclusive group right behind |
| TxRuns.NoOvertaking | src/lock.c:166-246 | over any run in which a transaction waits, whatever is granted on that lock was queued in front of it at the start |
| TxRuns.NoSharedPairUnfaulted | src/lock.c:214-218 | in runs without faults no two neighbouring groups are both shared |
| TxRuns.SidsGrow | src/store.c:81-83 | a transaction that starts later in a run has the larger sid |
| TxShapes.ThreeGroups | src/lock.c:163-410 | in no run does a queue ever have more than three groups, and nobody waits for the exclusive mode but right behind a shared head |
| TxShapes.ReachableQueue | src/lock.c:207-241 | a queue of three is the holders, the upgrade of one of them, and the shared requests behind it |
| TxShapes.ExclusiveUpgrades | src/eval.c:942-955 | whoever waits for the exclusive mode shares the lock already |
| TxShapes.StepSharedPair | src/lock.c:214-318 | a step leaves two shared groups side by side exactly when its faults take out the upgrade between them and not everybody behind it |
| TxShapes.StaleMeans | src/lock.c:207-221 | in a reachable state STALE answers exactly the upgrade of a shared lock that others queue for; somebody else is then upgrading exactly if no two shared groups are side by side |
| TxScenes.SingleFaultMisses | src/lock.c:264-287 | in every store with three cids a run leads to a request whose first fault leaves a cycle |
| TxScenes.SharedPairAfterFault | src/lock.c:214-218 | in every store with four cids a run leads to two shared groups side by side and to STALE though nobody waits for the exclusive mode |
| TxModes.WritersAsked | src/lock.c:163-410 | over every run: who holds a lock exclusively, or waits for that mode, has set or made that object since its start |
| TxModes.ReadersNeverWait | src/lock.c:187-205 | over every run: as long as nobody writes to an object that was there from the start, every get of it is granted at once |
| TxProgress.StuckExactly | src/lock.c:291-293 | in a reachable state a live transaction can take no step at all exactly when it is queued behind others |
| TxProgress.Answered | src/store.c:77-196 | every request is answered: a running transaction may get any object, set and read those it has locked, make one; and one can start on every free cid |
| TxProgress.SomebodyGoesOn | src/lock.c:330-394 | as long as there are transactions, one of them can wake up, unlock or end |
| TxProgress.FinishingEnds | src/store.c:97-116 | over every run in which nobody asks for more, in whatever order: the number of steps is fixed by the state it starts from, and where nobody can go on everybody has finished and all locks are free |
| TxProgress.EverybodyFinishes | src/store.c:97-116 | from every reachable state there is such a run |
| Serial.ReplayInsert | src/store.c:97-116 | an operation may be moved in front of those it does not conflict with |
| Serial.AppendInPlace | src/store.c:97-116 | the newest operation fits its transaction's own place in the serial order when it conflicts with nothing behind |
| Serial.ReplayIsSerialRun | doc/development.tex:563-565 | replaying what complete programs recorded is running the programs one at a time |
| Serializability.OthersIndependent | src/eval.c:942-954 | what a transaction does under its lock conflicts with nothing that another active transaction has done |
| Serializability.OpInPlace | src/eval.c:931-955 | a read or write under its lock keeps the history serializable, with the value it read or wrote |
| Serializability.StepSerial | src/store.c:97-169 | every step keeps the history serializable in the order of first unlocks |
| Serializability.EveryRunSerializable | doc/development.tex:563-565 | every run, finished or not: replayed one transaction after the other, in the order of first unlock, every GETGLOBAL sees its value and the globals are the same |
| Serializability.ParallelEqualsSerial | README:4-6 | a finished run whose aborted transactions wrote nothing equals running the other transactions' programs one at a time |
| TxLedger.OthersRecord | src/lock.c:268-318 | a step changes no record but its actor's and its victims'; a victim, whoever it is, can only finish from then on and waits no more |
| TxLedger.ResumeWrites | src/eval.c:942-955 | the write of a SETGLOBAL that had to wait is made when it wakes up, with the value it was asked for, and no other global changes |
| TxLedger.OwnRecord | src/store.c:77-196 | what each step makes of its actor's record |
| TxLedger.RefusesWhom | src/lock.c:207-287 | of the transactions there are, a step refuses exactly its victims and the one it answers stale |
| TxLedger.RunTold | src/eval.c:931-967 | over every run: the history is exactly the reads and writes that the actions ask for, each when its lock is granted, at once or on waking up, in that order and with those values; each global is what was written to it last; sids, locked lists, refusals and the order of leaving follow from the actions and the answers of the locks alone |
| TxLedger.RefusedOnlyFinishes | src/vm.c:150-160 | whoever is refused does nothing from then on but unlock and finish |
| TxLedger.LeavingOnlyFinishes | src/store.c:97-116 | so does whoever has begun to unlock: locking is in two phases |
| TxLedger.OldestGoesOn | src/lock.c:264-287 | in every run, the live transaction that was started first is refused by no search |
| TxLedger.ProgramsRunSerially | README:4-6 | a finished run in which the refused transactions wrote nothing: if at each point the actions of a transaction ask for what its program wants next, the programs run one at a time perform the same reads and writes and end in the same globals |
| Store.SidOrder | src/store.c:24-26 | the next sid is larger exactly until the 64-bit counter wraps |
| Store.Store.constructor | src/store.c:46-66 | a new store has no transaction, no lock, id 1000 next |
| Store.Store.StartTx | src/store.c:77-95 | the next sid and the smallest free cid; none exactly when all cids are live; the state stays valid exactly unless the sid counter wraps under a live transaction |
| Store.Store.GetObject | src/store.c:137-169 | the shared request on the object's lock, remembered for finish exactly when it was taken |
| Store.Store.SetGlobal | src/eval.c:942-955 | the exclusive request on the object's lock; the global is written exactly when it was taken |
| Store.Store.MakeObject | src/store.c:171-196 | a new id, its lock taken exclusively at once and remembered |
| Store.Store.FinishTx | src/store.c:97-116 | all locks of the list are left in its order, the cid is free, and the transaction is in no queue |
| Store.Store.QuietMatrix | src/lock.c:128-134 | when no transaction is live every cell of the matrix is false |
| Store.IdleIsRunning | src/store.c:97-116 | the locked list of a running transaction covers every lock it holds |
| Store.GetIsStep | src/store.c:137-169 | the method does to the tables what the step of the transaction system does |
| Store.SetIsStep | src/eval.c:942-955 | likewise for writing a global |
| Store.FinishIsSteps | src/store.c:97-116 | finishing is unlocking step by step and retiring; the first unlock gives the place in the serial order |
| StoreCache.RunPins | src/store.c:97-196 | over every run the pins of an object are its places in the lists of live transactions, the gets that wait for it and the refused ones; finish always finds pinned what it gives back |
| StoreCache.QueuedIsCached | src/store.c:137-169 | an object that anybody holds or waits for is pinned and in the cache |
| StoreCache.ReloadedIsFree | src/store.c:144-153 | an object that is loaded again, with a new lock, is queued for by nobody |
| StoreCache.OneLock | src/store.c:137-169 | over any run in which somebody is queued on an object throughout, it keeps one and the same lock |
| StoreCache.LeakedStays | src/store.c:159-161 | an object whose get was refused once is never evicted again |
| StoreCache.NoLeaksUnfaulted | src/store.c:159-161 | runs without faults leave no pins behind |
| StoreCache.QuietPins | src/store.c:97-116 | when everybody has finished, an object has as many pins as gets of it were refused |
| StoreReload.GoneExactly | src/cache.c:142-153 | a step makes an object impossible to load exactly when it is a release whose evictions take it and it is not among the stored ones |
| StoreReload.FittingFinds | src/store.c:144-147 | over every run in which the bound of the cache has room for all objects, every get finds its object |
| StoreReload.OneTooMany | src/store.c:144-147 | in every store a run leads to an object that exists and can be found no more |
| Values.BoolRoundTrip | src/types.c:32-34 | both booleans come back from their words |
| Values.IntRoundTrip | src/types.c:36-39 | every 32-bit int, negative ones included, comes back from its word |
| Values.FloatRoundTrip | src/types.c:41-48 | every float bit pattern comes back from its word |
| Values.ObjrefRoundTrip | src/types.c:61-64 | every object id below 2^40 comes back from its word |
| Values.PointerRoundTrip | src/types.c:66-70 | every 8-aligned address comes back from a string or special word |
| Values.RoundTrip | src/types.c:24-138 | type and payload come back from the word of every value the constructors accept |
| Values.SameWordSameValue | src/types.c:24-70 | words are equal exactly when type and payload are |
| Values.UnalignedIsLost | src/types.c:66-70 | a tagged address gives address and tag back exactly when it is aligned, which the constructor asserts |
| Values.ObjrefNeedsRoom | src/types.c:61-64 | an id comes back from its word exactly when its four top bits are clear: the asserted bound is enough, and stricter than needed |
| Values.TypeBits | src/types.h:18-24 | the type bits of a word are the number of its type, the one TYPE answers |
| Values.BoolWord | src/types.c:32-34 | the two words of booleans |
| Values.IntWord | src/types.c:36-39 | an int stands above the type bits, its low 32 bits are the payload |
| Values.FloatWord | src/types.c:41-48 | a float's bits stand above the type bits, the rest is zero |
| Values.PointerWord | src/types.c:50-70 | a string or special word is its address plus the type number |
| Values.ObjrefWord | src/types.c:61-64 | an object id stands above the type bits |
| Strings.IncRefCounts | src/types.c:72-77 | a reference added is counted, modulo 2^16 |
| Strings.DropCellCounts | src/types.c:79-93 | a reference given up is counted, and the last one frees the string, for up to 65536 references |
| Strings.MakeStringCounts | src/types.c:50-59 | a new string has one reference |
| Strings.FreedWhen | src/types.c:79-88 | a string is freed exactly when the references left are none or a multiple of 65536: the wrap of the count |
| Scalars.EqualExactly | src/eval.c:492-548 | EQ holds exactly of two equal ints, two equal booleans, and two strings of one length that are the same or end together at a terminator before they differ |
| Scalars.EqualLaws | src/eval.c:492-548 | EQ is symmetric, and reflexive exactly on ints, booleans and strings |
| Scalars.IntOrder | src/eval.c:565-568 | on ints LT and LE are the order of the signed numbers |
| Scalars.IntArithmetic | src/eval.c:649-771 | on ints ADD, SUB and MUL store the exact result exactly when a C int can hold it, and else one that differs by a multiple of 2^32 |
| Scalars.ArithmeticTypes | src/eval.c:649-771 | arithmetic is of two ints or of two floats and nothing else |
| Scalars.LogicTables | src/eval.c:398-491 | the truth tables of AND, OR and NOT, which need booleans |
| Scalars.TypeNumbers | src/eval.c:380-397 | TYPE answers the type numbers of src/types.h |
| Scalars.LengthCounts | src/eval.c:868-893 | LENGTH answers the number of characters, exactly below 2^16 |
| Scalars.LessIsNotGreater | src/eval.c:550-648 | LT is the negation of LE with the operands exchanged |
| Scalars.OrderZero | src/eval.c:580-586 | strncmp over the common length finds no difference exactly when one string is a prefix of the other or both end at a terminator first |
| Scalars.LengthLost | src/eval.c:580-591 | LE and LT as coded answer as with the length comparison they drop, exactly unless the shorter string, on the right for LE and on the left for LT, is such a beginning of the other |
| Scalars.LeByLengthIsLex | src/eval.c:587-589 | what the dropped comparison is for: the dictionary order |
| Scalars.LexIsTotalOrder | src/eval.c:587-589 | which is total, antisymmetric and transitive |
| Scalars.LeTransitiveUnless | src/eval.c:590 | for all strings: LE as coded fails to be transitive exactly over a common beginning of two strings in the wrong order |
| Scalars.LeIsNotTransitive | src/eval.c:590 | three strings over which it does |
| Machine.CString | src/eval.c:937 | names end at the first terminator, as C functions read them |
| References.CopyCounts | src/eval.c:199-217 | MOV and GETGLOBAL: one more reference to the value, one less to what the register held |
| References.PushCounts | src/eval.c:219-235 | PUSH and eval_push_arg count the copy |
| References.PopCounts | src/eval.c:237-249 | POP moves a reference and gives up the one overwritten |
| References.CallCounts | src/eval.c:250-276 | CALL gives up the three cells it overwrites |
| References.ReturnCounts | src/eval.c:277-297 | RETURN counts the returned value and gives up the whole frame |
| References.StoreGlobalCounts | src/object.c:145-166 | SETGLOBAL counts the stored value and gives up the old one |
| References.ExecCounts | src/eval.c:165-992 | every instruction leaves each string's count equal to the cells, globals and handles that name it |
| References.RunCounts | src/types.c:50-93 | over every run with fewer than 65536 references a string, counts are exact |
| References.FreedAtZero | src/types.c:79-88 | a step frees a string exactly when it takes its last reference |
| References.NothingDangles | src/types.c:79-88 | no cell, global or handle ever names a freed string |
| References.HaltLeavesGlobals | src/eval.c:165-173 | after HALT in the outermost frame only globals and the host hold references |
| References.FreeContextLeaks | src/eval.c:86-90 | throwing a stack away keeps the counts right exactly when no cell names a string |
| Frames.RunFramed | src/eval.h:32-79 | in every state of every run the stack is frames of values over saved registers |
| Frames.CallOpens | src/eval.c:250-276 | CALL saves FP, return address and object in the three slots and leaves the cells below and the arguments |
| Frames.BelowUntouched | src/eval.h:32-79 | whatever runs inside a frame, nested calls included, changes nothing below it |
| Frames.CallReturns | src/eval.c:250-297 | the matching RETURN restores FP, object and return address, and puts the value in the callee's slot on top of the untouched cells |
| Frames.CallerKeepsRegisters | src/eval.c:250-297 | every register of the caller below the slot has its value after the call |
| Effects.WritesOnlyTarget | src/eval.c:199-988 | an instruction that writes a register changes that cell and no other, and no register of the machine but ip |
| Effects.OnlySetGlobalStores | src/eval.c:942-955 | no other instruction changes a global |
| Effects.MovCopies | src/eval.c:199-217 | after MOV both registers hold the source's value |
| Effects.PushPopIsMov | src/eval.c:219-249 | PUSH and POP in a row are MOV, counts included |
| Effects.CalleeSeesArguments | src/eval.c:298-313 | the callee's registers are the arguments in order, then nil for the locals |
| Effects.SetGlobalStores | src/eval.c:942-955 | one global of the current object changes, to the register's value |
| Effects.SetThenGet | src/eval.c:931-955 | GETGLOBAL reads back what SETGLOBAL stored |
| Effects.ConcatJoins | src/eval.c:894-930 | the new string is both texts joined exactly when the length fits 16 bits |
| Effects.ConcatWhen | src/eval.c:894-930 | CONCAT needs three registers and two strings |
| Effects.ConstantsLoad | src/eval.c:315-337 | CLEAR and TRUE need a register and put their constant there |
| Effects.NumbersLoad | src/eval.c:338-365 | so do LOAD_INT and LOAD_FLOAT |
| Effects.StringLoads | src/eval.c:366-379 | LOAD_STRING makes a string that the register alone refers to, with its whole text exactly when the length fits 16 bits |
| Effects.ReferencesLoad | src/eval.c:968-988 | SELF answers the current object, PARENT its first parent or nil |
| Effects.MakesObject | src/eval.c:956-967 | MAKE_OBJ needs a reference to the parent and stores one to the object made |
| Effects.JumpsTo | src/eval.c:778-800 | JUMP goes on at its offset behind itself, JUMP_IF exactly when the register is true, and neither changes anything else |
| Effects.StackMoves | src/eval.c:219-249 | PUSH puts the register's value on top, POP takes the top into the register, and the other cells stay |
| Effects.ComputesWhen | src/eval.c:380-491 | MOV and the instructions of one source run exactly when registers and types allow, and store the operator's answer |
| Effects.CombinesWhen | src/eval.c:398-771 | likewise those of two sources, in the order of their operands |
| Effects.GlobalsWhen | src/eval.c:931-955 | GETGLOBAL and SETGLOBAL need their registers and a string for a name; GETGLOBAL reads the current object; without the lock SETGLOBAL has the run retried |
| Effects.CallEnters | src/eval.c:250-276 | CALL makes the object in the slot below the method name current and goes on at the code found |
| Effects.CalleeIsCurrent | src/eval.c:250-276 | so SELF in the callee answers the object called, and GETGLOBAL reads that object's globals |
| Effects.EndsWhen | src/eval.c:277-297 | RETURN needs a frame to return from, HALT the outermost one, of which it leaves the unused cell only |
| Effects.CallsSystem | src/eval.c:813-867 | SYSCALL runs exactly for a name and a number of arguments that the table has, and takes both away |
| Bytecode.SizeIsLength | src/eval.h:99-148 | each instruction moves ip past exactly its own bytes |
| Bytecode.FetchedBack | src/eval.c:154-992 | the bytes of an instruction are fetched back as that instruction, opcode and every operand, whatever follows |
| Bytecode.CodeIsFetched | src/eval.c:154-164 | in the bytes of a piece of code the dispatch loop finds each instruction at its offset, and the next one behind it |
| EvalAsWritten.PopMissesResult | src/eval.c:277-297 | with SP as the code leaves it, the caller's POP gets nil, whatever was returned |
| EvalAsWritten.ExtraCellBalances | src/eval.c:277-297 | the extra cell does not disturb the counts |
| EvalAsWritten.MovExact | src/eval.c:213-215 | clearing first loses the value exactly when MOV moves a non-nil register to itself |
| EvalAsWritten.ConcatExact | src/eval.c:914-924 | clearing first stops CONCAT exactly when the destination is a source |
| EvalAsWritten.Apply1Exact | src/eval.c:380-396 | clearing first changes TYPE, LOGICAL_NOT and LENGTH exactly when they write to their source (TYPE of nil excepted) |
| EvalAsWritten.Apply2Exact | src/eval.c:397-648 | clearing first changes the comparing and logical instructions exactly when they write to a source, unless the cleared register gives the right answer: EQ not equal, LE and LT false over a cleared first source, AND and OR decided by the first source |
| EvalAsWritten.MismatchGoesOn | src/eval.c:570-596 | LE and LT of types they cannot compare store false exactly when the first source is neither int nor string, and stop in a getter otherwise |
| EvalAsWritten.SyscallExact | src/eval.c:813-860 | giving up name and arguments whether the call is found or not is right exactly when it is found with three arguments at most; the counts are right always |
| Eval.EvalCtx.constructor | src/eval.c:61-84 | a new context: only the unused cell, FP above SP |
| Eval.EvalCtx.PopTo | src/eval.c:289-292 | the clearing loop gives up each cell from the top down |
| Eval.EvalCtx.Mov | src/eval.c:199-218 | the handler does what the machine model says of MOV, or reports the error and changes nothing |
| Eval.EvalCtx.Push | src/eval.c:219-236 | likewise PUSH |
| Eval.EvalCtx.PushArg | src/eval.c:1025-1029 | eval_push_arg |
| Eval.EvalCtx.Pop | src/eval.c:237-249 | likewise POP |
| Eval.EvalCtx.Call | src/eval.c:250-276 | likewise CALL |
| Eval.EvalCtx.Return | src/eval.c:277-297 | likewise RETURN, with SP at the value |
| Eval.EvalCtx.ArgsLocals | src/eval.c:298-314 | likewise ARGS_LOCALS, by its loop |
| Eval.EvalCtx.LoadString | src/eval.c:366-379 | likewise LOAD_STRING |
| Eval.EvalCtx.Concat | src/eval.c:894-930 | likewise CONCAT, sources read first |
| Eval.EvalCtx.Syscall | src/eval.c:813-867 | likewise SYSCALL: the table is searched by name and arity, name and arguments are consumed |
| Eval.EvalCtx.GetGlobal | src/eval.c:931-941 | likewise GETGLOBAL, by the search of src/object.c:131-143 |
| Eval.EvalCtx.SetGlobal | src/eval.c:942-955 | likewise SETGLOBAL; without the lock the run has to be retried and nothing changes |
| Eval.EvalCtx.MakeObj | src/eval.c:956-967 | likewise MAKE_OBJ |
| Eval.EvalCtx.Halt | src/eval.c:165-173 | likewise HALT in the outermost frame |
| Eval.EvalCtx.Step | src/eval.c:154-992 | one turn of the dispatch loop is one step of the machine model; every state it leaves is well framed |
| SlotList.StoredIsFound | src/object.c:107-166 | a slot list is a map: what is stored is found, other names are untouched, no name has two slots |
| ObjectSlots.GlobalIsLookup | src/object.c:131-143 | reading a global in the machine is looking its name up in the slot list of its object |
| ObjectSlots.StoreIsStored | src/object.c:145-166 | writing one is storing it in that list, and leaves the lists of other objects alone |
| SlotList.Slots.Find | src/object.c:92-105 | the walk stops at the first slot of that name |
| SlotList.Slots.Get | src/object.c:131-143 | the value under the name, or none |
| SlotList.Slots.Set | src/object.c:107-129 | the slot is overwritten in place or a new one put in front |
| SlotList.Slots.Copy | src/object.c:229-267 | a new chain with the same slots in the same order |
| SlotList.Slots.CopyHeadAsWritten | src/object.c:229-248 | as the code stores it, the head of a copy stays null |
| SlotList.HeadOfEmpty | src/object.c:229-248 | a list without a head is the empty one |
| CodeBuffer.SizeIsExact | src/object.c:180-195 | the size of the first pass is the number of bytes of the format |
| CodeBuffer.ByteOfInteger | src/object.c:198-217 | numbers stand with their lowest byte first |
| CodeBuffer.Layout | src/object.c:198-217 | where everything stands: id, number of parents, each parent, number of methods, methods |
| CodeBuffer.MethodAt | src/object.c:205-216 | where each method stands among the methods, and in it the length of its name, its name, the length of its code, its code |
| CodeBuffer.ObjectRead | src/object.c:200-217 | an object can be read back from its bytes, whatever follows them |
| CodeBuffer.UniquelyDecodable | src/object.c:180-218 | equal buffers, even a buffer that begins another, mean equal id, parents and methods |
| Objects.RemoveUndoesAdd | src/object.c:74-90 | removing a parent just added undoes the addition; of two equal parents the earlier goes |
| Objects.RemoveExact | src/object.c:80-90 | moving as many bytes as there are entries behind is right exactly when each entry agrees with the next above the bytes that are moved, duplicates or not |
| Objects.RemoveExactWords | src/object.c:80-90 | for 64-bit ids with 8q + r entries behind: exactly when entry q agrees with the next above r bytes and the rest are all equal |
| Objects.RemoveExactDistinct | src/object.c:80-90 | for distinct parents: exactly for the last, or the last but one when the two differ in their lowest byte only |
| Objects.CopyCounts | src/object.c:249-267 | copying the globals counts a reference for each |
| Objects.LostCopyLeaks | src/object.c:249-267 | when the copy's head is lost the counts are right exactly if no global is a string |
| Objects.Object.AddParent | src/object.c:74-78 | the parent goes to the end of the grown array |
| Objects.Object.RemoveParent | src/object.c:80-90 | the first occurrence goes and the entries behind it move down |
| Objects.Object.Copy | src/object.c:220-270 | same id, parents, methods and globals in fresh memory, references counted |
| Objects.Object.SizeRequired | src/object.c:180-195 | the size pass computes exactly the number of bytes |
| Objects.Object.CodeToBuffer | src/object.c:180-218 | the buffer, grown if it was too short, begins with the object's bytes, and the rest of it is as before |
| MethodLookup.OrderIsAncestors | src/eval.c:92-106 | the depth-first order lists exactly the object and its ancestors |
| MethodLookup.NotFoundExactly | src/eval.c:92-106 | "not found" is the answer exactly when no ancestor has code under the name |
| MethodLookup.FindCode | src/eval.c:92-106 | the search returns the code of the first definer in depth-first parent order, touches exactly the objects up to it, and ends |
| MethodLookup.OwnCodeFirst | src/eval.c:92-106 | the answer is the object's own code if it has any, else that of the first parent whose own search finds some, else none |
| MethodLookup.DefinedIsFound | src/eval.c:92-106 | if a path along parents leads to an object with code under the name, some code is found |
| MethodLookup.FirstPathFound | src/eval.c:92-106 | the answer is the code at the end of the first path, prefixes first and parents by their position, whose end has code under the name |
| MethodLookup.TouchedFirst | src/eval.c:92-106 | the search touches the object, and only if that has no code the parents in order, each with what its own search touches, up to the first that finds some |
| MethodLookup.ChangeSane | src/store.c:171-177 | a new object is younger than its parent and all others |
| MethodLookup.SearchAlwaysEnds | src/store.c:171-177 | in every world grown from the first objects there is no cycle of parents |
| CacheModel.GetSound | src/cache.c:73-100 | a get finds what is there, pins it once more and takes it out of the release order |
| CacheModel.PutSound | src/cache.c:102-120 | a put adds exactly that object, pinned once |
| CacheModel.UnpinSound | src/cache.c:122-140 | a release gives up one pin; the last one puts the object at the end of the release order |
| CacheModel.EvictSound | src/cache.c:142-153 | eviction takes exactly the objects released longest ago, none pinned, and stops at the bound or when everything left is pinned |
| CacheModel.EvictStops | src/cache.c:142-153 | eviction takes nothing once the bound is met |
| CacheModel.RunByRelease | src/cache.c:122-154 | over every run the release order is by the time of the last release, the longest ago first: an eviction takes the least recently released |
| CacheModel.RunAgrees | src/cache.h:7-22 | over every sequence of get, put and release: lookups agree with a plain map, pins with who holds what, and what is held is found |
| CacheModel.FlagEvictsHeld | src/lobject.c:43-49 | with a flag for a pin an object is evicted under its second holder exactly when the entries outside the release order exceed the bound |
| UnlinkedCache.GetRight | src/cache.c:79-93 | with `newer` never set, a get keeps the list right exactly when the entry is outside it or is the newest |
| UnlinkedCache.PutRight | src/cache.c:102-120 | a put always keeps it right |
| UnlinkedCache.UnpinRight | src/cache.c:128-136 | so does the splicing of a release |
| UnlinkedCache.EvictRight | src/cache.c:142-153 | an eviction keeps it right exactly when it has nothing to do or one entry to choose from |
| UnlinkedCache.RunRight | src/cache.c:73-154 | over every run the code's cache is the intended one in all states exactly when no event does harm |
| UnlinkedCache.HeldStays | src/cache.c:73-154 | over every run, harmful or not, no held object is evicted: pins are what was handed out less what was given back |
| ObjectCache.NextIn | src/cache.c:74-98 | the entry a bucket or chain pointer has to name: the next one that hashes to the bucket |
| ObjectCache.Cache.constructor | src/cache.c:50-60 | a new cache is empty |
| ObjectCache.Cache.Find | src/cache.c:74-98 | walking the chain of the id's bucket finds the entry of that id, or none |
| ObjectCache.Cache.Unlink | src/cache.c:79-93 | the entry leaves the doubly linked list, which stays well linked at both ends |
| ObjectCache.Cache.LinkNewest | src/cache.c:128-136 | the entry joins at the newest end, its neighbour pointing back at it |
| ObjectCache.Cache.PutEntry | src/cache.c:102-111 | the entry goes in front of its bucket's chain |
| ObjectCache.Cache.RemoveFromBucket | src/cache.c:142-153 | the entry leaves its chain: each chain still holds exactly the entries that hash to it |
| ObjectCache.Cache.EvictionDangles | src/cache.c:142-153 | without that step the pointer that named the entry still does, and the chains are wrong for the entries that stay |
| ObjectCache.Cache.Get | src/cache.c:73-100 | on chains and list, exactly the get on values |
| ObjectCache.Cache.Put | src/cache.c:102-120 | on chains and list, exactly the put on values |
| ObjectCache.Cache.EvictOne | src/cache.c:142-153 | the oldest unpinned entry leaves list, chain and count |
| ObjectCache.Cache.Release | src/cache.c:122-154 | on chains and list, exactly the release on values with its evictions |

## Left out

- Waiting by condition variable and the latches: `src/lock.c`'s `pthread_cond_wait`, mutexes and wake-ups. A request, its search and its faults are one step, and so are marking and withdrawing a victim.
- More than one deadlocked transaction in a group (src/lock.c:279-281): each victim is withdrawn at once, so the single mark of a group is not modelled.
- The memory that `memmove` in a withdrawal corrupts (src/lock.c:304-305): it writes over the wait group instead of its entries, which has no meaning in the model.
- Store.Store.SetGlobal: runs on the queues of `LocksCtx`; the linked locks of `LinkedLock` and the linked cache of `ObjectCache` are proved against the same functions but are not its fields.
- LocksCtx.Locks.LockLock: names a lock by the id of its object and keeps the queues of all locks in one map; the linked groups of one lock are in `LinkedLock`, and both are proved against the same functions.
- Store.Store.StartTx: without a free cid the code leaves the cid unset and asserts on it, the model answers none.
- Store.Store.GetObject: does not call the cache; looking the object up, loading and pinning it is in `StoreCache`, on values.
- Store.Store.MakeObject: does not call the cache either, and leaves the parent of the new object to `MethodLookup`.
- Store.Store.FinishTx: does not call the cache; giving each object back is in `StoreCache`.
- StoreCache.RunPins: pins are counted, as src/cache.h:16 promises; what the flag of src/lobject.c does instead is `CacheModel.FlagEvictsHeld`.
- Serializability.ParallelEqualsSerial: asks, as `TxLedger.ProgramsRunSerially` does, that aborted transactions wrote nothing, because the code has no undo (src/vm.c:156-157, TODO:21); object ids are inputs of the programs, since which id an allocation gives depends on the interleaving.
- TxLedger.ProgramsRunSerially: takes the programs and the actions as given. That the bytecode a transaction executes is one of these programs is not proved: the machine keeps strings by address, and a program there is any function of the values read.
- Freedom from starvation over retries: each retry takes a new sid, so the code does not provide it.
- A failed lock during CALL or method lookup (`assert` on the object, src/eval.c:100, 259): the transaction is doomed in `TxSystem`, and CALL raises in `Machine`.
- Bytecode.FetchedBack: says nothing of bytes that are no instruction; `Machine` takes instructions with their operands, so its theorems hold for any code at any address, and JUMP moves `ip` by its offset as the code does.
- What `Machine` takes as given: addresses from malloc (fresh ones), code found by the lookup, the answer of the lock, new object ids, the first parent, and the rounded result of float arithmetic.
- Errors: where the code only reports an error ("!!", mostly with "XXX raise" beside it) and goes on, the machine raises and leaves the state as it was; getters that assert a type raise as well. For the mismatch that LE and LT report, `EvalAsWritten.MismatchGoesOn` says what the code stores.
- Eval.EvalCtx.Call: takes the code that the lookup found as an operand; the lookup itself is `MethodLookup.FindCode`.
- Eval.EvalCtx.Syscall: raises for a name that is not in the table; what the code does then is `EvalAsWritten.SyscallExact`.
- Eval.EvalCtx.SetGlobal: takes the answer of the lock as an operand; `Store.Store.SetGlobal` has the request.
- Eval.EvalCtx.MakeObj: takes the new id as an operand; `Store.Store.MakeObject` allocates it.
- Eval.EvalCtx.Step: takes the decoded instruction; what is decoded from which bytes is `Bytecode.FetchedBack`.
- Stack growth: the code does not check it, so PUSH and ARGS_LOCALS of `Eval.EvalCtx` ask for room.
- HALT inside a nested frame: it would clear saved registers as if they were values, and raises here.
- The bodies of system calls, and results they might leave on the stack: SYSCALL consumes name and arguments, as the code does.
- Overflow of C ints in arithmetic is taken as two's complement; buffer sizes beyond a C int are not modelled.
- DEBUGI, DEBUGR, USLEEP, DIV, MOD and JUMP_EQ, NE, LE, LT: debug aids and handlers without a body.
- val_print: printing of values.
- obj_state_from_buffer, obj_state_to_buffer and obj_code_from_buffer: empty in the code. The reader in `CodeBuffer` exists to prove that the format can be read.
- Objects.Object.Copy: copies in separate loops what obj_copy copies in two; the references of globals are counted in a loop of their own.
- cache_resize and the count of used slots that triggers it: unimplemented in the code.
- cache_free, obj_free, lock_free and the other destructors.
- CacheModel.EvictSound: the pin is a count, as src/cache.h:16 promises, kept in the entry instead of the object.
- Eviction with a dangling chain (src/cache.c:142-153), or of an entry that another's `older` still names (src/cache.c:86-88): a later walk or get touches freed memory, which has no meaning in the model.
- A get of an object that can be loaded no more (the assertion of src/store.c:146-147): `StoreCache` loads it all the same; which ones those are is `StoreReload.GoneExactly`.
- MethodLookup.FindCode: the parents of an object exist, as they do in every world of `MethodLookup.SearchAlwaysEnds`; parents added or removed by hand, which only src/test/check_object.c does, could close a cycle.
- src/net.c, src/main.c, the threads and queues of src/tasks.c, src/ntx.c, the call glue of src/vm.c, the stub data of src/persist.c beyond its three objects without parents, and the compiler in src/ccsample: sockets, plumbing, short lists and stubs that would add easy members only.

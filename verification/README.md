# GreenJade: the capability space and the boot memory path in Dafny

GreenJade is a capability kernel. This project models its two cores and proves what they keep.

**The capability space.** A CNode is a table of slots addressed by (slot, generation). An occupied slot names
an object, a type, a rights mask and the object's generation at install time. Install, mint, copy, move,
delete, the bounded invalidate and the walk of the derivation index change four structures together: the
slots, the object's slot count, one linked list of derivation edges per object from a fixed pool, and a chain
of quota accounts.

- `QuotaLedger`, `EdgePool`: the account chain and the edge pool, as values and updated in place.
- `CapState`, `CapOps`: the state as a value and every operation as a function of it.
- `CapInvariant`, `CapRuns`: nine atomic effects, the global invariant each keeps, and runs of operations as
  sequences of effects. A property of every effect becomes a property of every reachable state.
- `CapAnswers`: each operation as its caller sees it, when it succeeds, what it changes and what each error means,
  without the functions it is made of.
- `CapAuthority`, `CapRevocation`, `CapHandles`, `CapAccounting`, `CapHygiene`: the theorems over runs.
- `CapWalk`: the walk of the derivation index, with lock words that stand still and with other processors
  taking and dropping CNode locks at every visit.
- `CapReparent`: when re-linking an account, or attaching one to a CNode in use, leaves the books balanced.
- `CapKernel`: the operations on slot arrays, object headers, linked edges and account tables. Each method is
  proved to take the abstract state to what the function in `CapOps` says.
- `RevokeQueue`, `RevokeDriver`: revoke, its 64-entry queue and the deferred tick, as values and updated in place.
- `RevokeAnswers`: revoke and reclaim as their callers see them.
- `RevokeTraces`, `RevokeFairness`, `RevokeStarvation`: whole traces of revokes, ticks and other operations: what
  AGAIN costs, when every queued object gets its turn, and how one can be passed over.

**The boot memory path.** `PageTables`, `EfiMap`, `Multiboot2`, `Multiboot2Kernel`, `ElfLoader`, `ExitProtocol`
and `LogRing` model the identity map, the three walks over the firmware memory map, the bounded inventory of the
Multiboot2 tags, the kernel's unbounded walk over the same tags, the kernel loader, the exit from boot services
and the boot log. `ByteFormats`, `ElfFile`, `EfiRecords` and `Multiboot2Tags` write the files, maps and tags those
read, field by field, and prove that each is read back as it was written. `BootBytes` and `Words` hold shared
arithmetic. The unbounded walk has no bounds of its own, so
it is modelled as a machine over memory that goes on behind the information; eleven more bytes are all it can
touch once the inventory is ok.

Where the code does less than its documentation promises, the code is modelled as it is, a lemma gives an input
that shows the gap, and another gives the condition under which the promise holds, exact in every case but the
round-robin:

- `gj_cap_quota_set_parent` looks only eight nodes up for a cycle: `SetParentCanCloseCycle`, `SetParentAcyclicIff`.
  Even so no sequence of link updates makes a charge visit an account twice: `LinkedChainsDistinct`.
- The visit bound of the index walk is 32-bit arithmetic and can wrap to zero: `WalkCanStall`, `WalkUsesBudgetIff`.
- A revoke answered AGAIN is documented as retriable, but a second attempt is answered DEAD before the queue is
  tried, so no tick and no retry ever clears its slots: `AgainHappens`, `AgainIsForever`, `AgainLosesWork`, and
  `BeginTrackedIff` for when work is kept.
- The round-robin is meant to keep one object from starving its siblings, but its cursor is reduced modulo the
  published length, so reclaiming entries behind it can throw it back over the head of the queue:
  `StarvationHappens` gives runs of any length in which the head entry is never served, and `TicksAreFair` shows
  that every entry is served in turn as long as no tick finds the cursor at or past the published length.
- The identity-map checker does not test the page-size bit of links or the reserved bits of leaves:
  `CoverMissesPageSize`, `CoverMissesReservedBit`, `CoverIsIdentityIff`.
- The kernel's walk over the Multiboot2 tags never ends on a memory map with entries of size zero, which the
  inventory accepts: `KernelCanLoop`, `KernelHaltsIff`.
- It also reads a trailing partial entry, and entries shorter than 24 bytes, that the inventory leaves out:
  `PartialEntryIsRead`, `LoopsAgreeIff`, `TagsAgreeIff`.
- The loader's fill and copy ignore address zero, so a span that starts there is not blanked: `LowSpanStaysDirty`,
  `LoadedBytes`.
- Re-parenting an account that holds charges can leave the books of the accounts above it wrong:
  `AdoptCanUnbalance`, `AdoptBalancesIff`, and `AttachKeepsInvIff` for attaching an account to a CNode in use.
- A slot generation returns after 2^32 - 1 invalidations, and only then: `OldHandleReturns`,
  `StaleHandlesStayStale`.

CNodes, objects and accounts are named by table index, and an index past the end stands for a null pointer.
Rights masks are sets of bit positions. Words of 32 and 64 bits are numbers with their wrap-around written out.

## Model

| member | source | states |
|---|---|---|
| CapRuns.StepKeepsInv | kernel/cap/cnode.c:614-927 | every operation, successful or not, keeps the global invariant: counts equal a full scan, lists are repetition-free and name slots holding their object, the pool counter equals the listed edges, and each account equals the slots whose charge reaches it, within its limit |
| CapRuns.Run | kernel/cap/cnode.c:2228-2506 | the invariant holds after any sequence of operations, including index walks that compete with other processors for CNode locks |
| CapRuns.InitialInv | kernel/cap/cnode.c:434-480 | freshly initialised tables satisfy the invariant, with chains of accounts of any length |
| CapRuns.StepIsEffects | kernel/cap/cnode.c:2228-2506 | every operation is a sequence of enabled atomic effects and nothing else |
| CapRuns.RunIsEffects | kernel/cap/cnode.c:2228-2506 | a run of operations is the sequence of its effects |
| CapRuns.FailureChangesNothing | kernel/cap/cnode.c:682-879 | install, alloc-install, mint, copy, move or delete with a non-OK answer leaves the whole state unchanged |
| CapRuns.FreeSlotUnlisted | kernel/cap/cnode.c:1982-2062 | a free slot is on no list, so wiring a new slot never meets an edge for it |
| CapInvariant.ApplyKeepsInv | kernel/cap/cnode.c:682-927 | each of the nine atomic effects keeps the invariant |
| CapInvariant.VacateMetered | kernel/cap/cnode.c:2192-2220 | clearing a slot keeps accounts equal to the slots below them, and every account on the chain is positive, so the refund's stop at zero never takes effect |
| CapInvariant.AdoptKeepsInv | kernel/cap/cnode.c:2095-2121 | re-parenting an account keeps the invariant whenever no CNode in use changes the accounts it charges |
| CapReparent.AdoptBalancesIff | kernel/cap/cnode.c:2095-2121 | re-parenting any account, charged or not, with chains of any length, leaves every account equal to the slots that charge it iff no CNode in use changes the accounts it charges |
| CapReparent.AdoptKeepsInvIff | kernel/cap/cnode.c:2095-2121 | the whole invariant survives re-parenting under exactly that condition |
| CapReparent.AdoptEmpty | kernel/cap/cnode.c:2095-2121 | an account that holds no charge can always be re-parented |
| CapReparent.AdoptBoundedIff | kernel/cap/cnode.c:2095-2121 | where chains end in the depth bound the condition is: the account holds no charge, or lies under the same accounts as before |
| CapReparent.AdoptCanUnbalance | kernel/cap/cnode.c:2095-2121 | an initial state in which one install and then linking the charged account under another leaves that one a slot short |
| CapReparent.AttachKeepsInvIff | kernel/cap/cnode.c:2152-2220 | attaching an account to a CNode keeps the invariant iff the CNode is empty or its charges reach the same accounts as before |
| CapInvariant.LifeKeepsInv | kernel/cap/revoke.c:971-1041 | winning a revoke, burying and reusing a reclaimed header keep the invariant |
| CapOps.CheckLive | kernel/cap/cnode.c:654-665 | a use is live exactly when the object is LIVE with the generation captured at install |
| CapOps.Resolve | kernel/cap/cnode.c:614-680 | a handle resolves only to an occupied slot of its generation naming a live object whose generation is the one captured in the slot, with that slot's type and rights |
| CapOps.FirstFree | kernel/cap/cnode.c:856-873 | the slot chosen is free and no lower one is |
| CapAnswers.ResolveAnswers | kernel/cap/cnode.c:614-680 | a resolve answers INVAL for a missing CNode, slot or a zero generation, NOENT for a free slot, STALE for another generation, DEAD for an object that is not live, and else the slot's type, rights and object |
| CapAnswers.InstallAnswers | kernel/cap/cnode.c:682-808 | an install succeeds iff the slot is free and is slot 0 exactly for the root capability, the object is live and countable and every account has room; it then fills that slot, with its old generation and the object's, adds one to the count and to each account eight links up, and changes nothing else |
| CapAnswers.InstallErrors | kernel/cap/cnode.c:682-808 | which mistake each error of an install stands for, and which comes first |
| CapAnswers.AllocAnswers | kernel/cap/cnode.c:814-879 | an allocation succeeds iff the object can be named once more and there is a slot: slot 0 for the root capability, else the lowest free one from 1; it fills exactly that one |
| CapAnswers.AllocErrors | kernel/cap/cnode.c:814-879 | which mistake each error of an allocation stands for; a full CNode is QUOTA before anything about the object |
| CapAnswers.MintAnswers | kernel/cap/cnode.c:2222-2301 | a mint succeeds iff the handle opens a slot with MINT that shares a right with the mask and the destination has room; the new slot lies in the destination, or the source's CNode where none is given, with the source's type and object and exactly the shared rights, and is listed first if the pool has an edge; errors one by one |
| CapAnswers.CopyAnswers | kernel/cap/cnode.c:2303-2356 | a copy succeeds iff the handle opens a slot with GRANT and its CNode has room; the new slot holds all of the source's rights for an empty mask and else those in the mask; errors one by one |
| CapAnswers.MoveAnswers | kernel/cap/cnode.c:2358-2442 | a move succeeds iff the handle opens a slot other than 0 with GRANT and the CNode has room for a second one, however full the edge pool is; the new slot takes over type, rights, object and place in the index, the old one is freed under the next generation, and counts and accounts stay |
| CapAnswers.DeleteAnswers | kernel/cap/cnode.c:2444-2506 | a delete succeeds iff the handle opens a slot other than 0 with DESTROY or GRANT; the slot is freed under the next generation, its edge cut out, and the count and each account lowered by one; else PERM, or the answer of the resolve |
| CapOps.MatchingSpec | kernel/cap/cnode.c:904-913 | the scan of a CNode meets exactly the slots naming the object, lowest first |
| CapAuthority.AuthorityConfinement | kernel/cap/cnode.c:2222-2405 | over any run: no slot for an object gains a right none held; without MINT its set of CNodes never grows; without MINT and GRANT no new slot names it |
| CapAuthority.EffectConfined | kernel/cap/cnode.c:2255-2268 | one effect that derives from a slot confines authority the same way |
| CapAuthority.RootStaysHome | kernel/cap/cnode.c:722-738 | over any run the root capability stays in slot 0 and nothing else gets there |
| CapRevocation.GoneIsUnusable | kernel/cap/cnode.c:654-755 | once an object is not LIVE no handle resolves to it and no install, mint, copy, move or delete of it succeeds |
| CapRevocation.ResolvesIff | kernel/cap/cnode.c:614-680 | in every reachable state a handle resolves iff its slot is occupied with that generation and the object is live |
| CapRevocation.RevokeTakesEffectAtOnce | kernel/cap/revoke.c:985-1013 | winning the revoke race is enough, and clears no slot |
| CapRevocation.RevocationIsPermanent | kernel/cap/cnode.c:654-755 | in every continuation that does not reuse the header the object stays unusable and the slots naming it only shrink |
| CapRevocation.OnlyInvalidationClears | kernel/cap/cnode.c:887-927 | only the two invalidation paths remove a slot of a dead object |
| CapHandles.CycleLength | kernel/include/gj/cap.h:615-628 | a slot generation comes back exactly after multiples of 2^32 - 1 invalidations |
| CapHandles.StaleHandlesStayStale | kernel/cap/cnode.c:645-652 | after any run a handle matches its slot again iff the slot was cleared a multiple of 2^32 - 1 times, and after any other number of clears it does not resolve |
| CapHandles.OldHandleReturns | kernel/include/gj/cap.h:615-628 | a run of 2^32 - 1 deletes and installs in one slot, permitted from a reachable state, after which the handle deleted first resolves again |
| CapHandles.RootSlotPinned | kernel/cap/cnode.c:2383-2392 | no operation but the two invalidation paths empties the root slot of a CNode |
| CapAccounting.AuditIsExact | kernel/cap/cnode.c:1120-1149 | in every reachable state the count equals a full scan, count minus depth is the number of slots without an edge, and the match flag holds iff a walk reaches every slot |
| CapAccounting.EdgesAreUnique | kernel/cap/cnode.c:519-545 | a slot is on at most one object's list, and that list's object is the one it holds |
| CapAccounting.ChargeReachesAllAbove | kernel/cap/cnode.c:2152-2190 | with chains in the depth bound a charge reaches exactly the account and its ancestors |
| CapAccounting.QuotaConservation | kernel/cap/cnode.c:2152-2220 | in every reachable state an account is within its limit and charged for no more than the occupied slots of all CNodes attached at or below it, for exactly those iff it is among the first eight accounts of each of their chains, so always where chains end in the depth bound |
| CapAccounting.MoveIsNetZero | kernel/cap/cnode.c:2393-2436 | a successful move leaves every account, every object count and every other slot as it was, and the new slot is indexed iff the old one was or the pool had room |
| CapAccounting.MoveKeepsGrants | kernel/cap/cnode.c:2359-2442 | a move preserves the multiset of (type, rights, object) of the CNode |
| CapAccounting.TinyRunMoves | kernel/cap/cnode.c:814-879 | from freshly initialised tables an install can be followed by a successful move |
| CapHygiene.InvalidateIsExact | kernel/cap/cnode.c:887-927 | with the lock free exactly the first min(max, matching) slots are cleared with their edges and the rest still match; a busy lock changes nothing |
| CapHygiene.InvalidateRefunds | kernel/cap/cnode.c:914-921 | each cleared slot is refunded once to every account its charge reached, and to no other |
| CapHygiene.RepeatedInvalidateFinishes | kernel/cap/cnode.c:887-927 | as many calls with a positive bound as there are matches leave no slot of the CNode naming the object |
| CapWalk.WalkIsExact | kernel/cap/revoke.c:1117-1280 | while lock words stand still the retries are idle: a walk clears exactly the first budgeted edges in free CNodes among those it may visit, and nothing else |
| CapWalk.WalkUnderContention | kernel/cap/revoke.c:1117-1280 | under any history of other processors' locks the walk keeps the invariant, clears only edges whose CNode was free at a visit, stays within budget and visit bound, and, where the list fits the budget, leaves an edge only if all four passes found its CNode busy |
| CapWalk.WalkNeedsFree | kernel/cap/revoke.c:1117-1280 | whatever other processors do, a walk clears something only if some edge within its visit bound lay in a CNode that was free when it started |
| CapWalk.TwoWalksUnderContention | kernel/cap/revoke.c:1384-1412 | of two walks in a row, as a tick makes them, where the budget covers the list an edge is left only if all eight passes found its CNode busy, four under the locks held during each walk |
| CapWalk.QuietWalkIsSweep | kernel/cap/revoke.c:1143-1245 | without competition the passes amount to one sweep over the list |
| CapWalk.WalkUsesBudgetIff | kernel/cap/revoke.c:1125-1141 | with locks free the walk uses its whole budget iff the 32-bit visit bound covers it |
| CapWalk.WalkCanStall | kernel/cap/revoke.c:1125-1141 | a budget of 0x3ffffffe clears nothing at all, whoever holds locks |
| CapHygiene.LockCommutes | kernel/cap/cnode.c:483-512 | clearing slots and setting a CNode's lock commute |
| CapKernel.CNodeTable.constructor | kernel/cap/cnode.c:448-480 | every slot starts free with generation 1, no account, lock free |
| CapKernel.CNodeTable.TryLock | kernel/cap/cnode.c:483-503 | the lock is taken iff it was free |
| CapKernel.Kernel.constructor | kernel/cap/cnode.c:434-480 | a kernel over freshly initialised tables, headers, pool and accounts starts in an initial state, where the invariant holds |
| CapKernel.Kernel.Resolve | kernel/cap/cnode.c:614-680 | the array code answers what the specification answers, error by error |
| CapKernel.Kernel.Install | kernel/cap/cnode.c:682-808 | the array code makes the checks in order, charges last, and reaches the specified state and handle; every error leaves the state as it was |
| CapKernel.Kernel.AllocInstall | kernel/cap/cnode.c:814-879 | first free slot from 1, root meta only at slot 0, state and handle as specified |
| CapKernel.Kernel.DeriveInto | kernel/cap/cnode.c:2268-2291 | allocation then wiring; a pool miss does not fail the operation |
| CapKernel.Kernel.Mint | kernel/cap/cnode.c:2228-2301 | the array code reaches the specified state, status and handle, so a failed mint leaves slots, counts, lists and accounts as they were |
| CapKernel.Kernel.Copy | kernel/cap/cnode.c:2303-2356 | the array code reaches the specified state, status and handle, so a failed copy leaves slots, counts, lists and accounts as they were |
| CapKernel.Kernel.Move | kernel/cap/cnode.c:2358-2442 | the unlink, wire, refund, invalidate order reaches the specified state, and a failed move leaves slots, counts, lists and accounts as they were |
| CapKernel.Kernel.Delete | kernel/cap/cnode.c:2444-2506 | the unlink, refund, invalidate order reaches the specified state, and a failed delete leaves slots, counts, lists and accounts as they were |
| CapKernel.Kernel.InvalidateSlot | kernel/cap/revoke.c:1053-1098 | only a slot that still names the object is cleared, its generation bumped and the count dropped |
| CapKernel.Kernel.InvalidateObj | kernel/cap/cnode.c:887-927 | refines the specified invalidate and returns the number cleared |
| CapKernel.Kernel.WalkBatch | kernel/cap/revoke.c:1117-1280 | the pointer walk, its retries and its locks, held by anyone at any visit, refine the specified passes and return the number cleared |
| CapKernel.DropOrders | kernel/cap/cnode.c:2393-2436 | the orders of unlink, refund and invalidate used by delete, invalidate and move amount to the same drop |
| CapKernel.DropUnderLock | kernel/cap/revoke.c:1203-1230 | refund and invalidate under the lock, then unlink, amount to the same drop |
| CapKernel.ScanUnderLock | kernel/cap/cnode.c:896-925 | scanning under the lock and releasing it is the invalidate of the unlocked CNode |
| EdgePool.Pool.Alloc | kernel/cap/cnode.c:1026-1044 | hands out an edge iff one is unused, and counts it |
| EdgePool.Pool.Link | kernel/cap/cnode.c:519-545 | pushes any edge at the head, unless it is already on this list, which answers BUSY and changes nothing; an edge just checked out is never BUSY and leaves every list well formed |
| EdgePool.LinkJoins | kernel/cap/cnode.c:519-545 | linking an edge of another object's list joins the two: that object keeps its edges up to this one, goes on with the whole list linked to, and loses the rest of its own |
| EdgePool.Pool.Unlink | kernel/cap/cnode.c:546-572 | splices out exactly that edge and returns it to the pool; an absent edge changes nothing |
| EdgePool.Pool.UnlinkSlot | kernel/cap/cnode.c:574-604 | removes every edge naming the slot and only those |
| EdgePool.Pool.TryWire | kernel/cap/cnode.c:1982-2062 | wires at the head iff the pool is not exhausted, otherwise leaves the index alone |
| EdgePool.Pool.Free | kernel/cap/cnode.c:1046-1080 | clears the edge and its used flag and lowers the counter once |
| EdgePool.Pool.Depth | kernel/cap/cnode.c:1008-1024 | counts the whole list: the guard at the pool size never cuts it short |
| EdgePool.Pool.constructor | kernel/cap/cnode.c:935-937 | an empty pool of any size is well formed |
| QuotaLedger.Ledger.Charge | kernel/cap/cnode.c:2152-2190 | charges every account of the chain or none, succeeding iff all have room |
| QuotaLedger.Ledger.Refund | kernel/cap/cnode.c:2196-2220 | lowers every account of the chain, stopping at zero |
| QuotaLedger.Ledger.Reparent | kernel/cap/cnode.c:2095-2121 | sets the link unless the account is met within the depth bound |
| QuotaLedger.ChargeKeepsLimits | kernel/cap/cnode.c:2152-2190 | over a chain without repetition a charge that passes the check leaves no account above its limit |
| QuotaLedger.OverLimitIff | kernel/cap/cnode.c:2152-2190 | over any chain an account ends above its limit iff its number of visits exceeds the room it had, in 32-bit arithmetic |
| QuotaLedger.RefundUndoesCharge | kernel/cap/cnode.c:2152-2220 | over a chain without repetition a refund restores every account |
| QuotaLedger.RefundUndoesChargeIff | kernel/cap/cnode.c:2152-2220 | over any chain a refund restores every account iff no account wrapped around |
| QuotaLedger.BoundedChainNoDup | kernel/cap/cnode.c:2160-2180 | a chain that ends in the depth bound visits no account twice |
| QuotaLedger.BoundedChargesDistinct | kernel/cap/cnode.c:2160-2180 | accounts whose chains all end in the depth bound are charged without repetition, as the invariant asks |
| QuotaLedger.SetParentAcyclicIff | kernel/cap/cnode.c:2105-2120 | re-parenting keeps the graph acyclic iff the account is not hidden above the new parent beyond the depth bound |
| QuotaLedger.SetParentAcyclicWhenBounded | kernel/cap/cnode.c:2105-2120 | it is safe whenever the new parent's chain ends within the bound |
| QuotaLedger.SetParentCanCloseCycle | kernel/cap/cnode.c:2105-2120 | for every line of more than eight accounts, linking the root under the leaf closes a cycle |
| QuotaLedger.SetParentKeepsDistinct | kernel/cap/cnode.c:2095-2121 | a link update keeps every charge chain free of repetition, even where it closes a cycle |
| QuotaLedger.LinkedChainsDistinct | kernel/cap/cnode.c:2095-2190 | after any sequence of link updates from unlinked accounts no charge visits an account twice |
| RevokeQueue.PushOk | kernel/cap/revoke.c:881-918 | an object is queued once, fails only on a full queue, and others are untouched |
| RevokeQueue.RemoveOk | kernel/cap/revoke.c:920-943 | dropping an entry removes that object only and leaves the published length at the last entry in use, or zero |
| RevokeQueue.KilledIsEffects | kernel/cap/revoke.c:985-1013 | phase A is the race won and then the header buried with a new generation |
| RevokeQueue.BeginTrackedIff | kernel/cap/revoke.c:971-1041 | starting a revoke, of an object already queued or not, loses no work iff it has no slot or the queue has room for it; AGAIN iff it has none |
| RevokeAnswers.BeginAnswers | kernel/cap/revoke.c:881-1041 | INVAL for no object and DEAD for one that is not live, both without effect; else the object is dead under the next generation and nothing else about it changes, and it is OK with its entry kept or the lowest free one taken, or AGAIN iff all 64 are in use |
| RevokeAnswers.ReclaimAnswers | kernel/cap/revoke.c:1492-1529 | a header may be freed iff the object is dead, no slot anywhere names it, and no edge, reference or pin is left |
| RevokeTraces.AgainIsForever | kernel/cap/revoke.c:971-1041 | after AGAIN, over any trace without header reuse, the object never reaches the queue, every retry answers DEAD, and ticks and retries leave its list and its slot count as they were |
| RevokeTraces.AgainLosesWork | kernel/cap/revoke.c:971-1041 | ticks and retries alone keep such an object lost with all its slots |
| RevokeTraces.AgainHappens | kernel/cap/revoke.c:881-918 | a trace from a freshly initialised system, an install and 64 revokes, after which the next revoke answers AGAIN and its slot is lost |
| RevokeQueue.RotateIsModular | kernel/cap/revoke.c:1343-1352 | the ring position visited is the start plus the offset, modulo the published length |
| RevokeQueue.TickingEnd | kernel/cap/revoke.c:1315-1490 | a tick that used its budget or made a full round cleared something only if some queued dead object had an edge in a free CNode within the visit bound, and whenever one had and nobody competed |
| RevokeQueue.NothingLeft | kernel/cap/revoke.c:1315-1490 | with no work lost, locks free and nothing due, every dead object is without edges |
| RevokeQueue.FullRoundSifts | kernel/cap/revoke.c:1355-1369 | a full round of a tick drops every entry whose object is not dead, and no other |
| RevokeFairness.TicksAreFair | kernel/cap/revoke.c:1298-1352 | whatever happens between and during the ticks, an entry that is due at each of as many ticks as its queue is long has an edge cleared at one of them, provided no tick but the first finds the cursor at or past the published length |
| RevokeFairness.TicksInARowAreFair | kernel/cap/revoke.c:1298-1352 | as many ticks in a row as the queue is long clear an edge of every object that was due at the start, for any budgets whose visit bound does not wrap |
| RevokeFairness.FreeTicksDrain | kernel/cap/revoke.c:1315-1490 | locks may change hands between ticks: more ticks that find the locks free than there are edges in use reach a state in which every dead object is without edges |
| RevokeStarvation.RoundsStarve | kernel/cap/revoke.c:1339-1352 | rounds of two revokes, a tick, two reclaims and a tick never serve the head entry, though it is due at each tick, for as long as the entry behind it has edges |
| RevokeStarvation.RoundIsTrace | kernel/cap/revoke.c:971-1566 | each step of such a round is a revoke, a tick or a recycled header, as in the traces |
| RevokeStarvation.StarvationHappens | kernel/cap/revoke.c:1298-1352 | for every n below 2^32 a system and n such rounds, 2n ticks, in which the head entry is due at each tick and keeps its whole list |
| RevokeQueue.PurgeOk | kernel/cap/revoke.c:1554-1559 | dropping all entries of an object leaves the others queued and the queue well formed |
| RevokeAnswers.PurgeAnswers | kernel/cap/revoke.c:1531-1566 | exactly the entries of the object become free, and the published length ends at an entry in use |
| RevokeDriver.Revoker.Enqueue | kernel/cap/revoke.c:881-918 | the scan of the table refines the specified push |
| RevokeDriver.Revoker.Dequeue | kernel/cap/revoke.c:920-943 | refines the specified removal |
| RevokeDriver.Revoker.Revoke | kernel/cap/revoke.c:971-1041 | refines phase A with its status, queue and headers |
| RevokeDriver.Revoker.Reclaim | kernel/cap/revoke.c:1531-1566 | refuses iff the object is not ready; otherwise drops exactly its queue entries |
| RevokeDriver.Revoker.BatchTwice | kernel/cap/revoke.c:1384-1412 | an entry gets one walk and, if edges and budget are left, exactly one more with the rest of the budget |
| RevokeDriver.Revoker.Process | kernel/cap/revoke.c:1315-1490 | whoever holds locks at any visit, a tick clears at most its budget, leaves the lists of unqueued objects alone, loses no work, drops exactly the stale entries it scans, leaves the cursor behind the last entry scanned that had slots left, and clears something only if some queued dead object has an edge in a free CNode within the visit bound; where nobody competes it clears something whenever one has |
| RevokeDriver.Revoker.Redrive | kernel/cap/revoke.c:1315-1490 | as many ticks in a row as there are edges in use leave nothing due, whatever locks are set; with locks free and no work lost every dead object is then without an edge |
| PageTables.Build | kernel/boot/identity_map.c:554-585 | the loops write exactly one top link, four directory links, 2048 leaves and zero elsewhere |
| PageTables.BuiltIsIdentity | kernel/boot/identity_map.c:565-583 | for every aligned base whose six table pages end at or below 2^52 the 4-level walk maps every address below 4 GiB to itself, writable, and faults on every other |
| PageTables.BuiltIsCovered | kernel/boot/identity_map.c:211-268 | the checker accepts what the builder makes |
| PageTables.Inspect | kernel/boot/identity_map.c:211-284 | the verdict is PASS iff all links and leaves are right under a matching, aligned CR3, and FAIL iff CR3 differs or no leaf is right; the counters are the leaves with wrong flags, those with right flags and a wrong address, and the right directory links |
| PageTables.CoverIsIdentityIff | kernel/boot/identity_map.c:211-268 | for any tables the checker covers, an address translates to itself iff the page-size and reserved bits it does not test allow it |
| PageTables.CoverMissesPageSize | kernel/boot/identity_map.c:229-234 | covered tables whose first directory link claims a 1 GiB page do not map address 0 |
| PageTables.CoverMissesReservedBit | kernel/boot/identity_map.c:235-252 | covered tables with a reserved bit in the first leaf fault at address 0 |
| EfiMap.KernelTally | kernel/boot/boot_info.c:608-660 | for any descriptor size the kernel's loop leaves for each class the sum over the map's records |
| EfiMap.LoaderTally | kernel/boot/uefi_stub.c:543-584 | for any descriptor size the loader's own loop leaves those sums, with ACPI NVS under MMIO |
| EfiMap.KernelSummary | kernel/boot/boot_info.c:577-672 | the kernel's summary equals them, absent for an empty or Multiboot2 map, with usable bytes 4096 times the usable pages |
| EfiMap.UsableSplits | kernel/boot/boot_info.c:303-316 | usable pages are loader, boot-services, conventional and ACPI-reclaim pages |
| EfiMap.ClassesPartition | kernel/boot/boot_info.c:632-653 | every page is in exactly one class |
| EfiMap.Coalesce | kernel/main.c:9566-9605 | the loop leaves in the caller's table exactly the specified regions |
| EfiMap.RegionsAgree | kernel/main.c:9566-9605 | region lengths plus dropped bytes equal 4096 times the usable pages |
| EfiMap.RegionsExact | kernel/main.c:9566-9605 | regions and dropped ranges hold exactly the usable bytes, regions alone if nothing was dropped, and no two in a row touch |
| EfiMap.WalksAgree | kernel/boot/uefi_stub.c:543-597 | loader tally, kernel summary and region table account for the same usable pages, made of the same four classes |
| EfiRecords.RecordReadsBack | kernel/main.c:9488-9495 | a record written as type, padding, physical start, virtual start, pages and attributes is read back as its type, physical start and pages |
| EfiRecords.RecordStands | kernel/boot/boot_info.c:615-620 | record i of a map stands i descriptor sizes into it |
| EfiRecords.HandedOver | kernel/boot/boot_info.c:608-620 | every walk reads exactly the records of the map, at the descriptor size or at 40 bytes where that is too small |
| EfiRecords.TallyOfMap | kernel/boot/boot_info.c:627-656 | a finished tally reports the number of records and of empty ones, and the pages of types 1 and 2, 3 and 4, 5 and 6, 7, 9, and 11 and 12, with 10 for the loader only |
| EfiRecords.RegionsOfMap | kernel/main.c:9566-9605 | the region table holds only usable physical addresses of the written records, and all of them unless it is full |
| Multiboot2.WalkFrom | kernel/boot/boot_info.c:414-560 | every tag the bounded walk accepts lies with its whole declared size inside the information |
| Multiboot2.Classify | kernel/boot/boot_info.c:322-365 | totals the first 512 entries that lie whole inside the tag, or reports a bad header |
| Multiboot2.WalkTags | kernel/boot/boot_info.c:411-570 | stops within its cap, reads only declared bytes, ends in exactly one of ok and partial, and counts each type, each bad size, totals the first memory map and captures the framebuffer, basic memory and load base under their size guards |
| Multiboot2.FirstLoadBase | kernel/boot/boot_info.c:538-544 | the load base captured is the first non-zero one |
| Multiboot2.TakeInventory | kernel/boot/boot_info.c:374-570 | absent, rejected or walked as declared; tags equal the sum of the type counters plus the end tag |
| Multiboot2Tags.WalkOf | kernel/boot/boot_info.c:418-560 | of information written tag after tag at multiples of eight the walk accepts exactly those tags, up to its cap |
| Multiboot2Tags.InventoryOf | kernel/boot/boot_info.c:374-570 | information with up to 255 tags is ok with each tag counted; with more the walk stops at the 256th |
| Multiboot2Tags.CountsOf | kernel/boot/boot_info.c:443-548 | each type from 1 to 21 has its own counter, types 19 and 20 share one, and all others the last |
| Multiboot2Tags.MemoryOf | kernel/boot/boot_info.c:454-464 | lower and upper memory are those of the first basic-memory tag that gives other than zeros |
| Multiboot2Tags.FramebufferOf | kernel/boot/boot_info.c:477-503 | address, pitch, width, height, depth and type are those of the first framebuffer tag with an address |
| Multiboot2Tags.LoadBaseOf | kernel/boot/boot_info.c:538-544 | the load base is that of the first tag with one |
| Multiboot2Tags.MapOf | kernel/boot/boot_info.c:468-474 | the entries totalled are those written into the first memory map, up to 512 |
| Multiboot2Tags.TotalsReported | kernel/boot/boot_info.c:346-363 | byte totals are the sums of the lengths, of all entries and of those of type 1, as 64-bit words; available are those of type 1 that are not empty |
| Multiboot2Kernel.KernelWalk | kernel/main.c:9444-9475 | where the inventory is ok and the walk ends at all, the unbounded loop visits the same tags and keeps the first available entries of those it reads, whatever their size |
| Multiboot2Kernel.KernelHaltsIff | kernel/main.c:9449-9475 | where the inventory is ok the walk ends iff no memory-map tag with a payload has entries of size zero |
| Multiboot2Kernel.KernelCanLoop | kernel/main.c:9456-9467 | forty bytes the inventory accepts on which the walk does not end |
| Multiboot2Kernel.LoopsAgreeIff | kernel/main.c:9452-9468 | the entries read by the two entry loops are equal iff what is left over is nothing or holds a whole entry |
| Multiboot2Kernel.TagsAgreeIff | kernel/main.c:9450-9468 | for a whole tag they are equal iff the tag is whole: no payload, or entries of at least 24 bytes and no partial entry behind them |
| Multiboot2Kernel.PartialEntryIsRead | kernel/main.c:9456-9467 | information the inventory finds ok, with one whole entry and a piece of another, from which the kernel takes a second region made of the bytes behind it |
| Multiboot2Kernel.RegionsSumToAvail | kernel/main.c:9449-9468 | for one memory-map tag within both caps the kernel's regions sum to the inventory's available bytes |
| Multiboot2Tags.RegionsOf | kernel/main.c:9456-9467 | each entry of type 1 lands, with its address and length, in the row that as many such entries come before, as far as there is room |
| Multiboot2Tags.KernelReads | kernel/main.c:9450-9467 | of a written memory map without a partial entry the kernel reads exactly the entries |
| ElfLoader.Measure | kernel/boot/uefi_stub.c:2143-2170 | pass 1 finds the tight page span of the loadable segments, or that there are none |
| ElfLoader.Zero | kernel/boot/uefi_stub.c:1454-1467 | blanks exactly the range, and nothing at address zero |
| ElfLoader.Copy | kernel/boot/uefi_stub.c:1437-1452 | copies exactly the bytes, and nothing to address zero |
| ElfLoader.CopyAll | kernel/boot/uefi_stub.c:2195-2213 | refuses iff some segment runs past the file; leaves the image of all segments in order, or of those before the refused one |
| ElfLoader.Load | kernel/boot/uefi_stub.c:2128-2242 | a loaded file gives the span's image, a non-zero entry and the tight span; a failure is one of the documented causes; on every exit nothing outside the span changed, and nothing at all if the file was not recognised |
| ElfLoader.LoadedBytes | kernel/boot/uefi_stub.c:2190-2213 | of disjoint segments each holds its file bytes, the rest of the span is zero unless it starts at address zero, and nothing else changed |
| ElfLoader.LowSpanStaysDirty | kernel/boot/uefi_stub.c:1454-1467 | a segment at 0x100 gives a span from address zero whose other bytes keep what was there |
| ElfLoader.LoadedEntry | kernel/boot/uefi_stub.c:2216-2238 | the entry is the word after the first 8-aligned marker |
| ElfLoader.ScanFinds | kernel/boot/uefi_stub.c:2224-2233 | any 8-aligned marker h with h + 16 strictly below the span end makes the scan answer the first one |
| ElfLoader.ScanMisses | kernel/boot/uefi_stub.c:2224-2233 | without such a marker the scan answers nothing |
| ElfLoader.PhdrsAt | kernel/boot/uefi_stub.c:2143-2150 | header i is read i entry sizes into the table |
| ElfFile.PhdrReadsBack | kernel/boot/uefi_stub.c:299-308 | a program header written field by field in the order of the gABI is read back field by field |
| ElfFile.EhdrReadsBack | kernel/boot/uefi_stub.c:282-297 | so are table offset, entry size and number of the file header, and a file is recognised iff it starts with the ELF magic and class 64 and is for machine 62 |
| ElfFile.HeaderStands | kernel/boot/uefi_stub.c:2148-2150 | header i of a file stands i entry sizes behind the table's offset |
| ElfFile.HeadersReadBack | kernel/boot/uefi_stub.c:2143-2150 | the loader reads exactly the program headers of the file, at any stride |
| ElfFile.AcceptedFiles | kernel/boot/uefi_stub.c:2119-2210 | a file is loaded up to the entry scan iff it is recognised, shorter than its buffer, has a segment, and no segment's file bytes end behind it |
| ElfFile.SpanOfFile | kernel/boot/uefi_stub.c:2151-2170 | the span measured holds every segment with its whole memory size, at its physical address or, where that is zero, its virtual one, and no smaller stretch of pages does |
| ElfFile.LoadedSpan | kernel/boot/uefi_stub.c:2239-2242 | the base and length reported of a loaded file are that span |
| ElfFile.SegmentOfFile | kernel/boot/uefi_stub.c:2190-2213 | after a load each byte of a segment is its byte in the file, or zero behind the file's bytes, but for address zero |
| ElfFile.EntryOfFile | kernel/boot/uefi_stub.c:2216-2238 | the entry stands in memory, least significant byte first, right behind the first aligned marker |
| ExitProtocol.MapExitJump | kernel/boot/uefi_stub.c:2461-2591 | against any firmware every run that jumps hands over the final map and descriptor size, makes only the two retry calls after a failed exit and none after a successful one, and a served retry does jump |
| ExitProtocol.Firmware.GetMemoryMap | kernel/boot/uefi_stub.c:2466-2481 | a successful call leaves the current map in the buffer with its key and descriptor size |
| ExitProtocol.Firmware.ExitBootServices | kernel/boot/uefi_stub.c:2496-2500 | an exit succeeds only with the key of the current map |
| LogRing.Ring.Put | kernel/boot/uefi_stub.c:368-379 | after a put the ring holds the newest characters of the whole history |
| LogRing.Ring.PutAll | kernel/boot/uefi_stub.c:368-379 | the same after any run of puts |
| LogRing.Ring.WriteFile | kernel/boot/uefi_stub.c:1594-1644 | the one or two writes emit the newest min(n, capacity) characters in order, succeeding iff the file takes every chunk whole; a failed write leaves a prefix |
| LogRing.PutContents | kernel/boot/uefi_stub.c:368-379 | writing at the head adds the newest character and loses the oldest only from a full ring |

## Left out

- Telemetry counters, once-only log lines and inventories of every file: they observe and never decide.
- Interleaving inside one operation, except that other processors may hold any CNode lock at any visit of an index walk: operations and ticks are atomic steps.
- Caller-owned edges passed to `gj_cdt_edge_link`.
- Null output pointers of mint, copy and move, which answer INVAL before anything else.
- CapRuns.InitialInv: the parent links are those a sequence of link updates can make, which visit no account twice.
- CapInvariant.AdoptKeepsInv: runs re-parent or attach an account only where no CNode in use changes the accounts it charges; CapReparent.AdoptKeepsInvIff and CapReparent.AttachKeepsInvIff show that no other update keeps the books.
- CapRevocation.RevocationIsPermanent: reuse of a freed header, which starts a new object, is excluded from the continuation.
- RevokeDriver.Revoker.Process: that a due entry is served is stated for ticks without competition; a tick that competes may find every CNode busy and clear nothing.
- RevokeDriver.Revoker.Redrive: its ticks follow each other directly, RevokeFairness.FreeTicksDrain lets locks change in between; slots installed directly, without an edge, are left to the bounded invalidate.
- CapWalk.WalkIsExact: speaks of lock words that stand still; CapWalk.WalkUnderContention covers locks that change during the walk.
- RevokeFairness.TicksAreFair: a sufficient condition on the cursor; RevokeStarvation.StarvationHappens shows the failure without it, not that every such tick fails.
- PageTables.Build: joining an aligned address with its flag bits is addition; the load of CR3 is a parameter of the checker.
- EfiMap.Coalesce: maps whose page or byte sums overflow 64 bits, or that fill half the address space, are excluded.
- Multiboot2Kernel.KernelWalk: information the inventory does not find ok, on which the walk may leave the information; the walk that does not end is Multiboot2Kernel.KernelHaltsIff.
- ElfLoader.Load: files whose headers lie outside the file or whose addresses wrap, and a file buffer that overlaps the span; the answer of the firmware's page allocation, which the loader ignores, is not modelled.
- ExitProtocol.MapExitJump: firmware that reuses a map key for a different map.
- Everything else: drivers, scheduler, video, network, storage, user libraries and the panel paths of the loader.

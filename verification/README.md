# A moving collector the mutator cannot see: Dafny model and proofs

The repository moves Java objects under CHERI: a pause copies objects to fresh addresses,
records old-to-new addresses in a forwarding table, and revokes the old copies in the kernel.
A mutator that later uses an old reference traps, and a fault handler rewrites one register and
retries. References that are only compared go through an identity barrier. This project models
that system and proves that the mutator cannot tell: whatever it observes, a heap that never
moves could have shown it, up to the point where the program stops itself. It is not stopped for
nothing: only an unanswered fault, or a revocation that failed both ways, stops a run
(`MovingHeapSteps.RunStopsWithCause`), and every fault on a reference in `c0` to `c29` heals unless
its chain is too long to follow.

The parts, from the bottom up:

- `Prelude`, `Representable`, `Cheri`: 64-bit words, exact division, CHERI bounds compression
  (lengths of 12 bits exact, longer ones to 10 leading bits), and capabilities.
- `ProbeTable`, `Chase`, `ForwardTable`: open addressing for an arbitrary hash function, the
  transitive lookup, and the C table over its real slot array (`forward_table.c`).
- `CasInsert`, `CasLookup`, `InsertPublish`: the table's atomic steps interleaved by any number of
  threads, and what a lookup among them may answer.
- `Allocator`, `ConcurrentAlloc`: the bump allocator in 64-bit arithmetic, alone and interleaved.
- `Revoke`, `Handler`: the revocation wrappers over a kernel that may fail, the heal core and
  the identity barrier.
- `MovingHeap`, `MovingHeapRefinement`, `MovingHeapPause`, `MovingHeapPlan`, `MovingHeapRuns`,
  `MovingHeapProgress`, `MovingHeapMemory`, `MovingHeapSteps`: all of it as one state machine, its
  invariant, the refinement step by step, the collection pause, the theorems about whole runs, and
  when each step goes through, is refused or stops the program.
- `MovingHeapWitness`: states of that machine in which the promises end.
- `Evacuation`, `EvacuationHeal`: revoke-first evacuation by the mutators themselves, and the fault
  handler with the evacuation hook installed.
- `CppForwardingTable`, `FixPatch`: the C++ forwarding table and the hunk-count repair script.

`dafny verify dfyconfig.toml` checks the project.

Places where the code does something other than its comments or its users may expect, each with
a concrete input and the exact condition:

- A pause that moves more objects than the forwarding table has free slots turns roots into NULL
  and revokes objects nothing forwards (`MovingHeapWitness.InitialTableLosesRoot`,
  `MovingHeapPause.PauseExact`); a move limit of at most the free slots rules it out
  (`MovingHeapPause.LimitFits`).
- The handler's register scan overwrites an integer that equals a forwarded address
  (`Handler.ScanOverwritesInteger`, `MovingHeapRefinement.HealPreservesIff`).
- A chain of more than 4096 hops makes the identity barrier answer "different" for equal
  references (`MovingHeapWitness.OverlongChainMisses`, `MovingHeapRefinement.BarrierExact`).
- A kernel that clears permissions instead of tags breaks the barrier's second tier
  (`Handler.SecondTierMisses`, `MovingHeapRefinement.BarrierNeedsClearedTags`).
- Deleting an entry by inserting NULL makes a later insert-or-get of that key wait forever
  (`CasInsert.NullInsertThenCallWaits`, `CasInsert.ReturnsIff`).
- Overwriting a forwarding beside a lookup, which is left to safepoints, can return the old
  address with the new length (`InsertPublish.OverwriteTears`, `InsertPublish.OverwriteTearsIff`).
- A request near 2^64 wraps the bump cursor (`Allocator.WrapReissues`,
  `Allocator.PlaceAdvancesIff`).
- The hunk repair stops counting at body lines that start with `---` or `+++`, although its
  description counts them (`FixPatch.RightHeaderBroken`, `FixPatch.DocumentedCountsIff`).

## Model

| member | source | states |
|---|---|---|
| `MovingHeapProgress.RunFromStart` | src/cap_runtime/stopless_gc/handler.c:113-292 | From a fresh arena: every run, for all kernel replies, shows the mutator only what a heap that never moves could show; while the program runs, the moving heap stands for that heap and everything revoked is forwarded |
| `MovingHeapProgress.AccessFromStart` | src/cap_runtime/stopless_gc/handler.c:113-292 | From a fresh arena: every access through an in-bounds reference whose base register is one of c0 to c29 goes through, at once or after one heal, unless its chain is longer than 4096 hops |
| `MovingHeapRuns.RunRefines` | src/cap_runtime/stopless_gc/handler.c:113-292 | In every run of allocation, loads, stores, pointer arithmetic, comparisons, pauses, closes, lazy sweeps and heals, for all kernel replies, what the mutator observed is a run of a heap that never moves; unless the program stopped itself, the moving heap then stands for exactly that heap. Each step is guarded by the exact condition proved for it below |
| `MovingHeapRuns.ReadsLastWrite` | src/cap_runtime/stopless_gc/handler.c:113-292 | A store through one reference, then any collector, kernel and handler steps, then a load through any reference to the same object and offset, live or healed, yields what was stored, or the program stopped |
| `MovingHeapRuns.RunIsSafe` | src/cap_runtime/stopless_gc/revoke.c:123-232 | In every reachable running state no loadable capability in a register, and none a load could put there, reaches any byte of a moved-away copy, whatever the kernel answered to opens, closes and fallback sweeps |
| `MovingHeapProgress.AccessSucceeds` | src/cap_runtime/stopless_gc/handler.c:113-292 | In every reachable running state an access through an in-bounds reference in one of c0 to c29 goes through, or is healed so that the retry goes through, unless the chain is longer than 4096 hops |
| `MovingHeapProgress.HealsAreBounded` | src/cap_runtime/stopless_gc/handler.c:133-238 | Between two sweeps, with any mutator steps in between, no more registers are healed than were not loadable at the start plus those the mutator wrote |
| `MovingHeapProgress.HealEnablesRetry` | src/cap_runtime/stopless_gc/handler.c:170-238 | Healing the decoded base register changes that register only, to a usable reference for the same object and offset |
| `MovingHeapProgress.RunForwards` | src/cap_runtime/stopless_gc/revoke.c:94-102 | In every run whatever has been revoked has a forwarding |
| `MovingHeapProgress.FixedRootIsCurrent` | patches/openjdk-jdk17/WIP-c9chase-stoplessHeap.cpp.record:243-317 | A root slot that holds the start of a moved object becomes the capability of its current copy |
| `MovingHeapRuns.StepRefines` | src/cap_runtime/stopless_gc/handler.c:113-292 | Every single step keeps the invariant and is a step of the non-moving heap, or halts showing nothing |
| `MovingHeapRuns.BackgroundIsInvisible` | patches/openjdk-jdk17/WIP-c9chase-stoplessHeap.cpp.record:328-477 | Pauses, closes, lazy sweeps and heals leave the abstract heap and registers exactly as they were, or halt |
| `MovingHeapRuns.StartIsGood` | src/cap_runtime/stopless_gc/revoke.c:37-83 | A fresh arena with an empty table satisfies the invariant and stands for the empty heap |
| `MovingHeapSteps.RunStopsWithCause` | patches/openjdk-jdk17/WIP-c9chase-stoplessHeap.cpp.record:423-444 | A run that stopped was stopped by one step that had cause: a fault nobody answers for, or a pause that met one while reading a root, or that had moved something and whose open and fallback sweep both failed |
| `MovingHeapSteps.PauseHaltsIff` | patches/openjdk-jdk17/WIP-c9chase-stoplessHeap.cpp.record:346-444 | A pause whose moves fit stops the program if and only if its walk meets a revoked root that does not resolve, or something moved, the counter did not advance, the open did not return 0 and the synchronous sweep did not clear in time; otherwise exactly the planned objects have moved and what is armed, pending or swept is stated |
| `MovingHeapSteps.PublishExact` | patches/openjdk-jdk17/WIP-c9chase-stoplessHeap.cpp.record:423-444 | Publishing stops the program exactly when revocation fails both ways; else the marks are armed with the close pending, or nothing loadable points into a marked copy any more |
| `MovingHeapSteps.HealHaltsIff` | src/cap_runtime/stopless_gc/handler.c:113-292 | A fault stops the program if and only if its code is neither 2 nor 5, or no register of the frame can be rewritten and si_addr does not resolve |
| `MovingHeapSteps.CloseEndsIff` | src/cap_runtime/stopless_gc/revoke.c:208-232 | A close ends the pending epoch if and only if one of its 11 replies clears the target, and then no swept copy is loadable from anywhere; otherwise nothing changes |
| `MovingHeapSteps.LazySweepKills` | src/cap_runtime/stopless_gc/revoke.c:184-206 | The barrier leaves nothing loadable into an armed copy in the cell it visits |
| `MovingHeapSteps.AllocExact` | src/cap_runtime/stopless_gc/allocator.c:49-84 | An allocation is refused if and only if the aligned, rounded extent would pass the end of the arena; otherwise the register holds a usable capability of at least the requested size at exactly that place |
| `MovingHeapSteps.AccessShows` | src/cap_runtime/stopless_gc/handler.c:275-277 | A load or a store through any live reference goes through |
| `MovingHeapSteps.CompareShows` | src/cap_runtime/stopless_gc/handler.c:766-789 | What a comparison of two references answers, and whether it could be followed, in terms of denotation and chain lengths |
| `MovingHeapSteps.MovedRootIsCurrent` | patches/openjdk-jdk17/WIP-c9chase-stoplessHeap.cpp.record:280-305 | A root whose object moves: the copy has every cell of the old one and lies apart from every copy, the old one is forwarded to it and marked, and with fixups on the root becomes its own loadable capability while no other root changes |
| `MovingHeapSteps.NoFixupKeepsRoots` | patches/openjdk-jdk17/WIP-c9chase-stoplessHeap.cpp.record:243-317 | With fixups off the walk rewrites no root |
| `MovingHeapSteps.GrowsIff` | src/cap_runtime/stopless_gc/forward_table.c:117-128 | The table doubles exactly at 70 percent load when memory allows |
| `MovingHeapRuns.OffsetStep` | src/cap_runtime/stopless_gc/handler.c:144-151 | Pointer arithmetic inside an object means the same on a live and on a revoked reference |
| `MovingHeapRefinement.AllocStep` | src/cap_runtime/stopless_gc/allocator.c:49-84 | An allocation adds one all-zero object, distinct from every other, or tells the mutator there is no room, and nothing else changes; which of the two is settled by MovingHeapSteps.AllocExact |
| `MovingHeapMemory.AllocTakesFreshCells` | src/cap_runtime/stopless_gc/allocator.c:64-84 | The cells of a new object were never issued: no existing cell changes, and the new ones read as fresh pages do |
| `MovingHeapMemory.RunIssues` | src/cap_runtime/stopless_gc/allocator.c:64-84 | In every run cells exist only where the cursor has been |
| `MovingHeapMemory.AllocFromStart` | src/cap_runtime/stopless_gc/allocator.c:49-84 | From a fresh arena, after any run, an allocation takes only never-issued cells |
| `MovingHeapRefinement.LoadStep` | src/cap_runtime/stopless_gc/revoke.c:184-206 | A load under the armed load barrier returns the last value stored at that place of the object and never a capability that is both stale and loadable |
| `MovingHeapRefinement.StoreStep` | src/cap_runtime/stopless_gc/handler.c:275-277 | A store changes exactly the addressed place of the one object its reference denotes |
| `MovingHeapRefinement.MovedState` | patches/openjdk-jdk17/WIP-c9chase-stoplessHeap.cpp.record:541-553 | One move (allocate, copy every cell, record the forwarding, mark) keeps every object, every register meaning and the structural invariant |
| `MovingHeapPause.WalkIsUnseen` | patches/openjdk-jdk17/WIP-c9chase-stoplessHeap.cpp.record:243-317 | The walk over all root slots, with its move limit, klass filter, fixups and unforwarded faults, changes nothing the mutator can see as long as the moves it makes fit into the free slots |
| `MovingHeapPause.DemandIsExact` | patches/openjdk-jdk17/WIP-c9chase-stoplessHeap.cpp.record:243-317 | A dry run with a table that never fills up tells, before the pause, whether the walk will overrun the free slots |
| `MovingHeapPause.MoveLoses` | patches/openjdk-jdk17/WIP-c9chase-stoplessHeap.cpp.record:280-305 | A move into a full table: cas_insert answers NULL, the root becomes NULL, and the old copy is remembered for marking with nothing forwarding it |
| `MovingHeapPause.PauseExact` | patches/openjdk-jdk17/WIP-c9chase-stoplessHeap.cpp.record:346-444 | A pause that does not stop the program keeps the abstract heap, and every marked copy forwarded, if and only if the table, after growing if memory allowed, has a free slot for every object the walk moves |
| `MovingHeapPause.LimitFits` | patches/openjdk-jdk17/WIP-c9chase-stoplessHeap.cpp.record:329-331 | A move limit of at most the free slots always satisfies that condition |
| `MovingHeapPause.ModestLimitFits` | src/cap_runtime/stopless_gc/forward_table.c:117-128 | After a grow that did not fail, so does a limit of three tenths of the capacity |
| `MovingHeapPause.PendingFits` | patches/openjdk-jdk17/WIP-c9chase-stoplessHeap.cpp.record:358-366 | While a close is pending nothing moves, and every pause satisfies it |
| `MovingHeapPlan.PauseFitsIffPlanned` | patches/openjdk-jdk17/WIP-c9chase-stoplessHeap.cpp.record:243-305 | The same condition read off the root slots, the table, the lengths and the cursor, without running the pause: distinct current loadable objects that find room, up to the limit, against the free slots |
| `MovingHeapPlan.DemandIsPlanned` | patches/openjdk-jdk17/WIP-c9chase-stoplessHeap.cpp.record:243-305 | The dry run moves exactly the planned number of objects, whether roots are fixed or not |
| `MovingHeapWitness.FullTableLosesRoot` | patches/openjdk-jdk17/WIP-c9chase-stoplessHeap.cpp.record:280-305 | A pause on a full table of any capacity up to the initial one, with no memory to grow: the invariant holds before, the only root becomes NULL, and its object is marked and not forwarded |
| `MovingHeapWitness.InitialTableLosesRoot` | src/cap_runtime/stopless_gc/forward_table.c:97-105 | The same for the 65536 slots the table starts with |
| `MovingHeapRefinement.ChainsAfterMove` | src/cap_runtime/stopless_gc/forward_table.c:239-242 | A move to an address above its source keeps every mapping going up the arena and leaves each object exactly one copy without a mapping |
| `MovingHeapRefinement.NewCopy` | src/cap_runtime/stopless_gc/allocator.c:64-80 | The bump cursor puts a new copy above and apart from every copy there is, with exactly representable bounds |
| `MovingHeapPause.FixIsFresh` | patches/openjdk-jdk17/WIP-c9chase-stoplessHeap.cpp.record:243-317 | What a forwarded root is overwritten with denotes the same object and is loadable and current |
| `MovingHeapRefinement.PublishIsSafe` | patches/openjdk-jdk17/WIP-c9chase-stoplessHeap.cpp.record:423-444 | After opening an epoch, or after the synchronous fallback sweep, no stale capability can be loaded; when it stops instead is MovingHeapSteps.PublishExact |
| `MovingHeapPause.PauseStep` | patches/openjdk-jdk17/WIP-c9chase-stoplessHeap.cpp.record:346-444 | A whole pause whose moves fit the table, with a grow that may fail and a walk that may move nothing because a close is pending, is invisible or stops the program |
| `MovingHeapRefinement.CloseStep` | patches/openjdk-jdk17/WIP-c9chase-stoplessHeap.cpp.record:513-525 | The closing scan ends the epoch only with nothing left for the barrier to catch; a close that does not finish leaves the epoch pending |
| `MovingHeapRefinement.CurrentCopy` | src/cap_runtime/stopless_gc/forward_table.c:230-245 | Every copy of an object, however old, leads to the same current copy, of the same length |
| `MovingHeapRefinement.ResolveIsCurrent` | src/cap_runtime/stopless_gc/forward_table.c:246-266 | A non-NULL lookup is the tight, live capability of the current copy; there is one exactly when the chain can be followed |
| `MovingHeapRefinement.MarkedImpliesForwarded` | src/cap_runtime/stopless_gc/forward_table.c:4-24 | While the moves of every pause fit the table: every marked start is a table key, and what a lookup hands out is apart from every range a sweep of the current marks would kill |
| `MovingHeapRefinement.HealsReference` | src/cap_runtime/stopless_gc/handler.c:133-168 | A revoked reference is healed if and only if its base resolves |
| `MovingHeapRefinement.HealsMoved` | src/cap_runtime/stopless_gc/handler.c:149-165 | The healed value is base plus offset in the current copy |
| `MovingHeapRefinement.HealsNothing` | src/cap_runtime/stopless_gc/handler.c:152-154 | The second lookup, by address, never answers for an interior pointer |
| `MovingHeapRefinement.HealsInteger` | src/cap_runtime/stopless_gc/handler.c:139-166 | An integer in a register is overwritten if and only if it equals a forwarded address |
| `MovingHeapRefinement.PickedIsPatched` | src/cap_runtime/stopless_gc/handler.c:170-196 | Which register a heal rewrites, read off the frame and the table for every frame: the decoded base register if it hits, else the first that does, else none |
| `MovingHeapRefinement.HealPreservesIff` | src/cap_runtime/stopless_gc/handler.c:170-238 | A heal that does not stop the program keeps the meaning of every register if and only if the register picked in that way holds a reference; the failing case is the fallback scan hitting an integer that equals a forwarded address |
| `MovingHeapRefinement.HealStep` | src/cap_runtime/stopless_gc/handler.c:113-292 | Under exactly that condition a heal is invisible or the program stops |
| `MovingHeapRefinement.NormalizeIs` | src/cap_runtime/stopless_gc/handler.c:766-778 | Normalizing a reference yields the present address of the place it denotes, or its stale address when its chain is too long to follow |
| `MovingHeapRefinement.AcmpEqExact` | src/cap_runtime/stopless_gc/handler.c:784-789 | The slow path says equal exactly when both references denote the same object and offset and both chains can be followed (or the addresses already agree) |
| `MovingHeapRefinement.LiveAddressIsIdentity` | docs/41_c9_research_handler_fix_and_zero_boot_blocker.md:1235-1236 | Two loadable references denote the same place exactly when their addresses are equal, which is what the second tier assumes |
| `MovingHeapRefinement.BarrierExact` | docs/41_c9_research_handler_fix_and_zero_boot_blocker.md:1233-1240 | The three-tier comparison is exact on a tag-clearing kernel, however far each operand lags behind |
| `MovingHeapRefinement.BarrierNeedsClearedTags` | docs/41_c9_research_handler_fix_and_zero_boot_blocker.md:1715-1718 | On a permission-clearing kernel it is right if and only if both operands are bounded to the same copy |
| `MovingHeapRefinement.BarrierOnNull` | src/cap_runtime/stopless_gc/handler.c:769 | NULL equals NULL and no reference |
| `ForwardTable.ForwardingTable.Init` | src/cap_runtime/stopless_gc/forward_table.c:97-105 | First use allocates an empty table of the initial capacity; later calls change nothing |
| `ForwardTable.ForwardingTable.Clear` | src/cap_runtime/stopless_gc/forward_table.c:107-115 | The map becomes empty, the capacity stays |
| `ForwardTable.ForwardingTable.MaybeGrow` | src/cap_runtime/stopless_gc/forward_table.c:117-146 | The map and the size stay the same; the capacity doubles exactly at 70 percent load if memory allows, stays a power of two, and is then under the threshold |
| `ForwardTable.ForwardingTable.RehashInto` | src/cap_runtime/stopless_gc/forward_table.c:130-142 | The rehash loop carries every mapping over and rebuilds every probe run for the new mask |
| `ForwardTable.ForwardingTable.Insert` | src/cap_runtime/stopless_gc/forward_table.c:148-168 | The mapping is added or overwritten whenever the key is present or a slot is free; otherwise nothing changes |
| `ForwardTable.ForwardingTable.SetArenaBase` | src/cap_runtime/stopless_gc/forward_table.c:58-62 | The base used for rebuilding capabilities is recorded and the map is unchanged |
| `ForwardTable.ForwardingTable.CasInsert` | src/cap_runtime/stopless_gc/forward_table.c:170-205 | Alone on the table: the caller installs its destination, or learns where the object went, or gets NULL from a table full of other keys, or, exactly for a key present with address 0, never comes back |
| `ForwardTable.ForwardingTable.FtFind` | src/cap_runtime/stopless_gc/forward_table.c:207-228 | One hop: a hit exactly for keys with a nonzero destination, with that destination and length |
| `ForwardTable.ForwardingTable.LookupCap` | src/cap_runtime/stopless_gc/forward_table.c:246-266 | The loop computes the transitive lookup and rebuilds the capability of its end |
| `ForwardTable.NullInsertHidesOneKey` | src/cap_runtime/stopless_gc/forward_table.h:29-30 | Inserting NULL removes exactly that key from what lookups see |
| `ProbeTable.FindIffEntry` | src/cap_runtime/stopless_gc/forward_table.c:207-228 | For every hash function, probing is sound and complete: it ends at a key exactly when the map has it, with its value |
| `ProbeTable.PutCorrect` | src/cap_runtime/stopless_gc/forward_table.c:157-167 | A store keeps every probe run intact and changes the map at one key |
| `ProbeTable.PutHasRoom` | src/cap_runtime/stopless_gc/forward_table.c:157-167 | A store finds a slot whenever the key is present or the table is not full |
| `ProbeTable.ExhaustedMeansFull` | src/cap_runtime/stopless_gc/forward_table.c:157-168 | An exhausted probe run means a table full of other keys |
| `ProbeTable.RehashKeepsMap` | src/cap_runtime/stopless_gc/forward_table.c:126-142 | Re-inserting into a larger empty table yields the same map with the probe invariant of the new size |
| `Chase.LookupExact` | src/cap_runtime/stopless_gc/forward_table.c:246-266 | Lookup answers an entry if and only if it is the end of the chain and at most 4096 hops down; it never answers an intermediate hop |
| `Chase.LookupResolves` | src/cap_runtime/stopless_gc/forward_table.c:239-266 | With increasing destinations it answers exactly for moved addresses whose chain has at most 4096 hops |
| `Chase.DepthAtMostEntries` | src/cap_runtime/stopless_gc/forward_table.c:239-242 | The length of a chain is bounded by the number of entries |
| `Chase.SmallTableResolves` | src/cap_runtime/stopless_gc/forward_table.c:246-260 | A table of at most 4096 entries resolves every moved address |
| `Chase.LongChainStops` | src/cap_runtime/stopless_gc/forward_table.c:254-260 | With 4097 entries a chain can be too long, and lookup then answers NULL |
| `Chase.TerminusExtends` | src/cap_runtime/stopless_gc/forward_table.c:230-245 | Forwarding the end of a chain moves the end of exactly the chains that ended there |
| `CasInsert.StepKeepsInv` | src/cap_runtime/stopless_gc/forward_table.c:170-228 | Every atomic step of every thread, inserting or looking up, keeps the probe invariant, unique ownership of unpublished slots and the size accounting |
| `CasInsert.ClaimedExactlyOnce` | src/cap_runtime/stopless_gc/forward_table.c:186-195 | In every interleaving of any number of threads each new key is won by exactly one compare-and-swap and holds what its winner brought |
| `CasInsert.AnswersAgree` | src/cap_runtime/stopless_gc/forward_table.c:170-205 | All non-NULL answers for a key are hops of that one chain, so they denote one object; answers at its end are equal. How far down the chain an answer must be is CasLookup.NeverAnIntermediateHop |
| `CasLookup.NeverAnIntermediateHop` | src/cap_runtime/stopless_gc/forward_table.c:230-266 | In every run a lookup or a losing insert-or-get that answers is at or beyond the end the key had when its call began; it misses only a key not visible then, and gives up only on a chain of more than 4096 hops |
| `CasLookup.QuietLookupIsExact` | src/cap_runtime/stopless_gc/forward_table.c:246-266 | While no new forwarding becomes visible the answer is exactly the transitive lookup of the visible table, with TooLong exactly when the key is there and that lookup has none |
| `CasLookup.LookupReturns` | src/cap_runtime/stopless_gc/forward_table.c:207-266 | A lookup running alone comes back |
| `CasInsert.NullIsNeverSpurious` | src/cap_runtime/stopless_gc/forward_table.c:179-204 | NULL means a table full of other keys, or too long a chain |
| `CasInsert.Quiescent` | src/cap_runtime/stopless_gc/forward_table.c:188-194 | With all threads at rest the size counter equals the occupied slots and every claimed key is visible |
| `CasInsert.SpinnerIsReleased` | src/cap_runtime/stopless_gc/forward_table.c:181-199 | A waiting loser always has a winner whose next two steps release it |
| `CasInsert.ReturnsIff` | src/cap_runtime/stopless_gc/forward_table.c:170-205 | Insert-or-get running alone comes back if and only if its key is not in the table or is there with a nonzero address |
| `CasInsert.NullInsertThenCallWaits` | src/cap_runtime/stopless_gc/forward_table.c:181-184 | A run that fails: after inserting NULL for a key, a call for that key comes to wait, and waits in every continuation |
| `CasInsert.HiddenKeySpinsForever` | src/cap_runtime/stopless_gc/forward_table.c:181-184 | Whatever all threads do, a caller waiting on such a key goes on waiting |
| `CasInsert.HopTaken` | src/cap_runtime/stopless_gc/forward_table.c:207-228 | Beside claims that publish key, length, address, the pair a lookup reads is a whole published entry |
| `InsertPublish.NoTornEntry` | src/cap_runtime/stopless_gc/forward_table.c:157-167 | Beside a writer storing length, address, key of write-once keys, a lookup returns the whole pair the table holds for its key, or a miss for a key that was not there when it began |
| `InsertPublish.InsertArrives` | src/cap_runtime/stopless_gc/forward_table.c:157-167 | An insert with room, left alone, ends with exactly its mapping added |
| `InsertPublish.FindReturns` | src/cap_runtime/stopless_gc/forward_table.c:207-228 | A lookup left alone comes back with a pair or a miss |
| `InsertPublish.OverwriteTearsIff` | src/cap_runtime/stopless_gc/forward_table.c:159-163 | Some schedule of an overwrite beside a lookup tears if and only if the overwritten address is nonzero and both address and length change |
| `InsertPublish.OverwriteTears` | src/cap_runtime/stopless_gc/forward_table.c:159-163 | A concrete run in which a lookup returns the old address with the new length |
| `Representable.ReprLenIdempotent` | src/cap_runtime/stopless_gc/allocator.c:55-59 | Rounding a rounded length changes nothing |
| `Representable.ReprLenMonotone` | src/cap_runtime/stopless_gc/allocator.c:55-59 | A longer request never rounds to less |
| `Representable.ReprLenSelfAligned` | src/cap_runtime/stopless_gc/allocator.c:39-47 | A rounded length is a multiple of its own alignment, which is at least the alignment of the request |
| `Representable.AlignMonotone` | src/cap_runtime/stopless_gc/allocator.c:39-47 | The alignment of a shorter length divides that of a longer one |
| `Cheri.BoundsExactIff` | src/cap_runtime/stopless_gc/allocator.c:78-80 | Bounds come out exactly as asked if and only if both ends are aligned for the length |
| `Cheri.RebuildEqualsOriginal` | src/cap_runtime/stopless_gc/forward_table.c:64-84 | Rebuilding from address and rounded length gives the very capability the allocator returned for the requested size |
| `Cheri.DerivePlaced` | src/cap_runtime/stopless_gc/forward_table.c:64-84 | For a placed object the rebuilt capability is tight, live and without the exempting permission |
| `Cheri.TightIffAbsoluteAligned` | src/cap_runtime/stopless_gc/allocator.c:65-79 | Alignment is computed on the offset: the result is tight exactly when the absolute address is aligned too |
| `Allocator.PlaceAdvancesIff` | src/cap_runtime/stopless_gc/allocator.c:39-69 | A placement moves the cursor forward over exactly the reserved bytes if and only if the reservation does not wrap 64 bits |
| `Allocator.WrapReissues` | src/cap_runtime/stopless_gc/allocator.c:55-69 | A concrete request in a 4 MiB arena that wraps, succeeds, and sends the cursor back, so that the next request gets bytes already issued |
| `Allocator.NoFitIsForever` | src/cap_runtime/stopless_gc/allocator.c:64-69 | A refusal at one cursor is a refusal at every later one |
| `Allocator.ResetReissues` | src/cap_runtime/stopless_gc/allocator.c:93-98 | After a reset the next request that fits is given the first byte again, so addresses are reissued |
| `Allocator.Arena.Alloc` | src/cap_runtime/stopless_gc/allocator.c:49-84 | With other threads moving the cursor and spurious failures: a result is the exact capability of bytes above the old cursor; NULL means the present cursor has no room |
| `Allocator.Arena.Used` | src/cap_runtime/stopless_gc/allocator.c:86-91 | The cursor, which never exceeds the arena |
| `Allocator.Arena.Reset` | src/cap_runtime/stopless_gc/allocator.c:93-98 | The cursor returns to zero |
| `ConcurrentAlloc.AllocationsAreDisjoint` | src/cap_runtime/stopless_gc/allocator.c:61-84 | In every interleaving the bounds of all capabilities ever returned lie in the arena, are pairwise disjoint and rebuild to themselves; the cursor is reserved extents plus padding |
| `ConcurrentAlloc.HoldersDiffer` | src/cap_runtime/stopless_gc/allocator.c:64-76 | No two threads hold one reservation |
| `ConcurrentAlloc.OomIsTrueForever` | src/cap_runtime/stopless_gc/allocator.c:61-76 | NULL on a stale cursor is true now and in every continuation |
| `ConcurrentAlloc.AttemptTakes` | src/cap_runtime/stopless_gc/allocator.c:61-76 | One attempt: no room gives up, a compare-and-swap on the present cursor that does not fail spuriously takes exactly its reservation, any other one retries from the present cursor |
| `ConcurrentAlloc.AloneIsServed` | src/cap_runtime/stopless_gc/allocator.c:61-76 | A thread running alone is served by one attempt if and only if there is room at the cursor |
| `ConcurrentAlloc.UniformCursor` | src/cap_runtime/stopless_gc/allocator.c:61-76 | With one request size the cursor is count times rounded size, without padding |
| `Revoke.Revoker.EnsureCri` | src/cap_runtime/stopless_gc/revoke.c:22-35 | The kernel page is acquired once and kept |
| `Revoke.OpenFailsIff` | src/cap_runtime/stopless_gc/revoke.c:204-206 | An open fails if and only if the counter did not advance and the call returned nonzero |
| `Revoke.Revoker.Open` | src/cap_runtime/stopless_gc/revoke.c:185-206 | One kernel call; success if and only if the epoch advanced or the call returned 0 |
| `Revoke.Revoker.Close` | src/cap_runtime/stopless_gc/revoke.c:208-232 | At most 11 calls, return codes ignored; success if and only if one of them cleared the epoch open on entry |
| `Revoke.Revoker.Now` | src/cap_runtime/stopless_gc/revoke.c:123-157 | Success if and only if the epoch read after the first call cleared within 11 calls with no failing call before |
| `Handler.TrapFrame.TryHeal` | src/cap_runtime/stopless_gc/handler.c:113-292 | The loops and branches compute the decision, which heals only fault codes 2 and 5; at most one register changes, and the fault counter moves only on success |
| `Handler.HookGivesOffset` | src/cap_runtime/stopless_gc/handler.c:155-164 | A revoked capability whose base and address do not resolve: the hook is asked with the base, and the replacement has the bounds and rights of its answer and an address as far past it as the pointer was past its base; NULL replaces nothing |
| `Handler.HookHealsBaseRegister` | src/cap_runtime/stopless_gc/handler.c:149-196 | The decision for a fault through such a base register: that register, that value, or not that register at all |
| `EvacuationHeal.HealedPointsAtByte` | src/cap_runtime/stopless_gc/handler.c:155-164 | Whether the handler already finds the mapping or has to ask the hook for it, the healed register is live, bounded to the published copy and points at the same byte of it |
| `EvacuationHeal.HealedReadsLatest` | src/cap_runtime/stopless_gc/tests/test_concurrent_move.c:102-120 | In every run, with the table looked up at any earlier moment, what is read through the healed register is the last value any thread stored to that byte, or the byte of the source |
| `EvacuationHeal.NothingToHeal` | src/cap_runtime/stopless_gc/tests/test_concurrent_move.c:69-72 | An address in no object, or in one nobody has published, is not healed |
| `Handler.HealMakesProgress` | src/cap_runtime/stopless_gc/handler.c:133-238 | A heal replaces one revoked register by a live one and leaves all others untouched |
| `Handler.RetriesAreBounded` | src/cap_runtime/stopless_gc/handler.c:133-238 | Retries of one instruction: no more heals in a row than registers were not loadable, so at most 30 |
| `MovingHeapWitness.BarrierGivesUpIff` | src/cap_runtime/stopless_gc/handler.c:766-789 | In a state that satisfies the invariant, the revoked first and the live current reference to one object moved n times are called equal if and only if n is at most 4096 |
| `MovingHeapWitness.OverlongChainMisses` | src/cap_runtime/stopless_gc/handler.c:766-789 | After 4097 moves two references that denote the same place are called different |
| `Handler.ScanOverwritesInteger` | src/cap_runtime/stopless_gc/handler.c:184-191 | A concrete frame in which the fallback scan overwrites an integer equal to a forwarded address |
| `Handler.SecondTierMisses` | docs/41_c9_research_handler_fix_and_zero_boot_blocker.md:1715-1718 | Two references to one object that the barrier calls different and the slow path calls equal, on a permission-clearing kernel |
| `Evacuation.StepKeepsInv` | src/cap_runtime/stopless_gc/tests/test_concurrent_move.c:66-120 | Every step of every thread, byte by byte, keeps private copies private and published copies current |
| `Evacuation.OneCopyEver` | src/cap_runtime/stopless_gc/tests/test_concurrent_move.c:94-98 | Whatever threads hold an object at whatever two moments, they hold the same copy |
| `Evacuation.LosersAreUnreachable` | src/cap_runtime/stopless_gc/tests/test_concurrent_move.c:94-98 | A copy whose object is published by the time it comes to its race is never held by anyone, in any continuation |
| `Evacuation.WinningCopyIsSource` | src/cap_runtime/stopless_gc/tests/test_concurrent_move.c:85-94 | A copy about to be published equals the frozen source byte for byte |
| `Evacuation.ReadsLatest` | src/cap_runtime/stopless_gc/tests/test_concurrent_move.c:102-120 | A read through a healed reference returns the last store to that byte, read off the sequence of actions and who held the object at each, or the source byte: no write is lost |
| `Evacuation.StoreIsRead` | src/cap_runtime/stopless_gc/tests/test_concurrent_move.c:113-118 | Right after a store every thread that holds the object reads the value stored |
| `Evacuation.FaultIsServed` | src/cap_runtime/stopless_gc/tests/test_concurrent_move.c:66-120 | A thread that touches an object holds it after at most 132 steps of its own, whatever the others do in between |
| `Evacuation.WinnersAreObjects` | src/cap_runtime/stopless_gc/tests/test_concurrent_move.c:94-97 | The winners counter is the number of evacuated objects, all of them exactly when every object was; each thread reserves at most once per object |
| `Evacuation.CursorBounded` | src/cap_runtime/stopless_gc/tests/test_concurrent_move.c:74-77 | Reservations are bounded by threads times objects, so destination slots are not reused |
| `Evacuation.SlotsCollideIff` | src/cap_runtime/stopless_gc/tests/test_concurrent_move.c:76-77 | Two reservations share a byte if and only if they are equal modulo the arena capacity |
| `Evacuation.CopyOverwritesIff` | src/cap_runtime/stopless_gc/tests/test_concurrent_move.c:75-92 | A copy in progress overwrites a published copy if and only if their slots are equal modulo the capacity |
| `Evacuation.RefillIsCopyIff` | src/cap_runtime/stopless_gc/tests/test_concurrent_move.c:90-92 | Refilling from the shadow byte rebuilds the object if and only if the object was uniform |
| `Evacuation.IndexOfIff` | src/cap_runtime/stopless_gc/tests/test_concurrent_move.c:69-72 | An address is evacuated as object i if and only if it lies in object i |
| `CppForwardingTable.ForwardingTable.constructor` | src/cap_runtime/forwarding_table.cc:26-40 | The capacity is the smallest power of two that holds one slot per 64 bytes of heap, at least 64; the map is empty |
| `CppForwardingTable.ForwardingTable.Install` | src/cap_runtime/forwarding_table.cc:44-65 | Adds the mapping if the key is new, nonzero and a slot is free; otherwise changes nothing |
| `CppForwardingTable.ForwardingTable.Lookup` | src/cap_runtime/forwarding_table.cc:67-78 | The installed destination, or the argument itself |
| `CppForwardingTable.ForwardingTable.ClearRegion` | src/cap_runtime/forwarding_table.cc:80-88 | Whatever region is named, the whole map is emptied |
| `CppForwardingTable.FirstWriterWins` | src/cap_runtime/forwarding_table.cc:44-65 | After any sequence of installs a key is there if and only if fewer distinct keys than slots came before its first request, and then with that first destination |
| `CppForwardingTable.InstalledCount` | src/cap_runtime/forwarding_table.cc:44-65 | The table holds the lesser of its capacity and the distinct keys asked for |
| `FixPatch.FixPatch` | scripts/fix_patch_counts.py:30-103 | The loop reports a change and, unless only checking, writes the lines of the specified rewrite |
| `FixPatch.CountBody` | scripts/fix_patch_counts.py:52-78 | The inner loop returns length and counts of the maximal body |
| `FixPatch.TallyCounts` | scripts/fix_patch_counts.py:56-78 | The body is the longest run of body lines; its counts are the numbers of old-side and new-side lines in it |
| `FixPatch.HeaderRoundTrip` | scripts/fix_patch_counts.py:26-50 | A rewritten header parses to the numbers and the suffix it was given |
| `FixPatch.AnyHeaderRoundTrip` | scripts/fix_patch_counts.py:26-50 | Every header, with either count given or left out, is read back as it was written |
| `FixPatch.OnlyHeadersParse` | scripts/fix_patch_counts.py:26-28 | What is taken for a header has exactly the form of one, and its numbers are the ones written in it |
| `FixPatch.NoCountMeansOne` | scripts/fix_patch_counts.py:35-48 | A header without counts parses, stands for one line on each side, and is left alone exactly above such a body |
| `FixPatch.FixedHeaderCountsItsBody` | scripts/fix_patch_counts.py:46-94 | Every header of the result states the line counts of its body and keeps its line numbers and suffix; every other line is unchanged and in place |
| `FixPatch.FixIsIdempotent` | scripts/fix_patch_counts.py:15 | A second run changes nothing and reports nothing |
| `FixPatch.FixTextIsIdempotent` | scripts/fix_patch_counts.py:32-97 | The same for whole files, through splitting and joining lines |
| `FixPatch.ChangedIffDifferent` | scripts/fix_patch_counts.py:80-102 | Check mode reports a change if and only if the rewrite makes one |
| `FixPatch.DocumentedCountsIff` | scripts/fix_patch_counts.py:10-13 | The scanner gives a hunk its documented old and new counts if and only if no line of its body starts with three dashes or three pluses |
| `FixPatch.HeaderDocumentedIff` | scripts/fix_patch_counts.py:10-13 | The header the repair writes above a hunk states the documented counts under exactly that condition |
| `FixPatch.MarkerCutsBodyIff` | scripts/fix_patch_counts.py:60-77 | A documented body line ends the scan if and only if it starts like a file marker |
| `FixPatch.RightHeaderBroken` | scripts/fix_patch_counts.py:60-77 | A correct hunk that removes a line starting with two dashes gets a wrong header |

## Left out

- MovingHeapRuns.RunRefines: a step whose stated guard fails does nothing. The guards are the allocator's no-wrap condition, a table with room for the moves of a pause, a picked register that holds a reference, and, for comparisons, a tag-clearing kernel and operands that are references or NULL; what happens outside them is stated exactly by `Allocator.PlaceAdvancesIff`, `MovingHeapPause.PauseExact`, `MovingHeapRefinement.HealPreservesIff` and `MovingHeapRefinement.BarrierNeedsClearedTags`.
- MovingHeapProgress.AccessSucceeds: a fault whose base register is `c30` or `csp` is outside; the handler patches only `c0` to `c29`, so it never heals those.
- MovingHeapPause.PauseExact: root slots are the registers of the model, in the order of the walk, each visited once; memory roots outside the heap are registers too. A destination that was copied but not recorded stays reserved and unreferenced.
- MovingHeapRefinement.BarrierExact: for an over-long chain the comparison only guarantees that an answer "equal" is right.
- ForwardTable.ForwardingTable.Insert: key 0, the empty-slot mark, is excluded.
- Evacuation.OneCopyEver: requires threads times objects to be at most the destination capacity (`Evacuation.ArenaSuffices`), and that objects whose re-derived capability lost its tag are uniform (`Evacuation.RefillIsCopyIff`); the forwarding's insert-or-get is one step, opened up in `CasInsert`.
- CppForwardingTable.ForwardingTable.Install: on one thread; the destination is stored after the compare-and-swap and not atomically, so concurrent readers are not covered.
- FixPatch.FixPatch: decimal digits are ASCII, and the text is what a universal-newlines read returns; the printed messages are not part of this model.
- Weak memory: interleavings are of sequentially consistent atomic steps.
- The kernel and the CHERI intrinsics are specified steps: deriving, bounding and address-setting of capabilities, the revocation sweep, the load barrier and the epoch counters; the shadow bitmap is the set of marked object starts; comparing epochs is an arbitrary function of two counters.
- One memory cell per address: data narrower than a capability, and overlapping partial stores, are not distinguished.
- All objects live in one arena, and the arena is not reset while forwardings exist.
- A lookup that straddles a growing table: growing happens at safepoints only.
- The hash function: every statement holds for an arbitrary one.
- Pauses in which several cycles share one sweep, and the mode that ignores a failing sweep: the repository documents the first as unsound.
- An evacuation hook enters the heal core only as a function value, and the moving heap runs without one, as the collector does: only the evacuation program installs a hook. What it publishes is in `Evacuation`, what the handler makes of its answer in `EvacuationHeal`, with the arena base the table rebuilds capabilities from set to the destination arena.
- The handler's test side channel for source slots, timing, counters used for reporting, environment variables, fault injection, the null-check redirect and the crash dumpers.
- The HotSpot patches other than the pause protocol, the interpreter templates, `side_table.cc`, `revoke_glue.cc`, `pmu_sample.cc`, benchmarks and scripts: they would add only easy members.

# Verified models of the Turf compiler and runtime

This project models five parts of the Turf language implementation in Dafny and
proves what they are for.

1. **The garbage collector** (`runtime/turfrt_gc.c`, `runtime/turfrt_alloc.c`).
   The pending table with its open-addressing index, the sorted block table with
   dead entries, pins, global roots, precise tracing, sweeping, and the
   allocation calls with their growth trigger. The table refines a set of
   disjoint intervals; a collection leaves exactly the reachable blocks; the
   heap stays bounded and no block is lost over any run of calls.
2. **The control-flow graph** (`src/analysis/CFG.cpp`). The builder: the
   complete paths of its graph are exactly the runs of the program in which no
   `try` fails, defers included, and it is stated exactly when that is all runs;
   reachability; Tarjan's search for unbreakable loops; the per-path search
   for endless recursion.
3. **The dataflow passes** (`src/analysis/Analysis.cpp`,
   `src/analysis/ValueRange.cpp`). Definite assignment and liveness equal their
   path definitions, and for runs of the program it is stated exactly on which
   bodies each is right; null narrowing proves exactly what holds along every
   route, and is sound exactly where a stated condition holds; constant
   propagation reaches its least solution, whose constants are real values;
   exactly the checks these prove are removed, and no run changes.
4. **The lowerings** (`src/codegen/CodegenControlFlow.cpp`,
   `src/codegen/CodegenPattern.cpp`). Inlined defers perform the program's
   actions on every exit edge; the `compare` test chain and the integer switch
   pick the arm source order picks.
5. **Arithmetic and spelling distance** (`src/codegen/CodegenCore.cpp`,
   `src/analysis/Algorithms.cpp`). Checked integer power is exact; both edit
   distances compute the least cost of the edit scripts they stand for.

Code that changes state is modelled by classes and methods with loops
(`PendingTable`, `Table`, `GcHeap`, `TarjanSearch`, `CfgBuilder`, the two
`Lowering` classes, the solvers and the tables); each is tied to a functional
or path-based specification, about which the lemmas are proved.

## Reading order

| files | subject |
|---|---|
| `Options`, `GcModel`, `PendingBlocks`, `BlockTable`, `Marking`, `Accounting`, `Collector` | the collector, bottom up |
| `Sets`, `Graph`, `UnbreakableLoop`, `AllPathsRecurse` | searches on a graph |
| `Events`, `MustFlow`, `DefiniteAssignment`, `Liveness`, `NullNarrowing` | dataflow passes |
| `Int64`, `WideInt`, `ConstExpr`, `ExprNodes`, `ConstFlow`, `CheckElision` | constants and removed checks |
| `Structured`, `Placement`, `DeferOrder`, `BlockMachine`, `Layout`, `CfgBuilder`, `EarlyReturns`, `GraphRuns`, `DeferLowering` | structured statements, their graph and their code |
| `TraceRules`, `Quiet`, `NodeEvents`, `DeferPlaces`, `DeferStacks`, `TryPlaces` | where `defer` and `try` stand, and what runs then do |
| `BuiltGraphs`, `AssignedRuns`, `LiveRuns` | the passes' answers on built graphs, for runs |
| `PatternCode`, `CompareLowering` | `compare` |
| `IntPow`, `EditDistance` | arithmetic and distances |

## Choices

* Addresses, sizes and counters are unbounded naturals. A block reserves at
  least one byte; sizes may be 0, as `malloc(0)` allows, and the lemmas say
  exactly what then differs.
* `malloc` and `realloc` are an address parameter that must be disjoint from
  every live block (0 stands for failure). Register and stack words are a
  parameter, `words`; memory is a function from addresses to words.
* Syntax trees are reduced to what a pass looks at: events for definite
  assignment and liveness, expressions with checks for constant propagation,
  conditions for narrowing, statements for the graph and the code. Whatever a
  condition or an unknown call does is a parameter or a sequence of decisions.
* A run of structured statements takes its decisions from a sequence, so a
  statement about all sequences is a statement about all runs, unfinished ones
  included; `fuel` only cuts a run short and every theorem holds for each.
* What a node reads and writes is a parameter, with one list for what a pass
  sees and one for what happens (`NodeEvents.Does`): definite assignment sees a
  deferred statement where it is written (`AtSite`), liveness where it runs
  (`AtRun`).
* Node flags that the passes set in place (`ProvenInBounds`,
  `ProvenNoOverflow`) are part of the expression, and marking returns the
  marked expression.

## Where the code and its promise differ

* Looking up address 1 in the pending index can succeed after a removal,
  because 1 is the deletion mark (`PendingBlocks.SearchForDeletedMarker` gives
  the exact condition, `PendingBlocks.FreedBlockAnswersForAddressOne` a case).
* A pin on an empty block does not keep it (`Marking.PinsAfterCollection`), and
  an empty allocation is gone at its own first collection
  (`Collector.NewBlockAtCollection`).
* A null comparison whose value is thrown away still narrows, and a `compare`
  header that fails because its pattern did not match still passes on what its
  guard's falsehood would prove (`NullNarrowing.DiscardedComparisonFails`,
  `NullNarrowing.UnmatchedGuardFails`); the two conditions under which this is
  harmless are exact (`NullNarrowing.ThreadingIsSoundIffQuiet`,
  `NullNarrowing.HeaderIsSoundIffQuiet`).
* Null narrowing also counts edges out of code that nothing reaches: the
  condition of a do-while whose body always returns can take a fact from the
  body (`NullNarrowing.UnreachableCodeCounts`). The facts are exactly what
  holds along every route from the entry and from every other block
  (`NullNarrowing.FactsAreRouteFacts`); the routes from the entry alone decide
  where everything that leads to a block is reachable
  (`NullNarrowing.ReachableFacts`).
* Definite assignment counts a deferred statement where it is written, though
  it happens where it runs. A deferred write then hides a read before it
  (`AssignedRuns.DeferredWriteIsMissed`), and a deferred read is reported
  though it comes after the write (`AssignedRuns.DeferredReadIsMistaken`). The
  pass misses nothing, whatever the statements read and write, exactly when
  every reachable `defer` is the last thing in its block that reads or writes,
  and reports nothing wrongly exactly when nothing at all can come between a
  reachable `defer` and its statement
  (`AssignedRuns.NeverMissesIffDefersLast`,
  `AssignedRuns.NeverMistakenIffDefersRunNext`).
* The graph has no edge for a `try` that fails, though code generation returns
  there after running the deferred statements. Its complete paths are exactly
  the runs in which no `try` fails (`GraphRuns.PathsAreRuns`); all complete
  runs are paths exactly when every reachable `try` is the last thing done
  before deferred statements, a predicate on the body
  (`GraphRuns.AdequateIffTriesAtEnd`, with `GraphRuns.FailedTryHasNoPath` for a
  case).
* A comment in the analysis says that nothing there needs that edge
  (`src/analysis/Analysis.cpp:201`). Liveness does: it can call a store dead
  that a deferred statement reads when the `try` fails
  (`LiveRuns.DeadStoreIsReadOnFailure`). It is right on all runs, whatever the
  statements read and write, exactly when at every reachable `try` whatever is
  pending would run next on success too (`LiveRuns.NeverWrongIffTriesSettle`).
  That is less than asking for nothing to be pending at a `try` that is not at
  the end (`LiveRuns.SettledTryNeedNotBeLast`).
* Negation keeps one check it could drop (`CheckElision.NegSafeMeansNoPanic`).

## Model

| member | source | states |
|---|---|---|
| `PendingBlocks.SearchIsLookup` | `runtime/turfrt_gc.c:588-611` | In an index with its deletion marks, probing from home for an address other than the mark stops on slot value i exactly when block i starts there, and misses exactly when no block does |
| `PendingBlocks.SomeSlotEmpty` | `runtime/turfrt_gc.c:561-586` | While fewer slots are occupied (live or deleted) than there are, one is empty, so every probe ends |
| `PendingBlocks.DeletionHidesNoOther` | `runtime/turfrt_gc.c:613-624` | Marking one slot deleted hides no other block from its probe |
| `PendingBlocks.RemovalKeepsIndex` | `runtime/turfrt_gc.c:613-624` | Removing a block by moving the last one into its place, with one slot marked deleted and one value redirected, keeps the index exact |
| `PendingBlocks.SearchForDeletedMarker` | `runtime/turfrt_gc.c:537-598` | A search for address 1, the deletion mark itself, misses exactly when no deleted slot lies on its unbroken probe run |
| `PendingBlocks.FreedBlockAnswersForAddressOne` | `runtime/turfrt_gc.c:537-598` | A concrete table where a removed block makes the search for address 1 succeed |
| `PendingBlocks.PendingTable.Place` | `runtime/turfrt_gc.c:549-560` | The address goes into a free slot of its probe run, no other slot changes, and every filed address stays on an unbroken run |
| `PendingBlocks.PendingTable.Rebuild` | `runtime/turfrt_gc.c:561-578` | A fresh index, exact for the same blocks, with no more slots in use than there are blocks, so without deletion marks |
| `PendingBlocks.PendingTable.Append` | `runtime/turfrt_gc.c:579-587` | The block is appended and the index is exact for it too, whether or not it had to be rebuilt |
| `PendingBlocks.PendingTable.FindSlot` | `runtime/turfrt_gc.c:588-599` | The probe loop ends, on a hit if there is one and on a miss otherwise |
| `PendingBlocks.PendingTable.Find` | `runtime/turfrt_gc.c:606-611` | Lookup returns the block with that start or none; for address 1 it says exactly when it is wrong |
| `PendingBlocks.PendingTable.Remove` | `runtime/turfrt_gc.c:613-624` | The block at idx is replaced by the last one and the index stays exact |
| `PendingBlocks.PendingTable.Clear` | `runtime/turfrt_gc.c:600-604` | No pending block, and an index that finds none |
| `BlockTable.Table.Register` | `runtime/turfrt_gc.c:649-661` | The interval map gains exactly this block (nothing for null); pins and global roots stay |
| `BlockTable.Table.FindExactInBlocks` | `runtime/turfrt_gc.c:635-647` | Binary search in the sorted tier: the live block with that start, or there is none |
| `BlockTable.Table.Forget` | `runtime/turfrt_gc.c:663-684` | The old address leaves the map, whichever tier held it, by removal or by a dead mark; for address 1 nothing changes if no removed slot answers for it |
| `BlockTable.Table.Reregister` | `runtime/turfrt_gc.c:663-692` | The map loses the old address and gains the new block, also when the address is reused over a dead entry; the pin, if any, moves along, and pins stay safe exactly unless a pinned block becomes empty |
| `BlockTable.Table.IsRegistered` | `runtime/turfrt_gc.c:694-703` | True exactly when some live block starts there, or when p is 1 and a removed slot answers for it |
| `BlockTable.Table.StringCapacity` | `runtime/turfrt_gc.c:715-729` | The bytes from p to the end of the live block that starts at or holds p; -1 exactly when there is none, address 1 included if no removed slot answers for it |
| `BlockTable.Table.RebuildIndex` | `runtime/turfrt_gc.c:762-790` | Both tiers become one strictly sorted array with no dead entry, and the interval map is unchanged |
| `BlockTable.MergeKeepsTable` | `runtime/turfrt_gc.c:752-790` | Sorting the concatenation of disjoint tiers keeps every block and leaves them strictly sorted and apart |
| `BlockTable.DropDeadKeepsTable` | `runtime/turfrt_gc.c:762-790` | Compaction drops dead entries only |
| `BlockTable.KillKeepsTable` | `runtime/turfrt_gc.c:663-692` | Marking an entry dead removes exactly that block from the map and counts it |
| `BlockTable.SortSorts` | `runtime/turfrt_gc.c:752-761` | Ordering disjoint blocks by start leaves each ending before the next starts |
| `BlockTable.Table.FindContaining` | `runtime/turfrt_gc.c:792-813` | Binary search by containment: the live block of the sorted tier holding the address, or none does |
| `BlockTable.Table.FindContainingAny` | `runtime/turfrt_gc.c:815-827` | The live block holding the address in either tier, or none does |
| `BlockTable.Table.AddPin` | `runtime/turfrt_gc.c:829-845` | The pin count of the block holding p, and of no other, goes up by one; unknown pointers change nothing |
| `BlockTable.Table.RemovePin` | `runtime/turfrt_gc.c:847-863` | The count goes down by one; refused exactly when p is in a block with no pin |
| `BlockTable.PinFollowsBlock` | `runtime/turfrt_gc.c:663-692` | Renaming a pin to its block's new start keeps pins distinct and naming live blocks, with all counts moved along |
| `BlockTable.Table.AddGlobalRoot` | `runtime/turfrt_gc.c:733-740` | The slot joins the multiset of roots; null is ignored |
| `BlockTable.Table.RemoveGlobalRoot` | `runtime/turfrt_gc.c:741-750` | One occurrence of the slot leaves it |
| `GcModel.HolderIsUnique` | `runtime/turfrt_gc.c:792-827` | In a map of disjoint intervals an address is in one block at most |
| `GcModel.ClosedSetHoldsReachable` | `runtime/turfrt_gc.c:1320-1391` | A set of blocks that holds the roots and is closed under pointers holds every reachable block |
| `Marking.RootStep` | `runtime/turfrt_gc.c:984-1031` | Considering one more root word keeps the marks sound, the worklist made of marked blocks, and that root covered |
| `Marking.TraceStep` | `runtime/turfrt_gc.c:1033-1083` | Tracing a popped block keeps the marks sound and everything it points to marked |
| `Marking.MarksAreExact` | `runtime/turfrt_gc.c:1320-1391` | When the worklist is empty a block is marked exactly when it is reachable from the root words |
| `Marking.SweepKeepsSurvivors` | `runtime/turfrt_gc.c:1393-1417` | Keeping the marked blocks leaves the survivors, still sorted and apart |
| `Marking.PinsAfterCollection` | `runtime/turfrt_gc.c:829-863` | After a collection every pin names a live block exactly when every pinned block was nonempty, and a pinned nonempty block survives |
| `Marking.EmptyBlockIsUnreachable` | `runtime/turfrt_gc.c:792-813` | No word points into a block of size 0, so no collection keeps one |
| `Collector.GcHeap.ConsiderRoot` | `runtime/turfrt_gc.c:984-1012` | Marks and pushes the block holding the word, once, interior pointers included |
| `Collector.GcHeap.ScanBlock` | `runtime/turfrt_gc.c:1033-1083` | Considers every pointer word of the descriptor at every stride that fits the block, and no other word |
| `Collector.GcHeap.TraceTop` | `runtime/turfrt_gc.c:1320-1391` | One worklist round: the worklist plus the unmarked blocks get fewer by one, so marking ends |
| `Collector.GcHeap.Mark` | `runtime/turfrt_gc.c:1320-1391` | From stack and register words, global slots and pins: a block is marked exactly when reachable |
| `Collector.GcHeap.Sweep` | `runtime/turfrt_gc.c:1393-1417` | Unmarked blocks go, and the freed, live and threshold figures are those of the swept table |
| `Collector.GcHeap.Collect` | `runtime/turfrt_gc.c:1419-1446` | The map afterwards is exactly the reachable blocks; statistics match it; a heap whose counters added up is within its bound and adds up again; pins stay valid exactly if no pinned block is empty |
| `Collector.GcHeap.NoteAlloc` | `runtime/turfrt_gc.c:1459-1467` | Collects if and only if under stress or when the bytes since the last collection, this request included, reach the larger of twice the live bytes and 0x10_0000; otherwise only that count moves. Re-establishes the bounds between calls: live bytes below the last sweep's plus the larger of twice those and 1 MiB, and allocations plus adopted reallocs equal to live plus freed blocks |
| `Collector.GcHeap.Alloc` | `runtime/turfrt_alloc.c:81-103` | Register, count, then note: the map gains the block and then loses what a collection frees, one happening exactly at the threshold NoteAlloc states; every counter moves as stated, nothing moves on failure, and the heap bounds hold again |
| `Collector.GcHeap.Realloc` | `runtime/turfrt_alloc.c:105-116` | The old block is exchanged for the new one, the pin follows, counters move, a collection follows exactly at the threshold NoteAlloc states, and the heap bounds hold again |
| `Collector.NewBlockAtCollection` | `runtime/turfrt_alloc.c:81-103` | A nonempty new block whose address is among the words survives the collection it triggers; an empty one never does |
| `Accounting.ReplacementAccounts` | `runtime/turfrt_gc.c:663-692` | Exchanging a block adds at most its size, and adds a block exactly when the old address was unknown |
| `Accounting.RecordsAreEntries` | `runtime/turfrt_gc.c:1393-1417` | The sweep's running sums over records are the byte and block counts of the map |
| `Graph.ComputeReachability` | `src/analysis/CFG.cpp:53-78` | The breadth-first search marks exactly the blocks a path from the entry reaches |
| `UnbreakableLoop.ClosedLoopNeverEnds` | `src/analysis/CFG.cpp:168-244` | From a cyclic component without an exit no path ends |
| `UnbreakableLoop.TarjanSearch.Visit` | `src/analysis/CFG.cpp:168-244` | One activation of the search keeps the Tarjan invariants, or has found a closed loop |
| `UnbreakableLoop.ComponentIsConnected` | `src/analysis/CFG.cpp:168-244` | The blocks popped at a root all reach one another |
| `UnbreakableLoop.TarjanSearch.FindExit` | `src/analysis/CFG.cpp:168-244` | An edge leaving the component, or there is none |
| `UnbreakableLoop.HasUnbreakableLoop` | `src/analysis/CFG.cpp:168-244` | True exactly when some reachable cyclic component has no edge leaving it, and exactly when some reachable block can reach no block without successors |
| `AllPathsRecurse.CutLoops` | `src/analysis/CFG.cpp:324-376` | A walk to the exit that avoids a set can be made to avoid its own start too after one edge |
| `AllPathsRecurse.Search` | `src/analysis/CFG.cpp:324-376` | The search that tracks the current path answers false exactly when the exit is reachable past the self-calls and that path |
| `AllPathsRecurse.AllPathsRecurse` | `src/analysis/CFG.cpp:324-376` | True exactly when there is a self-call and no path from entry to exit avoids all of them |
| `MustFlow.Solve` | `src/analysis/Analysis.cpp:1219-1322` | The loop that shrinks facts until nothing changes ends in the greatest solution of the flow equations |
| `DefiniteAssignment.FixpointIsPathFacts` | `src/analysis/Analysis.cpp:302-415` | The greatest solution is the set of variables assigned on every path |
| `DefiniteAssignment.Run` | `src/analysis/Analysis.cpp:302-415` | A read is reported exactly when some path from the entry reaches it with no earlier definition; unreachable blocks neither report nor influence |
| `DefiniteAssignment.MissingFields` | `src/analysis/Analysis.cpp:741-840` | A required field is reported exactly when some path from entry to exit leaves it unassigned |
| `Liveness.WalkIsGenKill` | `src/analysis/Analysis.cpp:467-557` | Walking a block's events backwards gives Gen plus what survives Kill |
| `Liveness.Solve` | `src/analysis/Analysis.cpp:467-557` | LiveIn and LiveOut are exactly the variables read before redefinition on some path, and the walk from LiveOut ends in LiveIn |
| `Liveness.DeadStores` | `src/analysis/Analysis.cpp:589-662` | A store is reported exactly when it is watched and not needed on any way on |
| `Liveness.DeadStoreIsUnobservable` | `src/analysis/Analysis.cpp:589-662` | Whatever value a reported store writes, every later read on every path sees the same, each later write storing any function of its position and the values read before it |
| `Liveness.NeededStoreIsObservable` | `src/analysis/Analysis.cpp:589-662` | A store not reported is seen by a read on some path |
| `NullNarrowing.NarrowIsSound` | `src/analysis/Analysis.cpp:1017-1050` | If the facts hold before a condition of &&, // and null comparisons, OnTrue holds where it is true and OnFalse where it is false |
| `NullNarrowing.UnreportedIsSafe` | `src/analysis/Analysis.cpp:996-1110` | A condition with no report reads through no null reference, short-circuiting included |
| `NullNarrowing.NarrowIsPointwise` | `src/analysis/Analysis.cpp:1017-1050` | What is narrowed about a variable depends on that variable's fact alone, and grows with it |
| `NullNarrowing.NarrowIsVerdict` | `src/analysis/Analysis.cpp:1017-1050` | A variable is proven exactly when the last comparison with null on every way to the outcome says so, or none does and it was proven before |
| `NullNarrowing.ThreadingIsSoundIffQuiet` | `src/analysis/Analysis.cpp:1265-1276` | Keeping OnTrue of a statement whose value is unseen is right for every state exactly when its comparisons prove no tracked variable where it is true |
| `NullNarrowing.HeaderIsSoundIffQuiet` | `src/analysis/CFG.cpp:829-890` | Passing a guard's OnFalse along the edge of a header that did not match is right for every state exactly when its comparisons prove no tracked variable where it is false |
| `NullNarrowing.DiscardedComparisonFails` | `src/analysis/Analysis.cpp:1265-1276` | A discarded `p != null` followed by a read through p: nothing reported, p null |
| `NullNarrowing.UnmatchedGuardFails` | `src/analysis/CFG.cpp:829-890` | A header whose pattern does not match hands on the guard's "not null" for a null variable |
| `NullNarrowing.EdgeIsSound` | `src/analysis/Analysis.cpp:1258-1292` | Through a block that meets the two conditions, along the edge taken, true facts stay true |
| `NullNarrowing.FactsHold` | `src/analysis/Analysis.cpp:1219-1322` | At the fixed point, on every run, every variable proven non-null at a block is non-null there |
| `NullNarrowing.ClassifiedIsCertain` | `src/analysis/Analysis.cpp:943-962` | A right-hand side is classified non-null exactly when its value is not null in every state the facts describe |
| `NullNarrowing.BranchEdgeIsVerdict` | `src/analysis/Analysis.cpp:1258-1292` | On edge 0 or 1 of a two-way branch a variable is proven exactly by what the comparisons of its condition say about it when true or false, over what held before |
| `NullNarrowing.ReportedIsUnproven` | `src/analysis/Analysis.cpp:1017-1063` | A condition is reported exactly when some operand reads through a tracked reference that neither the facts before nor the operands evaluated before it prove |
| `NullNarrowing.FactsAreRouteFacts` | `src/analysis/Analysis.cpp:1293-1323` | The greatest solution is exactly what holds along every route of edges: from the entry with nothing known, and from any other block with everything |
| `NullNarrowing.ReachableFacts` | `src/analysis/Analysis.cpp:1293-1323` | At a block all of whose routes come from reachable blocks a fact holds exactly when it holds along every route from the entry |
| `NullNarrowing.UnreachableCodeCounts` | `src/analysis/CFG.cpp:992-1045` | A do-while whose body returns: its condition, never reached, takes a fact from the body, and a read is reported that is proven on every route from the entry |
| `NullNarrowing.Run` | `src/analysis/Analysis.cpp:1219-1328` | The facts are exactly those that hold along every route, a statement is reported exactly when a read in it is unproven from them, and if all blocks meet the two conditions, what is not reported never reads through null on any run |
| `WideInt.WideProductIsExact` | `src/analysis/ValueRange.cpp:50-86` | The 65-bit product, its overflow flag clear and 64 bits wide, is the exact product, and there is none exactly when the exact product does not fit 64 bits |
| `CheckElision.FoldIsExact` | `src/analysis/ValueRange.cpp:50-86` | + - * / fold exactly when the checked operation does not panic, to its value; no other operator folds |
| `CheckElision.EvalConstIsExact` | `src/analysis/ValueRange.cpp:35-92` | An expression has a constant exactly when it is built of literals, known variables, + - * / and assigned values and evaluating it with all checks does not panic; the constant is its value in every state the constants describe |
| `ConstExpr.EvalKeepsTracked` | `src/analysis/ValueRange.cpp:117-211` | Evaluating an expression in a reading position changes no tracked variable |
| `CheckElision.AddressTakenIsTainted` | `src/analysis/ValueRange.cpp:125-211` | A variable whose address is taken anywhere in the function is tainted |
| `ExprNodes.StatementTaintsAreTouches` | `src/analysis/ValueRange.cpp:125-211` | A statement taints exactly the variables some node of it writes, takes the address of or defers a bare mention of, its own write excepted, and a variable that is the whole statement |
| `CheckElision.ComputeTrackedVars` | `src/analysis/ValueRange.cpp:213-228` | Tracked are exactly the variables declared by a whole statement and touched by no statement behind the transfer function's back |
| `ConstFlow.ApplyAllGrows` | `src/analysis/ValueRange.cpp:236-259` | A block's transfer is monotone in what is known |
| `ConstFlow.ApplySteps` | `src/analysis/ValueRange.cpp:236-259` | A statement gives its tracked variable the constant of what it stores, `op=` and `++` none, and leaves every other constant |
| `ConstFlow.JoinAllIsMeet` | `src/analysis/ValueRange.cpp:278-299` | A constant is in the meet exactly when there is a predecessor and every one has it |
| `ConstFlow.SolveConstants` | `src/analysis/ValueRange.cpp:264-311` | The worklist empties, every block's IN and OUT satisfy the equations, and no other values for which they hold know less |
| `CheckElision.SafeMeansNoPanic` | `src/analysis/ValueRange.cpp:410-433` | For + - * by the 65-bit test and << by shifting back, on constants: proven safe exactly when the checked operation would not panic, and then the bare instruction agrees |
| `CheckElision.NegSafeMeansNoPanic` | `src/analysis/ValueRange.cpp:440-440` | A negation proven safe does not panic; the one safe negation kept checked is that of the 32-bit minimum |
| `CheckElision.MarkIsExact` | `src/analysis/ValueRange.cpp:448-561` | Marking keeps the tree and what is deferred; elsewhere + - * is flagged exactly when both operands are known and the exact result fits, << when the amount is in [0, 64) and the product fits, negation when the constant is neither minimum, an index when its constant is in [0, size) and the array untainted, `op=` and `++` likewise |
| `CheckElision.MarkKeepsValue` | `src/analysis/ValueRange.cpp:448-561` | A marked expression without its proven checks computes what the original does with all of them |
| `CheckElision.ItemsAreSound` | `src/analysis/ValueRange.cpp:563-579` | So does a marked block, deferred runs included, and its constants are right at its end |
| `CheckElision.ConstantsAreReal` | `src/analysis/ValueRange.cpp:264-311` | On every execution, whatever block it has come to, each constant the fixed point holds there is the variable's real value |
| `CheckElision.ElisionIsInvisible` | `src/analysis/ValueRange.cpp:563-579` | From any block whose constants are right, every run of the marked program without proven checks equals the run of the original with all checks |
| `CheckElision.MarkElidableChecks` | `src/analysis/ValueRange.cpp:563-579` | Every statement is marked exactly by the constants there, which obey the statements and the meets between blocks and are the least that do; every run from the entry, in every world where calls reach locals only by address, ends, panics or goes on exactly as the original's |
| `DeferOrder.BlocksNest` | `src/codegen/CodegenControlFlow.cpp:66-104` | On every way out of a block its own defers have run, each once, last registered first, and no outer one |
| `DeferOrder.StatementsNest` | `src/codegen/CodegenControlFlow.cpp:66-104` | The same for every statement, from any stack of registered defers |
| `BlockMachine.StepsFollowPath` | `src/analysis/CFG.cpp:39-51` | A run of basic blocks is a path in the graph and emits the blocks' items along it |
| `BlockMachine.SeqStep` | `src/analysis/CFG.cpp:670-686` | A statement inside a block, then the rest: jumps out of it also leave the block's scope |
| `BlockMachine.IfStep` | `src/analysis/CFG.cpp:688-754` | One test of an if/elseif chain and its two continuations |
| `BlockMachine.WhileOk` | `src/analysis/CFG.cpp:918-990` | Condition and body blocks with their back edge perform the loop, `while true` with one edge included |
| `BlockMachine.DoWhileOk` | `src/analysis/CFG.cpp:992-1056` | The same for do-while, body first |
| `CfgBuilder.CfgBuilder.VisitExpr` | `src/analysis/CFG.cpp:548-608` | Refuses exactly a statement after a terminator or a jump outside a loop; otherwise the region laid down performs the statement, every `try` in it succeeding, however building goes on |
| `CfgBuilder.CfgBuilder.EmitDeferredRuns` | `src/analysis/CFG.cpp:662-668` | Records every open scope above the depth, innermost scope first and latest defer first |
| `CfgBuilder.CfgBuilder.VisitBlock` | `src/analysis/CFG.cpp:670-686` | A block's statements in order and its defers where it falls off its end |
| `CfgBuilder.CfgBuilder.VisitIf` | `src/analysis/CFG.cpp:688-754` | The chain of condition blocks, branch regions and merge block performs the if; no insert point is left exactly when no branch completes |
| `CfgBuilder.CfgBuilder.VisitWhile` | `src/analysis/CFG.cpp:918-990` | The loop's region, with break and continue running the body's scopes only |
| `CfgBuilder.CfgBuilder.VisitDoWhile` | `src/analysis/CFG.cpp:992-1056` | The same for do-while |
| `CfgBuilder.CfgBuilder.VisitReturn` | `src/analysis/CFG.cpp:1174-1191` | The value, then every open scope's defers, then the exit |
| `CfgBuilder.CfgBuilder.VisitJump` | `src/analysis/CFG.cpp:1193-1231` | The loop body's defers, the node, then the loop's target; refused outside a loop |
| `Placement.CompletesIsWayOn` | `src/analysis/CFG.cpp:676-700` | No insert point is left exactly after a return, break or continue, a block that holds such a statement, or an if with an else all of whose branches do |
| `Placement.PlacedIsNoOffender` | `src/analysis/CFG.cpp:549-560` | A body is well placed exactly when at no place in its tree stands a jump with no loop above or, in the graph, a statement after one that leaves no way on |
| `Placement.StraightIsPlaced` | `src/analysis/CFG.cpp:549-560` | A body without return, break and continue is well placed |
| `Placement.PlainIsNoTrueIf` | `src/analysis/CFG.cpp:940-955` | A body is plain exactly when no `if` or `elseif` anywhere in its tree tests the literal `true`, which the builder treats as such in loops only |
| `CfgBuilder.BuildCfg` | `src/analysis/CFG.cpp:481-513` | Refuses only with a place in the tree where a jump stands outside loops or a statement follows one that leaves no way on, and always when there is one; edges are in both lists, no block has more than two, the entry has no predecessor, and the graph performs the body with every `try` succeeding; without a literal `true` outside loops, every edge of a fork can be taken |
| `EarlyReturns.RerunSeq` | `src/analysis/CFG.cpp:589-607` | A program and the same program with its tries succeeding have the same runs but those that fail, finished and unfinished ones |
| `EarlyReturns.FailureIsFallAll` | `src/analysis/CFG.cpp:589-607` | If every `try` is at the end, a run that fails shows what a run of the successful program shows |
| `EarlyReturns.EarlyTryEscapesAll` | `src/analysis/CFG.cpp:589-607` | If some reachable `try` is not at the end and statements are distinct, some failing run shows last a statement that no finished run shows last |
| `GraphRuns.ExecutionsArePaths` | `src/analysis/CFG.cpp:481-513` | Every complete execution is a path from entry to exit whose statements are the execution's, deferred runs included; unfinished ones are paths from the entry |
| `GraphRuns.PathsAreExecutions` | `src/analysis/CFG.cpp:481-513` | Up to any point of any path from the entry there is an execution on some decisions, with as many loop rounds as asked for, that begins so and goes on along a path; it is the whole of one at the exit; only the false edge of a literal `true` is barred |
| `GraphRuns.EveryPathIsARun` | `src/analysis/CFG.cpp:481-513` | The same for runs of the body itself, its tries succeeding |
| `GraphRuns.EveryRunFollowsAPath` | `src/analysis/CFG.cpp:481-513` | Every run of the body, failing and unfinished ones included, follows a path from the entry up to its end or to the `try` that fails |
| `GraphRuns.PathsAreRuns` | `src/analysis/CFG.cpp:481-513` | The complete paths of the graph built for a body show exactly what its complete runs show in which no `try` fails |
| `GraphRuns.AdequateIffTriesAtEnd` | `src/analysis/CFG.cpp:589-607` | Failing runs included, every complete run is a path exactly when every `try` that control can reach is the last thing done before deferred statements |
| `GraphRuns.FailedTryHasNoPath` | `src/analysis/CFG.cpp:589-607` | Whatever graph the builder returns for `try f(); g();`, it has no path for the run in which f fails |
| `CfgBuilder.EntryHasNoPredecessor` | `src/analysis/CFG.cpp:481-513` | No edge leads to the entry block |
| `BuiltGraphs.BuiltGraphFitsThePasses` | `src/analysis/CFG.cpp:46-51` | A built graph meets the preconditions of the dataflow passes |
| `DeferStacks.PassesPartAll` | `src/codegen/CodegenControlFlow.cpp:66-104` | What a run shows after it passes a `defer` is the run of that block from there, on the stack of statements then pending |
| `DeferStacks.PendingOnce` | `src/codegen/CodegenControlFlow.cpp:66-104` | No deferred statement is pending twice at any point of any run |
| `DeferStacks.DefersRunPromptly` | `src/codegen/CodegenControlFlow.cpp:66-104` | If nothing can come between any reachable `defer` and its statement, each statement passed runs next |
| `DeferPlaces.CulpritIsOrdered` | `src/codegen/CodegenControlFlow.cpp:66-104` | If something can come in between, then on every run what comes first after that `defer` happens only after it is passed and before its statement runs |
| `DeferPlaces.LastDefersMatch` | `src/analysis/Analysis.cpp:302-415` | If every reachable `defer` is the last thing in its block that reads or writes, what happens on a run is, event by event, a beginning of what the pass sees of it |
| `AssignedRuns.UnreportedRunIsAssigned` | `src/analysis/Analysis.cpp:302-415` | If definite assignment reports nothing and no deferred statement writes a declared variable, every read of one on every run comes after a write, deferred statements happening where they run; failing and unfinished runs included |
| `AssignedRuns.LastDefersAreAssigned` | `src/analysis/Analysis.cpp:302-415` | The same whatever deferred statements write, if each reachable `defer` is the last thing in its block that reads or writes |
| `AssignedRuns.ReportedReadHappens` | `src/analysis/Analysis.cpp:302-415` | A read reported outside deferred statements, on a path that takes no false edge of a literal `true`, happens unassigned on some run |
| `AssignedRuns.NeverMissesIffDefersLast` | `src/analysis/Analysis.cpp:302-415` | Whatever the statements read and write, nothing reported means nothing read unassigned on any run, exactly when every reachable `defer` is the last thing in its block that reads or writes: a predicate on the body |
| `AssignedRuns.NeverMistakenIffDefersRunNext` | `src/analysis/Analysis.cpp:302-415` | Whatever the statements read and write, each read reported happens unassigned on some run, exactly when nothing can come between a reachable `defer` and its statement, not even a loop without end: a predicate on the body |
| `AssignedRuns.DeferredWriteIsMissed` | `src/analysis/Analysis.cpp:302-415` | For `mut x: int; defer x = 5; use(x);` nothing is reported on any graph the builder may return, and a run reads x unassigned |
| `AssignedRuns.DeferredReadIsMistaken` | `src/analysis/Analysis.cpp:302-415` | For `mut x: int; defer use(x); x = 1;` the read is reported on every such graph, and on no run is x unassigned when it happens |
| `TryPlaces.RestlessIsExactAll` | `src/analysis/CFG.cpp:589-607` | After a `try` that succeeds a run empties the stack of pending statements before anything else happens, or leaves the block in a way that will do, exactly when the shape of the body says so |
| `LiveRuns.DeadStoreIsUnread` | `src/analysis/Analysis.cpp:467-662` | On every run in which no `try` fails, finished or not, what a store called dead on the run's path writes is written again before it is read |
| `LiveRuns.FailingRunIsRight` | `src/analysis/Analysis.cpp:467-662` | And on a failing run, if what is pending at every reachable `try` would run next on success too |
| `LiveRuns.NeverWrongIffTriesSettle` | `src/analysis/Analysis.cpp:467-662` | Whatever the statements read and write, no run reads what a store called dead wrote, exactly when at every reachable `try` what is pending would run next on success: a predicate on the body |
| `LiveRuns.DeadStoreIsReadOnFailure` | `src/analysis/Analysis.cpp:589-662` | For `p = a; defer use(p); try f(); p = b;` every graph the builder may return makes liveness call the first store dead, and the run in which f fails reads it |
| `LiveRuns.SettledTryNeedNotBeLast` | `src/analysis/Analysis.cpp:589-662` | In `{ { defer use(p); try f(); } g(); }` a statement is pending at a `try` that is not at the end, and yet no dead store is read |
| `DeferLowering.Lowering.FlushPendingDefers` | `src/codegen/CodegenControlFlow.cpp:98-104` | Emits frames from the top down to the depth, each last first, and closes none |
| `DeferLowering.Lower` | `src/codegen/CodegenControlFlow.cpp:98-436` | A body gets code exactly when no break or continue in its tree has no loop above it, and the code performs it, defers and early returns included |
| `DeferLowering.Lowering.Codegen` | `src/codegen/CodegenControlFlow.cpp:107-436` | Refuses exactly a jump outside a loop; otherwise the code laid down performs the statement however generation goes on |
| `DeferLowering.Lowering.Block` | `src/codegen/CodegenControlFlow.cpp:216-301` | Opens a frame, generates the statements, flushes that frame at the end and closes it |
| `DeferLowering.Lowering.Return` | `src/codegen/CodegenControlFlow.cpp:1092-1167` | Value before defers, all frames, then out; generation goes on in a dead block |
| `DeferLowering.Lowering.EarlyReturn` | `src/codegen/CodegenControlFlow.cpp:1203-1226` | `try`: the failure block flushes every frame and returns, the success block goes on |
| `DeferLowering.Lowering.LoopExit` | `src/codegen/CodegenControlFlow.cpp:1044-1087` | break and continue flush the frames inside the loop only |
| `DeferLowering.Lowering.While` | `src/codegen/CodegenControlFlow.cpp:335-383` | The emitted loop performs the while |
| `DeferLowering.Lowering.DoWhile` | `src/codegen/CodegenControlFlow.cpp:386-436` | The emitted loop performs the do-while |
| `DeferLowering.Lowering.If` | `src/codegen/CodegenControlFlow.cpp:107-154` | The emitted chain performs the if |
| `DeferLowering.CodeKeepsActions` | `src/codegen/CodegenControlFlow.cpp:98-436` | On any decisions the code's actions are the program's, deferred runs included, and it stops only where the program has |
| `DeferLowering.CodeRunsEveryDefer` | `src/codegen/CodegenControlFlow.cpp:66-104` | A complete run of the code, failing ones included, runs every defer it passed, once, last first |
| `DeferLowering.PathsAreCodeRuns` | `src/analysis/CFG.cpp:662-686` | For every complete path of the graph the code has a complete run with the path's actions and the deferred statements listed on it |
| `DeferLowering.CodeRunsArePaths` | `src/codegen/CodegenControlFlow.cpp:1203-1226` | Every complete run of the code shows the actions of a path, or those of a run that fails at a `try` not at the end |
| `PatternCode.MatchBindsNames` | `src/codegen/CodegenPattern.cpp:89-219` | A match binds every name of the pattern and no other |
| `PatternCode.StructMatches` | `src/codegen/CodegenPattern.cpp:110-138` | A struct pattern matches a struct, itself or through a reference, exactly when each field pattern matches the field at its index; the bindings are theirs in order |
| `PatternCode.VariantMatches` | `src/codegen/CodegenPattern.cpp:147-187` | A variant pattern matches an error only if the tags are equal, and then exactly when each sub-pattern matches the payload at its position |
| `PatternCode.MatchIsBinds` | `src/codegen/CodegenPattern.cpp:89-219` | On values of the shape their type promises, matching is binding by fields, payload positions, tags and equality, for patterns nested to any depth |
| `PatternCode.LandsThen` | `src/codegen/CodegenPattern.cpp:89-219` | Tests in a row: bindings accumulate, and the first mismatch leaves with only the arm's slots touched |
| `CompareLowering.Lowering.EmitPatternTest` | `src/codegen/CodegenPattern.cpp:89-219` | The emitted test goes on exactly where the pattern matches, with its bindings in their slots, and otherwise goes to the fail block |
| `CompareLowering.HeaderStep` | `src/codegen/CodegenPattern.cpp:269-295` | A header enters the body exactly if it matches and its guard is true over the bindings it stored; otherwise the next header sees the outer variables unchanged despite partial stores |
| `CompareLowering.Lowering.LowerArm` | `src/codegen/CodegenPattern.cpp:243-323` | An arm's headers in order into one body, names visible there only |
| `CompareLowering.SelectIsFirst` | `src/codegen/CodegenPattern.cpp:269-299` | The choice is that of the first header in source order whose pattern binds the subject by its shape and whose guard holds over those bindings, or nothing when there is none |
| `CompareLowering.Lowering.LowerCompare` | `src/codegen/CodegenPattern.cpp:224-343` | For every subject and all guards, the chain enters the arm of the first header whose pattern binds the subject and whose guard holds, with that header's bindings in scope, or passes the compare when none does |
| `CompareLowering.LowerSwitch` | `src/codegen/CodegenControlFlow.cpp:961-1041` | With distinct constants the switch has exactly one place to go: the first arm in source order that lists the value |
| `CompareLowering.SwitchAgreesWithChain` | `src/codegen/CodegenControlFlow.cpp:840-845` | On a compare of constants alone the switch's arm is the chain's |
| `IntPow.CheckedIntPow` | `src/codegen/CodegenCore.cpp:1957-2017` | Panics exactly for a negative exponent, overflows exactly when base to the exp does not fit 64 bits, and otherwise returns it |
| `IntPow.OddStep` | `src/codegen/CodegenCore.cpp:1957-2017` | Multiplying the result by the base on an odd exponent: if that product does not fit, the power does not |
| `IntPow.SquareStep` | `src/codegen/CodegenCore.cpp:1957-2017` | Squaring happens only if the exponent is not used up, and then an overflowing square means an overflowing power |
| `IntPow.MinusTwoTo63` | `src/codegen/CodegenCore.cpp:1950-1956` | (-2)**63 is the minimum and fits |
| `Int64.TruncDivTruncates` | `src/analysis/ValueRange.cpp:78-81` | Division goes toward zero: what is left over is smaller than the divisor and has the dividend's sign |
| `Int64.ShlTrapsExactlyOnOverflow` | `src/codegen/CodegenCore.cpp:1895-1922` | The shift-back test lets a left shift pass exactly when the exact product fits |
| `EditDistance.OptimalStringAlignment` | `src/analysis/Algorithms.cpp:40-75` | The table's last cell is the recursively defined distance |
| `EditDistance.DamerauLevenshtein` | `src/analysis/Algorithms.cpp:89-126` | The same with last-row and last-column bookkeeping and a shifted table whose border never wins |
| `EditDistance.OsaIsLeast` | `src/analysis/Algorithms.cpp:20-39` | No script of edits that exchanges only neighbours costs less |
| `EditDistance.OsaIsReached` | `src/analysis/Algorithms.cpp:20-39` | Some such script costs exactly the distance |
| `EditDistance.DlIsLeast` | `src/analysis/Algorithms.cpp:77-88` | No script costs less even if exchanges may span deletions and insertions: the nearest partner is never worse |
| `EditDistance.DlIsReached` | `src/analysis/Algorithms.cpp:77-88` | Some script costs exactly the distance |
| `EditDistance.OsaBounds` | `src/analysis/Algorithms.cpp:40-126` | Length difference <= Damerau-Levenshtein <= optimal string alignment <= longer length |
| `EditDistance.OsaIsSymmetric` | `src/analysis/Algorithms.cpp:40-75` | Symmetric in the two strings |
| `EditDistance.DlIsSymmetric` | `src/analysis/Algorithms.cpp:89-126` | Symmetric in the two strings |
| `EditDistance.OsaZeroIffEqual` | `src/analysis/Algorithms.cpp:40-75` | Zero exactly for equal strings |
| `EditDistance.DlZeroIffEqual` | `src/analysis/Algorithms.cpp:89-126` | Zero exactly for equal strings |

## Left out

- The collector's capture of registers, its stack bounds, the ASan hooks and the mark validator: machine code and operating-system queries. Root words are a parameter.
- The order of equal elements in `qsort` and its algorithm: block starts are distinct, and the model sorts by insertion to the same result.
- Wrap-around of the 64-bit statistics and byte counters, and of `size_t` and `int` in the distances: the model counts without bound.
- `turf_rt_alloc_zeroed`: the same calls as `turf_rt_alloc` for the table and the counters; the zeroing of memory is not modelled. The out-of-memory panic is the result `None`.
- Freed memory itself: a block leaves the table, and that nobody reads it afterwards is not stated. `turf_rt_checked_free` and the statistics print-out are not modelled.
- `for`, `for`-each, `compare` and `recover ... run` in the control-flow graph, and the ternary form of `if`: the graph language has blocks, if/elseif/else, while, do-while, defer, return, break, continue, `try` and plain statements.
- CfgBuilder.BuildCfg: the graph has no edge for a `try` that fails, so it performs the body with every `try` succeeding; GraphRuns.AdequateIffTriesAtEnd says exactly when no complete run is lost, and LiveRuns.NeverWrongIffTriesSettle when liveness stays right all the same.
- A `try` inside a larger statement, as in `x = try f();`: the model's `try` is a statement of its own, and what it reads and writes is its operand's, done whether or not it fails.
- GraphRuns.AdequateIffTriesAtEnd: the nodes of a body are distinct, as those of a syntax tree are distinct objects; the "only if" half needs that, and so do the exact conditions for definite assignment and liveness.
- AssignedRuns.NeverMissesIffDefersLast: for bodies in which the literal `true` is no `if` condition. The builder gives such an `if` an edge that no run takes, and the pass may report a read there; the "if" half holds for all bodies (AssignedRuns.LastDefersAreAssigned).
- LiveRuns.NeverWrongIffTriesSettle: for the same bodies, since a read on an edge no run takes can save a store from being called dead; the "if" half holds for all bodies (LiveRuns.FailingRunIsRight, LiveRuns.DeadStoreIsUnread). Stores made by deferred statements while a `try` is failing stand nowhere in the graph, and nothing is said about them.
- BlockTable.Table.Forget: where a removed block's slot answers for address 1 the runtime uses that slot's stale position, possibly past the end of the array. Forget, Reregister, StringCapacity and GcHeap.Realloc are stated where no such slot answers (NoFalseHit); IsRegistered says what it returns there too.
- BlockTable.Table.StringCapacity: as Forget, for address 1.
- CfgBuilder.CfgBuilder.VisitExpr: the terminator kinds and source locations kept for messages are reduced to "no current block"; the body of a deferred statement is one action.
- The `null` insert point of module-level blocks and the conversions around a returned value in code generation.
- How syntax trees become events, and which calls count as self-calls: the graph searches and the flow passes start from per-block events and a set of blocks.
- Constant propagation through element and field assignments, casts, method calls and conditionals inside expressions, and its out-of-bounds diagnostic.
- NullNarrowing.Run: that a block meets the two conditions is enough for its facts to be true on every run, not necessary, since a later write may undo a wrong fact. Calls are taken never to change a tracked reference, for example through `&p`. Declarations without an initialiser are left to definite assignment; method calls, casts and field reads are one kind of read; conditions assign nothing. Deferred statements as a whole are outside the model: the pass does not look into them (Analysis.cpp:996 overrides nothing for `defer`), so it neither checks a deferred read through an unproven reference nor sees a deferred assignment to a tracked one.
- String subjects of `compare`: the same chain with content comparison; the width conversions of bool and char constants.
- CompareLowering.Lowering.LowerCompare: what a header binds is stated by the subject's shape for subjects of the shape their type promises (PatternCode.Shaped), as the type checker has seen to; guards read variables and change none.
- EditDistance.DlIsLeast: scripts are alignments with spanning exchanges; that these are as good as any sequence of single edits, and the triangle inequality, are not proved.
- Escape and alias analysis, lints, cyclomatic complexity, diagnostics text, the other panicking arithmetic emitters and floating point.

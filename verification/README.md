# Parallel block execution, verified

A model of the parts of the repository that decide which transactions of a block may run side by side, run them on
private caches and merge the caches back, together with proofs that this leaves what running the block in order leaves.

- `AccessLists` holds predicted and recorded read and write sets and the conflict test.
- `Graphs`, `Reachability`, `Fields` and `UndirectedGraphs` are the conflict graph: vertices marked deleted in place,
  degree fields, adjacency lists, induced copies, connected components. `Layers` and `DirectedGraphs` are the directed
  graph and its layered schedule.
- `Searches` and `Machines` are the independent-set solver's loop as functions on its buckets and the graph's degree
  fields, in any state; `LinearTimeSolver` is the solver itself, in place, each method proved to be its function.
  `Holdings` and `Stuck` say what every turn keeps from any state.
- `Reductions`, `Chains`, `ChainSteps`, `Paths` and `Worklist` say what the same reductions do on the graph alone, which
  invariant they keep and why the loop ends; `TurnLaws` shows that a turn on fields that count live neighbours is such a
  turn. `Endless` is when the loop ends and when it never does; `StaleExample` is a run that never ends.
- `LargestSets` compares independent sets before and after each reduction, in terms of graphs alone; `NearLargest` is how
  far the solver's answer can be from a largest one, and `ShortExample` an answer that is not. `MisInTurn` drives the
  solver round after round.
- `Caches` is the value of a cache state (accounts, undo journal, dirty counters, revisions, judgement), `Snapshots`
  compares it with a state that keeps a full copy at every snapshot, and `CacheStates` is the class with its account
  objects and journal updated in place. `Stores` and `SharedStates` are prefetching, merging and the shared state.
- `Programs` models a transaction as a deterministic bounded program over storage slots, run directly on a storage.
  `CacheRuns` shows that a run on a cache is that run, and what the judgement means. `Recorders` is the wrapper that
  records accesses.
- `Schedules` and `Rounds` are the theory of committing a block out of order; `Groups`, `ComponentGroups` and
  `MisGroups` build the groups; `Engine` and `Executors` run them on cache states against the shared state.
- `Reserves` and `Aria` are one round of Aria: reservation tables, the commit rule and its serializability.
  `AriaRounds` runs the round on recorded cache states, and `AriaMerges` is about the merge that ends it.
- `AncestorHashes` is the cached lookup of ancestor block hashes.

A class holds the fields the source updates; a ghost view gives its value; each method is specified by a function of
the old value, and the lemmas are about those functions. Iteration over Go maps is modelled as choosing any remaining
key, so results hold for every order.

## What is proved

**Block order.** `Schedules.Good` assumes that in block order every predicted run stays inside its predicted sets and
that the shared state holds the predicted slots. Then any run of any schedule that never puts a transaction before an
earlier one it conflicts with, with the slot writes of each round's merges interleaved in any way, ends in the
block-order storage (`Rounds.ScheduleIsSerial`). The layers of `GetDegreeZero` and the conflict components are such
schedules (`Groups.LayersFit`, `ComponentGroups.ComponentsFit`), and the two executors, working on cache-state objects,
end there (`Executors`). Groups from the independent-set solver reorder the block; they leave what running the block
group by group leaves. A prediction may be missing: grouping passes it over, but all three executors then panic while
prefetching the shared state, since state/concurrentRWstate.go:355 reads through the nil pointer. A layer's number is
the length of the longest conflict chain, so no assignment of rounds that keeps the block order and puts conflicting
transactions into different rounds has fewer rounds (`Layers.FewestRounds`); the component groups need only one round
because they put conflicting transactions into the same group.

**The solver.** One branch of `degreeTwoPathReduction` deletes an even chain whose ends are already adjacent without
moving the ends to another bucket (mis/linear.go:216-227). `ChainSteps.ChainStepTight` shows that a contraction keeps
the invariant if and only if it is not that branch with an end of degree three; call a turn that takes it stale. The
loop, run from freshly built buckets, ends if and only if none of its turns is stale
(`Endless.EndsExactlyIfNeverStale`), by (live vertices, size of `VerticesTwo`) in one direction. In the other, either
the fields go on counting live neighbours and some live member of `VerticesGreaterThanThree` has degree two or less, or
some deleted member has a field of one or two, which no operation ever removes. So no state that any further turns reach
has empty buckets (`Endless.NeverEndsAfter`). Nor does any turn panic for want of a second end: before a deleted vertex
is deleted again the fields are right, and afterwards `VerticesTwo` is empty for good (`Endless.NoTurnPanics`).
`StaleExample.LoopMayNotEnd` is a run that goes on for ever: it deletes one and the same deleted vertex again and again,
after a field has wrapped around below zero. The methods
`EmptyBuckets`, `Solve`, `SolveMisInTurn` and `GenerateMISGroups` return the runs they took; `halts == false` means that
the last one has just gone stale. When they return with `halts`, the chosen set is independent, holds every live vertex,
and is non-empty for a non-empty graph. By then every live vertex is chosen, so the pass over the stack never adds a
vertex (`LinearTimeSolver.NoneJoined`).

**How near to a largest set.** A turn that deletes vertices by a degree-one or degree-two reduction loses nothing: every
independent set of live vertices has one at least as large among those still live. Shortening an odd chain or replacing
an even one costs exactly half of the vertices pushed, and a turn that peels costs one at most
(`NearLargest.TurnCosts`). So after a run that ended the largest independent sets have at least as many members as the
answer and half of what was pushed, and at most one more for every peeling turn (`NearLargest.AnswerNearLargest`). What
was pushed would have to come back for the answer to be a largest one, and it cannot, since the pass over the stack adds
nothing. A run that never peels therefore answers with a largest set if and only if it pushed nothing;
`ShortExample.AnswerMayFallShort` is a graph on which such a run answers with two where three are independent.

**The cache.** The journal behaves as full copies would, panics included. Reverting to an outer snapshot stays possible
and restores accounts, journal, counters and revisions. A false judgement stays false until `executeTx` resets it, and
`executeTx` finds the prediction false exactly when the run touched a slot that was not cached. What each setter, a
prefetch and a merge do is also stated field by field, without the functions the model uses
(`Caches.BalanceAfter` and those after it, `Stores.PrefetchMeans`, `Stores.MergedMeans`).

**Aria.** Committed transactions write disjoint keys, and their must-read-before relation has no cycle: ranking the ones
with a read hazard first, latest first, and the others in block order gives an order in which each reads the round's
starting values. A transaction whose prediction was false does not count as failed (utils/aria.go:41), so the rule may
commit it although its effects were undone, and it is lost (`AriaRounds.LostExactly`). A merge writes every cached slot
of every account the transaction changed, those it only read included. So the merges of a round leave what its serial
order leaves, however they interleave, if and only if no committed transaction has cached, in an account it changes, a
slot that it does not write and another committed one changes (`AriaMerges.MergeIsSerialExactlyIf`);
`AriaMerges.MergeMayLose` is a round in which a committed write may be lost.

## Model

| member | source | states |
|---|---|---|
| AccessLists.Add | accesslist/rw_accesslist.go:24-29 | the tuple afterwards holds exactly what it held and the added pair |
| AccessLists.MeetsEither | accesslist/rw_accesslist.go:67-76 | the nested loops return true exactly when some entry of the first tuple is in one of the other two |
| AccessLists.HasConflict | accesslist/rw_accesslist.go:59-78 | true exactly when one set writes something the other reads or writes |
| AccessLists.ConflictSymmetric | accesslist/rw_accesslist.go:59-78 | the conflict test does not depend on which transaction asks |
| Schedules.ConflictExactly | accesslist/rw_accesslist.go:59-78 | two access sets over slots conflict if and only if some two transactions that stay within them interfere on some storage |
| AccessLists.RWSet.constructor | accesslist/rw_accesslist.go:44-49 | both recorded sets start empty |
| AccessLists.RWSet.AddReadSet | accesslist/rw_accesslist.go:51-53 | adds one pair to the reads and touches nothing else |
| AccessLists.RWSet.AddWriteSet | accesslist/rw_accesslist.go:55-57 | adds one pair to the writes and touches nothing else |
| UndirectedGraphs.UndirectedGraph.constructor | conflictGraph/undirectGraph.go:22-27 | the empty graph |
| UndirectedGraphs.UndirectedGraph.AddVertex | conflictGraph/undirectGraph.go:48-61 | a new vertex without edges, or nothing if the id is known; the degree fields still count live neighbours |
| UndirectedGraphs.UndirectedGraph.HasEdge | conflictGraph/undirectGraph.go:74-86 | true exactly for adjacent vertices that are both live |
| UndirectedGraphs.UndirectedGraph.AddEdge | conflictGraph/undirectGraph.go:64-72 | in any state, deleted or equal endpoints included: unless both are live and adjacent, each is listed for the other once more and both fields go up; between different live vertices of a valid graph it stays valid |
| UndirectedGraphs.UndirectedGraph.RemoveVertex | conflictGraph/undirectGraph.go:88-97 | in any state: the vertex is marked and each listed occurrence of a vertex not marked lowers its field by one; removing a live vertex of a valid graph keeps the fields counting live neighbours |
| Fields.JoinedLists | conflictGraph/undirectGraph.go:68-69 | after an edge is added each end is listed for the other once more, and a vertex joined to itself twice for itself |
| Fields.RaisedFields | conflictGraph/undirectGraph.go:70-71 | both fields go up by one, that of a vertex joined to itself by two |
| Fields.LoweredCounts | conflictGraph/undirectGraph.go:91-96 | a vertex not marked deleted loses one for each time it is listed, repetitions included |
| Fields.UnsignedWraps | mis/linear.go:148-151 | a field counted down below zero is read as the unsigned number that differs from it by a multiple of 2^64 |
| UndirectedGraphs.UndirectedGraph.CopyGraphWithDeletion | conflictGraph/undirectGraph.go:29-45 | a fresh graph that is exactly the subgraph induced by the live vertices |
| UndirectedGraphs.UndirectedGraph.Dfs | conflictGraph/undirectGraph.go:116-126 | the call appends, once each, exactly the live vertices reachable from v outside what was visited |
| UndirectedGraphs.UndirectedGraph.GetConnectedComponents | conflictGraph/undirectGraph.go:100-113 | non-empty, duplicate-free, pairwise disjoint lists, each a whole component, together all live vertices |
| Reachability.ExploredIsComponent | conflictGraph/undirectGraph.go:104-110 | a search started outside a closed visited set finds exactly the least closed set holding its start |
| Reachability.ComponentIsLinked | conflictGraph/undirectGraph.go:116-126 | a vertex is in the component exactly when a walk along edges joins it to the start |
| DirectedGraphs.DirectedGraph.AddVertex | conflictGraph/directedGraph.go:20-33 | a new vertex without arcs, or nothing if the id is known; degree fields still count predecessors |
| DirectedGraphs.DirectedGraph.HasEdge | conflictGraph/directedGraph.go:43-46 | true exactly when the arc is there |
| DirectedGraphs.DirectedGraph.AddEdge | conflictGraph/directedGraph.go:35-41 | the arc is added once and the in-degree of its target agrees |
| DirectedGraphs.DirectedGraph.ZeroDegrees | conflictGraph/directedGraph.go:50-55 | exactly the vertices without predecessors, once each |
| DirectedGraphs.DirectedGraph.Consume | conflictGraph/directedGraph.go:60-65 | consuming one vertex appends exactly the vertices whose last unfinished predecessor it was |
| DirectedGraphs.DirectedGraph.ConsumeLayer | conflictGraph/directedGraph.go:58-66 | consuming layer k yields exactly layer k + 1 |
| DirectedGraphs.DirectedGraph.GetDegreeZero | conflictGraph/directedGraph.go:48-75 | the returned lists are the layers of the graph: each duplicate-free, none but possibly the first empty, and no further layer has a vertex |
| Layers.LayersPartition | conflictGraph/directedGraph.go:48-75 | for arcs from smaller to larger ids the layers hold every vertex exactly once |
| Layers.ArcGoesUp | conflictGraph/directedGraph.go:60-65 | an arc leads from an earlier to a later layer |
| Layers.LayerIsLongestPath | conflictGraph/directedGraph.go:48-75 | a vertex is in layer k exactly when the longest path ending at it has k + 1 vertices |
| Layers.NoScheduleIsShorter | conflictGraph/directedGraph.go:48-75 | any assignment of rounds that respects the arcs gives a layer-k vertex round k or later |
| Layers.FewestRounds | conflictGraph/directedGraph.go:48-75 | for a graph with a vertex, the layers are as few rounds as any assignment that respects the arcs can use |
| LinearTimeSolver.LinearTime.constructor | mis/linear.go:41-70 | whatever the marks and fields: vertices with field zero are chosen and marked, all others are in the bucket of their field |
| LinearTimeSolver.LinearTime.DeleteVertex | mis/linear.go:99-130 | in any state: the mark, the one bucket chosen by the vertex's own field, and, unless that is zero, one step down for each listed vertex not marked |
| LinearTimeSolver.LinearTime.DegreeOneReduction | mis/linear.go:132-140 | in any state: some member of VerticesOne is popped and each listed vertex not yet marked when its turn comes is deleted |
| LinearTimeSolver.LinearTime.InexactReduction | mis/linear.go:142-157 | in any state: a member of VerticesGreaterThanThree with the greatest unsigned field is deleted, or nothing if all fields there are zero |
| LinearTimeSolver.LinearTime.DfsToFindDegreeTwoPath | mis/linear.go:258-269 | the search lists what the search function lists among live vertices with field two, in that order |
| LinearTimeSolver.LinearTime.FindLongestDegreeTwoPath | mis/linear.go:235-256 | the path is what the popped vertex finds, and isCycle holds exactly when no listed live neighbour leads out of it |
| LinearTimeSolver.LinearTime.DfsToReOrgPath | mis/linear.go:294-304 | the search lists what the search function lists within the path, in that order |
| LinearTimeSolver.LinearTime.PathReOrg | mis/linear.go:271-292 | the path from its first vertex that touches a live vertex of another field on; a panic exactly if there is none |
| LinearTimeSolver.LinearTime.FindEnds | mis/linear.go:167-197 | v and w are the first such neighbours of the two ends, the first two for a single vertex, and the sentinel where there is none |
| LinearTimeSolver.LinearTime.ReduceChain | mis/linear.go:199-231 | each of the four branches, by parity and adjacency of the ends, in any state; stale reports the one branch that does not re-bucket |
| LinearTimeSolver.LinearTime.DegreeTwoPathReduction | mis/linear.go:159-233 | in any state: one reduction from some popped member of VerticesTwo, or a panic, exactly when an end is missing |
| LinearTimeSolver.LinearTime.TakeTurn | mis/linear.go:74-80 | in any state whose buckets hold vertices: one turn of the loop, after which another can be taken, or a panic |
| TurnLaws.SeenOneMore | mis/linear.go:114-129 | one turn of deleteVertex's loop lowers one more neighbour of the deleted vertex |
| TurnLaws.DeleteAgrees | mis/linear.go:99-130 | while the live vertices' fields count their live neighbours, deleting a live vertex on the fields is deleting it from the graph, and they go on counting |
| Searches.SearchExplores | mis/linear.go:258-269 | a search lists, once each, exactly what is reachable from its start outside what was visited |
| Searches.SearchFollows | mis/linear.go:294-304 | among degree-two vertices, a search from a vertex with one way on lists them in chain order |
| TurnLaws.FindsChain | mis/linear.go:159-197 | while fields agree, the path and the two ends the code finds form a chain through the whole degree-two component, and neither nil pointer arises |
| TurnLaws.ChainAgrees | mis/linear.go:199-231 | while fields agree, contracting on the fields is contracting the graph, fields agree afterwards, and the stale report means an even chain, adjacent ends and an end of degree three |
| TurnLaws.TurnAgrees | mis/linear.go:73-81 | a turn on agreeing fields is a turn on the graph and keeps them agreeing; a member of VerticesGreaterThanThree that dies in it is stuck there |
| Holdings.TurnHolds | mis/linear.go:73-81 | any turn that returns, from any state, leaves every bucket holding vertices of the graph and every listed neighbour one of them |
| Stuck.TurnKeepsStuck | mis/linear.go:73-81 | from any state, whatever turn is taken, a deleted member of VerticesGreaterThanThree with field one or two outside VerticesTwo stays one |
| Endless.RegularOrStuck | mis/linear.go:73-81 | a turn from agreeing fields with VerticesGreaterThanThree all live leads to such a state again, or some member of it is stuck |
| Endless.DoomedStays | mis/linear.go:73-81 | no turn leaves the states in which VerticesGreaterThanThree holds a stale or a stuck member |
| Endless.CleanOrDoomed | mis/linear.go:73-81 | a turn from a state that keeps the invariant leads to such a state if it is not stale, and to a doomed one if it is |
| Endless.NeverEndsAfter | mis/linear.go:72-81 | after the first stale turn, the loop's guard is true in every state that any number of further turns can reach |
| Endless.NoTurnPanics | mis/linear.go:159-233 | from freshly built buckets no number of turns, stale ones included, leads to a panic: the loop has ended or another turn can be taken |
| Endless.EndsExactlyIfNeverStale | mis/linear.go:72-81 | a run from freshly built buckets ends if and only if none of its turns is stale |
| StaleExample.LoopMayNotEnd | mis/linear.go:72-81 | on a concrete graph of five vertices there is a run from the fresh buckets that never ends |
| LinearTimeSolver.LinearTime.EmptyBuckets | mis/linear.go:73-81 | the run taken is returned: it ended with the invariant intact, or its last turn, and only that, was stale |
| LinearTimeSolver.LinearTime.Solve | mis/linear.go:72-97 | the run is returned with its outcome; when it ended, every live vertex is chosen and no two chosen ones are adjacent, deleted ones and added edges included, and the stack is empty |
| LinearTimeSolver.LinearTime.TryStack | mis/linear.go:82-96 | a stacked vertex joins only if everything listed for it is live and not chosen |
| LinearTimeSolver.LinearTime.Pop | mis/linear.go:22-31 | the last stacked id, or the sentinel on an empty stack |
| LinearTimeSolver.NoneJoined | mis/linear.go:82-96 | since every live vertex is chosen by then, the pass over the stack adds nothing |
| Reductions.InitialTight | mis/linear.go:41-60 | the buckets built from a graph with all vertices live satisfy the solver's invariant |
| Reductions.DeleteKeepsTight | mis/linear.go:99-130 | deleting any live vertex that has a neighbour keeps the invariant, all-two components included |
| Chains.ChainNeighbours | mis/linear.go:271-304 | a chain member's live neighbours are exactly its two companions along the chain and its ends |
| Chains.OddGraphNeighbours | mis/linear.go:206-210 | what each surviving vertex is next to after an odd chain is shortened to one vertex |
| Chains.EvenGraphNeighbours | mis/linear.go:216-227 | what each surviving vertex is next to after an even chain is replaced by an edge: its ends lose a degree exactly if they were adjacent |
| ChainSteps.ChainStepSound | mis/linear.go:199-231 | no branch of the contraction ever loses a vertex of degree one or of three and more from its bucket, nor a chosen one |
| ChainSteps.ChainStepTight | mis/linear.go:199-231 | the contraction keeps the full invariant if and only if it is not the case that the chain is even, its ends are adjacent and one of them has degree three |
| LargestSets.PendantCosts | mis/linear.go:132-140 | deleting the only live neighbour of a vertex costs nothing: every independent set of live vertices has one at least as large without it |
| LargestSets.CycleCosts | mis/linear.go:163-164 | on a cycle of degree-two vertices, deleting any one costs nothing |
| LargestSets.LoopCosts | mis/linear.go:199-200 | if both ends of a chain are the same vertex, deleting that vertex costs nothing |
| LargestSets.BothEndsCost | mis/linear.go:201-204 | deleting both adjacent ends of an odd chain costs nothing |
| LargestSets.OddCosts | mis/linear.go:206-210 | shortening an odd chain to its first vertex costs exactly half of the vertices removed |
| LargestSets.EvenCosts | mis/linear.go:216-227 | replacing an even chain by an edge costs exactly half of the vertices removed |
| NearLargest.ChainStepCosts | mis/linear.go:199-231 | a contraction costs half of what it pushes; what it pushes is what went, along the chain, the one next to the vertex that stays on top |
| NearLargest.TurnCosts | mis/linear.go:72-81 | while the fields are right, a turn that returns, stale or not, costs half of what it pushes, exactly so unless it peels, and then at most one more |
| NearLargest.ReductionKeepsLargest | mis/linear.go:132-205 | a degree-one or degree-two reduction that pushes nothing loses nothing: every independent set of live vertices has one at least as large among those still live |
| NearLargest.AnswerNearLargest | mis/linear.go:72-97 | after a run that ended, the largest independent sets of the graph have at least as many members as the answer and half of what was pushed, and at most one more for every time it peeled |
| NearLargest.LargestExactlyIfNothingPushed | mis/linear.go:72-97 | if a run never peeled, its answer is a largest independent set if and only if nothing was pushed |
| ShortExample.AnswerMayFallShort | mis/linear.go:82-96 | on a concrete graph of six vertices a run that never peels answers with two where three are independent |
| Paths.PathIsChain | mis/linear.go:271-304 | a reordered path of a component that is not a cycle is a chain between its two end neighbours |
| Worklist.TurnTight | mis/linear.go:73-81 | a turn keeps the invariant if and only if it does not leave an end stale |
| Worklist.TurnProgress | mis/linear.go:73-81 | every turn lowers (live vertices, size of VerticesTwo), loses no edge and no choice, and leaves a vertex alive |
| Worklist.EmptyBucketsChooseLive | mis/linear.go:73-81 | once the buckets are empty every vertex still live is in the independent set |
| Worklist.ChosenIndependent | mis/linear.go:72-97 | at every moment no two chosen vertices are adjacent |
| Worklist.StaleBorn | mis/linear.go:216-227 | the one bad branch leaves a member of VerticesGreaterThanThree with degree two |
| MisInTurn.ToSlice | utils/mis.go:14-18 | the members of the set, once each |
| MisInTurn.ResetVertices | utils/mis.go:20-23 | every vertex is live again and its field is the length of its neighbour list |
| MisInTurn.MarkAll | utils/mis.go:24-26 | exactly the listed vertices are marked deleted |
| MisInTurn.SolveGraph | utils/mis.go:12-13 | the solver's run from the buckets of the graph is returned: it ended, and the choice is independent, non-empty for a non-empty graph, and as near to a largest one as its stack and its peeling turns say; or it went stale |
| MisInTurn.OneRound | utils/mis.go:12-27 | with the run: if it ended, its choice and the copied graph split the vertices and the choice is independent in the graph the round started with; otherwise it went stale |
| MisInTurn.StaleNeverEnds | utils/mis.go:12-13 | a solver run that went stale never reaches empty buckets, whatever turns follow |
| MisInTurn.SolveMisInTurn | utils/mis.go:9-33 | every round's graph and run are returned; either all runs ended, and the groups partition the vertices and each is independent in the original graph, or all but the last ended and the last went stale |
| Caches.FirstAtLeast | state/cachestate.go:375-377 | the first revision with at least the given id |
| Caches.UndoInverts | state/journal.go:121-171 | a setter journals at most one entry; its revert gives back exactly the accounts before, and a setter that journals nothing changes nothing |
| Caches.BalanceAfter | state/cachestate.go:187-221 | only the balance of an account that is there changes: it shrinks, grows or is replaced by the amount |
| Caches.NonceAfter | state/cachestate.go:232-240 | only the nonce of an account that is there changes, to the given one |
| Caches.CodeAfter | state/cachestate.go:251-261 | only code and code hash of an account that is there change, to the given ones |
| Caches.SlotAfter | state/cachestate.go:289-306 | only a slot that is cached changes, to the given value |
| Caches.LifeAfter | state/cachestate.go:324-336 | a destroyed account is dead with balance zero and otherwise the same; a created one is alive, empty and has the hash of no code |
| Caches.JudgedBy | state/cachestate.go:101-156 | an operation leaves the judgement true exactly if it was true and the operation found the account whose code, or the slot, it asks for |
| Caches.TallyCounts | state/journal.go:51-56 | each dirty counter is the number of journal entries touching the account |
| Caches.WriteKeepsValid | state/cachestate.go:187-345 | a setter or reader extends the journal, undoing the extension gives the accounts back, and the cache stays valid |
| Caches.RevertKeepsValid | state/cachestate.go:373-386 | a revert leaves a valid cache: the rest of the journal still unwinds and still explains the counters |
| Caches.StepKeepsValid | state/cachestate.go:176-394 | every operation that does not panic keeps a cache valid |
| Caches.DirtyExists | state/cachestate.go:475-485 | in a valid cache a dirty account exists, so neither undo nor merge meets a missing one |
| Snapshots.StepShows | state/cachestate.go:176-394 | one operation is refused by the cache exactly when a state with full copies refuses it, and both then show the same accounts, now and at every snapshot |
| Snapshots.RunShows | state/cachestate.go:176-394 | the same over any run of operations |
| Snapshots.JournalRefinesCopies | state/journal.go:60-73 | from prefetched accounts, any run of setters, nested snapshots and reverts shows what full copies would show, panics included |
| Snapshots.RevertRestores | state/cachestate.go:373-394 | after a snapshot and any run that reverts only to later ids, reverting to it is possible and restores accounts, journal, counters and revisions |
| Snapshots.FalseStaysFalse | state/cachestate.go:144-156 | no operation, inner reverts included, sets a false judgement back to true |
| Snapshots.JudgedExactly | state/cachestate.go:101-306 | over any run without a panic the judgement is true exactly if it was at the start and every code or slot asked for was found in the cache as it was then |
| Snapshots.ReachableCache | state/cachestate.go:475-485 | in every reachable cache a counter is the exact number of entries for its account, a dirty account exists, and one that is not dirty is as it was prefetched |
| CacheStates.AccountObject.constructor | state/account.go:25-38 | an empty live account with the hash of no code |
| CacheStates.AccountObject.SubBalance | state/account.go:44-49 | only the balance changes, by the amount |
| CacheStates.AccountObject.AddBalance | state/account.go:51-56 | only the balance changes, by the amount |
| CacheStates.AccountObject.SetBalance | state/account.go:58-60 | only the balance changes |
| CacheStates.AccountObject.SetNonce | state/account.go:66-68 | only the nonce changes |
| CacheStates.AccountObject.SetCode | state/account.go:78-81 | only the code and its hash change |
| CacheStates.AccountObject.GetStorageState | state/account.go:83-90 | the cached value and whether there is one |
| CacheStates.AccountObject.SetStorageState | state/account.go:92-94 | only the one slot changes |
| CacheStates.Journal.Append | state/journal.go:51-56 | the entry is last and its account's counter one higher |
| CacheStates.Journal.Revert | state/journal.go:60-73 | the loop leaves the accounts with the entries above the snapshot undone, last first, and the counters of what remains |
| CacheStates.CacheState.constructor | state/cachestate.go:54-63 | an empty valid cache whose judgement is true |
| CacheStates.CacheState.GetBalance | state/cachestate.go:81-88 | the balance, or zero; the cache is unchanged |
| CacheStates.CacheState.GetNonce | state/cachestate.go:91-98 | the nonce, or zero; the cache is unchanged |
| CacheStates.CacheState.GetCodeHash | state/cachestate.go:101-108 | the hash, or zero; the judgement stays true exactly if it was and the account is cached |
| CacheStates.CacheState.GetCode | state/cachestate.go:111-118 | the code, or none; the judgement stays true exactly if it was and the account is cached |
| CacheStates.CacheState.GetCodeSize | state/cachestate.go:121-132 | the length of the code, or zero; the judgement stays true exactly if it was and the account is cached |
| CacheStates.CacheState.GetState | state/cachestate.go:144-156 | the slot's value, or zero; the judgement stays true exactly if it was and the slot is cached |
| CacheStates.CacheState.CreateAccount | state/cachestate.go:176-185 | unless there is one, a journalled new account, alive and empty; not journalled while prefetching |
| CacheStates.CacheState.SubBalance | state/cachestate.go:187-198 | an account that is there has the amount less, journalled; nothing else changes |
| CacheStates.CacheState.AddBalance | state/cachestate.go:201-211 | an account that is there has the amount more, journalled; nothing else changes |
| CacheStates.CacheState.SetBalance | state/cachestate.go:213-221 | an account that is there has the amount, journalled; nothing else changes |
| CacheStates.CacheState.SetNonce | state/cachestate.go:232-240 | an account that is there has the nonce, journalled; nothing else changes |
| CacheStates.CacheState.SetCode | state/cachestate.go:251-261 | an account that is there has the code and its hash, journalled; without the account only the judgement falls |
| CacheStates.CacheState.SetState | state/cachestate.go:289-306 | a cached slot has the value, journalled; otherwise only the judgement falls |
| CacheStates.CacheState.SelfDestruct | state/cachestate.go:324-336 | an account that is there is dead and without balance, both journalled; nothing else changes |
| CacheStates.CacheState.Snapshot | state/cachestate.go:389-394 | a new id on the stack with the current journal length |
| CacheStates.CacheState.Search | state/cachestate.go:375-377 | the library's binary search finds the first id at least as large |
| CacheStates.CacheState.RevertToSnapshot | state/cachestate.go:373-386 | false exactly when the id is not on the stack; otherwise accounts, journal, counters and revisions are the model's |
| CacheStates.CacheState.PrefetchSetter | state/cachestate.go:451-472 | one entry is copied unless it was prefetched before: each copied field is the base account's own or the default, the others stay |
| CacheStates.CacheState.Prefetch | state/cachestate.go:431-449 | every requested entry not prefetched before is copied from the base, whatever the map order, and nothing is journalled; into an empty cache this leaves exactly the requested fields, with the base account's values or the defaults, in otherwise new accounts |
| CacheStates.CacheState.MergeState | state/cachestate.go:475-485 | each dirty account that the target holds gets the cache's balance, nonce, code and cached slots, and the hash of that code; everything else is unchanged |
| Stores.FetchedOneMore | state/cachestate.go:451-472 | fetching a set of entries is fetching them one by one with prefetchSetter, in any order |
| Stores.PrefetchedSlots | state/cachestate.go:431-449 | a fresh cache holds exactly the requested slots, with the base state's values |
| Stores.PrefetchMeans | state/cachestate.go:431-472 | prefetching into nothing leaves exactly the accounts of which something was requested; each requested field is the base account's own, or zero, empty and dead where the base has none, and the others are those of a new account; into an earlier cache, fields not fetched stay |
| Stores.SlotsAfterSet | state/concurrentRWstate.go:241-255 | setting a slot changes that slot if it is held, and no other |
| Stores.MergedByParts | state/cachestate.go:478-483 | the calls MergeState makes for one account amount to the merged account |
| Stores.MergedMeans | state/cachestate.go:475-485 | a dirty account that the target holds gets the cache's balance, nonce, code and cached slots, and the hash of that code; everything else stays |
| SharedStates.SharedState.GetState | state/concurrentRWstate.go:117-127 | the value held, or zero |
| SharedStates.SharedState.CreateAccount | state/concurrentRWstate.go:147-153 | a new account unless there is one |
| SharedStates.SharedState.SetBalance | state/concurrentRWstate.go:173-179 | only an existing account's balance changes |
| SharedStates.SharedState.SetNonce | state/concurrentRWstate.go:190-196 | only an existing account's nonce changes |
| SharedStates.SharedState.SetCode | state/concurrentRWstate.go:207-213 | only an existing account's code and hash change |
| SharedStates.SharedState.SetState | state/concurrentRWstate.go:241-255 | only a held slot changes |
| SharedStates.SharedState.PrefetchSetter | state/concurrentRWstate.go:368-389 | one entry is copied unless it was prefetched before: each copied field is the base account's own or the default, the others stay |
| SharedStates.SharedState.Prefetch | state/concurrentRWstate.go:353-366 | every requested entry not prefetched before is copied from the base, up to the first prediction that is missing, at which it panics; into an empty state this leaves exactly the requested fields, with the base account's values or the defaults |
| Programs.ChangesAreRecorded | state/fullstate.go:158-163 | a slot outside the recorded write set keeps its value |
| Programs.Framed | state/fullstate.go:80-85 | two storages that agree on the recorded reads give the same run: same loads, accesses and writes |
| Programs.LoadsSeeStores | state/cachestate.go:289-297 | a slot that is held is loaded with the value last stored, and no other slot is affected |
| Programs.RunsToTheEnd | tracer/execute.go:17-34 | a transaction that is taken runs until it stops or has used up its gas; one that is not changes nothing and touches nothing |
| Programs.CallEnds | state/cachestate.go:373-394 | a call that ends well keeps what was written inside it; one that fails leaves exactly the writes there were before it, and what it loaded and touched stays on record |
| Programs.Commute | accesslist/rw_accesslist.go:59-78 | two runs whose recorded sets do not conflict commute |
| CacheRuns.ExecSims | state/cachestate.go:144-156 | step by step, a run on a cache is the direct run on its slots, snapshots and reverts included; the judgement is true exactly while only cached slots were touched |
| CacheRuns.ExecuteTxMeans | tracer/execute.go:17-65 | executing a transaction never panics; one the core does not accept leaves the accounts and is an error; otherwise, if it touched only cached slots the cache shows the direct run's storage, and if not the prediction is found false and the cache is back at what it was |
| CacheRuns.EndingsInOrder | tracer/execute.go:68-75 | one error for each transaction, whatever the others ended with: that of running it on the cache the ones before it left |
| CacheRuns.JudgedReadsAreTrue | state/cachestate.go:289-306 | if the judgement is still true, every load returned what the base state with the same writes would return |
| Recorders.StateWithRwSets.GetState | state/fullstate.go:80-85 | records the read and forwards it |
| Recorders.StateWithRwSets.SetState | state/fullstate.go:158-163 | records the write and forwards it |
| Recorders.StateWithRwSets.GetCode | state/fullstate.go:55-60 | records the read of the code and returns the wrapped state's code |
| Recorders.StateWithRwSets.SetCode | state/fullstate.go:150-156 | records code and code hash as written and forwards it |
| Recorders.StateWithRwSets.SelfDestruct | state/fullstate.go:172-178 | records life and balance as written and forwards it |
| Recorders.ApplyRecorded | state/fullstate.go:80-85 | after a run on a fresh record, the record holds exactly the slots the direct run reads and writes |
| Recorders.ExecuteRecorded | tracer/execute.go:17-65 | the recorded form of executeTx: same meaning, and the record also covers a transaction that was undone |
| Recorders.RecordIsOfBase | state/fullstate.go:80-85 | what a run on a prefetched cache recorded is what a run on the base state would record |
| CacheRuns.RunStaysValid | tracer/execute.go:29-40 | when the judgement is looked at, the cache is valid, still above its outer snapshot, and nothing has panicked |
| Schedules.ReadySees | utils/execute_env.go:134-153 | with all earlier conflicting transactions committed and no later one, a transaction finds block-order values on every slot it names |
| Schedules.ReadyRuns | utils/execute_env.go:134-153 | on any storage with those values it runs exactly as in block order |
| Schedules.CommitReady | state/cachestate.go:475-485 | committing it adds exactly its block-order writes |
| Rounds.BatchMeans | tracer/execute.go:68-76 | a list of such transactions on one freshly prefetched cache meets no false prediction and ends with the committed values on all slots it names |
| Rounds.ChangedIsDirty | state/cachestate.go:475-485 | a slot that differs from its prefetched value belongs to a dirty account |
| Rounds.AnyInterleavingCommits | utils/execute_func.go:19-33 | any interleaving of the single slot writes of a round's merges, read-only slots included, ends in the storage with the round committed |
| Rounds.RoundCommits | geth.go:461-474 | a round of prefetching, running and merging takes one committed storage to the next |
| Rounds.ScheduleIsSerial | geth.go:461-474 | any run of any schedule that respects the block order of conflicting transactions ends in the block-order storage |
| Groups.GenerateDiGraph | utils/execute_env.go:134-153 | exactly the arcs from earlier to later conflicting predicted transactions |
| Groups.GenerateDegreeZeroGroups | utils/execute_env.go:155-158 | the layers of that graph, which respect block order |
| Groups.LayersFit | utils/execute_env.go:155-158 | running layer after layer never runs a transaction before an earlier one it conflicts with |
| Groups.LayersAreSerial | geth.go:461-474 | running the layers in turn, merges interleaved in any way, leaves the block-order storage |
| ComponentGroups.GenerateUndiGraph | utils/execute_env.go:43-62 | exactly the edges between conflicting predicted transactions |
| ComponentGroups.SortByTxId | utils/execute_env.go:117-119 | the same ids in increasing order |
| ComponentGroups.GenerateTxAndRWSetGroups | utils/execute_env.go:111-127 | the groups partition the predicted transactions into conflict components, each in block order, and fit one round |
| ComponentGroups.SharedGroupIsChain | utils/execute_env.go:64-68 | two transactions share a group exactly when a chain of conflicts joins them |
| ComponentGroups.GroupsAreSerial | tracer/execute.go:109-126 | any interleaving of whole groups leaves the block-order storage |
| MisGroups.GenerateMISGroups | utils/execute_env.go:129-132 | the rounds on the conflict graph are returned; when all of them end, the groups partition the predicted transactions and hold no conflict, and otherwise the last run went stale |
| MisGroups.GroupByGroup | geth.go:511-527 | running conflict-free groups in turn leaves the storage of running the transactions group by group |
| Engine.ApplyMessage | tracer/execute.go:29-34 | a refused message is an error and runs nothing; otherwise the interpreter's loop over the cache state is the modelled run |
| Engine.ExecuteTx | tracer/execute.go:17-65 | an invalid transaction returns before the snapshot, a refused one before the judgement is looked at; otherwise the run, and the undoing of a false prediction, on the objects in place |
| Engine.ExecuteTxs | tracer/execute.go:68-76 | the transactions one after the other on one cache state, errors or not, and the list of their errors |
| Engine.RunBatch | utils/execute_env.go:204-227 | a new cache state with the batch's predictions prefetched from the shared state, and the batch run on it |
| Engine.MergeToState | utils/execute_func.go:12-16 | merging the caches of a round one after the other commits the round |
| Engine.ExecuteRound | geth.go:461-474 | one round on the shared state commits exactly its transactions |
| Engine.ExecuteSchedule | geth.go:461-474 | all rounds of a schedule that respects block order leave the shared state's slots as the serial run does |
| Executors.PrefetchBlock | geth.go:454-456 | a panic exactly if some prediction is missing; otherwise the shared state starts with exactly the slots the predictions name, with the values before the block |
| Executors.MissingPredictionPanics | state/concurrentRWstate.go:353-366 | one transaction without a prediction is enough, although nothing is left to be grouped or run |
| Executors.ExecWithDegreeZero | geth.go:436-486 | a panic exactly if some prediction is missing; otherwise the whole layered execution ends in the block-order storage |
| Executors.ExecWithConnectedComponents | geth.go:387-434 | a panic exactly if some prediction is missing; otherwise the whole grouped execution ends in the block-order storage |
| Executors.ExecWithMIS | geth.go:488-539 | grouping by the solver, which may not return; then a panic exactly if some prediction is missing; otherwise the execution ends in the storage of the block run group by group |
| Reserves.AnyOrderHoldsSmallest | accesslist/reserve.go:37-48 | after any order of atomic per-key reservations each key holds the smallest reserving id, and no key that nobody reserved has one |
| Reserves.OrderIrrelevant | accesslist/reserve.go:37-48 | the order of reservations does not matter |
| Reserves.ReserveSet.Get | accesslist/reserve.go:20-26 | the entry of a key, if there is one |
| Reserves.ReserveSet.Set | accesslist/reserve.go:28-35 | only the one entry changes |
| Reserves.ReserveSet.ReserveKey | accesslist/reserve.go:42-45 | one atomic get, compare and set |
| Reserves.ReserveSet.Reserve | accesslist/reserve.go:37-48 | every key of the set, and no other, is reserved |
| Reserves.ReserveSet.HasConflict | accesslist/reserve.go:50-62 | true exactly when some smaller id reserved one of the keys |
| Aria.ReserveTables | tracer/execute.go:207-208 | both tables hold exactly the recorded reads and writes of all transactions |
| Aria.Decide | utils/aria.go:41-58 | a transaction commits exactly if it did not fail, no earlier one writes what it writes, and it does not have both an earlier reader of its writes and an earlier writer of its reads |
| Aria.AriaOneRound | utils/aria.go:36-59 | committed and remaining transactions are split by that rule, each list in order |
| Aria.CommittedWritesDisjoint | utils/aria.go:47-50 | two committed transactions write no common key |
| Aria.PrecedenceRanks | utils/aria.go:51-58 | among committed transactions, one that read what another writes has the smaller rank |
| Aria.NoCommittedCycle | utils/aria.go:51-58 | a cycle of must-read-before among all transactions has a member that is not committed |
| Aria.SerialOrderExists | utils/aria.go:51-58 | every set of committed transactions can be listed in such an order |
| Aria.ReadsStartingValues | utils/aria.go:51-60 | run one after the other in such an order, each reads exactly the round's starting values and writes what it wrote in parallel |
| AriaRounds.ExecOnSnapshot | tracer/execute.go:202-206 | one transaction on its own recorded cache: it failed exactly if the core does not accept it, its prediction was false exactly if its run on the starting state leaves it, and otherwise the record is exactly what that run touches |
| AriaRounds.ExecWithSnapshotState | tracer/execute.go:195-218 | the same for every transaction, each on its own cache over the same starting state, reservations aside |
| AriaRounds.CommittedSerialize | utils/aria.go:40-59 | the committed transactions whose predictions held can be run one after the other on the starting state, each doing exactly what it did in the round |
| AriaRounds.AriaRound | utils/aria.go:16-59 | the round on cache states, up to the merge: every execution as described, committed and remaining transactions split by the rule, and a serial order for the committed ones |
| AriaRounds.LostExactly | utils/aria.go:41-58 | a transaction is neither retried nor in effect exactly if its prediction was false and the rule has nothing else against it |
| AriaRounds.UnpredictedLoadIsLost | utils/aria.go:41-58 | a transaction that loads one slot it did not predict, alone in its round, is lost on every storage |
| AriaMerges.CommittedCache | state/cachestate.go:475-485 | a committed cache holds the transaction's own changes over the starting values, and nothing dirty if the transaction was undone |
| AriaMerges.MergeIsSerialExactlyIf | utils/aria.go:60 | every interleaving of the round's merges ends as its serial order does, if and only if no committed transaction has cached, in an account it changes, a slot it does not write and another committed one changes |
| AriaMerges.MergeMayLose | utils/aria.go:60 | a round of two committed transactions with an interleaving of merges that loses what one of them wrote |
| AncestorHashes.HashFn.constructor | core/evm.go:101-104 | an empty cache for the reference header |
| AncestorHashes.HashFn.ThroughCache | core/evm.go:116-118 | the uncached walk to a block goes through every cached entry above it |
| AncestorHashes.AnswerIsAncestor | core/evm.go:119-135 | the walk's answer is the one, and the only one, that the chain of parent hashes decides: the last of them if they go down to the block, zero if the next header is missing |
| AncestorHashes.HashFn.GetHash | core/evm.go:106-136 | whatever was asked before, the answer is that of the uncached walk: the hash of the block if every header down to it is there, zero if one is missing or the block is no ancestor; and the cache only grows along the walk |

## Left out

- LinearTimeSolver.LinearTime.EmptyBuckets: stops with `halts == false` at the first turn that leaves a stale end, where
  the source goes on taking turns; what those can lead to is proved about `Machines.MachineTurn`, which `TakeTurn` is.
- LinearTimeSolver.LinearTime.TakeTurn: ids are assumed to lie below the stack's sentinel; a degree field is an integer,
  negative where the source's has wrapped around below zero, and fields of 2^64 and more are not cut off.
- Programs.Framed: transactions are programs over storage slots only. Reads and writes of balance, nonce, code and life
  inside a transaction are not part of the runs, since most of them are not recorded and a merge overwrites them.
- Engine.ApplyMessage: whether the core refuses a message is a property of the transaction; the one check that reads the
  state, that the sender can transfer the value, is not modelled, as balances are not part of the runs.
- Executors.ExecWithMIS: assumes the predictions to hold in whichever conflict-free grouping the solver finds, because
  the grouping decides the order; transactions are named by their place in the block listed group by group.
- AriaRounds.AriaRound: a missing prediction, on which prefetching a snapshot panics in the same way, is not modelled.
- Reserves.ReserveSet.ReserveKey: the get, compare and set of one key is one step; accesslist/reserve.go:42-45 does not
  lock around it.
- AncestorHashes.HashFn.GetHash: assumes that a fetched header carries the number that was asked for, as core/evm.go:36
  says of `GetHeader`.
- ComponentGroups.SortByTxId: stands for the library's sort; any sorting of ids without repetition would do.
- Vertex pointers as keys of visited maps and as members of paths are represented by the vertices' ids.
- Five reserved hashes (code, code hash, balance, nonce, life) are distinct constructors, so no storage slot can
  collide with them; hexadecimal encoding and decoding of keys is not part of the model.
- The worker pool, wait groups, `sync.Map` and the concurrent map appear only as any order of batches and any
  interleaving of slot writes; the class-level rounds run them one after the other.
- Code hashes computed on a write are given by an arbitrary function of the code.
- AriaMerges.MergeIsSerialExactlyIf: is about the interleavings of the slot writes as values; the merge of an Aria round
  is not run on the objects, and the loop over several rounds is not modelled.
- Logs, transient storage, refunds, access-list bookkeeping, `GetCommittedState`, `RWSet.Equal`, the self-recursive
  `HasSelfDestructed` of the recording wrapper, gas, the opcode tracer, the chain database, timing and printing.

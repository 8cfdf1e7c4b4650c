# Verified models of Bitcoin Core algorithms

This project models, in Dafny, the algorithmic cores of a Bitcoin Core fork and proves what they promise: for every
input, every reachable state, every run or every interleaving. `dafny verify dfyconfig.toml` checks all of it.

Code that updates objects, arrays and linked lists in place is modelled by classes and methods that do the same, each
proved against a specification function or relation; what the source promises is then proved about that specification.
Concurrency is a state machine over the regions executed under the mutex. Hashes, difficulty rules and address
classes are function parameters without any assumption such as injectivity; clocks are parameters; random choices are
free choices.

## What is modelled

**Cluster linearization** (`src/cluster_linearize.h`; FeeFracs, Diagrams, DepGraphs, GraphQueries, Chunkings, Merging,
AncestorFinding, WorkQueues, Search, SortedSearch, Linearizing, PostLinearizing, GroupShapes, LeafMoves, PassResults,
GroupLists). "Not worse in the feerate diagram" is stated as: for every feerate, every prefix of the old order is matched
by a prefix of the new one that is at least as far above the line of that feerate. `Diagrams.DiagramNowhereBelow` shows
that this means that the piecewise linear diagram over the reals is nowhere below. Linearize, MergeLinearizations and
PostLinearize never make the diagram worse. The branch-and-bound search is exact whenever it ends before its limit, and
must end within 2^n splits, so that Linearize is optimal from an explicit number of iterations on. PostLinearize has its
three documented guarantees: connected chunks, optimality in tree-shaped clusters, and no harm from moving a transaction
to the end.

**UTXO cache stack** (`src/coins.cpp`, `src/coins.h`, `src/txdb.cpp`; CoinTables, CoinViews, Coins). A stack of any
number of write-back caches, each with its flags and its intrusive doubly linked list, refines a list of flat maps. The
two exceptions about misapplied flags and entries that were not cleared are unreachable under the stated discipline
for AddCoin, and that discipline is exactly what is needed.

**Address manager** (`src/addrman.cpp`, `src/addrman_impl.h`; AddrTables, AddrSteps, AddrMan, AddrCheck, AddrImage,
AddrDisk, AddrLoad). Six redundant indexes, two bucket tables and reference counts stay consistent over every run;
CheckAddrman is characterised exactly, including what it does not see; what resolving collisions may evict is stated by
the times of the entries; Serialize followed by Unserialize gives the same tables but for the names of the entries.

**Headers synchronization** (`src/headerssync.cpp`; HeadersProtocol, HeadersSync). The object with its compressed
buffers refines a protocol over full histories; what is accepted and released is exactly a chain of permitted
difficulties that was committed to; an honest peer is never rejected and completes.

**Check queue** (`src/checkqueue.h`; CheckQueues). Safety of Complete in every interleaving, absence of lost wake-ups,
and termination.

**Block index and caches** (`src/chain.cpp`, `src/cuckoocache.h`; Chains, CuckooCache). The skip list, the active chain,
and the cuckoo cache with its epochs.

**Arithmetic and codecs** (`src/arith_uint256.*`, `src/base58.cpp`, `src/bech32.cpp`; Powers, Limbs, LimbShifts,
LimbDivision, Compacts, Base58, Gf32, Bech32, Gf1024, BchCode). Limb arithmetic of every width, compact targets, and two
codecs that are inverse to their decoders in both directions, after sections "Checksum" of BIP 173 and "Bech32m" of
BIP 350. The Bech32 checksum is shown to be a remainder of polynomials over GF(32), and the code to be a BCH code: up to
three wrong symbols in a window of 1023 are always found.

## Where code and comments differ

The model follows the code.

- `src/cuckoocache.h:424-425` says that the first location tried for a displacement is `locs[0]`. Since the search for
  the invalid location returns the end, `(1 + 8) & 7` makes it `locs[1]`.
- `src/coins.h` documents SpendCoin as having no effect without an unspent output. A cached spent entry makes it return
  true and marks the entry DIRTY; the view does not change.
- `src/addrman.cpp:1064` is called a consistency check. An address in mapAddr without an entry, and a network missing
  from the counts while others are listed with zero, pass it (`AddrChecks.CheckedIs`).

## Model

| member | source | states |
|---|---|---|
| FeeFracs.GainTriangle | src/util/feefrac.h:157-176 | feerate comparison as a signed area: how the gain of one fraction over another is composed from a third, the fact behind transitivity of `<<` and `>>` |
| FeeFracs.GainTransitive | src/util/feefrac.h:157-176 | comparing by feerate is transitive for positive sizes |
| FeeFracs.BetterNotLower | src/util/feefrac.h:178-184 | `>` (smaller size on ties) never prefers a lower feerate |
| Diagrams.CutIsMaximal | src/cluster_linearize.h:396-413 | for every line through the origin the largest distance of a prefix above it is attained at a chunk boundary |
| Diagrams.ChunkingUnique | src/cluster_linearize.h:396-413 | a linearization has exactly one chunking |
| Diagrams.TightMerge | src/cluster_linearize.h:403-408 | merging a chunk with a following one of higher feerate gives a chunk again: no prefix of it beats the whole |
| Diagrams.MoveToFront | src/cluster_linearize.h:507-515 | a set at least as good as the first chunk, none of whose intersections with chunk prefixes is better than it, can be moved to the front without making the order worse for any feerate |
| Diagrams.DiagramNowhereBelow | src/cluster_linearize.h:1024-1042 | an order that is no worse for any feerate has a feerate diagram (piecewise linear, over the reals) that is nowhere below the other one |
| Diagrams.DiagramBelow | src/cluster_linearize.h:1024-1042 | the diagram stays below every line that no prefix of the linearization rises above |
| Diagrams.DiagramTouched | src/cluster_linearize.h:1024-1042 | at every size some chunk gives a line that touches the diagram there and that no prefix rises further above |
| DepGraphs.DepGraph.constructor | src/cluster_linearize.h:69-69 | an empty graph: well formed, no positions, no edges |
| DepGraphs.DepGraph.Unconnected | src/cluster_linearize.h:90-105 | given positions with no dependencies: every transaction is its only ancestor and descendant |
| DepGraphs.DepGraph.AddTransaction | src/cluster_linearize.h:134-147 | the first free position is used; the new transaction is unconnected and all others keep their entries, in a well-formed graph |
| DepGraphs.DepGraph.RemoveTransactions | src/cluster_linearize.h:158-172 | the rest keep exactly their ancestors that were not removed, and their feerates; the graph stays well formed |
| DepGraphs.DepGraph.AddDependencies | src/cluster_linearize.h:178-199 | whole new relation: exactly the descendants of the child gain exactly the ancestors of the parents; the edge set grows by parents to child |
| DepGraphs.NewAncestors | src/cluster_linearize.h:180-187 | the first loop finds exactly the ancestors of the parents that the child does not have |
| DepGraphs.Connect | src/cluster_linearize.h:188-198 | the two other loops connect these with the descendants of the child and nothing else |
| DepGraphs.AddDependenciesWellFormed | src/cluster_linearize.h:178-199 | after adding dependencies the ancestor sets are reflexive and transitive and the descendant sets their inverse |
| DepGraphs.AddDependenciesClosure | src/cluster_linearize.h:178-199 | if ancestors were the reflexive transitive closure of all edges added so far, they are so afterwards with the new edges |
| DepGraphs.PathInAnc | src/cluster_linearize.h:36-47 | everything reachable along edges is among the ancestors |
| DepGraphs.NewWellFormed | src/cluster_linearize.h:134-147 | adding an unconnected transaction keeps the relation well formed |
| DepGraphs.RestrictionWellFormed | src/cluster_linearize.h:158-172 | restricting all sets to the remaining positions keeps the relation well formed |
| GraphQueries.GetReducedParents | src/cluster_linearize.h:209-220 | the parents returned are pairwise unrelated proper ancestors that cover all proper ancestors; in an acyclic graph they are exactly the maximal proper ancestors |
| GraphQueries.ReducedAreMaximal | src/cluster_linearize.h:201-220 | unrelated and covering means exactly maximal, in acyclic graphs |
| GraphQueries.IsAcyclic | src/cluster_linearize.h:327-335 | true exactly if no two transactions are ancestors of each other |
| GraphQueries.GetConnectedComponent | src/cluster_linearize.h:264-280 | the least subset of todo with tx that is closed under ancestors and descendants within todo |
| GraphQueries.ComponentTopo | src/cluster_linearize.h:255-280 | a topologically valid set meets a component in a topologically valid set |
| GraphQueries.AppendTopo | src/cluster_linearize.h:314-324 | the list is extended by exactly the selected transactions, each once, in topological order |
| GraphQueries.SortedIsTopological | src/cluster_linearize.h:314-324 | sorting by number of ancestors, then position, is topological in acyclic graphs |
| GraphQueries.MoveBehindAncestors | src/cluster_linearize.h:1372-1390 | the inner loop moves one element in place right behind its last ancestor in the already fixed tail; the rest keeps its order |
| GraphQueries.FixLinearization | src/cluster_linearize.h:1365-1393 | any permutation becomes a topological one with the same elements, in place; a topological one is unchanged |
| GraphQueries.FixedPermutes | src/cluster_linearize.h:1365-1393 | fixing permutes the elements |
| GraphQueries.FixedTopological | src/cluster_linearize.h:1365-1393 | the fixed order is topological, and equals the input if that was topological |
| GraphQueries.Remap | src/cluster_linearize.h:90-112 | the copy with renamed positions, rebuilt from reduced parents only, is isomorphic: same feerates and the same ancestors under the renaming |
| GraphQueries.RemapIsomorphic | src/cluster_linearize.h:90-112 | the closure of the renamed reduced parents is the renamed ancestor relation |
| GraphQueries.AncestorReached | src/cluster_linearize.h:201-220 | every ancestor is reached along edges from maximal proper ancestors |
| Chunkings.ChunkLinearization | src/cluster_linearize.h:398-413 | the feerates returned are those of the (unique) chunking: consecutive pieces with non-increasing feerates, none with a prefix better than itself |
| Chunkings.AbsorbChunk | src/cluster_linearize.h:403-408 | absorbing the last chunk while the new one has a higher feerate keeps a chunking in progress |
| Chunkings.LinearizationChunking.constructor | src/cluster_linearize.h:464-472 | starts with the chunking of the whole linearization |
| Chunkings.LinearizationChunking.BuildChunks | src/cluster_linearize.h:435-460 | the chunks become the chunking of what is left of the linearization |
| Chunkings.LinearizationChunking.NumChunksLeft | src/cluster_linearize.h:475-475 | the number of chunks not done; zero exactly if nothing is left |
| Chunkings.LinearizationChunking.GetChunk | src/cluster_linearize.h:478-482 | transactions and feerate of the n-th remaining chunk |
| Chunkings.LinearizationChunking.MarkDone | src/cluster_linearize.h:485-505 | removes a set; whether it skips one chunk or rechunks, the object holds the chunking of exactly what is left |
| Chunkings.SkipFirstChunk | src/cluster_linearize.h:489-498 | removing exactly the first chunk leaves the other chunks as the chunking of the rest, so that the shortcut agrees with a full rechunk |
| Chunkings.LinearizationChunking.IntersectPrefixes | src/cluster_linearize.h:516-540 | the result is the intersection of the given set with a chunk prefix, not empty if the set is not, at least as good as the set, and no chunk prefix intersects it in something better |
| Chunkings.WholeIntersect | src/cluster_linearize.h:519-539 | stopping early is right when the whole set lies in the prefixes tried and none was better |
| Chunkings.NoIntersect | src/cluster_linearize.h:519-539 | after all chunks the set itself has no better intersection |
| Merging.MergeLinearizations | src/cluster_linearize.h:1326-1361 | terminates with a linearization whose diagram is nowhere below either input |
| Merging.PartOfFirstChunk | src/cluster_linearize.h:1342-1351 | a part of the first chunk that is at least as good as it may be moved to the front |
| Merging.TracksStep | src/cluster_linearize.h:1352-1356 | outputting a set that may be moved to the front keeps the output, followed by the rest of the input, nowhere worse than the input |
| AncestorFinding.AncestorCandidateFinder.constructor | src/cluster_linearize.h:567-591 | precomputes the feerate of every ancestor set |
| AncestorFinding.AncestorCandidateFinder.MarkDone | src/cluster_linearize.h:599-610 | removes transactions; the stored feerates are those of the remaining ancestor sets |
| AncestorFinding.AncestorCandidateFinder.FindCandidateSet | src/cluster_linearize.h:629-642 | a remaining transaction with its remaining ancestors, topologically valid, such that no other ancestor set is better (higher feerate, or smaller at the same feerate) |
| Search.Potential | src/cluster_linearize.h:824-837 | the loop that adds improving transactions to pot ends with a feerate that bounds every set compatible with the work item that beats best |
| Search.PotBounds | src/cluster_linearize.h:824-837 | once the next transaction no longer raises it, the feerate of pot is such a bound |
| Search.GreedyBound | src/cluster_linearize.h:826-837 | taking exactly the undecided transactions above a line gets highest above it, topology ignored |
| Search.JumpAhead | src/cluster_linearize.h:839-859 | inc grows to a topologically valid set that contains every transaction of pot whose ancestors all lie in pot |
| Search.JumpKeepsHope | src/cluster_linearize.h:839-859 | jumping ahead never loses a set better than best |
| Search.SamePotential | src/cluster_linearize.h:872-876 | equal size means that inc is all of pot, so nothing is left to decide |
| Search.ShrinkImp | src/cluster_linearize.h:864-869 | imp keeps exactly the transactions that beat best alone |
| Search.AddItem | src/cluster_linearize.h:821-891 | best never gets worse, stays a candidate, every better set the item could lead to is reachable from the new queue, and at most one item is queued, deciding at least what was given |
| Search.CanDrop | src/cluster_linearize.h:907-918 | an item is only dropped if nothing it leads to beats best |
| Search.NoImproving | src/cluster_linearize.h:909-911 | with no improving undecided transaction nothing beats best |
| Search.LowPotential | src/cluster_linearize.h:912-914 | with a potential not above best nothing beats best |
| Search.ChooseSplit | src/cluster_linearize.h:933-954 | the split transaction leaves the least search space among the candidates |
| Search.SplitHope | src/cluster_linearize.h:956-964 | every compatible set either leaves the split transaction out with its descendants or takes it with its ancestors |
| Search.SplitItem | src/cluster_linearize.h:896-968 | after a split the queue still leads to every set better than best; without one nothing changes, and then nothing the item leads to beats best |
| Search.InitialQueue | src/cluster_linearize.h:786-801 | one item per connected component; together they lead to every set better than best, and leave fewer than 2^n sets to search for n transactions |
| Search.Process | src/cluster_linearize.h:982-1004 | one move of the run: the item at one end is split, which costs one iteration, or dropped as hopeless, which costs none |
| Search.SearchSorted | src/cluster_linearize.h:741-1010 | on sorted positions: a candidate at least as good as the given one, reached by a run of moves with exactly as many splits as iterations used, fewer than 2^n; it ends only with an empty queue, and then the candidate is of the highest feerate of all, or with no iterations left; the queue never exceeds what was reserved for it |
| SortedSearch.SearchCandidateFinder.constructor | src/cluster_linearize.h:693-716 | sorts positions by decreasing individual feerate and keeps an isomorphic graph |
| SortedSearch.SortPositions | src/cluster_linearize.h:697-712 | a permutation of the used positions in non-increasing feerate order |
| SortedSearch.SearchCandidateFinder.FindCandidateSet | src/cluster_linearize.h:741-1010 | a non-empty topologically valid subset of what is left, at least as good as a non-empty start; fewer than 2^n splits are made for n transactions left, and if that is below max_iterations, as it must be from 2^n on, no topologically valid subset has a higher feerate |
| SortedSearch.SearchCandidateFinder.MarkDone | src/cluster_linearize.h:1016-1022 | removes exactly the given transactions from what is left |
| Linearizing.StartCandidate | src/cluster_linearize.h:1070-1076 | the better of the best ancestor set and the first old chunk |
| Linearizing.ChooseSet | src/cluster_linearize.h:1070-1102 | the set of a round is a candidate that may be moved to the front of the old linearization; it is of highest feerate if the search finished, and with 2^(n+1) + n^2 iterations for n transactions left it does |
| Linearizing.Round | src/cluster_linearize.h:1069-1114 | one round outputs a set, removes it from all finders, keeps the output nowhere worse, and leaves enough iterations for the next round if there were enough for this one |
| Linearizing.OptimalMovable | src/cluster_linearize.h:1089-1099 | a highest-feerate set may be moved to the front of every linearization |
| Linearizing.Linearize | src/cluster_linearize.h:1043-1118 | terminates with a linearization nowhere worse than the old one; if optimal is returned, nowhere worse than any linearization, and with a limit of 2^(n+1) + 2n^2 iterations for n transactions optimal is returned |
| PostLinearizing.SwapNoWorse | src/cluster_linearize.h:1281-1293 | swapping a group with a preceding one of lower feerate is no worse |
| PostLinearizing.ReverseNoWorse | src/cluster_linearize.h:1229-1246 | an improvement of the reversed order with negated fees is an improvement of the order |
| PostLinearizing.MergeKeeps | src/cluster_linearize.h:1267-1280 | merging two groups keeps the order and the invariant that no prefix of a group beats the group |
| PostLinearizing.SwapKeeps | src/cluster_linearize.h:1281-1293 | swapping independent groups keeps the invariant and the elements and makes the order nowhere worse |
| PostLinearizing.AppendKeeps | src/cluster_linearize.h:1240-1251 | a new group of one transaction at the end keeps the invariant |
| GroupLists.SwapGroups | src/cluster_linearize.h:1281-1292 | three links are exchanged so that the two groups change places, whatever the list holds |
| GroupLists.MergeGroups | src/cluster_linearize.h:1267-1280 | sets, feerate and links of two groups are joined, the last transaction staying the representative |
| GroupLists.AppendGroup | src/cluster_linearize.h:1240-1251 | one group of one transaction is linked in before the sentinel |
| GroupLists.Settle | src/cluster_linearize.h:1253-1294 | the loop over earlier groups leaves the feerates of all groups non-increasing, every group connected, and in trees every group the best of its parts; the list represents these groups, with an order nowhere worse |
| GroupLists.BuildGroups | src/cluster_linearize.h:1232-1295 | one pass leaves the groups of exactly the input in the list, sorted, connected, and making up for the first transaction having been moved |
| GroupLists.WriteBack | src/cluster_linearize.h:1297-1317 | the linearization becomes the groups in list order, or reversed |
| GroupLists.Pass | src/cluster_linearize.h:1230-1318 | one pass turns a linearization into one that is nowhere worse and whose chunks are connected; it is the best one of all if no transaction has two children (forward) or two parents (backward); a backward pass is nowhere worse than the linearization before one transaction was moved to the end |
| GroupLists.PostLinearize | src/cluster_linearize.h:1137-1319 | both passes, in place, with all three documented guarantees: the chunks of the result are connected; in tree-shaped clusters it is nowhere worse than any linearization; and it is nowhere worse than any linearization of which the input is a copy with one transaction moved to the end. It is never worse than the input |
| CheckQueues.BatchSize | src/checkqueue.h:112-118 | a thread takes at least one check, no more than there are and no more than the batch size |
| CheckQueues.StepInv | src/checkqueue.h:73-138 | every atomic step of any thread keeps the invariant: nTodo counts queued and in-flight checks, nTotal and nIdle the threads, and the results agree with the checks; the divisor is positive |
| CheckQueues.RunInv | src/checkqueue.h:73-190 | the invariant holds after every interleaving |
| CheckQueues.CompleteIsRight | src/checkqueue.h:167-171 | in every interleaving each call of Complete returned nullopt exactly if every check of its session ran and passed, and otherwise the result of a check of that session |
| CheckQueues.SleepingMaster | src/checkqueue.h:86-108 | a master that sleeps without having been notified has a worker that still holds a batch |
| CheckQueues.StepWork | src/checkqueue.h:73-138 | every step inside Loop leaves less work, except a spurious wake-up that changes nothing |
| CheckQueues.Progress | src/checkqueue.h:73-190 | while the master is inside Loop some enabled step, not relying on a spurious wake-up, leaves less work: no lost wake-up |
| CheckQueues.CompleteTerminates | src/checkqueue.h:167-171 | the number of steps that change anything during Complete is bounded by the work at its start |
| CoinTables.CoinTable.constructor | src/coins.h:206-214 | an empty table with an empty list |
| CoinTables.CoinTable.TryEmplace | src/coins.cpp:50-50 | an empty entry without flags is added unless the key is there |
| CoinTables.CoinTable.SetCoin | src/coins.cpp:53-53 | only the coin of the entry changes |
| CoinTables.CoinTable.AddFlags | src/coins.h:133-145 | flags are added; an entry that had none is linked in before the sentinel, and the doubly linked list stays wired |
| CoinTables.CoinTable.SetClean | src/coins.h:181-188 | flags are cleared and the entry leaves the list, which stays wired |
| CoinTables.CoinTable.Erase | src/coins.h:173-176 | an erased entry leaves the map and the list |
| CoinTables.CoinTable.Clear | src/coins.cpp:254-257 | map and list become empty |
| CoinTables.CoinTable.Next | src/coins.h:193-197 | following the links visits the flagged entries in order and ends at the sentinel |
| CoinTables.AppendWired | src/coins.h:133-145 | the pointer writes of AddFlags append to a wired list |
| CoinTables.UnlinkWired | src/coins.h:181-188 | the pointer writes of SetClean take one entry out of a wired list |
| CoinViews.MergeOneKeeps | src/coins.cpp:186-245 | an entry whose flags are true of the parent is never misapplied; merging it changes the view of the parent at its key only, to its coin, and keeps the parent coherent |
| CoinViews.MergeKeeps | src/coins.cpp:184-249 | after a part of the list the parent shows the child on that part and what it showed before elsewhere |
| CoinViews.MergeIsOverlay | src/coins.cpp:184-249 | merging all flagged entries gives the parent exactly the view of the child |
| CoinViews.WriteIsOverlay | src/txdb.cpp:94-156 | writing the dirty entries gives the database exactly the view of the cache |
| CoinViews.SettledKeeps | src/coins.cpp:262-273 | what a sync leaves in the cache is unflagged, coherent with the new base, and shows the same view |
| Coins.Cursor.Begin | src/coins.h:281-281 | starts at the first flagged entry |
| Coins.Cursor.NextAndMaybeErase | src/coins.h:285-299 | steps to the next flagged entry although the current one may be erased or unlinked on the way |
| Coins.CoinsDb.GetCoin | src/txdb.cpp:69-73 | what is stored |
| Coins.CoinsDb.BatchWrite | src/txdb.cpp:94-156 | exactly the dirty entries are written or erased |
| Coins.CoinsCache.constructor | src/coins.cpp:38-43 | an empty cache shows what its base shows |
| Coins.CoinsCache.FetchCoin | src/coins.cpp:49-65 | changes no view of any layer; finds an entry exactly if the key is cached or the base has something under it |
| Coins.CoinsCache.FillIn | src/coins.cpp:51-63 | the new entry gets the coin of the base, FRESH if that is spent, or is erased |
| Coins.CoinsCache.BaseGetCoin | src/coins.cpp:29-29 | the base answers according to its view and no view changes |
| Coins.CoinsCache.GetCoin | src/coins.cpp:67-71 | answers exactly as the view of the cache, with unspent coins only, and changes no view |
| Coins.CoinsCache.HaveCoin | src/coins.cpp:164-167 | true exactly if the view has an unspent coin |
| Coins.CoinsCache.AddCoin | src/coins.cpp:73-112 | throws exactly on an unspent cached coin without possible_overwrite; otherwise the view gains the coin; the flags stay true if and only if overwriting is declared, the key is cached, or the view has nothing there |
| Coins.AddKeeps | src/coins.cpp:73-112 | the same on maps, with the exact condition under which FRESH may be set |
| Coins.CoinsCache.SpendCoin | src/coins.cpp:131-151 | the coin leaves the view of this layer only and is handed out; true exactly if the key was cached or known to the base |
| Coins.SpendKeeps | src/coins.cpp:131-151 | erasing a FRESH entry and marking another one spent and DIRTY both remove the coin from the view |
| Coins.CoinsCache.Uncache | src/coins.cpp:275-288 | drops an entry without flags and changes no view |
| Coins.UncacheKeeps | src/coins.cpp:275-288 | dropping an unflagged entry keeps view and coherence |
| Coins.CoinsCache.MergeEntry | src/coins.cpp:190-245 | throws exactly if the FRESH flag is misapplied; otherwise the entries become those of the merge |
| Coins.CoinsCache.BatchWrite | src/coins.cpp:184-249 | throws exactly if some entry is misapplied; otherwise all listed entries are merged and the cursor is drained |
| Coins.CoinsCache.BaseBatchWrite | src/coins.cpp:251-273 | never throws in a valid stack: the layer below then shows the view of this cache, and its own flags stay true |
| Coins.CoinsCache.Flush | src/coins.cpp:251-260 | never throws; the view is unchanged, the parent shows the same, and the cache is empty |
| Coins.CoinsCache.Sync | src/coins.cpp:262-273 | never throws (in particular not "not all cleared"); the view is unchanged, the parent shows the same, and the cache holds exactly the coins that were unspent, without flags |
| Coins.CoinsCache.SanityCheck | src/coins.cpp:316-347 | with a wired list the check passes exactly if every entry has one of the five allowed combinations, which is so in every valid cache |
| Coins.CoinsCache.GetAt | src/coins.cpp:67-71 | a lookup in any layer below changes no view |
| Coins.CoinsCache.UncacheAt | src/coins.cpp:275-288 | uncaching in any layer below changes no view |
| Coins.AddCoins | src/coins.cpp:120-129 | never throws; with the check, or without coins there before, the cache stays valid and the view gains exactly the spendable outputs |
| Coins.Perform | src/coins.cpp:49-288 | one operation on a stack of caches acts on the list of flat maps as specified and throws nothing |
| Coins.Run | src/coins.cpp:49-288 | every legal run of operations on a stack of caches, pushing and popping layers included, answers exactly as flat maps updated by the adds and spends, and no exception is reachable |
| HeadersProtocol.CommitmentAt | src/headerssync.cpp:197-208 | the commitment to a header stands at a place in the queue that depends on its height only |
| HeadersSync.NextCommitment | src/headerssync.cpp:258-272 | the commitment at the head of the queue in REDOWNLOAD is the one pushed for the same height in PRESYNC; the queue is empty exactly beyond what PRESYNC saw |
| HeadersProtocol.StepInv | src/headerssync.cpp:70-139 | every message keeps the invariant: redownloaded headers form a chain from the start with permitted difficulty transitions, agree with the commitments until the work is reached, and the buffers are bounded |
| HeadersProtocol.StepReleases | src/headerssync.cpp:282-296 | a message releases exactly the next redownloaded headers, each only with the work reached or a full buffer of headers above it |
| HeadersProtocol.ReleasedChain | src/headerssync.cpp:70-296 | over any run all released headers, concatenated, are a prefix of the accepted redownloaded headers, chained from the start, each with a permitted difficulty transition and in agreement with the commitments, with the work reached or a full buffer above them |
| HeadersProtocol.HonestNeverRejected | src/headerssync.cpp:70-280 | a peer that serves the same chain twice in full messages is never rejected |
| HeadersProtocol.HonestCompletes | src/headerssync.cpp:70-296 | if its chain has the work it can always go on, and after at most twice as many messages as headers everything received is released with the work reached |
| HeadersSync.HeadersSyncState.constructor | src/headerssync.cpp:27-47 | starts in PRESYNC with nothing seen |
| HeadersSync.HeadersSyncState.Finalize | src/headerssync.cpp:53-66 | everything stored is freed |
| HeadersSync.HeadersSyncState.ValidateAndProcessSingleHeader | src/headerssync.cpp:179-215 | accepts exactly permitted difficulty transitions while there is room for commitments, and then represents one more header |
| HeadersSync.HeadersSyncState.ValidateAndStoreHeadersCommitments | src/headerssync.cpp:141-177 | accepts exactly connecting, permitted headers; switches to REDOWNLOAD exactly when the work is reached |
| HeadersSync.HeadersSyncState.ValidateAndStoreRedownloadedHeader | src/headerssync.cpp:217-280 | accepts a header exactly if the whole redownloaded chain with it is connected, has permitted difficulty transitions and agrees with the commitments; stores it without the previous hash |
| HeadersSync.HeadersSyncState.CheckCommitment | src/headerssync.cpp:252-272 | fails exactly if a commitment is due and missing or different |
| HeadersSync.HeadersSyncState.PopHeadersReadyForAcceptance | src/headerssync.cpp:282-296 | returns the accepted headers field for field, with the previous hash rebuilt, up to the ones that must stay buffered |
| HeadersSync.HeadersSyncState.ProcessNextHeaders | src/headerssync.cpp:70-139 | success exactly if the history with the new headers is connected, permitted and within the limit of commitments, or in REDOWNLOAD connected, permitted and as committed; the compressed state represents the same history as the protocol step |
| HeadersSync.HeadersSyncState.Bounded | src/headerssync.h:230-238 | between calls at most max_commitments commitments and REDOWNLOAD_BUFFER_SIZE headers are stored |
| Chains.LowestOneCleared | src/chain.cpp:81-81 | InvertLowestOne clears exactly the lowest one bit |
| Chains.GetSkipHeight | src/chain.cpp:84-92 | the skip height is below the height |
| Chains.BlockIndex.constructor | src/node/blockstorage.cpp:222-229 | height and maximal time follow from the predecessor |
| Chains.BlockIndex.GetAncestor | src/chain.cpp:94-119 | terminates and equals the plain walk along pprev; null exactly out of range |
| Chains.AncestorOfAncestor | src/chain.cpp:94-119 | ancestors of ancestors are ancestors, so that jumping along pskip is sound |
| Chains.BlockIndex.BuildSkip | src/chain.cpp:126-130 | the skip pointer is the ancestor at the skip height, and the tree stays well built |
| Chains.AddBlock | src/node/blockstorage.cpp:207-229 | a new block on any block of a well-built tree gives a well-built tree |
| Chains.LastCommonAncestor | src/chain.cpp:166-181 | the deepest block that is an ancestor of both, or null if they share none |
| Chains.LocatorEntries | src/chain.cpp:32-49 | starts at the block, ends at height 0, all on its line, with single steps first and then doubling ones |
| Chains.Chain.constructor | src/chain.h:417-426 | an empty chain |
| Chains.Chain.SetTip | src/chain.cpp:22-30 | after the early exit every entry is the ancestor of the tip at its height |
| Chains.SameBelow | src/chain.cpp:22-30 | two lines that meet at a height are the same below it, which justifies the early exit |
| Chains.Chain.FindFork | src/chain.cpp:61-70 | the deepest common ancestor of the block and the tip of the chain |
| Chains.Chain.FindEarliestAtLeast | src/chain.cpp:72-78 | the first block late and high enough, or null if there is none |
| AddrTables.Recount | src/addrman_impl.h:189-240 | counters that follow the one entry that is counted differently stay exact, in total and per network |
| AddrSteps.SoftUpdate | src/addrman.cpp:694-712 | changing statistics of an entry keeps all tables consistent |
| AddrSteps.CreateKeeps | src/addrman.cpp:417-431 | a new entry joins all indexes consistently, pending a slot |
| AddrSteps.SwapKeeps | src/addrman.cpp:433-455 | swapping two places keeps the random order a permutation that every entry knows its place in |
| AddrSteps.DeleteKeeps | src/addrman.cpp:457-472 | deleting an entry without references keeps everything consistent and touches no other entry |
| AddrSteps.ClearKeeps | src/addrman.cpp:474-490 | emptying a slot costs its entry one reference, the entry itself with the last one, and touches nothing else |
| AddrSteps.PlaceKeeps | src/addrman.cpp:611-614 | giving an entry one more slot at its hashed position keeps everything consistent |
| AddrSteps.TakeOutKeeps | src/addrman.cpp:496-510 | taking an entry out of all its slots keeps the rest consistent |
| AddrSteps.LeaveTriedKeeps | src/addrman.cpp:523-527 | taking an entry out of the tried table keeps the rest consistent |
| AddrSteps.ReadmitKeeps | src/addrman.cpp:529-539 | an evicted entry in its own slot of the new table is consistent |
| AddrSteps.SettleKeeps | src/addrman.cpp:543-548 | an entry in its tried slot is consistent |
| AddrSteps.CreateTriedKeeps | src/addrman.cpp:301-310 | an entry read from disk straight into its free tried slot is consistent |
| AddrMans.AddrMan.constructor | src/addrman.cpp:110-126 | an empty manager is consistent |
| AddrMans.AddrMan.Find | src/addrman.cpp:402-415 | the id of a known address |
| AddrMans.AddrMan.Create | src/addrman.cpp:417-431 | the entry gets the next id, the last place of the random order, is counted as new in its network, and is in no table |
| AddrMans.AddrMan.SwapRandom | src/addrman.cpp:433-455 | two places of the random order and the records the entries keep of them are exchanged |
| AddrMans.AddrMan.Delete | src/addrman.cpp:457-472 | an entry without references leaves all indexes, the last of the random order takes its place, and the counters follow; its assertions hold |
| AddrMans.AddrMan.ClearNew | src/addrman.cpp:474-490 | the slot is emptied; its entry loses a reference and is deleted with the last one |
| AddrMans.AddrMan.RemoveFromNew | src/addrman.cpp:496-506 | the scan over the buckets, stopping early, removes exactly all slots of the entry and brings its count to zero |
| AddrMans.AddrMan.TakeOut | src/addrman.cpp:496-510 | the entry leaves all its slots and is no longer counted as new |
| AddrMans.AddrMan.EvictTried | src/addrman.cpp:516-542 | the entry in the slot goes to its own slot of the new table; only what stood there loses a reference |
| AddrMans.AddrMan.MakeTried | src/addrman.cpp:492-549 | the entry moves to its tried slot, what was there goes back to new, at most one entry disappears, every other entry is untouched; no assertion fires |
| AddrMans.AddrMan.AddSingle | src/addrman.cpp:551-625 | a known address is refreshed and may get its slot, an unknown one is created exactly if there is room; whatever stood in the slot loses a reference; nothing else changes |
| AddrMans.AddrMan.AddKnown | src/addrman.cpp:566-594 | services are added; the time never goes back and lags behind the announcement by at most an hour, or a day for old ones, plus the penalty; another slot only with new information, below the limit of references, and with room |
| AddrMans.AddrMan.AddUnknown | src/addrman.cpp:595-624 | inserted exactly if the slot is free or its holder may be overwritten; otherwise the entry is deleted again |
| AddrMans.AddrMan.TryPlace | src/addrman.cpp:600-624 | one slot changes, and exactly if there is room |
| AddrMans.AddrMan.Overwrite | src/addrman.cpp:611-614 | the slot is cleared and given to the entry |
| AddrMans.AddrMan.Add | src/addrman.cpp:682-692 | a chain of single additions, one per address; true exactly if one was inserted |
| AddrMans.AddrMan.Good | src/addrman.cpp:627-680 | statistics updated; moved to tried exactly if it was new and nothing has to be tested first; otherwise the collision is remembered if there is room; occupied tried slots stay occupied |
| AddrMans.AddrMan.Attempt | src/addrman.cpp:694-712 | exactly the last try, and at most one counted failure since the last success, change |
| AddrMans.AddrMan.Connected | src/addrman.cpp:878-895 | the time is updated exactly if it is more than 20 minutes old |
| AddrMans.AddrMan.SetServices | src/addrman.cpp:897-911 | exactly the services change |
| AddrMans.AddrMan.ResolveOne | src/addrman.cpp:919-966 | the collision is done with exactly if it does not have to wait; the tried entry keeps its slot unless its last success is four hours old and it failed since, or was not tried for four hours while the pending entry waited forty minutes |
| AddrMans.AddrMan.ResolveCollisions | src/addrman.cpp:913-974 | over the states before and after: a tried entry keeps its slot unless a pending one may replace it, by the times of both; it does lose it to one that may and still exists, unless it is pending itself; and every collision that stays pending had to wait |
| AddrMans.AddrMan.SelectTriedCollision | src/addrman.cpp:976-1002 | for a pending entry that exists the occupied tried slot it collides with is returned, never id -1; a vanished one is dropped |
| AddrMans.CollisionsKeep | src/addrman.cpp:976-1002 | as long as occupied tried slots stay occupied, pending collisions keep colliding with something |
| AddrMans.AddrMan.GetAddr | src/addrman.cpp:813-852 | distinct qualifying addresses, at most as many as asked for, all that qualify if fewer are returned; only the random order changes |
| AddrMans.AddrMan.Shuffle | src/addrman.cpp:835-838 | one step of the shuffle keeps what was picked before |
| AddrChecks.ScanEntries | src/addrman.cpp:1078-1109 | passes exactly if every entry by itself is right, and collects the tried ones, the references and the networks |
| AddrChecks.ScanTried | src/addrman.cpp:1116-1131 | passes with nothing left exactly if tried table and tried entries agree |
| AddrChecks.ScanNew | src/addrman.cpp:1133-1146 | passes with nothing left exactly if every slot holds an entry at its hashed position and all reference counts are right |
| AddrChecks.CheckAddrman | src/addrman.cpp:1064-1167 | returns 0 exactly for the states described by Checked |
| AddrChecks.CheckedIs | src/addrman.cpp:1064-1167 | a state is consistent if and only if it passes the check, no stray address is listed, the network of every entry is counted, and ids and addresses were given out |
| AddrChecks.EveryPlace | src/addrman.cpp:1075-1101 | entries that each have their own place, as many as places, fill the random order |
| AddrChecks.ValidIsChecked | src/addrman.cpp:1049-1062 | every valid manager passes |
| AddrChecks.Perform | src/addrman.cpp:1178-1262 | one operation keeps the manager valid and occupied tried slots occupied |
| AddrChecks.Run | src/addrman.cpp:1178-1262 | after every operation of every run at positive times CheckAddrman returns 0 |
| AddrImages.LoadStep | src/addrman.cpp:284-315 | reading back one more entry keeps the state consistent and matching what was written |
| AddrImages.NextIsFree | src/addrman.cpp:299-314 | neither the address nor the tried slot of the next entry is taken, so that none is lost |
| AddrImages.FillStep | src/addrman.cpp:349-377 | the next entry goes back to its slot, below the limit of references |
| AddrImages.FillDone | src/addrman.cpp:349-377 | when all slots are filled the state is the written one but for the names of the entries |
| AddrImages.FlipTwice | src/addrman.cpp:190-191 | the bucket count survives the exclusive or with 2^30 |
| AddrDisks.TotalsAre | src/addrman.cpp:187-211 | the counters of a consistent state are the numbers of entries written, and within the limits the reader checks |
| AddrDisks.WriteNew | src/addrman.cpp:192-202 | exactly the entries with references, numbered in the order of iteration; the assertion on nNew holds |
| AddrDisks.WriteTried | src/addrman.cpp:203-211 | exactly the tried entries; the assertion on nTried holds |
| AddrDisks.WriteBucket | src/addrman.cpp:212-225 | the number of entries of a bucket and their numbers, in order |
| AddrDisks.Serialize | src/addrman.cpp:134-229 | the stream is the written form of the state, for some order of its entries |
| AddrLoads.ReadHeader | src/addrman.cpp:238-281 | accepted exactly if the compatibility byte and both counts are in range |
| AddrLoads.LoadNew | src/addrman.cpp:283-292 | new entries get the ids from zero on |
| AddrLoads.LoadTried | src/addrman.cpp:294-315 | tried entries get the next ids; of a stream that was written none is lost |
| AddrLoads.ReadBuckets | src/addrman.cpp:317-332 | collects the bucket entries in range |
| AddrLoads.FillBuckets | src/addrman.cpp:334-377 | of a stream that was written, every slot of the new table is restored |
| AddrLoads.Prune | src/addrman.cpp:379-390 | entries without a reference are deleted; with none such nothing changes |
| AddrLoads.Unserialize | src/addrman.cpp:232-400 | whatever the stream, an accepted manager passes the check; a stream written with the same key and asmap is accepted and gives the written state but for the names of the entries |
| AddrLoads.SaveAndLoad | src/addrman.cpp:134-400 | writing and reading any valid manager loses no entry and restores new and tried tables, references, totals and counts per network |
| Limbs.AddAssign | src/arith_uint256.h:130-140 | addition modulo 2^BITS, for every width |
| Limbs.Complement | src/arith_uint256.h:64-70 | 2^BITS - 1 - x |
| Limbs.Increment | src/arith_uint256.h:168-175 | x + 1 modulo 2^BITS |
| Limbs.Decrement | src/arith_uint256.h:185-192 | x - 1 modulo 2^BITS |
| Limbs.Negate | src/arith_uint256.h:72-79 | -x modulo 2^BITS |
| Limbs.SubAssign | src/arith_uint256.h:142-146 | subtraction modulo 2^BITS |
| Limbs.MulSmall | src/arith_uint256.cpp:49-58 | multiplication by a 32-bit number modulo 2^BITS, every intermediate value within 64 bits |
| Limbs.MulRow | src/arith_uint256.cpp:65-71 | one row of the product, cut at the width, every intermediate value within 64 bits |
| Limbs.MulAssign | src/arith_uint256.cpp:61-74 | multiplication modulo 2^BITS |
| Limbs.CompareTo | src/arith_uint256.cpp:103-112 | the sign of the difference |
| LimbShifts.ShlAssign | src/arith_uint256.cpp:15-29 | multiplication by 2^shift modulo 2^BITS, for every shift |
| LimbShifts.ShrAssign | src/arith_uint256.cpp:32-46 | floor division by 2^shift, for every shift |
| LimbDivision.Bits | src/arith_uint256.cpp:157-169 | the position of the highest one bit, plus one |
| LimbDivision.DivAssign | src/arith_uint256.cpp:77-100 | floor division; throws exactly on division by zero |
| Compacts.OverflowIs | src/arith_uint256.cpp:189-192 | the three conditions of the overflow flag say exactly that mantissa times 256^(size-3) does not fit |
| Compacts.SetCompact | src/arith_uint256.cpp:176-194 | value modulo 2^256, overflow exactly if it does not fit, negative exactly if the sign bit is set and the value is not zero |
| Compacts.GetCompact | src/arith_uint256.cpp:196-217 | the compact form of the value, with the sign bit exactly if asked for and the mantissa is not zero |
| Compacts.RoundsDown | src/arith_uint256.cpp:196-217 | decoding the encoding clears the lowest bytes and nothing else |
| Compacts.EncodeFixed | src/arith_uint256.cpp:176-217 | what was encoded once is encoded the same again |
| Compacts.CompactIsBest | src/arith_uint256.cpp:176-217 | for every value and every compact number not above it: the encoding stands for a number at least as large, not above the value, and is a fixed point |
| Compacts.GetBlockProof | src/chain.cpp:132-145 | floor(2^256 / (target + 1)) for every valid nBits, 0 otherwise |
| Base58.Accumulate | src/base58.cpp:64-70 | one digit is worked in: value times multiplier plus digit, with no carry left |
| Base58.EncodeRoom | src/base58.cpp:100-101 | 138/100 digits per byte always suffice |
| Base58.DecodeRoom | src/base58.cpp:54-56 | 733/1000 bytes per digit always suffice |
| Base58.EncodeBase58 | src/base58.cpp:90-128 | one "1" per leading zero byte and the base 58 digits of the rest |
| Base58.DecodeBase58 | src/base58.cpp:41-88 | spaces around, one zero byte per leading "1", the number as bytes; fails exactly on other characters, an embedded NUL, or more than max_ret_len bytes |
| Base58.DecodeRest | src/base58.cpp:54-88 | the part after the leading ones |
| Base58.DigitsOf | src/base58.cpp:90-128 | digits without leading zeros are unique |
| Base58.DigitsAre | src/base58.cpp:90-128 | the digits of a number have its value |
| Base58.RoundTrip | src/base58.cpp:41-128 | decoding an encoding gives back the bytes, for all bytes within max_ret_len |
| Base58.OnlyEncodings | src/base58.cpp:41-128 | whatever decodes is the encoding of the result with nothing but spaces around it |
| Bech32.PolyMod | src/bech32.cpp:131-217 | the coefficients of the remainder of the list, as a polynomial over GF(32) with a 1 in front, modulo the generator x^6 + {29}x^5 + {22}x^4 + {20}x^3 + {21}x^2 + {29}x + {18} |
| Bech32.StepLinear | src/bech32.cpp:194-213 | a step is linear over exclusive or |
| Bech32.ResidueLinear | src/bech32.cpp:131-217 | so is the residue |
| Bech32.ResidueInjective | src/bech32.cpp:131-217 | appending zeros maps only zero to zero |
| Bech32.ChecksumVerifies | src/bech32.cpp:343-354 | a list with its checksum appended verifies |
| Bech32.CreateChecksum | src/bech32.cpp:343-354 | six symbols with which the polynomial of human-readable part, values and checksum leaves the constant of the encoding as remainder |
| Bech32.PreparePolynomialCoefficients | src/bech32.cpp:312-325 | high bits, a zero, low bits, then the values |
| Bech32.VerifyChecksum | src/bech32.cpp:328-340 | an encoding exactly if the polynomial of the list leaves its constant as remainder |
| Bech32.Encode | src/bech32.cpp:359-372 | human-readable part, separator, values and six symbols that complete them to the remainder of the encoding, as characters |
| Bech32.CheckCharacters | src/bech32.cpp:288-310 | true exactly if all characters are printable and not of both cases |
| Bech32.Decode | src/bech32.cpp:375-401 | length, case, separator and symbols are checked as specified; whatever is accepted is, in lower case, values completed by six symbols to the remainder of the encoding |
| Bech32.RoundTrip | src/bech32.cpp:312-401 | decoding an encoding returns the same triple, for every legal lowercase human-readable part within the limit |
| Bech32.SixUnique | src/bech32.cpp:328-354 | the checksum of a list is the only one that verifies with a constant |
| Bech32.OnlyEncodings | src/bech32.cpp:312-401 | whatever decodes is, in lower case, the encoding of the result |
| CuckooCache.PackedFlags.constructor | src/cuckoocache.h:63-70 | all flags set |
| CuckooCache.PackedFlags.BitSet | src/cuckoocache.h:93-96 | exactly one flag of the packed bytes becomes set |
| CuckooCache.PackedFlags.BitUnset | src/cuckoocache.h:104-107 | exactly one flag of the packed bytes becomes clear |
| CuckooCache.FastRange32 | src/cuckoocache.h:240-250 | a 32-bit hash is mapped into the table |
| CuckooCache.Cache.constructor | src/cuckoocache.h:336-349 | all slots are free; the limit of displacements is the binary logarithm of the size, and at least one |
| CuckooCache.LiveWrite | src/cuckoocache.h:397-445 | writing one slot exchanges what was live there for what is live now |
| CuckooCache.WriteKeeps | src/cuckoocache.h:397-445 | writing an absent element into one of its eight places keeps every element in a place of its own and unique |
| CuckooCache.AgeKeepsCurrent | src/cuckoocache.h:298-308 | ageing keeps exactly the live elements of the current epoch, as old ones |
| CuckooCache.Cache.EpochCheck | src/cuckoocache.h:286-318 | whole new state: nothing but the counter changes unless enough of the current epoch is in use, and then exactly the older elements become discardable |
| CuckooCache.Cache.CountUnused | src/cuckoocache.h:292-297 | the number of live elements of the current epoch |
| CuckooCache.Cache.Age | src/cuckoocache.h:298-308 | exactly the slots not of the current epoch become discardable, and no slot is of the current epoch any more |
| CuckooCache.Cache.Contains | src/cuckoocache.h:474-484 | true exactly if the element is in the table; erasing marks its slot and nothing else |
| CuckooCache.Cache.Refresh | src/cuckoocache.h:403-410 | found exactly if the element stands in one of its places, and then it becomes live in the current epoch |
| CuckooCache.Cache.TakeFree | src/cuckoocache.h:412-420 | an absent element takes a discardable one of its places exactly if there is one, and no other slot changes |
| CuckooCache.Cache.Displace | src/cuckoocache.h:435-440 | element and epoch are exchanged with those of a live place, and no other slot changes |
| CuckooCache.Cache.Insert | src/cuckoocache.h:397-445 | every live slot holds an element that hashes to it, each element but the default at most once, and the live elements with their epochs are those after the epoch check plus the new one, minus at most one; an absent element with a discardable place is stored and nothing is dropped; otherwise each displacement goes to the place after the last, and something is dropped only after as many displacements as the limit, none with a free place |
| AncestorFinding.AncestorSetRates | src/cluster_linearize.h:567-591 | the feerates of all ancestor sets, although sums of earlier ancestors are reused |
| AncestorFinding.AncestorSetRate | src/cluster_linearize.h:573-588 | one such feerate from the first ancestor that comes earlier and what it lacks |
| AncestorFinding.Subtract | src/cluster_linearize.h:601-609 | taking one transaction out of the feerates of its remaining descendants |
| Search.Branch | src/cluster_linearize.h:956-964 | after adding both items of a split the queue still leads to every set better than best; one item leaves out the split transaction with its descendants, the other takes it with its ancestors, and nothing else is queued |
| Chunkings.AddTx | src/cluster_linearize.h:448-459 | one transaction joins the chunks, absorbing those it improves; the sets and feerates kept are those of the chunking so far |
| AddrMans.AddrMan.LeaveTried | src/addrman.cpp:523-527 | the entry leaves its tried slot and is no longer counted as tried |
| AddrMans.AddrMan.Readmit | src/addrman.cpp:535-539 | the entry stands in one slot of the new table and is counted as new |
| AddrMans.AddrMan.Settle | src/addrman.cpp:545-548 | the entry stands in its tried slot and is counted as tried |
| AddrLoads.LoadEntries | src/addrman.cpp:283-315 | of a stream that was written all entries are read back and none is lost |
| AddrLoads.LoadBuckets | src/addrman.cpp:317-377 | of a stream that was written the new table is restored completely and the manager is valid |
| WorkQueues.SplitShrinks | src/cluster_linearize.h:933-964 | both items of a split together leave fewer sets to search than the item that was split |
| WorkQueues.MoveWeight | src/cluster_linearize.h:982-1004 | no move of the search enlarges the number of sets left to search, and a split lowers it |
| WorkQueues.RunBounded | src/cluster_linearize.h:982-1009 | in every run the splits made and the sets left to search do not exceed the sets at the beginning |
| WorkQueues.ComponentWeight | src/cluster_linearize.h:788-801 | searching components separately leaves no more sets than searching them together |
| Search.SearchBounded | src/cluster_linearize.h:982-1009 | a search of n transactions makes fewer than 2^n splits |
| Linearizing.Improve | src/cluster_linearize.h:1078-1093 | the bounded search of a round uses at most half of the iterations left; with enough of them it finishes and leaves enough for the rounds to come |
| Linearizing.NeedHere | src/cluster_linearize.h:1084-1092 | 2^(n+1) + n^2 iterations pay for the search of this round and for those of all later ones |
| Linearizing.Advance | src/cluster_linearize.h:1108-1114 | what was output is removed from what is left in all finders |
| GroupShapes.MovingMerge | src/cluster_linearize.h:1267-1280 | absorbing the group before keeps all other groups sorted, and none behind is above the merged one |
| GroupShapes.MovingDone | src/cluster_linearize.h:1255-1257 | when the loop stops the feerates of all groups are non-increasing |
| GroupShapes.JoinedMerge | src/cluster_linearize.h:1267-1280 | two connected groups with a dependency between them are connected |
| GroupShapes.BestMerge | src/cluster_linearize.h:1267-1280 | in trees, if no proper part of the absorbing group is above the absorbed one, no part of the merged group that could go first is above it |
| GroupShapes.RootedMerge | src/cluster_linearize.h:1267-1280 | in trees the last transaction of a group depends on all of it |
| GroupShapes.BestIsOptimal | src/cluster_linearize.h:1128-1129 | sorted groups none of which has a better part are nowhere worse than any order that respects dependencies |
| GroupShapes.SettleMerge | src/cluster_linearize.h:1267-1280 | merging keeps what holds of the groups during a cycle |
| GroupShapes.SettleSwap | src/cluster_linearize.h:1281-1293 | so does swapping |
| LeafMoves.AsideSwap | src/cluster_linearize.h:1281-1293 | without a transaction on which nothing depends, the groups are still nowhere worse than the order without it |
| LeafMoves.MovedHere | src/cluster_linearize.h:1130-1134 | sorted groups with such a transaction in a group of its own are nowhere worse than the order with it at the end |
| PassResults.GroupsAreChunks | src/cluster_linearize.h:1127-1142 | the groups a pass leaves, in either direction, are the chunks of its result, and connected |
| PassResults.TreesAreSolved | src/cluster_linearize.h:1143-1145 | a pass finds a linearization nowhere worse than any other of a tree of its direction |
| PassResults.AncestorChain | src/cluster_linearize.h:1128-1129 | with at most one parent each, the ancestors of a transaction are a chain |
| PassResults.DescendantChain | src/cluster_linearize.h:1128-1129 | with at most one child each, the descendants of a transaction are a chain |
| PassResults.MovesAreHarmless | src/cluster_linearize.h:1130-1134 | the backward pass is nowhere worse than the linearization before one transaction was moved to the end |
| PassResults.RaisedFees | src/cluster_linearize.h:1130-1134 | nowhere worse under raised fees means all the more nowhere worse than the old order under the old fees |
| CoinViews.SettledIsRetained | src/coins.cpp:262-273 | clearing all flagged entries and erasing spent ones leaves exactly the unspent coins |
| HeadersProtocol.PresyncIs | src/headerssync.cpp:141-215 | PRESYNC accepts exactly headers with permitted difficulty transitions within the limit of commitments |
| HeadersProtocol.AcceptAll | src/headerssync.cpp:217-280 | REDOWNLOAD accepts exactly headers that continue the chain, with permitted difficulty transitions, and agree with the commitments |
| HeadersProtocol.StepSucceeds | src/headerssync.cpp:70-139 | a message succeeds exactly if the whole history with it is acceptable; a failing one ends the synchronization, releases nothing and leaves the history |
| AddrMans.DecideWaits | src/addrman.cpp:939-966 | a collision stays pending exactly if the tried entry is four hours stale and is being tried now, or was not tried for four hours while the pending entry succeeded within forty minutes |
| AddrMans.HandleOne | src/addrman.cpp:919-966 | handling one more collision keeps what protects tried entries since the beginning |
| AddrMans.WaitedBefore | src/addrman.cpp:913-974 | what has to wait after some collisions were handled had to wait before |
| AddrMans.AddrMan.Resolve | src/addrman.cpp:919-966 | the tests and actions of one collision, whatever the outcome, as a relation between the states |
| AddrMans.AnnouncementKeepsUp | src/addrman.cpp:567-575 | after any announcement of a known address its time has not gone back and lags behind by at most the interval and the penalty |
| CuckooCache.FreePlaceTaken | src/cuckoocache.h:412-420 | an absent element with a discardable place ends up there without any displacement |
| CuckooCache.KickMore | src/cuckoocache.h:421-443 | displacements form a chain: each element put in takes out what stood in its next place |
| CuckooCache.Log2Means | src/cuckoocache.h:336-340 | the limit of displacements is the integer part of the binary logarithm |
| Gf32.MulAssociates | src/bech32.cpp:145-151 | multiplication modulo a^5 + a^3 + 1 is associative |
| Gf32.MulDistributes | src/bech32.cpp:145-151 | it distributes over exclusive or |
| Gf32.MulComm | src/bech32.cpp:145-151 | it is commutative |
| Gf32.MulZero | src/bech32.cpp:145-151 | it has no divisors of zero |
| Gf32.DivideNext | src/bech32.cpp:180-192 | one step of the division with remainder by a polynomial with leading coefficient 1 |
| Gf32.RemainderUnique | src/bech32.cpp:138-140 | a polynomial has one remainder modulo such a polynomial |
| Bech32.StepReduces | src/bech32.cpp:178-213 | a step of the code, with its five constants, is a step of the division by the generator |
| Bech32.ResidueIsRemainder | src/bech32.cpp:131-217 | the residue holds the coefficients of the remainder of the list modulo the generator |
| Bech32.ResidueMeans | src/bech32.cpp:131-217 | a list has a given residue exactly if its polynomial leaves that remainder |
| Bech32.ChecksumCompletes | src/bech32.cpp:343-354 | the checksum gives the list the remainder of its encoding, and no other six symbols do |
| Bech32.VerifiedMeans | src/bech32.cpp:328-340 | what a list verifies as is decided by the remainder of its polynomial |
| Bech32.BurstError | src/bech32.cpp:131-217 | lists that differ within six consecutive symbols have different residues |
| Bech32.BurstIsFound | src/bech32.cpp:328-340 | two lists that differ within six consecutive symbols never both verify for the same human-readable part and constant |
| Gf1024.ProdAssoc | src/bech32.cpp:96-112 | multiplication of GF(1024) as pairs over GF(32) with e^2 = 9e + 23 is associative |
| Gf1024.NoDivisors | src/bech32.cpp:166-167 | it has no divisors of zero, since x^2 + 9x + 23 has no root in GF(32) |
| Gf1024.NoShortPeriod | src/bech32.cpp:168-169 | no power of e below the 1023rd is 1 |
| Gf1024.Vandermonde | src/bech32.cpp:173-176 | three unknowns with three consecutive power sums zero are zero |
| BchCode.Roots | src/bech32.cpp:170-175 | e^997, e^998 and e^999 are roots of the generator |
| BchCode.ResidueEval | src/bech32.cpp:219-226 | a list and its residue have the same value at every root of the generator |
| BchCode.ThreeErrors | src/bech32.cpp:140-143 | lists that differ in at most three of 1023 consecutive symbols have different residues |
| BchCode.ThreeErrorsAreFound | src/bech32.cpp:140-143 | up to three wrong symbols in a window of 1023 never verify for the same human-readable part and constant |
| WorkQueues.RoomySplit | src/cluster_linearize.h:988-998 | splitting the last item, or the first if the queue has room for what it may give rise to, never overflows the queue |

## Left out

- Search.SearchSorted: the random exchange of the first two items is a free choice.
- Linearizing.Linearize: that optimal is returned is stated from 2^(n+1) + 2n^2 iterations on; below that only what it means if it is returned.
- Coins.CoinsCache.BatchWrite: after an exception only that both tables are well formed is stated.
- AddrLoads.Unserialize: of a stream that was not written by Serialize it is only stated that an accepted state passes the check; re-bucketing under another asmap is modelled but what it keeps is not stated.
- AddrMans.AddrMan.AddKnown: the chance of another reference, 1 in 2^N, is a free choice.
- CheckQueues.Progress: fairness of the scheduler is not modelled; it states that a useful step is always enabled.
- FeeFracs: fee and size are unbounded integers; the 96-bit products and the overflow of 64-bit sums are not modelled.
- SetType is the mathematical set; the bit set implementation and its limit of positions are not part of this model. GetReducedChildren, the mirror image of GetReducedParents, would only repeat it.
- std::sort is an insertion sort, std::lower_bound a binary search; the hash maps are maps with a free order of iteration.
- Bucket tables are maps from occupied slots, so that -1 is absence.
- Coins: best block hashes, the memory-usage counter, AccessCoin, HaveInputs, EmplaceCoinInternalDANGER and a BatchWrite that reports failure. Partial batches and crash recovery of the database are not modelled.
- Address manager: Select_ and GetChance (floating point), GetEntries_, FindAddressEntry_, Size_, logging, the code -16 for a null key, the deterministic mode. A stream is a sequence of values: byte formats, the 32-bit time on disk and older address formats are not modelled. Times are integers.
- Headers: locators for requests, logging, and the computation of the maximal number of commitments from clocks.
- Check queue: construction, shutdown through the destructor, and the control object.
- Blocks: heights are unbounded; chain work, files and status are not modelled.
- Cuckoo cache: concurrent reads and relaxed memory ordering, setup_bytes, 32-bit overflow of 45 * size, and rounding of the float logarithm.
- Arithmetic: bitwise operators, hexadecimal text, conversion to double. PolyMod and the five-bit groups are written with literal shift amounts.
- Base58Check, a negative max_ret_len, and error location in Bech32 strings. That four errors in a window of 89 characters are found rests on an exhaustive search and is not stated.
- Files outside these cores: network, wallet, consensus, storage and command line code.

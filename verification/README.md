# Cognitive Data Fabric: a verified model of its algorithms

Cognitive Data Fabric (CDF) is a database for AI workloads: Rust storage and index crates behind Go services. This
project models the parts of it that hold an algorithm or a protocol, and proves what each promises for every input,
every history or every interleaving. `dafny verify dfyconfig.toml` checks all of it.

State that the program updates in place is a class here, with the program's own fields; every method that changes it
is proved against a specification function or predicate, and the theorems are about those. What is only computed is a
function. Each file is one component.

## Components

**HNSW vector index** (`Hnsw`, `HnswProofs`, `HnswTheorems`, `HnswInsertion`, `HnswDeterminism`, `HnswRemovals`,
`HnswComponents`, `HnswDegree`). A layered proximity graph, searched with a beam: a min-heap of candidates, a max-heap
of results and a set of visited ids. Distances are reals, heaps are sets of hits from which any nearest or farthest
entry may be taken (so ties are resolved arbitrarily), and the level of a new node is a parameter, so every random
choice is covered. `BeamResult` is what one beam search promises in any graph, dangling links included: which links are
followed, when it stops, and what it returns. From it: searches and insertions have one outcome where no two nodes are
equally far (`SearchDetermined`, `InsertDetermined`), a new node is linked to the nearest nodes visited
(`InsertLinksNearest`), the graph invariant `Layered` over whole insert-only histories, and the main theorem that a
search with a wide enough beam gives the same distances as a full scan. Three things differ from what the names and
comments suggest:
- `remove` drops the node but neither the links to it nor the entry point. Search and insert panic exactly when the
  entry point itself was removed, which is the precondition `EntryLive`; `HnswIndex.Remove` says when it is lost.
  Links to live nodes stay in order (`ChangesKeepTidy`), but a layer may fall apart: `RemovalCutsOff` is a run after
  which a search for everything misses a stored vector. `SearchAfterRemovals` says what a wide search finds after any
  insertions and removals and when that is exact, and `SearchFindsComponent` that it finds everything exactly when the
  stored vectors form one component.
- `m` is commented as the maximum number of connections per layer. It bounds what a new node chooses, not what a node
  ends up with: `DegreeBoundedIff` shows that it bounds the links of a node exactly for histories of at most m + 1
  insertions, where no node could have more anyway. `AverageDegree` is the bound that holds for all histories.
- `current_level` and `entry_point` are set by the first insertion only (`RunEntryFixed`); `Layered` states what
  follows from that.

**CSR graph** (`Edges`, `Paths`, `CsrIndex`). An edge list with a lazily rebuilt compressed form. The list is sorted
stably by source, so each query answers as if it filtered the edges in insertion order, rebuilt or not.
Breadth-first search is described by its discovery order, of which a prefix was expanded; `Covered` is the single
lemma behind exactness, optimality and completeness. `shortest_path` admits one edge more than `max_depth`, while
`bfs` stops at it; `ShortestPathResult` and `TraversalsCompared` state the exact relation.

**Storage write path** (`Codec`, `Wal`, `TornTail`, `ByteOrder`, `MemTable`, `Engine`, `TableScan`, `Writers`). The log
is a byte string of length-prefixed frames, and a crash leaves a prefix of it. Where the code and its comments differ:
- `append` writes entries that replay refuses (over 64 MiB, or with a length that does not fit 32 bits).
  `RecoveredIffAllFit` says when a log can be read back.
- `open` keeps a torn tail, so later frames land behind it. `AppendsRecoveredIff` shows that every append is recovered
  exactly when the tail is empty; `TornTailLosesAppends` is a run in which a number is assigned twice; `RepairedRun`
  proves the repair, which truncates to the last whole frame on opening.
- `StorageEngine::open` recovers the sequence number only; `ReadSurvivesReopenIff` says which reads survive.
- `scan_table` has no upper bound. `ScanExactIff` says when that is visible; `BoundedScan` proves the bounded range.
  Both hold for table names of any bytes as long as no key of another table begins with the name and a NUL byte, and
  `BoundSeparatesIff` shows that this is exactly what the bound needs. NUL-free names ensure it. Without the bound a
  table is safe over all histories exactly when it is the last in key order (`ScanSeparatesIff`).
- The log lock is released before the memory table is written. `Writers` models a write as three atomic steps and
  proves what every interleaving keeps. `OverlapBreaksAgreement` is a run in which the table ends up with the older
  value and the sequence moves backwards. `AgreeIffLastApplied`, `SequenceCurrentIff` and `NeverBackwardsIff` give the
  schedules, exactly, for which the table agrees with the log and the sequence behaves.

**Rate limiter** (`RateLimiter`). One stored number per client stands for a bound on every window of its calls. Time is
a real number given with each call, and tokens are reals.

**Query text and routing** (`Text`, `Cql`, `CqlStatements`, `Router`). Query texts of any number of columns and
conditions are read as what they say (`StatementRead`). The text that the unified service prints is parsed back by the
router. The service accepts every table name but the empty one. For ASCII names, a blank in the name, an end that is
trimmed, or a hidden WHERE or LIMIT breaks the round trip, and `ReadBackIff` proves that nothing else does. Outside
ASCII, upper case can turn letters into those of a keyword and change the length of the text; the round trip is not
stated there. The parser never fills the vector clause, so the broadcast branch of the router is not reached from query
text and similarity searches stay on the owner of the table (`SearchesStayOnOwner`, `ParsedReachesAllIff`).

**Temporal index, uncertain values, cosine metric** (`TemporalIndex`, `Probability`, `MomentLaws`, `Cosine`). Temporal
queries ignore
the end of valid time, unlike `valid_contains`; `EndsIgnoredIff` says when that makes no difference. The comment that
the variance of a product is exact for Normal values does not hold: for values of all five kinds it falls short of
E[X^2] E[Y^2] - (E[X] E[Y])^2 by Var(X) Var(Y) (`MulFallsShort`), and is exact only when a factor is certain
(`MulExactIff`). Arithmetic is over reals.

## Model

| member | source | states |
|---|---|---|
| `Hnsw.Nearest` | crates/cdf-vector/src/hnsw.rs:54-58 | the min-heap yields an entry of least distance, any one among ties |
| `Hnsw.Farthest` | crates/cdf-vector/src/hnsw.rs:27-31 | the max-heap yields an entry of greatest distance, any one among ties |
| `Hnsw.DrainSorted` | crates/cdf-vector/src/hnsw.rs:171-174 | the drained heap lists each entry once, in ascending distance |
| `Hnsw.VisitLive` | crates/cdf-vector/src/hnsw.rs:155-163 | pushing a live neighbour and evicting the farthest keeps in the result heap the best entries of all live nodes visited |
| `Hnsw.VisitDangling` | crates/cdf-vector/src/hnsw.rs:155-156 | a link to a removed node changes neither heap |
| `Hnsw.BeamFinished` | crates/cdf-vector/src/hnsw.rs:146-175 | when the nearest candidate is farther than all results, or none is left, the sorted heap is a beam result |
| `Hnsw.BeamSeesOneLayer` | crates/cdf-vector/src/hnsw.rs:153-154 | a beam search depends only on the vectors and on the links of its own layer, so links made on higher layers during an insertion do not affect it |
| `Hnsw.HnswIndex.SearchLayer` | crates/cdf-vector/src/hnsw.rs:126-176 | in any graph with a live entry the beam search terminates; it follows the links of the nearest live node left, one node at a time, exactly as long as fewer than max(ef, 1) of the nodes visited are nearer; it returns the best min(ef, seen) of the live nodes visited, sorted and without repetition; everything visited is reachable, and every link of a returned node was visited |
| `Hnsw.HnswIndex.Explore` | crates/cdf-vector/src/hnsw.rs:133-169 | the loop ends with the nodes followed in that order, and no candidate left or all of them farther than a full beam |
| `Hnsw.NearestIsNext` | crates/cdf-vector/src/hnsw.rs:145-152 | a popped candidate that does not end the loop has fewer than max(ef, 1) visited nodes nearer |
| `Hnsw.SearchStops` | crates/cdf-vector/src/hnsw.rs:146-151 | when the loop ends, each candidate left has at least max(ef, 1) visited nodes nearer |
| `Hnsw.HnswIndex.Follow` | crates/cdf-vector/src/hnsw.rs:152-167 | popping the nearest candidate and expanding it keeps the search invariant and visits exactly its links; it visits a new live node or adds no candidate |
| `Hnsw.HnswIndex.Visit` | crates/cdf-vector/src/hnsw.rs:155-165 | one link: visited once, pushed on both heaps if live, farthest evicted when over capacity |
| `Hnsw.SelectNeighbors` | crates/cdf-vector/src/hnsw.rs:178-184 | the ids of the first m candidates, in their order |
| `Hnsw.HnswIndex.Descend` | crates/cdf-vector/src/hnsw.rs:197-204 | a chain of beam searches of width one on the layers from the top down leads to a live node |
| `Hnsw.HnswIndex.LinkLayer` | crates/cdf-vector/src/hnsw.rs:216-224 | on one layer exactly the chosen neighbours that reach it gain the new id, once; everything else stays |
| `Hnsw.HnswIndex.ChooseNeighbors` | crates/cdf-vector/src/hnsw.rs:209-215 | neighbours are the m nearest hits of a beam search over the graph as it was before the insertion |
| `Hnsw.HnswIndex.Insert` | crates/cdf-vector/src/hnsw.rs:188-234 | the whole new state: first node becomes entry point and sets the level; later nodes link both ways on every layer they share with the index and change nothing else |
| `Hnsw.HnswIndex.Search` | crates/cdf-vector/src/hnsw.rs:236-269 | empty without entry point; otherwise descent to layer 1, beam of max(ef, k) on layer 0, first k hits with distance and similarity |
| `Hnsw.HnswIndex.Remove` | crates/cdf-vector/src/hnsw.rs:271-273 | only the node goes; links and entry point stay; searching stays possible exactly when the removed id is not the entry point |
| `HnswProofs.BeamStaysOnLayer` | crates/cdf-vector/src/hnsw.rs:152-167 | with well-formed links a beam search visits only live nodes of its layer |
| `HnswProofs.LiveBeamOnLayer` | crates/cdf-vector/src/hnsw.rs:152-167 | with links in order between live nodes only, the live nodes it visits are on its layer |
| `HnswProofs.DescentStaysOnLayer` | crates/cdf-vector/src/hnsw.rs:197-204 | the greedy descent ends on a node that reaches the layer below it |
| `HnswProofs.ChosenAreOnLayer` | crates/cdf-vector/src/hnsw.rs:209-215 | a new node gets neighbours without repetition, all tall enough, and with m >= 1 and a beam of at least one at least one on each shared layer |
| `HnswProofs.LinkedWellFormed` | crates/cdf-vector/src/hnsw.rs:216-225 | an insertion keeps links symmetric, free of loops and repetition, and ending at live nodes of the layer |
| `HnswProofs.LinkedConnected` | crates/cdf-vector/src/hnsw.rs:208-226 | an insertion keeps each layer up to the current level connected to the entry point |
| `HnswProofs.InsertKeepsLayered` | crates/cdf-vector/src/hnsw.rs:188-234 | inserting a fresh id of any height keeps the whole graph invariant, adds exactly that id and no other vector changes |
| `HnswTheorems.LocalMinimum` | crates/cdf-vector/src/hnsw.rs:133-175 | a beam of width one ends no farther than its entry, and no live neighbour of its end is closer, in any graph |
| `HnswTheorems.DescentApproaches` | crates/cdf-vector/src/hnsw.rs:245-251 | the descent through the layers never moves away from the query |
| `HnswTheorems.ReachedIsPath` | crates/cdf-vector/src/hnsw.rs:145-168 | what a search may visit is what a path of links leads to |
| `HnswTheorems.ConnectedFromAny` | crates/cdf-vector/src/hnsw.rs:188-234 | a layer of symmetric links connected from one node is connected from each |
| `HnswTheorems.WideBeamFindsReachable` | crates/cdf-vector/src/hnsw.rs:133-175 | a beam as wide as what it visits returns exactly the live nodes reachable from its entry, dangling links included |
| `HnswTheorems.WideBeamFindsLayer` | crates/cdf-vector/src/hnsw.rs:133-175 | in an insert-only index a beam as wide as its layer returns the whole layer |
| `HnswTheorems.RunKeepsLayered` | crates/cdf-vector/src/hnsw.rs:188-234 | after every history of fresh ids, any levels and tie choices, the graph invariant holds and the index stores exactly the inserted vectors |
| `HnswTheorems.SearchIsExact` | crates/cdf-vector/src/hnsw.rs:236-269 | on an insert-only history with max(ef, k) >= n the answer is min(k, n) distinct ids in ascending true distance, nobody left out is closer, and similarities are those of the stored vectors |
| `HnswTheorems.TopKUnique` | crates/cdf-vector/src/hnsw.rs:254-268 | any two correct answers have the same distances position by position |
| `HnswTheorems.BruteForceIsTopK` | crates/cdf-vector/src/hnsw.rs:236-269 | the reference: scanning all inserted vectors and sorting is a correct answer |
| `HnswTheorems.SearchAgreesWithScan` | crates/cdf-vector/src/hnsw.rs:236-269 | index and full scan give answers of equal length with equal distances |
| `HnswInsertion.DescentStops` | crates/cdf-vector/src/hnsw.rs:197-204 | the descent stops once per layer; each stop is at the end of a path of that layer, no farther than the one before, and has no nearer link there |
| `HnswInsertion.InsertLinksNearest` | crates/cdf-vector/src/hnsw.rs:196-226 | a new node is linked on each shared layer to min(m, ef_construction, visited) live nodes in ascending distance, and no live node that the beam visited and left out is nearer |
| `HnswInsertion.InsertLinksNearestOfLayer` | crates/cdf-vector/src/hnsw.rs:208-226 | with a beam as wide as an insert-only index these are the m nearest nodes of the whole layer, or all of it |
| `HnswInsertion.InsertLinksBack` | crates/cdf-vector/src/hnsw.rs:216-224 | every other node keeps its vector and its links, and gains the new id at the end of a layer it reaches exactly when the new node links to it there |
| `HnswInsertion.SearchDescends` | crates/cdf-vector/src/hnsw.rs:236-269 | in any graph and for any width: one stop per layer above the lowest, then the nearest of the live nodes that a beam from the last stop visits, with their distances and similarities |
| `HnswInsertion.RunEntryFixed` | crates/cdf-vector/src/hnsw.rs:227-230 | over every history the first node stays the entry point and its height the current level |
| `HnswInsertion.RunHeights` | crates/cdf-vector/src/hnsw.rs:189-232 | over every history of fresh ids each node keeps the height it was inserted with |
| `HnswDeterminism.BeamUnique` | crates/cdf-vector/src/hnsw.rs:126-176 | where no two nodes are equally far, one beam search visits one set of nodes and has one result, in any graph and for any width |
| `HnswDeterminism.SearchDetermined` | crates/cdf-vector/src/hnsw.rs:236-269 | a search then has one answer |
| `HnswDeterminism.InsertDetermined` | crates/cdf-vector/src/hnsw.rs:188-234 | an insertion of given height then has one outcome |
| `HnswDeterminism.NarrowBeamStops` | crates/cdf-vector/src/hnsw.rs:146-151 | a beam of width one whose entry is nearer than everything it links to visits those links, nothing else, and returns the entry |
| `HnswDegree.AverageDegree` | crates/cdf-vector/src/hnsw.rs:76 | n nodes hold at most 2 m (n - 1) link ends on a layer |
| `HnswDegree.DegreeBoundedIff` | crates/cdf-vector/src/hnsw.rs:76 | over all runs, metrics, beams and levels: m bounds the links of every node on every layer if and only if at most m + 1 nodes are inserted |
| `HnswRemovals.StoredIsKept` | crates/cdf-vector/src/hnsw.rs:188-273 | after any insertions and removals, ids repeated or not, the index stores exactly the vectors inserted last and not removed |
| `HnswRemovals.SearchAfterRemovals` | crates/cdf-vector/src/hnsw.rs:236-273 | after them, with a live entry point, a wide search gives the k nearest of the stored vectors reachable on layer 0 from where the descent ends; it agrees with a full scan if and only if k of them are reachable, or all, and no unreachable one is nearer than a hit |
| `HnswRemovals.RemovalCutsOff` | crates/cdf-vector/src/hnsw.rs:271-273 | for every m >= 1 a run of three insertions and a removal after which a search for everything misses a stored vector |
| `HnswComponents.RemovalKeepsTidy` | crates/cdf-vector/src/hnsw.rs:271-273 | a removal keeps the links of live nodes in order |
| `HnswComponents.InsertKeepsTidy` | crates/cdf-vector/src/hnsw.rs:188-234 | so does inserting an id that was never used, next to links that dangle |
| `HnswComponents.ChangesKeepTidy` | crates/cdf-vector/src/hnsw.rs:188-273 | over all runs of insertions of fresh ids and removals: links of live nodes are distinct, avoid the node itself, and those to live nodes end on their layer and are linked back |
| `HnswComponents.ReachedBack` | crates/cdf-vector/src/hnsw.rs:145-168 | among live nodes reachability is symmetric, dangling links notwithstanding |
| `HnswComponents.SearchFindsComponent` | crates/cdf-vector/src/hnsw.rs:236-273 | after such runs a search for everything agrees with a full scan if and only if the stored vectors form one component of layer 0, wherever the descent ends |
| `Paths.Discover` | crates/cdf-graph/src/lib.rs:144-150 | queueing an unvisited target keeps the breadth-first invariant and adds one end |
| `Paths.Covered` | crates/cdf-graph/src/lib.rs:139-152 | a search has found the end of every walk no longer than the next queued path, by a path no longer than that walk |
| `Paths.CompleteDiscovery` | crates/cdf-graph/src/lib.rs:131-154 | an exhausted search lists one shortest path for each node within the depth, and none else |
| `Paths.TargetMet` | crates/cdf-graph/src/lib.rs:170-176 | the first path that meets the target is a shortest one |
| `Paths.TargetMissed` | crates/cdf-graph/src/lib.rs:182-183 | an exhausted search without the target: every walk to it has more than max_depth + 1 edges |
| `Paths.TraversalsCompared` | crates/cdf-graph/src/lib.rs:131-183 | shortest_path to depth d succeeds exactly for the nodes that bfs lists to depth d + 1, with equal lengths |
| `CsrIndex.TargetsAreEdges` | crates/cdf-graph/src/lib.rs:99-104 | the unfiltered neighbours of a node are the targets of its edges |
| `CsrIndex.TargetsPositions` | crates/cdf-graph/src/lib.rs:94-104 | for every type filter the neighbours are the targets at strictly increasing positions of the edge list, which are exactly those of the edges of the node that have the type asked for, or any type when none is |
| `CsrIndex.OutgoingPositions` | crates/cdf-graph/src/lib.rs:186-192 | the outgoing edges are those at strictly increasing positions, which are exactly those of the edges of the node |
| `CsrIndex.StableSortIsSorted` | crates/cdf-graph/src/lib.rs:43-44 | after the sort no edge has a smaller source than one before it |
| `CsrIndex.StableSortIsStable` | crates/cdf-graph/src/lib.rs:43-44 | the sort keeps the insertion order of each source's edges |
| `CsrIndex.FindRow` | crates/cdf-graph/src/lib.rs:89-91 | bisection over strictly ascending sources finds the source if and only if it is there |
| `CsrIndex.NextRow` | crates/cdf-graph/src/lib.rs:56-62 | one more edge of the sorted list extends the open row or starts the next, sources strictly ascending, starts increasing |
| `CsrIndex.FoundRow` | crates/cdf-graph/src/lib.rs:110-121 | reading the row of a source equals filtering the edge list, for every type filter |
| `CsrIndex.MissingRow` | crates/cdf-graph/src/lib.rs:106-109 | a source without a row has no matching edge |
| `CsrIndex.CsrGraph.AddNode` | crates/cdf-graph/src/lib.rs:78-80 | the first labels of a node are kept |
| `CsrIndex.CsrGraph.AddEdge` | crates/cdf-graph/src/lib.rs:82-86 | the edge joins the end of the insertion history; all queries stay valid |
| `CsrIndex.CsrGraph.EnsureCsr` | crates/cdf-graph/src/lib.rs:39-76 | afterwards clean, and no query answer changed |
| `CsrIndex.CsrGraph.RebuildRows` | crates/cdf-graph/src/lib.rs:45-74 | strictly ascending sources, increasing row starts with one entry more than sources, columns and types in list order |
| `CsrIndex.CsrGraph.Refresh` | crates/cdf-graph/src/lib.rs:205-207 | rebuilds without changing any answer |
| `CsrIndex.CsrGraph.GetNeighbors` | crates/cdf-graph/src/lib.rs:94-122 | dirty or clean, the same sequence as filtering all edges ever added in insertion order |
| `CsrIndex.CsrGraph.GetNeighborsCsr` | crates/cdf-graph/src/lib.rs:125-128 | rebuilds, then answers the same |
| `CsrIndex.CsrGraph.GetOutgoingEdges` | crates/cdf-graph/src/lib.rs:186-192 | the edges of a node in insertion order, also after a rebuild |
| `CsrIndex.CsrGraph.Bfs` | crates/cdf-graph/src/lib.rs:131-154 | terminates on cyclic graphs; exactly one shortest path for each node within max_depth edges, in order of length |
| `CsrIndex.CsrGraph.ShortestPath` | crates/cdf-graph/src/lib.rs:157-183 | a shortest path of at most max_depth + 1 edges, None exactly when there is none, the single node when start is the target |
| `CsrIndex.CsrGraph.EnqueueTargets` | crates/cdf-graph/src/lib.rs:144-151 | the inner loop of both traversals: all targets of the head are found, or the target was met unvisited |
| `Codec.LeRoundTrip` | crates/cdf-storage/src/wal.rs:84-147 | a length written as little-endian bytes reads back |
| `Codec.FourBytes` | crates/cdf-storage/src/wal.rs:84-86 | the four lowest bytes come first, least significant in front, for numbers of any width from four bytes on |
| `Codec.EncodeKeyInjective` | crates/cdf-storage/src/lib.rs:31-36 | two row keys have the same bytes exactly when they are equal, whatever bytes the table names contain |
| `Codec.ValueRoundTrip` | crates/cdf-storage/src/engine.rs:78-81 | a stored value decodes to itself |
| `Codec.EntryRoundTrip` | crates/cdf-storage/src/wal.rs:78-167 | a log entry decodes to itself, for every operation |
| `Codec.CutEntry` | crates/cdf-storage/src/wal.rs:164-167 | no proper prefix of an encoded entry decodes |
| `Wal.Header` | crates/cdf-storage/src/wal.rs:81-147 | the u32 prefix of a frame reads back as the length of its entry |
| `Wal.ReplayFrame` | crates/cdf-storage/src/wal.rs:136-169 | replaying a frame and more bytes gives its entry, then the replay of the rest |
| `Wal.ReplayFrames` | crates/cdf-storage/src/wal.rs:128-171 | the same for a whole log of entries within the limit |
| `Wal.TornFrame` | crates/cdf-storage/src/wal.rs:138-157 | a proper prefix of a frame gives no entry and no error |
| `Wal.WholeFrames` | crates/cdf-storage/src/wal.rs:136-169 | the number of frames wholly inside the first k bytes is the greatest one that fits |
| `Wal.CrashPrefix` | crates/cdf-storage/src/wal.rs:128-171 | replaying any byte prefix of a log gives exactly the entries whose frames lie wholly inside it |
| `Wal.OversizedStopsReplay` | crates/cdf-storage/src/wal.rs:149-153 | an entry over 64 MiB, which append writes, makes every later replay fail |
| `Wal.WrappedLengthStopsReplay` | crates/cdf-storage/src/wal.rs:81 | a length cut to 32 bits also makes the replay fail |
| `Wal.RecoveredIffAllFit` | crates/cdf-storage/src/wal.rs:73-171 | a log is recovered, and the replay succeeds at all, exactly when no entry is over 64 MiB |
| `Wal.WriteAheadLog.Open` | crates/cdf-storage/src/wal.rs:46-71 | the next number follows the last recovered entry, the bytes stay as found, a corrupt log is an error |
| `Wal.WriteAheadLog.Append` | crates/cdf-storage/src/wal.rs:73-104 | the file grows by exactly one frame, the counter by one, and the old counter is returned |
| `Wal.WriteAheadLog.ReplayInternal` | crates/cdf-storage/src/wal.rs:128-171 | the loop computes the replay function, errors included |
| `Wal.SequenceNumbers` | crates/cdf-storage/src/wal.rs:46-104 | over every run of appends and clean reopens the log holds numbers 1..n in order and the counter is n + 1 |
| `TornTail.TornTailLosesAppends` | crates/cdf-storage/src/wal.rs:62-70 | behind a torn frame an acknowledged append is not recovered and its number is assigned again |
| `TornTail.AppendsRecoveredIff` | crates/cdf-storage/src/wal.rs:62-70 | opening a crashed log succeeds with its whole frames; from then on every append is recovered exactly when the crash left no torn tail |
| `TornTail.RepairedOpen` | crates/cdf-storage/src/wal.rs:46-71 | repaired form: opening any crashed log leaves its whole frames and the number after them |
| `TornTail.RepairedRun` | crates/cdf-storage/src/wal.rs:46-104 | repaired form: over every run of appends and crashes numbers are 1..n, and exactly the operations with whole frames survive |
| `ByteOrder.LessTotal` | crates/cdf-storage/src/memtable.rs:8 | key order is total |
| `ByteOrder.LessTransitive` | crates/cdf-storage/src/memtable.rs:8 | key order is transitive |
| `ByteOrder.LessPrefix` | crates/cdf-storage/src/memtable.rs:8 | a common prefix does not affect the order |
| `ByteOrder.LessIff` | crates/cdf-storage/src/memtable.rs:8 | one byte string comes before another exactly when, behind a common front, it ends first or has the smaller byte |
| `MemTable.ScanUnique` | crates/cdf-storage/src/memtable.rs:43-67 | a range has one listing, so a scan is determined by the table |
| `MemTable.MemTable.Insert` | crates/cdf-storage/src/memtable.rs:22-37 | the value is stored in any case, the size charged, and the result says whether the limit was respected |
| `MemTable.MemTable.Scan` | crates/cdf-storage/src/memtable.rs:43-67 | exactly the cells of the half-open range, each once, in key order |
| `MemTable.MemTable.Drain` | crates/cdf-storage/src/memtable.rs:84-92 | hands out all cells in key order and leaves an empty table of size 0 |
| `Engine.LookupIsLastWrite` | crates/cdf-storage/src/engine.rs:111-132 | reading the table after any history gives the last written row, None after a delete or without a write |
| `Engine.LastWriteIff` | crates/cdf-storage/src/engine.rs:111-132 | a row is found exactly when some write put it and no later write puts or deletes that id in that table; what is found for an id has that id |
| `Engine.FoldIsApplied` | crates/cdf-storage/src/engine.rs:71-160 | folding the logged entries gives the memory table |
| `Engine.ReplayRebuildsTable` | crates/cdf-storage/src/engine.rs:71-160 | on a fresh engine the replayed log is what was written, and its fold is the memory table |
| `Engine.ReopenKeepsNumbers` | crates/cdf-storage/src/engine.rs:55-66 | reopening continues the numbers, and folding the log, which it does not do, would give each last row back |
| `Engine.ReadSurvivesReopenIff` | crates/cdf-storage/src/engine.rs:43-132 | with writes before and after reopening, a read gives the last write of all if and only if the row was touched after reopening or had no live value before |
| `Engine.StorageEngine.Open` | crates/cdf-storage/src/engine.rs:43-69 | only the sequence number is recovered; a corrupt log is an error |
| `Engine.StorageEngine.Insert` | crates/cdf-storage/src/engine.rs:71-109 | the history grows by one put; log, counter, sequence and table all describe that history |
| `Engine.StorageEngine.Delete` | crates/cdf-storage/src/engine.rs:134-160 | the history grows by one delete, also for a row that is not there; the same agreement holds |
| `Engine.StorageEngine.Get` | crates/cdf-storage/src/engine.rs:111-132 | the row of the last write to that table and id |
| `Engine.StorageEngine.ScanTable` | crates/cdf-storage/src/engine.rs:162-190 | collects, over all keys from the table's first one on, each active row whose id was not collected before |
| `TableScan.RangeIsPrefix` | crates/cdf-storage/src/memtable.rs:43-67 | for any bytes t the keys in [t 00, t 01) are exactly those that begin with t 00 |
| `TableScan.PrefixRange` | crates/cdf-storage/src/lib.rs:31-36 | those are the keys of table t and the keys of other tables that begin with t 00 |
| `TableScan.NulFreeKeysApart` | crates/cdf-storage/src/lib.rs:31-36 | between NUL-free names there are no such other keys |
| `TableScan.NulFreeUndisturbed` | crates/cdf-storage/src/lib.rs:31-36 | a history that writes NUL-free names only meets the proviso of the scan theorems below |
| `TableScan.KeysOrderedById` | crates/cdf-storage/src/lib.rs:31-36 | within a table the key order is the id order |
| `TableScan.BoundedScan` | crates/cdf-storage/src/engine.rs:162-174 | a scan bounded by t 01 returns exactly the rows that get finds, in id order, unless a key of another table begins with t 00 |
| `TableScan.BoundSeparatesIff` | crates/cdf-storage/src/engine.rs:162-174 | for any set of table names: the bounded scan is exact over all histories if and only if no key of another of these tables begins with t 00 |
| `TableScan.ScanBeginsWithTable` | crates/cdf-storage/src/engine.rs:162-174 | under the same proviso the unbounded scan begins with exactly those rows |
| `TableScan.ScanContinuesWithOthers` | crates/cdf-storage/src/engine.rs:168 | whatever follows is a live row of a later table whose id is not live in t, under the same proviso |
| `TableScan.ScanExactIff` | crates/cdf-storage/src/engine.rs:162-190 | when no key of another table begins with t 00, the scan is exact if and only if every id live in a later table is live in t too |
| `TableScan.ScanSeparatesIff` | crates/cdf-storage/src/engine.rs:162-190 | for any set of table names, whatever bytes they contain: the scan of t is exact over all histories if and only if all keys of the other tables come before t 00 |
| `Writers.StepKeepsInvariant` | crates/cdf-storage/src/engine.rs:83-107 | each atomic step keeps: consecutive numbers, logged before shown, sequence behind the counter, keys without overlap in step |
| `Writers.RunKeepsInvariant` | crates/cdf-storage/src/engine.rs:83-158 | the same for every interleaving of any number of writers |
| `Writers.QuiescentTable` | crates/cdf-storage/src/engine.rs:83-158 | when all writers are done, the table shows the folded log at each key whose writers did not overlap |
| `Writers.RunScheduled` | crates/cdf-storage/src/engine.rs:83-158 | in every state the table, the folded log and the sequence are, key by key, what the last apply, the last append and the last store of the schedule say |
| `Writers.AgreeIffLastApplied` | crates/cdf-storage/src/engine.rs:83-158 | in every state of every run, table and folded log agree at a key if and only if the value applied last is the value logged last; with distinct values, if and only if it is the same record |
| `Writers.SequenceCurrentIff` | crates/cdf-storage/src/engine.rs:107-158 | the sequence is that of the last record if and only if the last store stored it |
| `Writers.NeverBackwardsIff` | crates/cdf-storage/src/engine.rs:107-158 | over a whole run the sequence never moves backwards if and only if the stores follow the log order |
| `Writers.OverlapBreaksAgreement` | crates/cdf-storage/src/engine.rs:94-107 | a run of two overlapping writers after which the table shows the older value and the sequence moved backwards |
| `Writers.OneAtATimeIsSequential` | crates/cdf-storage/src/engine.rs:71-160 | writers that take turns leave the state of the sequential engine |
| `RateLimiter.TokensAreLeastRoom` | cmd/cdf-gateway/main.go:78-95 | the stored number is the least room left in any window that ends now |
| `RateLimiter.RefusedIffWindowFull` | cmd/cdf-gateway/main.go:78-95 | a call is refused exactly when accepting it would give some window, from an earlier or the current call of the key until now, more than burst + rate * length calls |
| `RateLimiter.WindowBound` | cmd/cdf-gateway/main.go:57-95 | in every run no time window admits more than burst + rate * length calls |
| `RateLimiter.AllowedFromCounts` | cmd/cdf-gateway/main.go:78-95 | the count used above is the number of allowed calls from a position on |
| `RateLimiter.AllowedWithinCounts` | cmd/cdf-gateway/main.go:78-95 | the count used above is the number of allowed calls at times in the window |
| `RateLimiter.TokensInRange` | cmd/cdf-gateway/main.go:65-95 | tokens stay between 0 and burst |
| `RateLimiter.TokenBucket.Decide` | cmd/cdf-gateway/main.go:87-94 | allowed exactly when a whole token is there; the stored number afterwards is that of the extended history |
| `RateLimiter.RateLimiter.Allow` | cmd/cdf-gateway/main.go:78-95 | allowed exactly when no window of the key's calls is full; records the call, and leaves the history of all other keys |
| `Text.Index` | cmd/cdf-router/main.go:128 | the first position of a match, None exactly when there is none |
| `Text.UpperAlphabet` | cmd/cdf-router/main.go:125 | the 26 lower-case letters become their capitals, and every character outside a to z stays |
| `Text.SplitLaw` | cmd/cdf-router/main.go:142-153 | the pieces with the separator between them are the text again, and no piece contains the separator |
| `Text.DecimalRoundTrip` | cmd/cdf-router/main.go:170 | scanning a printed 64-bit number gives it back |
| `Text.IndexInJoin` | cmd/cdf-router/main.go:128 | in words separated by blanks the first match of a word lies in the first word that contains it |
| `Text.FieldsOfJoin` | cmd/cdf-router/main.go:156 | splitting joined words gives the words back |
| `Cql.ParseCQL` | cmd/cdf-router/main.go:122-175 | the statements fill the query as the clause functions say |
| `Cql.PrintedWords` | cmd/cdf-unified/main.go:255-398 | the three printed texts are their words with single blanks |
| `Cql.RoundTrip` | cmd/cdf-router/main.go:122-175 | for any ASCII table name without a blank, a trimmed end or a hidden keyword, parsing the text printed for scan, vector search and text search gives back `*`, the table, the embedding condition where there is one, the limit, and no vector clause |
| `Cql.ReadBackIff` | cmd/cdf-router/main.go:122-175 | any ASCII table name is read back for all limits if and only if it is not empty, has no blank, is not changed by trimming, and hides neither WHERE nor LIMIT |
| `CqlStatements.ColumnsRead` | cmd/cdf-router/main.go:137-146 | column names joined by commas and blanks come back one by one, in order |
| `CqlStatements.ConditionsRead` | cmd/cdf-router/main.go:148-163 | of any number of conditions joined by AND, each gives its column and operator, in order, whatever words follow the last |
| `CqlStatements.StatementRead` | cmd/cdf-router/main.go:122-175 | a text of any columns, a table, any number of conditions and a limit, its keywords in any mixture of cases, is read as exactly those; the names hide no keyword |
| `CqlStatements.ExampleRead` | cmd/cdf-router/main.go:228 | the text that the router parses at its start gives its two columns, table, condition and limit |
| `Router.ShardRouter.RegisterShard` | cmd/cdf-router/main.go:83-87 | sets one address and no other |
| `Router.ShardRouter.RouteQuery` | cmd/cdf-router/main.go:89-120 | an error exactly when no shard is registered; otherwise the addresses of the registered target shards, each once, in some order |
| `Router.PublishedHashes` | cmd/cdf-router/main.go:177-184 | the hash has the published 64-bit FNV-1a values |
| `Router.OneCharacterApart` | cmd/cdf-router/main.go:177-184 | names that differ in one character have hashes that differ in their last byte |
| `Router.OwnerOnly` | cmd/cdf-router/main.go:100-120 | without vector clause the node of shard hash mod n alone, and no node at all when that number is not registered |
| `Router.BroadcastReachesAllIff` | cmd/cdf-router/main.go:105-119 | with a vector clause every registered shard is asked if and only if they are numbered 0 to n - 1 |
| `Router.ParsedReachesAllIff` | cmd/cdf-router/main.go:89-175 | a query parsed from text reaches all registered shards if and only if shard 0 is the only one |
| `Router.SearchesStayOnOwner` | cmd/cdf-router/main.go:89-175 | scan, vector search and text search of such a table, printed, parsed and routed, go to the same nodes: its owner |
| `TemporalIndex.AtMostIsRank` | crates/cdf-common/src/temporal.rs:9-13 | timestamps are ordered by seconds, then nanoseconds, and the order is antisymmetric |
| `TemporalIndex.LaterIs` | crates/cdf-common/src/temporal.rs:9-13 | a later second comes later whatever the nanoseconds, and within a second the later nanosecond does |
| `TemporalIndex.TemporalIndex.Insert` | crates/cdf-temporal/src/lib.rs:22-31 | both maps describe the insertion log extended by the record |
| `TemporalIndex.TemporalIndex.UpTo` | crates/cdf-temporal/src/lib.rs:56-59 | the entries up to a time, by ascending time and then insertion order |
| `TemporalIndex.TemporalIndex.QueryAsOfValid` | crates/cdf-temporal/src/lib.rs:54-60 | each record that began by t once, by start and then insertion |
| `TemporalIndex.TemporalIndex.QueryAsOfTransaction` | crates/cdf-temporal/src/lib.rs:62-69 | each record recorded by t once, by transaction time and then insertion |
| `TemporalIndex.TemporalIndex.QueryCurrent` | crates/cdf-temporal/src/lib.rs:44-52 | the records of the latest transaction time, in insertion order; nothing only when nothing was inserted |
| `TemporalIndex.TemporalIndex.QueryBitemporal` | crates/cdf-temporal/src/lib.rs:71-81 | the records recorded in time whose number some record that began in time also has, by transaction time and then insertion |
| `TemporalIndex.BitemporalRecords` | crates/cdf-temporal/src/lib.rs:71-81 | with distinct numbers: each record that began by v and was recorded by t, exactly once |
| `TemporalIndex.SamePick` | crates/cdf-temporal/src/lib.rs:71-81 | with distinct numbers two conditions give the same answer exactly when they pick the same records |
| `TemporalIndex.EndsIgnoredIff` | crates/cdf-common/src/temporal.rs:93-95 | the bitemporal answer is the set valid at v exactly when no listed record had ended by then |
| `Probability.DiscreteVarianceIsCentred` | crates/cdf-common/src/prob.rs:73-92 | the mean of squares minus the squared mean is the centred weighted mean of squares |
| `Probability.DiscreteVarianceNonNegative` | crates/cdf-common/src/prob.rs:73-92 | it is not negative for non-negative weights of positive total |
| `Probability.SamplesAreDiscrete` | crates/cdf-common/src/prob.rs:96-101 | samples and equally weighted outcomes have the same mean and variance, computed in two ways |
| `Probability.MomentsOfProduct` | crates/cdf-prob/src/lib.rs:28-29 | total weight and moments of the product distribution are the products of those of the factors |
| `Probability.MulOfDiscrete` | crates/cdf-prob/src/lib.rs:29-46 | what mul computes; the guard against a negative variance is idle |
| `Probability.MulMissesProductOfVariances` | crates/cdf-prob/src/lib.rs:35-39 | the mean is that of the product distribution, the variance is less than the true one by exactly Var(X) Var(Y) |
| `Probability.ProductSpreadOfDiscrete` | crates/cdf-common/src/prob.rs:73-92 | for discrete values E[X^2] E[Y^2] - (E[X] E[Y])^2 is the variance of the product distribution |
| `Probability.MulFallsShort` | crates/cdf-prob/src/lib.rs:29-46 | for any two values of any kind with non-negative variances, the variance is less than that by exactly Var(X) Var(Y), and the mean is the product of the means |
| `Probability.MulExactIff` | crates/cdf-prob/src/lib.rs:35-39 | for any two such values the variance is exact if and only if a factor has variance 0 |
| `Probability.MulOfDiscreteExactIff` | crates/cdf-prob/src/lib.rs:35-39 | the same for discrete values, against their product distribution |
| `Probability.VarianceNonNegative` | crates/cdf-common/src/prob.rs:64-104 | variances are not negative: always for normal values, intervals and samples, for outcomes with non-negative weights, for beta values with non-negative parameters |
| `MomentLaws.RescaleLaw` | crates/cdf-common/src/prob.rs:27-104 | for normal values, intervals, outcomes and samples: f * X + c has mean f * mean + c and variance f * f * variance; without outcomes or samples the mean stays 0 |
| `MomentLaws.CertainLaw` | crates/cdf-common/src/prob.rs:27-104 | a value that can only be x has mean x and variance 0 as a normal value, an interval, outcomes of any weights, or samples |
| `MomentLaws.StandardLaw` | crates/cdf-common/src/prob.rs:27-104 | one value of each of these kinds with mean 0 and variance 1 |
| `MomentLaws.WidthTable` | crates/cdf-common/src/prob.rs:131-141 | the width of an interval in standard deviations, by ranges of its confidence |
| `MomentLaws.PoolingLaw` | crates/cdf-common/src/prob.rs:31-92 | mean and mean square of pooled outcomes are the weighted means of those of the parts |
| `MomentLaws.BetaMeanMoves` | crates/cdf-common/src/prob.rs:52 | the mean of a beta value rises with alpha and falls with beta |
| `MomentLaws.BetaLaw` | crates/cdf-common/src/prob.rs:93-95 | swapping alpha and beta mirrors the mean and keeps the variance, which is m (1 - m) / (alpha + beta + 1) |
| `MomentLaws.MulOfNormals` | crates/cdf-prob/src/lib.rs:29-46 | for two normal values: mean m1 m2, variance m1^2 s2^2 + m2^2 s1^2 |
| `MomentLaws.MulCommutes` | crates/cdf-prob/src/lib.rs:29-46 | the order of the factors does not matter |
| `MomentLaws.MulOfSample` | crates/cdf-prob/src/lib.rs:32-33 | a single sample, which has no variance, multiplies like a certain value |
| `Cosine.CauchySchwarz` | crates/cdf-common/src/vector.rs:43-64 | the squared dot product is at most the product of the squared norms, for vectors of any lengths |
| `Cosine.ClampIsIdle` | crates/cdf-common/src/vector.rs:43-52 | the quotient lies in [-1, 1], so the clamp returns it unchanged |
| `Cosine.DotOfSelf` | crates/cdf-common/src/vector.rs:44-64 | the dot product of a vector with itself is its squared norm |
| `Cosine.DotCommutes` | crates/cdf-common/src/vector.rs:62-64 | the dot product is symmetric, for vectors of any lengths |
| `Cosine.DotIsLinear` | crates/cdf-common/src/vector.rs:62-64 | it is linear in the first argument, and so, being symmetric, in both |
| `Cosine.SimilarityLaws` | crates/cdf-common/src/vector.rs:43-52 | similarity is mutual, 1 for a vector with itself unless it is zero, and 0 for a zero vector |

## Left out

- IEEE floating point, NaN and square roots: distances, tokens, times and moments are reals; a norm or a standard deviation appears through its square.
- `random_level` probabilities and `ml`: the level of a node is a parameter.
- The order of equal distances inside the binary heaps and in the final sort: any choice is allowed.
- Hnsw.HnswIndex.Insert: requires a live entry point, because the source panics without one; inserting an id that is already present is covered by the step contract only, not by the graph invariant.
- `edge_props` of the graph, which are stored but never read; counters and the capacity signal of the memory table, whose flush does nothing.
- Frozen memory tables: nothing fills them, so reading them finds nothing. Segments, flushing, compaction and `rotate` are not modelled.
- `fsync` and I/O errors: the log file is a byte string, and a crash leaves a prefix of it.
- Wal.WriteAheadLog.Append: requires that the 64-bit counter is not exhausted.
- Codec.ValueRoundTrip: the fields of a row are one opaque byte string behind its id, and the timestamps of a tombstone are not part of this model.
- UTF-8 checks of table names; keys, values and entries have the fixed-width little-endian layout of the serializer.
- TableScan.ScanExactIff: with a key of another table that begins with the scanned name and a NUL byte, what the scan returns is determined by its contract but not compared with get.
- Readers that run concurrently with writers, and memory ordering of the atomics: steps are atomic and sequentially consistent.
- RateLimiter.WindowBound: assumes that the clock does not run backwards and that rate and burst are not negative.
- Cql.ParseCQL: upper case, blanks and positions are those of ASCII text, in which a byte is a character.
- CqlStatements.StatementRead: requires ASCII text with single blanks, and names and terms in which no keyword is hidden.
- Cql.ReadBackIff: requires an ASCII name. The source finds LIMIT in the upper case of a name spelled with dotless i, and cuts by bytes.
- The query texts for insert, get, update, delete and table operations.
- `add` and `weighted_avg` of uncertain values, and `is_confident`: not modelled. Outcome texts are parsed to numbers before the model.
- Probability.MulExactIff: requires known, non-negative variances; a beta value whose formulas divide by zero, which the source turns into NaN or infinity, is not a value of the model.
- HTTP and gRPC handlers, authentication, health probes, the client libraries and the Python services: plumbing without an algorithm.

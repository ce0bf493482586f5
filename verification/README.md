# Verification of the n-level contraction engine of Mt-KaHyPar

Mt-KaHyPar partitions hypergraphs by contracting them node by node, partitioning the small rest, and undoing
the contractions while the partition is improved. Everything on the way is changed in place and has to be
given back exactly. This project models that engine and the move protocol on top of it, and proves:

- **The contractible graph** (`AdjacencyArray` and the modules below it). Edges live in slices, the slices of
  a cluster are linked into circles, and the non-empty ones into iterator lists. After any sequence of contractions the
  array is the quotient of the original graph; removing single-pin and parallel edges permutes edge ids along cycles and
  leaves a simple graph of the same pair weights; any history of both is undone to the identical array. When the
  iterator lists survive that is stated exactly.
- **The contractible hypergraph** (`IncidentNetArray`, `PinLists`, `ParallelDetection`, `DynamicHypergraph`).
  Pins per net and nets per node agree in every state of every coarsening; the incremental net hashes are exact, so
  hashing finds all parallel nets and no others.
- **Batch uncontraction** (`ContractionOrder`, `BatchUncontraction`, `UncontractionSteps`, `UncontractionSchedule`).
  Contractions are not undone in the order in which they were made, but batch by batch, and within a batch in any
  order. Which contractions may change places, what the hypergraph is between two batches, and that any coarsening,
  undone by batches in the order of the schedule, ends in the hypergraph before its first step.
- **The contraction protocol** (`ContractionRuns`, `ContractionOutcomes`, `StaleContraction`, `ContractionTree`,
  `FixedVertices`, `LockOrder`): any number of threads register and execute contractions in any interleaving. Which
  contractions are registered, accepted and given up, on weights, counts and blocks; where the tree stays consistent,
  where it does not, and that no reachable state is a lock deadlock.
- **The batch schedule** (`Finalize`, `BatchSchedule`, `ScheduleOrder`, `BatchAssigner`, `FirstOpenBatch`,
  `HighWaterMark`, `BatchThreads`, `BatchFilling`): from parent pointers to batches, filled by threads in any
  interleaving of their steps with those of the shared assigner. The slots hold every contraction of a version exactly
  once, in an order in which they can be undone; large subtrees come first, and no request misses an open batch.
- **Moves** (`GraphMoves`, `MoveOutcomes`): the gains attributed by racing moves add up to the change of the cut,
  accepted weights respect the block limits in every interleaving, and exactly the moves that fit are carried out.
- **Thread-local views and queues** (`DeltaPartition`, `DeltaConnectivity`, `AddressableHeap`): overlays that read
  like full copies, and a heap that refines a map from ids to keys.

Classes follow the objects of the source; each of their methods is tied to a function on a value that stands for
the whole object (`G()`, `A()`, `H()`, `View()`, `D()`, `M()`), and the lemmas speak about these functions.
Concurrent protocols are step relations: a run is a sequence of actions of any number of threads.

## Findings

Four properties that the code or its comments suggest do not hold for all inputs. For each the project has a
concrete input and the exact condition under which the property holds.

- **Two threads can contract a pair that is no longer registered.** `contract` reads the parent of a node
  without a lock and does not look at it again before it accepts a contraction
  (mt-kahypar/datastructures/dynamic_hypergraph.cpp:66-86, 554-563). With fixed vertices a thread can add a
  large weight to a block and take it back (fixed_vertex_support.cpp:80-100 in the same directory); another thread
  that looks in between gives its contraction up and cuts the node loose, and a third request, which had read the
  parent before, contracts it all the same. The node ends disabled without a parent, and the pending count of its
  former parent is negative. `StaleContraction.UnregisteredPairContracted` is such a run for every number of threads
  from two on; `StaleContraction.InOrderExactlyForOneThread` states that the tree is always in order exactly with at
  most one thread; `ContractionRuns.TreeAlwaysConsistent` adds that with any number of threads it is in order if nothing
  is fixed or every block has room for all nodes; and `ContractionRuns.KeepsExactlyIfConfirmed` that a look at
  the parent would be enough. The run registers three pairs before the first request, and one thread asks for a node
  before another one whose contraction has to come first; the public calls allow this. The n-level coarsener requests
  every contraction right after it was registered (mt-kahypar/partition/coarsening/nlevel/nlevel_coarsener.h:205-208);
  there the same steps need a third thread, which registers in between.
- **Restoring removed edges can lose iterator lists.** The iterator list of a head is built anew only if an edge came
  back that is not disabled (mt-kahypar/datastructures/dynamic_adjacency_array.cpp:446-478). If a list that the removal
  emptied holds only disabled edges it stays out, and `verifyIteratorPointers` (652-683) no longer holds.
  `AdjacencyArray.LoseIteratorList` is a run of two contractions, a removal and its restoration after which this is so;
  `AdjacencyArray.DynamicAdjacencyArray.RestoreSinglePinAndParallelEdges` and `EdgeIterators.LinkedExactlyIfKept` state
  that the lists are right exactly if every head gets an edge back that is not disabled or has no list, its own aside,
  with only disabled edges; `EdgeIterators.AdjacentContractionsKeep` that this holds whenever nodes were contracted only
  into nodes they shared an edge with.
- **Edge records are believed again after 2^32 version changes.** The version of an edge record has 32 bits
  (mt-kahypar/datastructures/partitioned_graph.h:144-155, 771-775). `GraphMoves.ExactUntilVersionsWrap`: all runs
  with n version changes attribute exactly the change of the cut if and only if n is below 2^32.
- **Pin counts of the thread-local partition can share an entry.** The key `e * _k + p` is computed in the
  width of a net id, 32 bits by default (mt-kahypar/datastructures/delta_partitioned_hypergraph.h:258, 331, 337;
  the shared connectivity sets widen first). `DeltaPartition.ExactExactlyIfKeysFit`: local moves read like a full copy
  for all hypergraphs with n nets and k blocks if and only if n * k is at most 2^32.

## Model

| member | source | states |
|---|---|---|
| AdjacencyArray.Construct | mt-kahypar/datastructures/dynamic_adjacency_array.cpp:145-228 | edges with equal ends or unknown nodes are rejected; otherwise counting degrees and scattering stores every edge in the slices of both ends with mutual back edges, and nothing else, in a valid array in which every node is its own head: the start state of all runs below |
| AdjacencyArray.DynamicAdjacencyArray.Contract | mt-kahypar/datastructures/dynamic_adjacency_array.cpp:230-258 | in place, walking the circle of v and rewriting both ends of every active edge, the array becomes the value `Contracted` of the old one, and the whole invariant (circles, involution of back edges, ends at heads) is kept, and so are right iterator lists |
| QuotientGraph.RunIsQuotient | mt-kahypar/datastructures/dynamic_adjacency_array.cpp:230-258 | after any sequence of contractions from a fresh array every edge is the original one with both ends replaced by their clusters, edges inside a cluster are loops or disabled, and degrees count the valid edges |
| QuotientGraph.QuotientCircle | mt-kahypar/datastructures/dynamic_adjacency_array.cpp:571-621 | in such a state the circle of a head is exactly its cluster, its degree the number of its valid edges, and every edge leaving the cluster is among them |
| QuotientGraph.UncontractRestores | mt-kahypar/datastructures/dynamic_adjacency_array.cpp:260-322 | every contraction can be undone, and undoing it gives back sources, targets, degrees, heads, representatives and circles |
| AdjacencyArray.DynamicAdjacencyArray.Uncontract | mt-kahypar/datastructures/dynamic_adjacency_array.cpp:268-322 | in place the array becomes the value `Uncontracted`; right iterator lists stay right, through the search for the live neighbours of the stretch, the bridge between them and the relinking of v; the edges reported are exactly those that go back to v, each once, those that join u and v again apart from the others |
| QuotientGraph.UncontractReports | mt-kahypar/datastructures/dynamic_adjacency_array.cpp:286-315 | right after a contraction these are the edges from v to u, and the edges from v to third nodes |
| AdjacencyArray.DynamicAdjacencyArray.IncidentEdges | mt-kahypar/datastructures/dynamic_adjacency_array.cpp:36-95 | with right iterator lists the iterator of a head yields every edge of its cluster that is not disabled, each once, and ends |
| AdjacencyArray.DynamicAdjacencyArray.RemoveSinglePinAndParallelEdges | mt-kahypar/datastructures/dynamic_adjacency_array.cpp:324-415 | marking, swapping and the mapping of back edges in place produce exactly the permuted graph `Removed`, which is valid again; the returned records name every moved edge; all iterator lists are right afterwards, whatever they were |
| AdjacencyArray.DynamicAdjacencyArray.PermutationSource | mt-kahypar/datastructures/dynamic_adjacency_array.cpp:560-569 | following the mapping from a slot ends, and ends at the inverse image of the slot, although entries of slots dealt with already hold other data |
| EdgePermutation.RemovedValid | mt-kahypar/datastructures/dynamic_adjacency_array.cpp:324-415 | the graph after the removal is valid: back edges are an involution, kept edges are closed under it, all ends are heads |
| EdgePermutation.RemovedIsSimple | mt-kahypar/datastructures/dynamic_adjacency_array.cpp:339-396 | no single-pin edge is left, and at most one edge from any head to any other |
| EdgePermutation.SmallestIdStays | mt-kahypar/datastructures/dynamic_adjacency_array.cpp:346-371 | a live edge stays if and only if its ends differ and no live edge with the same ends has a smaller id, where an edge and its back edge count as one id |
| EdgePermutation.WeightConserved | mt-kahypar/datastructures/dynamic_adjacency_array.cpp:339-396 | for every ordered pair of heads the total weight of the edges between them is the same after the removal |
| EdgePermutation.RemovedDegrees | mt-kahypar/datastructures/dynamic_adjacency_array.cpp:339-396 | degrees count the remaining edges |
| AdjacencyArray.DynamicAdjacencyArray.RestoreSinglePinAndParallelEdges | mt-kahypar/datastructures/dynamic_adjacency_array.cpp:417-485 | restoring from the returned records gives back source, target, weight and back edge at every id, the bounds of active edges and all degrees: the array is the old one; the iterator lists are right exactly if every head keeps its own |
| EdgeIterators.LinkedExactlyIfKept | mt-kahypar/datastructures/dynamic_adjacency_array.cpp:446-478 | for every graph, removal and restoration: the iterator lists are right if and only if every head gets an edge back that is not disabled or has no list, its own aside, with only disabled edges |
| EdgeIterators.AdjacentContractionsKeep | mt-kahypar/datastructures/dynamic_adjacency_array.cpp:230-258 | after any sequence of contractions of nodes into nodes they share an edge with, since the last removal, every head meets that condition |
| EdgeIterators.ListsOfOneEdgeLost | mt-kahypar/datastructures/dynamic_adjacency_array.cpp:446-478 | three nodes, one edge and two contractions after which a head does not |
| EdgeIterators.LostListMisleads | mt-kahypar/datastructures/dynamic_adjacency_array.cpp:594-621 | a lost list right before a stretch that is cut out: the pointer of the last linked list before it keeps leading into what was cut out |
| AdjacencyArray.LoseIteratorList | mt-kahypar/datastructures/dynamic_adjacency_array.cpp:417-485 | the array itself, constructed, contracted twice, its edges removed and restored: valid, but with wrong iterator lists |
| AdjacencyArray.DynamicAdjacencyArray.Uncoarsen | mt-kahypar/datastructures/dynamic_adjacency_array.cpp:260-322 | any history of contractions and removals, undone in reverse order, ends in the identical array, and with right iterator lists if every removal keeps them |
| IncidentNetArray.IncidentNetArray.constructor | mt-kahypar/datastructures/incident_net_array.cpp:366-425 | counting and entering pins yields for every node exactly the nets it is a pin of, each once, in a valid array |
| IncidentNetArray.IncidentNetArray.RemoveIncidentNets | mt-kahypar/datastructures/incident_net_array.cpp:169-203 | swapping entries behind the size and shrinking the iterator list removes the flagged nets from every list of the circle as a new version of each list; the iterator list still consists of the head and the non-empty lists |
| IncidentNetArray.IncidentNetArray.Contract | mt-kahypar/datastructures/incident_net_array.cpp:115-133 | removal of the shared nets followed by concatenation of circle and iterator list is the value `Contracted` |
| IncidentNetArray.IncidentNetArray.Uncontract | mt-kahypar/datastructures/incident_net_array.cpp:135-167 | splicing v out and going back one version restores the nets of v, and the callbacks report exactly the nets that stayed and exactly those that came back |
| IncidentNets.UncontractReports | mt-kahypar/datastructures/incident_net_array.cpp:148-265 | right after a contraction these two groups are the nets of v alone and the nets that u and v share |
| IncidentNetArray.IncidentNetArray.IncidentEdges | mt-kahypar/datastructures/incident_net_array.cpp:36-113 | the iterator of a head yields exactly its incident nets, as often as they are listed in its circle, and ends |
| IncidentNets.ContractionMerges | mt-kahypar/datastructures/incident_net_array.cpp:115-133 | when the shared nets are those of both, the contracted node has the nets of both, none of them twice |
| IncidentNets.UncontractRestores | mt-kahypar/datastructures/incident_net_array.cpp:115-167 | undoing a contraction gives back every active net set with all older versions, every circle, head flag and degree |
| IncidentNetArray.IncidentNetArray.UndoAll | mt-kahypar/datastructures/incident_net_array.cpp:115-265 | any history of contractions and removals, undone in reverse order, restores every list, circle, head flag and degree |
| PinLists.ContractPin | mt-kahypar/datastructures/dynamic_hypergraph.cpp:623-662 | one scan moves v behind the valid pins or overwrites it by u, reports whether u was a pin, and keeps the hash equal to the seed plus the sum of the pin hashes modulo 2^64 |
| PinLists.RestoreSizeForBatch | mt-kahypar/datastructures/dynamic_hypergraph.cpp:667-685 | exactly the leading removed pins of the batch become valid again and are reported in order |
| PinLists.BatchRestored | mt-kahypar/datastructures/dynamic_hypergraph.cpp:667-685 | if removed pins are sorted by batch and none is of a later one, these are all removed pins of the batch and no others |
| DynamicHypergraph.DynamicHypergraph.constructor | mt-kahypar/datastructures/dynamic_hypergraph_factory.cpp:40-140 | a hypergraph whose two representations agree, whose nodes are all enabled and whose hashes are exact; every net is enabled with exactly the given pins, none of them removed, and the given weight |
| DynamicHypergraph.DynamicHypergraph.Contract | mt-kahypar/datastructures/dynamic_hypergraph.cpp:535-620 | an accepted contraction: pins of all nets of v, hashes, weights, flags and both lists of incident nets become the value `Contracted`, and pins and incident nets agree again |
| DynamicHypergraph.DynamicHypergraph.StoreBatchIndices | mt-kahypar/datastructures/dynamic_hypergraph.cpp:196-207 | every partner gets the index of its batch, counted on from version to version |
| DynamicHypergraph.DynamicHypergraph.SortRemovedPins | mt-kahypar/datastructures/dynamic_hypergraph.cpp:209-224 | the removed pins of every net are sorted by batch, the last one first, and neither pins nor removed pins change as sets |
| DynamicHypergraph.DynamicHypergraph.Uncontract | mt-kahypar/datastructures/dynamic_hypergraph.cpp:95-164 | a batch of any number of contractions, listed in any order, is undone in place, resizing every shared net once: pin sets, removed pins, incident nets, weights and flags are those before all of them |
| ContractionOrder.ContractionsCommute | mt-kahypar/datastructures/dynamic_hypergraph.cpp:535-620 | contractions of four different nodes may change places: both orders are possible and end in the same hypergraph, versions of incident nets included |
| ContractionOrder.SetApart | mt-kahypar/datastructures/dynamic_hypergraph.cpp:701-720 | of any possible sequence, a set of contractions may be made last if no contraction outside it comes later onto the same representative or takes a representative of the set away |
| BatchUncontraction.SequenceIsBatch | mt-kahypar/datastructures/dynamic_hypergraph.cpp:89-94 | contractions without chains between them leave the state in which all of them are open, each with the nets it shared and had alone |
| BatchUncontraction.UndoInTheMiddle | mt-kahypar/datastructures/incident_net_array.cpp:135-167 | any one of them can be undone, and the incident nets, circles and degrees are then as if it had never been made |
| BatchUncontraction.LastBatch | mt-kahypar/datastructures/dynamic_hypergraph.cpp:701-720 | for every batch of a schedule: in front of it the hypergraph is the one in which only the contractions of the batches not yet undone were made, in their old order, and those of the batch could have been made last |
| BatchUncontraction.AgreesBetweenBatches | mt-kahypar/datastructures/dynamic_hypergraph.cpp:89-94 | between any two batches pins and incident nets agree |
| BatchUncontraction.EarlierSiblingFirst | mt-kahypar/datastructures/dynamic_hypergraph.cpp:710-714 | why siblings are undone in reverse order: v, then w were contracted into u; undoing v first leaves the hypergraph in which only w was contracted if and only if every net of both v and w holds u |
| Hypergraphs.UncontractRestores | mt-kahypar/datastructures/dynamic_hypergraph.cpp:95-164 | on values: undoing any possible contraction right after it is the identity on both representations |
| ParallelNets.AlwaysAgree | mt-kahypar/datastructures/dynamic_hypergraph.cpp:488-524 | in every state of every sequence of contractions and net removals an enabled node is a pin of an enabled net exactly if the net is among its incident nets, no net is listed twice, pins are enabled and degrees exact |
| DynamicHypergraph.DynamicHypergraph.RemoveSinglePinAndParallelHyperedges | mt-kahypar/datastructures/dynamic_hypergraph.cpp:231-330 | sorting pins, hashing into buckets, comparing neighbours with the early break, disabling and removing from all incident lists produce the value `SimplifiedGraph` for every assignment of hashes to buckets; the list names every removed net once with the net that took over its weight |
| ParallelNets.SimplifiedIsSimple | mt-kahypar/datastructures/dynamic_hypergraph.cpp:231-330 | all enabled nets have at least two pins and pairwise different pin sets |
| ParallelNets.SmallestIdStays | mt-kahypar/datastructures/dynamic_hypergraph.cpp:288-316 | a net is enabled afterwards if and only if it was, has more than one pin, and no enabled net of smaller id has the same pins; no pins change, and a net that goes keeps its weight |
| ParallelNets.RepresentativeStays | mt-kahypar/datastructures/dynamic_hypergraph.cpp:288-316 | in the returned list a net with one pin has no representative, and every other one names the enabled net of smallest id with its pins |
| ParallelNets.WeightConserved | mt-kahypar/datastructures/dynamic_hypergraph.cpp:288-316 | the total weight of the enabled nets with any given set of at least two pins is unchanged |
| ParallelDetection.SameHash | mt-kahypar/datastructures/dynamic_hypergraph.cpp:238-254 | nets with the same pins have the same footprint, so no parallel net escapes the comparison within buckets |
| DynamicHypergraph.DynamicHypergraph.RestoreSinglePinAndParallelNets | mt-kahypar/datastructures/dynamic_hypergraph.cpp:337-359 | enabling the listed nets, in the order of the list, and taking their weights back restores all nets, weights, incident lists and degrees |
| DynamicHypergraph.DynamicHypergraph.UncoarsenVersion | mt-kahypar/datastructures/dynamic_hypergraph.cpp:95-164 | any possible sequence of contractions, undone by any batches that meet the order conditions of the schedule, ends in the hypergraph before the first of them |
| DynamicHypergraph.DynamicHypergraph.Uncoarsen | mt-kahypar/datastructures/dynamic_hypergraph.cpp:166-175 | any coarsening of several versions, contractions and net removals in turn, undone version by version and batch by batch, ends in the hypergraph before the first step |
| ContractionRuns.KeepsExactlyIfConfirmed | mt-kahypar/datastructures/dynamic_hypergraph.cpp:535-620 | an action keeps forest, pending counts and node flags in order if and only if an accepted contraction is still the registered one |
| ContractionRuns.TreeAlwaysConsistent | mt-kahypar/datastructures/contraction_tree.h:377-479 | in every reachable state, with one thread, or nothing fixed, or room for all nodes in every block: parents form a forest, pending counts equal the enabled children plus running merges, disabled nodes wait for nothing and have disabled children, versions do not decrease upwards, enabled weight is constant, block books are exact, and every node has its first weight or one within the maximum node weight |
| ContractionRuns.WeightsStayOk | mt-kahypar/datastructures/dynamic_hypergraph.cpp:554-566 | in every run of any number of threads, without any condition, no node outweighs the larger of its first weight and the maximum node weight |
| ContractionOutcomes.DecisionOnValues | mt-kahypar/datastructures/dynamic_hypergraph.cpp:535-620 | in any state of any run, the decision about a pair, on values: it is contracted if and only if the weights fit, the partner is enabled and waits for nothing, and the blocks are free, equal, or have room for the node that becomes fixed; the exact condition also for each other outcome |
| ContractionOutcomes.DecisionEffect | mt-kahypar/datastructures/dynamic_hypergraph.cpp:563-616 | what each outcome changes in weights, flags, parents, versions and counts, and that it changes nothing else |
| ContractionOutcomes.RegistrationOnValues | mt-kahypar/datastructures/contraction_tree.h:377-463 | a registration in a run is made if and only if v has no parent and is not above u; the parent is the ancestor of u below which all are no roots and wait for nothing, and which is a root or waits; otherwise nothing changes |
| ContractionOutcomes.VersionsTellApart | mt-kahypar/datastructures/dynamic_hypergraph.cpp:329-329 | contractions registered before and after n changes of version carry versions that differ by n |
| ContractionOutcomes.CallsGoOn | mt-kahypar/datastructures/dynamic_hypergraph.cpp:66-86 | in every reachable state, with any fixed vertices and limits, a call in progress can take its next step, or a thread that holds one of its nodes can |
| ContractionRuns.NoContractionIsLost | mt-kahypar/datastructures/dynamic_hypergraph.cpp:66-86 | under the same condition, when every registered contraction was requested and all calls returned, nothing is pending and every enabled node is a root |
| ContractionRuns.FixedWeightWithinLimit | mt-kahypar/datastructures/fixed_vertex_support.cpp:45-121 | with any number of threads and any limits the accepted weight of a block stays within its limit, although weights are added before the test and rolled back |
| StaleContraction.UnregisteredPairContracted | mt-kahypar/datastructures/dynamic_hypergraph.cpp:535-620 | for every n of at least 2 a run of n threads that contracts an unregistered pair: a disabled root and a negative pending count |
| StaleContraction.InOrderExactlyForOneThread | mt-kahypar/datastructures/dynamic_hypergraph.cpp:535-620 | all runs of n threads from all starts with all limits leave the tree in order if and only if n is at most 1 |
| ContractionTreeObject.ContractionTree.RegisterContraction | mt-kahypar/datastructures/contraction_tree.h:377-463 | the two walks accept exactly the registrations of nodes without a parent that close no cycle; v is then entered below the first ancestor of u, u included, that is a root or waits: all ancestors passed are neither; one pending count grows by one, and nothing else changes |
| ContractionForest.OnlyRepresentative | mt-kahypar/datastructures/contraction_tree.h:387-398 | this determines the representative: no other ancestor is a root or waits with all those passed being neither |
| ContractionTreeObject.ContractionTree.Attempt | mt-kahypar/datastructures/dynamic_hypergraph.cpp:535-620 | on values: contracted if and only if the partner is enabled, waits for nothing, both weights together are within the maximum node weight and the fixed vertices permit it; too heavy, forbidden and pending under exactly their conditions; and for each result the new parents, versions, counts, weights and flags |
| ContractionTreeObject.AttemptIsRun | mt-kahypar/datastructures/dynamic_hypergraph.cpp:535-620 | an attempt of the sequential object is a run of the concurrent protocol by a thread that is alone |
| ContractionTreeObject.ResultOnValues | mt-kahypar/datastructures/dynamic_hypergraph.cpp:553-616 | the four results on weights, counts and blocks, each with an equivalence |
| ContractionTreeObject.ContractionTree.Contract | mt-kahypar/datastructures/dynamic_hypergraph.cpp:66-86 | climbing ends, returns the number of contracted nodes, leaves the requested node not ready, makes no other node ready, and leaves the tree and books that the recursive climb `Climbed` describes |
| ContractionTreeObject.RequestOnValues | mt-kahypar/datastructures/dynamic_hypergraph.cpp:66-86 | after a request the requested node is disabled if and only if it was enabled with a parent, waited for nothing, fitted and was permitted; it is cut loose if and only if it did not fit or was forbidden while it waited for nothing |
| ContractionTreeObject.ClimbOnWeights | mt-kahypar/datastructures/dynamic_hypergraph.cpp:66-86 | with nothing fixed, every registration above the requested node that the climb gives up exceeds the maximum node weight together with the parent, and every one it carries out is within it |
| FixedVertices.ContractedValid | mt-kahypar/datastructures/fixed_vertex_support.cpp:45-121 | an accepted contraction keeps the books: block weights are the weights of the enabled nodes fixed to them, counts are own fixing plus fixed children, the total is the sum |
| FixedVertices.UncontractRestores | mt-kahypar/datastructures/fixed_vertex_support.cpp:123-157 | uncontracting right after an accepted contraction gives back blocks, counts, fixed weights and block weights |
| FixedVertices.FixedVertexSupport.ContractImpl | mt-kahypar/datastructures/fixed_vertex_support.cpp:45-121 | with and without chains: accepted if and only if both nodes are in the same block or both free, or exactly one is fixed and its block has room for the weight of the other; what changes in each case, blocks, counts, fixed weights, block weights and total, with the block of v left alone if v is ignored; a refused one leaves everything as it was |
| FixedVertices.AcceptedExactly | mt-kahypar/datastructures/fixed_vertex_support.cpp:60-106 | the same condition for the test that the runs use, and that it is refused without a test of weights exactly for two different blocks |
| FixedVertices.FixedVertexSupport.UncontractAll | mt-kahypar/datastructures/fixed_vertex_support.cpp:123-157 | any history of accepted contractions, undone in reverse order, gives back all blocks, counts and weights |
| FixedVertices.FixedVertexSupport.FixToBlock | mt-kahypar/datastructures/fixed_vertex_support.h:114-135 | fixing a free node keeps the books; fixing a fixed one changes nothing |
| LockOrder.NoDeadlock | mt-kahypar/datastructures/contraction_tree.h:377-463 | in every reachable state of any number of registrations and contractions with a call in progress, some acquisition or other step is possible; node locks, net locks and the locks inside the fixed vertices (fixed_vertex_support.cpp:55-110) included |
| LockOrder.WaitsUpwards | mt-kahypar/datastructures/contraction_tree.h:380-461 | a node lock is awaited only while holding node locks of smaller id, also where two locks are released and taken again; the lock of the fixed-vertex data of a node only while holding node locks, and its holder waits for nothing |
| LockOrder.ExitsReleaseAll | mt-kahypar/datastructures/contraction_tree.h:377-463 | when all calls have returned no lock is taken |
| LockOrder.MutualExclusion | mt-kahypar/datastructures/contraction_tree.h:377-463 | in no reachable state do two threads hold the same lock |
| LockOrder.CallsCanBeMade | mt-kahypar/datastructures/dynamic_hypergraph.cpp:535-620 | whatever locks the others hold: a contraction with any nets, rejected or accepted, with or without a look at fixed vertices, and a registration with any representative (contraction_tree.h:377-463 in the same directory) can be made to its end, taking exactly these locks in this order, if they are free |
| Finalize.FinalizeTree | mt-kahypar/datastructures/contraction_tree.cpp:62-175 | from any forest: every child is in the list of its parent once, sorted by version and decreasing interval end; the roots of version i are exactly the nodes of larger version with a child of version i, each once; subtree sizes count the proper descendants |
| Finalize.SubtreeSizeCounts | mt-kahypar/datastructures/contraction_tree.cpp:141-174 | the size that the two-visit search adds up, a sum over children, is the number of proper descendants |
| Finalize.SearchFrom | mt-kahypar/datastructures/contraction_tree.cpp:141-174 | the search with an explicit stack ends; the root and everything below it have their final size, and nodes that were not reached are untouched |
| Finalize.RootIsCollected | mt-kahypar/datastructures/contraction_tree.cpp:120-139 | the root below which a contraction is scheduled is among the roots collected for its version |
| BatchSchedule.IntersectTestIsExact | mt-kahypar/datastructures/contraction_tree.cpp:368-377 | the interval test holds exactly for intervals with a common point |
| BatchSchedule.ScheduleThread | mt-kahypar/datastructures/contraction_tree.cpp:360-502 | one thread assigns exactly the contractions of the version below its roots, each once; a representative contracted in that version comes in a strictly earlier batch than its partners; siblings with intersecting intervals share a batch and a sibling contracted strictly earlier is never in an earlier batch |
| ScheduleOrder.LargestFirst | mt-kahypar/datastructures/contraction_tree.cpp:405-458 | whatever the assigner answers: groups come level by level; of two groups of a level the one chosen first starts with the larger subtree if the other could have been chosen then; a group is a stretch of siblings each of which meets one before it, and the next sibling meets none of them |
| ScheduleOrder.ThreadsLargestFirst | mt-kahypar/datastructures/contraction_tree.cpp:399-472 | the same for every thread in every interleaving of scheduling threads and their requests |
| BatchAssigner.AssignmentsTile | mt-kahypar/datastructures/contraction_tree.h:74-148 | under all interleavings of requests the ranges of a batch are disjoint and tile its size, base positions are below the maximum, and the used batches have no gap |
| BatchAssigner.BatchIndexAssigner.GetBatchIndex | mt-kahypar/datastructures/contraction_tree.h:74-102 | the search starts at the high-water mark if the request is not above it, and at the requested batch otherwise; the request gets the end of the first batch from there on that is not full, all batches passed being full, the mark follows if the search began there, and nothing else changes |
| FirstOpenBatch.FirstOpen | mt-kahypar/datastructures/contraction_tree.h:74-102 | in the runs, whatever other threads do during the search: all batches from its start up to the batch in which it finds a place are full |
| HighWaterMark.NoOpenBatchMissed | mt-kahypar/datastructures/contraction_tree.h:74-102 | in every run of any number of threads all batches from the requested one up to the one with the place are full, although the search starts at the mark: a batch below the mark that is not full lies behind all threads |
| HighWaterMark.GroupsFillBatches | mt-kahypar/datastructures/contraction_tree.cpp:444-472 | the same in the runs of the threads that schedule a version |
| BatchAssigner.BatchIndexAssigner.NumberOfNonEmptyBatches | mt-kahypar/datastructures/contraction_tree.h:104-119 | searching down or up from the high-water mark finds exactly the number of used batches |
| BatchAssigner.BatchIndexAssigner.Reset | mt-kahypar/datastructures/contraction_tree.h:121-132 | resetting that many batches makes the assigner indistinguishable from a new one |
| BatchAssigner.BatchIndexAssigner.ValidAfterThreads | mt-kahypar/datastructures/contraction_tree.h:74-148 | once all requests have returned, whatever their interleaving, the two above apply to the object |
| BatchThreads.StepKeeps | mt-kahypar/datastructures/contraction_tree.cpp:387-472 | every step of a thread or of a request, in any state of any number of threads: the answers the threads hold are exactly the ranges handed out, each once, none below its request, and what is left fits into the assigner |
| BatchThreads.NeverStuck | mt-kahypar/datastructures/contraction_tree.cpp:387-472 | in every such state each thread is done or can take its next step: no request exceeds the assigner and no probe leaves its arrays |
| BatchFilling.EachContractionOnce | mt-kahypar/datastructures/contraction_tree.cpp:360-502 | however the roots of a version are split over threads, together they list every contraction of the version exactly once |
| BatchFilling.BatchesHoldTheVersion | mt-kahypar/datastructures/contraction_tree.cpp:360-502 | however the steps of the threads and of their requests are interleaved, in the end the slots of the batches hold the contractions of the version, each exactly once, in an order in which they can be undone, and no slot is empty |
| UncontractionSchedule.WriteBatches | mt-kahypar/datastructures/contraction_tree.cpp:475-502 | every entry of every thread is in its slot of the reversed vector of batches |
| UncontractionSchedule.FilledCanBeUndone | mt-kahypar/datastructures/dynamic_hypergraph.cpp:175-229 | the whole way: after any interleaving the written and stored batches of a version list its contractions without repetition and in an order in which the hypergraph can be uncoarsened by them |
| UncontractionSchedule.LostBefore | mt-kahypar/datastructures/dynamic_hypergraph.cpp:196-207 | pins that a net had lost before a version are partners of earlier batches, so that sorting by batch puts them behind |
| GraphMoves.ReportedPinCountsAreExact | mt-kahypar/datastructures/partitioned_graph.h:1191-1230 | both pin counts reported by a synchronization are those of the edge right after the move in the order of its lock |
| GraphMoves.ReportedCutIsExact | mt-kahypar/datastructures/partitioned_graph.h:1114-1230 | for any number of threads and any interleaving the attributed cut changes add up to cut(final) minus cut(initial) at quiescence |
| GraphMoves.AcceptedWeightWithinLimit | mt-kahypar/datastructures/partitioned_graph.h:1114-1161 | if blocks start within their limits, accepted weight never exceeds a limit, whatever is booked and rolled back, and at quiescence every counter is the weight of its block |
| MoveOutcomes.AloneExactlyIfFits | mt-kahypar/datastructures/partitioned_graph.h:1114-1161 | however a thread that is alone finishes a move: if the weight of the target block and of the node together are within the limit, the node is in that block and its weight has moved from the one counter to the other, and otherwise the state is the one before |
| MoveOutcomes.AloneFinishes | mt-kahypar/datastructures/partitioned_graph.h:1114-1161 | such a thread can always ask, and finishes |
| MoveOutcomes.DecidedByBooking | mt-kahypar/datastructures/partitioned_graph.h:1120-1152 | whatever other threads do in between: a thread goes on if and only if the counter right after its own booking is within the limit, and can only give up otherwise |
| GraphMoves.ExactUntilVersionsWrap | mt-kahypar/datastructures/partitioned_graph.h:771-775 | all runs with n version changes report exactly if and only if n is below 2^32 |
| DeltaPartition.DeltaPartitionedHypergraph.ChangeNodePart | mt-kahypar/datastructures/delta_partitioned_hypergraph.h:190-224 | accepts exactly the moves that respect the limit; if the keys fit, the view becomes the full copy after the move, connectivity sets are the blocks with a pin, and each net is reported with its counts and blocks afterwards |
| DeltaPartition.ExactExactlyIfKeysFit | mt-kahypar/datastructures/delta_partitioned_hypergraph.h:255-261 | all runs of local moves over n nets and k blocks read the blocks, weights and pin counts of the full copy if and only if n * k is at most 2^32 |
| DeltaPartition.WrongCount | mt-kahypar/datastructures/delta_partitioned_hypergraph.h:329-338 | beyond that, one move of a node makes the view of a net it does not belong to wrong |
| DeltaPartition.MovedConsistent | mt-kahypar/datastructures/delta_partitioned_hypergraph.h:190-224 | the full copy that the view is compared with keeps pin counts and block weights equal to those counted from the assignment |
| DeltaPartition.DeltaPartitionedHypergraph.Clear | mt-kahypar/datastructures/delta_partitioned_hypergraph.h:279-286 | the view is the shared partition again |
| DeltaConnectivity.DeltaConnectivitySet.Toggle | mt-kahypar/datastructures/delta_connectivity_set.h:258-269 | toggling a bit in the growing word list changes the set of that net by exactly this block and of no other net |
| DeltaConnectivity.DeltaConnectivitySet.Connectivity | mt-kahypar/datastructures/delta_connectivity_set.h:219-234 | adding up bit counts of the xored words counts the blocks |
| DeltaConnectivity.DeltaConnectivitySet.ConnectivitySet | mt-kahypar/datastructures/delta_connectivity_set.h:64-137 | the one-bit iterator enumerates exactly the blocks of the net, in ascending order |
| AddressableHeap.RootIsMaximal | mt-kahypar/datastructures/priority_queue.h:191-199 | heap order between parents and children makes the root a maximum, for every arity |
| AddressableHeap.Heap.Insert | mt-kahypar/datastructures/priority_queue.h:74-81 | the map of ids to keys gains the id, heap order and handles are right again, and only handles of ids in the heap change |
| AddressableHeap.Heap.Remove | mt-kahypar/datastructures/priority_queue.h:83-99 | the map loses exactly the id, whichever way the last element has to move |
| AddressableHeap.Heap.DeleteTop | mt-kahypar/datastructures/priority_queue.h:63-72 | the map loses exactly the id at the root |
| AddressableHeap.Heap.AdjustKey | mt-kahypar/datastructures/priority_queue.h:102-127 | the key is replaced, except that a key the comparator does not distinguish from the old one is not stored |
| AddressableHeap.Heap.Contains | mt-kahypar/datastructures/priority_queue.h:146-149 | exact for every id, also with handles left stale by `clear` or by a heap of size one |
| AddressableHeap.Heap.SiftUp | mt-kahypar/datastructures/priority_queue.h:224-241 | the hole moves up until heap order holds, and the map is unchanged |
| AddressableHeap.Heap.SiftDown | mt-kahypar/datastructures/priority_queue.h:243-294 | the hole moves down along largest children until heap order holds, for arity two and more, and the map is unchanged |

## Left out

- Integer widths, except where a finding rests on them: weights, counts and ids are unbounded. Hashes are taken
  modulo 2^64 as in the source. Heap positions are unbounded; the source computes `pos * arity + 1` in 32 bits.
- Loops over nodes or edges that run in parallel on disjoint data are sequential loops. `std::sort`,
  `std::priority_queue`, prefix sums and flag arrays are small functions and methods of the project.
- Registration of a contraction is one atomic action in the runs (its locks are the subject of `LockOrder`); two
  registrations whose ancestor walks overlap are not interleaved.
- One object for everything: the tree of registered contractions (`ContractionRuns`, `ContractionTree`) and the pins and
  incident nets (`DynamicHypergraph`) are separate; an accepted contraction of the one is a `Contract` of the other.
- The locks and retries on nets while pins are contracted; a contraction changes the pins of all its nets in one
  method. Contraction intervals are inputs of `Finalize`, the runs do not record them.
- ContractionRuns.TreeAlwaysConsistent: starts with a positive total of fixed weight if any node is fixed, because
  the source asks the fixed vertices only in that case.
- DynamicHypergraph.DynamicHypergraph.Uncontract: the contractions of a batch are undone one after the other, in any
  order, but not interleaved net by net; and it does not maintain the net hashes, as the source does not, so the hash
  invariant is promised for the coarsening phase only.
- UncontractionSchedule.FilledCanBeUndone: takes the intervals of contractions that were made one after the other;
  contractions that overlapped in time are covered by `BatchFilling.BatchesHoldTheVersion` only.
- QuotientGraph.UncontractRestores: pairs of edges that two threads mark against each other while they uncontract both
  ends (`mark_edge`); the reports of `AdjacencyArray.DynamicAdjacencyArray.Uncontract` are those before marking.
- Removing incident nets again after restoring them without a reset; round trips are one phase of contractions and
  removals followed by one phase of their inverses.
- GraphMoves.ReportedCutIsExact: moves that do not synchronize their edges. Version changes
  (`resetEdgeSynchronization`) with any movement of the nodes are part of the runs.
- Errors that the source treats as assertions or exceptions of its callers (pins or blocks out of range, a key
  for an id that is not in the heap) are preconditions.
- The graph variant of the contraction code (mt-kahypar/datastructures/dynamic_graph.cpp): its state machine is
  that of `ContractionRuns`, its edges are those of `AdjacencyArray`.
- The thread-local partition of graphs, gain caches, metrics, static data structures, memory management, copies and
  I/O.

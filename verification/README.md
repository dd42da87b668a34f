# Verified model of a TDMA mesh node

The repository is a mesh node in C. Nodes take turns on the air in slots of 50 ms. Each node announces which nodes it
hears, merges what others announce into a connectivity matrix, computes a spanning tree from it, turns the tree into a
next-hop table, keeps its slot aligned with the slots of its neighbours, and empties a bounded queue of packets during
its slot. This project models these parts in Dafny and proves what they promise each other.

Ids, positions and quality values are bytes, as in the source. Times are integers: microseconds for instants, delays
and ages, milliseconds for slot limits. A delivery ratio is an exact fraction. Each critical section of a mutex is one
step; clock readings and random draws are parameters that may have any value in their range.

| file | what it holds |
|---|---|
| `Base.dfy` | bytes, ids, limits, counting |
| `Graphs.dfy` | walks, reachability, forests, the branches of a vertex, distance |
| `SpanningTrees.dfy` | spanning trees of a component, total cost, greedy runs, the exchange argument |
| `JoiningKeys.dfy` | what a greedy run is worth when the two ends of a link read different costs |
| `Prim.dfy` | the weighted Prim over the two matrices, on arrays, refining a greedy run |
| `LinkCosts.dfy` | what a link costs: whose measurement counts, heard in both directions or in one |
| `OwnTrees.dfy` | when the tree of a greedy run is a cheapest one by the readings of the node that builds it |
| `DearLinks.dfy` | what one dear link does to a greedy run when all others cost the same |
| `Detours.dfy` | two neighbours whose trees send a packet to each other |
| `TreeChoice.dfy` | a complete run exists for all tables; which trees Prim can be made to build |
| `Routing.dfy` | the recursive search, the branch lists, the routing manager |
| `Delivery.dfy` | what lookups mean on a tree, and forwarding hop by hop |
| `PerNodeTrees.dfy` | delivery when every node computes its own tree from its own measurements |
| `Topology.dfy` | the topology state keyed by id: sweep and merge as functions, and their laws |
| `TopologyRuns.dfy` | runs of beacons, sweeps and quality changes |
| `RoutesAfterSweep.dfy` | when routes stay in step with a list that gets shorter, after a sweep |
| `RoutesSinceRecompute.dfy` | what routes are worth after any sweeps and quiet updates since they were computed |
| `HubRuns.dfy`, `StaleRoutes.dfy` | a run after which a route outlives the node it leads to |
| `Networks.dfy`, `NetworkNets.dfy` | networks by their links, what their nodes measure, the tables Prim reads there |
| `MergeCells.dfy` | a merge cell by cell |
| `Settling.dfy` | a run of beacons that settles a node in any network |
| `MeasuredRows.dfy` | runs of a node that lead to any measurements of its own links |
| `MeshRounds.dfy`, `MeshRuns.dfy`, `MeshSettles.dfy` | runs of a whole mesh, and one in which all nodes settle |
| `MeshMeasures.dfy`, `MeasuredMeshes.dfy` | runs of a mesh after which all nodes read any measurements of their own links |
| `SettledTrees.dfy` | Prim in settled networks: a triangle and five nodes |
| `Restarts.dfy` | a neighbour that has restarted: its link is heard in one direction only, and used |
| `Readings.dfy` | what the quality tables hold when Prim runs |
| `CheapestTrees.dfy`, `OwnMinimum.dfy` | exactly when Prim builds a cheapest tree by own readings, over runs |
| `MeasuredCosts.dfy`, `DearRows.dfy`, `MeasuredLoops.dfy`, `CycleLoops.dfy` | measurements that make Prim miss it, and that make packets loop |
| `ReachedLoops.dfy` | exactly in which networks every packet arrives, over runs of each node |
| `MeshLoops.dfy`, `MeshMinimum.dfy` | both results over runs of the whole mesh |
| `ReachedTrees.dfy`, `ReachedMeshes.dfy` | the triangle and the five nodes reached by runs: a missed minimum, a sweep out of step, a forwarding loop |
| `MatrixTable.dfy` | the positional tables, deletion in place, the sweep |
| `MatrixMerge.dfy` | the positional merge, refining the merge by id |
| `MeshNode.dfy` | matrix, tree and routes of one node, the event detector |
| `Wire.dfy` | the byte layout of an announced matrix |
| `Sync.dfy` | measuring and correcting the slot of one node |
| `SyncRounds.dfy` | a round in terms of the delays recorded: means, when the slot moves, how far |
| `SyncProtocol.dfy` | the protocol of all nodes, over every run |
| `LateBeacons.dfy` | how late beacons may be before slots never come to rest |
| `SlotWindows.dfy` | the slot test, the guarded end of a slot, why nobody overlaps |
| `TxQueue.dfy` | the transmit queue as a linked list |
| `SlotDrain.dfy` | the drain loop of a slot |
| `Pdr.dfy` | the delivery ratio estimator |

## How the parts fit

The classes (`TdmaMatrix`, `Node`, `RoutingManager`, `SlotSync`, `Queue`, `Estimator`) and the array methods have
contracts that tie them to a function or a relation on values: `Sweep`, `Merge`, `IsPrimRun`, `TableFor`, `AfterRound`,
`Apply`, `Run`, `Updated`, `Encode`. The laws are lemmas about those. `Snapshot.Shows` connects the positional tables
with the state by id; every method that changes positions is proved to keep it.

Main results:

- Prim's tree spans exactly the component of position 0. The costs at which the nodes joined add up to no more than
  any spanning tree costs when each link is charged the dearer of its two readings (`PrimKeysAreCheapest`). The two
  readings differ right after every beacon over a two-way link (`BeaconSplitsReadings`). By its own readings a node
  builds a cheapest tree, whatever it measures in its runs, exactly if position 0 lies behind at most one of its
  neighbours (`AlwaysCheapestIff`); so the node with the lowest id always does (`LowestIdIsCheapest`).
- Qualities are not on the air, so nodes with common links still build different trees. In a network with two-way
  links every packet inside the component of position 0 arrives, whatever the nodes measure in their runs, exactly if
  the links of that component form no cycle (`ReachedLoops.AlwaysDeliversIffNoCycle`); then it takes exactly the tree
  distance. Five nodes of one mesh send a packet back and forth for ever with nothing but the boosts of direct beacons
  (`BoostsCanLoop`, `FiveMesh`).
- A sweep leaves list and routes in step exactly under the condition of `InStepAfterSweep`; for a node connected to
  all listed ids, exactly when it removes nobody. An update without an event leaves routes as right or as wrong as
  they were, and over any run without events, of sweeps, updates and quality changes, they stay right exactly under
  the same condition on the ids that have gone since they were computed (`QuietRunKeepsStepIff`).
- If nobody is more than two hops away, all nodes of a mesh settle at the same time, in a run in which every beacon is
  what its sender announces (`AllSettle`), and can then measure anything (`AnyMeasurementsMeet`). There the two exact
  conditions above hold over the runs of the whole mesh as well (`CheapestInMeshIff`, `MeshDeliversIffNoCycle`).
- The merge by position is the merge by id; a sweep that deletes while it walks is a filter.
- In every run my own row says exactly whom I heard since they were listed, and second-hand reports keep nobody alive.
- Whatever is drawn, the slots of n nodes that start well within half a frame of each other come to rest in all runs
  exactly if beacons are late by less than 5 ms / n (`ComesToRestIff`). Then, in every run, corrections are 4 or 5 ms,
  the most advanced node never moves, any other passes it at most once (`OvershootsOnce`) and by no more than n - 1
  times the lateness, the moves are bounded by the initial gaps, and all but a bounded number of the rounds of a node
  end stable. If the full share of a correction is never drawn, slots come to rest exactly if beacons are late by less
  than 1 ms + 4 ms / n, and nobody passes the most advanced node if they are at most 1 ms late.
- A correction never passes the node it was measured from exactly for beacons on time, or at most 1 ms late without
  the full share (`NeverOvershootsIff`).
- Over every run, two nodes that each ended a round in the dead band having recorded the other never start
  transmissions at the same instant, until one of them moves (`NeverBothSend`).
- A round moves the slot exactly if the delays from some sender are 5 ms and more on average, in whatever order they
  arrived (`MovesIff`, `OrderIsIrrelevant`). From two nodes on every node is in its slot for 50 ms of every frame, and
  right after the start exactly one at a time (`SlotInEveryFrame`, `SlotsTakeTurns`); a node alone never is.
- The queue loses nothing unaccounted for, a slot never counts more than 135004 bytes, one with time and budget for all
  frames empties the queue, and sends everything if everything can be sent (`QuietSlotSendsAll`).
- The delivery ratio is exact until the last slot of the table is passed, and off by one known gap afterwards,
  wherever the ids began; `ResetsExactly` says which id empties the table.

## Where the code and the prose differ

The code is followed.

- A node expires after 2 s (`include/matrix.h:10`); `matrixExplica.md:29` says 5 s.
- The byte budget of a slot is 135000 (`src/node.c:39-41`); `docs/sistema_completo.md:70` says about 84 KB.
- The default quality of a link is 100 and the boost writes 110 (`include/matrix.h:21-31`, `src/matrix.c:313-316`);
  the comment at `src/matrix.c:307-312` computes with 50 and 60.
- `include/tx_queue.h:56` says the queue is flushed when the topology changes; no code calls the flush.
- The age offset of an announced matrix is kept in one byte (`src/matrix.c:116-120`), so the layout is right up to 15
  nodes although the tables hold 20. With more, serialising copies past its buffer (`CopiesFitUpTo15`) and a receiver
  reads the ages from among the links (`AgesAmongLinks`).
- `src/matrix.c:307-312` expects the boost to make Prim choose the direct link; `BoostsCanLoop` is a network in which
  the boosts send a packet back and forth.
- The sweep shortens the id list without a new tree or an event (`src/matrix.c:77-102`), and the next update takes its
  node count after the sweep (`src/matrix.c:224`), so a removal is noticed only through the tree among the remaining
  positions. Routes can therefore be wrong after a sweep (`SweepCanBreakStep`) and after an update as well:
  `QuietCanBeStale` is a run after which the route to a node that has gone stays in use. `InStepAfterSweep` and
  `QuietRunKeepsStepIff` state exactly when. The events for a node that times out or joins
  (`include/event_handler.h:22-24`) are handled, but nothing raises them.
- The dead band is made for a systematic lateness of about 3 ms (`include/sync.h:22-29`), yet from two nodes on
  beacons 3 ms late can keep slots moving for ever, with and without the full share of a correction being drawn
  (`ThreeMillisecondsAreTooMany`).
- In the wrapped tail of a slot the computed end of the slot is one frame late (`src/node.c:592-599`);
  `KeepsWindowIff` states exactly when that lets a node send outside its slot.
- A packet put back over budget has already taken a message id (`src/node.c:663-672`), so a receiver sees a gap though
  nothing was lost; `TallyStaysOk` states the numbering.

## Model

| member | source | states |
|---|---|---|
| `Prim.EdgeCost` | src/matrix.c:484-488 | an edge cost stays within -155..99, so below the 999 that marks an unreached node, for every pair of quality bytes |
| `LinkCosts.OwnReadingDecides` | src/matrix.c:484-488 | two tables with the same measurement of v by u, and the link heard in both directions in both or in neither, give the same cost of attaching v to u, whatever v measured |
| `LinkCosts.OtherReadingStandsIn` | src/matrix.c:484-488 | without a measurement by u that of v counts in its place, and 100 if there is none either |
| `LinkCosts.OneWayCostsTwenty` | src/matrix.c:481-488 | the same measurement costs exactly 20 more over a link heard in one direction only, if it is above 20; over a two-way link each unit of quality is worth one, and 100 costs 0 |
| `LinkCosts.OneDirectionSuffices` | src/matrix.c:481-483 | two positions are linked for Prim as soon as one hears the other, in either direction |
| `Prim.PrimWeighted` | src/matrix.c:455-500 | the stored table lists, symmetrically and with 0 and 1 only, the edges of a complete greedy run: every node joined through an earlier one at the least directed cost to any joined node, lowest position among equals, until nobody outside is heard |
| `Prim.Grow` | src/matrix.c:463-492 | the main loop on `in_mst`, `key` and `parent` performs such a run, and the parents of unreached positions stay -1 |
| `Prim.RelaxAll` | src/matrix.c:474-491 | one relaxation pass changes key and parent exactly of the heard positions outside the tree that become cheaper |
| `Prim.ScanLeast` | src/matrix.c:469-472 | the scan finds the lowest position with the least key outside the tree, or that none is below the sentinel |
| `Prim.PrimTreeSpans` | src/matrix.c:463-498 | with no assumption on costs the tree is acyclic and spans exactly the component of position 0 in the graph of links heard in either direction |
| `Prim.PrimTreeSize` | src/matrix.c:463-498 | it has one edge fewer than positions joined |
| `Prim.PrimKeysAreCheapest` | src/matrix.c:455-500 | for all link and quality tables: the costs at which the positions joined add up to no more than any spanning tree of the component costs when each of its links is charged the dearer of its two readings |
| `JoiningKeys.KeysAreCheapest` | src/matrix.c:455-500 | the same for any exhausted greedy run over costs that depend on the direction of reading |
| `Readings.OtherRowsAreDefault` | src/matrix.c:291-316 | in every run, every quality outside my own row is 0 or the default 100: nobody else's measurements ever arrive |
| `Readings.BeaconSplitsReadings` | src/matrix.c:313-321 | in every run, right after a beacon over a two-way link, which is when Prim runs, the two ends of that link read different costs |
| `SettledTrees.OwnReadingsMissMinimum` | src/matrix.c:481-491 | in a two-way triangle node 3 builds a tree that costs -10 by its own readings although a spanning tree of cost -20 exists |
| `OwnMinimum.AlwaysCheapestIff` | src/matrix.c:455-500 | in every network of at most 20 nodes with two-way links: the node at position x builds a spanning tree that is cheapest by its own readings, in all its runs that show it the whole network and whatever it measures, if and only if position 0 lies behind at most one of its neighbours (none, if it is at position 0 or not connected to it) |
| `MeshMinimum.CheapestInMeshIff` | src/matrix.c:455-500 | the same if and only if over the runs of the whole mesh, in which beacons are what their senders announce, for the tree the node holds, built at its last beacon once it knew all links, and the readings of that moment; nobody is more than two hops away |
| `MeshMinimum.OneWayHomeInMesh` | src/matrix.c:455-500 | the `if` half of it however far apart the nodes are |
| `CheapestTrees.OneWayHomeIsCheapestInRuns` | src/matrix.c:455-500 | the `if` half in every run, of whatever the node knows and with one-way links as well |
| `CheapestTrees.LowestIdIsCheapest` | src/matrix.c:455-500 | in every run a node with no lower id in its list builds a cheapest tree by its own readings |
| `OwnTrees.OneWayHomeIsCheapest` | src/matrix.c:455-500 | the same for any exhausted greedy run whose costs depend on the direction of reading only at x |
| `DearLinks.DearHomeIsNotCheapest` | src/matrix.c:481-491 | if the tree reaches x by a link that x finds bad although there is another way, and all else is alike, some spanning tree is cheaper by the readings of x, even if one more link of x is boosted |
| `MeasuredRows.EveryRowIsRead` | src/matrix.c:222-321 | for every network, all own measurements but 0 and every neighbour as the last sender, some run of the node makes Prim run on exactly these tables: the links of the network, the measurements with the boost of the sender, the default in the rows of others; its beacons are any well-formed ones |
| `ReachedTrees.TriangleIsReached` | src/matrix.c:222-321 | a run of well-formed beacons makes Prim run at node 3 on exactly those tables |
| `Restarts.RestartIsReached` | src/matrix.c:222-321 | three nodes have all heard each other and node 3 restarts: some run of well-formed beacons ends with its first one, that lists only itself, and makes Prim run at node 2 with the row of node 3 cleared and all measurements kept |
| `Restarts.RestartIsRouted` | src/matrix.c:481-491 | the tree Prim then builds has the links 1-2 and 2-3, since node 2 finds the one-way link to node 3 cheaper than node 1 does, and node 2 sends packets for node 3 to it directly |
| `ReachedMeshes.TriangleMesh` | src/matrix.c:126-321 | some run of the mesh, in which beacons are what their senders announce, leads all three nodes to trees built from their settled tables at the same time |
| `TreeChoice.RunExists` | src/matrix.c:463-492 | for all tables there is a complete run, so what is said of complete runs is never empty |
| `TreeChoice.EveryTreeIsBuilt` | src/matrix.c:455-500 | for every spanning tree of the component some quality table makes Prim build exactly that tree |
| `Prim.CostSymmetricWhen` | src/matrix.c:481-488 | both ends read the same cost if and only if no heard link carries two non-zero measurements that differ after the one-way penalty |
| `Prim.PrimRunUnique` | src/matrix.c:468-492 | the tree is a function of the two tables: nodes with equal tables build the same tree |
| `SpanningTrees.CutExchange` | src/matrix.c:468-491 | a cheapest edge leaving the joined part can be swapped into any spanning edge set at no cost |
| `SpanningTrees.TreeSize` | src/matrix.c:493-498 | every spanning tree of a component has one edge fewer than it has vertices |
| `Routing.IsReachableViaMst` | src/routing.c:46-56 | the search with a shared visited array answers true exactly when the target can be reached avoiding the positions marked at the start, on any graph, and it terminates |
| `Routing.FindNodeIndex` | src/routing.c:40-44 | the first position of an id, or -1 |
| `Routing.BuildRoutingStructure` | src/routing.c:72-119 | there is one branch for each tree neighbour, holding exactly the ids reachable through it without passing me |
| `Routing.LookupNextHop` | src/routing.c:121-132 | the neighbour whose branch holds the destination, a branch member being preferred to a neighbour, 0 if there is none |
| `Routing.RoutingManager.Recompute` | src/routing.c:171-284 | afterwards every table entry is the route of the id at that position for the given tree and list, and all others are cleared |
| `Routing.RoutingManager.Lookup` | src/routing.c:286-298 | the next hop of the first valid entry for the destination among the first num_nodes entries, else 0 |
| `Delivery.LookupIsFirstHop` | src/routing.c:189-212 | on an acyclic tree the lookup gives the one neighbour whose branch holds the destination; it is 0 exactly for myself, for an unreachable id and for a position past num_nodes |
| `Delivery.NeighbourIsNextHop` | src/routing.c:171-298 | on a cycle-free tree the next hop towards a tree neighbour is that neighbour |
| `Delivery.UnlistedHasNoRoute` | src/routing.c:286-298 | an id outside the list has no next hop |
| `Delivery.HopByHop` | src/routing.c:286-298 | when all nodes share list and tree, each hop brings a packet exactly one edge closer, so no node sees it twice and it arrives after exactly the tree distance |
| `PerNodeTrees.SameTreeDelivers` | src/routing.c:171-298 | nodes with common links whose runs of Prim build the same tree, whatever each of them measured, deliver every packet between two positions of the component of position 0 after exactly the tree distance and not before |
| `PerNodeTrees.CycleFreeLinksDeliver` | src/routing.c:171-298 | if the links of that component form no cycle, every packet arrives after exactly as many hops as there are links on the way, for any quality table at any node |
| `ReachedLoops.AlwaysDeliversIffNoCycle` | src/routing.c:171-298 | in every network with two-way links: all packets inside the component of position 0 arrive, whatever tables the nodes read in their runs that show them the whole network, if and only if the links of that component form no cycle |
| `MeshLoops.MeshDeliversIffNoCycle` | src/routing.c:171-298 | with two-way links and nobody more than two hops away: in all runs of the whole mesh every packet arrives by routes on the trees the nodes hold, each built at the last beacon of its node, once all were built from all links, if and only if the links form no cycle |
| `MeshLoops.NoCycleDeliversInMesh` | src/routing.c:171-298 | the `if` half of it however far apart the nodes are and with one-way links as well |
| `CycleLoops.CycleCanLoop` | src/routing.c:171-298 | if they form one, and each node may have any measurements of its links, there are measurements, trees and routes for which some packet never arrives |
| `Detours.GoesAround` | src/matrix.c:468-491 | a node that finds its link to a third position bad, a link that can be gone around, sends packets for it to a neighbour in the tree of equal costs |
| `Detours.GoesBack` | src/matrix.c:468-491 | and that neighbour, having just heard the node, sends them back to it |
| `Settling.SettledIsReached` | src/matrix.c:222-321 | in every network some run of well-formed beacons, each with all links and age 0, leads each node that hears anybody to its settled state: all links known, its own row boosted, the default elsewhere |
| `MeshSettles.AllSettle` | src/matrix.c:126-321 | if everybody hears everybody, directly or from a neighbour, some run of the whole mesh, in which beacons are what their senders announce, leads all nodes to these states, and to trees built from them, at the same time |
| `MeasuredMeshes.AnyMeasurementsMeet` | src/matrix.c:126-321 | in such a network, whatever each node measures of its own links, none of it 0, and whoever it hears last: some run of the whole mesh leads to the state in which all nodes hold the trees built from just that |
| `MeshRuns.MeshRunsAreRuns` | src/matrix.c:126-321 | in a run of the mesh every node goes through a run of its own, to its matrix and to the one its tree was built from, so what is proved of all runs of a node holds in it |
| `ReachedTrees.FiveIsReached` | src/matrix.c:222-321 | a run of well-formed beacons makes Prim run at each node of a network of five on its own settled tables |
| `ReachedMeshes.FiveMesh` | src/matrix.c:126-321 | some run of the mesh, in which beacons are what their senders announce, leads all five to trees built from these tables at the same time |
| `ReachedTrees.FiveNodes` | src/routing.c:171-284 | the five have runs of Prim and routes for these tables |
| `ReachedTrees.BoostsCanLoop` | src/matrix.c:313-321 | with any such runs and routes a packet from node 1 to node 2 goes back and forth between nodes 1 and 5 for ever |
| `Delivery.OutsideIsUnrouted` | src/routing.c:203-204 | positions outside that component have no route, in either direction |
| `Delivery.StoredTreeIsTree` | src/matrix.c:493-498 | reading the stored tree table back gives the tree of the run, 0/1 and with an empty diagonal |
| `Graphs.BranchUnique` | src/routing.c:103-106 | in a forest no vertex hangs behind two neighbours |
| `Graphs.BranchIsCloser` | src/routing.c:121-132 | stepping into the branch of the destination is one hop closer |
| `Topology.MeshIdsFit` | include/matrix.h:9 | distinct ids in 1..MAX_NODES never exceed the table size |
| `Topology.SweepKeepsValid` | src/matrix.c:77-102 | a sweep keeps me listed, the ids ascending and every table complete |
| `Topology.SweepIdempotent` | src/matrix.c:77-102 | a second sweep at the same time does nothing |
| `Topology.SweepExactly` | src/matrix.c:77-102 | a sweep keeps me and exactly those whose entry was created less than 2 s ago, with their links, qualities and creation times |
| `Topology.AnnouncedExactly` | src/matrix.c:126-144 | an announcement lists exactly those, with the age of each entry by the clock, mine 0, and their links as they are |
| `Topology.MergeKeepsValid` | src/matrix.c:203-220 | the ids after a merge are the strictly sorted union, I am among them, and they fit the table |
| `Topology.RowsAreWhole` | src/matrix.c:238-289 | another node's row is wholly the received one (unexpired and unknown or strictly fresher) or wholly the local one; my own row depends on nothing received except who sent it |
| `Topology.RowsByTimes` | src/matrix.c:248-263 | in times and rows: the row of a listed node that is not the sender and whose local entry is 2 s old stays; with local entry and report both younger the report wins exactly if it was made later; a report 2 s old changes no row; a new node comes with the received row |
| `Topology.TimesOfMerge` | src/matrix.c:258-289 | the creation times after a merge: mine now; that of the sender when the report was made, if later; those of other listed nodes as before; that of a new node when it was reported, 0 if the report has run out |
| `Topology.AgeOfMerge` | src/matrix.c:258-273 | the age kept is that of the report the row came with |
| `Topology.NewsIsHandedOn` | src/matrix.c:126-273 | a matrix heard in the moment it is announced gives the receiver, for every node new to it, the row and the creation time of the announcer, whose own entry counts as made now |
| `Topology.QualityFollowsIds` | src/matrix.c:291-305 | measurements stay with their pair of ids; only unmeasured heard links get the default |
| `Topology.NewPairs` | src/matrix.c:291-305 | a pair of ids new to the table has quality 100 if the link is heard and 0 otherwise |
| `Topology.SenderIsBoosted` | src/matrix.c:313-316 | after a beacon the direct link to its sender has exactly quality 110 |
| `Topology.IndirectNeverRefreshes` | src/matrix.c:268-272 | a report from somebody else never changes the creation time of a known node |
| `Topology.AnnouncedIsBeacon` | src/matrix.c:126-142 | what a node announces is a well-formed beacon that lists its sender at age 0 and no expired entry |
| `Topology.SenderRowArrives` | src/matrix.c:248-275 | a beacon heard later than the last one from its sender leaves the receiver with the sender's own row, whole, and the sender marked as heard now |
| `TopologyRuns.StepKeepsValid` | src/matrix.c:77-102 | every event (beacon, sweep, announcement, quality change) keeps the state well formed |
| `TopologyRuns.OwnRowMeansHeard` | src/matrix.c:277-289 | in every run, my row says 1 for a listed node exactly when a beacon from it was processed since it last entered the list |
| `TopologyRuns.CreatedIsOldNews` | src/matrix.c:248-275 | in every run, the creation time of another node is no later than the last direct beacon from it or its last entry into the list |
| `TopologyRuns.SweepLeavesOnlyRecent` | src/matrix.c:77-102 | after a sweep in any run, every other listed node was heard directly or entered the list less than MAX_AGE before |
| `TopologyRuns.QualityAddsUp` | src/matrix.c:431-453 | k slot misses in a row cost 40 k, down to 0, so three of them bring any default or boosted quality to 0; k packets earn 3 k up to 100, and bring any quality above down to 100 |
| `TopologyRuns.AdjustmentsChange` | src/matrix.c:431-453 | they change my quality of that one link and nothing else |
| `TopologyRuns.MissIsAdjustment` | src/matrix.c:439-444 | a slot miss in a run of the node is one such step |
| `MatrixTable.DropRowAndColumn` | src/matrix.c:60-74 | the whole table after shifting rows up and columns left in place: row and column pos of the live square are gone, the vacated last column is zero, the old last row stays behind a column shorter, everything outside the live rows is untouched |
| `MatrixTable.TdmaMatrix.RemoveIdMatrix` | src/matrix.c:60-74 | the same for the whole link and the whole quality table, and so for their live corners |
| `MatrixTable.TdmaMatrix.RemoveIdList` | src/matrix.c:50-58 | id, age and creation time of one position are removed, the order of the others is kept |
| `MatrixTable.TdmaMatrix.Drop` | src/matrix.c:86-98 | removing a node after penalising its link leaves everything about the others unchanged: the penalty leaves no trace |
| `MatrixTable.TdmaMatrix.RemoveDeadLinks` | src/matrix.c:77-102 | deleting while iterating is a filter: me and all nodes younger than MAX_AGE in the same order, their links, qualities and times untouched |
| `MatrixTable.TdmaMatrix.Announce` | src/matrix.c:126-142 | the sweep, my own refreshed creation time and the recomputed ages before packing |
| `MatrixTable.TdmaMatrix.SetLinkQuality` | src/matrix.c:507-513 | exactly the quality of the pair (me, id) is set, nothing if the id is not listed |
| `MatrixTable.TdmaMatrix.UpdateLinkQuality` | src/matrix.c:431-453 | exactly that quality is raised by 3 up to 100, or lowered by 40 down to 0 |
| `MatrixTable.DropAgrees` | src/matrix.c:60-74 | deleting a row and a column by position is forgetting one id |
| `MatrixMerge.DiscoverIds` | src/matrix.c:203-220 | the sorted duplicate-free union of both id lists, within 20 entries |
| `MatrixMerge.CopyLine` | src/matrix.c:193-201 | each value of a row goes to the column of its id, other columns keep theirs |
| `MatrixMerge.TakeRows` | src/matrix.c:248-275 | after the loop each received id has been decided once and holds the received or the local row, time and age |
| `MatrixMerge.Decide` | src/matrix.c:249-262 | a received row is taken exactly when it is not mine, not expired, and unknown here or strictly fresher (and, second-hand, only while the local entry is alive) |
| `MatrixMerge.CopyQuality` | src/matrix.c:291-300 | qualities move to the positions of their ids |
| `MatrixMerge.MergeTables` | src/matrix.c:232-316 | the positional merge shows exactly the merge by id |
| `MeshNode.Node.MergeReceived` | src/matrix.c:230-319 | after the copy back my tables show the merge of my state and the beacon |
| `MeshNode.Node.MatrixUpdate` | src/matrix.c:222-359 | matrix_update merges, rebuilds the tree from the new tables, and raises the event exactly when the count or a listed tree entry changed |
| `MeshNode.Node.Receive` | src/matrix.c:325-358 | an update raises the event exactly when the ids or the listed tree change; without it the routes fit afterwards if and only if they did before |
| `MeshNode.Node.HandleEvent` | src/routing.c:171-284 | after the event is handled the routes fit the listed tree and the ids as they are by then, also if sweeps or quality changes came in between |
| `MeshNode.Node.FittingIsRecomputed` | src/routing.c:189-208 | routes that fit an acyclic tree table are exactly what a fresh recompute would give |
| `MeshNode.TableUnique` | src/routing.c:192-212 | the routing table is determined by tree, list and node: the order of the branch lists leaves no trace |
| `MeshNode.SameCountAfterMerge` | src/matrix.c:325-328 | comparing counts suffices: a merge that adds no node changes no id |
| `RoutesAfterSweep.InStepAfterSweep` | src/matrix.c:77-102 | after a sweep the routes in use are those a recompute would give, always if nobody is removed, and otherwise if and only if the tree connects me only to positions before the first one removed or, when I move up myself, to nobody at my old or my new position |
| `RoutesAfterSweep.InStepIff` | src/routing.c:189-212 | the same condition for any list that has become shorter, however many sweeps that took |
| `RoutesSinceRecompute.QuietUpdateKeeps` | src/matrix.c:224-338 | after an update that raises no event the routes are those of a recompute if and only if they were so for the ids and the tree just before it |
| `RoutesSinceRecompute.RaisesIff` | src/matrix.c:323-345 | the event is raised exactly when a beacon changes the ids or the listed tree |
| `RoutesSinceRecompute.QuietRunKeepsStepIff` | src/matrix.c:77-358 | over every run without a topology event, of beacons, sweeps, announcements and quality changes in any order: routes that were right at its start are those of a recompute at its end if and only if they keep step, in the sense of `InStepIff`, with the ids that have gone meanwhile |
| `StaleRoutes.QuietCanBeStale` | src/matrix.c:224-338 | node 1 has heard nodes 2 and 3; node 3 is swept and node 2 heard again: no event is raised, and the routes, right before, still lead to node 3, which is not listed |
| `RoutesAfterSweep.ConnectedInStep` | src/matrix.c:77-102 | a node whose tree reaches every listed id is in step after a sweep exactly when no other entry is MAX_AGE old |
| `RoutesAfterSweep.InStepIsRecomputed` | src/routing.c:171-284 | in step means: the table in use is one that a recompute from the unchanged tree table and the shorter list leaves |
| `RoutesAfterSweep.InStepBefore` | src/routing.c:189-212 | the case of a node listed before the first removed position, for any shortened list |
| `RoutesAfterSweep.InStepAfter` | src/routing.c:189-212 | the case of a node that moves up |
| `ReachedTrees.SweepCanBreakStep` | src/matrix.c:97-98 | there are a run of beacons, the tree and routes it leaves, and a sweep after which the routes are not the ones a recompute would give |
| `MeshNode.Node.RemoveDeadLinks` | src/matrix.c:104-108 | the sweep changes the matrix only, not the tree table and not the routes |
| `Wire.LayoutFitsUpTo15` | src/matrix.c:110-120 | for up to 20 nodes, the fields lie apart and inside the payload, and the age offset fits its byte, exactly up to 15 nodes |
| `Wire.CopiesFitUpTo15` | src/matrix.c:150-169 | for up to 20 nodes, the copies of serializeMatrix stay inside the buffer it allocates exactly up to 15 nodes |
| `Wire.RoundTrip` | src/matrix.c:168-191 | deserialising a serialised matrix restores count, ids, links and ages |
| `Wire.OnTheAir` | src/matrix.c:110-166 | up to 15 nodes, byte by byte: the count at 0, id i at 1 + i, the link from i to j at n + 2 + i n + j, byte c of age k at n n + n + 3 + 8 k + c, and nothing else |
| `Wire.Serialize` | src/matrix.c:144-166 | whenever its copies stay inside the buffer, copying the fields to the computed offsets of the zeroed buffer writes them one after the other with one unused byte before and after the matrix |
| `Wire.Deserialize` | src/matrix.c:172-191 | reading by the same offsets gives the decoded message, for every announced count the tables can hold |
| `Wire.AgesAmongLinks` | src/matrix.c:116-120 | from 16 nodes on the bytes read as ages lie among those of the links |
| `Wire.AgesAreLost` | src/matrix.c:172-191 | from 16 nodes on, packets that agree on ids and links are read as the same message, whatever ages follow |
| `Wire.CopyRows` | src/matrix.c:158-161 | rows copied to successive offsets lie one after the other, and nothing else changes |
| `Sync.IdealIsRelative` | src/sync.c:145-169 | all three cases of the expected slot begin mean begin + (sender - me) * width modulo the frame, neighbours across the frame end included |
| `Sync.ComputeDelay` | src/sync.c:127-188 | the delay is the representative in (-T/2, T/2] of how late the sender's slot begins compared with mine |
| `Sync.CenteredUnique` | src/sync.c:178-187 | that representative is unique |
| `Sync.SlotSync.constructor` | src/sync.c:75-92 | the initial slot of a node, one width long |
| `Sync.SlotSync.RecordDelay` | src/sync.c:196-220 | the misalignment of the sender is appended while there is room, nothing else changes |
| `Sync.SlotSync.ShiftSlot` | src/sync.c:237-243 | begin moves forward modulo the frame, the end stays one width behind it |
| `Sync.SlotSync.AdjustSlot` | src/sync.c:251-330 | the state after a round: records forgotten; stable count raised within the dead band; otherwise reset to 0 and the slot moved by the drawn share of the limited delta |
| `Sync.LargestMean` | src/sync.c:264-292 | the largest mean delay over the senders, in whole milliseconds, at least 0 |
| `SyncRounds.MeanIsExact` | src/sync.c:225-230 | for any records: the mean of a sender times the number of its delays is their sum, up to the milliseconds cut off towards zero |
| `SyncRounds.OrderIsIrrelevant` | src/sync.c:264-325 | the order in which the delays of a round arrived does not matter for the state after it |
| `SyncRounds.MovesIff` | src/sync.c:264-325 | with slots of 50 ms: the slot moves, by 5 ms if the full share is drawn and by 4 ms otherwise, exactly if the delays recorded from some sender in 1..20 add up to at least 5 ms for each; this resets the stable count, a round that heard somebody and moves nothing adds one |
| `SyncRounds.ShareIsDrawn` | src/sync.c:300-312 | for slots of any width: a move is the misalignment limited to a tenth of the slot (at least 1 ms), or a drawn share of that, never less than four fifths of it down to whole milliseconds |
| `SyncRounds.FirstAreKept` | src/sync.c:207-213 | the first 64 delays of a round are kept, in order |
| `Sync.GroupBySender` | src/sync.c:270-282 | the recorded delays of each sender, in order; senders out of range are skipped |
| `Sync.SlotStaysInFrame` | src/sync.c:316-325 | in every reachable state both limits are inside the frame and a width apart, so the reset branch is dead |
| `SyncProtocol.FreshMeshIsOk` | src/sync.c:75-92 | right after sync_init the protocol invariant holds for every draw, any slot ids and any clock differences, if the lateness of all nodes together is below 5 ms and the unrolled offsets, with the lateness of all nodes but one, lie within less than half a frame; its top is the most advanced offset and that lateness |
| `SyncProtocol.FreshMeshIsClear` | src/sync.c:75-92 | if the full share is not drawn, it holds with any top within half a frame that is out of reach of an overshoot by steps of 4 ms |
| `SyncProtocol.BeaconIsExact` | src/sync.c:127-188 | a beacon heard on time measures exactly the difference of the unrolled offsets of two nodes, whatever their clocks, slots and the moment |
| `SyncProtocol.BeaconIsBounded` | src/sync.c:127-188 | a beacon heard late never measures more than that difference plus its lateness |
| `SyncProtocol.ShiftIsSmall` | src/sync.c:286-312 | for every lateness and every draw: with 50 ms slots a correction is 4 or 5 ms, 5 only for the full share; it happens exactly beyond the dead band, after a measurement of at least 5 ms, and exceeds the true gap by no more than the lateness, one of 4 ms only by the lateness beyond 1 ms |
| `SyncProtocol.NeverOvershootsIff` | src/sync.c:286-314 | for every lateness and every draw: no correction from a single measurement passes the node it was measured from, whatever the gap, if and only if the beacon was on time (up to whole frames), or at most 1 ms late and the full share is not drawn |
| `SyncProtocol.StepKeeps` | src/sync.c:196-330 | every beacon and every end of slot keeps the invariant: with every draw allowed, since the most advanced node rests and any other passes it at most once, each time by one lateness more; without the full share, since top is out of reach of overshoots |
| `SyncProtocol.ShiftsAddUp` | src/sync.c:307-314 | over every run an offset grows by 4 to 5 ms for every move |
| `SyncProtocol.MovesAreBounded` | src/sync.c:251-330 | over every run, order of events and allowed draw, a node stays at or behind top and moves at most once per 4 ms it started behind it |
| `SyncProtocol.OvershootsOnce` | src/sync.c:251-330 | with every draw allowed: over every run a node at or beyond where the most advanced one began never moves again, so the most advanced node never moves and any other overshoots at most once |
| `SyncProtocol.AllMovesAreBounded` | src/sync.c:251-330 | all moves together number at most the sum of the initial gaps to top divided by 4 ms |
| `SyncProtocol.UnstableRoundsAreFew` | src/sync.c:286-298 | convergence: a node ends at most 8 * (gap to top / 4 ms) + 7 of the rounds in which it hears anybody without being stable |
| `LateBeacons.CeilingExists` | src/sync.c:286-314 | if the full share is not drawn, a top out of reach of overshoots exists less than 4 ms above any given offset whenever n times the lateness beyond 1 ms is below 4 ms, wherever the n nodes are |
| `LateBeacons.ComesToRestIff` | src/sync.c:286-314 | in every mesh of n nodes, 2 to 20, that start well within half a frame of each other, slots move only so far in all runs with beacons at most this late and any draws, if and only if n times the lateness is below 5 ms; if the full share is never drawn, if and only if n times the lateness beyond 1 ms is below 4 ms |
| `LateBeacons.ThreeMillisecondsAreTooMany` | include/sync.h:22-29 | from two nodes on, some mesh has runs with beacons 3 ms late that go beyond every bound, even without the full share |
| `SyncProtocol.StableUntilItMoves` | src/sync.c:366-368 | a stable node stays stable until its slot moves |
| `SyncProtocol.StableIff` | src/sync.c:293-298 | over every run a node is stable exactly when 8 rounds in which it heard somebody have ended since its slot last moved, counting those before the run |
| `SlotWindows.SlotEndIsGuarded` | src/node.c:592-599 | the computed end is the true end of the slot less the guard if and only if the frame position is at or after begin_ms; otherwise it is exactly one frame late |
| `SlotWindows.InSlotIff` | src/sync.c:352-361 | a node is in its slot exactly in the 50 ms from begin_ms on, round and round the frame, if there are at least two nodes; a single node never is, since its slot begins where it ends |
| `SlotWindows.SlotInEveryFrame` | src/sync.c:352-361 | from two nodes on every node is in its slot for 50 ms on end in every frame |
| `SlotWindows.SlotsTakeTurns` | src/sync.c:75-92 | right after sync_init and by one clock, at every instant exactly one node is in its slot, the one whose turn it is |
| `SlotWindows.KeepsWindowIff` | src/node.c:592-644 | all data transmissions of a slot start within its first 45 ms if and only if it was entered at or after begin_ms of the frame |
| `SlotWindows.SendsExactly` | src/node.c:592-644 | having entered its slot at or after begin_ms, a node may start sending until 45 ms of the slot are over, and not longer |
| `SlotWindows.SendsInWindow` | src/node.c:639-644 | on the common clock those 45 ms lie where the unrolled offset and the slot id put them |
| `SlotWindows.NeverBothSend` | src/sync.c:286-298 | over every run: if two nodes each ended a round within the dead band, with a record from the other, and neither moved since that round began, they never start transmissions at the same instant, for every number of nodes, rotation and frame |
| `SlotWindows.RoundBounds` | src/sync.c:264-298 | such a round says that the other node is less than 5 ms ahead, however late its beacons were heard up to the bound of the run |
| `SlotWindows.MeanIsAtLeast` | src/sync.c:225-230 | delays of at least k ms have a mean of at least k ms, so the dead-band test on means bounds the misalignments |
| `TxQueue.Queue.Push` | src/tx_queue.c:29-57 | an acceptable packet goes to the end, the oldest one is dropped first if 64 are queued, an empty or oversized one is ignored |
| `TxQueue.Queue.Pop` | src/tx_queue.c:59-73 | the oldest packet, unlinked, or null exactly when the queue is empty |
| `TxQueue.Queue.Flush` | src/tx_queue.c:83-95 | the queue is empty afterwards and the count returned is what it held |
| `TxQueue.Queue.Size` | src/tx_queue.c:75-81 | the stored count is the number of queued packets |
| `TxQueue.AcceptedIsDepartedPlusQueued` | src/tx_queue.c:29-95 | over every run, what left the queue followed by what is in it is what it held and accepted, in order of arrival |
| `TxQueue.QueueBalance` | src/tx_queue.c:29-95 | accepted = popped + evicted + flushed + queued, with at most 64 queued |
| `TxQueue.PushesKeepNewest` | src/tx_queue.c:29-57 | pushes alone, any number of them, leave the newest 64 of the packets held and of those that came with 1 to 2048 bytes |
| `SlotDrain.DrainQueue` | src/node.c:634-719 | the drain loop on the linked queue, against any arrivals, clock, routes and send results, is the run of its turns and ends once the clock reaches the slot end |
| `SlotDrain.TakeTurn` | src/node.c:639-719 | one turn pops the oldest packet and sends, discards or puts it back at the tail |
| `SlotDrain.NextPacketExactly` | src/node.c:640-718 | in every slot: a popped packet is put back and the loop ends exactly when the slot is over or a routed frame does not fit into what the bytes really sent left of the 135000; otherwise it is sent exactly if it has a route, a known address, a connection and a positive send result, and the smaller of that and its frame of 28 bytes and the data is counted; a message id is used exactly when the slot is not over and there is a route |
| `SlotDrain.QuietSlotEmptiesQueue` | src/node.c:639-719 | a slot with time and budget for all frames empties the queue: each packet handled once, in order, none put back, whatever the routes, connections and send results |
| `SlotDrain.QuietSlotSendsAll` | src/node.c:639-719 | if moreover every packet has all of these and every send is complete, all are sent, whole, in order and with message ids in sequence, and exactly the bytes of their frames are counted |
| `SlotDrain.EveryPoppedPacketHasOneFate` | src/node.c:639-719 | every popped packet is logged exactly once, in order of popping |
| `SlotDrain.AtMostOneDeferral` | src/node.c:640-672 | at most one packet is put back in a slot, and it is the last one popped |
| `SlotDrain.DrainConserves` | src/node.c:639-672 | what left the queue during a slot followed by what is in it is what it held, what arrived, and last the packet put back |
| `SlotDrain.TallyStaysOk` | src/node.c:663-718 | the byte count is that of the packets sent, each admitted within the budget without its prefix; message ids run in sequence modulo 2^16, a packet put back over budget using one up |
| `SlotDrain.IdsDiffer` | src/node.c:663-672 | no two packets of a slot that handles at most 2^16 have the same message id |
| `SlotDrain.BytesAreBounded` | src/node.c:668-718 | at most 135004 bytes are counted in a slot |
| `Pdr.Estimator.Estimate` | src/pdr.c:46-89 | storing an id and rescanning the table gives the specified estimate, or empties the table when an id is out of order |
| `Pdr.Estimator.Update` | src/pdr.c:96-112 | an update counts in 16 bits and every tenth one hands on the whole percentage |
| `Pdr.Estimator.Scan` | src/pdr.c:56-79 | the pass over the pairs finds the missing ids, the earliest id counted, and whether one is out of order |
| `Pdr.QualitySet` | src/pdr.c:104-108 | the quality handed on is the percentage rounded down and at most 100 |
| `Pdr.EveryTenthHandsOn` | src/pdr.c:96-112 | from the start, with increasing ids: every tenth update hands a quality on and no other does; up to the 300th it is the whole percentage of the ids received, the first one not counted, among those sent since |
| `Pdr.ExactUntilFull` | src/pdr.c:46-89 | from an empty table with any write position, until the last slot is written, the estimate after k increasing ids, k >= 2, is exactly 100 (k-1) / (last - first) |
| `Pdr.OneGapUncounted` | src/pdr.c:56-89 | once the last slot was passed, with h ids held, it is 100 (h - 1 + G) / (newest - oldest), G being the ids missing between slots 299 and 0, unless the oldest stands alone in slot 299 |
| `Pdr.ExactInLastSlot` | src/pdr.c:56-89 | with the newest id in slot 299 of a full table it is 100 * 299 / (newest - oldest) |
| `Pdr.OldestIgnoredInLastSlot` | src/pdr.c:56-89 | with the oldest id alone in slot 299 and the newest in slot p > 0 it is 100 p / (newest - the id in slot 0): the oldest is not counted; with p = 0 the estimate stays |
| `Pdr.TableHoldsNewest` | src/pdr.c:50-51 | from an empty table with any write position, after increasing ids the table holds the newest 300, round and round, and was never emptied |
| `Pdr.ResetsExactly` | src/pdr.c:73-79 | for every id after increasing ones, wherever these began: it empties the table, keeping estimate and write position, if and only if it is earlier than the id before it, or, written to slot 0, than the one before that, or is 0 while a pair is left; otherwise it is stored |

## Left out

- Sockets, TCP accept and keepalive, the tunnel device, netlink and `system()` calls: input and output. Their results are parameters of a drain turn.
- Mutexes and threads: each critical section is one step; `MeshNode` does not model the delay between raising the topology event and handling it.
- The ARP variant of the routes, the kernel routes, and the `quality` and `hops` fields of the routing table.
- `src/wifi_quality.c`, the 16-frame loss window and `sync_data_plane_ready`: they only set a quality, or only read a clock.
- Floating point: means, delays, ages and ratios are exact. `compute_delay` is modelled on whole microseconds.
- Ids outside 1..20 and malformed beacons: received tables are assumed to list distinct ids in that range and no negative age. Ids outside the range are ignored by the estimator before it is reached.
- Failing allocations.
- MatrixMerge.MergeTables: the result buffer of the merge and the branch lists of the routing are built as values, not as memory written in place; the tables it is copied into are arrays.
- OwnMinimum.AlwaysCheapestIff: the tables are those of a node that knows all links of its network; with one-way links only the `if` half is proved, in `OneWayHomeIsCheapestInRuns`.
- ReachedLoops.AlwaysDeliversIffNoCycle: the nodes have separate runs, each with well-formed beacons that no run of the mesh need send; over runs of the whole mesh it is proved for networks of at most two hops (`MeshDeliversIffNoCycle`), the `if` half for all (`NoCycleDeliversInMesh`). For one-way links only the `if` half is proved, in `CycleFreeLinksDeliver`.
- MeshSettles.AllSettle: beyond two hops it is not shown which networks settle in runs of the mesh, since second-hand reports never renew a creation time (`IndirectNeverRefreshes`) and a row is replaced only by a later dated one: a row that came three hops before it was complete can stay incomplete; `SettledIsReached` and `EveryRowIsRead` are about one node and any well-formed beacons.
- Wire.Serialize: where the copies would leave the buffer (16 to 20 nodes) the C code has no defined result; the doubles of the ages are eight opaque bytes each, and the sweep and stamping before packing are `TdmaMatrix.Announce`.
- Wire.Deserialize: packets shorter than what they announce and counts of 20 or more, for which the C code reads or writes outside its objects.
- Sync.ComputeDelay: requires that the frame divides evenly into slots, which holds because the frame is 50 ms times the number of nodes.
- SyncProtocol.StepKeeps: clock differences are constant, and the lateness of beacons has a common bound, with which the nodes lie within half a frame.
- SlotWindows.NeverBothSend: data packets of a slot entered at or after begin_ms (`KeepsWindowIff` says why); the beacon that opens a slot is not held back by the guard in the source. The nodes start, with the lateness of a measurement, within half a frame of each other.
- SlotDrain.DrainQueue: the environment is any finite script whose last clock reading has reached the slot end; a clock that never does is not covered. Sending once per round is not modelled.
- Pdr.ExactUntilFull: one source per estimator; the array over all sources is left out.
- Pdr.ResetsExactly: after increasing ids. An id out of order that does not empty the table leaves one that the closed forms do not describe.

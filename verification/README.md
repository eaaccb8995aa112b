# Verified models of the BINDU network and its tools

The repository extends gem5's Garnet on-chip network with a *bubble*: one channel of the mesh is
kept empty and walks over all routers along a fixed snake, exchanging its place with waiting
packets, so that any routing algorithm, however adaptive, cannot deadlock for good. This project
models that network, the mesh topologies and routing tables around it, and the algorithms of the
tools that come with it.

* **The bubble.** `SnakeWalk` is the walk itself. `Network` is the flow control as a state machine:
  injection, arrival, switch traversal, ejection, credits, and the two kinds of bubble moves, each
  with the assertions of the simulator as possible failures. `Safety` proves the invariant of every
  step, `BubbleMoves` exactly when and where a bubble moves, `Ledger` the conservation of packets over every run. `Liveness` and `Startup` prove that one
  bubble is enough: from any state a run can reach, some schedule still delivers everything.
  `Wakeup` proves what holds when flits are never held back: whenever nothing but the bubble can
  move, the bubble alone can set a flit going again. `Crowds` finds the largest number of bubbles
  that cannot block each other, and `Placement` when placing several bubbles is sound.
  `GarnetNetwork` is the imperative form of the bubble code, proved against the state machine.
* **Routing without a bubble.** `RoutingUnit` has the direction-based algorithms, `Deadlock` the
  turn-model argument (west-first and XY drain in bounded work from every reachable state) and
  `RingDeadlock` the counterpart: adaptive routing does deadlock, on exactly the meshes with a ring.
* **The claim of the topology scripts.** `MeshTopology` builds the links, `ShortestPath` is the
  in-place all-pairs loop, `RoutingTable` the lookup, and `TableRouting` and `TableNetwork` compose
  them: the link weights of the scripts do produce tables that follow west-first or XY routing, and
  are therefore deadlock free.
* **The tools.** `ReorderWindow` and `Timeline` (pipeline viewer), `CheckpointUpgrade` (round-based
  dependency resolution), `CheckpointAggregator`, `PortBinding` (the greedy pass over a sorted
  connection list), `ProtoStream` (varints and framing), `DepTrace` (trace printer and parser),
  `YearRanges`, `MemTree` and `ClusterTree`. `Basics`, `Mesh` and `Text` hold shared definitions.

Random draws, free-channel counts and the routing function are parameters: what is proved of every
run holds for all of their outcomes, and that a run can go on means for some draws. Files are byte or line sequences, protobuf messages their serialized bytes.

Where a promise of the source does not hold for all inputs, the exact condition is proved: even mesh
sizes for the walk, different routers for the bubbles, distances up to the infinite latency for the
tables, the minimum threshold and different columns for the viewer, dependencies on tags without a
downgrader for the checkpoint upgrader, schedulable lists for the port binder, surviving lengths for
the framing, well-formed records for the trace, four-digit ranges for the years and full images for
the aggregator. Concrete inputs show the failures that are not obvious: `AbsentBlocks` and
`PresentComesTooLate` for the upgrader, `RejectsOrderable` for the port binder and
`UnalignedOverflows` for the viewer.

## Model

| member | source | states |
|---|---|---|
| `SnakeWalk.MoveFollowsSnake` | gem5/main.cpp:11-62 | On an even mesh every move of the bubble goes to an adjacent router, one position further along the snake when the sense is increasing and one back when it is not |
| `SnakeWalk.MoveAdvancesPhase` | gem5/main.cpp:11-62 | One move advances the position on the closed walk out and back by exactly one, modulo 2(n*n-1) |
| `SnakeWalk.WalkStaysOnMesh` | gem5/main.cpp:10-63 | From any router and sense of an even mesh, the bubble is on the mesh after any number of moves and every move is between neighbours |
| `SnakeWalk.EveryWindowVisits` | gem5/main.cpp:10-63 | Every window of 2(n*n-1) consecutive steps visits every router, from any start |
| `SnakeWalk.WalkIsPeriodic` | gem5/main.cpp:10-63 | The walk repeats with period 2(n*n-1), in router and in sense |
| `SnakeWalk.OddWalkMissesTail` | gem5/main.cpp:10-63 | For odd n the walk from router 0 never gets past router n*n-n |
| `SnakeWalk.StaysOnMeshIffEven` | gem5/src/mem/ruby/network/garnet2.0/GarnetNetwork.cc:772-833 | The range of the next router holds for every router and sense if and only if n is even |
| `SnakeWalk.CoversMeshIffEven` | gem5/main.cpp:10-63 | The walk from router 0 visits all routers if and only if n is even |
| `SnakeWalk.Move` | gem5/src/mem/ruby/network/garnet2.0/GarnetNetwork.cc:772-833 | The branching code computes the walk function, sense included |
| `SnakeWalk.Trace` | gem5/main.cpp:10-63 | The loop prints the routers of the walk in order |
| `Safety.InjectPhases` | gem5/src/mem/ruby/network/garnet2.0/NetworkInterface.cc:368-461 | An injection finds its channel free and puts the packet on the wire |
| `Safety.ArrivePhases` | gem5/src/mem/ruby/network/garnet2.0/InputUnit.cc:84-153 | A flit that arrives finds an idle channel and is buffered with the computed output |
| `Safety.SendPhases` | gem5/src/mem/ruby/network/garnet2.0/SwitchAllocator.cc:172-272 | A flit that wins the switch finds the downstream channel free, takes its credit and starts the return of its own |
| `Safety.DeliverPhases` | gem5/src/mem/ruby/network/garnet2.0/SwitchAllocator.cc:172-272 | An ejected flit leaves its channel with a credit on the way back |
| `Safety.CreditPhases` | gem5/src/mem/ruby/network/garnet2.0/OutputUnit.cc:132-144 | A returned credit frees the channel, never exceeding the buffer depth |
| `Safety.IntraPhases` | gem5/src/mem/ruby/network/garnet2.0/GarnetNetwork.cc:332-465 | An attempt to move a bubble within its router never fails an assertion, and if it moves it exchanges the two channels, flit against hole |
| `Safety.InterPhases` | gem5/src/mem/ruby/network/garnet2.0/GarnetNetwork.cc:467-601 | The same for an attempt to move a bubble to the next router |
| `Safety.NextPlaceOnMesh` | gem5/src/mem/ruby/network/garnet2.0/GarnetNetwork.cc:772-833 | A bubble in a network that satisfies the invariant always has a next router on the mesh, different from its own |
| `Safety.NextHasEffect` | gem5/src/mem/ruby/network/garnet2.0/GarnetNetwork.cc:332-601 | Every enabled event succeeds and changes the phases of at most two channels and one bubble as specified |
| `Safety.NextIsSafe` | gem5/src/mem/ruby/network/garnet2.0/GarnetNetwork.cc:332-601 | Every enabled event keeps the invariant: no simulator assertion fails, credits match buffers, a channel is a hole exactly if one bubble is in it, and bubbles stay apart |
| `BubbleMoves.IntraMovesToFirstOpen` | gem5/src/mem/ruby/network/garnet2.0/GarnetNetwork.cc:332-465 | A bubble that is due moves within its router exactly if one of the ports drawn is open, that is not local and its channel free or holding a flit. It then changes places with the first such channel, and the cycle of the move is recorded. Otherwise nothing changes |
| `BubbleMoves.InterMovesToFirstOpen` | gem5/src/mem/ruby/network/garnet2.0/GarnetNetwork.cc:467-601 | A bubble that is due takes on the sense of the walk, and moves exactly if one of the ports drawn at the next router is open, that is not local and its channel free or holding a flit not about to be ejected. It then changes places with the first such channel, and the flit is routed again from the old place. Otherwise only the sense changes |
| `BubbleMoves.PortsInOrder` | gem5/src/mem/ruby/network/Topology.cc:145-159 | The ports that are drawn from are the local ones and then those of the neighbours in the order of their routers, which is the order in which the links are made |
| `Ledger.EffectConserves` | gem5/src/mem/ruby/network/garnet2.0/SwitchAllocator.cc:172-272 | No event duplicates or drops a packet: copies in the network plus delivered equal copies before plus injected, packet by packet |
| `Ledger.RunConserves` | gem5/src/mem/ruby/network/garnet2.0/GarnetNetwork.cc:332-601 | The same over every run, of any length, with any number of bubbles, and the invariant at its end |
| `Ledger.NoAssertionFails` | gem5/src/mem/ruby/network/garnet2.0/GarnetNetwork.cc:332-601 | No run reaches a failed simulator assertion |
| `Liveness.Settle` | gem5/src/mem/ruby/network/garnet2.0/OutputUnit.cc:132-144 | From any state the flits and credits on links can be taken in without changing the packets held |
| `Liveness.DrawPort` | gem5/src/mem/ruby/network/garnet2.0/GarnetNetwork.cc:467-601 | Some outcome of the random draws makes the bubble try a given port that accepts it |
| `Liveness.BubbleStep` | gem5/src/mem/ruby/network/garnet2.0/GarnetNetwork.cc:467-601 | If the switch is held back meanwhile, the bubble can be taken to any inviting channel of its next router, leaving behind what was there, rerouted |
| `Liveness.PickUp` | gem5/src/mem/ruby/network/garnet2.0/GarnetNetwork.cc:467-601 | When the bubble comes to a waiting packet at the right point of its walk, it can carry the packet one hop nearer along the snake |
| `Liveness.WalkOn` | gem5/src/mem/ruby/network/garnet2.0/GarnetNetwork.cc:467-601 | Otherwise the bubble can take one step of its walk without moving that packet, and is then one step nearer to that point |
| `Liveness.Carry` | gem5/src/mem/ruby/network/garnet2.0/GarnetNetwork.cc:467-601 | Under a chosen schedule, any packet waiting in a router-to-router channel can be carried until some packet is delivered |
| `Liveness.MakeRoomAndEnter` | gem5/src/mem/ruby/network/garnet2.0/GarnetNetwork.cc:467-601 | If only local channels hold packets, under a chosen schedule the bubble can make room so that one enters the network |
| `Liveness.DeliverOne` | gem5/src/mem/ruby/network/garnet2.0/GarnetNetwork.cc:467-601 | With one bubble on an even square mesh, from every state with packets some schedule delivers one |
| `Liveness.DeliverAll` | gem5/src/mem/ruby/network/garnet2.0/GarnetNetwork.cc:467-601 | and hence some schedule delivers all of them |
| `Startup.DoorIs` | gem5/src/mem/ruby/network/garnet2.0/GarnetNetwork.cc:187-231 | A bubble starts in the channel from the neighbour with the smallest number: south, else west, else east, else north |
| `Placement.PoweredUpCrowds` | gem5/src/mem/ruby/network/garnet2.0/GarnetNetwork.cc:166-239 | After placement each bubble is at the door of its router with increasing sense and both cycles zero, and each channel has spent one credit for every bubble in it |
| `Placement.SharedDoorFails` | gem5/src/mem/ruby/network/garnet2.0/GarnetNetwork.cc:166-239 | If two bubbles placed without a failure share a router, some run makes the simulator fail an assertion, whatever the buffer depth |
| `Placement.PlacementSoundIffDistinct` | gem5/src/mem/ruby/network/garnet2.0/GarnetNetwork.cc:166-239 | Placing the bubbles succeeds and no run from there, under any routing function, fails an assertion, if and only if the bubbles are given different routers |
| `Startup.DefaultHomesDistinct` | gem5/src/mem/ruby/network/garnet2.0/GarnetNetwork.cc:181-183 | The default routers, bubble number modulo routers, are different if and only if there are no more bubbles than routers |
| `Startup.OneBubbleIsDeadlockFree` | gem5/src/mem/ruby/network/garnet2.0/GarnetNetwork.cc:332-601 | From power-up with one bubble, after any run under any routing function, adaptive or not, there is a schedule on which the network goes on without new injections until exactly the packets injected have been delivered; the schedule and the random draws are chosen, and may hold back a flit that could be sent |
| `Wakeup.CarryUntilAwake` | gem5/src/mem/ruby/network/garnet2.0/GarnetNetwork.cc:467-601 | What is left of carrying a packet when flits are never held back: waiting and bubble moves alone, each from a state in which no flit and no credit can move, lead to a state in which a flit can be sent or delivered |
| `Wakeup.BubbleWakesNetwork` | gem5/src/mem/ruby/network/garnet2.0/GarnetNetwork.cc:467-601 | From every state with one bubble and packets in which no flit and no credit can move, some such run of waiting and bubble moves reaches a state in which a flit can be sent or delivered; no flit or credit is held back on the way |
| `Wakeup.OneBubbleIsNeverStuck` | gem5/src/mem/ruby/network/garnet2.0/GarnetNetwork.cc:332-601 | Hence no run from power-up with one bubble, under any routing function, ends in a state with packets that the bubble cannot set going again |
| `Crowds.SomeBubbleWalksOn` | gem5/src/mem/ruby/network/garnet2.0/GarnetNetwork.cc:467-601 | With up to four bubbles, three on the 2 by 2 mesh, in every settled state with nothing ready to leave some bubble can move to its next router |
| `Crowds.OneMoreCanStandStill` | gem5/src/mem/ruby/network/garnet2.0/GarnetNetwork.cc:467-601 | With one bubble more there is a state that satisfies the invariant, holds packets and in which no flit, no credit and no bubble can move, so the number is the largest |
| `GarnetNetwork.Garnet.Claim` | gem5/src/mem/ruby/network/garnet2.0/GarnetNetwork.cc:217-221 | Takes a channel for a bubble, or reports the assertion on its credit |
| `GarnetNetwork.Garnet.OtherBubble` | gem5/src/mem/ruby/network/garnet2.0/GarnetNetwork.cc:350-364 | Whether another bubble is in the channel |
| `GarnetNetwork.Garnet.AttemptIntra` | gem5/src/mem/ruby/network/garnet2.0/GarnetNetwork.cc:345-461 | One attempt within the router is the attempt of the model |
| `GarnetNetwork.Garnet.MoveIntraBubble` | gem5/src/mem/ruby/network/garnet2.0/GarnetNetwork.cc:332-465 | The loop over random ports computes the move of the model, with the same failures; in a state that satisfies the invariant it says that it moved exactly if the bubble was due and some port drawn was open, and leaves the state `IntraMovesToFirstOpen` describes |
| `GarnetNetwork.Garnet.AttemptInter` | gem5/src/mem/ruby/network/garnet2.0/GarnetNetwork.cc:488-596 | One attempt at the next router is the attempt of the model |
| `GarnetNetwork.Garnet.MoveInterBubble` | gem5/src/mem/ruby/network/garnet2.0/GarnetNetwork.cc:467-601 | The loop over random ports of the next router computes the move of the model, sense included; in a state that satisfies the invariant it says that it moved exactly if the bubble was due and some port drawn was open, and leaves the state `InterMovesToFirstOpen` describes |
| `GarnetNetwork.Garnet.InitBubble` | gem5/src/mem/ruby/network/garnet2.0/GarnetNetwork.cc:190-231 | Places a bubble in the first port that is not local |
| `GarnetNetwork.Garnet.InitBubbles` | gem5/src/mem/ruby/network/garnet2.0/GarnetNetwork.cc:166-239 | Places all bubbles as the model does |
| `RoutingUnit.XYIsUnique` | gem5/src/mem/ruby/network/garnet2.0/RoutingUnit.cc:216-270 | XY routing answers a direction if and only if it is productive and along x while x differs |
| `RoutingUnit.RandomIsProductive` | gem5/src/mem/ruby/network/garnet2.0/RoutingUnit.cc:273-330 | Random routing may answer a direction if and only if it is productive |
| `RoutingUnit.WestFirstIsProductive` | gem5/src/mem/ruby/network/garnet2.0/RoutingUnit.cc:456-514 | West-first routing may answer a direction if and only if it is productive and west while the destination lies west |
| `RoutingUnit.AdaptiveIsProductive` | gem5/src/mem/ruby/network/garnet2.0/RoutingUnit.cc:333-602 | The adaptive variants answer only productive (west-first) directions, and where both dimensions are open each takes the neighbour with more free channels, and the coin decides between equals |
| `Deadlock.SomethingMoves` | gem5/configs/topologies/Mesh_westfirst.py:38-46 | Under a ranked routing relation every state with packets or flits in transit has an enabled move |
| `Deadlock.MovesAreBounded` | gem5/configs/topologies/Mesh_westfirst.py:38-46 | Under a minimal relation every sequence of moves is no longer than the work it uses up |
| `Deadlock.RankedRoutingDrains` | gem5/configs/topologies/Mesh_westfirst.py:38-46 | Moves alone stop after at most the work of the state, and stop exactly when everything has been delivered |
| `Deadlock.WestFirstIsRanked` | gem5/configs/topologies/Mesh_westfirst.py:118-169 | West-first routes use channels of strictly increasing rank, on every mesh |
| `Deadlock.WestFirstIsDeadlockFree` | gem5/configs/topologies/Mesh_westfirst.py:38-46 | West-first routing never deadlocks: after any run from the empty network, moves are bounded and halt only when all is delivered |
| `Deadlock.XYIsDeadlockFree` | gem5/configs/topologies/Mesh_XY.py:39-42 | XY routing never deadlocks, in the same sense |
| `RingDeadlock.FillRing` | gem5/src/mem/ruby/network/garnet2.0/RoutingUnit.cc:273-330 | On any mesh of two rows and columns or more, adaptive routing has a run from the empty network that fills a ring of four channels |
| `RingDeadlock.FullRingHalts` | gem5/src/mem/ruby/network/garnet2.0/RoutingUnit.cc:273-330 | In that state nothing can move although four packets are left |
| `RingDeadlock.AdaptiveDeadlocksIffGrid` | gem5/src/mem/ruby/network/garnet2.0/RoutingUnit.cc:273-330 | Without a bubble, minimal adaptive routing can deadlock if and only if the mesh has at least two rows and two columns |
| `MeshTopology.ConnectNodes` | gem5/configs/topologies/Mesh_westfirst.py:83-113 | Controllers are dealt to routers in turn, the remainder to router 0; west-first fails exactly if a remainder is not a DMA controller |
| `MeshTopology.AddLinks` | gem5/configs/topologies/Mesh_westfirst.py:118-169 | One pair of nested loops appends the links of one direction, with ids counted on and the weights of the style |
| `MeshTopology.MakeTopology` | gem5/configs/topologies/Mesh_XY.py:53-176 | Builds the topology exactly when the assertions on rows and columns hold, in both weight styles |
| `MeshTopology.NodeIsAt` | gem5/configs/topologies/Mesh_westfirst.py:99-113 | Controller k has external link k; of those dealt out, router r gets the ones numbered r plus a multiple of the number of routers, and the remainder goes to router 0 |
| `MeshTopology.LinkIsAt` | gem5/configs/topologies/Mesh_westfirst.py:118-172 | The link from a router in a direction has a place and an id given in closed form, the numbers of the two routers as its ends, and weight 1 if it goes west, or east in the XY style, and 2 otherwise |
| `MeshTopology.AllHopsAreTheHops` | gem5/configs/topologies/Mesh_westfirst.py:118-169 | The four pairs of loops pass over every pair of neighbours, in each direction once |
| `MeshTopology.TopologyIsMesh` | gem5/configs/topologies/Mesh_XY.py:90-173 | Internal links and ordered pairs of adjacent routers are in bijection, their number is 2*rows*(cols-1) + 2*cols*(rows-1), and ids over external then internal links are exactly 0..count-1 |
| `ShortestPath.ImproveEntry` | gem5/src/mem/ruby/network/Topology.cc:228-252 | The entry becomes the least of itself and all sums through one stop, no other entry changes, and every entry remains the cost of a walk |
| `ShortestPath.ExtendShortestPath` | gem5/src/mem/ruby/network/Topology.cc:218-256 | The in-place loop ends, with every entry the least cost of any walk between the two switches |
| `ShortestPath.NoShorterWalk` | gem5/src/mem/ruby/network/Topology.cc:218-256 | When a pass changes nothing, no walk of any length is cheaper than the entry |
| `ShortestPath.DistIsUnique` | gem5/src/mem/ruby/network/Topology.cc:258-265 | The distance is determined by the weights |
| `TableRouting.FillWeights` | gem5/src/mem/ruby/network/Topology.cc:121-143 | The weight matrix holds zero on the diagonal, the link weights and the infinite latency elsewhere |
| `TableRouting.DistToNode` | gem5/src/mem/ruby/network/Topology.cc:258-265 | On the weighted mesh the distance to a node is hop cost plus one, or the weight of a missing link if that is less |
| `TableRouting.DirectionOnPath` | gem5/src/mem/ruby/network/Topology.cc:267-273 | A link in direction d is on a shortest path to a node if and only if d is productive and the node is not further than the infinite latency |
| `TableRouting.LocalOnPath` | gem5/src/mem/ruby/network/Topology.cc:267-273 | A link to a node at the router is on a shortest path to that node and to no other |
| `RoutingTable.LookupRoutingTable` | gem5/src/mem/ruby/network/garnet2.0/RoutingUnit.cc:69-146 | The lookup finds a link of least weight among those that reach the destination and, among these, of most free channels, the first such one; none exactly if no link reaches it |
| `TableRouting.LookupFollowsRelation` | gem5/src/mem/ruby/network/garnet2.0/RoutingUnit.cc:69-146 | Looking up the table computed from the weights answers a direction that west-first (or XY) allows, the local port at home, and nothing exactly if the node is further than the infinite latency |
| `TableRouting.RelationIsAnswered` | gem5/src/mem/ruby/network/garnet2.0/RoutingUnit.cc:69-146 | Every direction the relation allows is the answer for some free-channel counts |
| `TableNetwork.TopologySystem` | gem5/configs/topologies/Mesh_westfirst.py:57-172 | A topology built by the script is the system whose distances are computed; with at least as many controllers as routers every router has a node |
| `TableNetwork.ComputeDistances` | gem5/src/mem/ruby/network/Topology.cc:108-147 | Filling the weights and extending the shortest paths gives the distances of the system |
| `TableNetwork.TablesFollowRelation` | gem5/configs/topologies/Mesh_westfirst.py:38-46 | Routing by the computed tables to a served router, that is one that has nodes, all within the infinite latency of every router, follows the west-first (or XY) relation |
| `TableNetwork.TablesAreDeadlockFree` | gem5/configs/topologies/Mesh_westfirst.py:38-46 | The claim of the script: on every mesh it builds, routing by tables computed from its weights never deadlocks as long as packets go to served routers |
| `TableNetwork.ServedMeshIsDeadlockFree` | gem5/configs/topologies/Mesh_westfirst.py:38-46 | and without condition on the packets if every router is served |
| `TableNetwork.TableRoutingExists` | gem5/src/mem/ruby/network/garnet2.0/RoutingUnit.cc:69-146 | On every system some routing function is routing by its tables, so the two results speak of something |
| `TableNetwork.RoutableIffNear` | gem5/src/mem/ruby/network/garnet2.0/RoutingUnit.cc:69-146 | A route to a node is found if and only if its distance does not exceed 10000 |
| `ReorderWindow.PrintQueue.TakeFirst` | gem5/util/o3-pipeview.py:170-188 | The first instruction is taken, and printed unless outside the limits, which `ProcessTrace` gives field by field |
| `ReorderWindow.PrintQueue.PrintInsts` | gem5/util/o3-pipeview.py:167-188 | Sorts the queue and takes from its front until the threshold is left |
| `ReorderWindow.PrintQueue.QueueInst` | gem5/util/o3-pipeview.py:159-164 | Queues an instruction and flushes when the queue exceeds the maximum |
| `ReorderWindow.ProcessTrace` | gem5/util/o3-pipeview.py:126-188 | A whole trace prints what the window function says. Every instruction printed has a sequence number and a fetch tick within the bounds that are set, and has retired if only committed ones are wanted; every arrival that meets all this is printed as often as it arrived |
| `ReorderWindow.SortIsSorted` | gem5/util/o3-pipeview.py:153-155 | The sort is an ordered permutation |
| `ReorderWindow.SortIsStable` | gem5/util/o3-pipeview.py:169-169 | and instructions with the same number keep their order |
| `ReorderWindow.QueueLength` | gem5/util/o3-pipeview.py:159-164 | The queue fills to the maximum; the next arrival brings it down to the minimum, and so does every one that is the difference plus one later |
| `ReorderWindow.WindowedIsSorted` | gem5/util/o3-pipeview.py:47-52 | If no instruction is more than the minimum threshold of places late, the output is the stable sort of the whole trace, less what the limits filter out |
| `ReorderWindow.QueueIsBounded` | gem5/util/o3-pipeview.py:159-164 | Between calls the queue never holds more than the maximum |
| `ReorderWindow.PrintedCounts` | gem5/util/o3-pipeview.py:167-188 | Whatever the order, each instruction is printed as often as it arrived if within the limits, which `ProcessTrace` gives field by field, and never otherwise |
| `ReorderWindow.SortsExactlyUpToMin` | gem5/util/o3-pipeview.py:51-52 | The output is sorted for all traces at most k places late if and only if k is at most the minimum threshold |
| `Timeline.ExactlyOneRow` | gem5/util/o3-pipeview.py:227-259 | Every stage reached falls in exactly one printed row, in the compact form and in the form of several rows |
| `Timeline.RowLength` | gem5/util/o3-pipeview.py:263-283 | A row is never narrower than the width, and has exactly the width if and only if no two drawn stages of the row have ticks in the same column |
| `Timeline.RowShowsStage` | gem5/util/o3-pipeview.py:263-283 | Then every drawn stage of the row has its letter at the column of its tick |
| `Timeline.ColumnsDifferIffCycles` | gem5/util/o3-pipeview.py:227-263 | Stages in different cycles have different columns, and conversely, in the form of several rows always and in the compact form if fetch is on a cycle boundary |
| `Timeline.UnalignedOverflows` | gem5/util/o3-pipeview.py:227-263 | Otherwise not: fetch at tick 5 and retire at tick 22, cycles of ten ticks, share a column of a row two cells wide, which becomes longer |
| `Timeline.CellsPlace` | gem5/util/o3-pipeview.py:268-282 | and every other cell is a dot |
| `Timeline.PrintRow` | gem5/util/o3-pipeview.py:255-282 | The loops over stages and sorted events draw the row |
| `Timeline.LinesCount` | gem5/util/o3-pipeview.py:227-245 | There is one row exactly if every tick is less than a row after the fetch; otherwise the rows go up to that of the latest tick and no further |
| `Timeline.RowIsRight` | gem5/util/o3-pipeview.py:247-283 | A row as wide as it should be has, in terms of the ticks alone, the letter of each of its stages at the column of its tick and elsewhere dots, or equals signs for an instruction that did not retire; dispatch is left out when it coincides with issue |
| `Timeline.RowLetters` | gem5/util/o3-pipeview.py:255-279 | Without its dots any row spells the letters of its stages in the order of their places in the row, and of their names where these are equal |
| `Timeline.PrintInst` | gem5/util/o3-pipeview.py:227-283 | Prints exactly the rows that these three describe |
| `CheckpointUpgrade.ApplyRound` | gem5/util/cpt_upgrader.py:248-250 | Applying what is ready, in any order, gives the same tags and never removes an absent one |
| `CheckpointUpgrade.Migrate` | gem5/util/cpt_upgrader.py:238-252 | The round loop computes the resolution; its log is one of the orders a round may take, applies no tag twice and respects every dependency |
| `CheckpointUpgrade.ResolveOutcome` | gem5/util/cpt_upgrader.py:241-252 | Success applies all; an abort reports a non-empty set of which nothing is ready, with everything else applied |
| `CheckpointUpgrade.MigrationResult` | gem5/util/cpt_upgrader.py:146-154 | A success ends with old tags plus upgrade tags minus downgrade tags, keeps unknown tags, and leaves nothing to do |
| `CheckpointUpgrade.SucceedsIffOrderable` | gem5/util/cpt_upgrader.py:238-252 | Without pending downgraders, the loop succeeds if and only if some order of the missing tags respects all dependencies |
| `CheckpointUpgrade.StuckAreUnderivable` | gem5/util/cpt_upgrader.py:243-246 | Without pending downgraders, a tag is reported on abort if and only if no order of application reaches it |
| `CheckpointUpgrade.GoneDowngradeBlocks` | gem5/util/cpt_upgrader.py:140-144 | An upgrade that depends on a tag with a downgrader that the checkpoint does not have always aborts, although lines 60-65 promise otherwise |
| `CheckpointUpgrade.PromiseKeptIffUnused` | gem5/util/cpt_upgrader.py:60-65 | Those lines promise that a dependency on a tag with a downgrader is met once the tag is gone: the migration succeeds and every order the loop can take applies each dependent after the removal. This holds if and only if the migration succeeds and no pending tag depends on a tag with a downgrader |
| `CheckpointUpgrade.AbsentBlocks` | gem5/util/cpt_upgrader.py:140-144 | The failure with two tags when the downgraded one is absent: the other cannot be applied |
| `CheckpointUpgrade.PresentComesTooLate` | gem5/util/cpt_upgrader.py:238-252 | The failure when it is present: the loop can apply the other before the removal |
| `CheckpointUpgrade.Loader.Register` | gem5/util/cpt_upgrader.py:89-138 | Registers one file; the object stays consistent if the tag is new, and a second file for a tag replaces the dependencies of the first |
| `CheckpointUpgrade.Loader.LinkLegacy` | gem5/util/cpt_upgrader.py:167-171 | Legacy version i depends on version i-1 alone |
| `CheckpointUpgrade.Loader.ResolveForward` | gem5/util/cpt_upgrader.py:173-185 | Forward dependencies are turned round, and unknown tags are reported |
| `CheckpointUpgrade.LoadAll` | gem5/util/cpt_upgrader.py:160-185 | Loading succeeds if and only if legacy version 2 exists whenever 3 does and every tag named, either way, is known; each tag then depends on exactly its own list, or the version before for a linked legacy version, and the tags whose files name it forward |
| `CheckpointUpgrade.LegacyTags` | gem5/util/cpt_upgrader.py:214-218 | A legacy version becomes the tags of versions 2 to itself, or fails if one is unknown |
| `CheckpointUpgrade.AppliedBefore` | gem5/util/cpt_upgrader.py:241-252 | A dependency missing at the start is applied earlier |
| `CheckpointUpgrade.LegacyInOrder` | gem5/util/cpt_upgrader.py:167-171 | A legacy version is applied only after every missing earlier one |
| `CheckpointUpgrade.LegacyTagsDownClosed` | gem5/util/cpt_upgrader.py:214-218 | The converted tags of a legacy version include all earlier ones, as the order result needs |
| `PortBinding.SortIsSorted` | gem5/configs/example/read_config.py:148-151 | The sort is a permutation in the order of the comparison |
| `PortBinding.PassIsInNameOrder` | gem5/configs/example/read_config.py:148-151 | which is that of a dictionary: by the first place where object names differ, then port names, then the index, first for one end and then for the other |
| `PortBinding.BindPorts` | gem5/configs/example/read_config.py:291-337 | The pass goes through the connections in the order of their names and binds what the model binds; when it succeeds the vectors are as configured; it raises if and only if no choice of directions can be scheduled in the sorted list |
| `PortBinding.TryKeepsWellBound` | gem5/configs/example/read_config.py:324-333 | Every prefix of the pass keeps: counters are vector lengths, every peer is at its configured index, and no port is bound twice |
| `PortBinding.BindsEachOnce` | gem5/configs/example/read_config.py:335-345 | The pass makes half of the listed connections if and only if each is bound in exactly one direction, if and only if replaying the binds as appends gives every port its configured peer and nothing else |
| `PortBinding.SucceedsIffSchedulable` | gem5/configs/example/read_config.py:312-337 | The greedy pass succeeds if and only if some choice of one direction per connection meets each chosen one after the predecessors of both its ends |
| `PortBinding.BindsBuses` | gem5/configs/example/read_config.py:312-337 | Two buses, a walker and a memory whose three connections the pass binds because objects are compared before ports |
| `PortBinding.CrossedIsOrderable` | gem5/configs/example/read_config.py:291-345 | Three connections that can be bound to their configured indices in some order |
| `PortBinding.RejectsOrderable` | gem5/configs/example/read_config.py:312-314 | which the sorted pass nevertheless rejects |
| `ProtoStream.Stream.EncodeVarint` | gem5/util/protolib.py:146-158 | The loop appends the base-128 encoding |
| `ProtoStream.Stream.DecodeVarint` | gem5/util/protolib.py:101-129 | The loop with or and shift returns the narrowed value and bytes read, (0, 0) at the end of the file, or the error after ten bytes, and leaves the stream there |
| `ProtoStream.DecodeEncode` | gem5/util/protolib.py:101-158 | Decoding an encoding followed by anything consumes exactly the encoding and gives v mod 2^32 below 2^63, that minus 2^32 below 2^70, and the error beyond |
| `ProtoStream.DecodesIffNarrow` | gem5/util/protolib.py:101-158 | The value itself comes back if and only if it is below 2^32 |
| `ProtoStream.EncodeBytes` | gem5/util/protolib.py:146-158 | Byte i of an encoding holds bits 7i to 7i+6 of the value, and its high bit is set exactly if another follows |
| `ProtoStream.PrefixFree` | gem5/util/protolib.py:146-158 | No encoding is a prefix of another |
| `ProtoStream.EncodeIsShortest` | gem5/util/protolib.py:146-158 | No group of bytes that spells a value is shorter than its encoding |
| `ProtoStream.Stream.DecodeMessage` | gem5/util/protolib.py:131-144 | One message, or none at the end, after a zero length or after an overlong one; a negative length reads to the end |
| `ProtoStream.Stream.EncodeMessage` | gem5/util/protolib.py:160-166 | Appends the length and the message |
| `ProtoStream.Stream.EncodeMessages` | gem5/util/encode_inst_dep_trace.py:148-196 | Appends the messages one after the other, each with its length |
| `ProtoStream.Stream.DecodeMessages` | gem5/util/decode_inst_dep_trace.py:156-157 | Reading until there is no message gives the messages of the stream |
| `ProtoStream.ReadsBeforeEmpty` | gem5/util/protolib.py:131-166 | Messages shorter than 2^32 come back up to the first empty one |
| `ProtoStream.RoundTripIffSurvives` | gem5/util/protolib.py:131-166 | All messages come back if and only if every length is in 1..2^32-1, except that the last may be in 2^63..2^70-1 |
| `DepTrace.PrintRecord` | gem5/util/decode_inst_dep_trace.py:159-206 | Prints the line of a record field by field |
| `DepTrace.LineText` | gem5/util/decode_inst_dep_trace.py:161-206 | The line as text: number, pc or 0, weight or 1, the name of the type, the fields present, delay, and after each colon a comma before each dependency |
| `DepTrace.PrintTrace` | gem5/util/decode_inst_dep_trace.py:156-206 | Prints the lines of all records |
| `DepTrace.ParseDeps` | gem5/util/encode_inst_dep_trace.py:181-193 | Reads dependencies, skipping empty items, failing on anything the integer conversion rejects or that does not fit |
| `DepTrace.ParseRecord` | gem5/util/encode_inst_dep_trace.py:149-193 | Reads one line, with the failures of the script |
| `DepTrace.ParseIff` | gem5/util/encode_inst_dep_trace.py:149-193 | Exactly which lines parse and as what: three parts, an integer that fits for each field of the type, one of the three names, and the items that are not empty as dependencies |
| `DepTrace.ParseTrace` | gem5/util/encode_inst_dep_trace.py:148-196 | Reads all lines, stopping at the first failure |
| `DepTrace.RoundTripIffWellFormed` | gem5/util/encode_inst_dep_trace.py:150-193 | A printed record parses back, with pc defaulting to 0 and weight to 1, if and only if it is a load or store with address, size and flags, or a computation with none of them |
| `DepTrace.TraceRoundTrip` | gem5/util/decode_inst_dep_trace.py:156-206 | The same for whole traces through their lines |
| `YearRanges.DateStr` | gem5/util/find_copyrights.py:175-199 | Prints the maximal runs of the years in order, and fails exactly on the empty set |
| `YearRanges.ProcessDates` | gem5/util/find_copyrights.py:98-116 | A year is read exactly if some item, stripped, starts with a range that holds it, or starts with none and is that integer |
| `YearRanges.MatchesIffDashed` | gem5/util/find_copyrights.py:97-103 | A range is four digits, blanks, a dash, blanks and four digits, whatever follows |
| `Text.SplitIff` | gem5/util/encode_inst_dep_trace.py:150-151 | Splitting gives the only pieces without the separator that make up the text with it |
| `Text.StripTakes` | gem5/util/encode_inst_dep_trace.py:150-150 | Stripping takes blanks off both ends and leaves a text that has none there |
| `Text.StripOf` | gem5/util/encode_inst_dep_trace.py:150-150 | and whatever blanks are put around such a text, it comes back |
| `Text.IntegerIff` | gem5/util/find_copyrights.py:110-114 | An integer is, within blanks, an optional sign with blanks after it, digits and, where allowed, a suffix |
| `YearRanges.ShowsYears` | gem5/util/find_copyrights.py:179-199 | The years 1999 to 2001 and 2004 are printed as 1999-2001,2004 |
| `YearRanges.RunsAreUnique` | gem5/util/find_copyrights.py:187-197 | Only one list of runs in order and separated by gaps covers a given set |
| `YearRanges.RoundTripIffReadable` | gem5/util/find_copyrights.py:98-199 | Exactly the years printed are read back if and only if every range is between years of four digits |
| `YearRanges.FourDigitYears` | gem5/util/find_copyrights.py:98-199 | Any non-empty set of four-digit years comes back whole |
| `MemTree.NumTesters` | gem5/configs/example/memtest.py:119-130 | The count by multipliers is the number of testers in the tree |
| `MemTree.TotalIsBelow` | gem5/configs/example/memtest.py:119-130 | Counting level by level agrees with counting subtree by subtree, for every subtree |
| `MemTree.MemSystem.MakeCacheLevel` | gem5/configs/example/memtest.py:235-301 | One call adds the testers of its subtree, advances each level by the product of the fan-outs between, uses new names only, stays within its lists and fails only at the top without a next cache |
| `MemTree.DefaultTree` | gem5/configs/example/memtest.py:83-93 | The default specification has eleven testers and four subsystems on top |
| `MemTree.MakeTree` | gem5/configs/example/memtest.py:229-304 | For every valid specification the tree has as many testers as counted, each counter ends at the product of fan-outs below it, every name is used once and no error occurs |
| `ClusterTree.Network.MakeTopology` | gem5/configs/topologies/Cluster.py:78-126 | The recursion over nodes makes the routers and links of the model, drawing ids from the three shared counters, wherever those stand |
| `ClusterTree.ControllerIsLinked` | gem5/configs/topologies/Cluster.py:117-126 | The external link of a controller, at its place in the order in which controllers are met, leads to the router of the cluster that it is directly in, which is numbered by its place in pre-order |
| `ClusterTree.SubclusterIsJoined` | gem5/configs/topologies/Cluster.py:91-115 | The two links of a sub-cluster, at their place in the order in which sub-clusters are complete, join its router with that of the cluster it is directly in |
| `ClusterTree.LengthCounts` | gem5/configs/topologies/Cluster.py:128-130 | The length of a cluster is its number of controllers, at any depth |
| `ClusterTree.TopologyIsTree` | gem5/configs/topologies/Cluster.py:45-130 | m clusters and k controllers give m routers, 2(m-1) internal and k external links, the counters hand out consecutive ids from where they stood, each router but the first joined both ways to one earlier router, and every router reaches every other |
| `CheckpointAggregator.Aggregate` | gem5/util/checkpoint_aggregator.py:44-138 | Concatenates the pages read, moves the addresses, pads to the size and takes a tick that none exceeds and that is one of them or zero; fails exactly on the empty list |
| `CheckpointAggregator.InBytes` | gem5/util/checkpoint_aggregator.py:74-128 | An image is read up to 4096 bytes a page, addresses move up by 4096 a page, and what is added is the fewest whole pages of the character 0 that reach the size |
| `CheckpointAggregator.StartsIffFull` | gem5/util/checkpoint_aggregator.py:96-113 | A region starts where its addresses were moved to if and only if every image before it holds all its pages |
| `CheckpointAggregator.ReadsBack` | gem5/util/checkpoint_aggregator.py:74-113 | The merged memory at a relocated address holds the byte of the checkpoint at the original address |
| `CheckpointAggregator.RegionsDisjoint` | gem5/util/checkpoint_aggregator.py:97-99 | Regions follow one another without overlap |
| `CheckpointAggregator.RangeCovers` | gem5/util/checkpoint_aggregator.py:121-134 | The range covers the requested size, by less than a page when padded, and is the file size if and only if all images are full |

## Left out

- Several virtual channels and multi-flit packets: the bubble code works on channel 0 only and the network interface makes every packet a single flit, so one channel per port and one flit per packet are modelled.
- Timing: pipeline stages, link latencies and wake-up scheduling; events may happen in any order, and liveness says that a run can be continued to delivery, not when. The network interface accepts every ejected flit.
- Progress with several bubbles, or on odd or non-square meshes: safety and conservation cover any number of bubbles; delivery is proved for one bubble on even square meshes, where the walk is sound. For several, `Crowds` says up to how many some bubble can always move on.
- Startup.OneBubbleIsDeadlockFree: the continuation may hold back a flit that could be sent, which the switch allocator does not do; under eager switching only `Wakeup.OneBubbleIsNeverStuck` is proved, since a routing function may send flits round in circles.
- Liveness.DeliverAll: the schedule is chosen, as above.
- Liveness.DeliverOne: the schedule is chosen, as above.
- Liveness.MakeRoomAndEnter: the schedule is chosen, as above.
- Liveness.Carry: the schedule is chosen, as above.
- Liveness.WalkOn: the schedule is chosen, as above.
- Liveness.PickUp: the schedule is chosen, as above.
- Liveness.BubbleStep: the schedule is chosen, as above.
- Crowds.OneMoreCanStandStill: the blocked state satisfies the invariant; that some run reaches it is not shown.
- Placement.PlacementSoundIffDistinct: stated for even square meshes with at least one controller per router; without controllers no packet enters the network.
- The critical-bubble scheme (`cbs`) and its own walk, and drawing the bubbles' start routers at random.
- Statistics, port names, latencies and switch counts carried along the shortest paths, and the numbering of nodes by machine type.
- Custom and table routing for ordered virtual networks: the lookup in the repository does not distinguish them.
- Pipeline viewer: the early stop, whose call has one argument too few, the skipping of lines before the first fetch, and colours.
- Timeline.ExactlyOneRow: ticks of reached stages are assumed not to precede a positive fetch tick, as in traces the simulator writes; the other results on rows assume the same.
- CheckpointUpgrade.LoadAll: files are assumed to have different tags, as the script's header demands; what an upgrader does to the checkpoint's contents is not modelled.
- CheckpointUpgrade.SucceedsIffOrderable: stated for checkpoints without pending downgraders; with them, what the loop does is stated by `ResolveOutcome` and `MigrationResult` only.
- PortBinding.BindsEachOnce: connections are assumed to be listed both ways, with one peer per indexed port and none to itself; names are compared by character code.
- MemTree.MemSystem.MakeCacheLevel: prototypes are only counted; ports, crossbars and cache parameters are not modelled.
- ClusterTree.Network.MakeTopology: bandwidths and latencies are not modelled.
- CheckpointAggregator.Aggregate: configuration sections other than addresses, process count, tick and sizes; compression.
- The other topologies, the packet-trace scripts and the memory checker, which would add only easier members of the same kind; option parsing, object wiring and all input and output.

# Verified model of the satgonetem network state

satgonetem emulates a satellite network: containers are nodes, veth pairs are links, and a manager moves the
installed state (kernel tables, veth pairs, label tables, bridges, worker threads) towards the desired one step by
step. This project models that movement in Dafny and proves that the two states agree: that building incrementally
gives what building from scratch would, that what is installed is what was wanted, and that every run keeps it so.

Objects that the program changes in place (link, interface, route lists, topology manager, static daemon, segment
routing manager and daemon, flow scheduler, ping flow, HIL manager) are classes whose methods carry contracts against
pure functions; the theorems are lemmas about those functions and about runs of them. Libraries that are not part of
the repository enter as hypotheses: shortest paths through `PathOracle` and `PredecessorOracle`, kernels through the
effect of one line. `dafny verify dfyconfig.toml` checks the whole project.

## The parts

| file | content |
|---|---|
| `Wrappers.dfy`, `Text.dfy`, `Bits.dfy`, `Sorting.dfy` | results, decimal text, bit strings, stable sorting |
| `IpUtils.dfy`, `AddressPlan.dfy` | dotted addresses and prefixes; who gets which address; interface objects |
| `Routes.dfy` | routing entries; the diff of two tables and the kernel it is run on |
| `NodeRouting.dfy`, `StaticDaemon.dfy`, `StaticRoutes.dfy` | one node as a state machine over all runs; the daemon with its caches and shared lists; the routes it leaves, said of nodes and paths |
| `Forwarding.dfy`, `LoopbackRoutes.dfy` | optimal, loop-free delivery through the installed tables; the longest match of a loopback in them |
| `EndToEnd.dfy`, `QuietTick.dfy` | from reported links to packets that arrive, over every run of time steps; a network whose routes fall behind |
| `InterfaceVersion.dfy` | the version counter under racing increments |
| `Links.dfy`, `TopologySync.dfy`, `TickReports.dfy`, `Topology.dfy` | links, one tick of reconciliation, said of the reports as well; what it means for routing |
| `SegmentRouting.dfy`, `SrRoutes.dfy` | labels, label stacks, label tables; the lines the daemon wants |
| `SrInstall.dfy`, `SrWriters.dfy` | sending only what changed: one writer, and two writers of one kernel |
| `SrDelivery.dfy`, `SrPaths.dfy`, `SrJourneys.dfy`, `SrRuns.dfy`, `SrDaemon.dfy` | label delivery, which pairs have a route, the address at the end of the labels, every run, the daemon |
| `SrStored.dfy`, `SrDiverted.dfy` | what packets do while paths are stored and cleared; a packet that leaves its stored path |
| `SrServing.dfy`, `SrTicks.dfy` | when every update serves a node; which ticks do harm |
| `FlowScheduler.dfy`, `FlowResults.dfy`, `FlowProgress.dfy`, `FlowOverflow.dfy` | flow objects, the pool and the scheduler as interleaved steps; which flows have results; that every run can end; when the pool bounds the flows |
| `OrbitalPlanes.dfy`, `PlaneOrder.dfy` | clustering satellites into planes, and their order |
| `MeshLinks.dfy`, `MeshMatching.dfy` | building the mesh; its links between planes against their description |
| `Hil.dfy`, `HilTicks.dfy` | hardware bridges: single operations, and every run of ticks of the topology |
| `Disconnection.dfy` | when a satellite sets: bracket and bisect |

## What the code does not promise

Where a property one would expect is false of the code, the project proves when exactly it holds and gives the case in
which it does not.

- Route reuse compares next hops by position. It is right while the addressable set only grows (`GrowOnlyDests`);
  without that it is right exactly when `ReuseExact` says so, and `SwappedDestinationIsMissed` shows a swap that it misses.
- A device that goes and comes back between two builds loses its routes for good (`DiffExact`, `RecreatedDeviceLosesRoute`).
  Within a tick this cannot happen (`TickIsEnabled`).
- `remove` raises, and leaves the tables as they are, exactly when a route's device went since the last build (`RemoveExact`).
  The kernel is empty then, and the next update brings it back exactly when no route of the old table is in the new one
  (`AfterFailedRemove`); an `init` always does. After a build that was not sent, because the topology was not active, an
  update is enough exactly when every prefix is mended by the difference of the two tables (`AfterBuiltOnly`).
- `init` wires links that are not active, so the state between ticks is in order from the start exactly when every reported
  link is active (`InitAndLaunch`, `InactiveAtInitDoubles`). A tick that reports one link more than once leaves a wired link
  to be wired again exactly when the link was active, one report says it is not and the last one says it is
  (`DuplicatesExact`).
- The routing graph's edges are the active links exactly when a report's two activity attributes agree in the sense of
  `EdgeIsActiveLink`. Where they do, the daemon finds a device for every next hop and packets arrive (`EveryRoundDelivers`).
- A time step updates the routing only if a link was added, updated or removed, and a link is updated only when its delay in
  whole milliseconds or a capacity changes. In a quiet time step the nodes keep their routes: packets still arrive, for the
  destinations that were known at the last update, but the weights of the routing graph have moved on. Their ways stay
  shortest exactly when no edge of today's graph offers a shortcut, which the ways and the weights tell (`StaysShortest`,
  `CarriedStaysShortest`, `EveryRoundDelivers`); they always do when the graph is weighed by hops (`QuietHopsShortest`), and
  `ShortcutIsMissed` is a start and a quiet time step of the default preference in which they do not.
- The capacities of a link follow a budget that changes while the distance does not only if they happen to be the same
  (`MovedCurrent`).
- The segment routing daemon remembers lines it has sent and leaves the list alone when nothing changed. A link that goes and
  comes back while nothing else changes stays without its lines (`FlapIsForgotten`). The links a tick removes do harm only where
  a writer has nothing new to send and goes on remembering a line over one of them (`TickHarm`); a ground station still has
  what it wants then (`StationTickServes`). `RebuildExact` and `RunExact` say when exactly a rebuild, and a run of the daemon,
  gives every node what it should have and leaves nothing remembered in vain; `AlwaysServedExact` asks for the first alone.
- Two writers share the address routes of an addressable satellite. `WritersExact` says when each of them gets all it wants;
  both do exactly when no route of the satellite's own leads a packet for a linked ground station elsewhere (`BothWriters`).
- `set_sr_custom_path` does not look at adjacency. As long as no link goes or comes, and whatever is stored, cleared and
  updated after `init`, packets follow the last path their source was given exactly when its labels lead on and, with
  penultimate hop popping, the last path of the node before the last is its link to the destination (`StoredDelivers`). So an
  addressable satellite may take a packet off the stored path of a ground station; `DivertedPacket` is an `init` and a stored
  path after which one does. The stack it reports
  has one label more than the installed one, unless both are empty (`ReportedStack`).
- Clearing a stored path does not undo setting it when the pair has no other path: the stored route stays in the kernel
  (`ClearUndoesSet`).
- The first element of a label stack is the top; the comments in `satgonetem/models/mpls_entry.py:162` and `:194-195` and the
  "bottom to top" of `satgonetem/routing/srmpls_daemon.py:213` say the opposite, and the example in `mpls_entry.py:181-183` has the first
  hop's label, which the daemon does not push. The model follows the construction.
- When segment routing `init` fails for want of labels, the daemon counts as initialized all the same (`InitSrMpls`), unlike the
  documentation of `satgonetem/routing/srmpls_daemon.py:342-345`.
- A flow that times out keeps running without a worker, so the pool bounds the workers but not the running flows, of which the
  class documentation speaks. No run ever has more running flows than workers exactly when there is no timeout or no more idle
  flows are listed than there are workers (`PoolBoundExact`, `TwoFlowsOneWorker`).
- The planes are ordered by a plain mean of angles, which is a mean on the circle exactly when the plane does not straddle
  0 degrees (`MeanOnCircle`). They come in the order of their clusters around the circle exactly when no satellite of another
  cluster lies, by ascending node as a number, between two satellites of one cluster that are linked in altitude
  (`OrderExact`); `StraddlingPlaneIsMisplaced` gives five satellites whose planes do not, so consecutive planes are not always neighbours in space.
- `add_mesh_links` joins satellites of equal rank, although its documentation speaks of the closest unmatched one
  (`satgonetem/utils/project_builder.py:601-604`). The two agree whenever each satellite is at least as near to its own rank of
  the next plane as to every later rank, and exactly then if satellites of equal rank are never too far apart to be linked (`RungsExact`). For evenly
  spaced planes of equal size that is so exactly when the second is shifted by at most half a step (`ShiftedExact`), so every
  larger shift below a step is an input for which it is not.
- A tick tears down the bridge of a ground station with hardware for every removed link of the station, and a link that is not
  reported any more is removed even if it was never active. So a station that keeps its active link is cut off exactly when
  another of its links is removed (`TickExact`, `UnreportedCuts`), and over a run it has its bridge exactly unless that happened
  while the active link has stayed (`EveryHandover`).
- The disconnection estimate is a crossing, not always the first: for a satellite that sets and rises again it is the setting
  for every elevation exactly when `FirstSettingExact` says so, and `DipIsMissed` shows a dip that it misses.

## Model

| member | source | states |
|---|---|---|
| IpUtils.BinaryRoundTrip | satgonetem/utils/ip_utils.py:34-43 | parsing what `quaddot` prints gives back every 32-bit string |
| IpUtils.QuadDotInjective | satgonetem/utils/ip_utils.py:34-43 | different bit strings print differently |
| IpUtils.SummarizeKeepsPrefix | satgonetem/utils/ip_utils.py:117-145 | shifting and masking octets keeps the first p bits and zeroes the rest |
| IpUtils.SummarizeTwice | satgonetem/utils/ip_utils.py:117-145 | summarizing to p and then to q is summarizing to the shorter of both |
| AddressPlan.GenerationSucceeds | satgonetem/utils/ip_utils.py:56-99 | only an id of 2^13 or more is refused; the pair reads back as one /31, and the end with the smaller id gets the even address |
| AddressPlan.AddressBits | satgonetem/utils/ip_utils.py:85-98 | the end with the smaller id takes the even address, whichever end is assigned first |
| AddressPlan.BlocksSeparate | satgonetem/utils/ip_utils.py:85-98 | a /31 (section 2.1 of RFC 3021) belongs to one loopback or to the two ends of one link |
| AddressPlan.AddressesDistinct | satgonetem/utils/ip_utils.py:56-99 | no two holders of an address share it |
| AddressPlan.LoopbackSummary | satgonetem/utils/ip_utils.py:117-145 | a loopback summarized to 15 bits is that node's own destination |
| AddressPlan.SummariesDistinct | satgonetem/utils/ip_utils.py:117-145 | different nodes have different /15 destinations |
| AddressPlan.LoopbackLookup | satgonetem/utils/ip_utils.py:56-99 | longest-prefix match on a loopback selects that node's /15 and nothing else |
| InterfaceAddressing.Interface.SetIpv4Address | satgonetem/models/interface.py:39-71 | an unset address and the peer's are assigned together; a set one is kept |
| InterfaceAddressing.AssignBothEnds | satgonetem/services/mixins/interface_mgr.py:56-110 | assigning both ends in turn gives each the address of the plan |
| InterfaceAddressing.BothEnds | satgonetem/models/interface.py:39-71 | the plan's two addresses of a link are different and set |
| RoutingEntries.DeviceNameInjective | satgonetem/models/interface.py:28-33 | different peers have different device names |
| RoutingEntries.ConstructorsAgree | satgonetem/models/routing_entry.py:38-91 | on summarized inputs, the source possibly empty, `from_validated` builds what the validating constructor builds |
| RouteDiff.BatchIsMinimal | satgonetem/routing/static_daemon.py:810-854 | each prefix occurs once at most, and nothing is sent for an unchanged route |
| RouteDiff.BatchAt | satgonetem/routing/static_daemon.py:856-869 | in such a batch every line acts as it would alone |
| RouteDiff.DiffExact | satgonetem/routing/static_daemon.py:810-854 | the batch gives exactly the current table if and only if no unchanged route lost its device |
| RouteDiff.DiffTheorem | satgonetem/routing/static_daemon.py:810-854 | it does, and no line fails, when no removed device has come back |
| RouteDiff.MendExact | satgonetem/routing/static_daemon.py:810-854 | from any kernel at all: when exactly the batch leaves the current table |
| NodeRouting.InstallRefinesFresh | satgonetem/routing/static_daemon.py:409-488 | both cache branches give the table of a build from scratch, in order |
| NodeRouting.UpdateStep | satgonetem/routing/static_daemon.py:105-122 | an update leaves the kernel with that table and keeps the invariant |
| NodeRouting.InitStep | satgonetem/routing/static_daemon.py:76-103 | so does `init` on an empty kernel |
| NodeRouting.RemoveExact | satgonetem/routing/static_daemon.py:124-153 | `remove` empties the kernel; it succeeds exactly when no route lost its device |
| NodeRouting.AfterFailedRemove | satgonetem/routing/static_daemon.py:124-153 | after a removal that raised, an update repairs the kernel exactly when the tables share no route |
| NodeRouting.InitAfterFailedRemove | satgonetem/routing/static_daemon.py:76-103 | and `init` always repairs it |
| NodeRouting.AfterBuiltOnly | satgonetem/routing/static_daemon.py:105-122 | when exactly an update repairs the kernel after a build that was not sent |
| NodeRouting.ReuseExact | satgonetem/routing/static_daemon.py:441-451 | without the grow-only assumption, when exactly reuse is right |
| NodeRouting.SwappedDestinationIsMissed | satgonetem/routing/static_daemon.py:441-451 | a swap of destinations that reuse misses |
| NodeRouting.RecreatedDeviceLosesRoute | satgonetem/routing/static_daemon.py:838-854 | a recreated device that stays without its route |
| NodeRouting.EveryRun | satgonetem/routing/static_daemon.py:76-153 | after every step of the daemon the kernel is the current table, and the table is the one from scratch; in between it lacks the routes of the devices that went |
| StaticDaemon.GrowOnlyDests | satgonetem/services/topology_satcom.py:955-972 | with flags that are only raised, an equally long destination list is the same list |
| StaticDaemon.LastWins | satgonetem/routing/static_daemon.py:653-678 | the interface of a peer is the last one in the list |
| StaticDaemon.BuildPeerMap | satgonetem/routing/static_daemon.py:653-678 | the loop builds that map |
| StaticDaemon.TransposeNextHops | satgonetem/routing/static_daemon.py:529-539 | next hops by destination become one vector per source |
| StaticDaemon.BuildRoutes | satgonetem/routing/static_daemon.py:453-488 | reusing field-equal entries gives the table and cache of fresh ones |
| StaticDaemon.StaticRoutingDaemon.PrebuildIfaceMaps | satgonetem/routing/static_daemon.py:621-651 | the maps are the fresh ones, cached or not |
| StaticDaemon.StaticRoutingDaemon.EqualizeRoutingTables | satgonetem/routing/static_daemon.py:285-295 | the old list becomes the previous one by reference |
| StaticDaemon.StaticRoutingDaemon.InstallSourceRoutes | satgonetem/routing/static_daemon.py:409-488 | table, caches and list identity as the value-level function says |
| StaticDaemon.StaticRoutingDaemon.PopulateRoutingTables | satgonetem/routing/static_daemon.py:490-596 | every node gets its goal, and no list is shared across nodes |
| StaticDaemon.StaticRoutingDaemon.ApplyRoutes | satgonetem/routing/static_daemon.py:179-263 | each node's batch runs on its own kernel |
| StaticDaemon.StaticRoutingDaemon.Update | satgonetem/routing/static_daemon.py:105-122 | every node moves as its value does; nothing is sent while not active |
| StaticDaemon.StaticRoutingDaemon.Init | satgonetem/routing/static_daemon.py:76-103 | `init` never clears the list it just built |
| StaticDaemon.StaticRoutingDaemon.Remove | satgonetem/routing/static_daemon.py:124-153 | one node is removed as its value is; the others stay |
| StaticDaemon.ChangeLinks | satgonetem/services/mixins/link_ops.py:359-396 | link changes move one node as its value does and keep the daemon's state valid |
| StaticRoutes.DestsInOrder | satgonetem/routing/static_daemon.py:506-507 | the destinations are the ground stations and the satellites made addressable, each once, in the order of the nodes |
| StaticRoutes.GivenDests | satgonetem/routing/static_daemon.py:506-507 | so of the nodes a topology is made of: every ground station, every satellite that is addressable, and no other |
| StaticRoutes.UpdateRoutes | satgonetem/routing/static_daemon.py:105-122 | after an update of an active topology a node's kernel has a route to exactly those destinations the paths reach, over the device of the first node of the path |
| StaticRoutes.InitRoutes | satgonetem/routing/static_daemon.py:76-103 | the same after `init` on empty kernels |
| ShortestPaths.IgraphHopsOptimal | satgonetem/routing/static_daemon.py:513-527 | next hops read off shortest paths are optimal, without assuming a tree |
| ShortestPaths.NetworkxHopsOptimal | satgonetem/routing/static_daemon.py:363-373 | so are first predecessors |
| ShortestPaths.WalkIsShortest | satgonetem/routing/static_daemon.py:513-527 | following next hops ends, repeats no node and costs the shortest distance |
| ShortestPaths.VariantsAgree | satgonetem/routing/static_daemon.py:348-407 | both variants route at equal cost, however ties are broken |
| ShortestPaths.StaysShortest | satgonetem/routing/static_daemon.py:513-527 | under other weights of the same edges, when exactly the ways of the old next hops are shortest |
| Delivery.CarriedStaysShortest | satgonetem/services/mixins/topology_sync.py:615-620 | so when exactly packets still go on shortest ways after the weights changed and the tables did not |
| Delivery.PacketsArrive | satgonetem/routing/static_daemon.py:490-596 | packets arrive, loop-free and along a shortest path, wherever there is a path |
| LoopbackRoutes.LookupExact | satgonetem/utils/ip_utils.py:56-145 | in any kernel of planned and connected routes a packet for a loopback goes to the device of that node's route, or nowhere |
| LoopbackRoutes.ConvergedLookup | satgonetem/routing/static_daemon.py:453-488 | so in a converged network the longest match is the route whose next hop was computed |
| EndToEnd.EdgesAreLinks | satgonetem/services/topology_satcom.py:892-915 | after a tick whose reports are in accord the edges of the routing graph are the active links |
| EndToEnd.AgreeingReports | satgonetem/services/mixins/topology_sync.py:193-216 | reports that name a link once, with attributes that agree or one that is missing, are in accord |
| EndToEnd.StartEdges | satgonetem/services/topology_satcom.py:892-915 | so they are after `init` if every link is active and reported once |
| EndToEnd.HopsResolve | satgonetem/routing/static_daemon.py:453-466 | then every next hop of a shortest path is a peer the node has a device to |
| EndToEnd.DaemonResolves | satgonetem/routing/static_daemon.py:490-596 | so the build of the static daemon meets its precondition on every node |
| EndToEnd.DaemonUpdates | satgonetem/routing/static_daemon.py:105-122 | and what `update` leaves on the heap is the node a round asks for, with the invariant kept |
| EndToEnd.PlannedDests | satgonetem/utils/ip_utils.py:117-145 | destinations with the summaries of the address plan are distinct |
| StaticRoutes.SystemDests | satgonetem/routing/static_daemon.py:506-507 | the destinations of a run of time steps are those of the topology whose flags it has |
| EndToEnd.RoundHolds | satgonetem/services/mixins/topology_sync.py:542-620 | a time step, whether it updates the routing or not, keeps every node in order and the network converged for the weights of the last update |
| EndToEnd.ReroutesExact | satgonetem/services/mixins/topology_sync.py:615-620 | exactly which time steps update the routing, said of links, delays and capacities |
| EndToEnd.RoundDelivers | satgonetem/services/mixins/topology_sync.py:542-620 | after it a node has a route exactly when the last update knew the destination and active links lead there; packets then arrive over active links, loop-free, and on shortest ways of today exactly when no edge offers a shortcut, always after an update |
| EndToEnd.QuietHopsShortest | satgonetem/services/topology_satcom.py:917-933 | with a hop preference a time step without an update leaves all packets on shortest ways |
| EndToEnd.EveryRoundDelivers | satgonetem/services/mixins/topology_sync.py:542-620 | all this after every time step of every run, those that update the routing and those that do not |
| QuietTick.ShortcutIsMissed | satgonetem/services/mixins/topology_sync.py:615-620 | a start and a time step without an update after which packets do not go the shortest way any more |
| EndToEnd.StartHolds | satgonetem/services/mixins/interface_mgr.py:47-54 | links that are all active and `init` on every node are a start of such a run |
| InterfaceVersion.PhaseRaisesVersion | satgonetem/services/mixins/interface_mgr.py:97-98 | a phase of racing increments raises the counter, by at most their number |
| InterfaceVersion.IncrementCanBeLost | satgonetem/services/mixins/link_ops.py:371-393 | two increments may count as one |
| InterfaceVersion.EqualVersionsEqualLists | satgonetem/routing/static_daemon.py:631-651 | equal versions at two boundaries mean equal interface lists |
| Links.Link.RefreshLinkCapacities | satgonetem/models/link.py:81-96 | a change of capacity sets the dirty flag and is reported |
| Links.Link.UpdateDistanceAndDelay | satgonetem/models/link.py:242-259 | moving sets distance and delay, and the dirty flag when what is pushed changes |
| Links.UnmarkedMeansUnchanged | satgonetem/models/link.py:242-259 | over any run of movements an unmarked link still asks for what it asked for at first |
| Links.MarkedExact | satgonetem/models/link.py:242-259 | exactly when a movement leaves a link marked: it was, or its delay or a capacity changed |
| Links.DelayExact | satgonetem/models/link.py:248-248 | the delay is the whole milliseconds light takes for the distance |
| Links.MovedCurrent | satgonetem/models/link.py:258-259 | when exactly a movement leaves the capacities those of the measure |
| Links.CapacitiesFollow | satgonetem/models/link.py:73-96 | they follow every run in which equal distances have equal budgets |
| LinkSync.DuplicatesExact | satgonetem/services/mixins/topology_sync.py:162-216 | when exactly several reports leave a wired link marked for addition |
| TickReports.SyncOutcome | satgonetem/services/mixins/topology_sync.py:162-242 | said of the reports: which links are there after a sync, which of them are active, and what they are made of |
| TickReports.NewLinkOf | satgonetem/services/mixins/topology_sync.py:344-420 | a link that was unknown, after all its reports: made of the first one, active as the last one says |
| TickReports.KnownLink | satgonetem/services/mixins/topology_sync.py:187-206 | a link that was known: reports that all say what it is leave it alone, otherwise the last one decides |
| Wiring.RemoveInterfaceConnectedToNode | satgonetem/models/node.py:347-374 | the first interface towards the peer leaves the list |
| Wiring.SameNameSameInterface | satgonetem/models/interface.py:34-37 | among wired interfaces equality by name is identity |
| Wiring.WithoutLink | satgonetem/services/mixins/link_ops.py:398-410 | unwiring a link takes its interfaces from both lists and no other |
| Wiring.GlobalWithoutLink | satgonetem/services/mixins/link_ops.py:412-429 | and from the global list |
| Wiring.WithLink | satgonetem/services/mixins/interface_mgr.py:56-110 | wiring a link adds one mutually peered pair everywhere |
| Reconcile.TopologyManager.SyncReports | satgonetem/services/mixins/topology_sync.py:162-216 | each reported link is created or flipped by its reports in order |
| Reconcile.TopologyManager.RefreshDistances | satgonetem/services/mixins/topology_sync.py:244-297 | each known reported link is moved |
| Reconcile.TopologyManager.SyncLinks | satgonetem/services/mixins/topology_sync.py:136-242 | every link becomes what its reports make of it; the lists partition the marked links |
| Reconcile.TopologyManager.AddVeths | satgonetem/services/mixins/link_ops.py:275-297 | adding a pair that exists changes nothing |
| Reconcile.TopologyManager.RemoveLinkInterfaces | satgonetem/services/mixins/link_ops.py:398-410 | the lists hold the other links' interfaces afterwards |
| Reconcile.TopologyManager.CleanupRemoved | satgonetem/services/mixins/link_ops.py:412-429 | removed links leave dictionary and global list |
| Reconcile.TopologyManager.UpdateFlags | satgonetem/services/mixins/link_ops.py:431-438 | updated links are clean again |
| Reconcile.TopologyManager.AddInterfaces | satgonetem/services/mixins/link_ops.py:440-448 | added links get a pair each, everything agrees, and the version moves |
| Reconcile.TopologyManager.BuildInterfaces | satgonetem/services/mixins/interface_mgr.py:56-110 | a link gets one pair more, and everything agrees exactly if it had none |
| Reconcile.TopologyManager.InitAndLaunch | satgonetem/services/mixins/interface_mgr.py:47-54 | after `init` every link that is reported between known nodes is there and wired once, active as its last report says, with a pair in the emulator exactly if active; the state is settled exactly when every link is active |
| Reconcile.InactiveAtInitDoubles | satgonetem/services/mixins/topology_sync.py:190-206 | a link wired while inactive is marked for another pair exactly when its last report says it is active |
| Reconcile.TopologyManager.ApplyRemovals | satgonetem/services/mixins/topology_sync.py:580-595 | the delete half leaves exactly the other links |
| Reconcile.TopologyManager.ApplyUpdatesAndAdditions | satgonetem/services/mixins/topology_sync.py:597-608 | the update and add half |
| Reconcile.TopologyManager.UpdateSimulation | satgonetem/services/mixins/topology_sync.py:542-608 | after every tick without a quarrel of reports: which links are there and which are active, said of the reports; exactly the active ones have a pair in the emulator, with their current values, and one pair of interfaces; no mark is left |
| Reconcile.TickSettles | satgonetem/services/mixins/topology_sync.py:573-608 | after both halves the emulator has every active link's current values |
| Reconcile.NewLinkOnce | satgonetem/services/mixins/topology_sync.py:183-186 | so an unknown link that is reported once is there exactly if its ends are known, and wired and emulated exactly if, besides, the report says that it is not disabled |
| Reconcile.PushedExact | satgonetem/launchers/gonetem_launcher.py:254-295 | what is pushed for a link: its delay but at least a millisecond, and each end's own capacity, or else the fallback of its kind |
| Reconcile.PassedByExact | satgonetem/services/mixins/topology_sync.py:220-231 | exactly which links a tick neither adds nor updates nor removes |
| Reconcile.EdgeIsActiveLink | satgonetem/services/topology_satcom.py:905-935 | when exactly the routing graph's edges are the active links |
| TickDevices.TickIsEnabled | satgonetem/services/mixins/topology_sync.py:573-608 | so a tick is a step of the routing model: no surviving route's device was recreated |
| SegmentRouting.MplsConfig.PostInit | satgonetem/models/mpls_entry.py:49-55 | the range keeps its usable labels (section 2.1 of RFC 3032) and is refused if at most one is left |
| SegmentRouting.SegmentRoutingManager.AllocateNodeSid | satgonetem/routing/srmpls_daemon.py:95-124 | the node SID (section 3.2 of RFC 8402) is base plus id, or an error beyond 20 bits |
| SegmentRouting.SegmentRoutingManager.NodeForSid | satgonetem/routing/srmpls_daemon.py:138-147 | the reverse map is the inverse |
| SegmentRouting.SegmentRoutingManager.NodeSid | satgonetem/routing/srmpls_daemon.py:126-136 | a node's label leads back to the node |
| SegmentRouting.SegmentRoutingManager.SetCustomPath | satgonetem/routing/srmpls_daemon.py:149-173 | a path is stored exactly when it joins its pair |
| SegmentRouting.SegmentRoutingManager.LabelStackForPath | satgonetem/routing/srmpls_daemon.py:200-231 | one label per node after the first, in order, without the last if popped early; an error for a node without label |
| LabelForwarding.StackIsFollowed | satgonetem/models/mpls_entry.py:58-149 | a stack is followed node by node exactly when every step is a satellite's link, revisits included |
| SrInstall.InstallExact | satgonetem/routing/srmpls_daemon.py:911-921 | sending the changes is enough exactly for the wanted lines that, if remembered, still stand |
| SrInstall.NextExact | satgonetem/routing/srmpls_daemon.py:966-976 | when exactly an event leaves every remembered line in the kernel |
| SrInstall.EveryInstallRun | satgonetem/routing/srmpls_daemon.py:911-921 | every run of such events ends with what was wanted last |
| SrInstall.QuietRun | satgonetem/routing/srmpls_daemon.py:1021-1031 | in particular every run without lost devices |
| SrInstall.FlapIsForgotten | satgonetem/routing/srmpls_daemon.py:911-921 | any link that goes alone and comes back stays without its line |
| SrWriters.WritersExact | satgonetem/routing/srmpls_daemon.py:751-776 | when exactly each of two writers of one kernel gets all it wants |
| SrWriters.DisagreeingWriters | satgonetem/routing/srmpls_daemon.py:751-776 | two writers that disagree on a key cannot both, and the first takes it from the second |
| SrWriters.RebuildExact | satgonetem/routing/srmpls_daemon.py:851-1031 | a rebuild gives what is wanted and keeps its memory trustworthy exactly when it is harmless |
| SrWriters.GotBoth | satgonetem/routing/srmpls_daemon.py:898-909 | the forwarding lines are all there exactly when the two lists agree |
| SrDelivery.FirstNetReady | satgonetem/routing/srmpls_daemon.py:621-646 | after a first build the label tables say what is wanted and nothing else |
| SrPaths.RouteExact | satgonetem/routing/srmpls_daemon.py:699-738 | a node has a route to another exactly when a stored or a library path of at least two nodes leads there, its second node is a peer with a usable address, and every node whose label is pushed has one; and which route that is |
| SrPaths.TableExact | satgonetem/routing/srmpls_daemon.py:699-738 | the table of a source has a line for a destination's address exactly when such a path sends to it, and then that line |
| SrPaths.TableOnly | satgonetem/routing/srmpls_daemon.py:649-749 | and no line but those |
| SrJourneys.FirstAddress | satgonetem/routing/srmpls_daemon.py:900-909 | after a first build a kernel has for an address the node's own route, else the link to the station, else nothing |
| SrJourneys.AgreeExact | satgonetem/routing/srmpls_daemon.py:898-909 | on the view: when exactly a satellite's two writers agree |
| SrJourneys.BothWriters | satgonetem/routing/srmpls_daemon.py:751-776 | so when exactly an addressable satellite has all its forwarding lines |
| SrJourneys.HandsOverExact | satgonetem/routing/srmpls_daemon.py:900-909 | when exactly a node sends a packet for an address straight to its owner |
| SrJourneys.JourneyExact | satgonetem/routing/srmpls_daemon.py:200-231 | with popping or without, a packet is carried along its path if, and where nothing else is installed only if, labels and handover allow it |
| SrJourneys.FirstBuildDelivers | satgonetem/routing/srmpls_daemon.py:649-749 | in a first build of any paths, for every pair with a path it can be sent on: exactly when its packets follow the path |
| SrJourneys.FirstBuildLoses | satgonetem/routing/srmpls_daemon.py:699-725 | a node without such a path, if it is no satellite linked to that ground station, sends its packets nowhere |
| SrJourneys.ServedDelivers | satgonetem/routing/srmpls_daemon.py:710-737 | in every network whose nodes have what they want, packets follow every path they can be sent on and that can be followed |
| SrStored.AddressAfter | satgonetem/routing/srmpls_daemon.py:360-506 | through inits, stored and cleared paths and updates a kernel has, for an address, the last path it was given |
| SrStored.RouteToExact | satgonetem/routing/srmpls_daemon.py:699-738 | the path an update or an init gives a node for a destination is the one it can send on, if there is one |
| SrStored.SentToExact | satgonetem/routing/srmpls_daemon.py:1049-1135 | the same for a stored or cleared path |
| SrStored.StoredDelivers | satgonetem/routing/srmpls_daemon.py:422-506 | so when exactly the packets of a pair follow its last path, stored or not |
| SrStored.UpdateDelivers | satgonetem/routing/srmpls_daemon.py:386-397 | after an update at which no node lost its route to the destination, for every pair with a path it can be sent on: exactly under the condition of a first build |
| SrStored.NetAsFirst | satgonetem/routing/srmpls_daemon.py:621-646 | and if no node lost any route, the whole network is that of a first build of today's paths |
| SrDiverted.DivertedPacket | satgonetem/routing/srmpls_daemon.py:990-1041 | an `init`, then a path stored for a ground station: an addressable satellite's own route takes the packet off it |
| SrServing.StandsExact | satgonetem/routing/srmpls_daemon.py:911-921 | exactly which lines are in a kernel after any run: those sent and since then neither replaced nor lost |
| SrServing.AlwaysServedExact | satgonetem/routing/srmpls_daemon.py:360-420 | so in which runs a node has what it wants after every update, whatever it remembers |
| SrTicks.TickHarm | satgonetem/services/mixins/topology_sync.py:573-620 | for a tick of the topology and the update after it: when exactly it does harm to a node |
| SrTicks.StationTickHarm | satgonetem/routing/srmpls_daemon.py:936-975 | at a ground station: exactly if nothing new is sent and a remembered route led over a link that went |
| SrTicks.StationTickServes | satgonetem/routing/srmpls_daemon.py:936-975 | even then it has all it wants for the moment |
| SrRuns.EventExact | satgonetem/routing/srmpls_daemon.py:360-420 | one update, init, stored path or removal: when exactly a node has what it wants and its memory can be trusted |
| SrRuns.RunExact | satgonetem/routing/srmpls_daemon.py:360-420 | exactly the harmless runs achieve that after every event |
| SrRuns.EveryRunDelivers | satgonetem/routing/srmpls_daemon.py:621-776 | after every such run, for every pair of stations and addressable satellites with a path it can be sent on: packets are carried along it if it can be followed |
| SrRuns.ResendDelivers | satgonetem/routing/srmpls_daemon.py:1044-1148 | after a path is stored or cleared they follow what is stored now, if it can be sent on and followed |
| SrRuns.ResendIsEvent | satgonetem/routing/srmpls_daemon.py:1136-1148 | sending them again is the event of a stored or cleared path |
| SrRuns.ClearUndoesSet | satgonetem/routing/srmpls_daemon.py:481-506 | for a pair without a stored path: when exactly storing one and clearing it leaves the kernel as it was |
| SrRuns.FirstInit | satgonetem/routing/srmpls_daemon.py:360-384 | a first init makes the network of which `FirstBuildDelivers` speaks |
| SrDelivery.StackDelivers | satgonetem/routing/srmpls_daemon.py:710-737 | a packet visits exactly its path and arrives with no label; if not followable it is lost on the way |
| SrDelivery.ReportedStack | satgonetem/routing/srmpls_daemon.py:468-479 | the reported stack has the first hop's label on top of the installed one and visits the same nodes, unless both are empty |
| SrDaemon.InterfaceToPeer | satgonetem/services/mixins/interface_mgr.py:180-199 | the first interface towards a peer is the one of the lookup table |
| SrDaemon.ForwardCommands | satgonetem/routing/srmpls_daemon.py:844-909 | own label, neighbours, adjacent stations |
| SrDaemon.RouteEntries | satgonetem/routing/srmpls_daemon.py:699-738 | one entry per destination with a path, a usable first hop and a stack |
| SrDaemon.SRMPLSDaemon.InitSrMpls | satgonetem/routing/srmpls_daemon.py:598-619 | labels for all nodes, or an error that leaves the daemon initialized |
| SrDaemon.SRMPLSDaemon.BuildRoutes | satgonetem/routing/srmpls_daemon.py:649-749 | every ground station and addressable satellite gets a table, with a line exactly for each destination it can send to, and that line |
| SrDaemon.SRMPLSDaemon.InstallChanged | satgonetem/routing/srmpls_daemon.py:911-921 | one node's kernel and memory move as `Install` says |
| SrDaemon.SRMPLSDaemon.Rebuild | satgonetem/routing/srmpls_daemon.py:621-646 | every node has its writers run in turn on its own kernel |
| SrDaemon.SRMPLSDaemon.UpdateRouteForSource | satgonetem/routing/srmpls_daemon.py:1049-1148 | one station's routes to stations are all sent again |
| SrDaemon.SRMPLSDaemon.SetSrCustomPath | satgonetem/routing/srmpls_daemon.py:444-479 | which calls are refused, and what is sent for the others |
| SrDaemon.SRMPLSDaemon.ClearSrCustomPath | satgonetem/routing/srmpls_daemon.py:481-506 | the pair goes, and what a running topology is sent then |
| SrDaemon.SRMPLSDaemon.Remove | satgonetem/routing/srmpls_daemon.py:399-420 | label routes go, address routes stay, all memory is gone |
| SrDaemon.DaemonRun | satgonetem/routing/srmpls_daemon.py:360-420 | whatever the daemon goes through, every node goes through the run `RunExact` speaks of |
| Flows.PingFlow.Start | satgonetem/traffic/ping_utils.py:268-283 | a flow is started once |
| Flows.PingFlow.Run | satgonetem/traffic/ping_utils.py:333-358 | it ends done with a result or failed with an error |
| Flows.PingFlow.Results | satgonetem/traffic/ping_utils.py:308-331 | there is a result exactly when it is done |
| FlowMachine.PoolKept | satgonetem/traffic/flow_scheduler.py:264-292 | at most the allowed number of workers are busy, and jobs leave the queue in order |
| FlowMachine.EveryMoment | satgonetem/traffic/flow_scheduler.py:250-330 | at every moment of every interleaving: order of submissions, pool, counts, lists, owners and times |
| FlowMachine.OnTimeKept | satgonetem/traffic/flow_scheduler.py:277-292 | no step submits a job before the delay its flow had at the start, also when a flow is listed twice and its delay was zeroed |
| FlowMachine.EveryRun | satgonetem/traffic/flow_scheduler.py:250-330 | for every list of flows: submissions in order and never early, the pool, the counts and the results |
| FlowMachine.StatusMoves | satgonetem/traffic/flow_scheduler.py:234-248 | idle to running to done or error, and no other way |
| FlowMachine.EachJobOnce | satgonetem/traffic/flow_scheduler.py:294-330 | when done, each job is a result or an error and not both |
| FlowMachine.ResultOrError | satgonetem/traffic/flow_scheduler.py:370-402 | per flow, also for objects listed twice or started before |
| FlowResults.ResultsExact | satgonetem/traffic/flow_scheduler.py:66-117 | when done, over every run: the results are exactly the jobs whose worker was the first to try their idle flow, whose join came back in time and whose flow came to a good end; the errors are all others |
| FlowResults.AnswersExact | satgonetem/traffic/flow_scheduler.py:341-402 | so `results(flow)` gives a flow's result exactly if one of its jobs is such, `errors()` lists exactly the others, and there is neither before |
| FlowResults.LateIsLate | satgonetem/traffic/flow_scheduler.py:98-105 | over every run no job is given up before its flow had the time of the timeout |
| FlowResults.NothingLeft | satgonetem/traffic/flow_scheduler.py:262-330 | over every run a scheduler that is done or has crashed has finished every job it submitted |
| FlowProgress.NeverStuck | satgonetem/traffic/flow_scheduler.py:250-330 | at every moment of every run that has not crashed there is a step that brings the end nearer, or the scheduler can be done |
| FlowProgress.CanFinish | satgonetem/traffic/flow_scheduler.py:250-330 | so every run can be brought to an end |
| FlowMachine.LiveFlowsBounded | satgonetem/traffic/flow_scheduler.py:101-117 | running flows are at most the workers and the timed out ones together |
| FlowMachine.TimeoutExceedsPool | satgonetem/traffic/flow_scheduler.py:101-117 | a timeout frees the worker of a flow that keeps running |
| FlowOverflow.PoolBoundExact | satgonetem/traffic/flow_scheduler.py:124-134 | over all runs the flows that run never exceed the workers exactly when there is no timeout or no more idle flows are listed |
| FlowOverflow.TwoFlowsOneWorker | satgonetem/traffic/flow_scheduler.py:124-134 | two idle flows, one worker and a timeout: a run with both flows running |
| Scheduler.SubmittedByDelay | satgonetem/traffic/flow_scheduler.py:171-171 | what is submitted has no larger delay than what is not |
| Scheduler.FlowScheduler.Run | satgonetem/traffic/flow_scheduler.py:223-248 | a second call is refused, the first resets everything |
| Scheduler.FlowScheduler.OnFlowStart | satgonetem/traffic/flow_scheduler.py:188-196 | the label's count goes up |
| Scheduler.FlowScheduler.OnFlowDone | satgonetem/traffic/flow_scheduler.py:198-211 | the label's count goes down, or the label goes |
| Scheduler.FlowScheduler.GetErrors | satgonetem/traffic/flow_scheduler.py:341-359 | the errors once done, an error while running or failed |
| Scheduler.FlowScheduler.GetResult | satgonetem/traffic/flow_scheduler.py:370-402 | a flow's result, or which error |
| StableSort.SortBySorts | satgonetem/utils/project_builder.py:522-522 | sorting gives the same elements in ascending order |
| StableSort.RankExact | satgonetem/utils/project_builder.py:646-646 | sorting puts each of distinct elements in the place of its rank, equal keys in their old order |
| Clusters.Components | satgonetem/utils/project_builder.py:543-570 | cutting between neighbours gives exactly the components of closeness |
| OrbitalPlanes.RaanComponents | satgonetem/utils/project_builder.py:521-555 | the clusters are the components of circular closeness: the maximal arcs of small gaps |
| OrbitalPlanes.RotationInvariant | satgonetem/utils/project_builder.py:521-555 | turning all ascending nodes changes no cluster |
| OrbitalPlanes.AltitudeComponents | satgonetem/utils/project_builder.py:557-570 | sub-planes are the components of closeness in altitude |
| OrbitalPlanes.SamePlane | satgonetem/utils/project_builder.py:521-581 | when exactly two satellites share a plane |
| OrbitalPlanes.PlanesHoldAll | satgonetem/utils/project_builder.py:521-581 | no satellite is lost or repeated, no plane is empty |
| OrbitalPlanes.ExactlyOnePlane | satgonetem/utils/project_builder.py:521-581 | each satellite is in exactly one plane |
| OrbitalPlanes.MeanOnCircle | satgonetem/utils/project_builder.py:572-581 | when exactly the ordering mean is a mean on the circle |
| PlaneOrder.SamePlaneExact | satgonetem/utils/project_builder.py:521-581 | on the satellites alone: two share a plane exactly when satellites of one cluster link them in altitude |
| PlaneOrder.OrderExact | satgonetem/utils/project_builder.py:572-581 | the planes are in the order of their clusters exactly when no such two satellites are straddled by one of another cluster |
| PlaneOrder.ConsecutiveAreNeighbours | satgonetem/utils/project_builder.py:572-581 | then no satellite of another plane's cluster is between consecutive planes |
| PlaneOrder.ApartInOrder | satgonetem/utils/project_builder.py:572-581 | they are in order when no cluster reaches across 0 degrees |
| PlaneOrder.NearZeroInOrder | satgonetem/utils/project_builder.py:572-581 | and sometimes when one does |
| PlaneOrder.StraddlingPlaneIsMisplaced | satgonetem/utils/project_builder.py:521-581 | five satellites, grouped by the whole procedure, whose planes are not in order |
| OrbitalPlanes.BreakIndex | satgonetem/utils/project_builder.py:530-538 | the loop finds the first largest gap |
| OrbitalPlanes.CutRaan | satgonetem/utils/project_builder.py:543-555 | the loop makes the clusters |
| OrbitalPlanes.CutAltitude | satgonetem/utils/project_builder.py:557-570 | the loop makes the sub-planes |
| OrbitalPlanes.GroupByPlane | satgonetem/utils/project_builder.py:480-581 | the whole grouping |
| MeshLinks.RingDegree | satgonetem/utils/project_builder.py:643-659 | in a plane of two or more every satellite is an end of exactly two ring links |
| MeshLinks.RungsDegree | satgonetem/utils/project_builder.py:661-691 | the links between two planes are a matching |
| MeshLinks.MeshDegree | satgonetem/utils/project_builder.py:584-691 | at most four link creations per satellite |
| MeshLinks.RingExact | satgonetem/utils/project_builder.py:643-659 | the ring of a plane has a link from each satellite to the next by phase, once, and no other |
| MeshLinks.RungsOnce | satgonetem/utils/project_builder.py:661-691 | between two large enough planes there is a link for each two of equal rank that are near, once, and no other |
| MeshLinks.MeshExact | satgonetem/utils/project_builder.py:640-691 | for every choice of the flags: exactly which links the mesh has, each created once |
| MeshLinks.AddMeshLinks | satgonetem/utils/project_builder.py:584-691 | for distinct satellites the loops create exactly those links, each once, for the planes of the grouping; none for fewer than two satellites |
| MeshMatching.GreedyExact | satgonetem/utils/project_builder.py:601-604 | when exactly every satellite that takes the closest unmatched one takes its own rank |
| MeshMatching.RungsExact | satgonetem/utils/project_builder.py:661-691 | so when exactly the links between two planes are those of the description |
| MeshMatching.ShiftedExact | satgonetem/utils/project_builder.py:661-691 | for evenly spaced planes: exactly when the shift is at most half a step |
| Hil.HILManager.CreateVeth | satgonetem/launchers/hil_manager.py:181-250 | a veth whose name is free is created |
| Hil.HILManager.CreateBridge | satgonetem/launchers/hil_manager.py:252-296 | what a successful and a failing call leave behind |
| Hil.HILManager.TeardownBridge | satgonetem/launchers/hil_manager.py:330-355 | a recorded bridge goes and releases its ports |
| Hil.HILManager.SetupLink | satgonetem/launchers/hil_manager.py:386-419 | veth, then bridge, or neither |
| Hil.HILManager.TeardownLink | satgonetem/launchers/hil_manager.py:421-447 | bridge, then veth |
| Hil.HILManager.TeardownAll | satgonetem/launchers/hil_manager.py:515-524 | every recorded bridge goes |
| Hil.HILManager.Tick | satgonetem/services/mixins/topology_sync.py:580-608 | the removed links first, then the added ones |
| Hil.TickLeaves | satgonetem/services/mixins/topology_sync.py:580-608 | whatever a tick removes: which stations have their bridge afterwards, with which satellite |
| Hil.TickKeeps | satgonetem/services/mixins/topology_sync.py:580-608 | so when exactly each station with an active link has its hardware in its one bridge, with its current satellite |
| Hil.StrayRemovalCuts | satgonetem/launchers/hil_manager.py:330-355 | removing a link that was never active takes the bridge of the station's active one |
| HilTicks.TickExact | satgonetem/services/mixins/topology_sync.py:573-608 | for a tick of the topology: the stations keep their bridges exactly when none loses another link than its active one while that stays |
| HilTicks.UnreportedCuts | satgonetem/services/mixins/topology_sync.py:216-219 | an inactive second link that is not reported any more cuts its station off |
| HilTicks.EveryHandover | satgonetem/launchers/hil_manager.py:386-447 | after every tick of every run each active link has its veth, and each station its bridge exactly unless it was cut off since its active link came |
| HilTicks.StartBridges | satgonetem/services/mixins/network_lifecycle.py:51-68 | wiring the active links at the start gives each its bridge |
| Hil.AddingFirstDisconnects | satgonetem/services/mixins/topology_sync.py:580-583 | in the other order a handover disconnects the station |
| Disconnection.EstimateIsCrossing | satgonetem/utils/custom_connection_strategies.py:197-228 | for every elevation: an error, the limit, or a crossing within a millisecond |
| Disconnection.SettingIsFound | satgonetem/utils/custom_connection_strategies.py:197-228 | a satellite that sets once before the search is over is found, at most a millisecond late |
| Disconnection.FirstSettingExact | satgonetem/utils/custom_connection_strategies.py:197-228 | for which settings and risings the estimate is the first setting, whatever the elevation |
| Disconnection.DipIsMissed | satgonetem/utils/custom_connection_strategies.py:205-218 | a dip before the first guess is missed |
| Disconnection.FindBracket | satgonetem/utils/custom_connection_strategies.py:205-210 | the doubling loop ends |
| Disconnection.FindCrossing | satgonetem/utils/custom_connection_strategies.py:220-228 | the bisection loop ends |
| Disconnection.EstimateTimeUntilDisconnection | satgonetem/utils/custom_connection_strategies.py:197-228 | the whole estimate |

## Left out

- StaticDaemon.StaticRoutingDaemon.Update: a next hop without an interface, at which the source raises, is a precondition; `EndToEnd.DaemonResolves` shows when it holds.
- StaticDaemon.StaticRoutingDaemon.Init: the same precondition on next hops.
- Reconcile.TopologyManager.UpdateSimulation: a tick in which the reports of a wired link quarrel is excluded by a precondition, since it leaves that link to be wired twice (`LinkSync.DuplicatesExact`).
- NodeRouting.EveryRun: its runs have no removal that raises, no update of a topology that is not active and no stop and restart; `AfterFailedRemove`, `InitAfterFailedRemove` and `AfterBuiltOnly` say what these leave.
- FlowMachine.LiveFlowsBounded: the sufficient half of `FlowOverflow.PoolBoundExact`, for one state.
- EndToEnd.EveryRoundDelivers: nodes the simulation knows and the topology does not are not in its routing graph, and its runs have no removal.
- HilTicks.EveryHandover: between its ticks a station with hardware has at most one active link, its links join it to satellites, every satellite has a container, and no reports of a wired link quarrel.
- SrStored.StoredDelivers: its runs begin with an `init` of empty kernels and have no change of links and no removal; for other runs `SrRuns.EveryRunDelivers` says when packets are carried, not when they are not.
- SrRuns.EveryRunDelivers: a node does not change between ground station and satellite within a run, and every batch that is sent succeeds.
- Containers, namespaces, gRPC, `tc` and pyroute2: only the effect of a call on an abstract kernel or emulator is modelled.
- Shortest-path libraries: any answer that is a shortest path is allowed.
- Orbits, coordinate frames, coverage and link budgets: capacities, distances, elevations and "near enough" are inputs.
- Floating point: times, angles, altitudes and delays are real numbers; the unit in the last place is not modelled.
- Link objects in the dictionary are values there (`Links.Link` has the object on its own): other references to a link object are not modelled.
- Interface lists of a node are a map from nodes to sequences; loopback interfaces in the global list and the activity of interfaces are not modelled.
- In the static daemon the interfaces and kernels of all nodes are maps of the topology object; route lists are objects because they are shared.
- The thread pools of the static and segment routing daemons run each node's work on its own kernel; the model runs them one after the other.
- Retrying failed batches, file-based routes, statistics and logging.
- `int()` accepts other digits than 0 to 9 and underscores; the model's parser takes ASCII digits, signs and spaces only.
- Capacities at launch are symmetric.
- Label stack caching, `get_sr_route_for_destination` and the listing of custom paths: not used by the daemon.
- The kernel's MPLS hop limit: paths longer than it are not cut off in the model.
- `enable_mpls`, and containers that are missing: every node has its kernel.
- In one rebuild `nx.shortest_path` and `nx.all_pairs_dijkstra_path` are asked the same question; the model gives both the same answer.
- Iperf and hping flows, progress printing, `join` and the release of results when they are not kept.
- Between `run()` and the start of the scheduler's thread some time passes; the model takes the clock at `run()`.
- Ground links of the mesh and the rules of the simulation library about which links it accepts.
- Moving to a time step without a tick, and rebuilding the routing on demand: an update of the routing happens only in a time step.
- Quality of service of HIL links; the names of bridges and veths are the station's id.
- OSPF, IS-IS and P4 daemons, traffic parsing, project files and the web interface.

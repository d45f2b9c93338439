/** The static routing daemon on the heap: list objects that may be shared, caches, one kernel per node
    (satgonetem/routing/static_daemon.py). */
module StaticDaemon {
  import opened Wrappers
  import opened RoutingEntries
  import opened RouteDiff
  import opened NodeRouting

  /** A Python list of routing entries: what matters is which list a name denotes. */
  class RouteList {
    ghost const owner: nat  // the id of the node it is a table of
    var items: seq<RouteEntry>

    constructor (items: seq<RouteEntry>, ghost owner: nat)
      ensures this.items == items && this.owner == owner
    {
      this.items, this.owner := items, owner;
    }
  }

  class Node {
    const id: nat
    const name: string
    const summary: string  // the loopback, summarized to /15
    var table: RouteList
    var previous: RouteList

    constructor (id: nat, name: string, summary: string)
      ensures this.id == id && this.name == name && this.summary == summary
      ensures fresh(table) && fresh(previous) && table.items == [] && previous.items == []
      ensures table.owner == previous.owner == id
    {
      this.id, this.name, this.summary := id, name, summary;
      table := new RouteList([], id);
      previous := new RouteList([], id);
    }

    function Src(): Source { Source(id, name, summary) }

    function AsDest(): Dest { Dest(id, name, summary) }
  }

  /** {peer id: interface}; a later interface of the same peer wins. */
  function PeerMap(ifaces: seq<Interface>): Devices {
    if ifaces == [] then map[]
    else PeerMap(ifaces[..|ifaces| - 1])[ifaces[|ifaces| - 1].peer := ifaces[|ifaces| - 1]]
  }

  lemma {:induction false} PeerMapNamed(ifaces: seq<Interface>)
    ensures NamedByPeer(PeerMap(ifaces))
  {
    if ifaces != [] {
      PeerMapNamed(ifaces[..|ifaces| - 1]);
    }
  }

  /** No later interface has the same peer. */
  predicate LastOfPeer(ifaces: seq<Interface>, i: nat) {
    i < |ifaces| && forall j | i < j < |ifaces| :: ifaces[j].peer != ifaces[i].peer
  }

  /** The last interface of a peer is the one that is found. */
  lemma {:induction false} LastWins(ifaces: seq<Interface>, i: nat)
    requires LastOfPeer(ifaces, i)
    ensures ifaces[i].peer in PeerMap(ifaces) && PeerMap(ifaces)[ifaces[i].peer] == ifaces[i]
  {
    var n := |ifaces| - 1;
    if i < n {
      assert forall j | 0 <= j < n :: ifaces[..n][j] == ifaces[j];
      LastWins(ifaces[..n], i);
      assert ifaces[n].peer != ifaces[i].peer;
    }
  }

  /** Shortest paths by destination and source, each listed from the destination; the library's answer. */
  type Paths = map<nat, map<nat, seq<nat>>>

  /** The node before src on the path from dst to src. */
  function HopFrom(paths: Paths, dst: nat, src: nat): Option<nat> {
    if src != dst && dst in paths && src in paths[dst] && |paths[dst][src]| >= 2
    then Some(paths[dst][src][|paths[dst][src]| - 2]) else None
  }

  function SignatureOf(paths: Paths, dsts: seq<Dest>, src: nat): (sig: Signature)
    ensures |sig| == |dsts|
    ensures forall i | 0 <= i < |dsts| :: sig[i] == HopFrom(paths, dsts[i].id, src)
  {
    seq(|dsts|, i requires 0 <= i < |dsts| => HopFrom(paths, dsts[i].id, src))
  }

  /** The destination list: ground stations, then the addressable satellites, in their fixed orders. */
  function DestsOf(flags: seq<bool>, nodes: seq<Dest>): seq<Dest>
    requires |flags| == |nodes|
  {
    if nodes == [] then []
    else
      var n := |nodes| - 1;
      DestsOf(flags[..n], nodes[..n]) + (if flags[n] then [nodes[n]] else [])
  }

  /** If flags are only ever raised, a destination list of the same length is the same list; so comparing
      signatures by position compares them destination by destination. */
  lemma {:induction false} GrowOnlyDests(before: seq<bool>, after: seq<bool>, nodes: seq<Dest>)
    requires |before| == |after| == |nodes|
    requires forall i | 0 <= i < |nodes| :: before[i] ==> after[i]
    ensures |DestsOf(before, nodes)| <= |DestsOf(after, nodes)|
    ensures |DestsOf(before, nodes)| == |DestsOf(after, nodes)| ==> DestsOf(before, nodes) == DestsOf(after, nodes)
  {
    if nodes != [] {
      var n := |nodes| - 1;
      GrowOnlyDests(before[..n], after[..n], nodes[..n]);
    }
  }

  ghost predicate Placed(nodes: seq<Node>, position: map<nat, nat>) {
    forall i | 0 <= i < |nodes| :: nodes[i].id in position && position[nodes[i].id] == i
  }

  /** What the daemon sees of the topology manager: the nodes, their addressable flags and interface lists,
      and, behind the containers, one kernel table per node. */
  class Topology {
    const nodes: seq<Node>  // the ground stations, then the satellites
    const stations: nat
    ghost const position: map<nat, nat>
    var addressable: set<nat>
    var interfaces: map<nat, seq<Interface>>
    var interfaceVersion: nat
    var active: bool
    var fibs: map<nat, Fib>

    constructor (groundStations: seq<Node>, satellites: seq<Node>)
      requires forall i, j | 0 <= i < j < |groundStations + satellites| ::
                 (groundStations + satellites)[i].id != (groundStations + satellites)[j].id
      ensures nodes == groundStations + satellites && stations == |groundStations| && Distinct()
      ensures addressable == {} && interfaces == map[] && interfaceVersion == 0 && !active && fibs == map[]
    {
      nodes, stations := groundStations + satellites, |groundStations|;
      ghost var all := groundStations + satellites;
      position := map i | 0 <= i < |all| :: all[i].id := i;
      addressable, interfaces, interfaceVersion, active, fibs := {}, map[], 0, false, map[];
    }

    /** Node ids are unique: position tells the place of the node with a given id. */
    ghost predicate Distinct() {
      stations <= |nodes| && Placed(nodes, position)
    }

    /** The interfaces of a node, by peer. */
    function Ports(id: nat): Devices
      reads this`interfaces
    {
      if id in interfaces then PeerMap(interfaces[id]) else map[]
    }

    function KernelOf(id: nat): Fib
      reads this`fibs
    {
      if id in fibs then fibs[id] else map[]
    }

    /** Which nodes are destinations: the ground stations, and the satellites that were made addressable. */
    function Flags(): (flags: seq<bool>)
      reads this`addressable
      ensures |flags| == |nodes|
      ensures forall i | 0 <= i < |nodes| :: flags[i] <==> i < stations || nodes[i].id in addressable
    {
      var marked := addressable;
      seq(|nodes|, i requires 0 <= i < |nodes| => i < stations || nodes[i].id in marked)
    }

    function AllDests(): (all: seq<Dest>)
      ensures |all| == |nodes|
      ensures forall i | 0 <= i < |nodes| :: all[i] == Dest(nodes[i].id, nodes[i].name, nodes[i].summary)
    {
      seq(|nodes|, i requires 0 <= i < |nodes| => nodes[i].AsDest())
    }

    /** The destination list of the current flags. */
    function Dests(): seq<Dest>
      reads this`addressable
    {
      DestsOf(Flags(), AllDests())
    }
  }

  /** _peer_iface_map. */
  method BuildPeerMap(ifaces: seq<Interface>) returns (mapping: Devices)
    ensures mapping == PeerMap(ifaces)
  {
    mapping := map[];
    for i := 0 to |ifaces|
      invariant mapping == PeerMap(ifaces[..i])
    {
      mapping := mapping[ifaces[i].peer := ifaces[i]];
      assert ifaces[..i + 1][..i] == ifaces[..i];
    }
    assert ifaces[..|ifaces|] == ifaces;
  }

  /** The vector of src once the first i destinations are transposed. */
  function PartialSignature(paths: Paths, dsts: seq<Dest>, src: nat, i: nat): (sig: Signature)
    ensures |sig| == |dsts|
    ensures forall j | 0 <= j < |dsts| :: sig[j] == if j < i then HopFrom(paths, dsts[j].id, src) else None
  {
    seq(|dsts|, j requires 0 <= j < |dsts| => if j < i then HopFrom(paths, dsts[j].id, src) else None)
  }

  ghost predicate Transposed(paths: Paths, dsts: seq<Dest>, bySource: map<nat, Signature>, src: nat, i: nat) {
    if src in bySource then bySource[src] == PartialSignature(paths, dsts, src, i)
    else PartialSignature(paths, dsts, src, i) == seq(|dsts|, _ => None)
  }

  lemma NoNewHop(paths: Paths, dsts: seq<Dest>, src: nat, i: nat)
    requires i < |dsts| && HopFrom(paths, dsts[i].id, src).None?
    ensures PartialSignature(paths, dsts, src, i + 1) == PartialSignature(paths, dsts, src, i)
  {
  }

  lemma NewHop(paths: Paths, dsts: seq<Dest>, src: nat, i: nat)
    requires i < |dsts|
    ensures PartialSignature(paths, dsts, src, i + 1)
            == PartialSignature(paths, dsts, src, i)[i := HopFrom(paths, dsts[i].id, src)]
  {
  }

  /** Transposes next hops by destination into one vector per source that has a next hop. */
  method TransposeNextHops(dsts: seq<Dest>, paths: Paths) returns (bySource: map<nat, Signature>)
    ensures forall src :: SignatureOf(paths, dsts, src) == VectorFor(bySource, dsts, src)
  {
    bySource := map[];
    for i := 0 to |dsts|
      invariant forall src :: Transposed(paths, dsts, bySource, src, i)
    {
      var dst := dsts[i].id;
      var todo := if dst in paths then paths[dst].Keys else {};
      ghost var next := i + 1;
      forall src | src !in todo ensures Transposed(paths, dsts, bySource, src, next) {
        assert Transposed(paths, dsts, bySource, src, i);
        NoNewHop(paths, dsts, src, i);
      }
      while todo != {}
        invariant todo <= (if dst in paths then paths[dst].Keys else {})
        invariant forall src | src in todo :: Transposed(paths, dsts, bySource, src, i)
        invariant forall src :: src in todo || Transposed(paths, dsts, bySource, src, next)
      {
        var src :| src in todo;
        assert Transposed(paths, dsts, bySource, src, i);
        var hop := HopFrom(paths, dst, src);
        ghost var before := bySource;
        NewHop(paths, dsts, src, i);
        if hop.Some? {
          var signature := if src in bySource then bySource[src] else seq(|dsts|, _ => None);
          bySource := bySource[src := signature[i := hop]];
        } else {
          NoNewHop(paths, dsts, src, i);
        }
        todo := todo - {src};
        forall s | s in todo ensures Transposed(paths, dsts, bySource, s, i) {
          assert Transposed(paths, dsts, before, s, i);
        }
        forall s | s !in todo ensures Transposed(paths, dsts, bySource, s, next) {
          assert s == src || Transposed(paths, dsts, before, s, next);
        }
      }
    }
    forall src ensures SignatureOf(paths, dsts, src) == PartialSignature(paths, dsts, src, |dsts|) {}
    forall src ensures SignatureOf(paths, dsts, src) == VectorFor(bySource, dsts, src) {
      assert Transposed(paths, dsts, bySource, src, |dsts|);
    }
  }

  /** The reuse state two dicts hold for one source. */
  function ReuseIn(sigs: map<nat, Signature>, entries: map<nat, map<nat, RouteEntry>>, id: nat): Option<Reuse> {
    if id in sigs && id in entries then Some(Reuse(sigs[id], entries[id])) else None
  }

  /** What populating should leave on a node: its table, its reuse state, one list for both tables or not. */
  datatype Goal = Goal(table: seq<RouteEntry>, reuse: Reuse, same: bool)

  function GoalOf(src: Source, reuse: Option<Reuse>, dsts: seq<Dest>, sig: Signature, ifaces: Devices): Goal
    requires |sig| == |dsts| && Resolvable(sig, ifaces)
  {
    var (t, r, same) := Install(src, reuse, dsts, sig, ifaces);
    Goal(t, r, same)
  }

  function VectorFor(bySource: map<nat, Signature>, dsts: seq<Dest>, id: nat): Signature {
    if id in bySource then bySource[id] else seq(|dsts|, _ => None)
  }

  /** The rebuilding branch: a cached entry is kept when every field and the interface object agree. */
  method BuildRoutes(src: Source, cached: map<nat, RouteEntry>, ifaces: Devices, dsts: seq<Dest>, signature: Signature)
    returns (table: seq<RouteEntry>, newEntries: map<nat, RouteEntry>)
    requires |signature| == |dsts| && Resolvable(signature, ifaces)
    ensures table == FreshTable(src, dsts, signature, ifaces)
    ensures newEntries == FreshEntries(src, dsts, signature, ifaces)
  {
    table, newEntries := [], map[];
    for i := 0 to |dsts|
      invariant Resolvable(signature[..i], ifaces)
      invariant table == FreshTable(src, dsts[..i], signature[..i], ifaces)
      invariant newEntries == FreshEntries(src, dsts[..i], signature[..i], ifaces)
    {
      ExtendFresh(src, dsts, signature, ifaces, i);
      if signature[i].Some? {
        var dst := dsts[i];
        var interface := ifaces[signature[i].value];
        var gateway := interface.peerIp;
        var reusable := false;
        if dst.id in cached {
          var e := cached[dst.id];
          reusable := e.destination == dst.summary && e.gateway == gateway && e.iface == interface
                   && e.targetNode == dst.name && e.sourceNode == src.name && e.source == src.summary
                   && e.prefix == ROUTE_PREFIX;
        }
        var entry := if reusable then cached[dst.id]
                     else FromValidated(dst.summary, interface, gateway, ROUTE_PREFIX, dst.name, src.name, src.summary);
        table := table + [entry];
        newEntries := newEntries[dst.id := entry];
      }
    }
    assert dsts[..|dsts|] == dsts && signature[..|signature|] == signature;
  }

  /** The node's next hops resolve on its interfaces, and its goal is what installing them gives. */
  ghost predicate GoalFor(n: Node, maps: map<nat, Devices>, dsts: seq<Dest>, bySource: map<nat, Signature>,
                          reuse: Option<Reuse>, goal: Goal)
  {
    && n.id in maps && |VectorFor(bySource, dsts, n.id)| == |dsts|
    && Resolvable(VectorFor(bySource, dsts, n.id), maps[n.id])
    && goal == GoalOf(n.Src(), reuse, dsts, VectorFor(bySource, dsts, n.id), maps[n.id])
  }

  /** One node's batch and the devices it runs against. */
  datatype Job = Job(id: nat, live: set<string>, lines: seq<Command>)

  class StaticRoutingDaemon {
    const topology: Topology
    var sourceSignatures: map<nat, Signature>
    var entryCache: map<nat, map<nat, RouteEntry>>
    var ifaceCache: Option<map<nat, Devices>>
    var ifaceCacheVersion: nat

    constructor (topology: Topology)
      ensures this.topology == topology
      ensures sourceSignatures == map[] && entryCache == map[] && ifaceCache == None
    {
      this.topology := topology;
      sourceSignatures, entryCache, ifaceCache, ifaceCacheVersion := map[], map[], None, 0;
    }

    /** The cached interface maps are the fresh ones while the version has not moved. */
    ghost predicate CacheFresh()
      reads this`ifaceCache, this`ifaceCacheVersion, topology`interfaceVersion, topology`interfaces
    {
      && ifaceCacheVersion <= topology.interfaceVersion
      && (ifaceCache.Some? && ifaceCacheVersion == topology.interfaceVersion ==>
        forall i | 0 <= i < |topology.nodes| ::
          && topology.nodes[i].id in ifaceCache.value
          && ifaceCache.value[topology.nodes[i].id] == topology.Ports(topology.nodes[i].id))
    }

    ghost predicate OwnLists()
      reads topology.nodes
    {
      forall i | 0 <= i < |topology.nodes| ::
        topology.nodes[i].table.owner == topology.nodes[i].previous.owner == topology.nodes[i].id
    }

    ghost predicate Valid()
      reads this`ifaceCache, this`ifaceCacheVersion, topology`interfaceVersion, topology`interfaces, topology.nodes
    {
      topology.Distinct() && CacheFresh() && OwnLists()
    }

    /** One node as a value. */
    ghost function View(n: Node): NodeView
      reads this, n, n.table, topology
    {
      NodeView(n.table.items, ReuseIn(sourceSignatures, entryCache, n.id),
               topology.Ports(n.id), topology.KernelOf(n.id))
    }

    /** _prebuild_iface_maps. */
    method PrebuildIfaceMaps() returns (maps: map<nat, Devices>)
      requires CacheFresh()
      modifies this`ifaceCache, this`ifaceCacheVersion
      ensures CacheFresh()
      ensures forall i | 0 <= i < |topology.nodes| ::
                && topology.nodes[i].id in maps
                && maps[topology.nodes[i].id] == topology.Ports(topology.nodes[i].id)
    {
      if ifaceCache.Some? && ifaceCacheVersion == topology.interfaceVersion {
        return ifaceCache.value;
      }
      var nodes := topology.nodes;
      maps := map[];
      for i := 0 to |nodes|
        modifies {}
        invariant forall j | 0 <= j < i :: nodes[j].id in maps && maps[nodes[j].id] == topology.Ports(nodes[j].id)
      {
        var m := BuildPeerMap(if nodes[i].id in topology.interfaces then topology.interfaces[nodes[i].id] else []);
        maps := maps[nodes[i].id := m];
      }
      ifaceCache, ifaceCacheVersion := Some(maps), topology.interfaceVersion;
    }

    /** _equalize_routing_tables: the old list becomes the previous one by reference. */
    method EqualizeRoutingTables(nodes: seq<Node>)
      requires Placed(nodes, topology.position)
      modifies nodes
      ensures forall i | 0 <= i < |nodes| ::
                && nodes[i].previous == old(nodes[i].table)
                && nodes[i].table.items == [] && nodes[i].table.owner == nodes[i].id
    {
      for k := 0 to |nodes|
        invariant forall i | 0 <= i < k ::
                    && nodes[i].previous == old(nodes[i].table)
                    && nodes[i].table.items == [] && nodes[i].table.owner == nodes[i].id
        invariant forall i | k <= i < |nodes| :: nodes[i].table == old(nodes[i].table)
      {
        var n := nodes[k];
        n.previous := n.table;
        n.table := new RouteList([], n.id);
      }
    }

    /** _install_source_routes. */
    method InstallSourceRoutes(node: Node, ifaces: Devices, dsts: seq<Dest>, signature: Signature)
      requires |signature| == |dsts| && Resolvable(signature, ifaces)
      modifies this`sourceSignatures, this`entryCache, node`table, node`previous
      ensures var goal := GoalOf(node.Src(), ReuseIn(old(sourceSignatures), old(entryCache), node.id), dsts,
                signature, ifaces);
              && node.table.owner == node.id && node.table.items == goal.table && fresh(node.table)
              && node.previous == (if goal.same then node.table else old(node.previous))
              && sourceSignatures == old(sourceSignatures)[node.id := goal.reuse.sig]
              && entryCache == old(entryCache)[node.id := goal.reuse.entries]
    {
      var id := node.id;
      if id in sourceSignatures && signature == sourceSignatures[id] && id in entryCache {
        var table := new RouteList(Collect(CachedSlots(dsts, entryCache[id])), id);
        node.table := table;
        node.previous := table;
        return;
      }
      var cached := if id in entryCache then entryCache[id] else map[];
      var table, newEntries := BuildRoutes(node.Src(), cached, ifaces, dsts, signature);
      node.table := new RouteList(table, id);
      entryCache := entryCache[id := newEntries];
      sourceSignatures := sourceSignatures[id := signature];
    }

    method InstallNode(n: Node, maps: map<nat, Devices>, dsts: seq<Dest>, bySource: map<nat, Signature>,
                       ghost reuse: Option<Reuse>, ghost goal: Goal)
      requires GoalFor(n, maps, dsts, bySource, reuse, goal) && ReuseIn(sourceSignatures, entryCache, n.id) == reuse
      modifies this`sourceSignatures, this`entryCache, n`table, n`previous
      ensures n.table.owner == n.id && n.table.items == goal.table && n.table != old(n.previous)
      ensures n.previous == if goal.same then n.table else old(n.previous)
      ensures sourceSignatures == old(sourceSignatures)[n.id := goal.reuse.sig]
      ensures entryCache == old(entryCache)[n.id := goal.reuse.entries]
    {
      InstallSourceRoutes(n, maps[n.id], dsts, VectorFor(bySource, dsts, n.id));
    }

    /** The install loops over ground stations and satellites. */
    method InstallAll(nodes: seq<Node>, maps: map<nat, Devices>, dsts: seq<Dest>, bySource: map<nat, Signature>,
                      ghost reuses: seq<Option<Reuse>>, ghost prevs: seq<RouteList>, ghost goals: seq<Goal>)
      requires Placed(nodes, topology.position)
      requires |goals| == |reuses| == |prevs| == |nodes|
      requires forall i {:trigger GoalFor(nodes[i], maps, dsts, bySource, reuses[i], goals[i])} | 0 <= i < |nodes| ::
                 GoalFor(nodes[i], maps, dsts, bySource, reuses[i], goals[i])
      requires forall i | 0 <= i < |nodes| ::
                 nodes[i].previous == prevs[i] && ReuseIn(sourceSignatures, entryCache, nodes[i].id) == reuses[i]
      modifies this`sourceSignatures, this`entryCache, nodes
      ensures forall i | 0 <= i < |nodes| ::
                && nodes[i].table.items == goals[i].table && nodes[i].table.owner == nodes[i].id
                && nodes[i].table != prevs[i]
                && nodes[i].previous == (if goals[i].same then nodes[i].table else prevs[i])
                && ReuseIn(sourceSignatures, entryCache, nodes[i].id) == Some(goals[i].reuse)
    {
      hide GoalFor;
      for k := 0 to |nodes|
        invariant forall i | 0 <= i < k ::
                    && nodes[i].table.items == goals[i].table && nodes[i].table.owner == nodes[i].id
                    && nodes[i].table != prevs[i]
                    && nodes[i].previous == (if goals[i].same then nodes[i].table else prevs[i])
                    && ReuseIn(sourceSignatures, entryCache, nodes[i].id) == Some(goals[i].reuse)
        invariant forall i | k <= i < |nodes| ::
                    nodes[i].previous == prevs[i] && ReuseIn(sourceSignatures, entryCache, nodes[i].id) == reuses[i]
      {
        InstallNode(nodes[k], maps, dsts, bySource, reuses[k], goals[k]);
      }
    }

    /** Every next hop of the paths is a neighbour the source has an interface to. */
    ghost predicate PathsResolve(paths: Paths)
      reads topology`addressable, topology`interfaces
    {
      forall i {:trigger SignatureOf(paths, topology.Dests(), topology.nodes[i].id)} | 0 <= i < |topology.nodes| ::
        Resolvable(SignatureOf(paths, topology.Dests(), topology.nodes[i].id), topology.Ports(topology.nodes[i].id))
    }

    ghost function ReusesNow(): (r: seq<Option<Reuse>>)
      reads this`sourceSignatures, this`entryCache
      ensures |r| == |topology.nodes|
      ensures forall i | 0 <= i < |r| :: r[i] == ReuseIn(sourceSignatures, entryCache, topology.nodes[i].id)
    {
      var sigs, entries := sourceSignatures, entryCache;
      seq(|topology.nodes|, i requires 0 <= i < |topology.nodes| => ReuseIn(sigs, entries, topology.nodes[i].id))
    }

    ghost function GoalNow(n: Node, paths: Paths): Goal
      requires Resolvable(SignatureOf(paths, topology.Dests(), n.id), topology.Ports(n.id))
      reads this`sourceSignatures, this`entryCache, topology`addressable, topology`interfaces
    {
      GoalOf(n.Src(), ReuseIn(sourceSignatures, entryCache, n.id), topology.Dests(),
             SignatureOf(paths, topology.Dests(), n.id), topology.Ports(n.id))
    }

    /** The goals of all nodes. */
    ghost predicate GoalsNow(paths: Paths, goals: seq<Goal>)
      reads this`sourceSignatures, this`entryCache, topology`addressable, topology`interfaces
    {
      && |goals| == |topology.nodes|
      && forall i {:trigger goals[i]} | 0 <= i < |goals| ::
           && Resolvable(SignatureOf(paths, topology.Dests(), topology.nodes[i].id),
                         topology.Ports(topology.nodes[i].id))
           && goals[i] == GoalNow(topology.nodes[i], paths)
    }

    lemma GoalsResolve(paths: Paths, maps: map<nat, Devices>, dsts: seq<Dest>, bySource: map<nat, Signature>,
                       reuses: seq<Option<Reuse>>, goals: seq<Goal>)
      requires dsts == topology.Dests() && reuses == ReusesNow() && GoalsNow(paths, goals)
      requires forall i | 0 <= i < |topology.nodes| ::
                 topology.nodes[i].id in maps && maps[topology.nodes[i].id] == topology.Ports(topology.nodes[i].id)
      requires forall src :: SignatureOf(paths, dsts, src) == VectorFor(bySource, dsts, src)
      ensures forall i {:trigger GoalFor(topology.nodes[i], maps, dsts, bySource, reuses[i], goals[i])}
                | 0 <= i < |topology.nodes| :: GoalFor(topology.nodes[i], maps, dsts, bySource, reuses[i], goals[i])
    {
      forall i | 0 <= i < |topology.nodes|
        ensures GoalFor(topology.nodes[i], maps, dsts, bySource, reuses[i], goals[i])
      {
        var n := topology.nodes[i];
        var goal := goals[i];
        assert VectorFor(bySource, dsts, n.id) == SignatureOf(paths, dsts, n.id);
      }
    }

    ghost function PreviousOf(nodes: seq<Node>): (r: seq<RouteList>)
      reads nodes
      ensures |r| == |nodes| && forall i | 0 <= i < |r| :: r[i] == nodes[i].previous
    {
      seq(|nodes|, i requires 0 <= i < |nodes| reads nodes => nodes[i].previous)
    }

    /** _populate_routing_tables, with the library's shortest paths. */
    method PopulateRoutingTables(paths: Paths, ghost goals: seq<Goal>)
      requires Valid() && GoalsNow(paths, goals)
      modifies this, topology.nodes
      ensures Valid()
      ensures forall i | 0 <= i < |topology.nodes| ::
                && topology.nodes[i].table.items == goals[i].table
                && topology.nodes[i].table != old(topology.nodes[i].table)
                && topology.nodes[i].previous == if goals[i].same then topology.nodes[i].table
                                                 else old(topology.nodes[i].table)
      ensures forall i | 0 <= i < |topology.nodes| ::
                ReuseIn(sourceSignatures, entryCache, topology.nodes[i].id) == Some(goals[i].reuse)
    {
      var nodes := topology.nodes;
      EqualizeRoutingTables(nodes);
      InstallGoals(paths, goals, PreviousOf(nodes));
    }

    /** The rest of it: every node has been given an empty table. */
    method InstallGoals(paths: Paths, ghost goals: seq<Goal>, ghost prevs: seq<RouteList>)
      requires topology.Distinct() && CacheFresh() && GoalsNow(paths, goals)
      requires |prevs| == |topology.nodes|
      requires forall i | 0 <= i < |topology.nodes| :: topology.nodes[i].previous == prevs[i]
      modifies this, topology.nodes
      ensures CacheFresh()
      ensures forall i | 0 <= i < |topology.nodes| ::
                && topology.nodes[i].table.items == goals[i].table
                && topology.nodes[i].table.owner == topology.nodes[i].id && topology.nodes[i].table != prevs[i]
                && topology.nodes[i].previous == if goals[i].same then topology.nodes[i].table else prevs[i]
      ensures forall i | 0 <= i < |topology.nodes| ::
                ReuseIn(sourceSignatures, entryCache, topology.nodes[i].id) == Some(goals[i].reuse)
    {
      var maps, dsts, bySource, reuses := Prepare(paths, goals);
      InstallAll(topology.nodes, maps, dsts, bySource, reuses, prevs, goals);
      assert CacheFresh();
    }

    /** Interface maps, destinations and next-hop vectors for one build. */
    method Prepare(paths: Paths, ghost goals: seq<Goal>)
      returns (maps: map<nat, Devices>, dsts: seq<Dest>, bySource: map<nat, Signature>,
               ghost reuses: seq<Option<Reuse>>)
      requires CacheFresh() && GoalsNow(paths, goals)
      modifies this`ifaceCache, this`ifaceCacheVersion
      ensures CacheFresh() && |reuses| == |topology.nodes|
      ensures forall i | 0 <= i < |topology.nodes| ::
                ReuseIn(sourceSignatures, entryCache, topology.nodes[i].id) == reuses[i]
      ensures forall i {:trigger GoalFor(topology.nodes[i], maps, dsts, bySource, reuses[i], goals[i])}
                | 0 <= i < |topology.nodes| :: GoalFor(topology.nodes[i], maps, dsts, bySource, reuses[i], goals[i])
    {
      maps := PrebuildIfaceMaps();
      dsts := topology.Dests();
      reuses := ReusesNow();
      bySource := TransposeNextHops(dsts, paths);
      GoalsResolve(paths, maps, dsts, bySource, reuses, goals);
    }

    /** The goals exist when the paths resolve. */
    ghost function MakeGoals(paths: Paths): (goals: seq<Goal>)
      requires PathsResolve(paths)
      reads this, topology
      ensures GoalsNow(paths, goals)
    {
      seq(|topology.nodes|, i requires 0 <= i < |topology.nodes|
                              requires Resolvable(SignatureOf(paths, topology.Dests(), topology.nodes[i].id),
                                                  topology.Ports(topology.nodes[i].id))
                              reads this, topology =>
        GoalNow(topology.nodes[i], paths))
    }

    /** The devices present on a node. */
    function LiveDevices(id: nat): set<string>
      reads topology`interfaces
    {
      DeviceNames(topology.Ports(id).Keys)
    }

    /** The batch for a node's pair of tables. */
    ghost function PendingBatch(n: Node): seq<Command>
      reads n, n.table, n.previous, topology`interfaces
    {
      Emit(n.previous == n.table, n.previous.items, n.table.items, Some(LiveDevices(n.id)))
    }

    /** The jobs of all nodes. */
    method CollectJobs(nodes: seq<Node>) returns (jobs: seq<Job>)
      ensures |jobs| == |nodes|
      ensures forall i | 0 <= i < |jobs| ::
                jobs[i] == Job(nodes[i].id, LiveDevices(nodes[i].id), PendingBatch(nodes[i]))
    {
      jobs := [];
      for k := 0 to |nodes|
        invariant |jobs| == k
        invariant forall i | 0 <= i < k ::
                    jobs[i] == Job(nodes[i].id, LiveDevices(nodes[i].id), PendingBatch(nodes[i]))
      {
        var n := nodes[k];
        var live := LiveDevices(n.id);
        jobs := jobs + [Job(n.id, live, Emit(n.previous == n.table, n.previous.items, n.table.items, Some(live)))];
      }
    }

    /** Every job with something to send runs on its own node's kernel. */
    method RunJobs(jobs: seq<Job>)
      requires forall i | 0 <= i < |jobs| :: jobs[i].id in topology.position && topology.position[jobs[i].id] == i
      modifies topology`fibs
      ensures forall i | 0 <= i < |jobs| ::
                topology.KernelOf(jobs[i].id)
                == Batch(old(topology.KernelOf(jobs[i].id)), jobs[i].live, jobs[i].lines).0
    {
      for k := 0 to |jobs|
        invariant forall i | 0 <= i < k ::
                    topology.KernelOf(jobs[i].id)
                    == Batch(old(topology.KernelOf(jobs[i].id)), jobs[i].live, jobs[i].lines).0
        invariant forall i | k <= i < |jobs| :: topology.KernelOf(jobs[i].id) == old(topology.KernelOf(jobs[i].id))
      {
        var job := jobs[k];
        if job.lines != [] {
          topology.fibs := topology.fibs[job.id := Batch(topology.KernelOf(job.id), job.live, job.lines).0];
        }
      }
    }

    /** Collects the batches of all nodes, then runs them. */
    method ApplyRoutes(nodes: seq<Node>)
      requires Placed(nodes, topology.position)
      modifies topology`fibs
      ensures forall i | 0 <= i < |nodes| ::
                topology.KernelOf(nodes[i].id)
                == Batch(old(topology.KernelOf(nodes[i].id)), LiveDevices(nodes[i].id), PendingBatch(nodes[i])).0
    {
      var jobs := CollectJobs(nodes);
      RunJobs(jobs);
      forall i | 0 <= i < |nodes|
        ensures topology.KernelOf(nodes[i].id)
                == Batch(old(topology.KernelOf(nodes[i].id)), LiveDevices(nodes[i].id), PendingBatch(nodes[i])).0
      {
        var job := jobs[i];
      }
    }

    /** A node with its goal's table and reuse state, and the goal's batch run, holds the updated value. */
    lemma UpdateDone(n: Node, v: NodeView, dsts: seq<Dest>, sig: Signature, goal: Goal, prev: seq<RouteEntry>)
      requires |sig| == |dsts| && Resolvable(sig, v.ifaces) && v.ifaces == topology.Ports(n.id)
      requires goal == GoalOf(n.Src(), v.reuse, dsts, sig, v.ifaces)
      requires n.table.items == goal.table && ReuseIn(sourceSignatures, entryCache, n.id) == Some(goal.reuse)
      requires prev == if goal.same then goal.table else v.table
      requires topology.KernelOf(n.id)
               == Batch(v.fib, LiveDevices(n.id), Emit(goal.same, prev, goal.table, Some(LiveDevices(n.id)))).0
      ensures View(n) == Updated(n.Src(), v, dsts, sig)
    {
    }

    /** A node with its goal's table and reuse state, and nothing sent. */
    lemma BuildDone(n: Node, v: NodeView, dsts: seq<Dest>, sig: Signature, goal: Goal)
      requires |sig| == |dsts| && Resolvable(sig, v.ifaces) && v.ifaces == topology.Ports(n.id)
      requires goal == GoalOf(n.Src(), v.reuse, dsts, sig, v.ifaces)
      requires n.table.items == goal.table && ReuseIn(sourceSignatures, entryCache, n.id) == Some(goal.reuse)
      requires topology.KernelOf(n.id) == v.fib
      ensures View(n) == Updated(n.Src(), v, dsts, sig).(fib := v.fib)
    {
    }

    /** The node is what update() makes of the value v. */
    ghost predicate UpdatedNode(n: Node, v: NodeView, paths: Paths)
      reads this, n, n.table, topology
    {
      var sig := SignatureOf(paths, topology.Dests(), n.id);
      && Resolvable(sig, v.ifaces)
      && View(n) == Updated(n.Src(), v, topology.Dests(), sig).(fib := if topology.active
           then Updated(n.Src(), v, topology.Dests(), sig).fib else v.fib)
    }

    ghost function Views(): (r: seq<NodeView>)
      reads this, topology, topology.nodes, set n | n in topology.nodes :: n.table
      ensures |r| == |topology.nodes| && forall i | 0 <= i < |r| :: r[i] == View(topology.nodes[i])
    {
      seq(|topology.nodes|, i requires 0 <= i < |topology.nodes|
                              reads this, topology, topology.nodes, set n | n in topology.nodes :: n.table =>
        View(topology.nodes[i]))
    }

    /** update(): every node moves as its value does; while the topology is not active nothing is sent. */
    method Update(paths: Paths)
      requires Valid() && PathsResolve(paths)
      modifies this, topology.nodes, topology`fibs
      ensures Valid()
      ensures |old(Views())| == |topology.nodes|
      ensures forall i | 0 <= i < |topology.nodes| :: UpdatedNode(topology.nodes[i], old(Views())[i], paths)
    {
      hide PeerMap, DeviceNames, Batch, Emit, Updated, Install, CacheFresh, SignatureOf;
      ghost var goals, views := MakeGoals(paths), Views();
      PopulateRoutingTables(paths, goals);
      if topology.active {
        ApplyRoutes(topology.nodes);
      }
      forall i | 0 <= i < |topology.nodes|
        ensures UpdatedNode(topology.nodes[i], views[i], paths)
      {
        var n, goal := topology.nodes[i], goals[i];
        if topology.active {
          UpdateDone(n, views[i], topology.Dests(), SignatureOf(paths, topology.Dests(), n.id), goal, n.previous.items);
        } else {
          BuildDone(n, views[i], topology.Dests(), SignatureOf(paths, topology.Dests(), n.id), goal);
        }
      }
    }

    /** Without signatures nothing is reused. */
    lemma FirstGoals(paths: Paths, goals: seq<Goal>)
      requires sourceSignatures == map[] && GoalsNow(paths, goals)
      ensures |goals| == |topology.nodes| && forall i {:trigger goals[i]} | 0 <= i < |goals| :: !goals[i].same
    {
    }

    /** The first half of init: caches forgotten, tables built, previous lists emptied in place. A node
        never loses the list it just built, since with the caches empty its two names denote two lists. */
    method Rebuild(paths: Paths, ghost goals: seq<Goal>)
      requires Valid() && sourceSignatures == map[] && GoalsNow(paths, goals)
      modifies this, topology.nodes, set n | n in topology.nodes :: n.table
      ensures Valid()
      ensures forall i | 0 <= i < |topology.nodes| ::
                && topology.nodes[i].table.items == goals[i].table && topology.nodes[i].previous.items == []
                && topology.nodes[i].previous != topology.nodes[i].table
                && ReuseIn(sourceSignatures, entryCache, topology.nodes[i].id) == Some(goals[i].reuse)
    {
      hide GoalsNow, CacheFresh, PeerMap, SignatureOf, Install;
      var nodes := topology.nodes;
      FirstGoals(paths, goals);
      PopulateRoutingTables(paths, goals);
      ClearPrevious(nodes);
    }

    lemma InitDone(n: Node, v: NodeView, dsts: seq<Dest>, sig: Signature, goal: Goal)
      requires |sig| == |dsts| && Resolvable(sig, v.ifaces) && v.ifaces == topology.Ports(n.id)
      requires goal == GoalOf(n.Src(), None, dsts, sig, v.ifaces)
      requires n.table.items == goal.table && ReuseIn(sourceSignatures, entryCache, n.id) == Some(goal.reuse)
      requires topology.KernelOf(n.id)
               == Batch(v.fib, LiveDevices(n.id), Emit(false, [], goal.table, Some(LiveDevices(n.id)))).0
      ensures View(n) == Initialized(n.Src(), v, dsts, sig)
    {
    }

    /** The node is what init() makes of the value v. */
    ghost predicate InitializedNode(n: Node, v: NodeView, paths: Paths)
      reads this, n, n.table, topology
    {
      var sig := SignatureOf(paths, topology.Dests(), n.id);
      && Resolvable(sig, v.ifaces)
      && View(n) == Initialized(n.Src(), v, topology.Dests(), sig)
    }

    /** init(): forgets the reuse state, rebuilds and sends every table. */
    method Init(paths: Paths)
      requires Valid() && PathsResolve(paths)
      modifies this, topology.nodes, set n | n in topology.nodes :: n.table, topology`fibs
      ensures Valid()
      ensures |old(Views())| == |topology.nodes|
      ensures forall i | 0 <= i < |topology.nodes| :: InitializedNode(topology.nodes[i], old(Views())[i], paths)
    {
      hide PeerMap, DeviceNames, Batch, Emit, Initialized, Install, SignatureOf;
      ghost var views := Views();
      sourceSignatures, entryCache := map[], map[];
      ghost var goals := MakeGoals(paths);
      Rebuild(paths, goals);
      ApplyRoutes(topology.nodes);
      forall i | 0 <= i < |topology.nodes|
        ensures InitializedNode(topology.nodes[i], views[i], paths)
      {
        var n, goal := topology.nodes[i], goals[i];
        InitDone(n, views[i], topology.Dests(), SignatureOf(paths, topology.Dests(), n.id), goal);
      }
    }

    /** Empties the previous list of every node. */
    method ClearPrevious(nodes: seq<Node>)
      requires Placed(nodes, topology.position)
      requires forall i | 0 <= i < |nodes| ::
                 nodes[i].table.owner == nodes[i].previous.owner == nodes[i].id && nodes[i].previous != nodes[i].table
      modifies set n | n in nodes :: n.previous
      ensures forall i | 0 <= i < |nodes| :: nodes[i].previous.items == []
      ensures forall i | 0 <= i < |nodes| :: nodes[i].table.items == old(nodes[i].table.items)
    {
      for k := 0 to |nodes|
        invariant forall i | 0 <= i < k :: nodes[i].previous.items == []
        invariant forall i | 0 <= i < |nodes| :: nodes[i].table.items == old(nodes[i].table.items)
      {
        nodes[k].previous.items := [];
      }
    }

    /** remove(node): forgets the node's reuse state and deletes its routes; when the batch fails the error
        is raised and both lists keep what they held. */
    method Remove(n: Node) returns (r: Result<()>)
      requires Valid() && n in topology.nodes
      modifies this`sourceSignatures, this`entryCache, n.table, n.previous, topology`fibs
      ensures Valid()
      ensures (View(n), r.Ok?) == Removed(old(View(n)))
      ensures r.Ok? ==> n.previous.items == []
      ensures forall id | id != n.id ::
                && topology.KernelOf(id) == old(topology.KernelOf(id))
                && ReuseIn(sourceSignatures, entryCache, id) == ReuseIn(old(sourceSignatures), old(entryCache), id)
      ensures forall m | m in topology.nodes && m != n :: m.table.items == old(m.table.items)
    {
      hide PeerMap, DeviceNames, Batch, DeleteLines, CacheFresh, OwnLists, Topology.Distinct;
      sourceSignatures, entryCache := sourceSignatures - {n.id}, entryCache - {n.id};
      var ok := DeleteRoutes(n);
      if !ok {
        return Err(RuntimeError);
      }
      ClearLists(n);
      return Ok(());
    }

    /** Sends the deletion of every route of the node's table, if it has any. */
    method DeleteRoutes(n: Node) returns (ok: bool)
      modifies topology`fibs
      ensures (topology.KernelOf(n.id), ok)
              == Batch(old(topology.KernelOf(n.id)), LiveDevices(n.id), DeleteLines(n.table.items))
      ensures forall id | id != n.id :: topology.KernelOf(id) == old(topology.KernelOf(id))
    {
      ok := true;
      var lines := DeleteLines(n.table.items);
      if lines != [] {
        var (fib, success) := Batch(topology.KernelOf(n.id), LiveDevices(n.id), lines);
        topology.fibs := topology.fibs[n.id := fib];
        ok := success;
      }
    }

    /** Empties both lists of the node in place, and no other node's. */
    method ClearLists(n: Node)
      requires topology.Distinct() && OwnLists() && n in topology.nodes
      modifies n.table, n.previous
      ensures n.table.items == n.previous.items == []
      ensures forall m | m in topology.nodes && m != n :: m.table.items == old(m.table.items)
    {
      n.table.items := [];
      n.previous.items := [];
      forall m | m in topology.nodes && m != n ensures m.table.owner == m.id != n.id {
        var i :| 0 <= i < |topology.nodes| && topology.nodes[i] == m;
        var j :| 0 <= j < |topology.nodes| && topology.nodes[j] == n;
      }
    }
  }

  /** The interfaces left when those towards some peers are removed. */
  function Without(ifaces: seq<Interface>, gone: set<nat>): seq<Interface> {
    if ifaces == [] then []
    else
      var n := |ifaces| - 1;
      Without(ifaces[..n], gone) + (if ifaces[n].peer in gone then [] else [ifaces[n]])
  }

  lemma UpdateThenDrop(m: Devices, k: nat, f: Interface, gone: set<nat>)
    ensures m[k := f] - gone == if k in gone then m - gone else (m - gone)[k := f]
  {
  }

  lemma {:induction false} PeerMapWithout(ifaces: seq<Interface>, gone: set<nat>)
    ensures PeerMap(Without(ifaces, gone)) == PeerMap(ifaces) - gone
  {
    if ifaces != [] {
      var n := |ifaces| - 1;
      var rest := Without(ifaces[..n], gone);
      PeerMapWithout(ifaces[..n], gone);
      UpdateThenDrop(PeerMap(ifaces[..n]), ifaces[n].peer, ifaces[n], gone);
      assert (rest + [ifaces[n]])[..|rest|] == rest && rest + [] == rest;
    }
  }

  lemma {:induction false} PeerMapAppend(a: seq<Interface>, b: seq<Interface>)
    ensures PeerMap(a + b) == PeerMap(a) + PeerMap(b)
  {
    if b == [] {
      assert a + b == a;
    } else {
      var n := |b| - 1;
      PeerMapAppend(a, b[..n]);
      assert (a + b)[..|a + b| - 1] == a + b[..n];
    }
  }

  /** A tick's link changes as the daemon's surroundings make them: interfaces go and come, the kernel drops
      the routes of the devices that went, and the version moves past every value it had. */
  method ChangeLinks(d: StaticRoutingDaemon, n: Node, gone: set<nat>, added: seq<Interface>, version: nat)
    requires d.Valid() && n in d.topology.nodes && version > d.topology.interfaceVersion
    modifies d.topology`interfaces, d.topology`interfaceVersion, d.topology`fibs
    ensures d.Valid()
    ensures d.View(n) == LinksChanged(old(d.View(n)), gone, PeerMap(added))
    ensures forall m | m in d.topology.nodes && m != n :: d.View(m) == old(d.View(m))
  {
    var t := d.topology;
    var before := if n.id in t.interfaces then t.interfaces[n.id] else [];
    PeerMapWithout(before, gone);
    PeerMapAppend(Without(before, gone), added);
    t.fibs := t.fibs[n.id := Purge(t.KernelOf(n.id), DeviceNames(gone))];
    t.interfaces := t.interfaces[n.id := Without(before, gone) + added];
    t.interfaceVersion := version;
    forall m | m in t.nodes && m != n ensures m.id != n.id {
      var i :| 0 <= i < |t.nodes| && t.nodes[i] == m;
      var j :| 0 <= j < |t.nodes| && t.nodes[j] == n;
    }
  }

  lemma {:induction false} PeerMapKeys(ifaces: seq<Interface>)
    ensures PeerMap(ifaces).Keys == set i | 0 <= i < |ifaces| :: ifaces[i].peer
  {
    if ifaces != [] {
      var n := |ifaces| - 1;
      PeerMapKeys(ifaces[..n]);
      assert forall i | 0 <= i < n :: ifaces[..n][i] == ifaces[i];
    }
  }

  lemma ExtendFresh(src: Source, dsts: seq<Dest>, sig: Signature, ifaces: Devices, i: nat)
    requires |sig| == |dsts| && Resolvable(sig, ifaces) && i < |dsts|
    ensures Resolvable(sig[..i], ifaces) && Resolvable(sig[..i + 1], ifaces)
    ensures FreshTable(src, dsts[..i + 1], sig[..i + 1], ifaces)
            == FreshTable(src, dsts[..i], sig[..i], ifaces)
               + (if sig[i].Some? then [FreshEntry(src, dsts[i], ifaces[sig[i].value])] else [])
    ensures FreshEntries(src, dsts[..i + 1], sig[..i + 1], ifaces)
            == (var m := FreshEntries(src, dsts[..i], sig[..i], ifaces);
                if sig[i].Some? then m[dsts[i].id := FreshEntry(src, dsts[i], ifaces[sig[i].value])] else m)
  {
    var d, s := dsts[..i + 1], sig[..i + 1];
    assert d[..i] == dsts[..i] && s[..i] == sig[..i];
    var slots := FreshSlots(src, d, s, ifaces);
    assert slots[..i] == FreshSlots(src, dsts[..i], sig[..i], ifaces);
  }
}

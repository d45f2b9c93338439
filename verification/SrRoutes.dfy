/** The lines the daemon wants on each node, and what they do to a packet
    (satgonetem/routing/srmpls_daemon.py:648-762, 851-909, 992-1019). */
module SrRoutes {
  import opened Wrappers
  import opened RoutingEntries
  import StaticDaemon
  import opened SegmentRouting
  import opened LabelForwarding

  type Ports = map<nat, Interface>

  datatype SrNode = SrNode(satellite: bool, addressable: bool, loopback: string, ifaces: seq<Interface>)

  /** What a rebuild reads: the nodes, their two lists, the library's shortest paths by source and target, the
      stored paths and the labels. */
  datatype View = View(nodes: map<nat, SrNode>, stations: seq<nat>, satellites: seq<nat>,
                       paths: map<nat, map<nat, seq<nat>>>, custom: map<(nat, nat), seq<nat>>,
                       sids: map<nat, nat>, usePhp: bool)

  predicate NoRepeats(s: seq<nat>) {
    forall i, j | 0 <= i < j < |s| :: s[i] != s[j]
  }

  /** Ids are unique across both lists, every node has a label of its own, addresses are distinct, and a node has
      at most one interface per peer and none to itself. */
  predicate WellFormed(v: View) {
    && Injective(v.sids)
    && NoRepeats(v.stations + v.satellites)
    && (forall n | n in v.stations + v.satellites :: n in v.nodes && n in v.sids)
    && (forall n | n in v.sids :: n in v.stations || n in v.satellites)
    && (forall n | n in v.stations :: !v.nodes[n].satellite)
    && (forall n | n in v.satellites :: v.nodes[n].satellite)
    && (forall m, n | m in v.nodes && n in v.nodes && m != n :: v.nodes[m].loopback != v.nodes[n].loopback)
    && (forall n | n in v.nodes :: v.nodes[n].loopback != "" && PortsOk(n, v.nodes[n].ifaces))
  }

  predicate PortsOk(n: nat, ifaces: seq<Interface>) {
    && (forall i | 0 <= i < |ifaces| :: ifaces[i].peer != n) && DistinctPeers(ifaces)
  }

  predicate DistinctPeers(ifaces: seq<Interface>) {
    forall i, j | 0 <= i < j < |ifaces| :: ifaces[i].peer != ifaces[j].peer
  }

  /** An unset peer or an unset address is skipped. */
  predicate UsableIp(ip: string) {
    ip != "" && ip != "0.0.0.0"
  }

  /** The ids that take part: the ground stations, then the addressable satellites. */
  function Addressable(v: View, satellites: seq<nat>): seq<nat>
    requires forall n | n in satellites :: n in v.nodes
  {
    if satellites == [] then []
    else
      var n := |satellites| - 1;
      Addressable(v, satellites[..n]) + (if v.nodes[satellites[n]].addressable then [satellites[n]] else [])
  }

  function Ends(v: View): seq<nat>
    requires WellFormed(v)
  {
    v.stations + Addressable(v, v.satellites)
  }

  // ---- Lines ----

  /** A node pops its own label. */
  function OwnLine(v: View, n: nat): Line
    requires n in v.sids
  {
    Line(ForLabel(v.sids[n]), Local)
  }

  /** The label of a linked node is popped on the way to it. */
  function NeighbourLines(v: View, ifaces: seq<Interface>): seq<Line> {
    if ifaces == [] then []
    else
      var i := ifaces[|ifaces| - 1];
      NeighbourLines(v, ifaces[..|ifaces| - 1])
      + if i.peer in v.sids && UsableIp(i.peerIp)
        then [Line(ForLabel(v.sids[i.peer]), Via(i.peer, i.peerIp, []))] else []
  }

  /** A linked ground station is reached directly. */
  function StationLines(v: View, stations: seq<nat>, ports: Ports): seq<Line>
    requires forall n | n in stations :: n in v.nodes
  {
    if stations == [] then []
    else
      var gs := stations[|stations| - 1];
      StationLines(v, stations[..|stations| - 1], ports)
      + if gs in ports && v.nodes[gs].loopback != ""
        then [Line(ForAddress(v.nodes[gs].loopback), Via(gs, ports[gs].peerIp, []))] else []
  }

  /** All that install_sr_forwarding wants on a satellite. */
  function ForwardLines(v: View, n: nat): seq<Line>
    requires WellFormed(v) && n in v.satellites
  {
    [OwnLine(v, n)] + NeighbourLines(v, v.nodes[n].ifaces)
    + StationLines(v, v.stations, StaticDaemon.PeerMap(v.nodes[n].ifaces))
  }

  /** The stored path if there is one, else the library's. */
  function PathOf(v: View, src: nat, dst: nat): Option<seq<nat>> {
    if src == dst || src !in v.paths then None
    else if (src, dst) in v.custom then Some(v.custom[(src, dst)])
    else if dst in v.paths[src] then Some(v.paths[src][dst])
    else None
  }

  /** One entry of sr_lfib: push the labels of the path after its first hop and send to the first hop. */
  function RouteLine(v: View, ports: Ports, src: nat, dst: nat): Option<Line>
    requires dst in v.nodes
  {
    match PathOf(v, src, dst)
    case None => None
    case Some(path) =>
      if |path| < 2 || path[1] !in ports || !UsableIp(ports[path[1]].peerIp) then None
      else match StackFor(v.sids, path[1..], v.usePhp)
        case Err(_) => None
        case Ok(stack) => Some(Line(ForAddress(v.nodes[dst].loopback), Via(path[1], ports[path[1]].peerIp, stack)))
  }

  function RouteLines(v: View, ports: Ports, src: nat, dsts: seq<nat>): seq<Line>
    requires forall n | n in dsts :: n in v.nodes
  {
    if dsts == [] then []
    else
      var n := |dsts| - 1;
      RouteLines(v, ports, src, dsts[..n])
      + match RouteLine(v, ports, src, dsts[n]) case None => [] case Some(line) => [line]
  }

  lemma {:induction false} AddressableNodes(v: View, satellites: seq<nat>)
    requires forall n | n in satellites :: n in v.nodes
    ensures forall n :: n in Addressable(v, satellites) <==> n in satellites && v.nodes[n].addressable
    ensures NoRepeats(satellites) ==> NoRepeats(Addressable(v, satellites))
  {
    if satellites != [] {
      var n := |satellites| - 1;
      assert satellites == satellites[..n] + [satellites[n]];
      AddressableNodes(v, satellites[..n]);
    }
  }

  lemma EndsAreNodes(v: View)
    requires WellFormed(v)
    ensures forall n | n in Ends(v) :: n in v.nodes && n in v.sids
    ensures NoRepeats(Ends(v))
  {
    var all := v.stations + v.satellites;
    forall i | 0 <= i < |v.satellites| ensures v.satellites[i] == all[|v.stations| + i] {
    }
    forall i | 0 <= i < |v.stations| ensures v.stations[i] == all[i] {
    }
    AddressableNodes(v, v.satellites);
    forall i, j | 0 <= i < j < |Ends(v)| ensures Ends(v)[i] != Ends(v)[j] {
      if i < |v.stations| <= j {
        assert Ends(v)[j] in v.satellites;
      }
    }
  }

  /** The sr_lfib entries of a source. */
  function Routes(v: View, n: nat): seq<Line>
    requires WellFormed(v) && n in v.nodes
  {
    EndsAreNodes(v);
    RouteLines(v, StaticDaemon.PeerMap(v.nodes[n].ifaces), n, Ends(v))
  }

  /** All that install_gs_routes or install_satellite_routes wants on a node. */
  function SourceLines(v: View, n: nat): seq<Line>
    requires WellFormed(v) && n in v.nodes && n in v.sids
  {
    [OwnLine(v, n)] + Routes(v, n)
  }

  // ---- What they say, line by line ----

  lemma {:induction false} NeighbourMembers(v: View, ifaces: seq<Interface>, line: Line)
    ensures line in NeighbourLines(v, ifaces) <==>
              exists i :: 0 <= i < |ifaces| && ifaces[i].peer in v.sids && UsableIp(ifaces[i].peerIp)
                          && line == Line(ForLabel(v.sids[ifaces[i].peer]), Via(ifaces[i].peer, ifaces[i].peerIp, []))
  {
    if ifaces != [] {
      var n := |ifaces| - 1;
      NeighbourMembers(v, ifaces[..n], line);
      if line in NeighbourLines(v, ifaces[..n]) {
        var i :| 0 <= i < n && ifaces[..n][i].peer in v.sids && UsableIp(ifaces[..n][i].peerIp)
                 && line == Line(ForLabel(v.sids[ifaces[..n][i].peer]),
                                 Via(ifaces[..n][i].peer, ifaces[..n][i].peerIp, []));
        assert ifaces[i].peer in v.sids;
      }
    }
  }

  lemma {:induction false} StationMembers(v: View, stations: seq<nat>, ports: Ports, line: Line)
    requires forall n | n in stations :: n in v.nodes
    ensures line in StationLines(v, stations, ports) <==>
              exists gs :: gs in stations && gs in ports && v.nodes[gs].loopback != ""
                           && line == Line(ForAddress(v.nodes[gs].loopback), Via(gs, ports[gs].peerIp, []))
  {
    if stations != [] {
      var n := |stations| - 1;
      assert stations == stations[..n] + [stations[n]];
      StationMembers(v, stations[..n], ports, line);
    }
  }

  lemma {:induction false} RouteMembers(v: View, ports: Ports, src: nat, dsts: seq<nat>, line: Line)
    requires forall n | n in dsts :: n in v.nodes
    ensures line in RouteLines(v, ports, src, dsts) <==>
              exists dst :: dst in dsts && RouteLine(v, ports, src, dst) == Some(line)
  {
    if dsts != [] {
      var n := |dsts| - 1;
      assert dsts == dsts[..n] + [dsts[n]];
      RouteMembers(v, ports, src, dsts[..n], line);
    }
  }
}

/** The segment routing daemon: what it builds, what it sends, what it remembers
    (satgonetem/routing/srmpls_daemon.py:296-452, 598-1140). */
module SrDaemon {
  import opened Wrappers
  import opened RoutingEntries
  import StaticDaemon
  import opened SegmentRouting
  import opened LabelForwarding
  import opened SrRoutes
  import opened SrInstall
  import opened SrWriters
  import opened SrDelivery
  import opened SrPaths
  import opened SrRuns

  function KernelAt(kernels: map<nat, Kernel>, n: nat): Kernel {
    if n in kernels then kernels[n] else map[]
  }

  function LinesAt(remembered: map<nat, seq<Line>>, n: nat): seq<Line> {
    if n in remembered then remembered[n] else []
  }

  /** What one writer has on a node. */
  function StateAt(kernels: map<nat, Kernel>, remembered: map<nat, seq<Line>>, n: nat): State {
    State(KernelAt(kernels, n), LinesAt(remembered, n))
  }

  /** The first interface towards a peer; with one interface per peer it is the one of the lookup table. */
  method InterfaceToPeer(ifaces: seq<Interface>, peer: nat) returns (r: Option<Interface>)
    requires DistinctPeers(ifaces)
    ensures var ports := StaticDaemon.PeerMap(ifaces);
            r == if peer in ports then Some(ports[peer]) else None
  {
    for i := 0 to |ifaces|
      invariant forall j | 0 <= j < i :: ifaces[j].peer != peer
    {
      if ifaces[i].peer == peer {
        PortAt(ifaces, i);
        return Some(ifaces[i]);
      }
    }
    if peer in StaticDaemon.PeerMap(ifaces) {
      PortMember(ifaces, peer);
    }
    return None;
  }

  method NeighbourCommands(v: View, ifaces: seq<Interface>) returns (lines: seq<Line>)
    ensures lines == NeighbourLines(v, ifaces)
  {
    lines := [];
    for i := 0 to |ifaces|
      invariant lines == NeighbourLines(v, ifaces[..i])
    {
      assert ifaces[..i + 1][..i] == ifaces[..i];
      var iface := ifaces[i];
      if iface.peer in v.sids && UsableIp(iface.peerIp) {
        lines := lines + [Line(ForLabel(v.sids[iface.peer]), Via(iface.peer, iface.peerIp, []))];
      }
    }
    assert ifaces[..|ifaces|] == ifaces;
  }

  method StationCommands(v: View, stations: seq<nat>, ifaces: seq<Interface>) returns (lines: seq<Line>)
    requires DistinctPeers(ifaces) && forall n | n in stations :: n in v.nodes
    ensures lines == StationLines(v, stations, StaticDaemon.PeerMap(ifaces))
  {
    hide DistinctPeers;
    lines := [];
    for i := 0 to |stations|
      invariant lines == StationLines(v, stations[..i], StaticDaemon.PeerMap(ifaces))
    {
      assert stations[..i + 1][..i] == stations[..i];
      var gs := stations[i];
      var iface := InterfaceToPeer(ifaces, gs);
      if iface.Some? && v.nodes[gs].loopback != "" {
        lines := lines + [Line(ForAddress(v.nodes[gs].loopback), Via(gs, iface.value.peerIp, []))];
      }
    }
    assert stations[..|stations|] == stations;
  }

  /** The commands of install_sr_forwarding. */
  method ForwardCommands(v: View, n: nat) returns (lines: seq<Line>)
    requires WellFormed(v) && n in v.satellites
    ensures lines == ForwardLines(v, n)
  {
    assert PortsOk(n, v.nodes[n].ifaces);
    var neighbours := NeighbourCommands(v, v.nodes[n].ifaces);
    var stations := StationCommands(v, v.stations, v.nodes[n].ifaces);
    return [OwnLine(v, n)] + neighbours + stations;
  }

  /** The entries of one source towards some destinations. */
  method RouteEntries(v: View, manager: SegmentRoutingManager, src: nat, dsts: seq<nat>) returns (entries: seq<Line>)
    requires manager.Valid() && manager.nodeSids == v.sids && manager.customPaths == v.custom
    requires src in v.nodes && src in v.paths && forall n | n in dsts :: n in v.nodes
    ensures entries == RouteLines(v, PortsOf(v, src), src, dsts)
  {
    var ports := StaticDaemon.BuildPeerMap(v.nodes[src].ifaces);
    entries := [];
    for i := 0 to |dsts|
      invariant entries == RouteLines(v, ports, src, dsts[..i])
    {
      assert dsts[..i + 1][..i] == dsts[..i];
      var dst := dsts[i];
      if src != dst && ((src, dst) in manager.customPaths || dst in v.paths[src]) {
        var path := if (src, dst) in manager.customPaths then manager.customPaths[(src, dst)] else v.paths[src][dst];
        if |path| >= 2 && path[1] in ports && UsableIp(ports[path[1]].peerIp) {
          var stack := manager.LabelStackForPath(path[1..], v.usePhp);
          if stack.Ok? {
            var action := Via(path[1], ports[path[1]].peerIp, stack.value);
            entries := entries + [Line(ForAddress(v.nodes[dst].loopback), action)];
          }
        }
      }
    }
    assert dsts[..|dsts|] == dsts;
  }

  lemma {:induction false} NoPathsNoRoutes(v: View, ports: Ports, src: nat, dsts: seq<nat>)
    requires src !in v.paths && forall n | n in dsts :: n in v.nodes
    ensures RouteLines(v, ports, src, dsts) == []
  {
    if dsts != [] {
      NoPathsNoRoutes(v, ports, src, dsts[..|dsts| - 1]);
    }
  }

  lemma SatellitesOnce(v: View)
    requires WellFormed(v)
    ensures NoRepeats(v.satellites) && forall n | n in v.satellites :: n in v.nodes && n in v.sids
  {
    var all := v.stations + v.satellites;
    assert forall i | 0 <= i < |v.satellites| :: v.satellites[i] == all[|v.stations| + i];
    assert forall n | n in v.satellites :: n in all;
  }

  lemma SourcesAreEnds(v: View)
    requires WellFormed(v)
    ensures NoRepeats(v.stations) && forall n | n in v.stations :: n in Ends(v)
    ensures forall n | n in v.satellites :: n in v.nodes
    ensures NoRepeats(Addressable(v, v.satellites)) && forall n | n in Addressable(v, v.satellites) :: n in Ends(v)
  {
    StationsOnce(v);
    SatellitesOnce(v);
    AddressableNodes(v, v.satellites);
  }

  /** What the first writer makes of a node, when it has come to the given satellites. */
  function ForwardStep(v: View, satellites: seq<nat>, s: State, n: nat): State
    requires WellFormed(v)
  {
    if n in satellites && n in v.satellites then Install(s, ForwardLines(v, n)) else s
  }

  /** What a writer of routes makes of a node, when it has come to the given nodes. */
  function SourceStep(v: View, nodes: seq<nat>, s: State, n: nat): State
    requires WellFormed(v)
  {
    if n in nodes && n in v.nodes && n in v.sids then Install(s, SourceLines(v, n)) else s
  }

  /** The kernels and what the three writers remember, by node. */
  datatype Net = Net(kernels: map<nat, Kernel>, forward: map<nat, seq<Line>>, station: map<nat, seq<Line>>,
                     satellite: map<nat, seq<Line>>)

  /** A node with its writers: a ground station has the second of them, a satellite the first and the third. */
  function MemoryAt(v: View, a: Net, n: nat): Memory {
    if n in v.stations then Memory(KernelAt(a.kernels, n), [], LinesAt(a.station, n))
    else Memory(KernelAt(a.kernels, n), LinesAt(a.forward, n), LinesAt(a.satellite, n))
  }

  /** Every labelled node has taken the step of the event, and the kernels of others are as they were. */
  ghost predicate Stepped(v: View, a: Net, b: Net, e: NetEvent)
    requires Proper(e)
  {
    && (forall n | n in v.sids :: MemoryAt(v, b, n) == NodeNext(MemoryAt(v, a, n), n, e))
    && forall n | n !in v.sids :: KernelAt(b.kernels, n) == KernelAt(a.kernels, n)
  }

  /** One node, from what the three writers make of it in turn. */
  lemma RebuiltAt(v: View, a: Net, b: Net, k1: map<nat, Kernel>, k2: map<nat, Kernel>, n: nat)
    requires WellFormed(v)
    requires StateAt(k1, b.forward, n) == ForwardStep(v, v.satellites, StateAt(a.kernels, a.forward, n), n)
    requires StateAt(k2, b.station, n) == SourceStep(v, v.stations, StateAt(k1, a.station, n), n)
    requires StateAt(b.kernels, b.satellite, n)
             == SourceStep(v, Addressable(v, v.satellites), StateAt(k2, a.satellite, n), n)
    ensures n in v.sids ==> MemoryAt(v, b, n) == NodeNext(MemoryAt(v, a, n), n, Update(v, map[]))
    ensures n !in v.sids ==> KernelAt(b.kernels, n) == KernelAt(a.kernels, n)
  {
    hide WellFormed, Install, ForwardLines, SourceLines, Addressable, KernelAt, LinesAt, Ends, NodeNext;
    KindsApart(v, n);
    InLists(v, n);
    if n in v.stations {
      StationStep(v, MemoryAt(v, a, n), n);
    } else if n in v.satellites {
      SatelliteStep(v, MemoryAt(v, a, n), n);
    }
  }

  lemma StationStep(v: View, s: Memory, n: nat)
    requires WellFormed(v) && n in v.stations && n in v.nodes && n in v.sids && n !in v.satellites && s.forward == []
    ensures var after := Install(State(s.kernel, s.routes), SourceLines(v, n));
            NodeNext(s, n, Update(v, map[])) == Memory(after.kernel, [], after.remembered)
  {
    hide WellFormed, Install, SourceLines;
    PurgeNone(s.kernel);
    NoForward(s.kernel);
    assert n in Ends(v);
  }

  lemma SatelliteStep(v: View, s: Memory, n: nat)
    requires WellFormed(v) && n in v.satellites && n in v.nodes && n in v.sids && n !in v.stations
    ensures var first := Install(State(s.kernel, s.forward), ForwardLines(v, n));
            var second := State(first.kernel, s.routes);
            var after := if n in Addressable(v, v.satellites) then Install(second, SourceLines(v, n)) else second;
            NodeNext(s, n, Update(v, map[])) == Memory(after.kernel, first.remembered, after.remembered)
  {
    hide WellFormed, Install, SourceLines, ForwardLines, Addressable;
    PurgeNone(s.kernel);
  }

  lemma NoForward(kernel: Kernel)
    ensures Install(State(kernel, []), []) == State(kernel, [])
  {
  }

  lemma InLists(v: View, n: nat)
    requires WellFormed(v)
    ensures n in v.sids <==> n in v.stations || n in v.satellites
    ensures n in v.sids ==> n in v.nodes
    ensures n in Ends(v) <==> n in v.stations || n in Addressable(v, v.satellites)
  {
    if n in v.stations || n in v.satellites {
      assert n in v.stations + v.satellites;
    }
  }

  /** sr_lfib holds the entries of the current view. */
  ghost predicate Built(v: View, lfib: map<nat, seq<Line>>)
    requires WellFormed(v)
  {
    forall n | n in Ends(v) :: n in lfib && n in v.nodes && lfib[n] == Routes(v, n)
  }

  lemma SameNodes(v: View, v': View)
    requires WellFormed(v) && v' == v.(custom := v'.custom)
    ensures WellFormed(v')
  {
    forall n | n in v.nodes ensures PortsOk(n, v'.nodes[n].ifaces) {
      assert PortsOk(n, v.nodes[n].ifaces);
    }
  }

  lemma FlushTwice(kernel: Kernel)
    ensures WithoutLabels(WithoutLabels(kernel)) == WithoutLabels(kernel)
  {
  }

  /** Forgetting first makes an update an init. */
  lemma Forgotten(v: View, a: Net)
    requires WellFormed(v)
    ensures forall n :: NodeNext(MemoryAt(v, Net(a.kernels, map[], map[], map[]), n), n, Update(v, map[]))
                        == NodeNext(MemoryAt(v, a, n), n, Init(v, map[]))
  {
    hide WellFormed, WantForward, WantRoutes, SrWriters.Rebuild;
  }

  lemma ResentStep(v: View, a: Net, b: Net, src: nat)
    requires WellFormed(v) && src in v.stations && src in v.nodes && src in v.sids
    requires b == a.(kernels := a.kernels[src := Exec(KernelAt(a.kernels, src), StationRoutes(v, src))],
                     station := a.station[src := StationRoutes(v, src)])
    ensures Stepped(v, a, b, Resend(v, src))
  {
    hide WellFormed, StationRoutes, Exec, NodeNext;
    SentAgain(v, MemoryAt(v, a, src), src);
    forall n | n in v.sids && n != src ensures MemoryAt(v, b, n) == NodeNext(MemoryAt(v, a, n), n, Resend(v, src)) {
      ElsewhereSame(MemoryAt(v, a, n), v, n, src);
    }
  }

  lemma SentAgain(v: View, s: Memory, src: nat)
    requires WellFormed(v) && src in v.stations && src in v.nodes && src in v.sids
    ensures NodeNext(s, src, Resend(v, src))
            == Memory(Exec(s.kernel, StationRoutes(v, src)), s.forward, StationRoutes(v, src))
  {
    hide WellFormed, StationRoutes, Exec;
  }

  lemma ElsewhereSame(s: Memory, v: View, n: nat, src: nat)
    requires WellFormed(v) && n != src
    ensures NodeNext(s, n, Resend(v, src)) == s
  {
    hide WellFormed, StationRoutes, Exec;
  }

  lemma NothingResent(v: View, a: Net, src: nat)
    requires WellFormed(v) && src !in v.stations
    ensures Stepped(v, a, a, Resend(v, src))
  {
    hide WellFormed, StationRoutes;
  }

  class SRMPLSDaemon {
    var manager: SegmentRoutingManager?
    var srLfib: map<nat, seq<Line>>
    var prevForward: map<nat, seq<Line>>
    var prevStation: map<nat, seq<Line>>
    var prevSatellite: map<nat, seq<Line>>
    var kernels: map<nat, Kernel>  // behind the containers

    constructor ()
      ensures manager == null && prevForward == prevStation == prevSatellite == map[] && kernels == map[]
    {
      manager := null;
      srLfib, prevForward, prevStation, prevSatellite, kernels := map[], map[], map[], map[], map[];
    }

    /** The manager stands for what a view says of labels and stored paths. */
    ghost predicate Knows(v: View)
      reads this, manager
    {
      manager != null && manager.Valid() && manager.nodeSids == v.sids && manager.customPaths == v.custom
    }

    /** Labels for every node, or an error at the first node beyond the label space; the daemon counts as
        initialized either way. */
    method InitSrMpls(satellites: seq<nat>, stations: seq<nat>, sidBase: int) returns (error: Option<Error>)
      modifies this`manager
      ensures manager != null && fresh(manager) && manager.Valid() && manager.customPaths == map[]
      ensures manager.nodeSidBase == if sidBase < MPLS_LABEL_MIN then MPLS_LABEL_MIN else sidBase
      ensures error == if forall n | n in satellites + stations ::
                Usable(manager.nodeSidBase + n) then None else Some(RuntimeError)
      ensures error.None? ==> forall n :: n in manager.nodeSids <==> n in satellites + stations
    {
      var m := new SegmentRoutingManager(sidBase);
      manager := m;
      error := AllocateAll(m, satellites + stations);
    }

    static method AllocateAll(m: SegmentRoutingManager, nodes: seq<nat>) returns (error: Option<Error>)
      requires m.Valid() && m.nodeSids == map[]
      modifies m`nodeSids, m`reverseSidMap
      ensures m.Valid()
      ensures error == if forall n | n in nodes :: Usable(m.nodeSidBase + n) then None else Some(RuntimeError)
      ensures error.None? ==> forall n :: n in m.nodeSids <==> n in nodes
    {
      for i := 0 to |nodes|
        invariant m.Valid()
        invariant forall j | 0 <= j < i :: Usable(m.nodeSidBase + nodes[j])
        invariant forall n :: n in m.nodeSids <==> n in nodes[..i]
      {
        var sid := m.AllocateNodeSid(nodes[i]);
        if sid.Err? {
          assert nodes[i] in nodes && !Usable(m.nodeSidBase + nodes[i]);
          return Some(RuntimeError);
        }
        assert nodes[..i + 1] == nodes[..i] + [nodes[i]];
      }
      assert nodes[..|nodes|] == nodes;
      return None;
    }

    /** _build_sr_gs_routes. */
    method BuildRoutes(v: View)
      requires WellFormed(v) && Knows(v)
      modifies this`srLfib
      ensures forall n :: n in srLfib <==> n in Ends(v)
      ensures forall n | n in Ends(v) :: n in v.nodes && srLfib[n] == Routes(v, n)
      ensures forall n, line | n in Ends(v) :: line in srLfib[n] <==> Carries(v, n, line)
    {
      hide WellFormed, RouteLines, Ends, Routes, Carries;
      EndsAreNodes(v);
      srLfib := map[];
      var ends := Ends(v);
      for i := 0 to |ends|
        invariant forall n :: n in srLfib <==> n in ends[..i]
        invariant forall n | n in ends[..i] :: n in v.nodes && srLfib[n] == Routes(v, n)
      {
        var src := ends[i];
        var entries := BuildFrom(v, src);
        srLfib := srLfib[src := entries];
        assert ends[..i + 1] == ends[..i] + [src];
      }
      assert ends[..|ends|] == ends;
      forall n, line | n in Ends(v) ensures line in srLfib[n] <==> Carries(v, n, line) {
        TableOnly(v, n, line);
      }
    }

    method BuildFrom(v: View, src: nat) returns (entries: seq<Line>)
      requires WellFormed(v) && Knows(v) && src in v.nodes
      ensures entries == Routes(v, src)
    {
      EndsAreNodes(v);
      if src in v.paths {
        entries := RouteEntries(v, manager, src, Ends(v));
      } else {
        NoPathsNoRoutes(v, PortsOf(v, src), src, Ends(v));
        entries := [];
      }
    }

    /** The shell runs the lines in order. */
    method Execute(n: nat, lines: seq<Line>)
      modifies this`kernels
      ensures kernels == old(kernels)[n := Exec(KernelAt(old(kernels), n), lines)]
    {
      kernels := kernels[n := KernelAt(kernels, n)];
      for i := 0 to |lines|
        invariant kernels == old(kernels)[n := Exec(KernelAt(old(kernels), n), lines[..i])]
      {
        assert lines[..i + 1][..i] == lines[..i];
        kernels := kernels[n := kernels[n][lines[i].key := lines[i].action]];
      }
      assert lines[..|lines|] == lines;
    }

    /** The common end of the three installers. */
    method InstallChanged(n: nat, commands: seq<Line>, remembered: map<nat, seq<Line>>)
      returns (remembered': map<nat, seq<Line>>)
      modifies this`kernels
      ensures var s' := Install(StateAt(old(kernels), remembered, n), commands);
              StateAt(kernels, remembered', n) == s'
      ensures forall m | m != n :: StateAt(kernels, remembered', m) == StateAt(old(kernels), remembered, m)
    {
      var changed := [];
      for i := 0 to |commands|
        invariant changed == Changed(LinesAt(remembered, n), commands[..i])
      {
        assert commands[..i + 1][..i] == commands[..i];
        if commands[i] !in LinesAt(remembered, n) {
          changed := changed + [commands[i]];
        }
      }
      assert commands[..|commands|] == commands;
      remembered' := remembered;
      if changed != [] {
        Execute(n, changed);
        remembered' := remembered[n := commands];
      }
    }

    /** _apply_sr_node_sids_to_satellites. */
    method ApplyNodeSids(v: View)
      requires WellFormed(v)
      modifies this`kernels, this`prevForward
      ensures forall n :: StateAt(kernels, prevForward, n)
                          == ForwardStep(v, v.satellites, StateAt(old(kernels), old(prevForward), n), n)
    {
      hide WellFormed, ForwardLines, Install, StateAt;
      SatellitesOnce(v);
      for i := 0 to |v.satellites|
        invariant forall n :: StateAt(kernels, prevForward, n)
                              == ForwardStep(v, v.satellites[..i], StateAt(old(kernels), old(prevForward), n), n)
      {
        var n := v.satellites[i];
        var lines := ForwardCommands(v, n);
        prevForward := InstallChanged(n, lines, prevForward);
        assert v.satellites[..i + 1] == v.satellites[..i] + [n];
      }
      assert v.satellites[..|v.satellites|] == v.satellites;
    }

    /** install_gs_routes and install_satellite_routes. */
    method InstallRoutes(v: View, n: nat, remembered: map<nat, seq<Line>>) returns (remembered': map<nat, seq<Line>>)
      requires WellFormed(v) && Built(v, srLfib) && n in Ends(v)
      modifies this`kernels
      ensures n in v.nodes && n in v.sids
      ensures StateAt(kernels, remembered', n) == Install(StateAt(old(kernels), remembered, n), SourceLines(v, n))
      ensures forall m | m != n :: StateAt(kernels, remembered', m) == StateAt(old(kernels), remembered, m)
    {
      EndsAreNodes(v);
      remembered' := InstallChanged(n, [OwnLine(v, n)] + srLfib[n], remembered);
    }

    /** _apply_sr_routes_to_ground_stations. */
    method ApplyStations(v: View)
      requires WellFormed(v) && Built(v, srLfib)
      modifies this`kernels, this`prevStation
      ensures forall n :: StateAt(kernels, prevStation, n)
                          == SourceStep(v, v.stations, StateAt(old(kernels), old(prevStation), n), n)
    {
      hide WellFormed, Ends, Built, SourceLines, Install, StateAt;
      SourcesAreEnds(v);
      for i := 0 to |v.stations|
        invariant forall n :: StateAt(kernels, prevStation, n)
                              == SourceStep(v, v.stations[..i], StateAt(old(kernels), old(prevStation), n), n)
      {
        var n := v.stations[i];
        prevStation := InstallRoutes(v, n, prevStation);
        assert v.stations[..i + 1] == v.stations[..i] + [n];
      }
      assert v.stations[..|v.stations|] == v.stations;
    }

    /** _apply_sr_routes_to_satellites: the addressable ones. */
    method ApplySatellites(v: View)
      requires WellFormed(v) && Built(v, srLfib)
      modifies this`kernels, this`prevSatellite
      ensures forall n ::
                StateAt(kernels, prevSatellite, n)
                == SourceStep(v, Addressable(v, v.satellites), StateAt(old(kernels), old(prevSatellite), n), n)
    {
      hide WellFormed, Ends, Built, SourceLines, Install, StateAt, Addressable;
      SourcesAreEnds(v);
      var nodes := Addressable(v, v.satellites);
      for i := 0 to |nodes|
        invariant forall n :: StateAt(kernels, prevSatellite, n)
                              == SourceStep(v, nodes[..i], StateAt(old(kernels), old(prevSatellite), n), n)
      {
        var n := nodes[i];
        prevSatellite := InstallRoutes(v, n, prevSatellite);
        assert nodes[..i + 1] == nodes[..i] + [n];
      }
      assert nodes[..|nodes|] == nodes;
    }

    ghost function Now(): Net
      reads this
    {
      Net(kernels, prevForward, prevStation, prevSatellite)
    }

    /** _rebuild_sr_mpls_routing: a first build forgets what was sent before. */
    method Rebuild(v: View, initFlag: bool)
      requires WellFormed(v) && Knows(v)
      modifies this`srLfib, this`kernels, this`prevForward, this`prevStation, this`prevSatellite
      ensures Stepped(v, old(Now()), Now(), if initFlag then Init(v, map[]) else Update(v, map[]))
    {
      hide WellFormed, NodeNext, MemoryAt, StateAt, KernelAt, Addressable;
      ghost var start := Now();
      if initFlag {
        prevForward, prevStation, prevSatellite := map[], map[], map[];
      }
      ghost var a := Now();
      BuildRoutes(v);
      ApplyNodeSids(v);
      ghost var k1 := kernels;
      ApplyStations(v);
      ghost var k2 := kernels;
      ApplySatellites(v);
      forall n
        ensures n in v.sids ==> MemoryAt(v, Now(), n) == NodeNext(MemoryAt(v, a, n), n, Update(v, map[]))
        ensures n !in v.sids ==> KernelAt(kernels, n) == KernelAt(a.kernels, n)
      {
        RebuiltAt(v, a, Now(), k1, k2, n);
      }
      if initFlag {
        Forgotten(v, start);
      }
    }

    /** _update_sr_route_for_source: every line is sent again, but only routes to ground stations are wanted. */
    method UpdateRouteForSource(v: View, src: nat)
      requires WellFormed(v) && Knows(v)
      modifies this`srLfib, this`kernels, this`prevStation
      ensures Stepped(v, old(Now()), Now(), Resend(v, src))
    {
      hide WellFormed, StationRoutes, Exec, NodeNext;
      InLists(v, src);
      ghost var a := Now();
      if src in v.stations {
        var commands := SourceCommands(v, src);
        Execute(src, commands);
        prevStation := prevStation[src := commands];
        ResentStep(v, a, Now(), src);
      } else {
        NothingResent(v, a, src);
      }
    }

    method SourceCommands(v: View, src: nat) returns (commands: seq<Line>)
      requires WellFormed(v) && Knows(v) && src in v.stations && src in v.nodes && src in v.sids
      modifies this`srLfib
      ensures commands == StationRoutes(v, src) && srLfib == old(srLfib)[src := commands[1..]]
    {
      hide WellFormed, RouteLines;
      StationsOnce(v);
      var entries := RouteEntries(Looked(v, src), manager, src, v.stations);
      srLfib := srLfib[src := entries];
      commands := [OwnLine(v, src)] + entries;
      assert commands[1..] == entries;
    }

    /** set_sr_custom_path: an uninitialized daemon, a path that does not join the pair and one that names an
        unknown node are refused; whether its nodes are linked is not looked at. A running topology gets the new
        route at once. */
    method SetSrCustomPath(v: View, src: nat, dst: nat, path: seq<nat>, running: bool)
      returns (error: Option<Error>, v': View)
      requires WellFormed(v) && (manager != null ==> Knows(v))
      modifies this, manager
      ensures manager == old(manager) && WellFormed(v') && (manager != null ==> Knows(v'))
      ensures error == if manager == null then Some(RuntimeError)
                       else if && |path| >= 2 && path[0] == src && path[|path| - 1] == dst
                               && forall n | n in path :: n in v.nodes
                            then None else Some(ValueError)
      ensures v' == if error.None? then v.(custom := v.custom[(src, dst) := path]) else v
      ensures if error.None? && running then Stepped(v', old(Now()), Now(), Resend(v', src)) else Now() == old(Now())
    {
      hide WellFormed, Stepped;
      v' := v;
      if manager == null {
        return Some(RuntimeError), v';
      }
      if |path| < 2 || path[0] != src || path[|path| - 1] != dst {
        return Some(ValueError), v';
      }
      for i := 0 to |path|
        modifies {}
        invariant forall j | 0 <= j < i :: path[j] in v.nodes
      {
        if path[i] !in v.nodes {
          assert path[i] in path;
          return Some(ValueError), v';
        }
      }
      error := manager.SetCustomPath(src, dst, path);
      v' := v.(custom := v.custom[(src, dst) := path]);
      SameNodes(v, v');
      if running {
        UpdateRouteForSource(v', src);
      }
    }

    /** clear_sr_custom_path. */
    method ClearSrCustomPath(v: View, src: nat, dst: nat, running: bool) returns (removed: Result<bool>, v': View)
      requires WellFormed(v) && (manager != null ==> Knows(v))
      modifies this, manager
      ensures manager == old(manager) && WellFormed(v') && (manager != null ==> Knows(v'))
      ensures removed == if manager == null then Err(RuntimeError) else Ok((src, dst) in v.custom)
      ensures v' == v.(custom := v.custom - if manager == null then {} else {(src, dst)})
      ensures if removed == Ok(true) && running then Stepped(v', old(Now()), Now(), Resend(v', src))
              else Now() == old(Now())
    {
      hide WellFormed, Stepped;
      v' := v;
      if manager == null {
        return Err(RuntimeError), v';
      }
      var found := manager.ClearCustomPath(src, dst);
      v' := v.(custom := v.custom - {(src, dst)});
      SameNodes(v, v');
      if found && running {
        UpdateRouteForSource(v', src);
      }
      return Ok(found), v';
    }

    /** remove: the label routes of one node, or of all, are flushed, and the daemon forgets everything. The
        address routes stay. */
    method Remove(nodes: seq<nat>)
      modifies this
      ensures manager == null && srLfib == map[]
      ensures forall v, n :: MemoryAt(v, Now(), n) == NodeNext(MemoryAt(v, old(Now()), n), n, SrRuns.Remove(nodes))
      ensures forall n, key :: key in KernelAt(kernels, n) <==>
                key in KernelAt(old(kernels), n) && !(n in nodes && key.ForLabel?)
      ensures forall n, key | key in KernelAt(kernels, n) ::
                key in KernelAt(old(kernels), n) && KernelAt(kernels, n)[key] == KernelAt(old(kernels), n)[key]
    {
      for i := 0 to |nodes|
        invariant forall n :: KernelAt(kernels, n)
                              == if n in nodes[..i] then WithoutLabels(KernelAt(old(kernels), n))
                                 else KernelAt(old(kernels), n)
      {
        assert nodes[..i + 1] == nodes[..i] + [nodes[i]];
        FlushTwice(KernelAt(old(kernels), nodes[i]));
        kernels := kernels[nodes[i] := WithoutLabels(KernelAt(kernels, nodes[i]))];
      }
      assert nodes[..|nodes|] == nodes;
      manager, srLfib, prevForward, prevStation, prevSatellite := null, map[], map[], map[], map[];
    }
  }

  // ---- Runs of the daemon ----

  /** The devices towards some peers went, on every node. */
  function Purged(a: Net, lost: map<nat, set<nat>>): Net {
    a.(kernels := map n | n in a.kernels :: Purge(a.kernels[n], LostAt(lost, n)))
  }

  /** The kernels lose what the event loses, then the daemon takes its step. */
  ghost predicate Happens(a: Net, b: Net, e: NetEvent)
    requires Proper(e)
  {
    match e
    case Update(v, lost) => Stepped(v, Purged(a, lost), b, Update(v, map[]))
    case Init(v, lost) => Stepped(v, Purged(a, lost), b, Init(v, map[]))
    case Resend(v, _) => Stepped(v, a, b, e)
    case Remove(_) => forall v, n :: MemoryAt(v, b, n) == NodeNext(MemoryAt(v, a, n), n, e)
  }

  lemma HappensAt(a: Net, b: Net, e: NetEvent, v: View, n: nat)
    requires Proper(e) && Happens(a, b, e)
    requires !e.Remove? ==> n in e.view.sids && (n in e.view.stations <==> n in v.stations)
    ensures MemoryAt(v, b, n) == NodeNext(MemoryAt(v, a, n), n, e)
  {
    if e.Update? || e.Init? {
      var s, s' := MemoryAt(v, a, n), MemoryAt(v, Purged(a, e.lost), n);
      assert s' == s.(kernel := Purge(s.kernel, LostAt(e.lost, n)));
      hide WellFormed, WantForward, WantRoutes, Rebuild;
      PurgeNone(Purge(s.kernel, LostAt(e.lost, n)));
      RebuildAfterPurge(s, LostAt(e.lost, n), WantForward(e.view, n), WantRoutes(e.view, n));
      RebuildAfterPurge(Memory(s.kernel, [], []), LostAt(e.lost, n), WantForward(e.view, n), WantRoutes(e.view, n));
    }
  }

  lemma RebuildAfterPurge(s: Memory, lost: set<nat>, wantForward: seq<Line>, wantRoutes: Option<seq<Line>>)
    ensures SrWriters.Rebuild(s.(kernel := Purge(s.kernel, lost)), {}, wantForward, wantRoutes)
            == SrWriters.Rebuild(s, lost, wantForward, wantRoutes)
  {
    PurgeNone(Purge(s.kernel, lost));
  }

  lemma HappenedAt(nets: seq<Net>, events: seq<NetEvent>, i: nat)
    requires |nets| == |events| + 1 && AllProper(events) && i < |events|
    requires forall i | 0 <= i < |events| :: Happens(nets[i], nets[i + 1], events[i])
    ensures Proper(events[i]) && Happens(nets[i], nets[i + 1], events[i])
  {
  }

  /** Whatever the daemon goes through, every node goes through the run of module SrRuns. */
  lemma {:induction false} DaemonRun(nets: seq<Net>, events: seq<NetEvent>, v: View, n: nat)
    requires |nets| == |events| + 1 && AllProper(events)
    requires forall i | 0 <= i < |events| :: Happens(nets[i], nets[i + 1], events[i])
    requires forall i | 0 <= i < |events| :: !events[i].Remove? ==>
               n in events[i].view.sids && (n in events[i].view.stations <==> n in v.stations)
    ensures MemoryAt(v, nets[|events|], n) == NodeRun(MemoryAt(v, nets[0], n), n, events)
  {
    if events != [] {
      var k := |events| - 1;
      hide Happens, MemoryAt, NodeNext, Proper;
      var before := nets[..k + 1];
      forall i | 0 <= i < k ensures Happens(before[i], before[i + 1], events[..k][i]) {
        HappenedAt(nets, events, i);
      }
      DaemonRun(before, events[..k], v, n);
      HappenedAt(nets, events, k);
      HappensAt(nets[k], nets[k + 1], events[k], v, n);
    }
  }
}

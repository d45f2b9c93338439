/** Where the packets of the segment routing daemon go: their label stack, and what the address says where the
    stack ends (satgonetem/routing/srmpls_daemon.py:200-231, 686-737, 900-909, 990-1041). */
module SrJourneys {
  import opened Wrappers
  import opened RoutingEntries
  import StaticDaemon
  import opened SegmentRouting
  import opened LabelForwarding
  import opened SrRoutes
  import opened SrInstall
  import opened SrWriters
  import opened SrDelivery
  import opened SrPaths

  // ---- The address of a destination in the kernel of a node ----

  function AddressOf(v: View, dst: nat): Key
    requires dst in v.nodes
  {
    ForAddress(v.nodes[dst].loopback)
  }

  /** The route of the node itself if it has one, else on a satellite the link to a ground station. */
  function AddressAction(v: View, n: nat, dst: nat): Option<Action>
    requires WellFormed(v) && dst in v.nodes
  {
    EndsAreNodes(v);
    if n in Ends(v) && dst in Ends(v) && RouteLine(v, PortsOf(v, n), n, dst).Some? then
      Some(RouteLine(v, PortsOf(v, n), n, dst).value.action)
    else if n in v.satellites && dst in v.stations && dst in PortsOf(v, n) then
      Some(Via(dst, PortsOf(v, n)[dst].peerIp, []))
    else None
  }

  lemma RouteOfAddress(v: View, n: nat, dst: nat, line: Line)
    requires WellFormed(v) && n in v.nodes && n in v.sids && dst in v.nodes && line.key == AddressOf(v, dst)
    ensures line in SourceLines(v, n) <==> dst in Ends(v) && RouteLine(v, PortsOf(v, n), n, dst) == Some(line)
  {
    EndsAreNodes(v);
    RouteMembers(v, PortsOf(v, n), n, Ends(v), line);
  }

  lemma ForwardOfAddress(v: View, n: nat, dst: nat, line: Line)
    requires WellFormed(v) && n in v.satellites && dst in v.nodes && line.key == AddressOf(v, dst)
    ensures line in ForwardLines(v, n)
            <==> dst in v.stations && dst in PortsOf(v, n) && line.action == Via(dst, PortsOf(v, n)[dst].peerIp, [])
  {
    var ports := PortsOf(v, n);
    StationsOnce(v);
    StationMembers(v, v.stations, ports, line);
    NeighbourMembers(v, v.nodes[n].ifaces, line);
    assert line in ForwardLines(v, n) <==> line in StationLines(v, v.stations, ports);
    if dst in v.stations && dst in ports && line.action == Via(dst, ports[dst].peerIp, []) {
      assert line == Line(ForAddress(v.nodes[dst].loopback), Via(dst, ports[dst].peerIp, []));
    }
  }

  /** Whether the routes of a node speak of an address. */
  lemma RoutesMention(v: View, n: nat, dst: nat)
    requires WellFormed(v) && n in v.nodes && n in v.sids && dst in v.nodes
    ensures Mentions(SourceLines(v, n), AddressOf(v, dst))
            <==> dst in Ends(v) && RouteLine(v, PortsOf(v, n), n, dst).Some?
  {
    hide WellFormed, SourceLines, RouteLine;
    var key := AddressOf(v, dst);
    if Mentions(SourceLines(v, n), key) {
      var i :| 0 <= i < |SourceLines(v, n)| && SourceLines(v, n)[i].key == key;
      RouteOfAddress(v, n, dst, SourceLines(v, n)[i]);
    }
    if dst in Ends(v) && RouteLine(v, PortsOf(v, n), n, dst).Some? {
      var line := RouteLine(v, PortsOf(v, n), n, dst).value;
      RouteKey(v, n, dst);
      RouteOfAddress(v, n, dst, line);
      IsMentioned(SourceLines(v, n), line);
    }
  }

  lemma RouteKey(v: View, n: nat, dst: nat)
    requires n in v.nodes && dst in v.nodes && RouteLine(v, PortsOf(v, n), n, dst).Some?
    ensures RouteLine(v, PortsOf(v, n), n, dst).value.key == AddressOf(v, dst)
  {
  }

  /** What the writers want for an address, of the two lists and which of them has the last word. */
  lemma AddressWanted(v: View, n: nat, dst: nat, action: Action)
    requires WellFormed(v) && n in v.sids && dst in v.nodes
    ensures var routes, line := WantRoutes(v, n), Line(AddressOf(v, dst), action);
            AddressAction(v, n, dst) == Some(action)
            <==> if routes.Some? && Mentions(routes.value, line.key) then line in routes.value
                 else line in WantForward(v, n)
  {
    EndsAreNodes(v);
    var line := Line(AddressOf(v, dst), action);
    InNodes(v, n);
    hide WellFormed, SourceLines, ForwardLines, RouteLine, Mentions, Ends;
    RouteOfAddress(v, n, dst, line);
    RoutesMention(v, n, dst);
    if dst in Ends(v) && RouteLine(v, PortsOf(v, n), n, dst).Some? {
      RouteKey(v, n, dst);
    }
    if n in v.satellites {
      ForwardOfAddress(v, n, dst, line);
    }
  }

  lemma InNodes(v: View, n: nat)
    requires WellFormed(v) && n in v.sids
    ensures n in v.nodes
  {
    assert n in v.stations + v.satellites;
  }

  /** Every node has for the address what its writers want. */
  ghost predicate AddressStands(v: View, net: map<nat, Kernel>, dst: nat)
    requires WellFormed(v) && dst in v.nodes
  {
    forall n | n in v.sids && AddressAction(v, n, dst).Some? ::
      n in net && Has(net[n], Line(AddressOf(v, dst), AddressAction(v, n, dst).value))
  }

  /** And has nothing for it if they want nothing. */
  ghost predicate NoOtherAddress(v: View, net: map<nat, Kernel>, dst: nat)
    requires WellFormed(v) && dst in v.nodes
  {
    forall n | n in net && AddressOf(v, dst) in net[n] :: n in v.sids && AddressAction(v, n, dst).Some?
  }

  lemma ServedAddress(v: View, net: map<nat, Kernel>, dst: nat)
    requires WellFormed(v) && dst in v.nodes && AllServed(v, net)
    ensures AddressStands(v, net, dst)
  {
    hide WellFormed, WantForward, WantRoutes, AddressAction, Mentions;
    forall n | n in v.sids && AddressAction(v, n, dst).Some?
      ensures Has(net[n], Line(AddressOf(v, dst), AddressAction(v, n, dst).value))
    {
      AddressWanted(v, n, dst, AddressAction(v, n, dst).value);
      assert Served(v, n, net[n]);
    }
  }

  lemma FirstAddress(v: View, dst: nat)
    requires WellFormed(v) && dst in v.nodes
    ensures AddressStands(v, FirstNet(v), dst) && NoOtherAddress(v, FirstNet(v), dst)
  {
    hide WellFormed, WantForward, WantRoutes, AddressAction, Mentions, FirstKernel;
    var key := AddressOf(v, dst);
    forall n, action | n in v.sids
      ensures Has(FirstKernel(v, n), Line(key, action)) <==> AddressAction(v, n, dst) == Some(action)
    {
      FirstHas(v, n, Line(key, action));
      AddressWanted(v, n, dst, action);
    }
    forall n | n in v.sids && key in FirstKernel(v, n) ensures AddressAction(v, n, dst).Some? {
      assert Has(FirstKernel(v, n), Line(key, FirstKernel(v, n)[key]));
    }
  }

  // ---- Where the labels end ----

  /** The path of a pair is the link between them. */
  predicate Direct(v: View, n: nat, dst: nat) {
    PathOf(v, n, dst) == Some([n, dst]) || (v.usePhp && PathOf(v, n, dst) == Some([n, dst, dst]))
  }

  /** A packet for dst that is looked up at n goes straight to dst: n has a route of its own and its path is the
      link, or n has none and is a satellite with a link to the ground station. */
  predicate HandsOver(v: View, n: nat, dst: nat)
    requires WellFormed(v) && dst in v.nodes
  {
    EndsAreNodes(v);
    if n in Ends(v) && RouteLine(v, PortsOf(v, n), n, dst).Some? then Direct(v, n, dst)
    else n in v.satellites && dst in v.stations && dst in PortsOf(v, n)
  }

  lemma DirectExact(v: View, n: nat, dst: nat)
    requires WellFormed(v) && PathsJoin(v) && n in v.nodes && dst in v.nodes
    requires RouteLine(v, PortsOf(v, n), n, dst).Some?
    ensures var hop := RouteLine(v, PortsOf(v, n), n, dst).value.action;
            && hop.Via? && hop.peer in PortsOf(v, n) && hop.nextHop == PortsOf(v, n)[hop.peer].peerIp
            && (Direct(v, n, dst) <==> hop.peer == dst && hop.push == [])
  {
    var path := RouteShape(v, n, dst);
    assert Joins(path, n, dst);
    hide WellFormed, PathsJoin, RouteLine;
    if path[1] == dst && Pushed(v, path) == [] {
      if |path| == 2 {
        assert path == [n, dst];
      } else {
        assert v.usePhp && |path| == 3 && path == [n, dst, dst];
      }
    }
  }

  // ---- The two writers of an addressable satellite ----

  /** The forwarding line of a linked ground station and the satellite's own route to it are one line exactly
      when there is no such route or its path is the link. */
  lemma AgreeAt(v: View, n: nat, gs: nat, f: Line, r: Line)
    requires WellFormed(v) && PathsJoin(v) && n in v.satellites && n in v.nodes && n in v.sids && gs in v.nodes
    requires f in ForwardLines(v, n) && r in SourceLines(v, n) && f.key == r.key == AddressOf(v, gs)
    ensures gs in v.stations && gs in PortsOf(v, n) && RouteLine(v, PortsOf(v, n), n, gs) == Some(r)
    ensures f == r <==> Direct(v, n, gs)
  {
    hide WellFormed, PathsJoin, ForwardLines, SourceLines, RouteLine, Direct;
    ForwardOfAddress(v, n, gs, f);
    RouteOfAddress(v, n, gs, r);
    DirectExact(v, n, gs);
  }

  /** They want the same wherever they speak of the same key exactly when every linked ground station is reached
      over its link, or by no route of the satellite's own. */
  lemma AgreeExact(v: View, n: nat)
    requires WellFormed(v) && PathsJoin(v) && n in v.satellites && n in v.nodes && n in v.sids
    ensures forall gs | gs in v.stations :: gs in v.nodes
    ensures Agree(ForwardLines(v, n), SourceLines(v, n))
            <==> forall gs | gs in v.stations && gs in PortsOf(v, n) ::
                   RouteLine(v, PortsOf(v, n), n, gs).None? || Direct(v, n, gs)
  {
    StationsOnce(v);
    AgreeIn(ForwardLines(v, n), SourceLines(v, n));
    hide WellFormed, PathsJoin, RouteLine, Direct, ForwardLines, SourceLines;
    if Agree(ForwardLines(v, n), SourceLines(v, n)) {
      forall gs | gs in v.stations && gs in PortsOf(v, n) && RouteLine(v, PortsOf(v, n), n, gs).Some?
        ensures Direct(v, n, gs)
      {
        var f := Line(AddressOf(v, gs), Via(gs, PortsOf(v, n)[gs].peerIp, []));
        var r := RouteLine(v, PortsOf(v, n), n, gs).value;
        RouteKey(v, n, gs);
        ForwardOfAddress(v, n, gs, f);
        StationIsEnd(v, gs);
        RouteOfAddress(v, n, gs, r);
        AgreeAt(v, n, gs, f, r);
      }
    }
    forall f, r | f in ForwardLines(v, n) && r in SourceLines(v, n) && f.key == r.key && f != r
      ensures exists gs :: gs in v.stations && gs in PortsOf(v, n)
                           && RouteLine(v, PortsOf(v, n), n, gs).Some? && !Direct(v, n, gs)
    {
      var gs := DisagreeAt(v, n, f, r);
      AgreeAt(v, n, gs, f, r);
    }
  }

  lemma StationIsEnd(v: View, gs: nat)
    requires WellFormed(v) && gs in v.stations
    ensures gs in Ends(v)
  {
  }

  /** Lines of the two writers that differ are for the address of some node. */
  lemma DisagreeAt(v: View, n: nat, f: Line, r: Line) returns (dst: nat)
    requires WellFormed(v) && n in v.satellites && n in v.nodes && n in v.sids
    requires f in ForwardLines(v, n) && r in SourceLines(v, n) && f.key == r.key && f != r
    ensures dst in v.nodes && f.key == AddressOf(v, dst)
  {
    ForwardDistinct(v, n);
    if r.key.ForLabel? {
      OnlyOwnLabel(v, n, r);
      assert ForwardLines(v, n)[0] == r;
      SameKeySameLine(ForwardLines(v, n), f, r);
    }
    EndsAreNodes(v);
    RouteMembers(v, PortsOf(v, n), n, Ends(v), r);
    assert r != OwnLine(v, n);
    dst :| dst in Ends(v) && RouteLine(v, PortsOf(v, n), n, dst) == Some(r);
    RouteKey(v, n, dst);
  }

  /** In the kernel of an addressable satellite that has what is wanted, the forwarding lines are all there
      exactly when no route of its own leads a packet for a linked ground station elsewhere. */
  lemma BothWriters(v: View, n: nat, kernel: Kernel)
    requires WellFormed(v) && PathsJoin(v) && n in v.satellites && n in v.nodes && n in v.sids && n in Ends(v)
    requires Served(v, n, kernel)
    ensures Holds(kernel, SourceLines(v, n))
    ensures forall gs | gs in v.stations :: gs in v.nodes
    ensures Holds(kernel, ForwardLines(v, n))
            <==> forall gs | gs in v.stations && gs in PortsOf(v, n) ::
                   RouteLine(v, PortsOf(v, n), n, gs).None? || Direct(v, n, gs)
  {
    AgreeExact(v, n);
    GotBoth(kernel, ForwardLines(v, n), SourceLines(v, n));
  }

  // ---- Where packets go ----

  lemma HandsOverExact(v: View, n: nat, dst: nat)
    requires WellFormed(v) && PathsJoin(v) && dst in Ends(v) && dst in v.nodes
    ensures AddressAction(v, n, dst).Some? ==> AddressAction(v, n, dst).value.Via?
    ensures HandsOver(v, n, dst)
            <==> AddressAction(v, n, dst).Some?
                 && AddressAction(v, n, dst).value.peer == dst && AddressAction(v, n, dst).value.push == []
  {
    EndsAreNodes(v);
    if n in Ends(v) && RouteLine(v, PortsOf(v, n), n, dst).Some? {
      DirectExact(v, n, dst);
    }
  }

  lemma LegDirect(net: map<nat, Kernel>, at: nat, address: string, dst: nat)
    ensures Leg(net, at, address) == Journey([dst], true)
            <==> at in net && ForAddress(address) in net[at] && net[at][ForAddress(address)].Via?
                 && net[at][ForAddress(address)].peer == dst && net[at][ForAddress(address)].push == []
  {
    if at in net && ForAddress(address) in net[at] && net[at][ForAddress(address)] != Local {
      var hop := net[at][ForAddress(address)];
      LabelledEmpty(net, hop.peer, hop.push);
      var rest := Labelled(net, hop.peer, hop.push);
      if Leg(net, at, address) == Journey([dst], true) {
        assert [hop.peer] + rest.visited == [dst] && rest.visited == [];
        assert ([hop.peer] + rest.visited)[0] == dst;
        assert rest == Journey([], true);
      }
    } else {
      assert Leg(net, at, address) == Journey([], false);
    }
  }

  lemma LabelledEmpty(net: map<nat, Kernel>, at: nat, stack: seq<nat>)
    ensures Labelled(net, at, stack) == Journey([], true) <==> stack == []
  {
  }

  /** A packet whose labels end at mid, with a lookup left. */
  lemma SecondLeg(net: map<nat, Kernel>, mid: nat, address: string, dst: nat, lookups: nat)
    requires lookups >= 1
    ensures Travel(net, mid, address, dst, lookups) == Journey([dst], true)
            <==> mid != dst && Leg(net, mid, address) == Journey([dst], true)
  {
    var leg := Leg(net, mid, address);
    if mid != dst && leg.arrived {
      assert |leg.visited| >= 1;
      var rest := Travel(net, LastOf(mid, leg.visited), address, dst, lookups - 1);
      if leg.visited + rest.visited == [dst] {
        assert leg.visited == [dst];
      }
    }
  }

  /** The last node a packet's labels bring it to, and whether it gets to the destination from there. */
  ghost predicate HandsOverIn(v: View, net: map<nat, Kernel>, mid: nat, dst: nat)
    requires dst in v.nodes
  {
    mid != dst && Leg(net, mid, v.nodes[dst].loopback) == Journey([dst], true)
  }

  lemma HandedOver(v: View, net: map<nat, Kernel>, mid: nat, dst: nat)
    requires WellFormed(v) && PathsJoin(v) && dst in Ends(v) && dst in v.nodes && AddressStands(v, net, dst)
    ensures HandsOver(v, mid, dst) && mid != dst ==> HandsOverIn(v, net, mid, dst)
    ensures NoOtherAddress(v, net, dst) && HandsOverIn(v, net, mid, dst) ==> HandsOver(v, mid, dst) && mid != dst
  {
    HandsOverExact(v, mid, dst);
    LegDirect(net, mid, v.nodes[dst].loopback, dst);
    ActedOn(v, mid, dst);
    hide WellFormed, PathsJoin, HandsOver, AddressAction, Leg;
    if AddressAction(v, mid, dst).Some? {
      assert Has(net[mid], Line(AddressOf(v, dst), AddressAction(v, mid, dst).value));
    }
  }

  lemma ActedOn(v: View, n: nat, dst: nat)
    requires WellFormed(v) && dst in v.nodes
    ensures AddressAction(v, n, dst).Some? ==> n in v.sids
  {
    EndsAreNodes(v);
  }

  // ---- Journeys ----

  /** What a path needs for its packets to be carried along it: the labels can be followed, and under
      penultimate hop popping the node before the last hands the packet over. */
  predicate Carried(v: View, path: seq<nat>, dst: nat)
    requires WellFormed(v) && dst in v.nodes && |path| >= 2
  {
    && Followable(SatellitePeers(v), path[1], Pushed(v, path))
    && (v.usePhp && |path| >= 3 ==> path[|path| - 2] != dst && HandsOver(v, path[|path| - 2], dst))
  }

  lemma TwoLegs(v: View, net: map<nat, Kernel>, src: nat, dst: nat, path: seq<nat>, lookups: nat)
    requires v.usePhp && |path| >= 3 && src != dst && path[|path| - 1] == dst && dst in v.nodes && lookups >= 2
    requires Leg(net, src, v.nodes[dst].loopback) == Journey([path[1]] + Pushed(v, path), true)
    ensures Travel(net, src, v.nodes[dst].loopback, dst, lookups) == Journey(path[1..], true)
            <==> HandsOverIn(v, net, path[|path| - 2], dst)
  {
    PhpPieces(v, path);
    var visited, address, mid := [path[1]] + Pushed(v, path), v.nodes[dst].loopback, path[|path| - 2];
    hide Pushed, Leg;
    assert LastOf(src, visited) == mid;
    SecondLeg(net, mid, address, dst, lookups - 1);
    var rest := Travel(net, mid, address, dst, lookups - 1);
    assert Travel(net, src, address, dst, lookups) == Journey(visited + rest.visited, rest.arrived);
    assert path[1..] == visited + [dst];
    assert visited + rest.visited == visited + [dst] ==> rest.visited == [dst] by {
      if visited + rest.visited == visited + [dst] {
        assert (visited + rest.visited)[|visited|..] == rest.visited;
        assert (visited + [dst])[|visited|..] == [dst];
      }
    }
  }

  lemma RouteStood(v: View, net: map<nat, Kernel>, src: nat, dst: nat)
    requires WellFormed(v) && PathsJoin(v) && src in Ends(v) && dst in Ends(v) && src in v.nodes && dst in v.nodes
    requires AddressStands(v, net, dst) && RouteLine(v, PortsOf(v, src), src, dst).Some?
    ensures Routed(v, net, src, dst)
  {
    EndsAreNodes(v);
    RouteKey(v, src, dst);
    assert AddressAction(v, src, dst) == Some(RouteLine(v, PortsOf(v, src), src, dst).value.action);
  }

  /** Packets are carried along their path, revisited nodes included, if the labels and the handover allow it;
      where the kernels hold nothing but what is wanted, only then. */
  lemma JourneyExact(v: View, net: map<nat, Kernel>, src: nat, dst: nat, lookups: nat)
    requires WellFormed(v) && PathsJoin(v) && src in Ends(v) && dst in Ends(v) && src in v.nodes && dst in v.nodes
    requires Ready(v, net) && AddressStands(v, net, dst) && RouteLine(v, PortsOf(v, src), src, dst).Some?
    requires lookups >= if v.usePhp then 2 else 1
    ensures PathOf(v, src, dst).Some? && |PathOf(v, src, dst).value| >= 2
    ensures var path, j := PathOf(v, src, dst).value, Travel(net, src, v.nodes[dst].loopback, dst, lookups);
            && (Carried(v, path, dst) ==> j == Journey(path[1..], true))
            && (NoOtherLabels(net, v.sids, SatellitePeers(v)) && NoOtherAddress(v, net, dst) ==>
                  (j == Journey(path[1..], true) ==> Carried(v, path, dst)))
  {
    hide WellFormed, RouteLine, PathsJoin, PathOf, SatellitePeers, Followable, HandsOver, NoOtherLabels, Ready, Routed,
        Leg, AddressStands, NoOtherAddress, HandsOverIn;
    RouteStood(v, net, src, dst);
    var path := FirstLeg(v, net, src, dst);
    var pushed := Pushed(v, path);
    if Followable(SatellitePeers(v), path[1], pushed) {
      if v.usePhp && |path| >= 3 {
        HandedOver(v, net, path[|path| - 2], dst);
        hide Pushed;
        TwoLegs(v, net, src, dst, path, lookups);
      } else {
        OneLeg(v, path);
      }
    }
  }

  lemma OneLeg(v: View, path: seq<nat>)
    requires |path| >= 2 && (v.usePhp ==> |path| == 2)
    ensures [path[1]] + Pushed(v, path) == path[1..]
    ensures forall at :: LastOf(at, path[1..]) == path[|path| - 1]
  {
  }

  /** After a first build: exactly when a packet is carried along its path, for every pair that has one it can be sent
      on. An init has dropped stored paths before it builds; module SrStored has the runs in which paths are stored
      after it. */
  lemma FirstBuildDelivers(v: View, src: nat, dst: nat, path: seq<nat>, lookups: nat)
    requires WellFormed(v) && PathsJoin(v) && src in Ends(v) && dst in Ends(v) && dst in v.nodes
    requires Sends(v, src, dst, path) && lookups >= if v.usePhp then 2 else 1
    ensures |path| >= 2
    ensures Travel(FirstNet(v), src, v.nodes[dst].loopback, dst, lookups) == Journey(path[1..], true)
            <==> Carried(v, path, dst)
  {
    hide *;
    SendsRoute(v, src, dst, path);
    FirstNetReady(v);
    ServedReady(v, FirstNet(v));
    FirstAddress(v, dst);
    JourneyExact(v, FirstNet(v), src, dst, lookups);
  }

  /** Where a node has no path to send on, and is no satellite with a link to that ground station, its packets go
      nowhere. */
  lemma FirstBuildLoses(v: View, src: nat, dst: nat, lookups: nat)
    requires WellFormed(v) && src in v.nodes && dst in v.nodes && src != dst && lookups >= 1
    requires forall path :: !Sends(v, src, dst, path)
    requires !(src in v.satellites && dst in v.stations && dst in PortsOf(v, src))
    ensures Travel(FirstNet(v), src, v.nodes[dst].loopback, dst, lookups) == Journey([], false)
  {
    NothingWanted(v, src, dst);
    hide WellFormed, AddressAction, FirstNet;
    FirstAddress(v, dst);
    assert src in FirstNet(v) ==> AddressOf(v, dst) !in FirstNet(v)[src];
  }

  lemma NothingWanted(v: View, src: nat, dst: nat)
    requires WellFormed(v) && src in v.nodes && dst in v.nodes
    requires forall path :: !Sends(v, src, dst, path)
    requires !(src in v.satellites && dst in v.stations && dst in PortsOf(v, src))
    ensures AddressAction(v, src, dst).None?
  {
    EndsAreNodes(v);
    assert PortsOk(src, v.nodes[src].ifaces);
    RouteExact(v, src, dst);
    hide WellFormed, RouteLine, Sends, Ends;
  }

  /** In every network whose nodes have what they want. */
  lemma ServedDelivers(v: View, net: map<nat, Kernel>, src: nat, dst: nat, path: seq<nat>, lookups: nat)
    requires WellFormed(v) && PathsJoin(v) && AllServed(v, net)
    requires src in Ends(v) && dst in Ends(v) && dst in v.nodes
    requires Sends(v, src, dst, path) && lookups >= if v.usePhp then 2 else 1
    ensures |path| >= 2
    ensures Carried(v, path, dst) ==>
              Travel(net, src, v.nodes[dst].loopback, dst, lookups) == Journey(path[1..], true)
  {
    hide *;
    SendsRoute(v, src, dst, path);
    ServedReady(v, net);
    ServedAddress(v, net, dst);
    JourneyExact(v, net, src, dst, lookups);
  }
}

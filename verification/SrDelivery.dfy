/** From the lines the daemon wants to packets that follow their paths
    (satgonetem/routing/srmpls_daemon.py:200-231, 713-737, 851-909). */
module SrDelivery {
  import opened Wrappers
  import opened RoutingEntries
  import StaticDaemon
  import opened SegmentRouting
  import opened LabelForwarding
  import opened SrRoutes
  import opened SrInstall
  import opened SrWriters

  // ---- Each list wants a key once ----

  lemma AppendDistinct(a: seq<Line>, b: seq<Line>)
    requires DistinctKeys(a) && DistinctKeys(b)
    requires forall x, y | x in a && y in b :: x.key != y.key
    ensures DistinctKeys(a + b)
  {
    forall i, j | 0 <= i < j < |a + b| ensures (a + b)[i].key != (a + b)[j].key {
      if i < |a| <= j {
        assert a[i] in a && b[j - |a|] in b;
      }
    }
  }

  lemma {:induction false} NeighbourDistinct(v: View, n: nat, ifaces: seq<Interface>)
    requires Injective(v.sids) && PortsOk(n, ifaces)
    ensures DistinctKeys(NeighbourLines(v, ifaces))
  {
    if ifaces != [] {
      var k := |ifaces| - 1;
      NeighbourDistinct(v, n, ifaces[..k]);
      if ifaces[k].peer in v.sids && UsableIp(ifaces[k].peerIp) {
        forall x | x in NeighbourLines(v, ifaces[..k]) ensures x.key != ForLabel(v.sids[ifaces[k].peer]) {
          NeighbourMembers(v, ifaces[..k], x);
        }
        AppendDistinct(NeighbourLines(v, ifaces[..k]),
                       [Line(ForLabel(v.sids[ifaces[k].peer]), Via(ifaces[k].peer, ifaces[k].peerIp, []))]);
      }
    }
  }

  lemma {:induction false} StationDistinct(v: View, stations: seq<nat>, ports: Ports)
    requires NoRepeats(stations) && forall n | n in stations :: n in v.nodes
    requires forall m, n | m in v.nodes && n in v.nodes && m != n :: v.nodes[m].loopback != v.nodes[n].loopback
    ensures DistinctKeys(StationLines(v, stations, ports))
  {
    if stations != [] {
      var k := |stations| - 1;
      var gs := stations[k];
      assert forall n | n in stations[..k] :: n in stations;
      StationDistinct(v, stations[..k], ports);
      forall x | x in StationLines(v, stations[..k], ports) ensures x.key != ForAddress(v.nodes[gs].loopback) {
        StationMembers(v, stations[..k], ports, x);
      }
      if gs in ports && v.nodes[gs].loopback != "" {
        AppendDistinct(StationLines(v, stations[..k], ports),
                       [Line(ForAddress(v.nodes[gs].loopback), Via(gs, ports[gs].peerIp, []))]);
      }
    }
  }

  lemma {:induction false} RouteDistinct(v: View, ports: Ports, src: nat, dsts: seq<nat>)
    requires NoRepeats(dsts) && forall n | n in dsts :: n in v.nodes
    requires forall m, n | m in v.nodes && n in v.nodes && m != n :: v.nodes[m].loopback != v.nodes[n].loopback
    ensures DistinctKeys(RouteLines(v, ports, src, dsts))
  {
    if dsts != [] {
      var k := |dsts| - 1;
      assert forall n | n in dsts[..k] :: n in dsts;
      RouteDistinct(v, ports, src, dsts[..k]);
      forall x | x in RouteLines(v, ports, src, dsts[..k]) ensures x.key != ForAddress(v.nodes[dsts[k]].loopback) {
        RouteMembers(v, ports, src, dsts[..k], x);
      }
      var last := RouteLine(v, ports, src, dsts[k]);
      if last.Some? {
        AppendDistinct(RouteLines(v, ports, src, dsts[..k]), [last.value]);
      }
    }
  }

  lemma ForwardDistinct(v: View, n: nat)
    requires WellFormed(v) && n in v.satellites
    ensures DistinctKeys(ForwardLines(v, n))
  {
    var ifaces := v.nodes[n].ifaces;
    var a, b := [OwnLine(v, n)], NeighbourLines(v, ifaces);
    var c := StationLines(v, v.stations, StaticDaemon.PeerMap(ifaces));
    StationsOnce(v);
    NeighbourDistinct(v, n, ifaces);
    StationDistinct(v, v.stations, StaticDaemon.PeerMap(ifaces));
    forall x | x in b ensures x.key.ForLabel? && x.key != ForLabel(v.sids[n]) {
      NeighbourMembers(v, ifaces, x);
    }
    forall x | x in c ensures x.key.ForAddress? {
      StationMembers(v, v.stations, StaticDaemon.PeerMap(ifaces), x);
    }
    AppendDistinct(a, b);
    AppendDistinct(a + b, c);
  }

  lemma StationsOnce(v: View)
    requires WellFormed(v)
    ensures NoRepeats(v.stations) && forall n | n in v.stations :: n in v.nodes
  {
    var all := v.stations + v.satellites;
    assert forall i | 0 <= i < |v.stations| :: v.stations[i] == all[i];
  }

  lemma SourceDistinct(v: View, n: nat)
    requires WellFormed(v) && n in v.nodes && n in v.sids
    ensures DistinctKeys(SourceLines(v, n))
  {
    EndsAreNodes(v);
    var ports := StaticDaemon.PeerMap(v.nodes[n].ifaces);
    RouteDistinct(v, ports, n, Ends(v));
    forall x | x in RouteLines(v, ports, n, Ends(v)) ensures x.key.ForAddress? {
      RouteMembers(v, ports, n, Ends(v), x);
    }
    AppendDistinct([OwnLine(v, n)], RouteLines(v, ports, n, Ends(v)));
  }

  // ---- What the writers want on a node ----

  function WantForward(v: View, n: nat): seq<Line>
    requires WellFormed(v)
  {
    if n in v.satellites then ForwardLines(v, n) else []
  }

  /** Ground stations and addressable satellites have routes of their own. */
  function WantRoutes(v: View, n: nat): Option<seq<Line>>
    requires WellFormed(v)
  {
    EndsAreNodes(v);
    if n in Ends(v) then Some(SourceLines(v, n)) else None
  }

  lemma WantedOnce(v: View, n: nat)
    requires WellFormed(v)
    ensures SrWriters.Distinct(WantForward(v, n), WantRoutes(v, n))
  {
    EndsAreNodes(v);
    if n in v.satellites {
      ForwardDistinct(v, n);
    }
    if n in Ends(v) {
      SourceDistinct(v, n);
    }
  }

  /** A kernel in which the routes of the node stand, and the forwarding lines they leave room for. */
  ghost predicate Served(v: View, n: nat, kernel: Kernel)
    requires WellFormed(v)
  {
    Gets(kernel, WantForward(v, n), WantRoutes(v, n))
  }

  ghost predicate AllServed(v: View, net: map<nat, Kernel>)
    requires WellFormed(v)
  {
    forall n | n in v.sids :: n in net && Served(v, n, net[n])
  }

  lemma OnlyOwnLabel(v: View, n: nat, line: Line)
    requires WellFormed(v) && n in v.nodes && n in v.sids && line in SourceLines(v, n) && line.key.ForLabel?
    ensures line == OwnLine(v, n)
  {
    EndsAreNodes(v);
    if line != OwnLine(v, n) {
      RouteMembers(v, StaticDaemon.PeerMap(v.nodes[n].ifaces), n, Ends(v), line);
    }
  }

  lemma IsMentioned(lines: seq<Line>, line: Line)
    requires line in lines
    ensures Mentions(lines, line.key)
  {
  }

  // ---- Labels in the kernels ----

  /** The labelled nodes an interface list leads to over a usable address. */
  function Reached(v: View, ifaces: seq<Interface>): set<nat> {
    set i | 0 <= i < |ifaces| && ifaces[i].peer in v.sids && UsableIp(ifaces[i].peerIp) :: ifaces[i].peer
  }

  /** The satellites and the nodes they have a link to. */
  function SatellitePeers(v: View): map<nat, set<nat>>
    requires WellFormed(v)
  {
    map n | n in v.satellites :: Reached(v, v.nodes[n].ifaces)
  }

  /** Every node pops its own label and every satellite has the labels of its links. */
  ghost predicate Ready(v: View, net: map<nat, Kernel>)
    requires WellFormed(v)
  {
    && (forall n | n in v.sids :: n in net && Has(net[n], OwnLine(v, n)))
    && forall n | n in v.satellites :: Holds(net[n], NeighbourLines(v, v.nodes[n].ifaces))
  }

  lemma ReadyInstalls(v: View, net: map<nat, Kernel>)
    requires WellFormed(v) && Ready(v, net)
    ensures LabelsInstalled(net, v.sids, SatellitePeers(v))
  {
    var peers := SatellitePeers(v);
    forall n, m | n in peers && m in peers[n]
      ensures m in v.sids && m != n && NextNode(net, n, v.sids[m]) == Some(m)
    {
      var ifaces := v.nodes[n].ifaces;
      var i :| 0 <= i < |ifaces| && ifaces[i].peer == m && m in v.sids && UsableIp(ifaces[i].peerIp);
      var line := Line(ForLabel(v.sids[m]), Via(m, ifaces[i].peerIp, []));
      NeighbourMembers(v, ifaces, line);
      assert Has(net[n], line);
    }
  }

  lemma OwnServed(v: View, n: nat, kernel: Kernel)
    requires WellFormed(v) && n in v.sids && Served(v, n, kernel)
    ensures Has(kernel, OwnLine(v, n))
  {
    if n in v.stations {
      assert n in Ends(v);
    }
    if n in Ends(v) {
      assert SourceLines(v, n)[0] == OwnLine(v, n);
    } else {
      assert ForwardLines(v, n)[0] == OwnLine(v, n);
    }
  }

  lemma NeighbourServed(v: View, n: nat, kernel: Kernel, line: Line)
    requires WellFormed(v) && n in v.satellites && Served(v, n, kernel) && line in NeighbourLines(v, v.nodes[n].ifaces)
    ensures Has(kernel, line)
  {
    NeighbourMembers(v, v.nodes[n].ifaces, line);
    assert line in ForwardLines(v, n);
    if n in Ends(v) && Mentions(SourceLines(v, n), line.key) {
      var i :| 0 <= i < |SourceLines(v, n)| && SourceLines(v, n)[i].key == line.key;
      OnlyOwnLabel(v, n, SourceLines(v, n)[i]);
    }
  }

  /** In a served network the label tables say what they should. */
  lemma ServedReady(v: View, net: map<nat, Kernel>)
    requires WellFormed(v) && AllServed(v, net)
    ensures Ready(v, net)
  {
    hide Served, ForwardLines, SourceLines, NeighbourLines;
    forall n | n in v.sids ensures Has(net[n], OwnLine(v, n)) {
      OwnServed(v, n, net[n]);
    }
    forall n | n in v.satellites ensures n in net && Holds(net[n], NeighbourLines(v, v.nodes[n].ifaces)) {
      forall i | 0 <= i < |NeighbourLines(v, v.nodes[n].ifaces)|
        ensures Has(net[n], NeighbourLines(v, v.nodes[n].ifaces)[i])
      {
        NeighbourServed(v, n, net[n], NeighbourLines(v, v.nodes[n].ifaces)[i]);
      }
    }
  }

  // ---- The first build ----

  /** The kernel of a node after init on an empty one. */
  function FirstKernel(v: View, n: nat): Kernel
    requires WellFormed(v)
  {
    Rebuild(Memory(map[], [], []), {}, WantForward(v, n), WantRoutes(v, n)).kernel
  }

  function FirstNet(v: View): map<nat, Kernel>
    requires WellFormed(v)
  {
    map n | n in v.sids :: FirstKernel(v, n)
  }

  lemma {:induction false} AllChanged(wanted: seq<Line>)
    ensures Changed([], wanted) == wanted
  {
    if wanted != [] {
      AllChanged(wanted[..|wanted| - 1]);
      assert wanted == wanted[..|wanted| - 1] + [wanted[|wanted| - 1]];
    }
  }

  /** It has the routes of the node and the forwarding lines they leave room for, and nothing else. */
  lemma FirstHas(v: View, n: nat, line: Line)
    requires WellFormed(v)
    ensures var routes := WantRoutes(v, n);
            Has(FirstKernel(v, n), line)
            <==> if routes.Some? && Mentions(routes.value, line.key) then line in routes.value
                 else line in WantForward(v, n)
  {
    WantedOnce(v, n);
    var forward, routes := WantForward(v, n), WantRoutes(v, n);
    AllChanged(forward);
    if routes.Some? {
      AllChanged(routes.value);
      if line in routes.value {
        IsMentioned(routes.value, line);
      }
    }
    hide WantForward, WantRoutes, Mentions, Changed;
    HasAfter(Memory(map[], [], []), {}, forward, routes, line);
    NoneMentioned(line.key);
  }

  lemma NoneMentioned(key: Key)
    ensures !Mentions([], key)
  {
  }

  lemma FirstLabel(v: View, n: nat, m: nat)
    requires WellFormed(v) && n in v.sids && m in v.sids && ForLabel(v.sids[m]) in FirstKernel(v, n)
    ensures Step(SatellitePeers(v), n, m)
  {
    var key := ForLabel(v.sids[m]);
    var line := Line(key, FirstKernel(v, n)[key]);
    FirstHas(v, n, line);
    if n in Ends(v) && line in SourceLines(v, n) {
      OnlyOwnLabel(v, n, line);
      assert m == n;
    } else if line == OwnLine(v, n) {
      assert m == n;
    } else if line in NeighbourLines(v, v.nodes[n].ifaces) {
      NeighbourMembers(v, v.nodes[n].ifaces, line);
    } else {
      StationMembers(v, v.stations, StaticDaemon.PeerMap(v.nodes[n].ifaces), line);
    }
  }

  lemma FirstNetReady(v: View)
    requires WellFormed(v)
    ensures AllServed(v, FirstNet(v)) && NoOtherLabels(FirstNet(v), v.sids, SatellitePeers(v))
  {
    forall n | n in v.sids ensures Served(v, n, FirstKernel(v, n)) {
      WantedOnce(v, n);
      FreshRebuild(map[], WantForward(v, n), WantRoutes(v, n));
    }
    hide FirstKernel;
    forall n, m | n in v.sids && m in v.sids && ForLabel(v.sids[m]) in FirstKernel(v, n)
      ensures Step(SatellitePeers(v), n, m)
    {
      FirstLabel(v, n, m);
    }
  }

  // ---- Packets ----

  /** Library and stored paths join their pair. */
  predicate PathsJoin(v: View) {
    && (forall s, d | s in v.paths && d in v.paths[s] :: Joins(v.paths[s][d], s, d))
    && forall k | k in v.custom :: Joins(v.custom[k], k.0, k.1)
  }

  predicate Joins(path: seq<nat>, source: nat, dest: nat) {
    path != [] && path[0] == source && path[|path| - 1] == dest
  }

  function PortsOf(v: View, n: nat): Ports
    requires n in v.nodes
  {
    StaticDaemon.PeerMap(v.nodes[n].ifaces)
  }

  /** A route from src to dst is wanted and in src's kernel. */
  ghost predicate Routed(v: View, net: map<nat, Kernel>, src: nat, dst: nat) {
    && src in v.nodes && dst in v.nodes && src in net && PathsJoin(v)
    && RouteLine(v, PortsOf(v, src), src, dst).Some?
    && Has(net[src], RouteLine(v, PortsOf(v, src), src, dst).value)
  }

  lemma {:induction false} PortMember(ifaces: seq<Interface>, p: nat)
    requires p in StaticDaemon.PeerMap(ifaces)
    ensures exists i :: 0 <= i < |ifaces| && ifaces[i].peer == p && StaticDaemon.PeerMap(ifaces)[p] == ifaces[i]
  {
    var n := |ifaces| - 1;
    if ifaces[n].peer != p {
      PortMember(ifaces[..n], p);
      var i :| 0 <= i < n && ifaces[..n][i].peer == p && StaticDaemon.PeerMap(ifaces[..n])[p] == ifaces[..n][i];
      assert ifaces[i].peer == p;
    }
  }

  lemma {:induction false} PortAt(ifaces: seq<Interface>, i: nat)
    requires DistinctPeers(ifaces) && i < |ifaces|
    ensures var ports := StaticDaemon.PeerMap(ifaces);
            ifaces[i].peer in ports && ports[ifaces[i].peer] == ifaces[i]
  {
    var k := |ifaces| - 1;
    if i < k {
      assert ifaces[..k][i] == ifaces[i];
      PortAt(ifaces[..k], i);
    }
  }

  /** The nodes whose labels are pushed. */
  function Pushed(v: View, path: seq<nat>): seq<nat>
    requires |path| >= 2
  {
    Segments(path[1..], v.usePhp)
  }

  /** A wanted route sends to the second node of its path and pushes the labels of the rest. */
  lemma RouteShape(v: View, src: nat, dst: nat) returns (path: seq<nat>)
    requires WellFormed(v) && PathsJoin(v) && src in v.nodes && dst in v.nodes
    requires RouteLine(v, PortsOf(v, src), src, dst).Some?
    ensures PathOf(v, src, dst) == Some(path) && |path| >= 2 && src != dst && path[|path| - 1] == dst
    ensures forall i | 0 <= i < |Pushed(v, path)| :: Pushed(v, path)[i] in v.sids
    ensures var hop := RouteLine(v, PortsOf(v, src), src, dst).value.action;
            && hop.Via? && hop.peer == path[1] && hop.push == Labels(v.sids, Pushed(v, path))
            && hop.peer in PortsOf(v, src) && hop.nextHop == PortsOf(v, src)[hop.peer].peerIp
  {
    hide WellFormed, Segments;
    path := PathOf(v, src, dst).value;
    assert Joins(path, src, dst);
  }

  /** The packet's first leg: the first hop, then as far as the labels carry it. */
  lemma FirstLeg(v: View, net: map<nat, Kernel>, src: nat, dst: nat) returns (path: seq<nat>)
    requires WellFormed(v) && Ready(v, net) && Routed(v, net, src, dst)
    ensures PathOf(v, src, dst) == Some(path) && |path| >= 2 && src != dst && path[|path| - 1] == dst
    ensures var rest, leg := Pushed(v, path), Leg(net, src, v.nodes[dst].loopback);
            && (Followable(SatellitePeers(v), path[1], rest) ==> leg == Journey([path[1]] + rest, true))
            && (NoOtherLabels(net, v.sids, SatellitePeers(v)) && !Followable(SatellitePeers(v), path[1], rest) ==>
                  !leg.arrived && leg.visited < [path[1]] + rest)
  {
    hide WellFormed, Ready, NoOtherLabels, LabelsInstalled, Followable, Labelled, Segments, SatellitePeers, PathOf;
    path := RouteShape(v, src, dst);
    ReadyInstalls(v, net);
    StackIsFollowed(net, v.sids, SatellitePeers(v), path[1], Pushed(v, path));
  }

  /** Without penultimate hop popping a packet is carried along its whole path, revisited nodes included, and
      arrives with no label left, whenever every node after the first that is not the last is a satellite with
      a link to the next one; and if the kernels have no other labels, on no other path. */
  lemma StackDelivers(v: View, net: map<nat, Kernel>, src: nat, dst: nat, lookups: nat)
    requires WellFormed(v) && Ready(v, net) && Routed(v, net, src, dst) && !v.usePhp && lookups >= 1
    ensures var path, j := PathOf(v, src, dst).value, Travel(net, src, v.nodes[dst].loopback, dst, lookups);
            && |path| >= 2
            && (Followable(SatellitePeers(v), path[1], path[2..]) ==> j == Journey(path[1..], true))
            && (NoOtherLabels(net, v.sids, SatellitePeers(v)) && !Followable(SatellitePeers(v), path[1], path[2..]) ==>
                  !j.arrived && j.visited < path[1..])
  {
    hide WellFormed, Ready, NoOtherLabels, Followable, Leg, SatellitePeers, PathOf, Routed;
    var path := FirstLeg(v, net, src, dst);
    assert Pushed(v, path) == path[2..];
    assert [path[1]] + path[2..] == path[1..];
  }

  lemma PhpPieces(v: View, path: seq<nat>)
    requires v.usePhp && |path| >= 3
    ensures var inner := path[2..|path| - 1];
            && Pushed(v, path) == inner && [path[1]] + inner + [path[|path| - 1]] == path[1..]
            && forall at :: LastOf(at, [path[1]] + inner) == path[|path| - 2]
  {
    var rest := path[1..];
    assert rest[1..|rest| - 1] == path[2..|path| - 1];
    assert Pushed(v, path) == path[2..|path| - 1];
  }

  /** The stack set_sr_custom_path reports is not the one that is installed: it has the first hop's label on
      top. A packet sent with it would visit the same nodes, popping that label at the first hop itself. Only
      under penultimate hop popping on a path of two nodes, where both are empty, they are the same. */
  lemma ReportedStack(sids: map<nat, nat>, net: map<nat, Kernel>, peers: map<nat, set<nat>>, path: seq<nat>,
                      usePhp: bool)
    requires |path| >= 2 && StackFor(sids, path, usePhp).Ok?
    ensures StackFor(sids, path[1..], usePhp).Ok?
    ensures var reported, installed := StackFor(sids, path, usePhp).value, StackFor(sids, path[1..], usePhp).value;
            && (reported == installed <==> usePhp && |path| == 2)
            && (reported != installed ==>
                  && path[1] in sids && reported == [sids[path[1]]] + installed
                  && (LabelsInstalled(net, sids, peers) ==>
                        var j := Labelled(net, path[1], installed);
                        Labelled(net, path[1], reported) == Journey([path[1]] + j.visited, j.arrived)))
  {
    var nodes, fewer := Segments(path, usePhp), Segments(path[1..], usePhp);
    if usePhp && |path| == 2 {
      assert nodes == fewer == [];
    } else {
      SegmentsOn(path, usePhp);
      TopLabel(sids, path[1], fewer);
      hide Labelled, Segments;
      if LabelsInstalled(net, sids, peers) {
        PopHere(net, sids, path[1], Labels(sids, fewer));
      }
    }
  }

  lemma SegmentsOn(path: seq<nat>, usePhp: bool)
    requires |path| >= 2 && (usePhp ==> |path| >= 3)
    ensures Segments(path, usePhp) == [path[1]] + Segments(path[1..], usePhp)
  {
    var rest := path[1..];
    if usePhp {
      assert path[1..|path| - 1] == [path[1]] + rest[1..|rest| - 1];
    } else if |path| == 2 {
      assert path[1..] == [path[1]] + [];
    } else {
      assert path[1..] == [path[1]] + rest[1..];
    }
  }

  lemma TopLabel(sids: map<nat, nat>, n: nat, fewer: seq<nat>)
    requires forall i | 0 <= i < |[n] + fewer| :: ([n] + fewer)[i] in sids
    ensures n in sids && forall i | 0 <= i < |fewer| :: fewer[i] in sids
    ensures Labels(sids, [n] + fewer) == [sids[n]] + Labels(sids, fewer)
  {
    assert ([n] + fewer)[0] == n;
    forall i | 0 <= i < |fewer| ensures fewer[i] in sids {
      assert ([n] + fewer)[i + 1] == fewer[i];
    }
  }

  /** A node pops its own label and looks at the next one. */
  lemma PopHere(net: map<nat, Kernel>, sids: map<nat, nat>, n: nat, stack: seq<nat>)
    requires n in sids && n in net && Has(net[n], Line(ForLabel(sids[n]), Local))
    ensures var j := Labelled(net, n, stack);
            Labelled(net, n, [sids[n]] + stack) == Journey([n] + j.visited, j.arrived)
  {
    assert ([sids[n]] + stack)[1..] == stack;
  }
}

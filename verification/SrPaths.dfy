/** When a pair has a route at all, said of paths, interfaces and labels alone
    (satgonetem/routing/srmpls_daemon.py:200-231, 686-738). */
module SrPaths {
  import opened Wrappers
  import opened RoutingEntries
  import StaticDaemon
  import opened SegmentRouting
  import opened LabelForwarding
  import opened SrRoutes
  import opened SrDelivery

  /** The stored path of a pair if there is one, else the library's; a source the library knows nothing of has none. */
  predicate HasPath(v: View, src: nat, dst: nat, path: seq<nat>) {
    && src != dst && src in v.paths
    && if (src, dst) in v.custom then path == v.custom[(src, dst)]
       else dst in v.paths[src] && path == v.paths[src][dst]
  }

  /** The node has an interface towards the peer whose address there is usable. */
  predicate Joined(v: View, n: nat, peer: nat, ip: string) {
    && n in v.nodes && ip != "" && ip != "0.0.0.0"
    && exists i :: 0 <= i < |v.nodes[n].ifaces|
                   && v.nodes[n].ifaces[i].peer == peer && v.nodes[n].ifaces[i].peerIp == ip
  }

  /** How many nodes behind the second one have their labels pushed: all of them, but for the last one under
      penultimate hop popping. */
  function PushedCount(v: View, path: seq<nat>): nat
    requires |path| >= 2
  {
    if |path| == 2 then 0 else |path| - 2 - if v.usePhp then 1 else 0
  }

  /** A packet for dst can be sent from src along the path, with that peer address as the next hop. */
  predicate SendsOver(v: View, src: nat, dst: nat, path: seq<nat>, ip: string) {
    && HasPath(v, src, dst, path) && |path| >= 2 && Joined(v, src, path[1], ip)
    && forall j | 2 <= j < 2 + PushedCount(v, path) :: path[j] in v.sids
  }

  ghost predicate Sends(v: View, src: nat, dst: nat, path: seq<nat>) {
    exists ip :: SendsOver(v, src, dst, path, ip)
  }

  /** The line that does so. */
  predicate SendingLine(v: View, dst: nat, path: seq<nat>, ip: string, line: Line)
    requires dst in v.nodes && |path| >= 2
  {
    && line.key == ForAddress(v.nodes[dst].loopback)
    && line.action.Via? && line.action.peer == path[1] && line.action.nextHop == ip
    && |line.action.push| == PushedCount(v, path)
    && forall j | 2 <= j < 2 + PushedCount(v, path) :: path[j] in v.sids && line.action.push[j - 2] == v.sids[path[j]]
  }

  lemma PathExact(v: View, src: nat, dst: nat, path: seq<nat>)
    ensures PathOf(v, src, dst) == Some(path) <==> HasPath(v, src, dst, path)
  {
  }

  lemma PortExact(v: View, n: nat, peer: nat, ip: string)
    requires n in v.nodes && DistinctPeers(v.nodes[n].ifaces)
    ensures Joined(v, n, peer, ip)
            <==> peer in PortsOf(v, n) && PortsOf(v, n)[peer].peerIp == ip && UsableIp(ip)
  {
    var ifaces := v.nodes[n].ifaces;
    if peer in PortsOf(v, n) {
      PortMember(ifaces, peer);
    }
    forall i: nat | i < |ifaces| ensures ifaces[i].peer in PortsOf(v, n) && PortsOf(v, n)[ifaces[i].peer] == ifaces[i] {
      PortAt(ifaces, i);
    }
  }

  /** The labels of a path behind its first hop. */
  lemma StackExact(v: View, path: seq<nat>)
    requires |path| >= 2
    ensures var stack := StackFor(v.sids, path[1..], v.usePhp);
            && (stack.Ok? <==> forall j | 2 <= j < 2 + PushedCount(v, path) :: path[j] in v.sids)
            && (stack.Ok? ==> |stack.value| == PushedCount(v, path)
                              && forall j | 2 <= j < 2 + PushedCount(v, path) ::
                                   path[j] in v.sids && stack.value[j - 2] == v.sids[path[j]])
  {
    var nodes := Segments(path[1..], v.usePhp);
    SegmentsExact(v, path);
    hide Segments, PushedCount;
    if stack: seq<nat> :| StackFor(v.sids, path[1..], v.usePhp) == Ok(stack) {
      forall j | 2 <= j < 2 + |nodes| ensures path[j] in v.sids && stack[j - 2] == v.sids[path[j]] {
        assert nodes[j - 2] in v.sids;
      }
    }
    if forall j | 2 <= j < 2 + |nodes| :: path[j] in v.sids {
      forall i | 0 <= i < |nodes| ensures nodes[i] in v.sids {
        assert nodes[i + 2 - 2] == path[i + 2];
      }
    }
  }

  /** The nodes whose labels are pushed. */
  lemma SegmentsExact(v: View, path: seq<nat>)
    requires |path| >= 2
    ensures var nodes := Segments(path[1..], v.usePhp);
            |nodes| == PushedCount(v, path) && forall j | 2 <= j < 2 + |nodes| :: nodes[j - 2] == path[j]
  {
  }

  /** Exactly when a node has a route of its own to another, and which: there is a path, its first hop is a peer, and
      the nodes whose labels are pushed have one. */
  lemma RouteExact(v: View, src: nat, dst: nat)
    requires src in v.nodes && dst in v.nodes && DistinctPeers(v.nodes[src].ifaces)
    ensures RouteLine(v, PortsOf(v, src), src, dst).Some? <==> exists path :: Sends(v, src, dst, path)
    ensures forall path, ip | SendsOver(v, src, dst, path, ip) ::
              RouteLine(v, PortsOf(v, src), src, dst).Some?
              && SendingLine(v, dst, path, ip, RouteLine(v, PortsOf(v, src), src, dst).value)
  {
    var line := RouteLine(v, PortsOf(v, src), src, dst);
    forall path, ip | SendsOver(v, src, dst, path, ip)
      ensures line.Some? && SendingLine(v, dst, path, ip, line.value)
    {
      PathExact(v, src, dst, path);
      PortExact(v, src, path[1], ip);
      StackExact(v, path);
    }
    if line.Some? {
      var path := PathOf(v, src, dst).value;
      var ip := PortsOf(v, src)[path[1]].peerIp;
      PathExact(v, src, dst, path);
      PortExact(v, src, path[1], ip);
      StackExact(v, path);
      assert SendsOver(v, src, dst, path, ip);
      assert Sends(v, src, dst, path);
    }
  }

  /** What a path that can be sent on means for the two ends. */
  lemma SendsRoute(v: View, src: nat, dst: nat, path: seq<nat>)
    requires WellFormed(v) && dst in v.nodes && Sends(v, src, dst, path)
    ensures src in v.nodes && PathOf(v, src, dst) == Some(path) && |path| >= 2
    ensures RouteLine(v, PortsOf(v, src), src, dst).Some?
  {
    var ip :| SendsOver(v, src, dst, path, ip);
    PathExact(v, src, dst, path);
    hide RouteLine, PathOf;
    assert PortsOk(src, v.nodes[src].ifaces);
    RouteExact(v, src, dst);
  }

  /** The route of a pair, from its line. */
  lemma RouteSends(v: View, src: nat, dst: nat)
    requires WellFormed(v) && src in v.nodes && dst in v.nodes && RouteLine(v, PortsOf(v, src), src, dst).Some?
    ensures PathOf(v, src, dst).Some? && Sends(v, src, dst, PathOf(v, src, dst).value)
  {
    hide RouteLine;
    assert PortsOk(src, v.nodes[src].ifaces);
    RouteExact(v, src, dst);
    var path :| Sends(v, src, dst, path);
    var ip :| SendsOver(v, src, dst, path, ip);
    PathExact(v, src, dst, path);
  }

  lemma SameSending(v: View, dst: nat, path: seq<nat>, ip: string, a: Line, b: Line)
    requires dst in v.nodes && |path| >= 2 && SendingLine(v, dst, path, ip, a) && SendingLine(v, dst, path, ip, b)
    ensures a == b
  {
    forall i | 0 <= i < |a.action.push| ensures a.action.push[i] == b.action.push[i] {
      assert path[i + 2] in v.sids && a.action.push[i + 2 - 2] == v.sids[path[i + 2]];
    }
  }

  lemma EntryFor(v: View, src: nat, dst: nat, line: Line)
    requires WellFormed(v) && src in v.nodes && dst in Ends(v) && dst in v.nodes
    requires line.key == ForAddress(v.nodes[dst].loopback)
    ensures line in Routes(v, src) <==> RouteLine(v, PortsOf(v, src), src, dst) == Some(line)
  {
    EndsAreNodes(v);
    RouteMembers(v, PortsOf(v, src), src, Ends(v), line);
    forall d | d in Ends(v) && RouteLine(v, PortsOf(v, src), src, d) == Some(line) ensures d == dst {
      RouteAddress(v, src, d);
    }
  }

  lemma RouteAddress(v: View, src: nat, dst: nat)
    requires src in v.nodes && dst in v.nodes && RouteLine(v, PortsOf(v, src), src, dst).Some?
    ensures RouteLine(v, PortsOf(v, src), src, dst).value.key == ForAddress(v.nodes[dst].loopback)
  {
  }

  /** The table of a source, as sr_lfib has it: a line for the address of a destination exactly if the pair can be sent
      for, and then that line. */
  lemma TableExact(v: View, src: nat, dst: nat, line: Line)
    requires WellFormed(v) && src in v.nodes && dst in Ends(v) && dst in v.nodes
    requires line.key == ForAddress(v.nodes[dst].loopback)
    ensures line in Routes(v, src) <==> exists path, ip :: SendsOver(v, src, dst, path, ip)
                                                          && SendingLine(v, dst, path, ip, line)
  {
    assert PortsOk(src, v.nodes[src].ifaces);
    hide RouteLine, Ends, WellFormed, Routes, SendsOver, PortsOf;
    EntryFor(v, src, dst, line);
    RouteExact(v, src, dst);
    if RouteLine(v, PortsOf(v, src), src, dst) == Some(line) {
      var path :| Sends(v, src, dst, path);
      var ip :| SendsOver(v, src, dst, path, ip);
      assert SendingLine(v, dst, path, ip, line);
    }
    if path, ip :| SendsOver(v, src, dst, path, ip) && SendingLine(v, dst, path, ip, line) {
      SameSending(v, dst, path, ip, line, RouteLine(v, PortsOf(v, src), src, dst).value);
    }
  }

  /** The line sends from src to some destination along a path. */
  ghost predicate Carries(v: View, src: nat, line: Line)
    requires WellFormed(v)
  {
    exists dst, path, ip :: dst in Ends(v) && dst in v.nodes && SendsOver(v, src, dst, path, ip)
                            && SendingLine(v, dst, path, ip, line)
  }

  /** And the table holds nothing else. */
  lemma TableOnly(v: View, src: nat, line: Line)
    requires WellFormed(v) && src in v.nodes
    ensures line in Routes(v, src) <==> Carries(v, src, line)
  {
    EndsAreNodes(v);
    RouteMembers(v, PortsOf(v, src), src, Ends(v), line);
    assert line in Routes(v, src) <==> exists d :: d in Ends(v) && RouteLine(v, PortsOf(v, src), src, d) == Some(line);
    assert PortsOk(src, v.nodes[src].ifaces);
    hide RouteLine, Ends, WellFormed, Routes, SendsOver, PortsOf;
    if line in Routes(v, src) {
      var dst :| dst in Ends(v) && RouteLine(v, PortsOf(v, src), src, dst) == Some(line);
      RouteExact(v, src, dst);
      var path :| Sends(v, src, dst, path);
      var ip :| SendsOver(v, src, dst, path, ip);
      assert SendingLine(v, dst, path, ip, line);
    }
    if dst, path, ip :| dst in Ends(v) && dst in v.nodes && SendsOver(v, src, dst, path, ip)
                        && SendingLine(v, dst, path, ip, line) {
      RouteExact(v, src, dst);
      SameSending(v, dst, path, ip, line, RouteLine(v, PortsOf(v, src), src, dst).value);
    }
  }
}

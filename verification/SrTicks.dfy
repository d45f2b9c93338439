/** What a tick of the topology does to the lines of the segment routing daemon: which devices go, and which ticks
    do harm (satgonetem/services/mixins/topology_sync.py:542-620,
    satgonetem/routing/srmpls_daemon.py:386-397, 911-1030). */
module SrTicks {
  import opened Wrappers
  import opened Nodes
  import opened LinkSync
  import opened Links
  import opened Reconcile
  import opened TickDevices
  import RoutingEntries
  import StaticDaemon
  import opened LabelForwarding
  import opened SrRoutes
  import opened SrInstall
  import opened SrWriters
  import opened SrDelivery
  import opened SrRuns

  /** The interfaces of a node in a view are its devices. */
  predicate PortsAre(v: View, nodes: set<NodeRef>, links: map<LinkKey, LinkState>, n: NodeRef) {
    n.id in v.nodes && StaticDaemon.PeerMap(v.nodes[n.id].ifaces).Keys == DevicePeers(nodes, links, n)
  }

  lemma RouteOverPort(v: View, ports: Ports, src: nat, dsts: seq<nat>, line: Line)
    requires (forall n | n in dsts :: n in v.nodes) && line in RouteLines(v, ports, src, dsts)
    ensures line.action.Via? && line.action.peer in ports
  {
    RouteMembers(v, ports, src, dsts, line);
  }

  lemma {:induction false} IfacePort(ifaces: seq<RoutingEntries.Interface>, i: nat)
    requires i < |ifaces|
    ensures ifaces[i].peer in StaticDaemon.PeerMap(ifaces)
  {
    var n := |ifaces| - 1;
    if i < n {
      IfacePort(ifaces[..n], i);
    }
  }

  lemma ForwardOverPort(v: View, n: nat, line: Line)
    requires WellFormed(v) && n in v.satellites && line in ForwardLines(v, n) && line.action.Via?
    ensures n in v.nodes && line.action.peer in PortsOf(v, n)
  {
    SatellitesListed(v);
    StationsOnce(v);
    var ifaces := v.nodes[n].ifaces;
    hide WellFormed;
    if line in NeighbourLines(v, ifaces) {
      NeighbourMembers(v, ifaces, line);
      var i :| 0 <= i < |ifaces| && ifaces[i].peer in v.sids && UsableIp(ifaces[i].peerIp)
               && line == Line(ForLabel(v.sids[ifaces[i].peer]), Via(ifaces[i].peer, ifaces[i].peerIp, []));
      IfacePort(ifaces, i);
    } else {
      StationMembers(v, v.stations, PortsOf(v, n), line);
    }
  }

  /** Nothing that is wanted leads over a device that is not there. */
  lemma WantedOverPorts(v: View, n: nat, gone: set<nat>)
    requires WellFormed(v) && n in v.nodes && PortsOf(v, n).Keys !! gone
    ensures forall f | f in WantForward(v, n) :: !Through(f, gone)
    ensures WantRoutes(v, n).Some? ==> forall r | r in WantRoutes(v, n).value :: !Through(r, gone)
  {
    EndsAreNodes(v);
    hide WellFormed, ForwardLines, Ends;
    forall f | f in WantForward(v, n) && f.action.Via? ensures f.action.peer in PortsOf(v, n) {
      ForwardOverPort(v, n, f);
    }
    if n in Ends(v) {
      forall r | r in SourceLines(v, n) && r.action.Via? ensures r.action.peer in PortsOf(v, n) {
        RouteOverPort(v, PortsOf(v, n), n, Ends(v), r);
      }
    }
  }

  /** Where nothing that is wanted leads over a lost device: a rebuild does the harm it would do without the loss, and
      further harm exactly if a writer that has nothing new to send remembers a line over a lost device. */
  lemma LossExact(s: Memory, lost: set<nat>, wantForward: seq<Line>, wantRoutes: Option<seq<Line>>)
    requires forall f | f in wantForward :: !Through(f, lost)
    requires wantRoutes.Some? ==> forall r | r in wantRoutes.value :: !Through(r, lost)
    ensures var first := Changed(s.forward, wantForward);
            SrWriters.Harmless(s, lost, wantForward, wantRoutes)
            <==> && SrWriters.Harmless(s, {}, wantForward, wantRoutes)
                 && (SentRoutes(s, wantRoutes) == [] ==> forall r | r in s.routes && r !in first :: !Through(r, lost))
                 && (first == [] ==>
                       forall f | f in s.forward && !Mentions(KeptRoutes(s, wantRoutes), f.key) :: !Through(f, lost))
  {
  }

  /** What goes in a tick is not there after it. */
  lemma GoneIsGone(cfg: Config, before: map<LinkKey, LinkState>, after: map<LinkKey, LinkState>, added: set<LinkKey>,
                   removed: set<LinkKey>, reports: seq<Report>, measure: LinkKey -> Measure, n: NodeRef)
    requires TickedAll(cfg, before, after, added, removed, reports, measure)
    ensures DevicePeers(cfg.nodes, after, n) !! GoneDevices(cfg.nodes, before, removed, n)
  {
    hide TickedAll, DevicePeers, GoneDevices, PeersAmong;
    TickPartitionsDevices(cfg, before, after, added, removed, reports, measure, n);
  }

  /** An update after a tick, of a node whose devices are those of the links: exactly when it does no harm. The links
      that go do harm only where a writer has nothing new to send and goes on remembering a line over one of them. */
  lemma TickHarm(cfg: Config, before: map<LinkKey, LinkState>, after: map<LinkKey, LinkState>, added: set<LinkKey>,
                 removed: set<LinkKey>, reports: seq<Report>, measure: LinkKey -> Measure, n: NodeRef, v: View,
                 s: Memory, lost: map<nat, set<nat>>)
    requires TickedAll(cfg, before, after, added, removed, reports, measure)
    requires WellFormed(v) && PortsAre(v, cfg.nodes, after, n)
    requires LostAt(lost, n.id) == GoneDevices(cfg.nodes, before, removed, n)
    ensures var gone, first := LostAt(lost, n.id), Changed(s.forward, WantForward(v, n.id));
            var wantRoutes := WantRoutes(v, n.id);
            HarmlessAt(s, n.id, Update(v, lost))
            <==> && SrWriters.Harmless(s, {}, WantForward(v, n.id), wantRoutes)
                 && (SentRoutes(s, wantRoutes) == [] ==> forall r | r in s.routes && r !in first :: !Through(r, gone))
                 && (first == [] ==>
                       forall f | f in s.forward && !Mentions(KeptRoutes(s, wantRoutes), f.key) :: !Through(f, gone))
  {
    hide TickedAll, DevicePeers, GoneDevices, WellFormed, WantForward, WantRoutes, SrWriters.Harmless, Changed,
         SentRoutes, KeptRoutes, Through, Mentions;
    GoneIsGone(cfg, before, after, added, removed, reports, measure, n);
    WantedOverPorts(v, n.id, LostAt(lost, n.id));
    LossExact(s, LostAt(lost, n.id), WantForward(v, n.id), WantRoutes(v, n.id));
  }

  /** A node without forwarding lines comes to no harm but by a loss. */
  lemma RoutesOnly(s: Memory, routes: seq<Line>)
    requires s.forward == []
    ensures SrWriters.Harmless(s, {}, [], Some(routes))
  {
    NoneMentionedAnywhere();
  }

  lemma NoneMentionedAnywhere()
    ensures forall key :: !Mentions([], key)
  {
  }

  lemma StationWants(v: View, n: nat)
    requires WellFormed(v) && n in v.stations && n in v.sids && n in v.nodes
    ensures WantForward(v, n) == [] && WantRoutes(v, n) == Some(SourceLines(v, n))
  {
    KindsApart(v, n);
  }

  /** So at a ground station a tick does harm exactly if its routes are all remembered and one of the remembered ones
      led over a link that went. */
  lemma StationTickHarm(cfg: Config, before: map<LinkKey, LinkState>, after: map<LinkKey, LinkState>,
                        added: set<LinkKey>, removed: set<LinkKey>, reports: seq<Report>, measure: LinkKey -> Measure,
                        n: NodeRef, v: View, s: Memory, lost: map<nat, set<nat>>)
    requires TickedAll(cfg, before, after, added, removed, reports, measure)
    requires WellFormed(v) && PortsAre(v, cfg.nodes, after, n) && n.id in v.stations && n.id in v.sids
    requires LostAt(lost, n.id) == GoneDevices(cfg.nodes, before, removed, n) && s.forward == []
    ensures HarmlessAt(s, n.id, Update(v, lost))
            <==> || Changed(s.routes, SourceLines(v, n.id)) != []
                 || forall r | r in s.routes :: !Through(r, LostAt(lost, n.id))
  {
    assert n.id in v.nodes;
    hide *;
    StationWants(v, n.id);
    RoutesOnly(s, SourceLines(v, n.id));
    TickHarm(cfg, before, after, added, removed, reports, measure, n, v, s, lost);
    NothingNew(s, SourceLines(v, n.id));
  }

  lemma NothingNew(s: Memory, routes: seq<Line>)
    ensures Changed([], []) == [] && SentRoutes(s, Some(routes)) == Changed(s.routes, routes)
  {
  }

  lemma RoutesStand(s: Memory, lost: set<nat>, routes: seq<Line>)
    requires Trusted(s) && s.forward == [] && DistinctKeys(routes) && forall r | r in routes :: !Through(r, lost)
    ensures Gets(Rebuild(s, lost, [], Some(routes)).kernel, [], Some(routes))
  {
    assert DistinctKeys([]);
    hide Rebuild, Has, DistinctKeys, Trusted, Through, Changed;
    NothingNew(s, routes);
    NoneMentionedAnywhere();
    forall r | r in routes ensures Has(Rebuild(s, lost, [], Some(routes)).kernel, r) {
      KeptMembers(s.routes, routes, r);
      RouteStands(s, lost, [], Some(routes), r);
    }
  }

  /** The tick itself leaves a ground station with all it wants, harm or not: what is remembered in vain is missed only
      when the link comes back. */
  lemma StationTickServes(cfg: Config, before: map<LinkKey, LinkState>, after: map<LinkKey, LinkState>,
                          added: set<LinkKey>, removed: set<LinkKey>, reports: seq<Report>,
                          measure: LinkKey -> Measure, n: NodeRef, v: View, s: Memory, lost: map<nat, set<nat>>)
    requires TickedAll(cfg, before, after, added, removed, reports, measure)
    requires WellFormed(v) && PortsAre(v, cfg.nodes, after, n) && n.id in v.stations && n.id in v.sids
    requires LostAt(lost, n.id) == GoneDevices(cfg.nodes, before, removed, n)
    requires s.forward == [] && Trusted(s)
    ensures Served(v, n.id, NodeNext(s, n.id, Update(v, lost)).kernel)
  {
    assert n.id in v.nodes;
    hide TickedAll, DevicePeers, GoneDevices, WellFormed, WantForward, WantRoutes, Through, SourceLines, Rebuild,
         Trusted;
    StationWants(v, n.id);
    GoneIsGone(cfg, before, after, added, removed, reports, measure, n);
    WantedOverPorts(v, n.id, LostAt(lost, n.id));
    WantedOnce(v, n.id);
    RoutesStand(s, LostAt(lost, n.id), SourceLines(v, n.id));
  }
}

/** From what the simulation reports to packets that arrive: the tick, the routing graph, the daemon and the kernels
    put together (satgonetem/services/topology_satcom.py:859-938, satgonetem/services/mixins/topology_sync.py,
    satgonetem/routing/static_daemon.py). */
module EndToEnd {
  import opened Wrappers
  import opened Nodes
  import opened Links
  import opened LinkSync
  import opened Reconcile
  import opened TickDevices
  import AP = AddressPlan
  import IpUtils
  import Bits
  import RE = RoutingEntries
  import RouteDiff
  import NR = NodeRouting
  import SP = ShortestPaths
  import SD = StaticDaemon
  import D = Delivery

  // ---- The routing graph ----

  predicate Both(nodes: set<NodeRef>, a: NodeRef, b: NodeRef) {
    a in nodes && b in nodes && a != b
  }

  /** A reported link of two nodes that get_current_graph keeps. */
  ghost predicate Edge(cfg: Config, links: map<LinkKey, LinkState>, reports: seq<Report>, a: NodeRef, b: NodeRef) {
    Both(cfg.nodes, a, b) && exists r :: r in ReportsFor(reports, {a, b}) && Routable(r, links, {a, b})
  }

  /** get_current_graph, when the reports name nodes of the topology only: the kept edges, both ways, with positive
      weights. */
  ghost predicate GraphOf(cfg: Config, links: map<LinkKey, LinkState>, reports: seq<Report>, g: SP.Graph) {
    && SP.WellFormed(g)
    && (forall e | e in g :: exists a, b :: Edge(cfg, links, reports, a, b) && e == (a.id, b.id))
    && forall a, b | Edge(cfg, links, reports, a, b) :: (a.id, b.id) in g
  }

  predicate ActiveLink(cfg: Config, links: map<LinkKey, LinkState>, a: NodeRef, b: NodeRef) {
    Both(cfg.nodes, a, b) && {a, b} in links && links[{a, b}].isActive
  }

  /** The edges are the active links. */
  ghost predicate GraphIsLinks(cfg: Config, links: map<LinkKey, LinkState>, g: SP.Graph) {
    && SP.WellFormed(g)
    && (forall e | e in g :: exists a, b :: ActiveLink(cfg, links, a, b) && e == (a.id, b.id))
    && forall a, b | ActiveLink(cfg, links, a, b) :: (a.id, b.id) in g
  }

  /** A link is reported at most once, by a report whose attributes are in accord. */
  ghost predicate InAccord(cfg: Config, links: map<LinkKey, LinkState>, reports: seq<Report>) {
    forall k | k <= cfg.nodes ::
      |ReportsFor(reports, k)| <= 1 && forall r | r in ReportsFor(reports, k) :: Consonant(Lookup(links, k), r)
  }

  /** Reports that name a link once and whose attributes agree, or that do not speak of activity, are. */
  lemma AgreeingReports(cfg: Config, links: map<LinkKey, LinkState>, reports: seq<Report>)
    requires forall k | k <= cfg.nodes :: |ReportsFor(reports, k)| <= 1
    requires forall k, r | k <= cfg.nodes && r in ReportsFor(reports, k) ::
               r.isActive.None? || (r.disabled.Some? && r.isActive.value == !r.disabled.value)
    ensures InAccord(cfg, links, reports)
  {
    forall k, r | k <= cfg.nodes && r in ReportsFor(reports, k) ensures Consonant(Lookup(links, k), r) {
      AgreeingAttributes(Lookup(links, k), r);
    }
  }

  lemma SameActive(cfg: Config, links: map<LinkKey, LinkState>, reports: seq<Report>, g: SP.Graph)
    requires GraphOf(cfg, links, reports, g)
    requires forall a, b :: Edge(cfg, links, reports, a, b) <==> ActiveLink(cfg, links, a, b)
    ensures GraphIsLinks(cfg, links, g)
  {
    forall e | e in g ensures exists a, b :: ActiveLink(cfg, links, a, b) && e == (a.id, b.id) {
      var a, b :| Edge(cfg, links, reports, a, b) && e == (a.id, b.id);
      assert ActiveLink(cfg, links, a, b);
    }
    forall a, b | ActiveLink(cfg, links, a, b) ensures (a.id, b.id) in g {
      assert Edge(cfg, links, reports, a, b);
    }
  }

  /** After a tick whose reports are in accord the edges of the routing graph are the active links. */
  lemma EdgesAreLinks(cfg: Config, before: map<LinkKey, LinkState>, after: map<LinkKey, LinkState>,
                      added: set<LinkKey>, removed: set<LinkKey>, reports: seq<Report>, measure: LinkKey -> Measure,
                      g: SP.Graph)
    requires TickedAll(cfg, before, after, added, removed, reports, measure)
    requires InAccord(cfg, before, reports) && GraphOf(cfg, after, reports, g)
    ensures GraphIsLinks(cfg, after, g)
  {
    hide GraphOf, GraphIsLinks, TickedAt, AtRest, Consonant, Routable;
    forall a, b ensures Edge(cfg, after, reports, a, b) <==> ActiveLink(cfg, after, a, b) {
      if Both(cfg.nodes, a, b) {
        var k := {a, b};
        assert TickedAt(cfg, before, after, added, removed, reports, measure, k);
        if k in after {
          ActiveLinkIsReported(cfg, before, after, added, removed, reports, measure, k);
        }
        if ReportsFor(reports, k) != [] {
          var r := ReportsFor(reports, k)[0];
          assert ReportsFor(reports, k) == [r];
          EdgeIsActiveLink(cfg, before, after, added, removed, reports, measure, k, r);
        }
      }
    }
    SameActive(cfg, after, reports, g);
  }

  /** After init, if every link is active and none is reported twice. */
  lemma StartEdges(cfg: Config, links: map<LinkKey, LinkState>, reports: seq<Report>, measure: LinkKey -> Measure,
                   g: SP.Graph)
    requires forall k :: StartedAt(cfg, links, reports, measure, k)
    requires forall k | k in links :: links[k].isActive
    requires forall k | k <= cfg.nodes :: |ReportsFor(reports, k)| <= 1
    requires GraphOf(cfg, links, reports, g)
    ensures GraphIsLinks(cfg, links, g)
  {
    hide GraphOf, GraphIsLinks;
    forall a, b ensures Edge(cfg, links, reports, a, b) <==> ActiveLink(cfg, links, a, b) {
      if Both(cfg.nodes, a, b) {
        StartEdge(cfg, links, reports, measure, a, b);
      }
    }
    SameActive(cfg, links, reports, g);
  }

  lemma StartEdge(cfg: Config, links: map<LinkKey, LinkState>, reports: seq<Report>, measure: LinkKey -> Measure,
                  a: NodeRef, b: NodeRef)
    requires StartedAt(cfg, links, reports, measure, {a, b}) && ({a, b} in links ==> links[{a, b}].isActive)
    requires Both(cfg.nodes, a, b) && |ReportsFor(reports, {a, b})| <= 1
    ensures Edge(cfg, links, reports, a, b) <==> ActiveLink(cfg, links, a, b)
  {
    var k := {a, b};
    if ReportsFor(reports, k) != [] {
      var r := ReportsFor(reports, k)[0];
      assert r in ReportsFor(reports, k) && ReportsFor(reports, k) == [r];
      assert [r][..0] == [];
      assert k == {r.source.value.node, r.target.value.node};
    }
  }

  /** With the links at rest, the next hop of every shortest path is a peer the node has a device to. */
  lemma HopsResolve(cfg: Config, links: map<LinkKey, LinkState>, g: SP.Graph, dsts: seq<NR.Dest>, paths: SD.Paths,
                    n: NodeRef, ifaces: NR.Devices)
    requires UniqueIds(cfg.nodes) && n in cfg.nodes && GraphIsLinks(cfg, links, g)
    requires forall k | k in links :: AtRest(links[k])
    requires forall i | 0 <= i < |dsts| :: dsts[i].id in paths && SP.PathOracle(g, dsts[i].id, paths[dsts[i].id])
    requires ifaces.Keys == DevicePeers(cfg.nodes, links, n)
    ensures NR.Resolvable(SD.SignatureOf(paths, dsts, n.id), ifaces)
  {
    forall i | 0 <= i < |dsts| && SD.HopFrom(paths, dsts[i].id, n.id).Some?
      ensures SD.HopFrom(paths, dsts[i].id, n.id).value in ifaces
    {
      var p := paths[dsts[i].id][n.id];
      var h := p[|p| - 2];
      assert SP.IsShortest(g, p, dsts[i].id, n.id);
      assert (p[|p| - 2], p[|p| - 2 + 1]) in g;
      HopIsPeer(cfg, links, g, h, n);
    }
  }

  lemma HopIsPeer(cfg: Config, links: map<LinkKey, LinkState>, g: SP.Graph, h: nat, n: NodeRef)
    requires UniqueIds(cfg.nodes) && n in cfg.nodes && GraphIsLinks(cfg, links, g) && (h, n.id) in g
    requires forall k | k in links :: AtRest(links[k])
    ensures h in DevicePeers(cfg.nodes, links, n)
  {
    var a, b :| ActiveLink(cfg, links, a, b) && (h, n.id) == (a.id, b.id);
    assert b == n && {n, a} == {a, b};
    PeerDevice(cfg.nodes, links, n, a);
  }

  /** So the daemon's build does not raise. */
  lemma DaemonResolves(cfg: Config, links: map<LinkKey, LinkState>, g: SP.Graph, paths: SD.Paths,
                       d: SD.StaticRoutingDaemon, refs: seq<NodeRef>)
    requires UniqueIds(cfg.nodes) && GraphIsLinks(cfg, links, g) && forall k | k in links :: AtRest(links[k])
    requires |refs| == |d.topology.nodes|
    requires forall i | 0 <= i < |refs| ::
               && refs[i] in cfg.nodes && refs[i].id == d.topology.nodes[i].id
               && d.topology.Ports(refs[i].id).Keys == DevicePeers(cfg.nodes, links, refs[i])
    requires forall i | 0 <= i < |d.topology.Dests()| ::
               && d.topology.Dests()[i].id in paths
               && SP.PathOracle(g, d.topology.Dests()[i].id, paths[d.topology.Dests()[i].id])
    ensures d.PathsResolve(paths)
  {
    forall i | 0 <= i < |d.topology.nodes|
      ensures NR.Resolvable(SD.SignatureOf(paths, d.topology.Dests(), d.topology.nodes[i].id),
                            d.topology.Ports(d.topology.nodes[i].id))
    {
      HopsResolve(cfg, links, g, d.topology.Dests(), paths, refs[i], d.topology.Ports(refs[i].id));
    }
  }

  /** What the daemon's update() leaves is the node a round asks for, and if the node was in order, with the same
      destinations when there are as many, it is again and its kernel holds its table. */
  lemma DaemonUpdates(d: SD.StaticRoutingDaemon, n: SD.Node, paths: SD.Paths, before: NR.State)
    requires d.topology.active && d.UpdatedNode(n, before.view, paths) && before.view.ifaces == d.topology.Ports(n.id)
    requires NR.DistinctDests(d.topology.Dests())
    requires |d.topology.Dests()| == |before.dsts| ==> d.topology.Dests() == before.dsts
    ensures var sig := SD.SignatureOf(paths, d.topology.Dests(), n.id);
            NodeUpdated(n.Src(), before.view, d.topology.Dests(), sig, d.View(n))
    ensures NR.Inv(n.Src(), before) ==>
              NR.Inv(n.Src(), NR.State(d.View(n), {}, d.topology.Dests())) && NR.Installed(d.View(n))
  {
    hide NR.Inv, NR.Installed, NR.Updated, NR.Install;
    var dsts, sig := d.topology.Dests(), SD.SignatureOf(paths, d.topology.Dests(), n.id);
    if NR.Inv(n.Src(), before) {
      NR.UpdateStep(n.Src(), before, dsts, sig);
      assert d.View(n) == NR.Updated(n.Src(), before.view, dsts, sig);
    }
  }

  // ---- Destinations ----

  /** A node as a destination of the address plan. */
  function DestOf(n: NodeRef, name: string): NR.Dest
    requires n.id < AP.MAX_ID
  {
    NR.Dest(n.id, name, IpUtils.QuadDot(AP.Slash15(n) + Bits.Zeros(17)))
  }

  /** The plan's destinations are distinct. */
  lemma PlannedDests(refs: seq<NodeRef>, dests: seq<NR.Dest>)
    requires |refs| == |dests| && UniqueIds(set n | n in refs)
    requires forall i, j | 0 <= i < j < |refs| :: refs[i] != refs[j]
    requires forall i | 0 <= i < |refs| :: refs[i].id < AP.MAX_ID && dests[i] == DestOf(refs[i], dests[i].name)
    ensures NR.DistinctDests(dests)
  {
    forall i, j | 0 <= i < j < |dests| ensures dests[i].id != dests[j].id && dests[i].summary != dests[j].summary {
      assert refs[i] in refs && refs[j] in refs;
      if dests[i].summary == dests[j].summary {
        AP.SummariesDistinct(refs[i], refs[j]);
      }
    }
  }

  lemma {:induction false} SomeDests(flags: seq<bool>, all: seq<NR.Dest>)
    requires |flags| == |all| && NR.DistinctDests(all)
    ensures NR.DistinctDests(SD.DestsOf(flags, all))
    ensures forall d | d in SD.DestsOf(flags, all) :: d in all
  {
    if all != [] {
      var n := |all| - 1;
      SomeDests(flags[..n], all[..n]);
      var rest := SD.DestsOf(flags[..n], all[..n]);
      forall i | 0 <= i < |rest| ensures rest[i].id != all[n].id && rest[i].summary != all[n].summary {
        assert rest[i] in all[..n];
      }
    }
  }

  // ---- Rounds ----

  /** What stays: the nodes, their names and summaries, and the list of possible destinations. */
  datatype World = World(cfg: Config, sources: map<nat, NR.Source>, dests: seq<NR.Dest>)

  /** The links, the nodes under the static daemon, which of the destinations are in use, and what the last build
      was made from: the flags, the graph and the paths of that moment. */
  datatype System = System(links: map<LinkKey, LinkState>, nodes: map<nat, NR.State>, flags: seq<bool>,
                           built: seq<bool>, graph: SP.Graph, paths: SD.Paths)

  /** One time step: what is reported, what the tick does with it, the devices it brings to each node, the routing
      graph after it, and what the path library answers if it is asked. */
  datatype Round = Round(reports: seq<Report>, measure: LinkKey -> Measure,
                         added: set<LinkKey>, updated: set<LinkKey>, removed: set<LinkKey>,
                         devices: map<nat, NR.Devices>, graph: SP.Graph, paths: SD.Paths)

  ghost predicate WorldOk(w: World) {
    && UniqueIds(w.cfg.nodes) && NR.DistinctDests(w.dests)
    && forall n | n in w.cfg.nodes :: n.id in w.sources && w.sources[n.id].id == n.id
  }

  /** The destinations of the last build. */
  function Dests(w: World, s: System): seq<NR.Dest>
    requires |s.built| == |w.dests|
  {
    SD.DestsOf(s.built, w.dests)
  }

  /** One node between time steps: nothing is pending, and its devices are those of the wired links. */
  ghost predicate NodeHolds(w: World, s: System, n: NodeRef)
    requires WorldOk(w) && n in w.cfg.nodes && |s.built| == |w.dests|
  {
    && n.id in s.nodes && NR.Inv(w.sources[n.id], s.nodes[n.id]) && s.nodes[n.id].pending == {}
    && s.nodes[n.id].view.ifaces.Keys == DevicePeers(w.cfg.nodes, s.links, n)
    && s.nodes[n.id].dsts == Dests(w, s)
  }

  function Views(s: System): map<nat, NR.NodeView> {
    map u | u in s.nodes :: s.nodes[u].view
  }

  ghost predicate NodesKnown(w: World, s: System) {
    forall u | u in s.nodes :: exists n :: n in w.cfg.nodes && n.id == u
  }

  /** Flags are only ever raised. */
  predicate Raised(before: seq<bool>, after: seq<bool>) {
    |before| == |after| && forall i | 0 <= i < |before| :: before[i] ==> after[i]
  }

  /** The system between time steps. The kernels are those of the last build, whose graph had the edges of today. */
  ghost predicate Holds(w: World, s: System)
    requires WorldOk(w)
  {
    && |s.built| == |w.dests| && Raised(s.built, s.flags) && (forall k | k in s.links :: AtRest(s.links[k]))
    && (forall n | n in w.cfg.nodes :: NodeHolds(w, s, n)) && NodesKnown(w, s)
    && GraphIsLinks(w.cfg, s.links, s.graph) && D.Converged(s.graph, Dests(w, s), s.paths, Views(s))
  }

  /** update() on one node, which raises if a next hop has no device. */
  ghost predicate NodeUpdated(src: NR.Source, v: NR.NodeView, dsts: seq<NR.Dest>, sig: NR.Signature, v': NR.NodeView)
    requires |sig| == |dsts|
  {
    NR.Resolvable(sig, v.ifaces) ==> v' == NR.Updated(src, v, dsts, sig)
  }

  /** The devices of one node change, then the daemon updates it. */
  ghost predicate NodeRound(w: World, s: System, r: Round, s': System, n: NodeRef)
    requires WorldOk(w) && n in w.cfg.nodes && |s'.built| == |w.dests|
  {
    var u, gone := n.id, GoneDevices(w.cfg.nodes, s.links, r.removed, n);
    && u in s.nodes && u in s'.nodes && u in r.devices
    && NR.NamedByPeer(r.devices[u]) && r.devices[u].Keys == PeersAmong(w.cfg.nodes, r.added, n)
    && s'.nodes[u].pending == {} && s'.nodes[u].dsts == Dests(w, s')
    && NodeUpdated(w.sources[u], NR.LinksChanged(s.nodes[u].view, gone, r.devices[u]), Dests(w, s'),
                   SD.SignatureOf(r.paths, Dests(w, s'), u), s'.nodes[u].view)
  }

  /** The library answers for the graph of the last build. */
  ghost predicate Answers(w: World, s: System)
    requires |s.built| == |w.dests|
  {
    forall i | 0 <= i < |Dests(w, s)| ::
      Dests(w, s)[i].id in s.paths && SP.PathOracle(s.graph, Dests(w, s)[i].id, s.paths[Dests(w, s)[i].id])
  }

  /** update_simulation updates the routing only if some link was added, updated or removed. */
  predicate Reroutes(r: Round) {
    r.added + r.updated + r.removed != {}
  }

  ghost predicate Rerouted(w: World, s: System, r: Round, s': System)
    requires WorldOk(w)
  {
    && s'.built == s'.flags && s'.graph == r.graph && s'.paths == r.paths && |s'.built| == |w.dests|
    && Answers(w, s') && (forall n | n in w.cfg.nodes :: NodeRound(w, s, r, s', n)) && NodesKnown(w, s')
  }

  predicate Quiet(s: System, s': System) {
    s'.nodes == s.nodes && s'.built == s.built && s'.graph == s.graph && s'.paths == s.paths
  }

  /** A tick, and the update behind it if there is one. The reports are in accord and destinations are only ever
      added; the distances, and with them the weights of the graph, may change in every tick. */
  ghost predicate RoundOf(w: World, s: System, r: Round, s': System)
    requires WorldOk(w)
  {
    && TickedAll(w.cfg, s.links, s'.links, r.added, r.removed, r.reports, r.measure)
    && (forall k :: UpdatedAt(w.cfg, s.links, r.updated, r.reports, r.measure, k))
    && InAccord(w.cfg, s.links, r.reports) && GraphOf(w.cfg, s'.links, r.reports, r.graph)
    && Raised(s.flags, s'.flags)
    && if Reroutes(r) then Rerouted(w, s, r, s') else Quiet(s, s')
  }

  /** A time step updates the routing exactly if some link came, went or returned, or another delay or capacity of
      it is to be pushed. */
  lemma ReroutesExact(w: World, s: System, r: Round, s': System)
    requires WorldOk(w) && RoundOf(w, s, r, s')
    ensures Reroutes(r) <==> exists k :: !PassedBy(w.cfg, s.links, s'.links, r.reports, k)
  {
    forall k ensures PassedBy(w.cfg, s.links, s'.links, r.reports, k) <==> k !in r.added + r.updated + r.removed {
      TickedThere(w, s, r, s', k);
      PassedByExact(w.cfg, s.links, s'.links, r.added, r.updated, r.removed, r.reports, r.measure, k);
    }
    hide RoundOf, PassedBy, WorldOk;
    var changed := r.added + r.updated + r.removed;
    if changed != {} {
      var k :| k in changed;
      assert !PassedBy(w.cfg, s.links, s'.links, r.reports, k);
    }
  }

  lemma TickedThere(w: World, s: System, r: Round, s': System, k: LinkKey)
    requires WorldOk(w) && RoundOf(w, s, r, s')
    ensures TickedAt(w.cfg, s.links, s'.links, r.added, r.removed, r.reports, r.measure, k)
    ensures UpdatedAt(w.cfg, s.links, r.updated, r.reports, r.measure, k)
    ensures k in s.links ==> AtRest(s.links[k]) && !Quarrels(s.links[k], ReportsFor(r.reports, k))
  {
    hide TickedAt, UpdatedAt, AtRest, Quarrels, InAccord, GraphOf, Rerouted, Quiet;
  }

  // ---- Rerouting rounds ----

  /** A round keeps one node in order and leaves it with the table of a build from scratch in its kernel. */
  lemma NodeRoundKeeps(w: World, s: System, r: Round, s': System, n: NodeRef)
    requires WorldOk(w) && n in w.cfg.nodes && |s.built| == |w.dests| && Raised(s.built, s'.built)
    requires TickedAll(w.cfg, s.links, s'.links, r.added, r.removed, r.reports, r.measure)
    requires GraphIsLinks(w.cfg, s'.links, r.graph) && s'.graph == r.graph && s'.paths == r.paths && Answers(w, s')
    requires NodeHolds(w, s, n) && NodeRound(w, s, r, s', n)
    ensures NodeHolds(w, s', n) && NodeConverged(w, s', n)
  {
    hide TickedAll, GraphIsLinks, NR.Inv, NR.Installed, NR.FreshTable, SP.PathOracle;
    var u, src, dsts := n.id, w.sources[n.id], Dests(w, s');
    var gone, devices := GoneDevices(w.cfg.nodes, s.links, r.removed, n), r.devices[n.id];
    var sig := SD.SignatureOf(r.paths, dsts, u);
    TickIsEnabled(w.cfg, s.links, s'.links, r.added, r.removed, r.reports, r.measure, n, s.nodes[u], devices);
    var e := NR.Links(gone, devices);
    var mid := NR.Step(src, s.nodes[u], e);
    NR.LinksStep(src, s.nodes[u], gone, devices);
    Rested(w.cfg, s.links, s'.links, r.added, r.removed, r.reports, r.measure);
    HopsResolve(w.cfg, s'.links, r.graph, dsts, r.paths, n, mid.view.ifaces);
    SD.GrowOnlyDests(s.built, s'.built, w.dests);
    SomeDests(s'.built, w.dests);
    NR.UpdateStep(src, mid, dsts, sig);
    NamedDevices(src, s'.nodes[u]);
  }

  lemma NamedDevices(src: NR.Source, s: NR.State)
    requires NR.Inv(src, s)
    ensures NR.NamedByPeer(s.view.ifaces)
  {
  }

  lemma Rested(cfg: Config, before: map<LinkKey, LinkState>, after: map<LinkKey, LinkState>,
               added: set<LinkKey>, removed: set<LinkKey>, reports: seq<Report>, measure: LinkKey -> Measure)
    requires TickedAll(cfg, before, after, added, removed, reports, measure)
    ensures UniqueIds(cfg.nodes) && forall k | k in after :: AtRest(after[k])
  {
  }

  /** What Converged asks of one node. */
  ghost predicate NodeConverged(w: World, s: System, n: NodeRef)
    requires WorldOk(w) && n in w.cfg.nodes && |s.built| == |w.dests|
  {
    var dsts, sig := Dests(w, s), SD.SignatureOf(s.paths, Dests(w, s), n.id);
    && n.id in s.nodes && NR.NamedByPeer(s.nodes[n.id].view.ifaces) && NR.Installed(s.nodes[n.id].view)
    && NR.Resolvable(sig, s.nodes[n.id].view.ifaces)
    && s.nodes[n.id].view.table == NR.FreshTable(w.sources[n.id], dsts, sig, s.nodes[n.id].view.ifaces)
  }

  lemma ConvergedFrom(w: World, s: System)
    requires WorldOk(w) && |s.built| == |w.dests| && GraphIsLinks(w.cfg, s.links, s.graph) && Answers(w, s)
    requires (forall n | n in w.cfg.nodes :: NodeConverged(w, s, n)) && NodesKnown(w, s)
    ensures D.Converged(s.graph, Dests(w, s), s.paths, Views(s))
  {
    hide NR.Installed, NR.FreshTable, NR.Resolvable, SP.PathOracle;
    SomeDests(s.built, w.dests);
    forall u | u in s.nodes
      ensures var v, sig := s.nodes[u].view, SD.SignatureOf(s.paths, Dests(w, s), u);
              && NR.NamedByPeer(v.ifaces) && NR.Installed(v) && NR.Resolvable(sig, v.ifaces)
              && exists name, summary ::
                   v.table == NR.FreshTable(NR.Source(u, name, summary), Dests(w, s), sig, v.ifaces)
    {
      var n :| n in w.cfg.nodes && n.id == u;
      assert NodeConverged(w, s, n);
      var src := w.sources[u];
      assert src == NR.Source(u, src.name, src.summary);
    }
    forall e | e in s.graph ensures e.0 in s.nodes {
      var a, b :| ActiveLink(w.cfg, s.links, a, b) && e == (a.id, b.id);
      assert NodeConverged(w, s, a);
    }
  }

  lemma ReroutedHolds(w: World, s: System, r: Round, s': System)
    requires WorldOk(w) && Holds(w, s) && RoundOf(w, s, r, s') && Reroutes(r)
    ensures Holds(w, s')
  {
    hide TickedAll, GraphOf, GraphIsLinks, NodeRound, NodeHolds, NodeConverged, InAccord, D.Converged, Answers, AtRest;
    EdgesAreLinks(w.cfg, s.links, s'.links, r.added, r.removed, r.reports, r.measure, r.graph);
    Rested(w.cfg, s.links, s'.links, r.added, r.removed, r.reports, r.measure);
    forall n | n in w.cfg.nodes ensures NodeHolds(w, s', n) && NodeConverged(w, s', n) {
      NodeRoundKeeps(w, s, r, s', n);
    }
    ConvergedFrom(w, s');
  }

  // ---- Quiet rounds ----

  /** A tick that adds and removes nothing leaves the active links and the devices as they were. */
  lemma QuietLinks(cfg: Config, before: map<LinkKey, LinkState>, after: map<LinkKey, LinkState>,
                   reports: seq<Report>, measure: LinkKey -> Measure)
    requires TickedAll(cfg, before, after, {}, {}, reports, measure)
    ensures forall a, b :: ActiveLink(cfg, after, a, b) <==> ActiveLink(cfg, before, a, b)
    ensures forall n | n in cfg.nodes :: DevicePeers(cfg.nodes, after, n) == DevicePeers(cfg.nodes, before, n)
  {
    forall a, b ensures ActiveLink(cfg, after, a, b) <==> ActiveLink(cfg, before, a, b) {
      if Both(cfg.nodes, a, b) {
        KeyCases(cfg, before, after, {}, {}, reports, measure, {a, b});
      }
    }
    forall n | n in cfg.nodes ensures DevicePeers(cfg.nodes, after, n) == DevicePeers(cfg.nodes, before, n) {
      TickPartitionsDevices(cfg, before, after, {}, {}, reports, measure, n);
    }
  }

  lemma SameLinksSameGraph(cfg: Config, before: map<LinkKey, LinkState>, after: map<LinkKey, LinkState>, g: SP.Graph)
    requires GraphIsLinks(cfg, before, g)
    requires forall a, b :: ActiveLink(cfg, after, a, b) <==> ActiveLink(cfg, before, a, b)
    ensures GraphIsLinks(cfg, after, g)
  {
  }

  /** Nothing of what was built depends on the distances of today. */
  lemma QuietHolds(w: World, s: System, r: Round, s': System)
    requires WorldOk(w) && Holds(w, s) && RoundOf(w, s, r, s') && !Reroutes(r)
    ensures Holds(w, s')
  {
    assert r.added == {} && r.removed == {};
    hide TickedAll, GraphOf, GraphIsLinks, InAccord, D.Converged, AtRest, ActiveLink, NR.Inv;
    QuietLinks(w.cfg, s.links, s'.links, r.reports, r.measure);
    SameLinksSameGraph(w.cfg, s.links, s'.links, s.graph);
    Rested(w.cfg, s.links, s'.links, r.added, r.removed, r.reports, r.measure);
  }

  /** Every round keeps the system in order, and the graph of today has the edges of the last build. */
  lemma RoundHolds(w: World, s: System, r: Round, s': System)
    requires WorldOk(w) && Holds(w, s) && RoundOf(w, s, r, s')
    ensures Holds(w, s') && GraphIsLinks(w.cfg, s'.links, r.graph) && r.graph.Keys == s'.graph.Keys
  {
    hide Holds, TickedAll, Rerouted;
    TodaysGraph(w, s, r, s');
    if Reroutes(r) {
      ReroutedHolds(w, s, r, s');
    } else {
      QuietHolds(w, s, r, s');
    }
    HoldsGraph(w, s');
    SameEdges(w.cfg, s'.links, r.graph, s'.graph);
  }

  lemma TodaysGraph(w: World, s: System, r: Round, s': System)
    requires WorldOk(w) && RoundOf(w, s, r, s')
    ensures GraphIsLinks(w.cfg, s'.links, r.graph)
  {
    hide TickedAll, GraphOf, GraphIsLinks, InAccord, Rerouted;
    EdgesAreLinks(w.cfg, s.links, s'.links, r.added, r.removed, r.reports, r.measure, r.graph);
  }

  lemma HoldsGraph(w: World, s: System)
    requires WorldOk(w) && Holds(w, s)
    ensures GraphIsLinks(w.cfg, s.links, s.graph) && |s.built| == |w.dests|
    ensures D.Converged(s.graph, Dests(w, s), s.paths, Views(s))
  {
  }

  lemma SameEdges(cfg: Config, links: map<LinkKey, LinkState>, g: SP.Graph, h: SP.Graph)
    requires GraphIsLinks(cfg, links, g) && GraphIsLinks(cfg, links, h)
    ensures g.Keys == h.Keys
  {
    hide ActiveLink;
    forall e | e in g ensures e in h {
      var a, b :| ActiveLink(cfg, links, a, b) && e == (a.id, b.id);
    }
    forall e | e in h ensures e in g {
      var a, b :| ActiveLink(cfg, links, a, b) && e == (a.id, b.id);
    }
  }

  // ---- Delivery ----

  /** A walk over active links. */
  ghost predicate LinkWalk(cfg: Config, links: map<LinkKey, LinkState>, q: seq<nat>) {
    q != [] && forall i | 0 <= i < |q| - 1 :: Joined(cfg, links, q[i], q[i + 1])
  }

  ghost predicate Joined(cfg: Config, links: map<LinkKey, LinkState>, x: nat, y: nat) {
    exists a, b :: ActiveLink(cfg, links, a, b) && a.id == x && b.id == y
  }

  lemma JoinedIsEdge(cfg: Config, links: map<LinkKey, LinkState>, g: SP.Graph, x: nat, y: nat)
    requires GraphIsLinks(cfg, links, g)
    ensures Joined(cfg, links, x, y) <==> (x, y) in g
  {
    if (x, y) in g {
      var a, b :| ActiveLink(cfg, links, a, b) && (x, y) == (a.id, b.id);
    }
  }

  lemma WalksArePaths(cfg: Config, links: map<LinkKey, LinkState>, g: SP.Graph, q: seq<nat>)
    requires GraphIsLinks(cfg, links, g)
    ensures LinkWalk(cfg, links, q) <==> SP.IsPath(g, q)
  {
    hide GraphIsLinks, Joined;
    forall i | 0 <= i < |q| - 1 ensures Joined(cfg, links, q[i], q[i + 1]) <==> (q[i], q[i + 1]) in g {
      JoinedIsEdge(cfg, links, g, q[i], q[i + 1]);
    }
    if LinkWalk(cfg, links, q) {
      forall i | 0 <= i < |q| - 1 ensures (q[i], q[i + 1]) in g {
        assert Joined(cfg, links, q[i], q[i + 1]);
      }
    }
    if SP.IsPath(g, q) {
      forall i | 0 <= i < |q| - 1 ensures Joined(cfg, links, q[i], q[i + 1]) {
        assert (q[i], q[i + 1]) in g;
      }
    }
  }

  /** The walk joins two nodes. */
  ghost predicate Reaches(cfg: Config, links: map<LinkKey, LinkState>, q: seq<nat>, u: nat, d: nat) {
    LinkWalk(cfg, links, q) && q[0] == u && q[|q| - 1] == d
  }

  // ---- What packets do after a round ----

  /** The destinations of a build are those with a raised flag. */
  lemma {:induction false} DestsByFlag(flags: seq<bool>, all: seq<NR.Dest>)
    requires |flags| == |all|
    ensures forall i | 0 <= i < |all| && flags[i] :: all[i] in SD.DestsOf(flags, all)
    ensures forall d | d in SD.DestsOf(flags, all) :: exists i :: 0 <= i < |all| && flags[i] && all[i] == d
  {
    if all != [] {
      var n := |all| - 1;
      DestsByFlag(flags[..n], all[..n]);
      forall d | d in SD.DestsOf(flags, all) ensures exists i :: 0 <= i < |all| && flags[i] && all[i] == d {
        if d in SD.DestsOf(flags[..n], all[..n]) {
          var i :| 0 <= i < n && flags[..n][i] && all[..n][i] == d;
          assert flags[i] && all[i] == d;
        } else {
          assert flags[n] && all[n] == d;
        }
      }
    }
  }

  /** A table that was built without a destination has no route to it. */
  lemma NoRoute(v: NR.NodeView, src: NR.Source, dsts: seq<NR.Dest>, sig: NR.Signature, d: NR.Dest)
    requires |sig| == |dsts| && NR.Resolvable(sig, v.ifaces) && NR.Installed(v)
    requires v.table == NR.FreshTable(src, dsts, sig, v.ifaces)
    requires forall e | e in dsts :: e.summary != d.summary
    ensures D.NextDevice(v, d).None?
  {
    var slots, p := NR.FreshSlots(src, dsts, sig, v.ifaces), RouteDiff.Prefix(d.summary, NR.ROUTE_PREFIX);
    forall k | 0 <= k < |v.table| ensures RouteDiff.PrefixOf(v.table[k]) != p {
      NR.CollectMembers(slots, v.table[k]);
      var j :| 0 <= j < |slots| && slots[j] == Some(v.table[k]);
      assert dsts[j] in dsts;
    }
  }

  lemma OtherSummaries(w: World, built: seq<bool>, i: nat)
    requires NR.DistinctDests(w.dests) && i < |w.dests| == |built| && !built[i]
    ensures forall e | e in SD.DestsOf(built, w.dests) :: e.summary != w.dests[i].summary
  {
    DestsByFlag(built, w.dests);
    forall e | e in SD.DestsOf(built, w.dests) ensures e.summary != w.dests[i].summary {
      var j :| 0 <= j < |w.dests| && built[j] && w.dests[j] == e;
    }
  }

  lemma ConvergedTable(g: SP.Graph, dsts: seq<NR.Dest>, paths: SD.Paths, views: map<nat, NR.NodeView>, u: nat)
    returns (src: NR.Source)
    requires D.Converged(g, dsts, paths, views) && u in views
    ensures NR.Installed(views[u]) && NR.Resolvable(SD.SignatureOf(paths, dsts, u), views[u].ifaces)
    ensures views[u].table == NR.FreshTable(src, dsts, SD.SignatureOf(paths, dsts, u), views[u].ifaces)
  {
    hide NR.FreshTable, NR.Installed, NR.Resolvable, SP.PathOracle;
    var sig := SD.SignatureOf(paths, dsts, u);
    var name, summary :| views[u].table == NR.FreshTable(NR.Source(u, name, summary), dsts, sig, views[u].ifaces);
    src := NR.Source(u, name, summary);
  }

  lemma UnbuiltHasNoRoute(w: World, s: System, i: nat, u: nat)
    requires WorldOk(w) && Holds(w, s) && i < |w.dests| == |s.built| && !s.built[i] && u in s.nodes
    ensures D.NextDevice(Views(s)[u], w.dests[i]).None?
  {
    hide Holds, NR.FreshTable, NR.Installed, D.NextDevice, NR.Resolvable, D.Converged, GraphIsLinks;
    HoldsGraph(w, s);
    OtherSummaries(w, s.built, i);
    var src := ConvergedTable(s.graph, Dests(w, s), s.paths, Views(s), u);
    NoRoute(Views(s)[u], src, Dests(w, s), SD.SignatureOf(s.paths, Dests(w, s), u), w.dests[i]);
  }

  /** A node has a route to a destination exactly when the last build knew of the destination and active links lead
      there; then its packets arrive, over active links and without a repetition. */
  ghost predicate Arrives(w: World, s: System, i: nat, u: nat)
    requires i < |w.dests| == |s.built| && u in s.nodes
  {
    var d, views := w.dests[i], Views(s);
    && (D.NextDevice(views[u], d).Some?
        <==> s.built[i] && u != d.id && exists q :: Reaches(w.cfg, s.links, q, u, d.id))
    && (D.NextDevice(views[u], d).Some? ==>
          exists q :: && D.Carries(views, d, q) && Reaches(w.cfg, s.links, q, u, d.id)
                      && forall a, b | 0 <= a < b < |q| :: q[a] != q[b])
  }

  /** All packets for the destination go on shortest paths of the graph. */
  ghost predicate AllShortest(w: World, s: System, g: SP.Graph, i: nat)
    requires i < |w.dests|
  {
    forall q | D.Carries(Views(s), w.dests[i], q) :: SP.IsShortest(g, q, q[0], w.dests[i].id)
  }

  lemma SystemDelivers(w: World, s: System, i: nat, u: nat)
    requires WorldOk(w) && Holds(w, s) && i < |w.dests| == |s.built| && u in s.nodes
    ensures Arrives(w, s, i, u)
  {
    hide Holds, D.Converged, GraphIsLinks, WorldOk, D.NextDevice, Reaches;
    HoldsGraph(w, s);
    if s.built[i] {
      var k := DestIndex(w, s, i);
      BuiltDelivers(w, s, k, u);
    } else {
      UnbuiltHasNoRoute(w, s, i, u);
    }
  }

  lemma DestIndex(w: World, s: System, i: nat) returns (k: nat)
    requires i < |w.dests| == |s.built| && s.built[i]
    ensures k < |Dests(w, s)| && Dests(w, s)[k] == w.dests[i]
  {
    DestsByFlag(s.built, w.dests);
    k :| 0 <= k < |Dests(w, s)| && Dests(w, s)[k] == w.dests[i];
  }

  lemma BuiltDelivers(w: World, s: System, k: nat, u: nat)
    requires |s.built| == |w.dests| && GraphIsLinks(w.cfg, s.links, s.graph)
    requires D.Converged(s.graph, Dests(w, s), s.paths, Views(s)) && k < |Dests(w, s)| && u in s.nodes
    ensures var d, views := Dests(w, s)[k], Views(s);
            && (D.NextDevice(views[u], d).Some? <==> u != d.id && exists q :: Reaches(w.cfg, s.links, q, u, d.id))
            && (D.NextDevice(views[u], d).Some? ==>
                  exists q :: && D.Carries(views, d, q) && Reaches(w.cfg, s.links, q, u, d.id)
                              && forall a, b | 0 <= a < b < |q| :: q[a] != q[b])
  {
    hide D.Converged, GraphIsLinks, LinkWalk, D.NextDevice;
    var dsts, views := Dests(w, s), Views(s);
    var d := dsts[k];
    if u == d.id {
      D.KernelHop(s.graph, dsts, s.paths, views, k, u);
    } else {
      D.PacketsArrive(s.graph, dsts, s.paths, views, k, u);
      if D.NextDevice(views[u], d).Some? {
        var q :| && D.Carries(views, d, q) && SP.IsShortest(s.graph, q, u, d.id)
                 && forall a, b | 0 <= a < b < |q| :: q[a] != q[b];
        WalksArePaths(w.cfg, s.links, s.graph, q);
        assert Reaches(w.cfg, s.links, q, u, d.id);
      }
      if q :| Reaches(w.cfg, s.links, q, u, d.id) {
        WalksArePaths(w.cfg, s.links, s.graph, q);
        GraphFits(w.cfg, s.links, s.graph);
        SP.ReverseCost(s.graph, q);
        assert SP.Joins(s.graph, SP.Reverse(q), d.id, u);
      }
    }
  }

  lemma GraphFits(cfg: Config, links: map<LinkKey, LinkState>, g: SP.Graph)
    requires GraphIsLinks(cfg, links, g)
    ensures SP.WellFormed(g)
  {
  }

  /** Under weights of the same edges the packets go on shortest paths exactly when no edge offers a shortcut, which
      can be seen from what is carried and the weights; and they do under the weights of the last build. */
  lemma SystemShortest(w: World, s: System, h: SP.Graph, i: nat)
    requires WorldOk(w) && Holds(w, s) && i < |w.dests| == |s.built| && s.built[i] && h.Keys == s.graph.Keys
    ensures AllShortest(w, s, h, i) <==> D.NoCarriedShortcut(h, Views(s), w.dests[i])
    ensures AllShortest(w, s, s.graph, i)
  {
    hide Holds, D.Converged, GraphIsLinks, WorldOk, D.NoCarriedShortcut, D.Carries, SP.IsShortest;
    HoldsGraph(w, s);
    var k := DestIndex(w, s, i);
    D.CarriedStaysShortest(s.graph, h, Dests(w, s), s.paths, Views(s), k);
    forall q | D.Carries(Views(s), w.dests[i], q) ensures SP.IsShortest(s.graph, q, q[0], w.dests[i].id) {
      D.CarriedIsShortest(s.graph, Dests(w, s), s.paths, Views(s), k, q);
    }
  }

  lemma BuiltFromGraph(w: World, s: System, r: Round, s': System)
    requires WorldOk(w) && RoundOf(w, s, r, s')
    ensures if Reroutes(r) then s'.graph == r.graph && s'.built == s'.flags else s'.graph == s.graph
  {
    hide WorldOk, TickedAll, InAccord, GraphOf, Answers, NodesKnown, UpdatedAt;
  }

  /** After every round packets arrive wherever active links lead; they go on shortest paths of today exactly when
      no edge of today's graph offers a shortcut, and always if the round updated the routing. */
  lemma RoundDelivers(w: World, s: System, r: Round, s': System, i: nat, u: nat)
    requires WorldOk(w) && Holds(w, s) && RoundOf(w, s, r, s') && i < |w.dests| && u in s'.nodes
    ensures |s'.built| == |w.dests| && Arrives(w, s', i, u)
    ensures s'.built[i] ==> (AllShortest(w, s', r.graph, i) <==> D.NoCarriedShortcut(r.graph, Views(s'), w.dests[i]))
    ensures s'.built[i] && (Reroutes(r) || r.graph == s.graph) ==> AllShortest(w, s', r.graph, i)
    ensures Reroutes(r) ==> s'.built == s'.flags
  {
    hide Holds, RoundOf, GraphIsLinks, D.Converged, WorldOk, Arrives, AllShortest, D.NoCarriedShortcut;
    BuiltFromGraph(w, s, r, s');
    RoundHolds(w, s, r, s');
    HoldsGraph(w, s');
    SystemDelivers(w, s', i, u);
    if s'.built[i] {
      SystemShortest(w, s', r.graph, i);
    }
  }

  // ---- Weights ----

  /** What the routing graph may be weighed by. */
  datatype Preference = HopsPreferIsls | HopsNoPreference | LatencyPreferIsls | LatencyNoPreference

  function Weight(pref: Preference, kind: LinkType, length: real): real {
    var base := if pref.HopsPreferIsls? || pref.HopsNoPreference? then 1.0 else length;
    if !kind.InterSatelliteLink? then base
    else if pref.HopsPreferIsls? then 0.5
    else if pref.LatencyPreferIsls? then base * 0.1
    else base
  }

  ghost predicate WeighsAs(pref: Preference, kinds: map<(nat, nat), LinkType>, lengths: map<(nat, nat), real>,
                           g: SP.Graph)
  {
    forall e | e in g :: e in kinds && e in lengths && g[e] == Weight(pref, kinds[e], lengths[e])
  }

  lemma HopsSameGraph(pref: Preference, kinds: map<(nat, nat), LinkType>, before: map<(nat, nat), real>,
                      after: map<(nat, nat), real>, g: SP.Graph, h: SP.Graph)
    requires pref.HopsPreferIsls? || pref.HopsNoPreference?
    requires WeighsAs(pref, kinds, before, g) && WeighsAs(pref, kinds, after, h) && g.Keys == h.Keys
    ensures g == h
  {
    forall e | e in h ensures e in g && g[e] == h[e] {
      assert e in g.Keys;
    }
  }

  /** Hops do not change with the distances, so with a hop preference a quiet round leaves all packets on shortest
      paths. */
  lemma QuietHopsShortest(w: World, s: System, r: Round, s': System, i: nat, pref: Preference,
                          kinds: map<(nat, nat), LinkType>, before: map<(nat, nat), real>, after: map<(nat, nat), real>)
    requires WorldOk(w) && Holds(w, s) && RoundOf(w, s, r, s') && !Reroutes(r)
    requires pref.HopsPreferIsls? || pref.HopsNoPreference?
    requires WeighsAs(pref, kinds, before, s.graph) && WeighsAs(pref, kinds, after, r.graph)
    requires i < |w.dests| == |s'.built| && s'.built[i]
    ensures AllShortest(w, s', r.graph, i)
  {
    hide Holds, RoundOf, GraphIsLinks, D.Converged, WorldOk, AllShortest, D.NoCarriedShortcut;
    BuiltFromGraph(w, s, r, s');
    RoundHolds(w, s, r, s');
    HopsSameGraph(pref, kinds, before, after, s.graph, r.graph);
    SystemShortest(w, s', r.graph, i);
  }

  // ---- Every run ----

  ghost predicate RunOf(w: World, systems: seq<System>, rounds: seq<Round>)
    requires WorldOk(w)
  {
    && |systems| == |rounds| + 1
    && forall k | 0 <= k < |rounds| :: RoundOf(w, systems[k], rounds[k], systems[k + 1])
  }

  lemma RoundAt(w: World, systems: seq<System>, rounds: seq<Round>, k: nat)
    requires WorldOk(w) && RunOf(w, systems, rounds) && k < |rounds|
    ensures RoundOf(w, systems[k], rounds[k], systems[k + 1])
  {
  }

  lemma {:induction false} RunHolds(w: World, systems: seq<System>, rounds: seq<Round>, k: nat)
    requires WorldOk(w) && RunOf(w, systems, rounds) && Holds(w, systems[0]) && k <= |rounds|
    ensures Holds(w, systems[k])
  {
    hide RoundOf, Holds, WorldOk;
    if k > 0 {
      RunHolds(w, systems, rounds, k - 1);
      RoundAt(w, systems, rounds, k - 1);
      hide RunOf;
      RoundHolds(w, systems[k - 1], rounds[k - 1], systems[k]);
    }
  }

  /** Over any run of time steps, those that update the routing and those that do not, whatever links come and go:
      after each of them the packets arrive, and exactly without a shortcut on shortest paths. */
  lemma EveryRoundDelivers(w: World, systems: seq<System>, rounds: seq<Round>, k: nat, i: nat, u: nat)
    requires WorldOk(w) && RunOf(w, systems, rounds) && Holds(w, systems[0]) && k < |rounds|
    requires i < |w.dests| && u in systems[k + 1].nodes
    ensures |systems[k + 1].built| == |w.dests| && Arrives(w, systems[k + 1], i, u)
    ensures var s', h := systems[k + 1], rounds[k].graph;
            && (s'.built[i] ==> (AllShortest(w, s', h, i) <==> D.NoCarriedShortcut(h, Views(s'), w.dests[i])))
            && (Reroutes(rounds[k]) ==> s'.built == s'.flags)
            && (Reroutes(rounds[k]) && s'.built[i] ==> AllShortest(w, s', h, i))
  {
    hide RoundOf, Holds, WorldOk, Arrives, AllShortest, D.NoCarriedShortcut;
    RunHolds(w, systems, rounds, k);
    RoundAt(w, systems, rounds, k);
    hide RunOf;
    RoundDelivers(w, systems[k], rounds[k], systems[k + 1], i, u);
  }

  // ---- The start ----

  /** A node on which init() ran, with the devices of the links wired at the start. */
  ghost predicate NodeStarted(w: World, s: System, before: NR.State, n: NodeRef)
    requires WorldOk(w) && n in w.cfg.nodes && |s.built| == |w.dests|
  {
    && n.id in s.nodes && NR.Initial(before)
    && before.view.ifaces.Keys == DevicePeers(w.cfg.nodes, s.links, n)
    && s.nodes[n.id].pending == {} && s.nodes[n.id].dsts == Dests(w, s)
    && var sig := SD.SignatureOf(s.paths, Dests(w, s), n.id);
       NR.Resolvable(sig, before.view.ifaces) ==>
         s.nodes[n.id].view == NR.Initialized(w.sources[n.id], before.view, Dests(w, s), sig)
  }

  /** init() puts a node in order. */
  lemma NodeStarts(w: World, s: System, before: NR.State, n: NodeRef)
    requires WorldOk(w) && n in w.cfg.nodes && |s.built| == |w.dests|
    requires GraphIsLinks(w.cfg, s.links, s.graph) && Answers(w, s) && forall k | k in s.links :: AtRest(s.links[k])
    requires NodeStarted(w, s, before, n)
    ensures NodeHolds(w, s, n) && NodeConverged(w, s, n)
  {
    hide GraphIsLinks, SP.PathOracle, NR.Installed, NR.FreshTable;
    var src, dsts := w.sources[n.id], Dests(w, s);
    var sig := SD.SignatureOf(s.paths, dsts, n.id);
    HopsResolve(w.cfg, s.links, s.graph, dsts, s.paths, n, before.view.ifaces);
    SomeDests(s.built, w.dests);
    NR.RunKeepsInv(src, [before], [], 0);
    NR.InitStep(src, before, dsts, sig);
  }

  /** Links that are all active after the first sync, and init() on every node: the system is in order. */
  lemma StartHolds(w: World, s: System, reports: seq<Report>, measure: LinkKey -> Measure, before: map<nat, NR.State>)
    requires WorldOk(w) && |s.built| == |w.dests| && s.flags == s.built
    requires forall k :: StartedAt(w.cfg, s.links, reports, measure, k)
    requires forall k | k in s.links :: AtRest(s.links[k]) && s.links[k].isActive
    requires forall k | k <= w.cfg.nodes :: |ReportsFor(reports, k)| <= 1
    requires GraphOf(w.cfg, s.links, reports, s.graph) && Answers(w, s) && NodesKnown(w, s)
    requires forall n | n in w.cfg.nodes :: n.id in before && NodeStarted(w, s, before[n.id], n)
    ensures Holds(w, s)
  {
    hide NodeStarted, NodeHolds, NodeConverged, GraphOf, GraphIsLinks, StartedAt, Answers, D.Converged;
    StartEdges(w.cfg, s.links, reports, measure, s.graph);
    forall n | n in w.cfg.nodes ensures NodeHolds(w, s, n) && NodeConverged(w, s, n) {
      NodeStarts(w, s, before[n.id], n);
    }
    ConvergedFrom(w, s);
  }
}

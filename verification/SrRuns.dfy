/** Runs of the segment routing daemon, node by node: ticks, inits, stored paths and removals
    (satgonetem/routing/srmpls_daemon.py:360-506, 621-776, 1049-1190). */
module SrRuns {
  import opened Wrappers
  import opened RoutingEntries
  import StaticDaemon
  import opened SegmentRouting
  import opened LabelForwarding
  import opened SrRoutes
  import opened SrInstall
  import opened SrWriters
  import opened SrDelivery
  import opened SrPaths
  import opened SrJourneys

  /** A source without paths of the library's counts as one with none when a path is stored for it. */
  function Looked(v: View, src: nat): View {
    if src in v.paths then v else v.(paths := v.paths[src := map[]])
  }

  /** All that _update_sr_route_for_source sends: routes to ground stations only. */
  function StationRoutes(v: View, n: nat): seq<Line>
    requires WellFormed(v) && n in v.nodes && n in v.sids
  {
    StationsOnce(v);
    [OwnLine(v, n)] + RouteLines(Looked(v, n), PortsOf(v, n), n, v.stations)
  }

  function WithoutLabels(kernel: Kernel): Kernel {
    map key | key in kernel && key.ForAddress? :: kernel[key]
  }

  /** What happens to a network: an update of a running daemon or an init, each after devices went (by node, the
      peers they led to); a path stored or cleared for a source; a removal with the label routes of some nodes
      flushed. */
  datatype NetEvent =
    | Update(view: View, lost: map<nat, set<nat>>)
    | Init(view: View, lost: map<nat, set<nat>>)
    | Resend(view: View, src: nat)
    | Remove(flushed: seq<nat>)

  predicate Proper(e: NetEvent) {
    e.Remove? || WellFormed(e.view)
  }

  function LostAt(lost: map<nat, set<nat>>, n: nat): set<nat> {
    if n in lost then lost[n] else {}
  }

  function NodeNext(s: Memory, n: nat, e: NetEvent): Memory
    requires Proper(e)
  {
    match e
    case Update(v, lost) => Rebuild(s, LostAt(lost, n), WantForward(v, n), WantRoutes(v, n))
    case Init(v, lost) => Rebuild(Memory(s.kernel, [], []), LostAt(lost, n), WantForward(v, n), WantRoutes(v, n))
    case Resend(v, src) =>
      if n == src && n in v.stations && n in v.nodes && n in v.sids then
        Memory(Exec(s.kernel, StationRoutes(v, n)), s.forward, StationRoutes(v, n))
      else s
    case Remove(flushed) => Memory(if n in flushed then WithoutLabels(s.kernel) else s.kernel, [], [])
  }

  function NodeRun(s: Memory, n: nat, events: seq<NetEvent>): Memory
    requires AllProper(events)
  {
    if events == [] then s
    else NodeNext(NodeRun(s, n, events[..|events| - 1]), n, events[|events| - 1])
  }

  /** Only an update can do harm: it counts on what was sent before. */
  ghost predicate HarmlessAt(s: Memory, n: nat, e: NetEvent)
    requires Proper(e)
  {
    e.Update? ==> SrWriters.Harmless(s, LostAt(e.lost, n), WantForward(e.view, n), WantRoutes(e.view, n))
  }

  /** A ground station stays one, and has no forwarding lines. */
  predicate StationKept(s: Memory, n: nat, e: NetEvent) {
    !e.Remove? && n in e.view.stations ==> s.forward == []
  }

  lemma StationRoutesDistinct(v: View, n: nat)
    requires WellFormed(v) && n in v.nodes && n in v.sids
    ensures DistinctKeys(StationRoutes(v, n))
  {
    StationsOnce(v);
    RouteDistinct(Looked(v, n), PortsOf(v, n), n, v.stations);
    forall x | x in RouteLines(Looked(v, n), PortsOf(v, n), n, v.stations) ensures x.key.ForAddress? {
      RouteMembers(Looked(v, n), PortsOf(v, n), n, v.stations, x);
    }
    AppendDistinct([OwnLine(v, n)], RouteLines(Looked(v, n), PortsOf(v, n), n, v.stations));
  }

  /** After a refresh the lines just sent stand. */
  lemma RefreshStands(s: Memory, v: View, n: nat)
    requires WellFormed(v) && n in v.nodes && n in v.sids
    ensures Holds(Exec(s.kernel, StationRoutes(v, n)), StationRoutes(v, n))
    ensures Has(Exec(s.kernel, StationRoutes(v, n)), OwnLine(v, n))
  {
    StationRoutesDistinct(v, n);
    ExecHolds(s.kernel, StationRoutes(v, n));
    assert StationRoutes(v, n)[0] == OwnLine(v, n);
  }

  /** One event from a memory that can be trusted: the node has what it wants, and its memory can be trusted
      again, exactly when the event does no harm. */
  lemma EventExact(s: Memory, n: nat, e: NetEvent)
    requires Proper(e) && Trusted(s) && StationKept(s, n, e)
    ensures var s' := NodeNext(s, n, e);
            Trusted(s') && (e.Update? || e.Init? ==> Served(e.view, n, s'.kernel)) <==> HarmlessAt(s, n, e)
  {
    hide WellFormed, WantForward, WantRoutes, StationRoutes, Gets, Rebuild, SrWriters.Harmless, Exec;
    match e
    case Update(v, lost) =>
      WantedOnce(v, n);
      RebuildExact(s, LostAt(lost, n), WantForward(v, n), WantRoutes(v, n));
    case Init(v, lost) =>
      WantedOnce(v, n);
      InitIsFresh(s, LostAt(lost, n), WantForward(v, n), WantRoutes(v, n));
      FreshRebuild(Purge(s.kernel, LostAt(lost, n)), WantForward(v, n), WantRoutes(v, n));
    case Resend(v, src) =>
      if n == src && n in v.stations && n in v.nodes && n in v.sids {
        RefreshStands(s, v, n);
        InSequence(Exec(s.kernel, StationRoutes(v, n)), StationRoutes(v, n));
      }
    case Remove(flushed) =>
  }

  lemma InitIsFresh(s: Memory, lost: set<nat>, wantForward: seq<Line>, wantRoutes: Option<seq<Line>>)
    ensures Rebuild(Memory(s.kernel, [], []), lost, wantForward, wantRoutes)
            == Rebuild(Memory(Purge(s.kernel, lost), [], []), {}, wantForward, wantRoutes)
  {
    PurgeNone(Purge(s.kernel, lost));
  }

  lemma PurgeNone(kernel: Kernel)
    ensures Purge(kernel, {}) == kernel
  {
  }

  // ---- Every run ----

  /** A node is a ground station throughout or never. */
  predicate KindFixed(n: nat, station: bool, events: seq<NetEvent>) {
    forall i | 0 <= i < |events| :: !events[i].Remove? ==> (n in events[i].view.stations <==> station)
  }

  predicate AllProper(events: seq<NetEvent>) {
    forall i | 0 <= i < |events| :: Proper(events[i])
  }

  /** No event of the run does harm at the node. */
  ghost predicate HarmlessRun(s: Memory, n: nat, events: seq<NetEvent>)
    requires AllProper(events)
  {
    events == []
    || (HarmlessRun(s, n, events[..|events| - 1])
        && HarmlessAt(NodeRun(s, n, events[..|events| - 1]), n, events[|events| - 1]))
  }

  /** After every event the memory of the node can be trusted, and after every update and every init the node has
      what it wants. */
  ghost predicate Achieved(s: Memory, n: nat, events: seq<NetEvent>)
    requires AllProper(events)
  {
    events == []
    || (Achieved(s, n, events[..|events| - 1]) && Trusted(NodeRun(s, n, events))
        && (events[|events| - 1].Update? || events[|events| - 1].Init? ==>
              Served(events[|events| - 1].view, n, NodeRun(s, n, events).kernel)))
  }

  lemma ForwardKept(s: Memory, n: nat, e: NetEvent)
    requires Proper(e) && s.forward == [] && (!e.Remove? ==> n in e.view.stations)
    ensures NodeNext(s, n, e).forward == []
  {
    if !e.Remove? {
      KindsApart(e.view, n);
    }
  }

  lemma KindsApart(v: View, n: nat)
    requires WellFormed(v)
    ensures n in v.stations ==> n !in v.satellites && n !in Addressable(v, v.satellites)
    ensures n in v.satellites ==> n in v.nodes && (n in Addressable(v, v.satellites) <==> v.nodes[n].addressable)
    ensures n !in v.satellites ==> n !in Addressable(v, v.satellites)
  {
    AddressableNodes(v, v.satellites);
  }

  lemma {:induction false} StationRun(s: Memory, n: nat, events: seq<NetEvent>)
    requires AllProper(events) && KindFixed(n, true, events) && s.forward == []
    ensures NodeRun(s, n, events).forward == []
  {
    if events != [] {
      var k := |events| - 1;
      assert AllProper(events[..k]) && KindFixed(n, true, events[..k]);
      StationRun(s, n, events[..k]);
      ForwardKept(NodeRun(s, n, events[..k]), n, events[k]);
    }
  }

  /** Exactly the harmless runs achieve all they are for. */
  lemma {:induction false} RunExact(s: Memory, n: nat, station: bool, events: seq<NetEvent>)
    requires AllProper(events) && Trusted(s) && KindFixed(n, station, events) && (station ==> s.forward == [])
    ensures Achieved(s, n, events) <==> HarmlessRun(s, n, events)
  {
    if events != [] {
      var k := |events| - 1;
      assert AllProper(events[..k]) && KindFixed(n, station, events[..k]);
      hide Trusted, HarmlessAt, NodeNext, Served, WellFormed;
      RunExact(s, n, station, events[..k]);
      if Achieved(s, n, events[..k]) {
        assert Trusted(NodeRun(s, n, events[..k]));
        if station {
          StationRun(s, n, events[..k]);
        }
        EventExact(NodeRun(s, n, events[..k]), n, events[k]);
      }
    }
  }

  // ---- What runs deliver ----

  /** Memories that can be trusted, of nodes whose kind stays, and a run that does no harm at any of them. */
  ghost predicate HarmlessNet(v: View, start: map<nat, Memory>, events: seq<NetEvent>)
    requires AllProper(events)
  {
    forall n | n in v.sids ::
      && n in start && Trusted(start[n]) && KindFixed(n, n in v.stations, events)
      && (n in v.stations ==> start[n].forward == []) && HarmlessRun(start[n], n, events)
  }

  function NetAfter(v: View, start: map<nat, Memory>, events: seq<NetEvent>): map<nat, Kernel>
    requires AllProper(events)
  {
    map n | n in v.sids && n in start :: NodeRun(start[n], n, events).kernel
  }

  /** The first init of a network is a run of one event; module SrJourneys says exactly what its packets do. */
  lemma FirstInit(v: View)
    requires WellFormed(v)
    ensures NetAfter(v, map n | n in v.sids :: Memory(map[], [], []), [Init(v, map[])]) == FirstNet(v)
  {
    hide WellFormed, Rebuild, NodeRun, FirstKernel;
    forall n | n in v.sids ensures NodeRun(Memory(map[], [], []), n, [Init(v, map[])]).kernel == FirstKernel(v, n) {
      FirstInitAt(v, n);
    }
  }

  lemma FirstInitAt(v: View, n: nat)
    requires WellFormed(v)
    ensures NodeRun(Memory(map[], [], []), n, [Init(v, map[])]).kernel == FirstKernel(v, n)
  {
    hide WellFormed, Rebuild, WantForward, WantRoutes;
    assert [Init(v, map[])][..0] == [];
  }

  lemma RunServes(start: map<nat, Memory>, events: seq<NetEvent>)
    requires AllProper(events) && events != []
    requires events[|events| - 1].Update? || events[|events| - 1].Init?
    requires HarmlessNet(events[|events| - 1].view, start, events)
    ensures AllServed(events[|events| - 1].view, NetAfter(events[|events| - 1].view, start, events))
  {
    var v := events[|events| - 1].view;
    forall n | n in v.sids ensures Served(v, n, NodeRun(start[n], n, events).kernel) {
      RunExact(start[n], n, n in v.stations, events);
    }
  }

  /** After every harmless run that ends with an update or an init, from a ground station or an addressable
      satellite, with popping or without: packets are carried along their path if that is at all possible. */
  lemma EveryRunDelivers(start: map<nat, Memory>, events: seq<NetEvent>, src: nat, dst: nat, path: seq<nat>,
                         lookups: nat)
    requires AllProper(events) && events != []
    requires events[|events| - 1].Update? || events[|events| - 1].Init?
    requires var v := events[|events| - 1].view;
             && HarmlessNet(v, start, events) && PathsJoin(v) && src in Ends(v) && dst in Ends(v) && dst in v.nodes
             && Sends(v, src, dst, path) && lookups >= if v.usePhp then 2 else 1
    ensures |path| >= 2
    ensures var v := events[|events| - 1].view;
            Carried(v, path, dst) ==>
              Travel(NetAfter(v, start, events), src, v.nodes[dst].loopback, dst, lookups) == Journey(path[1..], true)
  {
    hide WellFormed;
    var v := events[|events| - 1].view;
    assert WellFormed(v);
    hide *;
    RunServes(start, events);
    ServedDelivers(v, NetAfter(v, start, events), src, dst, path, lookups);
  }

  /** Only stored paths of one source have changed. */
  ghost predicate Rerouted(v: View, v': View, src: nat) {
    && v' == v.(custom := v'.custom)
    && forall k: (nat, nat) | k.0 != src ::
         (k in v.custom <==> k in v'.custom) && (k in v.custom ==> v.custom[k] == v'.custom[k])
  }

  lemma SameRoute(v: View, v': View, src: nat, n: nat, dst: nat)
    requires Rerouted(v, v', src) && n != src && n in v.nodes && dst in v.nodes
    ensures PathOf(v', n, dst) == PathOf(v, n, dst)
    ensures RouteLine(v', PortsOf(v', n), n, dst) == RouteLine(v, PortsOf(v, n), n, dst)
  {
    assert PathOf(v', n, dst) == PathOf(v, n, dst);
  }

  lemma ReroutedElsewhere(v: View, v': View, src: nat, n: nat, dst: nat)
    requires WellFormed(v) && WellFormed(v') && Rerouted(v, v', src) && n != src && dst in v.nodes
    ensures AddressAction(v', n, dst) == AddressAction(v, n, dst)
  {
    EndsAreNodes(v);
    SatellitesListed(v);
    hide WellFormed, PathOf, StackFor, UsableIp, RouteLine;
    SameAddressable(v, v', v.satellites);
    if n in v.nodes {
      SameRoute(v, v', src, n, dst);
    }
  }

  lemma {:induction false} SameAddressable(v: View, v': View, satellites: seq<nat>)
    requires v'.nodes == v.nodes && forall n | n in satellites :: n in v.nodes
    ensures Addressable(v', satellites) == Addressable(v, satellites)
  {
    if satellites != [] {
      SameAddressable(v, v', satellites[..|satellites| - 1]);
    }
  }

  /** The kernels after the routes of one source were sent again. */
  function Resent(v: View, net: map<nat, Kernel>, src: nat): map<nat, Kernel>
    requires WellFormed(v) && src in v.nodes && src in v.sids && src in net
  {
    net[src := Exec(net[src], StationRoutes(v, src))]
  }

  lemma ResentReady(v: View, v': View, net: map<nat, Kernel>, src: nat)
    requires WellFormed(v) && WellFormed(v') && Rerouted(v, v', src) && AllServed(v, net)
    requires src in v.stations && src in v.nodes && src in v.sids && src in net
    ensures Ready(v', Resent(v', net, src))
  {
    hide WellFormed, AllServed, Exec, Has, NeighbourLines, StationRoutes, Rebuild;
    ServedReady(v, net);
    RefreshStands(Memory(net[src], [], []), v', src);
    KindsApart(v, src);
    SatellitesListed(v);
    SameNeighbours(v, v', src);
    forall n | n in v.satellites ensures Holds(Resent(v', net, src)[n], NeighbourLines(v', v'.nodes[n].ifaces)) {
      assert n != src;
    }
  }

  lemma SameNeighbours(v: View, v': View, src: nat)
    requires WellFormed(v) && WellFormed(v') && Rerouted(v, v', src)
    ensures forall n | n in v.satellites ::
              n in v.nodes && NeighbourLines(v', v.nodes[n].ifaces) == NeighbourLines(v, v.nodes[n].ifaces)
  {
    SatellitesListed(v);
    forall n | n in v.satellites
      ensures NeighbourLines(v', v.nodes[n].ifaces) == NeighbourLines(v, v.nodes[n].ifaces)
    {
      SameLabels(v, v', v.nodes[n].ifaces);
    }
  }

  lemma SatellitesListed(v: View)
    requires WellFormed(v)
    ensures forall n | n in v.satellites :: n in v.nodes && n in v.sids
  {
    forall n | n in v.satellites ensures n in v.nodes && n in v.sids {
      assert n in v.stations + v.satellites;
    }
  }

  lemma {:induction false} SameLabels(v: View, v': View, ifaces: seq<Interface>)
    requires v'.sids == v.sids
    ensures NeighbourLines(v', ifaces) == NeighbourLines(v, ifaces)
  {
    if ifaces != [] {
      SameLabels(v, v', ifaces[..|ifaces| - 1]);
    }
  }

  lemma ResentAddress(v: View, v': View, net: map<nat, Kernel>, src: nat, dst: nat)
    requires WellFormed(v) && WellFormed(v') && Rerouted(v, v', src) && AllServed(v, net)
    requires src in v.stations && src in v.nodes && src in v.sids && src in net && dst in v.stations && dst in v.nodes
    ensures AddressStands(v', Resent(v', net, src), dst)
  {
    hide WellFormed, AllServed, Exec, Has, StationRoutes, AddressAction;
    ServedAddress(v, net, dst);
    RefreshStands(Memory(net[src], [], []), v', src);
    InSequence(Resent(v', net, src)[src], StationRoutes(v', src));
    StationsOnce(v');
    KindsApart(v', src);
    forall n | n in v'.sids && AddressAction(v', n, dst).Some?
      ensures n in Resent(v', net, src)
              && Has(Resent(v', net, src)[n], Line(AddressOf(v', dst), AddressAction(v', n, dst).value))
    {
      if n == src {
        ResentRoute(v', src, dst);
      } else {
        ReroutedElsewhere(v, v', src, n, dst);
      }
    }
  }

  lemma ResentRoute(v: View, src: nat, dst: nat)
    requires WellFormed(v) && src in v.stations && src in v.nodes && src in v.sids
    requires dst in v.stations && dst in v.nodes
    requires AddressAction(v, src, dst).Some?
    ensures Line(AddressOf(v, dst), AddressAction(v, src, dst).value) in StationRoutes(v, src)
  {
    KindsApart(v, src);
    StationsOnce(v);
    var line := Line(AddressOf(v, dst), AddressAction(v, src, dst).value);
    RouteKey(v, src, dst);
    RouteMembers(Looked(v, src), PortsOf(v, src), src, v.stations, line);
  }

  /** A path stored or cleared in a network whose nodes have what they want: the packets of the source to every
      ground station follow what is stored now. */
  lemma ResendDelivers(v: View, v': View, net: map<nat, Kernel>, src: nat, dst: nat, path: seq<nat>, lookups: nat)
    requires WellFormed(v) && WellFormed(v') && Rerouted(v, v', src) && AllServed(v, net) && PathsJoin(v')
    requires src in v.stations && src in v.nodes && src in v.sids && dst in v.stations && dst in v.nodes
    requires Sends(v', src, dst, path) && lookups >= if v.usePhp then 2 else 1
    ensures |path| >= 2
    ensures Carried(v', path, dst) ==>
              Travel(Resent(v', net, src), src, v.nodes[dst].loopback, dst, lookups) == Journey(path[1..], true)
  {
    ResentReady(v, v', net, src);
    ResentAddress(v, v', net, src, dst);
    assert src in Ends(v') && dst in Ends(v');
    hide *;
    SendsRoute(v', src, dst, path);
    JourneyExact(v', Resent(v', net, src), src, dst, lookups);
  }

  /** That is what such an event makes of a network. */
  lemma ResendIsEvent(v': View, start: map<nat, Memory>, events: seq<NetEvent>, src: nat)
    requires AllProper(events) && WellFormed(v')
    requires src in v'.stations && src in v'.nodes && src in v'.sids && src in start
    ensures NetAfter(v', start, events + [Resend(v', src)]) == Resent(v', NetAfter(v', start, events), src)
  {
    hide WellFormed, StationRoutes, Exec;
    var more := events + [Resend(v', src)];
    assert more[..|events|] == events;
  }

  // ---- Setting and clearing ----

  /** The route of a pair among those that are sent again. */
  function SentRoute(v: View, src: nat, dst: nat): Option<Line>
    requires src in v.nodes && dst in v.nodes
  {
    RouteLine(Looked(v, src), PortsOf(v, src), src, dst)
  }

  lemma SentKeys(v: View, src: nat)
    requires WellFormed(v) && src in v.nodes
    ensures forall dst | dst in v.nodes && SentRoute(v, src, dst).Some? ::
              SentRoute(v, src, dst).value.key == AddressOf(v, dst)
    ensures forall d, e | d in v.nodes && e in v.nodes && AddressOf(v, d) == AddressOf(v, e) :: d == e
  {
  }

  lemma SentMembers(v: View, src: nat, dst: nat, line: Line)
    requires WellFormed(v) && src in v.nodes && src in v.sids && dst in v.stations && dst in v.nodes
    requires line.key == AddressOf(v, dst)
    ensures line in StationRoutes(v, src) <==> SentRoute(v, src, dst) == Some(line)
    ensures Mentions(StationRoutes(v, src), line.key) <==> SentRoute(v, src, dst).Some?
  {
    hide WellFormed, RouteLine;
    StationsOnce(v);
    var routes := RouteLines(Looked(v, src), PortsOf(v, src), src, v.stations);
    RouteMembers(Looked(v, src), PortsOf(v, src), src, v.stations, line);
    SentKeys(v, src);
    assert forall x :: x in StationRoutes(v, src) <==> x == OwnLine(v, src) || x in routes;
    if Mentions(StationRoutes(v, src), line.key) {
      var i :| 0 <= i < |StationRoutes(v, src)| && StationRoutes(v, src)[i].key == line.key;
      RouteMembers(Looked(v, src), PortsOf(v, src), src, v.stations, StationRoutes(v, src)[i]);
    }
    if SentRoute(v, src, dst).Some? {
      RouteMembers(Looked(v, src), PortsOf(v, src), src, v.stations, SentRoute(v, src, dst).value);
      IsMentioned(StationRoutes(v, src), SentRoute(v, src, dst).value);
    }
  }

  /** Storing a path for a pair changes no other line that is sent. */
  lemma OtherLines(v: View, v': View, src: nat, dst: nat, path: seq<nat>, line: Line)
    requires WellFormed(v) && WellFormed(v') && v' == v.(custom := v.custom[(src, dst) := path])
    requires src in v.nodes && src in v.sids && dst in v.nodes && line.key != AddressOf(v, dst)
    requires line in StationRoutes(v, src) || line in StationRoutes(v', src)
    ensures line in StationRoutes(v, src) && line in StationRoutes(v', src)
  {
    hide WellFormed, RouteLine;
    StationsOnce(v);
    SentKeys(v, src);
    SentKeys(v', src);
    RouteMembers(Looked(v, src), PortsOf(v, src), src, v.stations, line);
    RouteMembers(Looked(v', src), PortsOf(v, src), src, v.stations, line);
    forall d | d in v.nodes && d != dst ensures SentRoute(v', src, d) == SentRoute(v, src, d) {
      OtherRoute(v, v', src, dst, path, d);
    }
  }

  lemma OtherRoute(v: View, v': View, src: nat, dst: nat, path: seq<nat>, d: nat)
    requires v' == v.(custom := v.custom[(src, dst) := path])
    requires src in v.nodes && d in v.nodes && d != dst
    ensures SentRoute(v', src, d) == SentRoute(v, src, d)
  {
    assert PathOf(Looked(v', src), src, d) == PathOf(Looked(v, src), src, d);
    hide PathOf, StackFor, UsableIp;
  }

  lemma OtherMentions(v: View, v': View, src: nat, dst: nat, path: seq<nat>, key: Key)
    requires WellFormed(v) && WellFormed(v') && v' == v.(custom := v.custom[(src, dst) := path])
    requires src in v.nodes && src in v.sids && dst in v.nodes && key != AddressOf(v, dst)
    ensures Mentions(StationRoutes(v, src), key) <==> Mentions(StationRoutes(v', src), key)
  {
    hide WellFormed, StationRoutes;
    if Mentions(StationRoutes(v, src), key) {
      var i :| 0 <= i < |StationRoutes(v, src)| && StationRoutes(v, src)[i].key == key;
      OtherLines(v, v', src, dst, path, StationRoutes(v, src)[i]);
      IsMentioned(StationRoutes(v', src), StationRoutes(v, src)[i]);
    }
    if Mentions(StationRoutes(v', src), key) {
      var i :| 0 <= i < |StationRoutes(v', src)| && StationRoutes(v', src)[i].key == key;
      OtherLines(v, v', src, dst, path, StationRoutes(v', src)[i]);
      IsMentioned(StationRoutes(v, src), StationRoutes(v', src)[i]);
    }
  }

  lemma SameKernel(a: Kernel, b: Kernel)
    ensures a == b <==> forall line :: Has(a, line) <==> Has(b, line)
  {
    if forall line :: Has(a, line) <==> Has(b, line) {
      forall key ensures key in a <==> key in b {
        assert key in a ==> Has(a, Line(key, a[key]));
        assert key in b ==> Has(b, Line(key, b[key]));
      }
      forall key | key in a ensures a[key] == b[key] {
        assert Has(a, Line(key, a[key]));
      }
      assert a == b;
    }
  }

  /** The kernel of a ground station after a path was stored for a pair that had none and cleared again, from one
      in which the routes had just been sent: it is as before exactly when the pair has a route without the
      stored path, or got none with it, or had that very route already. Otherwise the stored route stays: nothing
      is sent that would replace it. */
  lemma ClearUndoesSet(v: View, v': View, src: nat, dst: nat, path: seq<nat>, kernel: Kernel)
    requires WellFormed(v) && WellFormed(v') && v' == v.(custom := v.custom[(src, dst) := path])
    requires src in v.stations && src in v.nodes && src in v.sids && dst in v.stations && dst in v.nodes
    requires (src, dst) !in v.custom
    ensures var before := Exec(kernel, StationRoutes(v, src));
            Exec(Exec(before, StationRoutes(v', src)), StationRoutes(v, src)) == before
            <==> || SentRoute(v, src, dst).Some?
                 || SentRoute(v', src, dst).None?
                 || Has(kernel, SentRoute(v', src, dst).value)
  {
    hide WellFormed, StationRoutes, SentRoute, Exec, DistinctKeys;
    var sent, sent' := StationRoutes(v, src), StationRoutes(v', src);
    var before := Exec(kernel, sent);
    var during := Exec(before, sent');
    var after := Exec(during, sent);
    StationRoutesDistinct(v, src);
    StationRoutesDistinct(v', src);
    forall line: Line
      ensures Has(after, line)
              <==> line in sent || (!Mentions(sent, line.key)
                                    && (line in sent' || (!Mentions(sent', line.key) && Has(before, line))))
      ensures Has(before, line) <==> line in sent || (!Mentions(sent, line.key) && Has(kernel, line))
    {
      ExecHas(kernel, sent, line);
      ExecHas(before, sent', line);
      ExecHas(during, sent, line);
    }
    SameKernel(after, before);
    forall line: Line | line.key != AddressOf(v, dst) ensures Has(after, line) <==> Has(before, line) {
      OtherMentions(v, v', src, dst, path, line.key);
      if line in sent || line in sent' {
        OtherLines(v, v', src, dst, path, line);
      }
      if line in sent' {
        IsMentioned(sent', line);
      }
    }
    forall line: Line | line.key == AddressOf(v, dst)
      ensures line in sent <==> SentRoute(v, src, dst) == Some(line)
      ensures line in sent' <==> SentRoute(v', src, dst) == Some(line)
      ensures Mentions(sent, line.key) <==> SentRoute(v, src, dst).Some?
      ensures Mentions(sent', line.key) <==> SentRoute(v', src, dst).Some?
    {
      SentMembers(v, src, dst, line);
      SentMembers(v', src, dst, line);
    }
    SentKeys(v', src);
  }
}

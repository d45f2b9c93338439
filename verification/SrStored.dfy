/** What packets do in the runs of a topology that stands: inits, paths stored and cleared, and updates of the
    segment routing daemon (satgonetem/routing/srmpls_daemon.py:360-506, 621-776, 911-1041, 1049-1148). */
module SrStored {
  import opened Wrappers
  import opened SegmentRouting
  import opened LabelForwarding
  import opened SrRoutes
  import opened SrInstall
  import opened SrWriters
  import opened SrDelivery
  import opened SrPaths
  import opened SrJourneys
  import opened SrRuns

  // ---- Runs ----

  /** The same nodes, links and labels; shortest paths and stored paths may be others. */
  predicate Still(v: View, v': View) {
    WellFormed(v') && v' == v.(paths := v'.paths, custom := v'.custom)
  }

  predicate StillEvent(v: View, e: NetEvent) {
    !e.Remove? && Still(v, e.view) && (e.Update? || e.Init? ==> e.lost == map[])
  }

  /** A first init, then any inits, updates and resent routes, with no link lost or found. */
  predicate StillRun(v: View, events: seq<NetEvent>) {
    && events != [] && events[0].Init? && events[0].view == v
    && forall i | 0 <= i < |events| :: StillEvent(v, events[i])
  }

  lemma StillPrefix(v: View, events: seq<NetEvent>)
    requires StillRun(v, events) && |events| > 1
    ensures StillRun(v, events[..|events| - 1])
  {
  }

  lemma StillProper(v: View, events: seq<NetEvent>)
    requires StillRun(v, events)
    ensures AllProper(events)
  {
    forall i | 0 <= i < |events| ensures Proper(events[i]) {
      assert StillEvent(v, events[i]);
    }
  }

  // ---- One node ----

  const EMPTY: Memory := Memory(map[], [], [])

  /** The kernel of a node in which all that was remembered stood. */
  function KernelStep(kernel: Kernel, n: nat, e: NetEvent): Kernel
    requires Proper(e)
  {
    match e
    case Update(v, _) => RoutesSent(kernel, v, n)
    case Init(v, _) => RoutesSent(Exec(kernel, WantForward(v, n)), v, n)
    case Resend(v, src) =>
      if n == src && n in v.stations && n in v.nodes && n in v.sids then Exec(kernel, StationRoutes(v, n)) else kernel
    case Remove(_) => kernel
  }

  function RoutesSent(kernel: Kernel, v: View, n: nat): Kernel
    requires WellFormed(v)
  {
    if WantRoutes(v, n).None? then kernel else Exec(kernel, WantRoutes(v, n).value)
  }

  /** Where the remembered lines stand, sending the changes does what sending everything would. */
  lemma InstallsAll(s: State, wanted: seq<Line>)
    requires DistinctKeys(wanted) && forall line | line in s.remembered :: Has(s.kernel, line)
    ensures Install(s, wanted).kernel == Exec(s.kernel, wanted)
    ensures forall line | line in Install(s, wanted).remembered :: Has(Install(s, wanted).kernel, line)
  {
    var changed := Changed(s.remembered, wanted);
    ChangedMembers(s.remembered, wanted);
    hide DistinctKeys, Changed, Exec, Has;
    forall line ensures Has(Exec(s.kernel, changed), line) <==> Has(Exec(s.kernel, wanted), line) {
      SentOrNot(s, wanted, line);
    }
    SameKernel(Exec(s.kernel, changed), Exec(s.kernel, wanted));
    assert Install(s, wanted).kernel == Exec(s.kernel, changed) by { NothingSent(s.kernel); }
    ExecHolds(s.kernel, wanted);
    InSequence(Exec(s.kernel, wanted), wanted);
  }

  lemma NothingSent(kernel: Kernel)
    ensures Exec(kernel, []) == kernel
  {
  }

  lemma SentOrNot(s: State, wanted: seq<Line>, line: Line)
    requires DistinctKeys(wanted) && forall l | l in s.remembered :: Has(s.kernel, l)
    ensures Has(Exec(s.kernel, Changed(s.remembered, wanted)), line) <==> Has(Exec(s.kernel, wanted), line)
  {
    var changed := Changed(s.remembered, wanted);
    ChangedMembers(s.remembered, wanted);
    ExecHas(s.kernel, changed, line);
    ExecHas(s.kernel, wanted, line);
    hide DistinctKeys, Changed, Exec;
    if line in wanted {
      NotSentAgain(s.remembered, wanted, line);
    }
    if Mentions(wanted, line.key) && !Mentions(changed, line.key) {
      var i :| 0 <= i < |wanted| && wanted[i].key == line.key;
      assert wanted[i] in wanted;
      NotMentionedStands(s, wanted, wanted[i]);
    }
    if Mentions(changed, line.key) {
      var i :| 0 <= i < |changed| && changed[i].key == line.key;
      assert changed[i] in wanted;
      IsMentioned(wanted, changed[i]);
    }
  }

  /** A wanted line whose key nothing is sent for is remembered and stands. */
  lemma NotMentionedStands(s: State, wanted: seq<Line>, line: Line)
    requires DistinctKeys(wanted) && line in wanted && !Mentions(Changed(s.remembered, wanted), line.key)
    requires forall l | l in s.remembered :: Has(s.kernel, l)
    ensures line in s.remembered && Has(s.kernel, line)
  {
    NotSentAgain(s.remembered, wanted, line);
    if line in Changed(s.remembered, wanted) {
      IsMentioned(Changed(s.remembered, wanted), line);
    }
  }

  lemma {:induction false} SameStationLines(v: View, v': View, stations: seq<nat>, ports: Ports)
    requires v'.nodes == v.nodes && forall n | n in stations :: n in v.nodes
    ensures StationLines(v', stations, ports) == StationLines(v, stations, ports)
  {
    if stations != [] {
      SameStationLines(v, v', stations[..|stations| - 1], ports);
    }
  }

  /** The forwarding lines do not depend on paths. */
  lemma SameForward(v: View, v': View, n: nat)
    requires WellFormed(v) && Still(v, v')
    ensures WantForward(v', n) == WantForward(v, n)
  {
    if n in v.satellites {
      StationsOnce(v);
      SatellitesListed(v);
      hide WellFormed, NeighbourLines, StationLines;
      SameLabels(v, v', v.nodes[n].ifaces);
      SameStationLines(v, v', v.stations, PortsOf(v, n));
    }
  }

  /** The memory between the events of such a run: the remembered routes stand, and the forwarding lines are
      remembered from the first init on. */
  ghost predicate Remembers(v: View, s: Memory, n: nat)
    requires WellFormed(v)
  {
    s.forward == WantForward(v, n) && forall r | r in s.routes :: Has(s.kernel, r)
  }

  lemma ForwardAgain(kernel: Kernel, wanted: seq<Line>)
    ensures Install(State(kernel, wanted), wanted) == State(kernel, wanted)
    ensures Install(State(kernel, []), wanted) == State(Exec(kernel, wanted), wanted)
  {
    NothingChanged(wanted, wanted);
    AllChanged(wanted);
  }

  lemma RebuildStep(s: Memory, v: View, n: nat, kernel: Kernel)
    requires WellFormed(v) && forall r | r in s.routes :: Has(kernel, r)
    requires Install(State(s.kernel, s.forward), WantForward(v, n)) == State(kernel, WantForward(v, n))
    ensures var s' := Rebuild(s, {}, WantForward(v, n), WantRoutes(v, n));
            s'.kernel == RoutesSent(kernel, v, n) && Remembers(v, s', n)
  {
    WantedOnce(v, n);
    PurgeNone(s.kernel);
    hide WellFormed, WantForward, WantRoutes, Install, Exec, Has;
    if WantRoutes(v, n).Some? {
      InstallsAll(State(kernel, s.routes), WantRoutes(v, n).value);
    }
  }

  lemma InitStep(v: View, v': View, s: Memory, n: nat)
    requires WellFormed(v) && Still(v, v')
    ensures var s' := NodeNext(s, n, Init(v', map[]));
            s'.kernel == KernelStep(s.kernel, n, Init(v', map[])) && Remembers(v, s', n)
  {
    hide WellFormed, WantForward, WantRoutes, Install, Exec, Has, Rebuild, RoutesSent;
    SameForward(v, v', n);
    ForwardAgain(s.kernel, WantForward(v', n));
    RebuildStep(Memory(s.kernel, [], []), v', n, Exec(s.kernel, WantForward(v', n)));
  }

  lemma UpdateStep(v: View, v': View, s: Memory, n: nat)
    requires WellFormed(v) && Still(v, v') && Remembers(v, s, n)
    ensures var s' := NodeNext(s, n, Update(v', map[]));
            s'.kernel == KernelStep(s.kernel, n, Update(v', map[])) && Remembers(v, s', n)
  {
    hide WellFormed, WantForward, WantRoutes, Install, Exec, Has, Rebuild, RoutesSent;
    SameForward(v, v', n);
    ForwardAgain(s.kernel, WantForward(v', n));
    RebuildStep(s, v', n, s.kernel);
  }

  lemma ResendStep(v: View, v': View, s: Memory, n: nat, src: nat)
    requires WellFormed(v) && Still(v, v') && Remembers(v, s, n)
    ensures var s' := NodeNext(s, n, Resend(v', src));
            s'.kernel == KernelStep(s.kernel, n, Resend(v', src)) && Remembers(v, s', n)
  {
    hide WellFormed, WantForward, StationRoutes, Exec, Has;
    if n == src && n in v'.stations && n in v'.nodes && n in v'.sids {
      RefreshStands(s, v', n);
      InSequence(Exec(s.kernel, StationRoutes(v', n)), StationRoutes(v', n));
    }
  }

  /** The kernel after the events, as if every event sent all it wants. */
  function KernelAfter(n: nat, events: seq<NetEvent>): Kernel
    requires AllProper(events)
  {
    if events == [] then map[]
    else KernelStep(KernelAfter(n, events[..|events| - 1]), n, events[|events| - 1])
  }

  lemma {:induction false} KernelIs(v: View, n: nat, events: seq<NetEvent>)
    requires WellFormed(v) && StillRun(v, events)
    ensures AllProper(events) && NodeRun(EMPTY, n, events).kernel == KernelAfter(n, events)
    ensures Remembers(v, NodeRun(EMPTY, n, events), n)
  {
    StillProper(v, events);
    var k := |events| - 1;
    assert StillEvent(v, events[k]);
    if k > 0 {
      StillPrefix(v, events);
      KernelIs(v, n, events[..k]);
    } else {
      assert events[..k] == [];
    }
    hide WellFormed, Remembers, NodeNext, KernelStep;
    match events[k]
    case Init(v', _) => InitStep(v, v', NodeRun(EMPTY, n, events[..k]), n);
    case Update(v', _) => UpdateStep(v, v', NodeRun(EMPTY, n, events[..k]), n);
    case Resend(v', src) => ResendStep(v, v', NodeRun(EMPTY, n, events[..k]), n, src);
  }

  // ---- One address ----

  /** What sending some lines does to one key. */
  lemma ExecKey(kernel: Kernel, lines: seq<Line>, key: Key)
    requires DistinctKeys(lines)
    ensures forall line | line in lines && line.key == key :: Has(Exec(kernel, lines), line)
    ensures !Mentions(lines, key) ==> Untouched(kernel, Exec(kernel, lines), key)
  {
    ExecHolds(kernel, lines);
    InSequence(Exec(kernel, lines), lines);
  }

  predicate Untouched(kernel: Kernel, kernel': Kernel, key: Key) {
    (key in kernel' <==> key in kernel) && (key in kernel ==> kernel'[key] == kernel[key])
  }

  /** The path of the node's own route to a destination. */
  function RouteTo(v: View, n: nat, dst: nat): Option<seq<nat>>
    requires WellFormed(v)
  {
    EndsAreNodes(v);
    if n in Ends(v) && dst in Ends(v) && RouteLine(v, PortsOf(v, n), n, dst).Some? then PathOf(v, n, dst) else None
  }

  /** The path of the route that is sent again to a ground station. */
  function SentTo(v: View, n: nat, dst: nat): Option<seq<nat>>
    requires WellFormed(v)
  {
    StationsOnce(v);
    if n in v.stations && dst in v.stations && SentRoute(v, n, dst).Some? then PathOf(Looked(v, n), n, dst) else None
  }

  /** A node has a route of its own on a path exactly if it can send on it. */
  lemma RouteToExact(v: View, n: nat, dst: nat, path: seq<nat>)
    requires WellFormed(v)
    ensures RouteTo(v, n, dst) == Some(path) <==> n in Ends(v) && dst in Ends(v) && Sends(v, n, dst, path)
  {
    EndsAreNodes(v);
    hide WellFormed, Ends, RouteLine, PathOf, Sends;
    if n in Ends(v) && dst in Ends(v) {
      if RouteLine(v, PortsOf(v, n), n, dst).Some? {
        RouteSends(v, n, dst);
      }
      if Sends(v, n, dst, path) {
        SendsRoute(v, n, dst, path);
      }
    }
  }

  /** A packet can be sent on the path a pair is sent again, the stored one if there is one, else the library's, of
      which a source the library knows nothing of has none. */
  predicate SendsAgainOver(v: View, n: nat, dst: nat, path: seq<nat>, ip: string) {
    && n != dst
    && (if (n, dst) in v.custom then path == v.custom[(n, dst)]
        else n in v.paths && dst in v.paths[n] && path == v.paths[n][dst])
    && |path| >= 2 && Joined(v, n, path[1], ip)
    && forall j | 2 <= j < 2 + PushedCount(v, path) :: path[j] in v.sids
  }

  /** Exactly then a station is sent a route to another. */
  lemma SentToExact(v: View, n: nat, dst: nat, path: seq<nat>)
    requires WellFormed(v)
    ensures SentTo(v, n, dst) == Some(path)
            <==> n in v.stations && dst in v.stations && exists ip :: SendsAgainOver(v, n, dst, path, ip)
  {
    StationsOnce(v);
    LookedFormed(v, n);
    SendsAgain(v, n, dst, path);
    hide *;
    SentToRoute(v, n, dst);
    if n in v.stations && dst in v.stations {
      if SentRoute(v, n, dst).Some? {
        RouteSends(Looked(v, n), n, dst);
      }
      if Sends(Looked(v, n), n, dst, path) {
        SendsRoute(Looked(v, n), n, dst, path);
      }
    }
  }

  lemma SentToRoute(v: View, n: nat, dst: nat)
    requires WellFormed(v)
    ensures forall gs | gs in v.stations :: gs in v.nodes
    ensures SentTo(v, n, dst)
            == if n in v.stations && dst in v.stations && SentRoute(v, n, dst).Some? then PathOf(Looked(v, n), n, dst)
               else None
    ensures n in v.nodes && dst in v.nodes ==>
              SentRoute(v, n, dst) == RouteLine(Looked(v, n), PortsOf(Looked(v, n), n), n, dst)
  {
    StationsOnce(v);
  }

  lemma SendsAgain(v: View, n: nat, dst: nat, path: seq<nat>)
    ensures Sends(Looked(v, n), n, dst, path) <==> exists ip :: SendsAgainOver(v, n, dst, path, ip)
  {
    forall ip ensures SendsAgainOver(v, n, dst, path, ip) <==> SendsOver(Looked(v, n), n, dst, path, ip) {
    }
    hide SendsOver, SendsAgainOver, Looked;
  }

  lemma LookedFormed(v: View, n: nat)
    requires WellFormed(v)
    ensures WellFormed(Looked(v, n)) && Looked(v, n).nodes == v.nodes
  {
  }

  predicate LinkedStation(v: View, n: nat, dst: nat)
    requires WellFormed(v)
  {
    SatellitesListed(v);
    n in v.satellites && dst in v.stations && dst in PortsOf(v, n)
  }

  /** The path on which an event sends a node's packets for a destination, if it sends a line for it: an init counts
      the link of a satellite to a ground station. */
  function GivenPath(e: NetEvent, n: nat, dst: nat): Option<seq<nat>>
    requires Proper(e)
  {
    match e
    case Update(v, _) => RouteTo(v, n, dst)
    case Init(v, _) =>
      if RouteTo(v, n, dst).Some? then RouteTo(v, n, dst) else if LinkedStation(v, n, dst) then Some([n, dst]) else None
    case Resend(v, src) => if n == src then SentTo(v, n, dst) else None
    case Remove(_) => None
  }

  /** The last such path. */
  function PathAfter(n: nat, dst: nat, events: seq<NetEvent>): Option<seq<nat>>
    requires AllProper(events)
  {
    if events == [] then None
    else if GivenPath(events[|events| - 1], n, dst).Some? then GivenPath(events[|events| - 1], n, dst)
    else PathAfter(n, dst, events[..|events| - 1])
  }

  /** The action that sends to the second node of a path from n and pushes the labels of the rest. */
  predicate Acts(v: View, action: Action, path: seq<nat>, n: nat, dst: nat)
    requires n in v.nodes
  {
    && |path| >= 2 && n != dst && path[|path| - 1] == dst && path[1] in PortsOf(v, n)
    && (forall i | 0 <= i < |Pushed(v, path)| :: Pushed(v, path)[i] in v.sids)
    && action == Via(path[1], PortsOf(v, n)[path[1]].peerIp, Labels(v.sids, Pushed(v, path)))
  }

  lemma LinkActs(v: View, n: nat, dst: nat)
    requires n != dst && n in v.nodes && dst in PortsOf(v, n)
    ensures Acts(v, Via(dst, PortsOf(v, n)[dst].peerIp, []), [n, dst], n, dst)
  {
    assert [n, dst][1..] == [dst];
    assert Pushed(v, [n, dst]) == [];
  }

  lemma RouteActs(v: View, n: nat, dst: nat)
    requires WellFormed(v) && PathsJoin(v) && n in v.nodes && dst in v.nodes
    requires RouteLine(v, PortsOf(v, n), n, dst).Some?
    ensures PathOf(v, n, dst).Some?
    ensures Acts(v, RouteLine(v, PortsOf(v, n), n, dst).value.action, PathOf(v, n, dst).value, n, dst)
  {
    hide WellFormed, PathsJoin, RouteLine, Segments;
    var path := RouteShape(v, n, dst);
  }

  lemma RoutesAt(kernel: Kernel, v: View, n: nat, dst: nat)
    requires WellFormed(v) && PathsJoin(v) && n in v.sids && n in v.nodes && dst in v.nodes
    ensures var kernel', key, path := RoutesSent(kernel, v, n), AddressOf(v, dst), RouteTo(v, n, dst);
            if path.Some? then key in kernel' && Acts(v, kernel'[key], path.value, n, dst)
            else Untouched(kernel, kernel', key)
  {
    EndsAreNodes(v);
    hide WellFormed, PathsJoin, Acts, RouteLine, SourceLines, Exec, Ends, DistinctKeys;
    if n in Ends(v) {
      SourceDistinct(v, n);
      RoutesMention(v, n, dst);
      ExecKey(kernel, SourceLines(v, n), AddressOf(v, dst));
      if dst in Ends(v) && RouteLine(v, PortsOf(v, n), n, dst).Some? {
        RouteActs(v, n, dst);
        RouteKey(v, n, dst);
        RouteOfAddress(v, n, dst, RouteLine(v, PortsOf(v, n), n, dst).value);
      }
    }
  }

  lemma ForwardAt(kernel: Kernel, v: View, n: nat, dst: nat)
    requires WellFormed(v) && n in v.sids && n in v.nodes && dst in v.nodes
    ensures var kernel', key := Exec(kernel, WantForward(v, n)), AddressOf(v, dst);
            if LinkedStation(v, n, dst) then key in kernel' && Acts(v, kernel'[key], [n, dst], n, dst)
            else Untouched(kernel, kernel', key)
  {
    SatellitesListed(v);
    KindsApart(v, n);
    hide WellFormed, Acts, ForwardLines, Exec, DistinctKeys, PortsOf;
    var key := AddressOf(v, dst);
    if n in v.satellites {
      ForwardDistinct(v, n);
      ExecKey(kernel, ForwardLines(v, n), key);
      if LinkedStation(v, n, dst) {
        var line := Line(key, Via(dst, PortsOf(v, n)[dst].peerIp, []));
        ForwardOfAddress(v, n, dst, line);
        LinkActs(v, n, dst);
      } else if Mentions(ForwardLines(v, n), key) {
        var i :| 0 <= i < |ForwardLines(v, n)| && ForwardLines(v, n)[i].key == key;
        ForwardOfAddress(v, n, dst, ForwardLines(v, n)[i]);
      }
    } else {
      NothingSent(kernel);
    }
  }

  /** A resent route is for a ground station. */
  lemma SentFor(v: View, n: nat, line: Line) returns (gs: nat)
    requires WellFormed(v) && n in v.nodes && n in v.sids && line in StationRoutes(v, n) && line.key.ForAddress?
    ensures gs in v.stations && gs in v.nodes && line.key == AddressOf(v, gs)
  {
    StationsOnce(v);
    SentKeys(v, n);
    var routes := RouteLines(Looked(v, n), PortsOf(v, n), n, v.stations);
    assert StationRoutes(v, n) == [OwnLine(v, n)] + routes;
    hide WellFormed, RouteLine, StationRoutes, Looked, PortsOf, RouteLines;
    RouteMembers(Looked(v, n), PortsOf(v, n), n, v.stations, line);
    gs :| gs in v.stations && SentRoute(v, n, gs) == Some(line);
  }

  lemma SentForStations(v: View, n: nat, dst: nat)
    requires WellFormed(v) && n in v.nodes && n in v.sids && dst in v.nodes && dst !in v.stations
    ensures !Mentions(StationRoutes(v, n), AddressOf(v, dst))
  {
    SentKeys(v, n);
    hide WellFormed, RouteLine, StationRoutes;
    if Mentions(StationRoutes(v, n), AddressOf(v, dst)) {
      var i :| 0 <= i < |StationRoutes(v, n)| && StationRoutes(v, n)[i].key == AddressOf(v, dst);
      var gs := SentFor(v, n, StationRoutes(v, n)[i]);
    }
  }

  lemma LookedJoins(v: View, n: nat)
    requires WellFormed(v) && PathsJoin(v)
    ensures WellFormed(Looked(v, n)) && PathsJoin(Looked(v, n))
  {
    LookedFormed(v, n);
    hide WellFormed;
  }

  lemma LookedActs(v: View, n: nat, dst: nat)
    requires WellFormed(v) && PathsJoin(v) && n in v.nodes && dst in v.nodes && SentRoute(v, n, dst).Some?
    ensures PathOf(Looked(v, n), n, dst).Some?
    ensures Acts(v, SentRoute(v, n, dst).value.action, PathOf(Looked(v, n), n, dst).value, n, dst)
  {
    LookedJoins(v, n);
    var looked := Looked(v, n);
    assert looked.nodes == v.nodes && looked.sids == v.sids && looked.usePhp == v.usePhp;
    hide WellFormed, PathsJoin, RouteLine, Looked, PathOf;
    RouteActs(looked, n, dst);
  }

  lemma ResentAt(kernel: Kernel, v: View, n: nat, dst: nat)
    requires WellFormed(v) && PathsJoin(v) && n in v.stations && n in v.sids && n in v.nodes && dst in v.nodes
    ensures var kernel', key, path := Exec(kernel, StationRoutes(v, n)), AddressOf(v, dst), SentTo(v, n, dst);
            if path.Some? then key in kernel' && Acts(v, kernel'[key], path.value, n, dst)
            else Untouched(kernel, kernel', key)
  {
    hide WellFormed, PathsJoin, Acts, RouteLine, StationRoutes, Exec, DistinctKeys, PortsOf, Looked, SentRoute;
    StationRoutesDistinct(v, n);
    var key := AddressOf(v, dst);
    ExecKey(kernel, StationRoutes(v, n), key);
    if dst !in v.stations {
      SentForStations(v, n, dst);
    } else if SentRoute(v, n, dst).Some? {
      SentKeys(v, n);
      SentMembers(v, n, dst, SentRoute(v, n, dst).value);
      LookedActs(v, n, dst);
    } else {
      SentMembers(v, n, dst, Line(key, Local));
    }
  }

  /** The kernel sends the packets of a node for a destination on a path, or has no line for them. */
  ghost predicate Follows(v: View, kernel: Kernel, n: nat, dst: nat, path: Option<seq<nat>>)
    requires n in v.nodes && dst in v.nodes
  {
    && (AddressOf(v, dst) in kernel <==> path.Some?)
    && (path.Some? ==> Acts(v, kernel[AddressOf(v, dst)], path.value, n, dst))
  }

  /** One event gives a path or leaves the node as it was. */
  ghost predicate GivenBy(v: View, kernel: Kernel, kernel': Kernel, n: nat, dst: nat, path: Option<seq<nat>>)
    requires n in v.nodes && dst in v.nodes
  {
    if path.Some? then
      AddressOf(v, dst) in kernel' && Acts(v, kernel'[AddressOf(v, dst)], path.value, n, dst)
    else Untouched(kernel, kernel', AddressOf(v, dst))
  }

  lemma StepGives(kernel: Kernel, n: nat, e: NetEvent, dst: nat)
    requires !e.Remove? && Proper(e) && PathsJoin(e.view)
    requires n in e.view.sids && n in e.view.nodes && dst in e.view.nodes
    ensures GivenBy(e.view, kernel, KernelStep(kernel, n, e), n, dst, GivenPath(e, n, dst))
  {
    hide WellFormed, PathsJoin, Acts, RoutesSent, WantForward, Exec, StationRoutes, RouteTo, SentTo, LinkedStation;
    match e
    case Update(v, _) => RoutesAt(kernel, v, n, dst);
    case Init(v, _) =>
      ForwardAt(kernel, v, n, dst);
      RoutesAt(Exec(kernel, WantForward(v, n)), v, n, dst);
    case Resend(v, src) =>
      if n == src {
        if n in v.stations {
          ResentAt(kernel, v, n, dst);
        } else {
          NotSent(v, n, dst);
        }
      }
  }

  lemma NotSent(v: View, n: nat, dst: nat)
    requires WellFormed(v) && n !in v.stations
    ensures SentTo(v, n, dst).None?
  {
  }

  lemma StillGives(v: View, v': View, kernel: Kernel, kernel': Kernel, n: nat, dst: nat, path: Option<seq<nat>>)
    requires Still(v, v') && n in v.nodes && dst in v.nodes && GivenBy(v', kernel, kernel', n, dst, path)
    ensures GivenBy(v, kernel, kernel', n, dst, path)
  {
    hide WellFormed;
  }

  ghost predicate AllJoin(events: seq<NetEvent>) {
    forall i | 0 <= i < |events| :: !events[i].Remove? ==> PathsJoin(events[i].view)
  }

  lemma LastGives(v: View, n: nat, events: seq<NetEvent>, dst: nat)
    requires WellFormed(v) && StillRun(v, events) && AllProper(events) && AllJoin(events)
    requires n in v.sids && n in v.nodes && dst in v.nodes
    ensures var k := |events| - 1;
            GivenBy(v, KernelAfter(n, events[..k]), KernelAfter(n, events), n, dst, GivenPath(events[k], n, dst))
  {
    var k := |events| - 1;
    assert StillEvent(v, events[k]);
    hide WellFormed, GivenPath, GivenBy, KernelStep, PathsJoin;
    StepGives(KernelAfter(n, events[..k]), n, events[k], dst);
    StillGives(v, events[k].view, KernelAfter(n, events[..k]), KernelAfter(n, events), n, dst,
               GivenPath(events[k], n, dst));
  }

  lemma NextFollows(v: View, kernel: Kernel, kernel': Kernel, n: nat, dst: nat, before: Option<seq<nat>>,
                    given: Option<seq<nat>>)
    requires n in v.nodes && dst in v.nodes
    requires Follows(v, kernel, n, dst, before) && GivenBy(v, kernel, kernel', n, dst, given)
    ensures Follows(v, kernel', n, dst, if given.Some? then given else before)
  {
    hide Acts;
  }

  /** After such a run every node sends the packets for a destination on the last path it was given. */
  lemma {:induction false} AddressAfter(v: View, n: nat, events: seq<NetEvent>, dst: nat)
    requires WellFormed(v) && StillRun(v, events) && AllProper(events) && AllJoin(events)
    requires n in v.sids && n in v.nodes && dst in v.nodes
    ensures Follows(v, KernelAfter(n, events), n, dst, PathAfter(n, dst, events))
  {
    var k := |events| - 1;
    assert k == 0 ==> events[..k] == [];
    hide WellFormed, GivenPath, KernelStep, Acts, PathsJoin, StillEvent, GivenBy;
    LastGives(v, n, events, dst);
    if k > 0 {
      StillPrefix(v, events);
      AddressAfter(v, n, events[..k], dst);
    }
    hide StillRun, Follows, AllJoin;
    assert k == 0 ==> Follows(v, map[], n, dst, None) by { NothingFollows(v, n, dst); }
    NextFollows(v, KernelAfter(n, events[..k]), KernelAfter(n, events), n, dst, PathAfter(n, dst, events[..k]),
                GivenPath(events[k], n, dst));
  }

  lemma NothingFollows(v: View, n: nat, dst: nat)
    requires n in v.nodes && dst in v.nodes
    ensures Follows(v, map[], n, dst, None)
  {
  }

  // ---- Labels ----

  /** Two kernels say the same of labels. */
  ghost predicate SameForLabels(a: Kernel, b: Kernel) {
    forall sid :: Untouched(a, b, ForLabel(sid))
  }

  /** The label lines of a list are all in a kernel. */
  predicate LabelsIn(lines: seq<Line>, kernel: Kernel) {
    forall line | line in lines && line.key.ForLabel? :: Has(kernel, line)
  }

  lemma SendingKeepsLabels(base: Kernel, kernel: Kernel, lines: seq<Line>)
    requires SameForLabels(base, kernel) && LabelsIn(lines, base) && DistinctKeys(lines)
    ensures SameForLabels(base, Exec(kernel, lines))
  {
    forall sid ensures Untouched(base, Exec(kernel, lines), ForLabel(sid)) {
      ExecKey(kernel, lines, ForLabel(sid));
      assert Untouched(base, kernel, ForLabel(sid));
      if Mentions(lines, ForLabel(sid)) {
        var i :| 0 <= i < |lines| && lines[i].key == ForLabel(sid);
        assert lines[i] in lines;
      }
    }
  }

  /** The label lines of a first build are all that is ever sent. */
  lemma FirstLabels(v: View, n: nat)
    requires WellFormed(v) && n in v.sids && n in v.nodes
    ensures Has(FirstKernel(v, n), OwnLine(v, n)) && LabelsIn(WantForward(v, n), FirstKernel(v, n))
  {
    FirstNetReady(v);
    hide FirstKernel, WellFormed, WantForward, NoOtherLabels;
    OwnServed(v, n, FirstKernel(v, n));
    forall line | line in WantForward(v, n) && line.key.ForLabel? ensures Has(FirstKernel(v, n), line) {
      ForwardLabel(v, n, FirstKernel(v, n), line);
    }
  }

  lemma ForwardLabel(v: View, n: nat, kernel: Kernel, line: Line)
    requires WellFormed(v) && n in v.sids && Served(v, n, kernel) && line in WantForward(v, n) && line.key.ForLabel?
    ensures Has(kernel, line)
  {
    OwnServed(v, n, kernel);
    if line != OwnLine(v, n) {
      StationMembers(v, v.stations, PortsOf(v, n), line);
      assert line in NeighbourLines(v, v.nodes[n].ifaces);
      NeighbourServed(v, n, kernel, line);
    }
  }

  lemma SourceLabels(v: View, n: nat, kernel: Kernel)
    requires WellFormed(v) && n in v.sids && n in v.nodes && Has(kernel, OwnLine(v, n))
    ensures LabelsIn(SourceLines(v, n), kernel) && LabelsIn(StationRoutes(v, n), kernel)
  {
    hide WellFormed;
    StationsOnce(v);
    forall line | line in SourceLines(v, n) && line.key.ForLabel? ensures line == OwnLine(v, n) {
      OnlyOwnLabel(v, n, line);
    }
    forall line | line in StationRoutes(v, n) && line.key.ForLabel? ensures line == OwnLine(v, n) {
      if line in RouteLines(Looked(v, n), PortsOf(v, n), n, v.stations) {
        RouteMembers(Looked(v, n), PortsOf(v, n), n, v.stations, line);
      }
    }
  }

  lemma StepKeepsLabels(v: View, base: Kernel, kernel: Kernel, n: nat, e: NetEvent)
    requires WellFormed(v) && StillEvent(v, e) && n in v.sids && n in v.nodes && SameForLabels(base, kernel)
    requires Has(base, OwnLine(v, n)) && LabelsIn(WantForward(v, n), base)
    ensures SameForLabels(base, KernelStep(kernel, n, e))
  {
    var v' := e.view;
    SameForward(v, v', n);
    SourceLabels(v', n, base);
    WantedOnce(v', n);
    StationRoutesDistinct(v', n);
    hide WellFormed, SameForLabels, LabelsIn, SourceLines, StationRoutes, WantForward, Exec, DistinctKeys;
    match e
    case Update(_, _) => RoutesKeepLabels(base, kernel, v', n);
    case Init(_, _) =>
      SendingKeepsLabels(base, kernel, WantForward(v', n));
      RoutesKeepLabels(base, Exec(kernel, WantForward(v', n)), v', n);
    case Resend(_, src) =>
      if n == src && n in v'.stations {
        SendingKeepsLabels(base, kernel, StationRoutes(v', n));
      }
  }

  lemma RoutesKeepLabels(base: Kernel, kernel: Kernel, v: View, n: nat)
    requires WellFormed(v) && n in v.sids && n in v.nodes && SameForLabels(base, kernel)
    requires LabelsIn(SourceLines(v, n), base)
    ensures SameForLabels(base, RoutesSent(kernel, v, n))
  {
    WantedOnce(v, n);
    hide WellFormed, SameForLabels, LabelsIn, SourceLines, Exec, DistinctKeys;
    if WantRoutes(v, n).Some? {
      SendingKeepsLabels(base, kernel, WantRoutes(v, n).value);
    }
  }

  lemma {:induction false} LabelsAfter(v: View, n: nat, events: seq<NetEvent>)
    requires WellFormed(v) && StillRun(v, events) && AllProper(events) && n in v.sids && n in v.nodes
    ensures SameForLabels(FirstKernel(v, n), KernelAfter(n, events))
  {
    var k := |events| - 1;
    assert StillEvent(v, events[k]);
    if k > 0 {
      StillPrefix(v, events);
      LabelsAfter(v, n, events[..k]);
      FirstLabels(v, n);
      hide WellFormed, FirstKernel, KernelStep, SameForLabels, LabelsIn, StillEvent, WantForward;
      StepKeepsLabels(v, FirstKernel(v, n), KernelAfter(n, events[..k]), n, events[k]);
    } else {
      assert events == [Init(v, map[])];
      hide WellFormed, FirstKernel, KernelStep;
      FirstInitAt(v, n);
      KernelIs(v, n, events);
    }
  }

  // ---- The network ----

  /** Nodes that have nothing yet. */
  function Empty(v: View): map<nat, Memory> {
    map n | n in v.sids :: EMPTY
  }

  lemma NetIs(v: View, events: seq<NetEvent>, n: nat)
    requires WellFormed(v) && StillRun(v, events) && AllProper(events)
    ensures n in NetAfter(v, Empty(v), events) <==> n in v.sids
    ensures n in v.sids ==> NetAfter(v, Empty(v), events)[n] == KernelAfter(n, events)
  {
    hide WellFormed, NodeRun, KernelAfter;
    KernelIs(v, n, events);
  }

  lemma SameReady(v: View, net: map<nat, Kernel>, net': map<nat, Kernel>)
    requires WellFormed(v) && Ready(v, net) && NoOtherLabels(net, v.sids, SatellitePeers(v))
    requires net.Keys == net'.Keys && forall n | n in net :: SameForLabels(net[n], net'[n])
    ensures Ready(v, net') && NoOtherLabels(net', v.sids, SatellitePeers(v))
  {
    SatellitesListed(v);
    forall n | n in v.satellites ensures Holds(net'[n], NeighbourLines(v, v.nodes[n].ifaces)) {
      assert SameForLabels(net[n], net'[n]);
      hide WellFormed, NoOtherLabels, Ready;
      forall i | 0 <= i < |NeighbourLines(v, v.nodes[n].ifaces)|
        ensures Has(net'[n], NeighbourLines(v, v.nodes[n].ifaces)[i])
      {
        NeighbourMembers(v, v.nodes[n].ifaces, NeighbourLines(v, v.nodes[n].ifaces)[i]);
        assert Has(net[n], NeighbourLines(v, v.nodes[n].ifaces)[i]);
      }
    }
    OwnAndOthers(v, net, net');
  }

  lemma OwnAndOthers(v: View, net: map<nat, Kernel>, net': map<nat, Kernel>)
    requires WellFormed(v) && Ready(v, net) && NoOtherLabels(net, v.sids, SatellitePeers(v))
    requires net.Keys == net'.Keys && forall n | n in net :: SameForLabels(net[n], net'[n])
    ensures forall n | n in v.sids :: n in net' && Has(net'[n], OwnLine(v, n))
    ensures NoOtherLabels(net', v.sids, SatellitePeers(v))
  {
    hide WellFormed, SatellitePeers, NeighbourLines, Step;
    forall n | n in v.sids ensures n in net' && Has(net'[n], OwnLine(v, n)) {
      assert Untouched(net[n], net'[n], ForLabel(v.sids[n]));
    }
    forall n, m | n in net' && m in v.sids && ForLabel(v.sids[m]) in net'[n] ensures Step(SatellitePeers(v), n, m) {
      assert Untouched(net[n], net'[n], ForLabel(v.sids[m]));
    }
  }

  lemma NetLabels(v: View, events: seq<NetEvent>, n: nat)
    requires WellFormed(v) && StillRun(v, events) && AllProper(events)
    ensures n in FirstNet(v) <==> n in NetAfter(v, Empty(v), events)
    ensures n in FirstNet(v) ==> SameForLabels(FirstNet(v)[n], NetAfter(v, Empty(v), events)[n])
  {
    hide WellFormed, KernelAfter, FirstKernel, NodeRun, SameForLabels, NetAfter;
    NetIs(v, events, n);
    if n in v.sids {
      InNodes(v, n);
      LabelsAfter(v, n, events);
    }
  }

  lemma NetReady(v: View, events: seq<NetEvent>)
    requires WellFormed(v) && StillRun(v, events) && AllProper(events)
    ensures var net := NetAfter(v, Empty(v), events);
            Ready(v, net) && NoOtherLabels(net, v.sids, SatellitePeers(v))
  {
    hide *;
    FirstNetReady(v);
    ServedReady(v, FirstNet(v));
    var first, net := FirstNet(v), NetAfter(v, Empty(v), events);
    forall n ensures (n in first <==> n in net) && (n in first ==> SameForLabels(first[n], net[n])) {
      NetLabels(v, events, n);
    }
    assert first.Keys == net.Keys;
    SameReady(v, first, net);
  }

  // ---- Packets ----

  /** From its first node the path goes over the link to the destination and nowhere else. */
  predicate OnlyLink(v: View, path: seq<nat>, dst: nat) {
    |path| >= 2 && path[1] == dst && (|path| == 2 || (v.usePhp && |path| == 3))
  }

  /** What the path of a pair needs for its packets to be carried along it: the labels can be followed, and under
      penultimate hop popping the last path of the node before the last one is its link to the destination. */
  predicate CarriedAfter(v: View, path: seq<nat>, dst: nat, events: seq<NetEvent>)
    requires WellFormed(v) && |path| >= 2 && AllProper(events)
  {
    && Followable(SatellitePeers(v), path[1], Pushed(v, path))
    && (v.usePhp && |path| >= 3 ==> LinkIsLast(v, path[|path| - 2], dst, events))
  }

  /** The last path of a node is its link to the destination. */
  predicate LinkIsLast(v: View, mid: nat, dst: nat, events: seq<NetEvent>)
    requires AllProper(events)
  {
    && mid != dst && mid in v.sids && PathAfter(mid, dst, events).Some?
    && OnlyLink(v, PathAfter(mid, dst, events).value, dst)
  }

  lemma ActsDirect(v: View, action: Action, path: seq<nat>, n: nat, dst: nat)
    requires n in v.nodes && Acts(v, action, path, n, dst)
    ensures OnlyLink(v, path, dst) <==> action.peer == dst && action.push == []
  {
    assert |Labels(v.sids, Pushed(v, path))| == |Pushed(v, path)|;
    assert v.usePhp && |path| >= 3 ==> Pushed(v, path) == path[2..|path| - 1] by {
      if v.usePhp && |path| >= 3 {
        PhpPieces(v, path);
      }
    }
    assert !v.usePhp ==> Pushed(v, path) == path[2..];
  }

  lemma HandsOverAfter(v: View, net: map<nat, Kernel>, mid: nat, dst: nat, path: Option<seq<nat>>)
    requires mid in v.nodes && dst in v.nodes && mid in net && Follows(v, net[mid], mid, dst, path)
    ensures Leg(net, mid, v.nodes[dst].loopback) == Journey([dst], true)
            <==> path.Some? && OnlyLink(v, path.value, dst)
  {
    LegDirect(net, mid, v.nodes[dst].loopback, dst);
    hide Leg, Acts, OnlyLink;
    if path.Some? {
      ActsDirect(v, net[mid][AddressOf(v, dst)], path.value, mid, dst);
      ViaActs(v, net[mid][AddressOf(v, dst)], path.value, mid, dst);
    }
  }

  lemma ViaActs(v: View, action: Action, path: seq<nat>, n: nat, dst: nat)
    requires n in v.nodes && Acts(v, action, path, n, dst)
    ensures action.Via? && |path| >= 2 && n != dst && path[|path| - 1] == dst
  {
  }

  /** The first leg of a packet that is sent on a path. */
  lemma LegAfter(v: View, net: map<nat, Kernel>, src: nat, dst: nat, path: seq<nat>)
    requires WellFormed(v) && Ready(v, net) && NoOtherLabels(net, v.sids, SatellitePeers(v))
    requires src in v.nodes && dst in v.nodes && src in net && Follows(v, net[src], src, dst, Some(path))
    ensures |path| >= 2
    ensures var rest, leg := Pushed(v, path), Leg(net, src, v.nodes[dst].loopback);
            if Followable(SatellitePeers(v), path[1], rest) then leg == Journey([path[1]] + rest, true)
            else !leg.arrived
  {
    hide WellFormed, Ready, NoOtherLabels, LabelsInstalled, Followable, Labelled, SatellitePeers, Pushed;
    ReadyInstalls(v, net);
    StackIsFollowed(net, v.sids, SatellitePeers(v), path[1], Pushed(v, path));
  }

  lemma LostLeg(net: map<nat, Kernel>, at: nat, address: string, d: nat, lookups: nat)
    requires at != d && lookups >= 1 && !Leg(net, at, address).arrived
    ensures !Travel(net, at, address, d, lookups).arrived
  {
  }

  lemma LastLeg(net: map<nat, Kernel>, at: nat, address: string, d: nat, lookups: nat, visited: seq<nat>)
    requires at != d && lookups >= 1 && Leg(net, at, address) == Journey(visited, true)
    requires visited != [] && visited[|visited| - 1] == d
    ensures Travel(net, at, address, d, lookups) == Journey(visited, true)
  {
    assert visited + [] == visited;
  }

  /** A packet that is sent on a path goes all of it exactly when the labels lead on and the node before the last
      hands it over. */
  lemma JourneyOn(v: View, net: map<nat, Kernel>, src: nat, dst: nat, path: seq<nat>, lookups: nat)
    requires WellFormed(v) && Ready(v, net) && NoOtherLabels(net, v.sids, SatellitePeers(v))
    requires src in v.nodes && dst in v.nodes && src in net && Follows(v, net[src], src, dst, Some(path))
    requires lookups >= if v.usePhp then 2 else 1
    ensures |path| >= 2
    ensures Travel(net, src, v.nodes[dst].loopback, dst, lookups) == Journey(path[1..], true)
            <==> && Followable(SatellitePeers(v), path[1], Pushed(v, path))
                 && (v.usePhp && |path| >= 3 ==> HandsOverIn(v, net, path[|path| - 2], dst))
  {
    hide *;
    LegAfter(v, net, src, dst, path);
    FollowsPath(v, net[src], src, dst, path);
    if Followable(SatellitePeers(v), path[1], Pushed(v, path)) {
      if v.usePhp && |path| >= 3 {
        TwoLegs(v, net, src, dst, path, lookups);
      } else {
        OneLeg(v, path);
        LastLeg(net, src, v.nodes[dst].loopback, dst, lookups, path[1..]);
      }
    } else {
      LostLeg(net, src, v.nodes[dst].loopback, dst, lookups);
    }
  }

  lemma FollowsPath(v: View, kernel: Kernel, n: nat, dst: nat, path: seq<nat>)
    requires n in v.nodes && dst in v.nodes && Follows(v, kernel, n, dst, Some(path))
    ensures |path| >= 2 && n != dst && path[|path| - 1] == dst
  {
  }

  lemma NodeFollows(v: View, events: seq<NetEvent>, n: nat, dst: nat)
    requires WellFormed(v) && StillRun(v, events) && AllProper(events) && AllJoin(events)
    requires n in v.sids && n in v.nodes && dst in v.nodes
    ensures var net := NetAfter(v, Empty(v), events);
            n in net && Follows(v, net[n], n, dst, PathAfter(n, dst, events))
  {
    hide *;
    NetIs(v, events, n);
    AddressAfter(v, n, events, dst);
  }

  lemma MidHandsOver(v: View, events: seq<NetEvent>, mid: nat, dst: nat)
    requires WellFormed(v) && StillRun(v, events) && AllProper(events) && AllJoin(events) && dst in v.nodes
    ensures HandsOverIn(v, NetAfter(v, Empty(v), events), mid, dst) <==> LinkIsLast(v, mid, dst, events)
  {
    var net := NetAfter(v, Empty(v), events);
    NetIs(v, events, mid);
    if mid in v.sids {
      InNodes(v, mid);
      NodeFollows(v, events, mid, dst);
      hide WellFormed, Leg, NetAfter, PathAfter, Follows, OnlyLink;
      HandsOverAfter(v, net, mid, dst, PathAfter(mid, dst, events));
    } else {
      LegDirect(net, mid, v.nodes[dst].loopback, dst);
    }
  }

  /** In every run of a topology that stands, for every pair that was ever given a path: packets are carried along
      the last one exactly when its labels can be followed and, with penultimate hop popping, the last path of the
      node before the last is its link. */
  lemma StoredDelivers(v: View, events: seq<NetEvent>, src: nat, dst: nat, lookups: nat)
    requires WellFormed(v) && StillRun(v, events) && AllProper(events) && AllJoin(events)
    requires src in v.sids && src in v.nodes && dst in v.nodes && PathAfter(src, dst, events).Some?
    requires lookups >= if v.usePhp then 2 else 1
    ensures var path := PathAfter(src, dst, events).value;
            && |path| >= 2
            && (Travel(NetAfter(v, Empty(v), events), src, v.nodes[dst].loopback, dst, lookups)
                == Journey(path[1..], true)
                <==> CarriedAfter(v, path, dst, events))
  {
    var path, net := PathAfter(src, dst, events).value, NetAfter(v, Empty(v), events);
    hide *;
    NetReady(v, events);
    NodeFollows(v, events, src, dst);
    JourneyOn(v, net, src, dst, path, lookups);
    MidHandsOver(v, events, path[|path| - 2], dst);
    CarriedExact(v, path, dst, events);
  }

  lemma CarriedExact(v: View, path: seq<nat>, dst: nat, events: seq<NetEvent>)
    requires WellFormed(v) && |path| >= 2 && AllProper(events)
    ensures CarriedAfter(v, path, dst, events)
            <==> && Followable(SatellitePeers(v), path[1], Pushed(v, path))
                 && (v.usePhp && |path| >= 3 ==> LinkIsLast(v, path[|path| - 2], dst, events))
  {
  }

  // ---- Runs in which no route is lost ----

  /** The path of the route an event gives a node of its own. */
  function RouteGiven(e: NetEvent, n: nat, dst: nat): Option<seq<nat>>
    requires Proper(e)
  {
    match e
    case Update(v, _) => RouteTo(v, n, dst)
    case Init(v, _) => RouteTo(v, n, dst)
    case Resend(v, src) => if n == src then SentTo(v, n, dst) else None
    case Remove(_) => None
  }

  /** The last event is an update or an init of that view. */
  predicate EndsWith(events: seq<NetEvent>, v: View) {
    events != [] && (events[|events| - 1].Update? || events[|events| - 1].Init?) && events[|events| - 1].view == v
  }

  /** If the node ever had a route to the destination, it has one now. */
  ghost predicate KeepsRoute(v: View, n: nat, dst: nat, events: seq<NetEvent>)
    requires WellFormed(v) && AllProper(events)
  {
    RouteTo(v, n, dst).None? ==> forall i | 0 <= i < |events| :: RouteGiven(events[i], n, dst).None?
  }

  /** Links are those of the first view. */
  lemma SameLinked(v: View, v': View, n: nat, dst: nat)
    requires WellFormed(v) && Still(v, v')
    ensures LinkedStation(v', n, dst) <==> LinkedStation(v, n, dst)
  {
  }

  lemma {:induction false} NeverRouted(v: View, n: nat, dst: nat, events: seq<NetEvent>)
    requires WellFormed(v) && StillRun(v, events) && AllProper(events)
    requires forall i | 0 <= i < |events| :: RouteGiven(events[i], n, dst).None?
    ensures PathAfter(n, dst, events) == if LinkedStation(v, n, dst) then Some([n, dst]) else None
  {
    var k := |events| - 1;
    assert StillEvent(v, events[k]);
    hide WellFormed, LinkedStation, RouteTo, SentTo;
    SameLinked(v, events[k].view, n, dst);
    assert RouteGiven(events[k], n, dst).None?;
    if k > 0 {
      StillPrefix(v, events);
      NeverRouted(v, n, dst, events[..k]);
    } else {
      assert events[..k] == [];
    }
  }

  /** After an update such a node has the path a first init would give it. */
  lemma PathAsFirst(v: View, v': View, n: nat, dst: nat, events: seq<NetEvent>)
    requires WellFormed(v) && StillRun(v, events) && AllProper(events) && WellFormed(v')
    requires EndsWith(events, v') && KeepsRoute(v', n, dst, events)
    ensures PathAfter(n, dst, events) == GivenPath(Init(v', map[]), n, dst)
  {
    var k := |events| - 1;
    assert StillEvent(v, events[k]);
    hide WellFormed, LinkedStation, RouteTo, SentTo, StillRun, StillEvent;
    SameLinked(v, v', n, dst);
    if RouteTo(v', n, dst).None? {
      NeverRouted(v, n, dst, events);
    }
  }

  lemma LinkOfRoute(v: View, n: nat, dst: nat)
    requires WellFormed(v) && PathsJoin(v) && n in v.nodes && dst in v.nodes
    requires RouteLine(v, PortsOf(v, n), n, dst).Some?
    ensures PathOf(v, n, dst).Some? && (Direct(v, n, dst) <==> OnlyLink(v, PathOf(v, n, dst).value, dst))
  {
    hide WellFormed, RouteLine, PathsJoin, Segments;
    var path := RouteShape(v, n, dst);
    assert path[0] == n by { JoinsAt(v, n, dst); }
    assert OnlyLink(v, path, dst) ==> path == [n, dst] || path == [n, dst, dst];
  }

  lemma JoinsAt(v: View, n: nat, dst: nat)
    requires PathsJoin(v) && PathOf(v, n, dst).Some?
    ensures Joins(PathOf(v, n, dst).value, n, dst)
  {
  }

  lemma HandsOverGiven(v: View, n: nat, dst: nat)
    requires WellFormed(v) && PathsJoin(v) && n in v.nodes && dst in v.nodes && dst in Ends(v) && n != dst
    ensures var path := GivenPath(Init(v, map[]), n, dst);
            HandsOver(v, n, dst) <==> path.Some? && OnlyLink(v, path.value, dst)
  {
    EndsAreNodes(v);
    hide WellFormed, RouteLine, PathsJoin, PathOf, Ends, Direct;
    if n in Ends(v) && RouteLine(v, PortsOf(v, n), n, dst).Some? {
      LinkOfRoute(v, n, dst);
    }
  }

  lemma CarriedAsFirst(v: View, v': View, path: seq<nat>, dst: nat, events: seq<NetEvent>)
    requires WellFormed(v) && StillRun(v, events) && AllProper(events) && AllJoin(events) && WellFormed(v')
    requires EndsWith(events, v') && |path| >= 2 && dst in v'.nodes && dst in Ends(v')
    requires forall n | n in v'.sids :: KeepsRoute(v', n, dst, events)
    ensures CarriedAfter(v, path, dst, events) <==> Carried(v', path, dst)
  {
    LastStill(v, v', events);
    CarriedExact(v, path, dst, events);
    var mid := path[|path| - 2];
    hide WellFormed, StillRun, AllProper, AllJoin, PathAfter, SatellitePeers, Followable, Pushed, HandsOver, OnlyLink,
         KeepsRoute, GivenPath, PathsJoin, EndsWith, Ends, CarriedAfter;
    HandsOverKnown(v', mid, dst);
    if mid in v'.sids && mid != dst {
      InNodes(v', mid);
      PathAsFirst(v, v', mid, dst, events);
      HandsOverGiven(v', mid, dst);
    }
  }

  lemma HandsOverKnown(v: View, n: nat, dst: nat)
    requires WellFormed(v) && dst in v.nodes
    ensures HandsOver(v, n, dst) ==> n in v.sids
  {
    EndsAreNodes(v);
    SatellitesListed(v);
  }

  lemma LastStill(v: View, v': View, events: seq<NetEvent>)
    requires WellFormed(v) && StillRun(v, events) && AllJoin(events) && EndsWith(events, v')
    ensures Still(v, v') && PathsJoin(v') && SatellitePeers(v') == SatellitePeers(v)
    ensures forall path | |path| >= 2 :: Pushed(v', path) == Pushed(v, path)
    ensures forall path, dst :: OnlyLink(v', path, dst) <==> OnlyLink(v, path, dst)
  {
    assert StillEvent(v, events[|events| - 1]);
  }

  /** Every update or init after which each node that ever had a route to the destination has one: packets are
      carried along their path exactly under the condition of a first build. */
  lemma UpdateDelivers(v: View, v': View, events: seq<NetEvent>, src: nat, dst: nat, path: seq<nat>, lookups: nat)
    requires WellFormed(v) && StillRun(v, events) && AllProper(events) && AllJoin(events) && WellFormed(v')
    requires EndsWith(events, v') && src in Ends(v') && dst in Ends(v') && dst in v'.nodes
    requires Sends(v', src, dst, path) && lookups >= if v'.usePhp then 2 else 1
    requires forall n | n in v'.sids :: KeepsRoute(v', n, dst, events)
    ensures |path| >= 2
    ensures Travel(NetAfter(v, Empty(v), events), src, v'.nodes[dst].loopback, dst, lookups) == Journey(path[1..], true)
            <==> Carried(v', path, dst)
  {
    LastStill(v, v', events);
    SendsRoute(v', src, dst, path);
    LastPath(v', events, src, dst);
    EndsAreNodes(v');
    hide WellFormed, StillRun, AllProper, AllJoin, PathAfter, NetAfter, Travel, SatellitePeers, KeepsRoute, PathsJoin,
         EndsWith, Ends, RouteLine, PathOf, Carried, CarriedAfter, OnlyLink, Pushed, Sends;
    StoredDelivers(v, events, src, dst, lookups);
    CarriedAsFirst(v, v', path, dst, events);
  }

  lemma LastPath(v: View, events: seq<NetEvent>, src: nat, dst: nat)
    requires WellFormed(v) && PathsJoin(v) && AllProper(events) && EndsWith(events, v)
    requires src in Ends(v) && dst in Ends(v) && src in v.nodes && dst in v.nodes
    requires RouteLine(v, PortsOf(v, src), src, dst).Some?
    ensures PathOf(v, src, dst).Some? && PathAfter(src, dst, events) == PathOf(v, src, dst)
  {
    hide WellFormed, RouteLine, Ends, PathsJoin, PathOf, Acts;
    RouteActs(v, src, dst);
  }

  // ---- The whole network ----

  /** The key is a label or the address of a node. */
  ghost predicate KnownKey(v: View, key: Key) {
    key.ForLabel? || exists dst :: dst in v.nodes && key == AddressOf(v, dst)
  }

  ghost predicate KnownKeys(v: View, lines: seq<Line>) {
    forall line | line in lines :: KnownKey(v, line.key)
  }

  lemma {:induction false} SendingKnown(v: View, kernel: Kernel, lines: seq<Line>)
    requires KnownKeys(v, lines) && forall key | key in kernel :: KnownKey(v, key)
    ensures forall key | key in Exec(kernel, lines) :: KnownKey(v, key)
  {
    hide KnownKey;
    if lines != [] {
      SendingKnown(v, kernel, lines[..|lines| - 1]);
    }
  }

  lemma RoutesKnown(v: View, looked: View, n: nat, dsts: seq<nat>)
    requires n in v.nodes && looked.nodes == v.nodes && forall dst | dst in dsts :: dst in v.nodes
    ensures KnownKeys(v, RouteLines(looked, PortsOf(v, n), n, dsts))
  {
    forall line | line in RouteLines(looked, PortsOf(v, n), n, dsts) ensures KnownKey(v, line.key) {
      RouteMembers(looked, PortsOf(v, n), n, dsts, line);
      var dst :| dst in dsts && RouteLine(looked, PortsOf(v, n), n, dst) == Some(line);
      assert line.key == AddressOf(v, dst);
    }
  }

  lemma ForwardKnown(v: View, n: nat)
    requires WellFormed(v)
    ensures KnownKeys(v, WantForward(v, n))
  {
    if n in v.satellites {
      StationsOnce(v);
      SatellitesListed(v);
      hide WellFormed;
      forall line | line in ForwardLines(v, n) && line.key.ForAddress? ensures KnownKey(v, line.key) {
        NeighbourMembers(v, v.nodes[n].ifaces, line);
        StationMembers(v, v.stations, PortsOf(v, n), line);
        var gs :| gs in v.stations && gs in PortsOf(v, n)
                  && line == Line(ForAddress(v.nodes[gs].loopback), Via(gs, PortsOf(v, n)[gs].peerIp, []));
        assert line.key == AddressOf(v, gs);
      }
    }
  }

  lemma SourceKnown(v: View, n: nat)
    requires WellFormed(v) && n in v.nodes && n in v.sids
    ensures KnownKeys(v, SourceLines(v, n)) && KnownKeys(v, StationRoutes(v, n))
  {
    EndsAreNodes(v);
    StationsOnce(v);
    RoutesKnown(v, v, n, Ends(v));
    RoutesKnown(v, Looked(v, n), n, v.stations);
    hide WellFormed;
  }

  lemma StepKnown(v: View, kernel: Kernel, n: nat, e: NetEvent)
    requires Proper(e) && !e.Remove? && e.view == v && n in v.nodes && n in v.sids
    requires forall key | key in kernel :: KnownKey(v, key)
    ensures forall key | key in KernelStep(kernel, n, e) :: KnownKey(v, key)
  {
    ForwardKnown(v, n);
    SourceKnown(v, n);
    hide WellFormed, KnownKey, KnownKeys, SourceLines, StationRoutes, WantForward, Exec;
    match e
    case Update(_, _) => RoutesSentKnown(v, kernel, n);
    case Init(_, _) =>
      SendingKnown(v, kernel, WantForward(v, n));
      RoutesSentKnown(v, Exec(kernel, WantForward(v, n)), n);
    case Resend(_, src) => SendingKnown(v, kernel, StationRoutes(v, n));
  }

  lemma RoutesSentKnown(v: View, kernel: Kernel, n: nat)
    requires WellFormed(v) && n in v.nodes && n in v.sids && KnownKeys(v, SourceLines(v, n))
    requires forall key | key in kernel :: KnownKey(v, key)
    ensures forall key | key in RoutesSent(kernel, v, n) :: KnownKey(v, key)
  {
    hide WellFormed, KnownKey, KnownKeys, SourceLines, Exec;
    SendingKnown(v, kernel, SourceLines(v, n));
  }

  lemma StillKnown(v: View, v': View, kernel: Kernel)
    requires v'.nodes == v.nodes && forall key | key in kernel :: KnownKey(v, key)
    ensures forall key | key in kernel :: KnownKey(v', key)
  {
  }

  lemma {:induction false} KnownAfter(v: View, n: nat, events: seq<NetEvent>)
    requires WellFormed(v) && StillRun(v, events) && AllProper(events) && n in v.nodes && n in v.sids
    ensures forall key | key in KernelAfter(n, events) :: KnownKey(v, key)
  {
    var k := |events| - 1;
    assert StillEvent(v, events[k]);
    hide WellFormed, KernelStep, KnownKey;
    if k > 0 {
      StillPrefix(v, events);
      KnownAfter(v, n, events[..k]);
    } else {
      assert events[..k] == [];
    }
    StillKnown(v, events[k].view, KernelAfter(n, events[..k]));
    StepKnown(events[k].view, KernelAfter(n, events[..k]), n, events[k]);
    StillKnown(events[k].view, v, KernelAfter(n, events));
  }

  lemma SameFirstLabel(v: View, v': View, n: nat, line: Line)
    requires WellFormed(v) && Still(v, v') && n in v.sids && n in v.nodes && line.key.ForLabel?
    ensures Has(FirstKernel(v, n), line) <==> Has(FirstKernel(v', n), line)
  {
    SameForward(v, v', n);
    SameAddressable(v, v', v.satellites);
    FirstHas(v, n, line);
    FirstHas(v', n, line);
    OwnMentioned(v, n, line);
    OwnMentioned(v', n, line);
    hide FirstKernel, WantForward, SourceLines, WellFormed, Mentions;
  }

  /** Of the labels the routes of a node speak of its own only. */
  lemma OwnMentioned(v: View, n: nat, line: Line)
    requires WellFormed(v) && n in v.sids && n in v.nodes && line.key.ForLabel?
    ensures Mentions(SourceLines(v, n), line.key) <==> line.key == OwnLine(v, n).key
    ensures line in SourceLines(v, n) <==> line == OwnLine(v, n)
  {
    hide WellFormed;
    assert SourceLines(v, n)[0] == OwnLine(v, n);
    if line in SourceLines(v, n) {
      OnlyOwnLabel(v, n, line);
    }
    if Mentions(SourceLines(v, n), line.key) {
      var i :| 0 <= i < |SourceLines(v, n)| && SourceLines(v, n)[i].key == line.key;
      OnlyOwnLabel(v, n, SourceLines(v, n)[i]);
    }
  }

  lemma LabelAsFirst(v: View, v': View, n: nat, kernel: Kernel, key: Key)
    requires WellFormed(v) && Still(v, v') && n in v.sids && n in v.nodes && key.ForLabel?
    requires SameForLabels(FirstKernel(v, n), kernel)
    ensures Untouched(kernel, FirstKernel(v', n), key)
  {
    hide WellFormed, FirstKernel;
    assert Untouched(FirstKernel(v, n), kernel, ForLabel(key.sid));
    if key in kernel {
      SameFirstLabel(v, v', n, Line(key, kernel[key]));
    }
    if key in FirstKernel(v', n) {
      SameFirstLabel(v, v', n, Line(key, FirstKernel(v', n)[key]));
    }
  }

  /** Two kernels that send on the same path do so in the same way. */
  lemma FollowAlike(v: View, v': View, a: Kernel, b: Kernel, n: nat, dst: nat, path: Option<seq<nat>>)
    requires WellFormed(v) && Still(v, v') && n in v.nodes && dst in v.nodes
    requires Follows(v, a, n, dst, path) && Follows(v', b, n, dst, path)
    ensures Untouched(a, b, AddressOf(v, dst))
  {
    hide WellFormed;
  }

  /** The kernel of a first build as that of a run. */
  lemma FirstFollows(v: View, n: nat, dst: nat)
    requires WellFormed(v) && PathsJoin(v) && n in v.sids && n in v.nodes && dst in v.nodes
    ensures Follows(v, FirstKernel(v, n), n, dst, GivenPath(Init(v, map[]), n, dst))
    ensures forall key | key in FirstKernel(v, n) :: KnownKey(v, key)
  {
    var first := [Init(v, map[])];
    assert first[..0] == [] && Still(v, v);
    assert StillRun(v, first) && AllProper(first) && AllJoin(first);
    hide WellFormed, PathsJoin, KernelStep, FirstKernel, GivenPath, KnownKey, Follows, Still;
    KernelIs(v, n, first);
    FirstInitAt(v, n);
    KnownAfter(v, n, first);
    AddressAfter(v, n, first, dst);
    assert PathAfter(n, dst, first[..0]) == None;
  }

  lemma AddressAsFirst(v: View, v': View, n: nat, events: seq<NetEvent>, dst: nat)
    requires WellFormed(v) && StillRun(v, events) && AllProper(events) && AllJoin(events) && WellFormed(v')
    requires EndsWith(events, v') && n in v.sids && n in v.nodes && dst in v.nodes && KeepsRoute(v', n, dst, events)
    ensures Untouched(KernelAfter(n, events), FirstKernel(v', n), AddressOf(v, dst))
  {
    LastStill(v, v', events);
    hide WellFormed, KernelAfter, FirstKernel, KeepsRoute, StillRun, AllProper, AllJoin, PathsJoin, GivenPath, Follows,
         PathAfter, SatellitePeers, Pushed, OnlyLink, EndsWith, KnownKey;
    AddressAfter(v, n, events, dst);
    PathAsFirst(v, v', n, dst, events);
    FirstFollows(v', n, dst);
    FollowAlike(v, v', KernelAfter(n, events), FirstKernel(v', n), n, dst, PathAfter(n, dst, events));
  }

  lemma SameByKey(a: Kernel, b: Kernel)
    requires forall key :: Untouched(a, b, key)
    ensures a == b
  {
    forall key ensures (key in a <==> key in b) && (key in a ==> a[key] == b[key]) {
      assert Untouched(a, b, key);
    }
  }

  /** A node that has a route wherever it ever had one has the kernel of a first build. */
  lemma KernelAsFirst(v: View, v': View, n: nat, events: seq<NetEvent>)
    requires WellFormed(v) && StillRun(v, events) && AllProper(events) && AllJoin(events) && WellFormed(v')
    requires EndsWith(events, v') && n in v.sids && n in v.nodes
    requires forall dst | dst in v.nodes :: KeepsRoute(v', n, dst, events)
    ensures KernelAfter(n, events) == FirstKernel(v', n)
  {
    LastStill(v, v', events);
    LabelsAfter(v, n, events);
    KnownAfter(v, n, events);
    FirstFollows(v', n, n);
    hide WellFormed, KernelAfter, FirstKernel, KeepsRoute, StillRun, AllProper, AllJoin, PathsJoin, GivenPath, Follows,
         PathAfter, SatellitePeers, Pushed, OnlyLink, EndsWith, SameForLabels;
    forall key ensures Untouched(KernelAfter(n, events), FirstKernel(v', n), key) {
      if key.ForLabel? {
        LabelAsFirst(v, v', n, KernelAfter(n, events), key);
      } else if key in KernelAfter(n, events) || key in FirstKernel(v', n) {
        var dst :| dst in v.nodes && key == AddressOf(v, dst);
        AddressAsFirst(v, v', n, events, dst);
      }
    }
    SameByKey(KernelAfter(n, events), FirstKernel(v', n));
  }

  /** After every update or init at which each node has a route wherever it ever had one, the network is that of a
      first build of the paths of today, stored ones included. */
  lemma NetAsFirst(v: View, v': View, events: seq<NetEvent>)
    requires WellFormed(v) && StillRun(v, events) && AllProper(events) && AllJoin(events) && WellFormed(v')
    requires EndsWith(events, v')
    requires forall n, dst | n in v.sids && dst in v.nodes :: KeepsRoute(v', n, dst, events)
    ensures NetAfter(v, Empty(v), events) == FirstNet(v')
  {
    hide *;
    var net, first := NetAfter(v, Empty(v), events), FirstNet(v');
    forall n ensures (n in net <==> n in first) && (n in net ==> net[n] == first[n]) {
      NodeAsFirst(v, v', n, events);
    }
    SameNet(net, first);
  }

  lemma SameNet(a: map<nat, Kernel>, b: map<nat, Kernel>)
    requires forall n :: (n in a <==> n in b) && (n in a ==> a[n] == b[n])
    ensures a == b
  {
  }

  lemma NodeAsFirst(v: View, v': View, n: nat, events: seq<NetEvent>)
    requires WellFormed(v) && StillRun(v, events) && AllProper(events) && AllJoin(events) && WellFormed(v')
    requires EndsWith(events, v')
    requires forall n, dst | n in v.sids && dst in v.nodes :: KeepsRoute(v', n, dst, events)
    ensures var net, first := NetAfter(v, Empty(v), events), FirstNet(v');
            (n in net <==> n in first) && (n in net ==> net[n] == first[n])
  {
    LastStill(v, v', events);
    assert v'.sids == v.sids;
    hide WellFormed, KernelAfter, FirstKernel, KeepsRoute, StillRun, AllProper, AllJoin, PathsJoin, NetAfter,
         SatellitePeers, Pushed, OnlyLink, EndsWith;
    NetIs(v, events, n);
    if n in v.sids {
      InNodes(v, n);
      KernelAsFirst(v, v', n, events);
    }
  }
}

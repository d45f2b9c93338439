/** A stored path that an addressable satellite on it does not keep to: an init, and a path stored after it
    (satgonetem/routing/srmpls_daemon.py:422-479, 990-1041, 1049-1148). */
module SrDiverted {
  import opened Wrappers
  import opened RoutingEntries
  import opened SegmentRouting
  import opened LabelForwarding
  import opened SrRoutes
  import opened SrDelivery
  import opened SrJourneys
  import opened SrRuns
  import opened SrStored

  /** Ground stations 1 and 4, an addressable satellite 2 and a satellite 3; links 1-2, 2-3, 2-4 and 3-4; the shortest
      paths to 4 go over 3. */
  function Plain(): View {
    Fork().(custom := map[])
  }

  /** With a stored path from 1 to 4 that goes over 2 only. */
  function Fork(): View {
    View(map[1 := SrNode(false, false, "10.0.0.1", Towards([2])),
             2 := SrNode(true, true, "10.0.0.2", Towards([1, 3, 4])),
             3 := SrNode(true, false, "10.0.0.3", Towards([2, 4])),
             4 := SrNode(false, false, "10.0.0.4", Towards([2, 3]))],
         [1, 4], [2, 3], map[1 := map[4 := [1, 2, 3, 4]], 2 := map[4 := [2, 3, 4]]], map[(1, 4) := [1, 2, 4]],
         map[1 := 16001, 2 := 16002, 3 := 16003, 4 := 16004], true)
  }

  function Towards(peers: seq<nat>): seq<Interface> {
    seq(|peers|, i requires 0 <= i < |peers| => Interface(i, peers[i], "172.16.0.1"))
  }

  lemma ForkAddresses(m: nat, n: nat)
    requires m in Fork().nodes && n in Fork().nodes
    ensures m in {1, 2, 3, 4} && Fork().nodes[m].loopback != ""
    ensures m != n ==> Fork().nodes[m].loopback != Fork().nodes[n].loopback
  {
    hide Towards;
    var nodes := Fork().nodes;
    assert nodes[1].loopback[7] == '1' && nodes[2].loopback[7] == '2';
    assert nodes[3].loopback[7] == '3' && nodes[4].loopback[7] == '4';
  }

  lemma ForkPorts(n: nat)
    requires n in Fork().nodes
    ensures PortsOk(n, Fork().nodes[n].ifaces)
  {
  }

  lemma ForkLabels()
    ensures Injective(Fork().sids)
  {
    hide Towards;
  }

  lemma ForkNode(n: nat)
    ensures var v := Fork();
            && (n in v.sids <==> n in {1, 2, 3, 4}) && (n in v.nodes <==> n in {1, 2, 3, 4})
            && (n in {1, 4} <==> n in v.stations) && (n in {2, 3} <==> n in v.satellites)
            && (n in {1, 4} ==> !v.nodes[n].satellite) && (n in {2, 3} ==> v.nodes[n].satellite)
            && (n in v.nodes ==> (v.nodes[n].addressable <==> n == 2))
  {
    hide Towards;
  }

  lemma ForkNodes()
    ensures var v := Fork();
            && (forall n | n in v.stations + v.satellites :: n in v.nodes && n in v.sids)
            && (forall n | n in v.sids :: n in v.stations || n in v.satellites)
            && (forall n | n in v.stations :: !v.nodes[n].satellite)
            && (forall n | n in v.satellites :: v.nodes[n].satellite)
  {
    hide Fork;
    forall n | n in Fork().nodes
      ensures n in Fork().stations ==> !Fork().nodes[n].satellite
      ensures n in Fork().satellites ==> Fork().nodes[n].satellite
    {
      ForkNode(n);
    }
    forall n | n in Fork().stations + Fork().satellites ensures n in Fork().nodes && n in Fork().sids {
      ForkNode(n);
    }
    forall n | n in Fork().sids ensures n in Fork().stations || n in Fork().satellites {
      ForkNode(n);
    }
  }

  lemma ForkOnce()
    ensures NoRepeats(Fork().stations + Fork().satellites)
  {
    hide Towards;
    assert Fork().stations + Fork().satellites == [1, 4, 2, 3];
  }

  lemma ForkIsWellFormed()
    ensures WellFormed(Fork()) && PathsJoin(Fork())
  {
    ForkLabels();
    ForkOnce();
    forall m, n | m in Fork().nodes && n in Fork().nodes
      ensures Fork().nodes[m].loopback != "" && PortsOk(m, Fork().nodes[m].ifaces)
      ensures m != n ==> Fork().nodes[m].loopback != Fork().nodes[n].loopback
    {
      ForkAddresses(m, n);
      ForkPorts(m);
    }
    ForkPathsJoin();
    ForkNodes();
    hide Fork, PortsOk, Injective, NoRepeats, PathsJoin;
  }

  lemma ForkPathsJoin()
    ensures PathsJoin(Fork())
  {
    hide Towards;
  }

  lemma ForkPort(n: nat, i: nat)
    requires n in Fork().nodes && i < |Fork().nodes[n].ifaces|
    ensures var peer := Fork().nodes[n].ifaces[i].peer;
            peer in PortsOf(Fork(), n) && PortsOf(Fork(), n)[peer].peer == peer
            && UsableIp(PortsOf(Fork(), n)[peer].peerIp)
  {
    ForkIsWellFormed();
    assert PortsOk(n, Fork().nodes[n].ifaces);
    PortAt(Fork().nodes[n].ifaces, i);
  }

  lemma ForkEnds()
    requires WellFormed(Fork())
    ensures forall n :: n in Ends(Fork()) <==> n == 1 || n == 4 || n == 2
  {
    hide WellFormed, Towards;
    AddressableNodes(Fork(), Fork().satellites);
  }

  lemma ForkRoute(n: nat, path: seq<nat>)
    requires WellFormed(Fork()) && PathOf(Fork(), n, 4) == Some(path) && n in Fork().nodes && 4 in Fork().nodes
    requires |path| == 3 && path[1] in PortsOf(Fork(), n) && path[1] in Fork().sids
    requires UsableIp(PortsOf(Fork(), n)[path[1]].peerIp)
    ensures RouteLine(Fork(), PortsOf(Fork(), n), n, 4).Some? && Pushed(Fork(), path) == []
  {
    hide WellFormed, Towards;
    assert Segments(path[1..], true) == [];
    assert Fork().usePhp;
  }

  lemma ForkPaths()
    ensures PathOf(Fork(), 1, 4) == Some([1, 2, 4]) && PathOf(Fork(), 2, 4) == Some([2, 3, 4])
  {
    hide Towards;
  }

  lemma ForkRoutes()
    requires WellFormed(Fork())
    ensures 1 in Fork().nodes && 2 in Fork().nodes && 4 in Fork().nodes && 4 in PortsOf(Fork(), 3)
    ensures RouteLine(Fork(), PortsOf(Fork(), 1), 1, 4).Some? && Pushed(Fork(), [1, 2, 4]) == []
    ensures RouteLine(Fork(), PortsOf(Fork(), 2), 2, 4).Some? && Pushed(Fork(), [2, 3, 4]) == []
  {
    hide WellFormed, RouteLine, PortsOf, Pushed, PathOf;
    ForkPaths();
    ForkPort(1, 0);
    ForkPort(2, 1);
    ForkPort(3, 1);
    ForkRoute(1, [1, 2, 4]);
    ForkRoute(2, [2, 3, 4]);
  }

  /** The first build, and the routes of 1 sent again when the path is stored. */
  function Run(): (events: seq<NetEvent>)
    ensures |events| == 2 && events[0] == Init(Plain(), map[]) && events[1] == Resend(Fork(), 1)
  {
    [Init(Plain(), map[]), Resend(Fork(), 1)]
  }

  lemma RunIs()
    ensures Run() == [Init(Plain(), map[]), Resend(Fork(), 1)]
  {
    hide Fork, Plain;
  }

  lemma PlainIsWellFormed()
    ensures WellFormed(Fork()) && PathsJoin(Fork()) && WellFormed(Plain()) && PathsJoin(Plain())
  {
    ForkIsWellFormed();
    hide Fork;
  }

  lemma RunIsStill()
    ensures WellFormed(Plain()) && StillRun(Plain(), Run()) && AllProper(Run()) && AllJoin(Run())
  {
    PlainIsWellFormed();
    hide Fork, WellFormed, PathsJoin;
    assert Still(Plain(), Fork()) && Still(Plain(), Plain());
  }

  lemma SameRouteLine(v: View, v': View, ports: Ports, n: nat, dst: nat)
    requires v'.nodes == v.nodes && v'.sids == v.sids && v'.usePhp == v.usePhp && dst in v.nodes
    requires PathOf(v', n, dst) == PathOf(v, n, dst)
    ensures RouteLine(v', ports, n, dst) == RouteLine(v, ports, n, dst)
  {
    hide PathOf, StackFor, UsableIp;
  }

  lemma PlainPaths()
    ensures PathOf(Plain(), 2, 4) == Some([2, 3, 4]) && Looked(Fork(), 1) == Fork()
    ensures 1 in Fork().stations && 4 in Fork().stations && 3 in Fork().satellites
    ensures 1 in Fork().sids && 2 in Fork().sids && 3 in Fork().sids && Fork().usePhp
  {
    hide Towards;
  }

  lemma SameEnds(v: View, v': View)
    requires WellFormed(v) && WellFormed(v') && v'.nodes == v.nodes && v'.stations == v.stations
    requires v'.satellites == v.satellites
    ensures Ends(v') == Ends(v)
  {
    SatellitesListed(v);
    SameAddressable(v, v', v.satellites);
  }

  lemma PlainParts()
    ensures var v, w := Plain(), Fork();
            && v.nodes == w.nodes && v.stations == w.stations && v.satellites == w.satellites && v.sids == w.sids
            && v.usePhp == w.usePhp && v.custom == map[]
  {
    hide Fork;
  }

  lemma OwnRoute(v: View, n: nat, dst: nat)
    requires WellFormed(v) && n in Ends(v) && dst in Ends(v) && n in v.nodes && dst in v.nodes
    requires RouteLine(v, PortsOf(v, n), n, dst).Some?
    ensures RouteTo(v, n, dst) == PathOf(v, n, dst)
  {
  }

  lemma OwnSent(v: View, n: nat, dst: nat)
    requires WellFormed(v) && n in v.stations && dst in v.stations && n in v.nodes && dst in v.nodes
    requires Looked(v, n) == v && RouteLine(v, PortsOf(v, n), n, dst).Some?
    ensures SentTo(v, n, dst) == PathOf(v, n, dst)
  {
  }

  lemma OnlyLinked(v: View, n: nat, dst: nat)
    requires WellFormed(v) && n !in Ends(v) && n in v.satellites && dst in v.stations && n in v.nodes
    requires dst in PortsOf(v, n)
    ensures RouteTo(v, n, dst) == None && LinkedStation(v, n, dst)
  {
  }

  lemma SamePorts(v: View, v': View, n: nat)
    requires v'.nodes == v.nodes && n in v.nodes
    ensures PortsOf(v', n) == PortsOf(v, n)
  {
  }

  /** What the init and the stored path give the nodes. */
  lemma GivenPaths()
    requires WellFormed(Fork()) && WellFormed(Plain())
    ensures RouteTo(Plain(), 2, 4) == Some([2, 3, 4]) && SentTo(Fork(), 1, 4) == Some([1, 2, 4])
    ensures RouteTo(Plain(), 3, 4) == None && LinkedStation(Plain(), 3, 4)
  {
    hide *;
    ForkPaths();
    ForkRoutes();
    PlainPaths();
    PlainParts();
    ForkEnds();
    ForkNode(3);
    SameEnds(Fork(), Plain());
    SameRouteLine(Fork(), Plain(), PortsOf(Fork(), 2), 2, 4);
    SamePorts(Fork(), Plain(), 2);
    SamePorts(Fork(), Plain(), 3);
    OwnRoute(Plain(), 2, 4);
    OwnSent(Fork(), 1, 4);
    OnlyLinked(Plain(), 3, 4);
  }

  lemma TwoEvents(n: nat, dst: nat, a: NetEvent, b: NetEvent)
    requires AllProper([a, b]) && Proper(a) && Proper(b)
    ensures PathAfter(n, dst, [a, b])
            == if GivenPath(b, n, dst).Some? then GivenPath(b, n, dst) else GivenPath(a, n, dst)
  {
    hide GivenPath, WellFormed;
    assert [a, b][..1] == [a] && [a][..0] == [];
    assert PathAfter(n, dst, [a][..0]) == None;
  }

  lemma Gives(v: View, w: View, n: nat, src: nat, dst: nat)
    requires WellFormed(v) && WellFormed(w)
    ensures GivenPath(Init(v, map[]), n, dst)
            == if RouteTo(v, n, dst).Some? then RouteTo(v, n, dst)
               else if LinkedStation(v, n, dst) then Some([n, dst]) else None
    ensures GivenPath(Resend(w, src), n, dst) == if n == src then SentTo(w, n, dst) else None
  {
  }

  lemma PathsAfter()
    requires WellFormed(Fork()) && WellFormed(Plain()) && AllProper(Run())
    ensures PathAfter(1, 4, Run()) == Some([1, 2, 4]) && PathAfter(2, 4, Run()) == Some([2, 3, 4])
    ensures PathAfter(3, 4, Run()) == Some([3, 4])
  {
    GivenPaths();
    var a, b := Init(Plain(), map[]), Resend(Fork(), 1);
    assert Run() == [a, b];
    hide *;
    TwoEvents(1, 4, a, b);
    TwoEvents(2, 4, a, b);
    TwoEvents(3, 4, a, b);
    Gives(Plain(), Fork(), 1, 1, 4);
    Gives(Plain(), Fork(), 2, 1, 4);
    Gives(Plain(), Fork(), 3, 1, 4);
  }

  lemma StillPushed(path: seq<nat>)
    requires |path| >= 2
    ensures Pushed(Plain(), path) == Pushed(Fork(), path)
  {
    hide Fork;
  }

  /** From the satellite a packet for 4 goes over 3. */
  lemma OverThree(lookups: nat)
    requires WellFormed(Fork()) && WellFormed(Plain()) && StillRun(Plain(), Run()) && AllProper(Run()) && AllJoin(Run())
    requires lookups >= 2 && 4 in Plain().nodes && 2 in Plain().nodes && 2 in Plain().sids
    ensures Travel(NetAfter(Plain(), Empty(Plain()), Run()), 2, Plain().nodes[4].loopback, 4, lookups)
            == Journey([3, 4], true)
  {
    hide *;
    PathsAfter();
    ForkRoutes();
    PlainPaths();
    PlainParts();
    StillPushed([2, 3, 4]);
    StoredDelivers(Plain(), Run(), 2, 4, lookups);
    CarriedOver(Plain(), Run(), [2, 3, 4], 4);
    assert [2, 3, 4][1..] == [3, 4];
  }

  /** A path of three nodes without labels is carried over a node whose last path is its link. */
  lemma CarriedOver(v: View, events: seq<NetEvent>, path: seq<nat>, dst: nat)
    requires WellFormed(v) && AllProper(events) && |path| == 3 && Pushed(v, path) == [] && path[1] != dst
    requires path[1] in v.sids && PathAfter(path[1], dst, events) == Some([path[1], dst])
    ensures CarriedAfter(v, path, dst, events)
  {
    hide WellFormed, PathAfter;
  }

  /** The labels of a packet from 1 end at the satellite. */
  lemma FirstHop()
    requires WellFormed(Fork()) && WellFormed(Plain()) && StillRun(Plain(), Run()) && AllProper(Run()) && AllJoin(Run())
    requires 4 in Plain().nodes && 1 in Plain().nodes && 1 in Plain().sids
    ensures Leg(NetAfter(Plain(), Empty(Plain()), Run()), 1, Plain().nodes[4].loopback) == Journey([2], true)
  {
    hide *;
    PathsAfter();
    ForkRoutes();
    StillPushed([1, 2, 4]);
    NetReady(Plain(), Run());
    NodeFollows(Plain(), Run(), 1, 4);
    LegAfter(Plain(), NetAfter(Plain(), Empty(Plain()), Run()), 1, 4, [1, 2, 4]);
    NothingToFollow(SatellitePeers(Plain()), 2);
    assert [2] + [] == [2];
  }

  lemma NothingToFollow(peers: map<nat, set<nat>>, at: nat)
    ensures Followable(peers, at, [])
  {
  }

  lemma TravelOn(net: map<nat, Kernel>, at: nat, address: string, d: nat, lookups: nat, n: nat, rest: seq<nat>)
    requires at != d && lookups >= 1 && Leg(net, at, address) == Journey([n], true)
    requires Travel(net, n, address, d, lookups - 1) == Journey(rest, true)
    ensures Travel(net, at, address, d, lookups) == Journey([n] + rest, true)
  {
  }

  /** After an init and the stored path, a packet from 1 to 4 should go over 2 only. The labels bring it to 2 and end
      there, and the satellite's own route to 4 took the place of its link to 4: the packet takes the way over 3. */
  lemma DivertedPacket(lookups: nat)
    requires lookups >= 3
    ensures WellFormed(Plain()) && StillRun(Plain(), Run()) && AllProper(Run()) && 4 in Plain().nodes
    ensures Run() == [Init(Plain(), map[]), Resend(Fork(), 1)] && Plain().custom == map[]
    ensures PathAfter(1, 4, Run()) == Some([1, 2, 4])
    ensures Travel(NetAfter(Plain(), Empty(Plain()), Run()), 1, Plain().nodes[4].loopback, 4, lookups)
            == Journey([2, 3, 4], true)
  {
    hide *;
    RunIs();
    RunIsStill();
    PlainIsWellFormed();
    ForkRoutes();
    PlainPaths();
    PlainParts();
    PathsAfter();
    FirstHop();
    OverThree(lookups - 1);
    TravelOn(NetAfter(Plain(), Empty(Plain()), Run()), 1, Plain().nodes[4].loopback, 4, lookups, 2, [3, 4]);
    assert [2] + [3, 4] == [2, 3, 4];
  }
}

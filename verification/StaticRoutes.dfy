/** Which destinations the static daemon has, and which routes its init() and update() leave in the kernels, said of
    the nodes, their flags and the paths alone (satgonetem/routing/static_daemon.py:76-122, 490-596). */
module StaticRoutes {
  import opened Wrappers
  import opened RoutingEntries
  import opened RouteDiff
  import opened NodeRouting
  import opened StaticDaemon
  import D = Delivery
  import L = LoopbackRoutes
  import E = EndToEnd

  // ---- Destinations ----

  /** The places of the destinations in the list of nodes, in ascending order. */
  ghost predicate Ascending(at: seq<nat>) {
    forall k, l | 0 <= k < l < |at| :: at[k] < at[l]
  }

  lemma {:induction false} FlaggedInOrder(flags: seq<bool>, all: seq<Dest>) returns (at: seq<nat>)
    requires |flags| == |all|
    ensures PlacesOf(flags, all, at)
  {
    at := [];
    if all != [] {
      var n := |all| - 1;
      var front := FlaggedInOrder(flags[..n], all[..n]);
      at := front + if flags[n] then [n] else [];
      OnePlaceMore(flags, all, front, at);
    }
  }

  /** These are the places of the raised flags, and the list has what stands there. */
  ghost predicate PlacesOf(flags: seq<bool>, all: seq<Dest>, at: seq<nat>)
    requires |flags| == |all|
  {
    && |at| == |DestsOf(flags, all)| && Ascending(at) && (forall i: nat :: i in at <==> i < |all| && flags[i])
    && forall k | 0 <= k < |at| :: at[k] < |all| && DestsOf(flags, all)[k] == all[at[k]]
  }

  lemma OnePlaceMore(flags: seq<bool>, all: seq<Dest>, front: seq<nat>, at: seq<nat>)
    requires |flags| == |all| > 0 && PlacesOf(flags[..|all| - 1], all[..|all| - 1], front)
    requires at == front + if flags[|all| - 1] then [|all| - 1] else []
    ensures PlacesOf(flags, all, at)
  {
    var n := |all| - 1;
    forall i: nat ensures i in at <==> i < |all| && flags[i] {
      assert i in at <==> i in front || (flags[n] && i == n);
      assert i < n ==> flags[..n][i] == flags[i];
    }
    forall k | 0 <= k < |front| ensures front[k] < n && DestsOf(flags, all)[k] == all[front[k]] {
      assert front[k] in front && all[..n][front[k]] == all[front[k]];
    }
  }

  /** The node at a place is a destination: it is a ground station, or a satellite that was made addressable. */
  predicate IsDest(t: Topology, i: nat)
    reads t`addressable
  {
    i < |t.nodes| && (i < t.stations || t.nodes[i].id in t.addressable)
  }

  /** The destination list has the destinations and nothing else, each once, in the order of the nodes. */
  lemma DestsInOrder(t: Topology) returns (at: seq<nat>)
    ensures |at| == |t.Dests()| && Ascending(at) && forall i: nat :: i in at <==> IsDest(t, i)
    ensures forall k | 0 <= k < |at| ::
              at[k] < |t.nodes|
              && t.Dests()[k] == Dest(t.nodes[at[k]].id, t.nodes[at[k]].name, t.nodes[at[k]].summary)
  {
    at := FlaggedInOrder(t.Flags(), t.AllDests());
  }

  /** The nodes differ in their ids and their summaries. */
  ghost predicate Apart(t: Topology) {
    forall i, j | 0 <= i < j < |t.nodes| ::
      t.nodes[i].id != t.nodes[j].id && t.nodes[i].summary != t.nodes[j].summary
  }

  lemma DestsApart(t: Topology)
    requires Apart(t)
    ensures DistinctDests(t.Dests())
  {
    var at := DestsInOrder(t);
    forall k, l | 0 <= k < l < |at|
      ensures t.Dests()[k].id != t.Dests()[l].id && t.Dests()[k].summary != t.Dests()[l].summary
    {
      assert at[k] < at[l];
    }
  }

  /** Of the ground stations and satellites a topology was made of, the destinations are all ground stations and the
      addressable satellites. */
  lemma GivenDests(t: Topology, groundStations: seq<Node>, satellites: seq<Node>)
    requires t.nodes == groundStations + satellites && t.stations == |groundStations| && Apart(t)
    ensures forall n | n in groundStations + satellites ::
              Dest(n.id, n.name, n.summary) in t.Dests() <==> n in groundStations || n.id in t.addressable
  {
    var at := DestsInOrder(t);
    forall n | n in groundStations + satellites
      ensures Dest(n.id, n.name, n.summary) in t.Dests() <==> n in groundStations || n.id in t.addressable
    {
      var i :| 0 <= i < |t.nodes| && t.nodes[i] == n;
      if Dest(n.id, n.name, n.summary) in t.Dests() {
        var k :| 0 <= k < |at| && t.Dests()[k] == Dest(n.id, n.name, n.summary);
        assert at[k] in at && at[k] == i;
      }
      if n in groundStations {
        var j :| 0 <= j < |groundStations| && groundStations[j] == n;
        assert t.nodes[j] == n;
      }
      if IsDest(t, i) {
        var k :| 0 <= k < |at| && at[k] == i;
        assert t.Dests()[k] == Dest(n.id, n.name, n.summary);
      }
    }
  }

  /** The destinations of a system whose flags are those of the topology. */
  lemma SystemDests(w: E.World, s: E.System, t: Topology)
    requires |s.built| == |w.dests| == |t.nodes|
    requires forall i | 0 <= i < |t.nodes| ::
               && (s.built[i] <==> IsDest(t, i))
               && w.dests[i] == Dest(t.nodes[i].id, t.nodes[i].name, t.nodes[i].summary)
    ensures E.Dests(w, s) == t.Dests()
  {
    assert s.built == t.Flags() && w.dests == t.AllDests();
  }

  // ---- Routes ----

  /** The library has a path from u to m; it is listed from m. */
  predicate Reaches(paths: Paths, u: nat, m: nat) {
    u != m && m in paths && u in paths[m] && |paths[m][u]| >= 2
  }

  /** The first node after u on that path. */
  function FirstHop(paths: Paths, u: nat, m: nat): nat
    requires Reaches(paths, u, m)
  {
    paths[m][u][|paths[m][u]| - 2]
  }

  /** The node has a route to a destination exactly when the paths reach it, over the device of the first hop. */
  ghost predicate RightAt(t: Topology, n: Node, paths: Paths, j: nat)
    reads t
    requires j < |t.nodes|
  {
    var fib, ports, p, m := t.KernelOf(n.id), t.Ports(n.id), Prefix(t.nodes[j].summary, 15), t.nodes[j].id;
    && (p in fib <==> Reaches(paths, n.id, m))
    && (p in fib ==> FirstHop(paths, n.id, m) in ports
                     && fib[p] == Hop(ports[FirstHop(paths, n.id, m)].peerIp, DeviceName(FirstHop(paths, n.id, m))))
  }

  /** So it is for every destination, and there are no other routes. */
  ghost predicate RoutesToDests(t: Topology, n: Node, paths: Paths)
    reads t
  {
    && (forall j: nat | IsDest(t, j) :: RightAt(t, n, paths, j))
    && forall p | p in t.KernelOf(n.id) ::
         exists j: nat :: IsDest(t, j) && Reaches(paths, n.id, t.nodes[j].id) && p == Prefix(t.nodes[j].summary, 15)
  }

  lemma HopIs(paths: Paths, u: nat, m: nat)
    ensures HopFrom(paths, m, u) == if Reaches(paths, u, m) then Some(FirstHop(paths, u, m)) else None
  {
  }

  /** The kernel holds the table built from scratch. */
  ghost predicate Fresh(t: Topology, n: Node, paths: Paths)
    reads t
  {
    && NamedByPeer(t.Ports(n.id)) && Resolvable(SignatureOf(paths, t.Dests(), n.id), t.Ports(n.id))
    && var table := FreshTable(n.Src(), t.Dests(), SignatureOf(paths, t.Dests(), n.id), t.Ports(n.id));
       UniquePrefixes(table) && t.KernelOf(n.id) == TableMap(table)
  }

  lemma FreshAt(t: Topology, n: Node, paths: Paths, j: nat, k: nat)
    requires DistinctDests(t.Dests()) && Fresh(t, n, paths) && j < |t.nodes| && k < |t.Dests()|
    requires t.Dests()[k] == Dest(t.nodes[j].id, t.nodes[j].name, t.nodes[j].summary)
    ensures RightAt(t, n, paths, j)
  {
    var dsts, ports := t.Dests(), t.Ports(n.id);
    var sig := SignatureOf(paths, dsts, n.id);
    hide FreshTable, TableMap, UniquePrefixes, DistinctDests, NamedByPeer, DeviceName, DestsOf, PeerMap, FirstHop,
         Reaches;
    D.TableLookup(n.Src(), dsts, sig, ports, k);
    HopIs(paths, n.id, t.nodes[j].id);
    assert sig[k] == HopFrom(paths, dsts[k].id, n.id);
  }

  lemma FreshFor(t: Topology, n: Node, paths: Paths, p: Prefix) returns (k: nat)
    requires Fresh(t, n, paths) && p in t.KernelOf(n.id)
    ensures k < |t.Dests()| && p == Prefix(t.Dests()[k].summary, 15)
  {
    var dsts, ports := t.Dests(), t.Ports(n.id);
    var sig := SignatureOf(paths, dsts, n.id);
    hide FreshTable, TableMap, UniquePrefixes, DestsOf, PeerMap, Resolvable;
    var e := L.TableEntry(FreshTable(n.Src(), dsts, sig, ports), p);
    k := L.FreshPrefix(n.Src(), dsts, sig, ports, e);
  }

  lemma TableRoutes(t: Topology, n: Node, paths: Paths)
    requires Apart(t) && Fresh(t, n, paths)
    ensures RoutesToDests(t, n, paths)
  {
    var at := DestsInOrder(t);
    DestsApart(t);
    hide Fresh, DistinctDests, Apart, DeviceName, Reaches, FirstHop, Topology.Dests, Topology.KernelOf, Topology.Ports,
         RightAt;
    forall j: nat | IsDest(t, j) ensures RightAt(t, n, paths, j) {
      assert j in at;
      var k :| 0 <= k < |at| && at[k] == j;
      FreshAt(t, n, paths, j, k);
    }
    forall p | p in t.KernelOf(n.id)
      ensures exists j: nat :: IsDest(t, j) && Reaches(paths, n.id, t.nodes[j].id)
                               && p == Prefix(t.nodes[j].summary, 15)
    {
      var k := FreshFor(t, n, paths, p);
      assert at[k] in at;
      RightThen(t, n, paths, at[k]);
    }
  }

  lemma RightThen(t: Topology, n: Node, paths: Paths, j: nat)
    requires j < |t.nodes| && RightAt(t, n, paths, j)
    ensures Prefix(t.nodes[j].summary, 15) in t.KernelOf(n.id) ==> Reaches(paths, n.id, t.nodes[j].id)
  {
  }

  /** After update() on an active topology, at every node that was in order. */
  lemma UpdateRoutes(d: StaticRoutingDaemon, n: Node, paths: Paths, before: State)
    requires Apart(d.topology) && d.topology.active && d.UpdatedNode(n, before.view, paths)
    requires Inv(n.Src(), before) && before.view.ifaces == d.topology.Ports(n.id)
    requires |d.topology.Dests()| == |before.dsts| ==> d.topology.Dests() == before.dsts
    ensures RoutesToDests(d.topology, n, paths)
  {
    DestsApart(d.topology);
    var dsts, sig := d.topology.Dests(), SignatureOf(paths, d.topology.Dests(), n.id);
    hide Updated, Install, FreshTable, TableMap, Apart, Topology.Dests, Topology.Ports, RoutesToDests, Coherent;
    UpdateStep(n.Src(), before, dsts, sig);
    assert d.View(n) == Updated(n.Src(), before.view, dsts, sig);
    TableRoutes(d.topology, n, paths);
  }

  /** After init() on empty kernels. */
  lemma InitRoutes(d: StaticRoutingDaemon, n: Node, paths: Paths, before: State)
    requires Apart(d.topology) && d.InitializedNode(n, before.view, paths)
    requires Inv(n.Src(), before) && before.view.ifaces == d.topology.Ports(n.id) && before.view.fib == map[]
    ensures RoutesToDests(d.topology, n, paths)
  {
    DestsApart(d.topology);
    var dsts, sig := d.topology.Dests(), SignatureOf(paths, d.topology.Dests(), n.id);
    hide Initialized, Install, FreshTable, TableMap, Apart, Topology.Dests, Topology.Ports, RoutesToDests, Coherent;
    InitStep(n.Src(), before, dsts, sig);
    assert d.View(n) == Initialized(n.Src(), before.view, dsts, sig);
    TableRoutes(d.topology, n, paths);
  }
}

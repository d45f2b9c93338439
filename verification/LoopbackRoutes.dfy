/** A packet for a loopback, looked up in the routes the static daemon installed: the longest match is the route
    its device was computed for (satgonetem/utils/ip_utils.py:56-145, satgonetem/routing/static_daemon.py:453-488). */
module LoopbackRoutes {
  import opened Wrappers
  import opened Nodes
  import opened Bits
  import opened IpUtils
  import opened RoutingEntries
  import opened RouteDiff
  import opened NodeRouting
  import AP = AddressPlan
  import D = Delivery
  import SD = StaticDaemon
  import SP = ShortestPaths
  import E = EndToEnd

  /** The leading bits of a route's prefix. */
  function PrefixBits(p: Prefix): Option<string> {
    match Ipv4ToBinary(p.addr)
    case Err(_) => None
    case Ok(bits) => if p.len <= 32 then Some(bits[..p.len]) else None
  }

  /** The prefixes of the installed routes and of the connected ones. */
  function PrefixesOf(fib: Fib, connected: set<string>): set<string> {
    (set p | p in fib && PrefixBits(p).Some? :: PrefixBits(p).value) + connected
  }

  /** The route of a node under the address plan. */
  function PlannedPrefix(n: NodeRef): Prefix
    requires n.id < AP.MAX_ID
  {
    Prefix(QuadDot(AP.Slash15(n) + Zeros(17)), ROUTE_PREFIX)
  }

  lemma PlannedBits(n: NodeRef)
    requires n.id < AP.MAX_ID
    ensures PrefixBits(PlannedPrefix(n)) == Some(AP.Slash15(n))
  {
    var bits := AP.Slash15(n) + Zeros(17);
    BinaryRoundTrip(bits);
    assert bits[..15] == AP.Slash15(n);
  }

  ghost predicate Planned(fib: Fib, nodes: set<NodeRef>) {
    forall p | p in fib :: exists n: NodeRef | n in nodes && n.id < AP.MAX_ID :: p == PlannedPrefix(n)
  }

  /** The connected routes are those of links. */
  ghost predicate OfLinks(connected: set<string>, nodes: set<NodeRef>, order: AP.Order) {
    forall r | r in connected ::
      exists h: AP.Holder | h.EndOf? && AP.Addressable(h, nodes, order) :: r == AP.Block(h, order)
  }

  lemma SamePlanned(m: NodeRef, n: NodeRef)
    requires m.id < AP.MAX_ID && n.id < AP.MAX_ID && AP.Slash15(m) == AP.Slash15(n)
    ensures m == n
  {
    AP.SummariesDistinct(m, n);
  }

  lemma PlannedRoutes(fib: Fib, connected: set<string>, nodes: set<NodeRef>, order: AP.Order)
    requires Planned(fib, nodes) && OfLinks(connected, nodes, order)
    ensures AP.NodeRoutes(PrefixesOf(fib, connected), nodes, order)
  {
    hide PrefixBits, AP.Slash15, AP.Block, AP.Addressable;
    forall r | r in PrefixesOf(fib, connected) && r !in connected
      ensures exists n | n in nodes :: n.id < AP.MAX_ID && r == AP.Slash15(n)
    {
      var p :| p in fib && PrefixBits(p) == Some(r);
      var n: NodeRef :| n in nodes && n.id < AP.MAX_ID && p == PlannedPrefix(n);
      PlannedBits(n);
    }
  }

  lemma OwnCovers(d: NodeRef)
    requires d.id < AP.MAX_ID
    ensures AP.Covers(AP.Slash15(d), AP.LoopbackBits(d)) && |AP.Slash15(d)| == 15
  {
    assert AP.LoopbackBits(d)[..15] == AP.Slash15(d);
  }

  /** Of the installed routes only that of the node itself covers its loopback. */
  lemma CoveringRoute(fib: Fib, nodes: set<NodeRef>, d: NodeRef, p: Prefix)
    requires Planned(fib, nodes) && d.id < AP.MAX_ID && p in fib && PrefixBits(p).Some?
    requires AP.Covers(PrefixBits(p).value, AP.LoopbackBits(d))
    ensures p == PlannedPrefix(d)
  {
    OwnCovers(d);
    hide PrefixBits, AP.Slash15, AP.LoopbackBits;
    var n: NodeRef :| n in nodes && n.id < AP.MAX_ID && p == PlannedPrefix(n);
    PlannedBits(n);
    assert AP.Slash15(n) == AP.LoopbackBits(d)[..15] == AP.Slash15(d);
    SamePlanned(n, d);
  }

  lemma InstalledPrefix(fib: Fib, connected: set<string>, d: NodeRef)
    requires d.id < AP.MAX_ID && PlannedPrefix(d) in fib
    ensures AP.Slash15(d) in PrefixesOf(fib, connected)
  {
    PlannedBits(d);
  }

  /** What the kernel does with a packet for an address: the device of a route with the longest matching prefix. */
  ghost predicate SendsTo(fib: Fib, connected: set<string>, address: string, device: string) {
    exists p :: p in fib && PrefixBits(p).Some? && fib[p].dev == device
                && AP.IsLongestMatch(PrefixesOf(fib, connected), address, PrefixBits(p).value)
  }

  lemma SentByPlan(v: NodeView, connected: set<string>, nodes: set<NodeRef>, order: AP.Order, d: NodeRef)
    requires UniqueIds(nodes) && d in nodes && d.id < AP.MAX_ID && PlannedPrefix(d) in v.fib
    requires Planned(v.fib, nodes) && OfLinks(connected, nodes, order)
    ensures PrefixBits(PlannedPrefix(d)).Some?
    ensures AP.IsLongestMatch(PrefixesOf(v.fib, connected), AP.LoopbackBits(d), PrefixBits(PlannedPrefix(d)).value)
  {
    hide *;
    PlannedRoutes(v.fib, connected, nodes, order);
    InstalledPrefix(v.fib, connected, d);
    PlannedBits(d);
    AP.LoopbackLookup(PrefixesOf(v.fib, connected), nodes, order, d, AP.Slash15(d));
  }

  lemma LongestCovers(routes: set<string>, address: string, best: string)
    requires AP.IsLongestMatch(routes, address, best)
    ensures AP.Covers(best, address)
  {
  }

  /** Whatever else is installed by the plan, a packet for a loopback goes to the device of that node's route, and
      nowhere if there is none. */
  lemma LookupExact(v: NodeView, connected: set<string>, nodes: set<NodeRef>, order: AP.Order, d: NodeRef, name: string,
                    device: string)
    requires UniqueIds(nodes) && d in nodes && d.id < AP.MAX_ID
    requires Planned(v.fib, nodes) && OfLinks(connected, nodes, order)
    ensures SendsTo(v.fib, connected, AP.LoopbackBits(d), device)
            <==> D.NextDevice(v, E.DestOf(d, name)) == Some(device)
  {
    hide PrefixBits, AP.Slash15, AP.LoopbackBits, PrefixesOf, AP.IsLongestMatch, OfLinks, Planned;
    var routes, address := PrefixesOf(v.fib, connected), AP.LoopbackBits(d);
    if PlannedPrefix(d) in v.fib {
      SentByPlan(v, connected, nodes, order, d);
    }
    if p :| p in v.fib && PrefixBits(p).Some? && v.fib[p].dev == device
            && AP.IsLongestMatch(routes, address, PrefixBits(p).value) {
      LongestCovers(routes, address, PrefixBits(p).value);
      CoveringRoute(v.fib, nodes, d, p);
    }
  }

  /** The destinations are known nodes under the address plan. */
  ghost predicate AreDests(nodes: set<NodeRef>, refs: seq<NodeRef>, dsts: seq<Dest>) {
    && |refs| == |dsts|
    && forall i | 0 <= i < |refs| ::
         refs[i] in nodes && refs[i].id < AP.MAX_ID && dsts[i] == E.DestOf(refs[i], dsts[i].name)
  }

  /** An entry of a table built from scratch is for a destination. */
  lemma FreshPrefix(src: Source, dsts: seq<Dest>, sig: Signature, ifaces: Devices, e: RouteEntry) returns (j: nat)
    requires |sig| == |dsts| && Resolvable(sig, ifaces) && e in FreshTable(src, dsts, sig, ifaces)
    ensures j < |dsts| && PrefixOf(e) == Prefix(dsts[j].summary, ROUTE_PREFIX)
  {
    var slots := FreshSlots(src, dsts, sig, ifaces);
    FreshSlotsFor(src, dsts, sig, ifaces);
    CollectMembers(slots, e);
    hide FreshSlots, Resolvable;
    j :| 0 <= j < |slots| && slots[j] == Some(e);
  }

  lemma TableEntry(table: seq<RouteEntry>, p: Prefix) returns (e: RouteEntry)
    requires UniquePrefixes(table) && p in TableMap(table)
    ensures e in table && PrefixOf(e) == p
  {
    var k :| 0 <= k < |table| && PrefixOf(table[k]) == p;
    e := table[k];
  }

  /** A table built from scratch has routes to destinations of the plan only. */
  lemma FreshIsPlanned(src: Source, nodes: set<NodeRef>, refs: seq<NodeRef>, dsts: seq<Dest>, sig: Signature,
                       ifaces: Devices)
    requires |sig| == |dsts| == |refs| && Resolvable(sig, ifaces) && DistinctDests(dsts) && NamedByPeer(ifaces)
    requires AreDests(nodes, refs, dsts)
    ensures UniquePrefixes(FreshTable(src, dsts, sig, ifaces))
    ensures Planned(TableMap(FreshTable(src, dsts, sig, ifaces)), nodes)
  {
    hide FreshTable, Resolvable, DistinctDests, NamedByPeer, UniquePrefixes, TableMap, AP.Slash15;
    FreshCoherent(src, dsts, sig, ifaces);
    var table := FreshTable(src, dsts, sig, ifaces);
    forall p | p in TableMap(table)
      ensures exists n: NodeRef | n in nodes && n.id < AP.MAX_ID :: p == PlannedPrefix(n)
    {
      var e := TableEntry(table, p);
      var j := FreshPrefix(src, dsts, sig, ifaces, e);
      assert refs[j] in nodes && p == PlannedPrefix(refs[j]);
    }
  }

  /** So in a converged network the longest match of a destination's loopback, at every node, is the route whose
      next hop was computed: the packets go where `Delivery` says they do. */
  lemma ConvergedLookup(g: SP.Graph, nodes: set<NodeRef>, refs: seq<NodeRef>, dsts: seq<Dest>, paths: SD.Paths,
                        views: map<nat, NodeView>, connected: set<string>, order: AP.Order, u: nat, i: nat,
                        device: string)
    requires D.Converged(g, dsts, paths, views) && u in views && AreDests(nodes, refs, dsts) && i < |refs|
    requires UniqueIds(nodes) && OfLinks(connected, nodes, order)
    ensures SendsTo(views[u].fib, connected, AP.LoopbackBits(refs[i]), device)
            <==> D.NextDevice(views[u], dsts[i]) == Some(device)
  {
    var sig, v := SD.SignatureOf(paths, dsts, u), views[u];
    var name, summary :| v.table == FreshTable(Source(u, name, summary), dsts, sig, v.ifaces);
    FreshIsPlanned(Source(u, name, summary), nodes, refs, dsts, sig, v.ifaces);
    hide SendsTo, Planned, OfLinks, D.Converged, D.NextDevice, FreshTable, AP.LoopbackBits, E.DestOf;
    LookupExact(v, connected, nodes, order, refs[i], dsts[i].name, device);
  }
}

/** A tick in which two routes change places and nothing is updated
    (satgonetem/services/mixins/topology_sync.py:615-620, satgonetem/models/link.py:242-259). */
module QuietTick {
  import opened Wrappers
  import opened Nodes
  import opened Links
  import opened LinkSync
  import opened Reconcile
  import opened TickDevices
  import opened EndToEnd
  import RE = RoutingEntries
  import NR = NodeRouting
  import SP = ShortestPaths
  import SD = StaticDaemon
  import D = Delivery

  const GROUND := NodeRef(GroundStation, 0)
  const NEAR := NodeRef(Satellite, 1)
  const OVER := NodeRef(Satellite, 2)
  const IDS: set<nat> := {0, 1, 2}

  function Settings(): Config {
    Config({GROUND, NEAR, OVER}, false, _ => 1000, _ => 1000)
  }

  // ---- Three links ----

  function Start(i: nat): NodeRef { if i < 2 then GROUND else NEAR }

  function End(i: nat): NodeRef { if i == 0 then NEAR else OVER }

  function KindOf(i: nat): LinkType { if i < 2 then GroundStationLink else InterSatelliteLink }

  function Key(i: nat): LinkKey { {Start(i), End(i)} }

  lemma KeysDiffer(i: nat, j: nat)
    requires i < 3 && j < 3 && Key(i) == Key(j)
    ensures i == j
  {
    assert Start(i) in Key(j) && End(i) in Key(j) && Start(j) in Key(i) && End(j) in Key(i);
  }

  function Said(i: nat): Report {
    Report(Some(Known(Start(i))), Some(Known(End(i))), KindOf(i), Some(true), Some(false))
  }

  function AllSaid(): seq<Report> { [Said(0), Said(1), Said(2)] }

  lemma OneMore(reports: seq<Report>, r: Report, k: LinkKey)
    ensures ReportsFor(reports + [r], k) == ReportsFor(reports, k) + if KeyOfReport(r) == Some(k) then [r] else []
  {
    assert (reports + [r])[..|reports|] == reports;
  }

  lemma SaidOf(k: LinkKey)
    ensures forall i: nat | i < 3 && k == Key(i) :: ReportsFor(AllSaid(), k) == [Said(i)]
    ensures (forall i: nat | i < 3 :: k != Key(i)) ==> ReportsFor(AllSaid(), k) == []
  {
    OneMore([], Said(0), k);
    OneMore([Said(0)], Said(1), k);
    OneMore([Said(0), Said(1)], Said(2), k);
    assert [] + [Said(0)] == [Said(0)] && [Said(0)] + [Said(1)] == [Said(0), Said(1)];
    assert [Said(0), Said(1)] + [Said(2)] == AllSaid();
    hide ReportsFor;
    forall i: nat, j: nat | i < 3 && j < 3 && i != j ensures Key(i) != Key(j) {
      if Key(i) == Key(j) {
        KeysDiffer(i, j);
      }
    }
  }

  /** The link to the nearer satellite is so long, the others 90 km. */
  function Length(i: nat, near: real): real { if i == 0 then near else 90_000.0 }

  function MeasureAt(k: LinkKey, near: real): Measure {
    Measure(if k == Key(0) then near else 90_000.0, 0, 0)
  }

  function MeasuresAt(near: real): LinkKey -> Measure {
    k => MeasureAt(k, near)
  }

  function Pair(i: nat): seq<Interface> {
    var a, b := IfName(Start(i), End(i).id), IfName(End(i), Start(i).id);
    [Interface(2 * i, a, 2 * i + 1, b), Interface(2 * i + 1, b, 2 * i, a)]
  }

  function LinkAt(i: nat, near: real): LinkState {
    NewLink(Start(i), End(i), KindOf(i), false, 1000, true, Measure(Length(i, near), 0, 0)).(peers := Pair(i))
  }

  function LinksAt(near: real): map<LinkKey, LinkState> {
    map[Key(0) := LinkAt(0, near), Key(1) := LinkAt(1, near), Key(2) := LinkAt(2, near)]
  }

  lemma LinksAtKey(near: real, k: LinkKey)
    ensures forall i: nat | i < 3 && k == Key(i) :: k in LinksAt(near) && LinksAt(near)[k] == LinkAt(i, near)
    ensures (forall i: nat | i < 3 :: k != Key(i)) ==> k !in LinksAt(near)
  {
    forall i: nat, j: nat | i < 3 && j < 3 && i != j ensures Key(i) != Key(j) {
      if Key(i) == Key(j) {
        KeysDiffer(i, j);
      }
    }
    hide LinkAt, Key;
  }

  lemma NoDelay(length: real)
    requires 0.0 <= length <= 200_000.0
    ensures DelayOf(length) == 0
  {
  }

  /** The tick of such a movement marks nothing. */
  lemma NothingMarked(i: nat, near: real, near': real)
    requires i < 3 && 0.0 <= near <= 200_000.0 && 0.0 <= near' <= 200_000.0
    ensures Synced(Settings(), true, Some(LinkAt(i, near)), [Said(i)], MeasureAt(Key(i), near'))
            == Some(LinkAt(i, near').(toUpdate := false))
    ensures !LinkAt(i, near').toUpdate && !LinkAt(i, near').toRemove && !LinkAt(i, near').toAdd
  {
    NoDelay(Length(i, near));
    NoDelay(Length(i, near'));
    if Key(i) == Key(0) {
      KeysDiffer(i, 0);
    }
    assert [Said(i)][..0] == [];
    assert SyncedBy(Settings(), true, Some(LinkAt(i, near)), [Said(i)][..0], MeasureAt(Key(i), near'))
           == Some(LinkAt(i, near));
  }

  lemma QuietAt(near: real, near': real, k: LinkKey)
    requires 0.0 <= near <= 200_000.0 && 0.0 <= near' <= 200_000.0
    ensures TickedAt(Settings(), LinksAt(near), LinksAt(near'), {}, {}, AllSaid(), MeasuresAt(near'), k)
    ensures UpdatedAt(Settings(), LinksAt(near), {}, AllSaid(), MeasuresAt(near'), k)
    ensures k in LinksAt(near) ==> AtRest(LinksAt(near)[k]) && LinksAt(near)[k].isActive
  {
    SaidOf(k);
    LinksAtKey(near, k);
    LinksAtKey(near', k);
    hide LinksAt, Key, AllSaid, Settings, MeasureAt;
    if i: nat :| i < 3 && k == Key(i) {
      NothingMarked(i, near, near');
      hide Synced, Said;
      assert LinkAt(i, near').(toUpdate := false) == LinkAt(i, near');
    }
  }

  lemma QuietAll(near: real, near': real)
    requires 0.0 <= near <= 200_000.0 && 0.0 <= near' <= 200_000.0
    ensures TickedAll(Settings(), LinksAt(near), LinksAt(near'), {}, {}, AllSaid(), MeasuresAt(near'))
    ensures forall k :: UpdatedAt(Settings(), LinksAt(near), {}, AllSaid(), MeasuresAt(near'), k)
    ensures InAccord(Settings(), LinksAt(near), AllSaid())
  {
    hide LinksAt, MeasuresAt, AtRest, Key, TickedAt, UpdatedAt;
    forall k
      ensures TickedAt(Settings(), LinksAt(near), LinksAt(near'), {}, {}, AllSaid(), MeasuresAt(near'), k)
      ensures UpdatedAt(Settings(), LinksAt(near), {}, AllSaid(), MeasuresAt(near'), k)
      ensures k in LinksAt(near) ==> AtRest(LinksAt(near)[k]) && LinksAt(near)[k].isActive
      ensures k in LinksAt(near') ==> AtRest(LinksAt(near')[k])
      ensures |ReportsFor(AllSaid(), k)| <= 1
      ensures forall r | r in ReportsFor(AllSaid(), k) :: r.isActive == Some(true) && r.disabled == Some(false)
    {
      QuietAt(near, near', k);
      QuietAt(near', near', k);
      SaidAtMostOnce(k);
    }
    assert ProperReports(AllSaid());
    AgreeingReports(Settings(), LinksAt(near), AllSaid());
  }

  lemma SaidAtMostOnce(k: LinkKey)
    ensures var reps := ReportsFor(AllSaid(), k);
            reps == [] || reps == [Said(0)] || reps == [Said(1)] || reps == [Said(2)]
  {
    SaidOf(k);
    hide Key, ReportsFor, Said, AllSaid;
    if i: nat :| i < 3 && k == Key(i) {
      assert ReportsFor(AllSaid(), k) == [Said(i)];
      assert i == 0 || i == 1 || i == 2;
    }
  }

  // ---- The routing graph, with the preference the topology starts with ----

  function Kinds(): map<(nat, nat), LinkType> {
    map[(0, 1) := GroundStationLink, (1, 0) := GroundStationLink, (0, 2) := GroundStationLink,
        (2, 0) := GroundStationLink, (1, 2) := InterSatelliteLink, (2, 1) := InterSatelliteLink]
  }

  function Lengths(near: real): map<(nat, nat), real> {
    map e | e in Kinds() :: if e == (0, 1) || e == (1, 0) then near else 90_000.0
  }

  function Net(near: real): SP.Graph {
    map e | e in Kinds() :: Weight(LatencyPreferIsls, Kinds()[e], Lengths(near)[e])
  }

  lemma NetWeights(near: real, e: (nat, nat))
    ensures e in Net(near) <==> e.0 <= 2 && e.1 <= 2 && e.0 != e.1
    ensures e in Net(near) ==>
              Net(near)[e] == if e.0 + e.1 == 1 then near else if e.0 + e.1 == 2 then 90_000.0 else 9_000.0
  {
  }

  function Ref(u: nat): NodeRef { if u == 0 then GROUND else if u == 1 then NEAR else OVER }

  /** The link of two nodes, by their ids: 0 and 1, 0 and 2, 1 and 2. */
  lemma LinkOfIds(x: nat, y: nat)
    requires x <= 2 && y <= 2 && x != y
    ensures {Ref(x), Ref(y)} == Key(x + y - 1) && x + y - 1 < 3
  {
  }

  lemma EdgeOfIds(near: real, a: NodeRef, b: NodeRef)
    ensures Edge(Settings(), LinksAt(near), AllSaid(), a, b) <==> Both(Settings().nodes, a, b)
  {
    if Both(Settings().nodes, a, b) {
      assert a == Ref(a.id) && b == Ref(b.id) && a.id <= 2 && b.id <= 2;
      LinkOfIds(a.id, b.id);
      var i := a.id + b.id - 1;
      SaidOf({a, b});
      LinksAtKey(near, {a, b});
      assert ReportsFor(AllSaid(), {a, b}) == [Said(i)];
      assert Said(i) in ReportsFor(AllSaid(), {a, b});
    }
  }

  lemma NetFits(near: real)
    requires near > 0.0
    ensures SP.WellFormed(Net(near))
  {
    hide Net;
    forall e | e in Net(near)
      ensures (e.1, e.0) in Net(near) && Net(near)[(e.1, e.0)] == Net(near)[e] && Net(near)[e] > 0.0
    {
      NetWeights(near, e);
      NetWeights(near, (e.1, e.0));
    }
  }

  lemma Ids(a: NodeRef)
    ensures a in Settings().nodes <==> a == GROUND || a == NEAR || a == OVER
    ensures a in Settings().nodes ==> a.id <= 2 && Ref(a.id) == a
  {
  }

  lemma RefIds(u: nat)
    requires u <= 2
    ensures Ref(u) in Settings().nodes && Ref(u).id == u
  {
  }

  lemma NetIsGraph(near: real)
    requires near > 0.0
    ensures GraphOf(Settings(), LinksAt(near), AllSaid(), Net(near))
  {
    hide Net, LinksAt, AllSaid, Edge, Settings, Ref, SP.WellFormed;
    NetFits(near);
    forall e | e in Net(near)
      ensures exists a, b :: Edge(Settings(), LinksAt(near), AllSaid(), a, b) && e == (a.id, b.id)
    {
      NetWeights(near, e);
      RefIds(e.0);
      RefIds(e.1);
      EdgeOfIds(near, Ref(e.0), Ref(e.1));
      assert e == (Ref(e.0).id, Ref(e.1).id);
    }
    forall a, b | Edge(Settings(), LinksAt(near), AllSaid(), a, b) ensures (a.id, b.id) in Net(near) {
      EdgeOfIds(near, a, b);
      Ids(a);
      Ids(b);
      NetWeights(near, (a.id, b.id));
    }
  }

  /** While the nearer satellite is 99 km away or more, the way over the other one is shortest. */
  function Tree(): map<nat, seq<nat>> {
    map[0 := [0], 1 := [0, 2, 1], 2 := [0, 2]]
  }

  function Far(u: nat): real { if u == 0 then 0.0 else if u == 1 then 99_000.0 else 90_000.0 }

  lemma {:induction false} CostsAtLeast(near: real, q: seq<nat>)
    requires near >= 99_000.0 && SP.IsPath(Net(near), q)
    ensures |q| > 1 ==> q[|q| - 1] <= 2
    ensures SP.Cost(Net(near), q) >= Far(q[|q| - 1]) - Far(q[0])
  {
    if |q| > 1 {
      assert (q[0], q[1]) in Net(near);
      NetWeights(near, (q[0], q[1]));
      hide Net;
      SP.TailIsPath(Net(near), q);
      CostsAtLeast(near, q[1..]);
    }
  }

  lemma TreeCost(near: real, u: nat)
    requires near >= 99_000.0 && u <= 2
    ensures SP.Joins(Net(near), Tree()[u], 0, u) && SP.Cost(Net(near), Tree()[u]) == Far(u)
  {
    NetWeights(near, (0, 2));
    NetWeights(near, (2, 1));
    hide Net;
    assert [0, 2, 1][1..] == [2, 1] && [2, 1][1..] == [1] && [0, 2][1..] == [2];
    assert SP.IsPath(Net(near), [2, 1]) && SP.Cost(Net(near), [2, 1]) == 9_000.0;
    assert SP.IsPath(Net(near), [0, 2, 1]);
  }

  lemma TreeIsOracle(near: real)
    requires near >= 99_000.0
    ensures SP.PathOracle(Net(near), 0, Tree())
  {
    forall u | u in Tree() ensures SP.IsShortest(Net(near), Tree()[u], 0, u) {
      TreeCost(near, u);
      forall q | SP.Joins(Net(near), q, 0, u) ensures SP.Cost(Net(near), Tree()[u]) <= SP.Cost(Net(near), q) {
        CostsAtLeast(near, q);
      }
    }
    forall u, q | SP.Joins(Net(near), q, 0, u) ensures u in Tree() && Tree()[u] != [] {
      CostsAtLeast(near, q);
    }
  }

  // ---- The system after init ----

  function TheDest(): NR.Dest { NR.Dest(0, "Gnd0", "64.0.0.0") }

  function SourceAt(u: nat): NR.Source {
    NR.Source(u, if u == 0 then "Gnd0" else if u == 1 then "Sat1" else "Sat2",
              if u == 0 then "64.0.0.0" else if u == 1 then "128.4.0.0" else "128.8.0.0")
  }

  function TheWorld(): World {
    World(Settings(), map u | u in IDS :: SourceAt(u), [TheDest()])
  }

  function Ports(u: nat): NR.Devices {
    map p | p in IDS && p != u :: RE.Interface(3 * u + p, p, "10.0.0.1")
  }

  function Empty(u: nat): NR.State {
    NR.State(NR.NodeView([], None, Ports(u), map[]), {}, [])
  }

  function Signed(u: nat): NR.Signature {
    SD.SignatureOf(map[0 := Tree()], [TheDest()], u)
  }

  lemma SignedResolves(u: nat)
    requires u <= 2
    ensures |Signed(u)| == 1 && NR.Resolvable(Signed(u), Ports(u))
  {
    assert [TheDest()][0] == TheDest();
  }

  function NodeAfter(u: nat): NR.State {
    if u <= 2 then
      SignedResolves(u);
      NR.State(NR.Initialized(SourceAt(u), Empty(u).view, [TheDest()], Signed(u)), {}, [TheDest()])
    else Empty(u)
  }

  function SystemAt(near: real, built: real): System {
    System(LinksAt(near), map u | u in IDS :: NodeAfter(u), [true], [true], Net(built), map[0 := Tree()])
  }

  lemma WorldIsOk()
    ensures WorldOk(TheWorld())
  {
  }

  lemma OneDest(near: real, built: real)
    ensures Dests(TheWorld(), SystemAt(near, built)) == [TheDest()]
  {
    hide Net, LinksAt, NodeAfter;
    assert [TheDest()][..0] == [] && [true][..0] == [];
  }

  lemma StartedLink(near: real, k: LinkKey)
    ensures StartedAt(Settings(), LinksAt(near), AllSaid(), MeasuresAt(near), k)
  {
    SaidOf(k);
    LinksAtKey(near, k);
    hide LinksAt, AllSaid;
    if i: nat :| i < 3 && k == Key(i) {
      StartedOne(i, near);
    }
  }

  lemma StartedOne(i: nat, near: real)
    requires i < 3
    ensures var l := SyncedBy(Settings(), false, None, [Said(i)], MeasuresAt(near)(Key(i)));
            l.Some? && BuiltFrom(l.value, LinkAt(i, near))
  {
    if Key(i) == Key(0) {
      KeysDiffer(i, 0);
    }
    assert MeasuresAt(near)(Key(i)) == Measure(Length(i, near), 0, 0);
    var none: Option<LinkState> := None;
    assert [Said(i)][..0] == [];
    assert SyncedBy(Settings(), false, none, [Said(i)][..0], MeasuresAt(near)(Key(i))) == none;
  }

  lemma PortsAreLinks(near: real, n: NodeRef)
    requires n in Settings().nodes && 0.0 <= near <= 200_000.0
    ensures Ports(n.id).Keys == DevicePeers(Settings().nodes, LinksAt(near), n)
  {
    Ids(n);
    hide LinksAt;
    forall p | p in Settings().nodes && p != n ensures {n, p} in LinksAt(near) && LinksAt(near)[{n, p}].peers != [] {
      Ids(p);
      LinkOfIds(n.id, p.id);
      LinksAtKey(near, {n, p});
    }
    forall x: nat ensures x in Ports(n.id) <==> x in DevicePeers(Settings().nodes, LinksAt(near), n) {
      if x <= 2 {
        RefIds(x);
      }
    }
  }

  lemma NodesStart(near: real, n: NodeRef)
    requires n in Settings().nodes && 0.0 <= near <= 200_000.0
    ensures WorldOk(TheWorld()) && NodeStarted(TheWorld(), SystemAt(near, near), Empty(n.id), n)
  {
    WorldIsOk();
    Ids(n);
    PortsAreLinks(near, n);
    OneDest(near, near);
    SignedResolves(n.id);
    SystemParts(near, near, n.id);
    NodeParts(n.id);
    hide NR.Initialized, NR.Initial, NR.Resolvable, SystemAt, Empty, Ports, NodeAfter, Signed, TheWorld, SD.SignatureOf,
        DevicePeers, Dests, WorldOk, LinksAt, Net, Tree, Settings;
  }

  lemma SystemParts(near: real, built: real, u: nat)
    requires u <= 2
    ensures var s := SystemAt(near, built);
            && s.links == LinksAt(near) && u in s.nodes && s.nodes[u] == NodeAfter(u)
            && s.flags == s.built == [true] && s.graph == Net(built) && s.paths == map[0 := Tree()]
  {
    hide LinksAt, Net, NodeAfter, Tree;
  }

  lemma NodeParts(u: nat)
    requires u <= 2
    ensures NodeAfter(u).pending == {} && NodeAfter(u).dsts == [TheDest()] && NR.Initial(Empty(u))
    ensures Empty(u).view.ifaces == Ports(u) && |Signed(u)| == 1 && NR.Resolvable(Signed(u), Ports(u))
    ensures NodeAfter(u).view == NR.Initialized(SourceAt(u), Empty(u).view, [TheDest()], Signed(u))
    ensures Signed(u) == SD.SignatureOf(map[0 := Tree()], [TheDest()], u)
    ensures u in TheWorld().sources && TheWorld().sources[u] == SourceAt(u)
    ensures TheWorld().cfg == Settings() && TheWorld().dests == [TheDest()]
  {
    hide NR.Initialized, Tree;
    SignedResolves(u);
  }

  function Empties(): map<nat, NR.State> {
    map u | u in IDS :: Empty(u)
  }

  lemma EmptyAt(u: nat)
    requires u <= 2
    ensures u in Empties() && Empties()[u] == Empty(u)
  {
    hide Empty;
  }

  lemma AnswersOne(w: World, s: System, d: NR.Dest, tree: map<nat, seq<nat>>)
    requires |s.built| == |w.dests| && Dests(w, s) == [d] && s.paths == map[d.id := tree]
    requires SP.PathOracle(s.graph, d.id, tree)
    ensures Answers(w, s)
  {
    hide Dests, SP.PathOracle;
  }

  lemma StartAnswers(near: real)
    requires near >= 99_000.0
    ensures Answers(TheWorld(), SystemAt(near, near))
  {
    hide *;
    OneDest(near, near);
    TreeIsOracle(near);
    SystemParts(near, near, 0);
    NodeParts(0);
    DestId();
    AnswersOne(TheWorld(), SystemAt(near, near), TheDest(), Tree());
  }

  lemma LinkStarts(near: real, k: LinkKey)
    requires 0.0 <= near <= 200_000.0
    ensures StartedAt(Settings(), LinksAt(near), AllSaid(), MeasuresAt(near), k)
    ensures k in LinksAt(near) ==> AtRest(LinksAt(near)[k]) && LinksAt(near)[k].isActive
    ensures |ReportsFor(AllSaid(), k)| <= 1
  {
    hide StartedAt, LinksAt, TickedAt, UpdatedAt, AtRest, MeasuresAt, AllSaid, ReportsFor;
    StartedLink(near, k);
    QuietAt(near, near, k);
    SaidAtMostOnce(k);
  }

  lemma SystemStarts(near: real)
    requires 99_000.0 <= near <= 200_000.0
    ensures WorldOk(TheWorld()) && Holds(TheWorld(), SystemAt(near, near))
  {
    hide *;
    WorldIsOk();
    SystemParts(near, near, 0);
    NodeParts(0);
    NetIsGraph(near);
    StartAnswers(near);
    KnownNodes(near, near);
    forall n | n in Settings().nodes
      ensures n.id in Empties() && NodeStarted(TheWorld(), SystemAt(near, near), Empties()[n.id], n)
    {
      Ids(n);
      EmptyAt(n.id);
      NodesStart(near, n);
    }
    forall k
      ensures StartedAt(Settings(), LinksAt(near), AllSaid(), MeasuresAt(near), k)
      ensures k in LinksAt(near) ==> AtRest(LinksAt(near)[k]) && LinksAt(near)[k].isActive
      ensures |ReportsFor(AllSaid(), k)| <= 1
    {
      LinkStarts(near, k);
    }
    StartHolds(TheWorld(), SystemAt(near, near), AllSaid(), MeasuresAt(near), Empties());
  }

  lemma KnownNodes(near: real, built: real)
    ensures NodesKnown(TheWorld(), SystemAt(near, built))
  {
    hide LinksAt, Net, NodeAfter;
    forall u | u in SystemAt(near, built).nodes ensures exists n :: n in Settings().nodes && n.id == u {
      RefIds(u);
    }
  }

  // ---- The tick ----

  function TheRound(near: real): Round {
    Round(AllSaid(), MeasuresAt(near), {}, {}, {}, map[], Net(near), map[])
  }

  lemma RoundIsQuiet(near: real, near': real)
    requires 99_000.0 <= near <= 200_000.0 && 0.0 < near' <= 200_000.0 && WorldOk(TheWorld())
    ensures RoundOf(TheWorld(), SystemAt(near, near), TheRound(near'), SystemAt(near', near))
    ensures !Reroutes(TheRound(near'))
  {
    hide LinksAt, Net, MeasuresAt, AllSaid, NodeAfter, Tree, GraphOf, TickedAll, InAccord, UpdatedAt, SystemAt,
        TheWorld, WorldOk, Quiet, Raised, Rerouted, Settings;
    QuietAll(near, near');
    NetIsGraph(near');
    SystemParts(near, near, 0);
    SystemParts(near', near, 0);
    NodeParts(0);
    SameBuild(near, near', near);
  }

  lemma SameBuild(near: real, near': real, built: real)
    ensures Quiet(SystemAt(near, built), SystemAt(near', built))
    ensures Raised(SystemAt(near, built).flags, SystemAt(near', built).flags)
  {
    hide LinksAt, Net, NodeAfter, Tree;
  }

  /** A walk of two different hops at most between 1 and 0. */
  lemma TwoWays(near: real, q: seq<nat>)
    requires SP.Joins(Net(near), q, 1, 0) && forall a, b | 0 <= a < b < |q| :: q[a] != q[b]
    ensures q == [1, 0] || q == [1, 2, 0]
  {
    assert |q| >= 2 && (q[0], q[1]) in Net(near);
    NetWeights(near, (q[0], q[1]));
    if |q| >= 3 {
      assert (q[1], q[2]) in Net(near);
      NetWeights(near, (q[1], q[2]));
      assert q[1] != q[|q| - 1] && q[0] != q[2];
      assert q[1] == 2 && q[2] == 0;
    }
  }

  lemma WayCosts(near: real)
    ensures SP.IsPath(Net(near), [1, 0]) && SP.Cost(Net(near), [1, 0]) == near
    ensures SP.IsPath(Net(near), [1, 2, 0]) && SP.Cost(Net(near), [1, 2, 0]) == 99_000.0
  {
    NetWeights(near, (1, 0));
    NetWeights(near, (1, 2));
    NetWeights(near, (2, 0));
    hide Net;
    assert [1, 0][1..] == [0] && [1, 2, 0][1..] == [2, 0] && [2, 0][1..] == [0];
    assert SP.IsPath(Net(near), [2, 0]) && SP.Cost(Net(near), [2, 0]) == 90_000.0;
    assert SP.IsPath(Net(near), [1, 2, 0]);
  }

  lemma WayReaches(near: real)
    requires 0.0 < near <= 200_000.0 && GraphIsLinks(Settings(), LinksAt(near), Net(near))
    ensures Reaches(Settings(), LinksAt(near), [1, 0], 1, 0)
  {
    WayCosts(near);
    hide Net, LinksAt, GraphIsLinks, Settings;
    WalksArePaths(Settings(), LinksAt(near), Net(near), [1, 0]);
  }

  /** The packets of a system that was built while the way over the other satellite was shorter go that way. */
  lemma OldWay(w: World, s: System, near: real)
    requires WorldOk(w) && Holds(w, s) && near > 99_000.0
    requires w.dests == [TheDest()] && s.built == [true] && s.graph == Net(near) && 1 in s.nodes
    requires Reaches(w.cfg, s.links, [1, 0], 1, 0)
    ensures D.Carries(Views(s), TheDest(), [1, 2, 0])
  {
    hide Holds, WorldOk, Net, D.Carries, D.NextDevice, Reaches, SP.IsShortest, D.NoCarriedShortcut;
    SystemDelivers(w, s, 0, 1);
    SystemShortest(w, s, s.graph, 0);
    HoldsGraph(w, s);
    assert TheDest().id == 0;
    var q :| && D.Carries(Views(s), TheDest(), q) && Reaches(w.cfg, s.links, q, 1, 0)
             && forall a, b | 0 <= a < b < |q| :: q[a] != q[b];
    ReachesIsPath(w.cfg, s.links, s.graph, q);
    TwoWays(near, q);
    WayCosts(near);
    Undercut(near, q);
  }

  lemma ReachesIsPath(cfg: Config, links: map<LinkKey, LinkState>, g: SP.Graph, q: seq<nat>)
    requires GraphIsLinks(cfg, links, g) && Reaches(cfg, links, q, 1, 0)
    ensures SP.Joins(g, q, 1, 0)
  {
    hide GraphIsLinks, LinkWalk;
    WalksArePaths(cfg, links, g, q);
  }

  /** Of the two ways the shorter one is shortest. */
  lemma Undercut(near: real, q: seq<nat>)
    requires SP.IsShortest(Net(near), q, 1, 0)
    ensures near > 99_000.0 ==> q != [1, 0]
    ensures near < 99_000.0 ==> q != [1, 2, 0]
  {
    WayCosts(near);
    hide Net, SP.Cost, SP.IsPath;
    assert SP.Joins(Net(near), [1, 0], 1, 0) && SP.Joins(Net(near), [1, 2, 0], 1, 0);
  }

  /** The nearer satellite comes from 100 km to 95 km: no delay crosses a millisecond, nothing is marked, the
      routing is not updated, and its packets to the ground station still go over the other satellite, 99 km by
      weight, although the link of 95 km is shorter now. */
  lemma ShortcutIsMissed()
    ensures |TheWorld().dests| == 1 && WorldOk(TheWorld()) && Holds(TheWorld(), SystemAt(100_000.0, 100_000.0))
    ensures RoundOf(TheWorld(), SystemAt(100_000.0, 100_000.0), TheRound(95_000.0), SystemAt(95_000.0, 100_000.0))
    ensures !Reroutes(TheRound(95_000.0))
    ensures !AllShortest(TheWorld(), SystemAt(95_000.0, 100_000.0), TheRound(95_000.0).graph, 0)
  {
    hide LinksAt, Net, MeasuresAt, AllSaid, SystemAt, TheWorld, WorldOk, Holds, RoundOf, GraphIsLinks, AllShortest,
        Settings, Reroutes;
    SystemStarts(100_000.0);
    RoundIsQuiet(100_000.0, 95_000.0);
    RoundHolds(TheWorld(), SystemAt(100_000.0, 100_000.0), TheRound(95_000.0), SystemAt(95_000.0, 100_000.0));
    SystemParts(95_000.0, 100_000.0, 0);
    NodeParts(0);
    Missed(95_000.0, 100_000.0);
  }

  lemma ShortestOf(w: World, s: System, g: SP.Graph, i: nat, q: seq<nat>)
    requires i < |w.dests| && AllShortest(w, s, g, i) && D.Carries(Views(s), w.dests[i], q)
    ensures SP.IsShortest(g, q, q[0], w.dests[i].id)
  {
  }

  lemma Missed(near: real, built: real)
    requires WorldOk(TheWorld()) && Holds(TheWorld(), SystemAt(near, built))
    requires GraphIsLinks(Settings(), LinksAt(near), Net(near)) && 0.0 < near < 99_000.0 < built
    ensures |TheWorld().dests| == 1 && !AllShortest(TheWorld(), SystemAt(near, built), Net(near), 0)
  {
    hide *;
    SystemParts(near, built, 1);
    NodeParts(1);
    DestId();
    WayReaches(near);
    OldWay(TheWorld(), SystemAt(near, built), built);
    if AllShortest(TheWorld(), SystemAt(near, built), Net(near), 0) {
      ShortestOf(TheWorld(), SystemAt(near, built), Net(near), 0, [1, 2, 0]);
      Undercut(near, [1, 2, 0]);
    }
  }

  lemma DestId()
    ensures TheDest().id == 0
  {
  }
}

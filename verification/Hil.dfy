/** Ground stations with real hardware: one bridge per station between a hardware interface and the veth of the
    current satellite (satgonetem/launchers/hil_manager.py:146-560,
    satgonetem/services/mixins/topology_sync.py:580-608). */
module Hil {
  import opened Wrappers
  import opened Nodes

  /** A ground station link of which one end has hardware; pid is the satellite's container, 0 if unknown. */
  datatype HilLink = HilLink(source: NodeRef, target: NodeRef, pid: nat)

  /** What can be put into a bridge of the host. */
  datatype Port = Veth(station: nat) | Hardware(name: string)

  /** The host: the veth of a station leads to one satellite, a port has one bridge at most, bridges are named
      by their station. */
  datatype Kernel = Kernel(veths: map<nat, nat>, bridges: set<nat>, master: map<Port, nat>)

  /** The kernel and the two dictionaries (the keys of both are always the same). */
  datatype State = State(kernel: Kernel, hilBridges: set<nat>)

  /** The hardware interface of each station, by the station's id, and the interfaces the host has. */
  datatype Config = Config(hardware: map<nat, string>, present: set<string>)

  predicate HasHardware(c: Config, n: NodeRef) {
    n.kind == GroundStation && n.id in c.hardware
  }

  /** One end has hardware, the other is a satellite. */
  predicate IsHilLink(c: Config, l: HilLink) {
    (HasHardware(c, l.target) && l.source.kind == Satellite) || (HasHardware(c, l.source) && l.target.kind == Satellite)
  }

  function StationOf(c: Config, l: HilLink): nat {
    if HasHardware(c, l.target) then l.target.id else l.source.id
  }

  function SatelliteOf(c: Config, l: HilLink): nat {
    if HasHardware(c, l.target) then l.source.id else l.target.id
  }

  // ---- Single steps; a name that is taken or missing makes a call fail ----

  function VethCreated(k: Kernel, g: nat, sat: nat): Option<Kernel> {
    if g in k.veths then None else Some(k.(veths := k.veths[g := sat]))
  }

  /** The kernel after the call and whether it went well; a missing port leaves a bridge behind. */
  function BridgeCreated(c: Config, k: Kernel, g: nat): (Kernel, bool)
    requires g in c.hardware
  {
    if g in k.bridges then (k, false)
    else
      var k1 := k.(bridges := k.bridges + {g});
      if g !in k.veths then (k1, false)
      else
        var k2 := k1.(master := k1.master[Veth(g) := g]);
        if c.hardware[g] !in c.present then (k2, false)
        else (k2.(master := k2.master[Hardware(c.hardware[g]) := g]), true)
  }

  /** Deleting a bridge releases its ports. */
  function BridgeDeleted(k: Kernel, g: nat): Kernel {
    if g in k.bridges then k.(bridges := k.bridges - {g}, master := map p | p in k.master
        && k.master[p] != g :: k.master[p]) else k
  }

  /** Deleting the satellite's end removes the host's end as well, if it leads there. */
  function VethDeleted(k: Kernel, g: nat, sat: nat): Kernel {
    if g in k.veths && k.veths[g] == sat then k.(veths := k.veths - {g}, master := k.master - {Veth(g)}) else k
  }

  function SetUp(c: Config, s: State, l: HilLink): State
    requires IsHilLink(c, l)
  {
    var g := StationOf(c, l);
    if l.pid == 0 then s
    else match VethCreated(s.kernel, g, SatelliteOf(c, l))
      case None => s
      case Some(k) =>
        var (k', ok) := BridgeCreated(c, k, g);
        State(k', if ok then s.hilBridges + {g} else s.hilBridges)
  }

  function BridgeTornDown(s: State, g: nat): State {
    if g in s.hilBridges then State(BridgeDeleted(s.kernel, g), s.hilBridges - {g}) else s
  }

  function TornDown(c: Config, s: State, l: HilLink): State
    requires IsHilLink(c, l)
  {
    var g := StationOf(c, l);
    var s1 := BridgeTornDown(s, g);
    if l.pid == 0 then s1 else s1.(kernel := VethDeleted(s1.kernel, g, SatelliteOf(c, l)))
  }

  function AllSetUp(c: Config, s: State, links: seq<HilLink>): State
    requires forall l | l in links :: IsHilLink(c, l)
  {
    if links == [] then s else SetUp(c, AllSetUp(c, s, links[..|links| - 1]), links[|links| - 1])
  }

  function AllTornDown(c: Config, s: State, links: seq<HilLink>): State
    requires forall l | l in links :: IsHilLink(c, l)
  {
    if links == [] then s else TornDown(c, AllTornDown(c, s, links[..|links| - 1]), links[|links| - 1])
  }

  // ---- The manager ----

  class HILManager {
    const config: Config
    var hilBridges: set<nat>  // the keys of _hil_bridges and of _hil_veths
    var kernel: Kernel        // the host

    constructor (config: Config)
      ensures this.config == config && hilBridges == {} && kernel == Kernel(map[], {}, map[])
    {
      this.config, hilBridges, kernel := config, {}, Kernel(map[], {}, map[]);
    }

    function Now(): State
      reads this
    {
      State(kernel, hilBridges)
    }

    method CreateVeth(sat: nat, g: nat) returns (ok: bool)
      modifies this`kernel
      ensures ok <==> g !in old(kernel.veths)
      ensures ok == VethCreated(old(kernel), g, sat).Some?
      ensures kernel == if ok then VethCreated(old(kernel), g, sat).value else old(kernel)
    {
      if g in kernel.veths {
        return false;
      }
      kernel := kernel.(veths := kernel.veths[g := sat]);
      return true;
    }

    method CreateBridge(g: nat) returns (ok: bool)
      requires g in config.hardware
      modifies this
      ensures (kernel, ok) == BridgeCreated(config, old(kernel), g)
      ensures ok <==> g !in old(kernel.bridges) && g in old(kernel.veths) && config.hardware[g] in config.present
      ensures kernel.veths == old(kernel.veths) && kernel.bridges == old(kernel.bridges) + {g}
      ensures forall p | (p != Veth(g) && p != Hardware(config.hardware[g])) || g in old(kernel.bridges) ::
                (p in kernel.master <==> p in old(kernel.master))
                && (p in kernel.master ==> kernel.master[p] == old(kernel.master)[p])
      ensures g !in old(kernel.bridges) && g in old(kernel.veths) ==>
                Veth(g) in kernel.master && kernel.master[Veth(g)] == g
      ensures g !in old(kernel.bridges) && g !in old(kernel.veths) ==> kernel.master == old(kernel.master)
      ensures ok ==>
                var hardware := Hardware(config.hardware[g]);
                hardware in kernel.master && kernel.master[hardware] == g
      ensures !ok ==>
                var hardware := Hardware(config.hardware[g]);
                (hardware in kernel.master <==> hardware in old(kernel.master))
                && (hardware in kernel.master ==> kernel.master[hardware] == old(kernel.master)[hardware])
      ensures hilBridges == if ok then old(hilBridges) + {g} else old(hilBridges)
    {
      if g in kernel.bridges {
        return false;
      }
      kernel := kernel.(bridges := kernel.bridges + {g});
      if g !in kernel.veths {
        return false;
      }
      kernel := kernel.(master := kernel.master[Veth(g) := g]);
      if config.hardware[g] !in config.present {
        return false;
      }
      kernel := kernel.(master := kernel.master[Hardware(config.hardware[g]) := g]);
      hilBridges := hilBridges + {g};
      return true;
    }

    method TeardownBridge(g: nat)
      modifies this
      ensures Now() == BridgeTornDown(old(Now()), g)
    {
      if g !in hilBridges {
        return;
      }
      hilBridges := hilBridges - {g};
      kernel := BridgeDeleted(kernel, g);
    }

    method SetupLink(l: HilLink)
      requires IsHilLink(config, l)
      modifies this
      ensures Now() == SetUp(config, old(Now()), l)
      ensures l.pid == 0 || StationOf(config, l) in old(kernel.veths) ==> Now() == old(Now())
    {
      if l.pid == 0 {
        return;
      }
      var g := StationOf(config, l);
      var made := CreateVeth(SatelliteOf(config, l), g);
      if !made {
        return;
      }
      var ok := CreateBridge(g);
    }

    method TeardownLink(l: HilLink)
      requires IsHilLink(config, l)
      modifies this
      ensures Now() == TornDown(config, old(Now()), l)
      ensures l.pid == 0 ==> kernel.veths == old(kernel.veths)
    {
      var g := StationOf(config, l);
      TeardownBridge(g);
      if l.pid == 0 {
        return;
      }
      kernel := VethDeleted(kernel, g, SatelliteOf(config, l));
    }

    method WireLinks(links: seq<HilLink>)
      requires forall l | l in links :: IsHilLink(config, l)
      modifies this
      ensures Now() == AllSetUp(config, old(Now()), links)
    {
      for i := 0 to |links|
        invariant Now() == AllSetUp(config, old(Now()), links[..i])
      {
        assert links[..i + 1][..i] == links[..i];
        SetupLink(links[i]);
      }
      assert links[..|links|] == links;
    }

    method TeardownAll()
      modifies this
      ensures hilBridges == {}
      ensures kernel.bridges == old(kernel.bridges - hilBridges) && kernel.veths == old(kernel.veths)
      ensures forall p :: p in kernel.master <==>
                p in old(kernel.master) && old(kernel.master[p] !in hilBridges * kernel.bridges)
    {
      var todo := hilBridges;
      while todo != {}
        invariant todo <= old(hilBridges) && hilBridges == todo
        invariant kernel.bridges == old(kernel.bridges) - (old(hilBridges) - todo) && kernel.veths == old(kernel.veths)
        invariant forall p :: p in kernel.master <==>
                    p in old(kernel.master) && old(kernel).master[p] !in (old(hilBridges) - todo) * old(kernel.bridges)
        invariant forall p | p in kernel.master :: kernel.master[p] == old(kernel).master[p]
      {
        var g :| g in todo;
        TeardownBridge(g);
        todo := todo - {g};
      }
    }

    /** The link part of a tick: every removed link first, then every added one. */
    method Tick(removed: seq<HilLink>, added: seq<HilLink>)
      requires forall l | l in removed + added :: IsHilLink(config, l)
      modifies this
      ensures forall l | l in removed :: IsHilLink(config, l)
      ensures forall l | l in added :: IsHilLink(config, l)
      ensures Now() == AllSetUp(config, AllTornDown(config, old(Now()), removed), added)
    {
      assert forall l | l in removed :: l in removed + added;
      assert forall l | l in added :: l in removed + added;
      for i := 0 to |removed|
        invariant Now() == AllTornDown(config, old(Now()), removed[..i])
      {
        assert removed[..i + 1][..i] == removed[..i];
        TeardownLink(removed[i]);
      }
      assert removed[..|removed|] == removed;
      WireLinks(added);
    }
  }

  // ---- What every tick keeps ----

  /** Each hardware interface belongs to one station and the host has it. */
  predicate Equipped(c: Config) {
    && (forall g | g in c.hardware :: c.hardware[g] in c.present)
    && forall g, h | g in c.hardware && h in c.hardware && g != h :: c.hardware[g] != c.hardware[h]
  }

  /** The bridge of each of some stations holds its veth and its hardware, and no bridge holds anything else. */
  ghost predicate PortsRight(c: Config, master: map<Port, nat>, stations: set<nat>)
    requires stations <= c.hardware.Keys
  {
    && (forall g | g in stations :: Veth(g) in master && master[Veth(g)] == g
                                    && Hardware(c.hardware[g]) in master && master[Hardware(c.hardware[g])] == g)
    && forall p | p in master :: master[p] in stations && (p == Veth(master[p]) || p == Hardware(c.hardware[master[p]]))
  }

  /** Exactly the stations with an active link have a bridge; it holds the station's hardware and the veth that
      leads to its satellite, and nothing else. */
  ghost predicate Bridged(c: Config, s: State, active: map<nat, nat>) {
    && active.Keys <= c.hardware.Keys
    && s.kernel.veths == active && s.kernel.bridges == active.Keys && s.hilBridges == active.Keys
    && PortsRight(c, s.kernel.master, active.Keys)
  }

  // ---- A tick on stations some of which are cut off ----

  /** Every station with an active link has the veth that leads to its satellite; all but some, which are cut off,
      have the bridge that joins it to the hardware, and nothing else is there. */
  ghost predicate BridgedBut(c: Config, s: State, active: map<nat, nat>, cut: set<nat>) {
    && active.Keys <= c.hardware.Keys && cut <= active.Keys
    && s.kernel.veths == active && s.kernel.bridges == s.hilBridges == active.Keys - cut
    && PortsRight(c, s.kernel.master, active.Keys - cut)
  }

  lemma NoneCutOff(c: Config, s: State, active: map<nat, nat>, cut: set<nat>)
    requires BridgedBut(c, s, active, cut)
    ensures Bridged(c, s, active) <==> cut == {}
  {
    assert cut == {} ==> active.Keys - cut == active.Keys;
    assert active.Keys - cut == active.Keys ==> cut == {} by {
      assert cut == active.Keys - (active.Keys - cut);
    }
  }

  lemma NoneIsCutOff(c: Config, s: State, active: map<nat, nat>)
    ensures Bridged(c, s, active) <==> BridgedBut(c, s, active, {})
  {
    assert active.Keys - {} == active.Keys;
  }

  lemma CutOffHas(c: Config, s: State, active: map<nat, nat>, cut: set<nat>, g: nat)
    requires BridgedBut(c, s, active, cut)
    ensures g in cut ==> g in active && g !in s.kernel.bridges && g !in s.hilBridges
  {
    hide PortsRight;
  }

  /** The link is its station's active one. */
  predicate Current(c: Config, active: map<nat, nat>, l: HilLink) {
    StationOf(c, l) in active && active[StationOf(c, l)] == SatelliteOf(c, l)
  }

  /** The active links that some removals leave. */
  function Unlinked(c: Config, active: map<nat, nat>, links: seq<HilLink>): map<nat, nat> {
    if links == [] then active
    else
      var rest, l := Unlinked(c, active, links[..|links| - 1]), links[|links| - 1];
      if Current(c, rest, l) then rest - {StationOf(c, l)} else rest
  }

  /** The satellite of each station after some links. */
  function Linked(c: Config, active: map<nat, nat>, links: seq<HilLink>): map<nat, nat> {
    if links == [] then active
    else Linked(c, active, links[..|links| - 1])[StationOf(c, links[|links| - 1]) := SatelliteOf(c, links[|links| - 1])]
  }

  /** HIL links of known containers. */
  predicate Known(c: Config, links: seq<HilLink>) {
    forall l | l in links :: IsHilLink(c, l) && l.pid != 0
  }

  /** At most one link per station. */
  predicate OnePerStation(c: Config, links: seq<HilLink>) {
    forall i, j | 0 <= i < j < |links| :: StationOf(c, links[i]) != StationOf(c, links[j])
  }

  /** One of the links is the station's. */
  predicate Touches(c: Config, links: seq<HilLink>, g: nat) {
    exists l :: l in links && StationOf(c, l) == g
  }

  /** The stations that are cut off afterwards: their active link stays, but they were cut off before or lost their
      bridge with another link. */
  function CutBy(c: Config, active: map<nat, nat>, cut: set<nat>, removed: seq<HilLink>): set<nat> {
    set g | g in Unlinked(c, active, removed).Keys && (g in cut || Touches(c, removed, g))
  }

  lemma DropPorts(c: Config, master: map<Port, nat>, stations: set<nat>, g: nat)
    requires stations <= c.hardware.Keys && PortsRight(c, master, stations)
    ensures PortsRight(c, map p | p in master && master[p] != g :: master[p], stations - {g})
    ensures g !in stations ==> (map p | p in master && master[p] != g :: master[p]) == master && Veth(g) !in master
    ensures Veth(g) !in map p | p in master && master[p] != g :: master[p]
  {
    var fewer := map p | p in master && master[p] != g :: master[p];
    assert forall h | h in stations - {g} :: master[Veth(h)] == h && master[Hardware(c.hardware[h])] == h;
  }

  /** One removal: the station's bridge goes whatever link it is, its veth only with the active one. */
  lemma TearDownLeaves(c: Config, s: State, active: map<nat, nat>, cut: set<nat>, l: HilLink)
    requires BridgedBut(c, s, active, cut) && IsHilLink(c, l) && l.pid != 0
    ensures var g := StationOf(c, l);
            if Current(c, active, l) then BridgedBut(c, TornDown(c, s, l), active - {g}, cut - {g})
            else BridgedBut(c, TornDown(c, s, l), active, cut + if g in active then {g} else {})
  {
    var g, stations, master := StationOf(c, l), active.Keys - cut, s.kernel.master;
    var fewer := map p | p in master && master[p] != g :: master[p];
    DropPorts(c, master, stations, g);
    hide PortsRight, IsHilLink;
    if Current(c, active, l) {
      assert (active - {g}).Keys - (cut - {g}) == stations - {g};
      assert fewer - {Veth(g)} == fewer && (g !in stations ==> master - {Veth(g)} == fewer);
    } else {
      assert active.Keys - (cut + if g in active then {g} else {}) == stations - {g};
    }
  }

  lemma MorePorts(c: Config, master: map<Port, nat>, stations: set<nat>, g: nat)
    requires Equipped(c) && stations <= c.hardware.Keys && PortsRight(c, master, stations) && g !in stations
              && g in c.hardware
    ensures PortsRight(c, master[Veth(g) := g][Hardware(c.hardware[g]) := g], stations + {g})
  {
  }

  /** One addition to a station without an active link. */
  lemma SetUpLeaves(c: Config, s: State, active: map<nat, nat>, cut: set<nat>, l: HilLink)
    requires Equipped(c) && BridgedBut(c, s, active, cut) && IsHilLink(c, l) && l.pid != 0
    requires StationOf(c, l) !in active
    ensures BridgedBut(c, SetUp(c, s, l), active[StationOf(c, l) := SatelliteOf(c, l)], cut)
  {
    hide PortsRight;
    var g := StationOf(c, l);
    MorePorts(c, s.kernel.master, active.Keys - cut, g);
    assert active[g := SatelliteOf(c, l)].Keys - cut == (active.Keys - cut) + {g};
  }

  lemma LastLink(c: Config, links: seq<HilLink>)
    requires links != []
    ensures var init, last := links[..|links| - 1], links[|links| - 1];
            && last in links && (Known(c, links) ==> Known(c, init) && IsHilLink(c, last) && last.pid != 0)
            && (OnePerStation(c, links) ==> OnePerStation(c, init) && !Touches(c, init, StationOf(c, last)))
            && forall g :: Touches(c, links, g) <==> Touches(c, init, g) || StationOf(c, last) == g
  {
    var n := |links| - 1;
    hide StationOf, IsHilLink;
    assert links == links[..n] + [links[n]];
    forall g ensures Touches(c, links, g) <==> Touches(c, links[..n], g) || StationOf(c, links[n]) == g {
      if Touches(c, links, g) {
        var l :| l in links && StationOf(c, l) == g;
        assert l in links[..n] || l == links[n];
      }
    }
    forall l | OnePerStation(c, links) && l in links[..n] ensures StationOf(c, l) != StationOf(c, links[n]) {
      var i :| 0 <= i < n && links[..n][i] == l;
      assert links[i] == l;
    }
  }

  /** Any removals, any number per station. */
  lemma {:induction false} TearDownsLeave(c: Config, s: State, active: map<nat, nat>, cut: set<nat>,
                                          links: seq<HilLink>)
    requires BridgedBut(c, s, active, cut) && Known(c, links)
    ensures BridgedBut(c, AllTornDown(c, s, links), Unlinked(c, active, links), CutBy(c, active, cut, links))
  {
    if links == [] {
      assert CutBy(c, active, cut, links) == cut;
    } else {
      var n := |links| - 1;
      LastLink(c, links);
      TearDownsLeave(c, s, active, cut, links[..n]);
      var left, torn := Unlinked(c, active, links[..n]), CutBy(c, active, cut, links[..n]);
      var g := StationOf(c, links[n]);
      assert CutBy(c, active, cut, links)
             == if Current(c, left, links[n]) then torn - {g} else torn + if g in left then {g} else {};
      hide BridgedBut, TornDown, StationOf, CutBy, IsHilLink, Known;
      TearDownLeaves(c, AllTornDown(c, s, links[..n]), left, torn, links[n]);
    }
  }

  lemma {:induction false} SetUpsLeave(c: Config, s: State, active: map<nat, nat>, cut: set<nat>, links: seq<HilLink>)
    requires Equipped(c) && BridgedBut(c, s, active, cut) && Known(c, links) && OnePerStation(c, links)
    requires forall l | l in links :: StationOf(c, l) !in active
    ensures BridgedBut(c, AllSetUp(c, s, links), Linked(c, active, links), cut)
    ensures forall g :: g in Linked(c, active, links) <==> g in active || Touches(c, links, g)
  {
    if links != [] {
      hide BridgedBut, Equipped, SetUp, IsHilLink, StationOf, SatelliteOf, OnePerStation, Touches;
      var n := |links| - 1;
      LastLink(c, links);
      assert forall l | l in links[..n] :: l in links;
      SetUpsLeave(c, s, active, cut, links[..n]);
      SetUpLeaves(c, AllSetUp(c, s, links[..n]), Linked(c, active, links[..n]), cut, links[n]);
    }
  }

  function Ticked(c: Config, s: State, removed: seq<HilLink>, added: seq<HilLink>): State
    requires Known(c, removed) && Known(c, added)
  {
    AllSetUp(c, AllTornDown(c, s, removed), added)
  }

  /** A tick that leaves at most one active link per station, whatever it removes. */
  lemma TickLeaves(c: Config, s: State, active: map<nat, nat>, cut: set<nat>, removed: seq<HilLink>,
                   added: seq<HilLink>)
    requires Equipped(c) && BridgedBut(c, s, active, cut) && Known(c, removed) && Known(c, added)
    requires OnePerStation(c, added) && forall l | l in added :: StationOf(c, l) !in Unlinked(c, active, removed)
    ensures BridgedBut(c, Ticked(c, s, removed, added), Linked(c, Unlinked(c, active, removed), added),
                       CutBy(c, active, cut, removed))
  {
    TearDownsLeave(c, s, active, cut, removed);
    SetUpsLeave(c, AllTornDown(c, s, removed), Unlinked(c, active, removed), CutBy(c, active, cut, removed), added);
  }

  lemma {:induction false} UnlinkedExact(c: Config, active: map<nat, nat>, links: seq<HilLink>)
    ensures forall g ::
              g in Unlinked(c, active, links)
              <==> g in active && forall r | r in links && StationOf(c, r) == g :: !Current(c, active, r)
    ensures forall g | g in Unlinked(c, active, links) :: Unlinked(c, active, links)[g] == active[g]
  {
    if links != [] {
      hide StationOf, SatelliteOf;
      var n := |links| - 1;
      assert links == links[..n] + [links[n]];
      UnlinkedExact(c, active, links[..n]);
    }
  }

  lemma {:induction false} LinkedExact(c: Config, active: map<nat, nat>, links: seq<HilLink>)
    requires OnePerStation(c, links)
    ensures forall g :: g in Linked(c, active, links) <==> g in active || Touches(c, links, g)
    ensures forall l | l in links ::
              && StationOf(c, l) in Linked(c, active, links)
              && Linked(c, active, links)[StationOf(c, l)] == SatelliteOf(c, l)
    ensures forall g | g in active && !Touches(c, links, g) :: Linked(c, active, links)[g] == active[g]
  {
    if links != [] {
      var n := |links| - 1;
      LastLink(c, links);
      assert links == links[..n] + [links[n]];
      hide StationOf, SatelliteOf, OnePerStation;
      LinkedExact(c, active, links[..n]);
    }
  }

  /** Exactly when a tick leaves every station with an active link in its one bridge: every removed link that is not
      its station's active one has a station without an active link, or one whose active link is removed in the
      same tick. */
  lemma TickKeeps(c: Config, s: State, active: map<nat, nat>, removed: seq<HilLink>, added: seq<HilLink>)
    requires Equipped(c) && Bridged(c, s, active) && Known(c, removed) && Known(c, added)
    requires OnePerStation(c, added) && forall l | l in added :: StationOf(c, l) !in Unlinked(c, active, removed)
    ensures Bridged(c, Ticked(c, s, removed, added), Linked(c, Unlinked(c, active, removed), added))
            <==> forall l | l in removed && !Current(c, active, l) && StationOf(c, l) in active ::
                   exists r :: r in removed && StationOf(c, r) == StationOf(c, l) && Current(c, active, r)
  {
    NoneCutOff(c, s, active, {});
    var s', active', cut := Ticked(c, s, removed, added), Linked(c, Unlinked(c, active, removed), added),
                            CutBy(c, active, {}, removed);
    TickLeaves(c, s, active, {}, removed, added);
    NoneCutOff(c, s', active', cut);
    UnlinkedExact(c, active, removed);
    hide Bridged, BridgedBut, Ticked, Unlinked, Linked, StationOf, SatelliteOf, Known;
    if cut != {} {
      var g :| g in cut;
      var l :| l in removed && StationOf(c, l) == g;
      assert !Current(c, active, l);
    } else {
      forall l | l in removed && !Current(c, active, l) && StationOf(c, l) in active
        ensures exists r :: r in removed && StationOf(c, r) == StationOf(c, l) && Current(c, active, r)
      {
        assert Touches(c, removed, StationOf(c, l)) && StationOf(c, l) !in cut;
      }
    }
  }

  /** A link that was never active takes the bridge of its station's active link with it: the station's veth stays
      and leads nowhere. */
  lemma StrayRemovalCuts(c: Config, s: State, active: map<nat, nat>, l: HilLink)
    requires Equipped(c) && Bridged(c, s, active) && IsHilLink(c, l) && l.pid != 0
    requires StationOf(c, l) in active && !Current(c, active, l)
    ensures var s', g := Ticked(c, s, [l], []), StationOf(c, l);
            && g !in s'.hilBridges && g !in s'.kernel.bridges && s'.kernel.veths == active
            && Veth(g) !in s'.kernel.master && !Bridged(c, s', active)
  {
    OneRemoval(c, s, l);
    var s', g := TornDown(c, s, l), StationOf(c, l);
    hide TornDown, IsHilLink, SatelliteOf, Ticked;
    NoneCutOff(c, s, active, {});
    TearDownLeaves(c, s, active, {}, l);
    assert BridgedBut(c, s', active, {g}) by { assert {} + {g} == {g}; }
    assert g !in active.Keys - {g};
  }

  lemma OneRemoval(c: Config, s: State, l: HilLink)
    requires IsHilLink(c, l) && l.pid != 0
    ensures Ticked(c, s, [l], []) == TornDown(c, s, l)
  {
    hide TornDown, IsHilLink;
    var links := [l];
    assert links[..0] == [] && links[|links| - 1] == l;
    assert AllTornDown(c, s, links[..0]) == s;
    assert AllTornDown(c, s, links) == TornDown(c, s, l);
  }

  /** Wiring the active links of a topology that starts. */
  lemma WiredStart(c: Config, links: seq<HilLink>)
    requires Equipped(c) && Known(c, links) && OnePerStation(c, links)
    ensures Bridged(c, AllSetUp(c, State(Kernel(map[], {}, map[]), {}), links), Linked(c, map[], links))
  {
    var s := State(Kernel(map[], {}, map[]), {});
    var none: map<nat, nat> := map[];
    assert none.Keys - {} == {};
    assert BridgedBut(c, s, none, {});
    SetUpsLeave(c, s, none, {}, links);
    assert Linked(c, none, links) == Linked(c, map[], links);
    NoneCutOff(c, AllSetUp(c, s, links), Linked(c, map[], links), {});
  }

  /** It rests on deleting first: a handover in the other order leaves the station without bridge or veth while
      its new link is active, because the new veth's name is still taken. */
  lemma AddingFirstDisconnects(c: Config, s: State, active: map<nat, nat>, old': HilLink, new': HilLink)
    requires Equipped(c) && Bridged(c, s, active) && IsHilLink(c, old') && IsHilLink(c, new') && old'.pid != 0
              && new'.pid != 0
    requires StationOf(c, old') == StationOf(c, new') && StationOf(c, old') in active
              && active[StationOf(c, old')] == SatelliteOf(c, old')
    ensures Bridged(c, TornDown(c, SetUp(c, s, new'), old'), active - {StationOf(c, new')})
  {
    NoneCutOff(c, s, active, {});
    TearDownLeaves(c, s, active, {}, old');
    NoneCutOff(c, TornDown(c, s, old'), active - {StationOf(c, old')}, {} - {StationOf(c, old')});
  }
}

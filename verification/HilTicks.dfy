/** The bridges of the ground stations with hardware over the ticks of the topology: which links a tick tears down
    and sets up, and which stations keep their bridge (satgonetem/services/mixins/topology_sync.py:162-242, 573-608,
    satgonetem/services/mixins/link_ops.py:229-281). */
module HilTicks {
  import opened Wrappers
  import opened Nodes
  import opened Links
  import opened LinkSync
  import opened Wiring
  import opened Reconcile
  import opened TickDevices
  import H = Hil

  /** HIL links, by their key. */
  type Family = map<LinkKey, H.HilLink>

  // ---- Families ----

  /** HIL links of known containers, no two of which join the same station and satellite. */
  predicate Apart(c: H.Config, h: Family) {
    && (forall k | k in h :: H.IsHilLink(c, h[k]) && h[k].pid != 0)
    && forall j, k | j in h && k in h && H.StationOf(c, h[j]) == H.StationOf(c, h[k])
                     && H.SatelliteOf(c, h[j]) == H.SatelliteOf(c, h[k]) :: j == k
  }

  /** At most one of the links per station. */
  predicate Single(c: H.Config, h: Family, keys: set<LinkKey>) {
    forall j, k | j in h && k in h && j in keys && k in keys && H.StationOf(c, h[j]) == H.StationOf(c, h[k]) :: j == k
  }

  /** The station has one of the links. */
  ghost predicate Has(c: H.Config, h: Family, keys: set<LinkKey>, g: nat) {
    exists k :: k in h && k in keys && H.StationOf(c, h[k]) == g
  }

  /** The satellite of each station that has one of the links. */
  function Serving(c: H.Config, h: Family, keys: set<LinkKey>): (m: map<nat, nat>)
    requires Single(c, h, keys)
    ensures forall g :: g in m <==> Has(c, h, keys, g)
    ensures forall k | k in h && k in keys ::
              H.StationOf(c, h[k]) in m && m[H.StationOf(c, h[k])] == H.SatelliteOf(c, h[k])
  {
    map k | k in h && k in keys :: H.StationOf(c, h[k]) := H.SatelliteOf(c, h[k])
  }

  /** The links of some keys in some order, each once. */
  predicate Listed(h: Family, keys: set<LinkKey>, order: seq<LinkKey>, list: seq<H.HilLink>) {
    && |list| == |order|
    && (forall i | 0 <= i < |order| :: order[i] in h && order[i] in keys && list[i] == h[order[i]])
    && (forall i, j | 0 <= i < j < |order| :: order[i] != order[j])
    && forall k | k in h && k in keys :: k in order
  }

  /** The links of a list are those of some keys. */
  ghost predicate Holds(h: Family, keys: set<LinkKey>, list: seq<H.HilLink>) {
    forall l :: l in list <==> exists k :: k in h && k in keys && h[k] == l
  }

  lemma ListedLinks(c: H.Config, h: Family, keys: set<LinkKey>, order: seq<LinkKey>, list: seq<H.HilLink>)
    requires Apart(c, h) && Listed(h, keys, order, list)
    ensures H.Known(c, list)
    ensures Holds(h, keys, list)
    ensures forall g :: H.Touches(c, list, g) <==> Has(c, h, keys, g)
    ensures Single(c, h, keys) ==> H.OnePerStation(c, list)
  {
    hide H.StationOf, H.SatelliteOf, H.IsHilLink;
    forall l ensures l in list <==> exists k :: k in h && k in keys && h[k] == l {
      if l in list {
        var i :| 0 <= i < |list| && list[i] == l;
        assert h[order[i]] == l;
      }
      if k :| k in h && k in keys && h[k] == l {
        var i :| 0 <= i < |order| && order[i] == k;
        assert list[i] == l;
      }
    }
  }

  lemma LeftAt(c: H.Config, h: Family, active: set<LinkKey>, removed: set<LinkKey>, list: seq<H.HilLink>, g: nat)
    requires Apart(c, h) && Single(c, h, active) && Single(c, h, active - removed) && Holds(h, removed, list)
    ensures var left, m := Serving(c, h, active - removed), H.Unlinked(c, Serving(c, h, active), list);
            (g in left <==> g in m) && (g in left ==> left[g] == m[g])
  {
    hide H.StationOf, H.SatelliteOf, H.IsHilLink, Serving;
    var m := Serving(c, h, active);
    H.UnlinkedExact(c, m, list);
    if Has(c, h, active, g) {
      var k :| k in h && k in active && H.StationOf(c, h[k]) == g;
      if k in removed {
        assert h[k] in list && H.Current(c, m, h[k]);
      } else {
        assert k in active - removed;
      }
    }
  }

  lemma SameMap(m: map<nat, nat>, n: map<nat, nat>)
    requires forall g :: (g in m <==> g in n) && (g in m ==> m[g] == n[g])
    ensures m == n
  {
  }

  lemma RemovedLeave(c: H.Config, h: Family, active: set<LinkKey>, removed: set<LinkKey>, list: seq<H.HilLink>)
    requires Apart(c, h) && Single(c, h, active) && Single(c, h, active - removed) && Holds(h, removed, list)
    ensures H.Unlinked(c, Serving(c, h, active), list) == Serving(c, h, active - removed)
  {
    hide *;
    var left, m := Serving(c, h, active - removed), H.Unlinked(c, Serving(c, h, active), list);
    forall g ensures (g in left <==> g in m) && (g in left ==> left[g] == m[g]) {
      LeftAt(c, h, active, removed, list, g);
    }
    SameMap(left, m);
  }

  lemma JoinedAt(c: H.Config, h: Family, active: set<LinkKey>, added: set<LinkKey>, list: seq<H.HilLink>, g: nat)
    requires Single(c, h, active + added) && active !! added && Single(c, h, active) && H.OnePerStation(c, list)
    requires Holds(h, added, list)
    ensures g in Serving(c, h, active) ==> !H.Touches(c, list, g)
    ensures var all, m := Serving(c, h, active + added), H.Linked(c, Serving(c, h, active), list);
            (g in all <==> g in m) && (g in all ==> all[g] == m[g])
  {
    hide H.StationOf, H.SatelliteOf, H.OnePerStation, Serving;
    H.LinkedExact(c, Serving(c, h, active), list);
    if Has(c, h, active + added, g) {
      var k :| k in h && k in active + added && H.StationOf(c, h[k]) == g;
      assert k in added ==> h[k] in list;
    }
  }

  lemma AddedJoin(c: H.Config, h: Family, active: set<LinkKey>, added: set<LinkKey>, list: seq<H.HilLink>)
    requires Single(c, h, active + added) && active !! added && Single(c, h, active) && H.OnePerStation(c, list)
    requires Holds(h, added, list)
    ensures H.Linked(c, Serving(c, h, active), list) == Serving(c, h, active + added)
    ensures forall l | l in list :: H.StationOf(c, l) !in Serving(c, h, active)
  {
    hide *;
    var all, m := Serving(c, h, active + added), H.Linked(c, Serving(c, h, active), list);
    forall g ensures (g in all <==> g in m) && (g in all ==> all[g] == m[g]) {
      JoinedAt(c, h, active, added, list, g);
    }
    SameMap(all, m);
    forall l | l in list ensures H.StationOf(c, l) !in Serving(c, h, active) {
      TouchedBy(c, list, l);
      JoinedAt(c, h, active, added, list, H.StationOf(c, l));
    }
  }

  lemma TouchedBy(c: H.Config, list: seq<H.HilLink>, l: H.HilLink)
    requires l in list
    ensures H.Touches(c, list, H.StationOf(c, l))
  {
  }

  /** The stations that are cut off after a tick: their active link stays, but they were cut off before or another
      of their links is removed. */
  ghost function StillCut(c: H.Config, h: Family, active: set<LinkKey>, cut: set<nat>, removed: set<LinkKey>): set<nat>
    requires Single(c, h, active)
  {
    set g | g in Serving(c, h, active - removed) && (g in cut || Has(c, h, removed, g))
  }

  lemma FamilyTick(c: H.Config, h: Family, s: H.State, active: set<LinkKey>, cut: set<nat>,
                   removed: set<LinkKey>, tornDown: seq<LinkKey>, torn: seq<H.HilLink>,
                   added: set<LinkKey>, setUp: seq<LinkKey>, made: seq<H.HilLink>)
    requires H.Equipped(c) && Apart(c, h) && Single(c, h, active) && Single(c, h, (active - removed) + added)
    requires active !! added && Listed(h, removed, tornDown, torn) && Listed(h, added, setUp, made)
    requires H.BridgedBut(c, s, Serving(c, h, active), cut)
    ensures H.Known(c, torn) && H.Known(c, made)
    ensures H.BridgedBut(c, H.Ticked(c, s, torn, made), Serving(c, h, (active - removed) + added),
                         StillCut(c, h, active, cut, removed))
  {
    var left := active - removed;
    assert Single(c, h, left) && Single(c, h, added);
    ListedLinks(c, h, removed, tornDown, torn);
    ListedLinks(c, h, added, setUp, made);
    hide *;
    RemovedLeave(c, h, active, removed, torn);
    AddedJoin(c, h, left, added, made);
    SameCut(c, h, active, cut, removed, torn);
    H.TickLeaves(c, s, Serving(c, h, active), cut, torn, made);
  }

  lemma SameCut(c: H.Config, h: Family, active: set<LinkKey>, cut: set<nat>, removed: set<LinkKey>,
                list: seq<H.HilLink>)
    requires Single(c, h, active) && Single(c, h, active - removed)
    requires forall g :: H.Touches(c, list, g) <==> Has(c, h, removed, g)
    requires H.Unlinked(c, Serving(c, h, active), list) == Serving(c, h, active - removed)
    ensures H.CutBy(c, Serving(c, h, active), cut, list) == StillCut(c, h, active, cut, removed)
  {
    hide H.Unlinked, H.Touches, Has, Single, Serving;
  }

  // ---- The links of the topology ----

  /** Satellite id to container, of the satellites whose container is known. */
  type Pids = map<nat, nat>

  predicate IsHil(c: H.Config, l: LinkState) {
    l.kind.GroundStationLink? && H.IsHilLink(c, H.HilLink(l.source, l.target, 0))
  }

  function HilOf(c: H.Config, pids: Pids, l: LinkState): H.HilLink {
    var sat := H.SatelliteOf(c, H.HilLink(l.source, l.target, 0));
    H.HilLink(l.source, l.target, if sat in pids then pids[sat] else 0)
  }

  function HilLinks(c: H.Config, pids: Pids, links: map<LinkKey, LinkState>): Family {
    map k | k in links && IsHil(c, links[k]) :: HilOf(c, pids, links[k])
  }

  function ActiveKeys(links: map<LinkKey, LinkState>): set<LinkKey> {
    set k | k in links && links[k].isActive
  }

  /** At most one active link per station with hardware. */
  predicate OneActive(c: H.Config, pids: Pids, links: map<LinkKey, LinkState>) {
    Single(c, HilLinks(c, pids, links), ActiveKeys(links))
  }

  /** The satellite of each station that has an active link. */
  function ActiveOf(c: H.Config, pids: Pids, links: map<LinkKey, LinkState>): map<nat, nat>
    requires OneActive(c, pids, links)
  {
    Serving(c, HilLinks(c, pids, links), ActiveKeys(links))
  }

  /** Every satellite has a container. */
  predicate Launched(nodes: set<NodeRef>, pids: Pids) {
    forall n | n in nodes && n.kind == Satellite :: n.id in pids && pids[n.id] != 0
  }

  /** Links are stored under their ends, which are known nodes. */
  predicate EndsKnown(nodes: set<NodeRef>, links: map<LinkKey, LinkState>) {
    forall k | k in links ::
      k == {links[k].source, links[k].target} && links[k].source in nodes && links[k].target in nodes
  }

  lemma LinksApart(c: H.Config, pids: Pids, nodes: set<NodeRef>, links: map<LinkKey, LinkState>)
    requires EndsKnown(nodes, links) && Launched(nodes, pids)
    ensures Apart(c, HilLinks(c, pids, links))
  {
    var h := HilLinks(c, pids, links);
    forall k | k in h
      ensures H.IsHilLink(c, h[k]) && h[k].pid != 0
      ensures k == {NodeRef(GroundStation, H.StationOf(c, h[k])), NodeRef(Satellite, H.SatelliteOf(c, h[k]))}
    {
    }
  }

  /** A tick: what is reported, the links after the sync and at the end, the marked ones, and the HIL links it tears
      down and sets up, by key and as the manager takes them, in their order. */
  datatype Step = Step(reports: seq<Report>, measure: LinkKey -> Measure,
                       synced: map<LinkKey, LinkState>, after: map<LinkKey, LinkState>,
                       added: set<LinkKey>, removed: set<LinkKey>,
                       tornDown: seq<LinkKey>, torn: seq<H.HilLink>, setUp: seq<LinkKey>, made: seq<H.HilLink>)

  /** A tick from some links. */
  ghost predicate StepOf(cfg: Config, c: H.Config, pids: Pids, before: map<LinkKey, LinkState>, t: Step) {
    && TickedAll(cfg, before, t.after, t.added, t.removed, t.reports, t.measure)
    && SyncedAll(cfg, before, t.synced, t.reports, t.measure) && LinksOk(cfg.nodes, before)
    && OneActive(c, pids, before) && OneActive(c, pids, t.after)
    && Listed(HilLinks(c, pids, t.synced), t.removed, t.tornDown, t.torn)
    && Listed(HilLinks(c, pids, t.synced), t.added, t.setUp, t.made)
  }

  /** What the manager makes of a tick. */
  ghost predicate Managed(c: H.Config, s: H.State, t: Step, s': H.State) {
    H.Known(c, t.torn) && H.Known(c, t.made) && s' == H.Ticked(c, s, t.torn, t.made)
  }

  /** The station's active link stays. */
  ghost predicate Survives(c: H.Config, pids: Pids, before: map<LinkKey, LinkState>, t: Step, g: nat) {
    Has(c, HilLinks(c, pids, before), ActiveKeys(before) - t.removed, g)
  }

  /** A link of the station is removed, active or not. */
  ghost predicate Loses(c: H.Config, pids: Pids, t: Step, g: nat) {
    Has(c, HilLinks(c, pids, t.synced), t.removed, g)
  }

  predicate SameEnds(a: LinkState, b: LinkState) {
    a.source == b.source && a.target == b.target && a.kind == b.kind
  }

  /** What a tick does with one link. */
  lemma StepAt(cfg: Config, before: map<LinkKey, LinkState>, t: Step, k: LinkKey)
    requires TickedAll(cfg, before, t.after, t.added, t.removed, t.reports, t.measure)
    requires SyncedAll(cfg, before, t.synced, t.reports, t.measure) && LinksOk(cfg.nodes, before)
    ensures k in before ==> k in t.synced && SameEnds(t.synced[k], before[k])
    ensures k in t.after ==> k in t.synced && SameEnds(t.synced[k], t.after[k])
    ensures k in t.synced ==>
              k == {t.synced[k].source, t.synced[k].target} && t.synced[k].source in cfg.nodes
              && t.synced[k].target in cfg.nodes
    ensures k in t.added ==> !(k in before && before[k].isActive)
    ensures (k in t.after && t.after[k].isActive)
            <==> k in t.added || (k in before && before[k].isActive && k !in t.removed)
  {
    KeyCases(cfg, before, t.after, t.added, t.removed, t.reports, t.measure, k);
    ReportsForProper(t.reports, k);
    assert Lookup(t.synced, k) == Synced(cfg, true, Lookup(before, k), ReportsFor(t.reports, k), t.measure(k));
    SyncKeepsLink(cfg, k, Lookup(before, k), ReportsFor(t.reports, k), t.measure(k));
    assert TickedAt(cfg, before, t.after, t.added, t.removed, t.reports, t.measure, k);
  }

  /** The keys of both families among some keys are the same, with the same links. */
  predicate SameOn(h: Family, h': Family, keys: set<LinkKey>) {
    forall k | k in keys :: (k in h <==> k in h') && (k in h ==> h[k] == h'[k])
  }

  lemma SameHas(c: H.Config, h: Family, h': Family, keys: set<LinkKey>, g: nat)
    requires SameOn(h, h', keys)
    ensures Has(c, h, keys, g) <==> Has(c, h', keys, g)
  {
    hide H.StationOf;
    if k :| k in h && k in keys && H.StationOf(c, h[k]) == g {
      assert k in h';
    }
    if k :| k in h' && k in keys && H.StationOf(c, h'[k]) == g {
      assert k in h;
    }
  }

  lemma SameServing(c: H.Config, h: Family, h': Family, keys: set<LinkKey>)
    requires SameOn(h, h', keys)
    ensures Single(c, h, keys) <==> Single(c, h', keys)
    ensures Single(c, h, keys) ==> Serving(c, h, keys) == Serving(c, h', keys)
  {
    hide H.StationOf, H.SatelliteOf;
  }

  lemma SameEndsSameLinks(c: H.Config, pids: Pids, links: map<LinkKey, LinkState>, synced: map<LinkKey, LinkState>)
    requires forall k | k in links :: k in synced && SameEnds(synced[k], links[k])
    ensures SameOn(HilLinks(c, pids, links), HilLinks(c, pids, synced), ActiveKeys(links))
  {
    hide H.IsHilLink, H.SatelliteOf;
  }

  lemma StepActive(cfg: Config, c: H.Config, pids: Pids, before: map<LinkKey, LinkState>, t: Step)
    requires StepOf(cfg, c, pids, before, t)
    ensures ActiveKeys(before) !! t.added
    ensures ActiveKeys(t.after) == (ActiveKeys(before) - t.removed) + t.added
  {
    hide TickedAll, SyncedAll, LinksOk, Listed, OneActive;
    forall k
      ensures k in ActiveKeys(before) ==> k !in t.added
      ensures k in ActiveKeys(t.after) <==> k in (ActiveKeys(before) - t.removed) + t.added
    {
      StepAt(cfg, before, t, k);
    }
  }

  lemma StepEnds(cfg: Config, c: H.Config, pids: Pids, before: map<LinkKey, LinkState>, t: Step)
    requires StepOf(cfg, c, pids, before, t)
    ensures EndsKnown(cfg.nodes, t.synced)
    ensures forall k | k in before :: k in t.synced && SameEnds(t.synced[k], before[k])
    ensures forall k | k in t.after :: k in t.synced && SameEnds(t.synced[k], t.after[k])
  {
    hide TickedAll, SyncedAll, LinksOk, Listed, OneActive, SameEnds;
    forall k
      ensures k in t.synced ==>
                k == {t.synced[k].source, t.synced[k].target} && t.synced[k].source in cfg.nodes
                && t.synced[k].target in cfg.nodes
      ensures k in before ==> k in t.synced && SameEnds(t.synced[k], before[k])
      ensures k in t.after ==> k in t.synced && SameEnds(t.synced[k], t.after[k])
    {
      StepAt(cfg, before, t, k);
    }
  }

  /** The links of a tick as one family: it is that of the links before and after, as far as they go. */
  lemma StepFamily(cfg: Config, c: H.Config, pids: Pids, before: map<LinkKey, LinkState>, t: Step)
    requires StepOf(cfg, c, pids, before, t) && Launched(cfg.nodes, pids)
    ensures Apart(c, HilLinks(c, pids, t.synced))
    ensures SameOn(HilLinks(c, pids, before), HilLinks(c, pids, t.synced), ActiveKeys(before))
    ensures SameOn(HilLinks(c, pids, t.after), HilLinks(c, pids, t.synced), ActiveKeys(t.after))
  {
    hide *;
    StepEnds(cfg, c, pids, before, t);
    LinksApart(c, pids, cfg.nodes, t.synced);
    SameEndsSameLinks(c, pids, before, t.synced);
    SameEndsSameLinks(c, pids, t.after, t.synced);
  }

  /** The stations that are cut off after a tick. */
  ghost function CutAfter(c: H.Config, pids: Pids, before: map<LinkKey, LinkState>, t: Step, cut: set<nat>): set<nat>
    requires OneActive(c, pids, before)
  {
    set g | g in ActiveOf(c, pids, before) && Survives(c, pids, before, t, g) && (g in cut || Loses(c, pids, t, g))
  }

  lemma SameStillCut(c: H.Config, pids: Pids, before: map<LinkKey, LinkState>, t: Step, cut: set<nat>)
    requires var h := HilLinks(c, pids, t.synced);
             OneActive(c, pids, before) && Single(c, h, ActiveKeys(before))
             && SameOn(HilLinks(c, pids, before), h, ActiveKeys(before))
    ensures StillCut(c, HilLinks(c, pids, t.synced), ActiveKeys(before), cut, t.removed)
            == CutAfter(c, pids, before, t, cut)
  {
    assert Single(c, HilLinks(c, pids, t.synced), ActiveKeys(before) - t.removed);
    hide Single, HilLinks, ActiveKeys, H.StationOf, H.SatelliteOf;
    var h, active := HilLinks(c, pids, t.synced), ActiveKeys(before);
    forall g ensures g in Serving(c, h, active - t.removed) <==> Survives(c, pids, before, t, g)
             ensures Survives(c, pids, before, t, g) ==> g in ActiveOf(c, pids, before) {
      SameHas(c, HilLinks(c, pids, before), h, active - t.removed, g);
    }
  }

  /** A tick leaves the bridges of the stations that are not cut off. */
  lemma StepLeaves(cfg: Config, c: H.Config, pids: Pids, before: map<LinkKey, LinkState>, t: Step, s: H.State,
                   cut: set<nat>, s': H.State)
    requires H.Equipped(c) && Launched(cfg.nodes, pids) && StepOf(cfg, c, pids, before, t) && Managed(c, s, t, s')
    requires H.BridgedBut(c, s, ActiveOf(c, pids, before), cut)
    ensures H.BridgedBut(c, s', ActiveOf(c, pids, t.after), CutAfter(c, pids, before, t, cut))
  {
    var h, active := HilLinks(c, pids, t.synced), ActiveKeys(before);
    hide H.Equipped, H.BridgedBut, H.Ticked, H.Known, TickedAll, SyncedAll, LinksOk, Listed, Single, Apart, HilLinks,
         ActiveKeys, SameOn, Serving, Launched, CutAfter, StillCut;
    StepFamily(cfg, c, pids, before, t);
    StepActive(cfg, c, pids, before, t);
    SameServing(c, HilLinks(c, pids, before), h, active);
    SameServing(c, HilLinks(c, pids, t.after), h, ActiveKeys(t.after));
    SameStillCut(c, pids, before, t, cut);
    FamilyTick(c, h, s, active, cut, t.removed, t.tornDown, t.torn, t.added, t.setUp, t.made);
  }

  // ---- One tick ----

  /** Exactly when a tick leaves every station that has an active link in its one bridge: no station keeps its active
      link while another of its links is removed. */
  lemma TickExact(cfg: Config, c: H.Config, pids: Pids, before: map<LinkKey, LinkState>, t: Step, s: H.State,
                  s': H.State)
    requires H.Equipped(c) && Launched(cfg.nodes, pids) && StepOf(cfg, c, pids, before, t) && Managed(c, s, t, s')
    requires H.Bridged(c, s, ActiveOf(c, pids, before))
    ensures H.Bridged(c, s', ActiveOf(c, pids, t.after))
            <==> forall g | Loses(c, pids, t, g) :: !Survives(c, pids, before, t, g)
  {
    assert OneActive(c, pids, before) && OneActive(c, pids, t.after);
    hide *;
    H.NoneIsCutOff(c, s, ActiveOf(c, pids, before));
    StepLeaves(cfg, c, pids, before, t, s, {}, s');
    var cut := CutAfter(c, pids, before, t, {});
    H.NoneCutOff(c, s', ActiveOf(c, pids, t.after), cut);
    forall g ensures g in cut <==> Survives(c, pids, before, t, g) && Loses(c, pids, t, g) {
      CutsAfter(c, pids, before, t, {}, g);
    }
  }

  /** A link that is not reported any more is removed, active or not. */
  lemma Unreported(cfg: Config, c: H.Config, pids: Pids, before: map<LinkKey, LinkState>, t: Step, k: LinkKey)
    requires StepOf(cfg, c, pids, before, t) && k in before && ReportsFor(t.reports, k) == []
    ensures k in t.removed && k in t.synced && SameEnds(t.synced[k], before[k])
  {
    StepAt(cfg, before, t, k);
    assert TickedAt(cfg, before, t.after, t.added, t.removed, t.reports, t.measure, k);
  }

  /** A second link of a station, never active, that is not reported any more cuts the station off, although its
      active link stays. */
  lemma UnreportedCuts(cfg: Config, c: H.Config, pids: Pids, before: map<LinkKey, LinkState>, t: Step, s: H.State,
                       s': H.State, j: LinkKey, k: LinkKey)
    requires H.Equipped(c) && Launched(cfg.nodes, pids) && StepOf(cfg, c, pids, before, t) && Managed(c, s, t, s')
    requires H.Bridged(c, s, ActiveOf(c, pids, before))
    requires j in before && k in before && IsHil(c, before[j]) && IsHil(c, before[k])
    requires var g := H.StationOf(c, HilOf(c, pids, before[j])); g == H.StationOf(c, HilOf(c, pids, before[k]))
    requires before[j].isActive && j !in t.removed && !before[k].isActive && ReportsFor(t.reports, k) == []
    ensures var g := H.StationOf(c, HilOf(c, pids, before[j]));
            && g in ActiveOf(c, pids, t.after) && g !in s'.kernel.bridges && g !in s'.hilBridges
            && !H.Bridged(c, s', ActiveOf(c, pids, t.after))
  {
    var g := H.StationOf(c, HilOf(c, pids, before[j]));
    UnreportedLoses(cfg, c, pids, before, t, j, k);
    hide *;
    H.NoneIsCutOff(c, s, ActiveOf(c, pids, before));
    StepLeaves(cfg, c, pids, before, t, s, {}, s');
    CutsAfter(c, pids, before, t, {}, g);
    H.CutOffHas(c, s', ActiveOf(c, pids, t.after), CutAfter(c, pids, before, t, {}), g);
    H.NoneCutOff(c, s', ActiveOf(c, pids, t.after), CutAfter(c, pids, before, t, {}));
  }

  lemma UnreportedLoses(cfg: Config, c: H.Config, pids: Pids, before: map<LinkKey, LinkState>, t: Step,
                        j: LinkKey, k: LinkKey)
    requires StepOf(cfg, c, pids, before, t)
    requires j in before && k in before && IsHil(c, before[j]) && IsHil(c, before[k])
    requires before[j].isActive && j !in t.removed && ReportsFor(t.reports, k) == []
    ensures Survives(c, pids, before, t, H.StationOf(c, HilOf(c, pids, before[j])))
    ensures Loses(c, pids, t, H.StationOf(c, HilOf(c, pids, before[k])))
  {
    Unreported(cfg, c, pids, before, t, k);
    hide H.IsHilLink, H.SatelliteOf, TickedAll, SyncedAll, LinksOk, Listed, Single;
    assert HilLinks(c, pids, t.synced)[k] == HilOf(c, pids, before[k]);
    assert HilLinks(c, pids, before)[j] == HilOf(c, pids, before[j]);
  }

  lemma CutsAfter(c: H.Config, pids: Pids, before: map<LinkKey, LinkState>, t: Step, cut: set<nat>, g: nat)
    requires OneActive(c, pids, before)
    ensures Survives(c, pids, before, t, g) ==> g in ActiveOf(c, pids, before)
    ensures g in CutAfter(c, pids, before, t, cut)
            <==> Survives(c, pids, before, t, g) && (g in cut || Loses(c, pids, t, g))
  {
    hide HilLinks, ActiveKeys, H.StationOf, H.SatelliteOf;
    assert Survives(c, pids, before, t, g) ==> Has(c, HilLinks(c, pids, before), ActiveKeys(before), g);
  }

  // ---- Every run ----

  ghost predicate RunOf(cfg: Config, c: H.Config, pids: Pids, links: seq<map<LinkKey, LinkState>>, ticks: seq<Step>,
                        states: seq<H.State>)
  {
    && |links| == |states| == |ticks| + 1 && OneActive(c, pids, links[0])
    && H.Bridged(c, states[0], ActiveOf(c, pids, links[0]))
    && forall i | 0 <= i < |ticks| :: RunStep(cfg, c, pids, links, ticks, states, i)
  }

  ghost predicate RunStep(cfg: Config, c: H.Config, pids: Pids, links: seq<map<LinkKey, LinkState>>, ticks: seq<Step>,
                          states: seq<H.State>, i: nat)
    requires |links| == |states| == |ticks| + 1 && i < |ticks|
  {
    && StepOf(cfg, c, pids, links[i], ticks[i]) && ticks[i].after == links[i + 1]
    && Managed(c, states[i], ticks[i], states[i + 1])
  }

  /** The station lost its bridge with another link than its active one, which it still has. */
  ghost predicate CutOff(c: H.Config, pids: Pids, links: seq<map<LinkKey, LinkState>>, ticks: seq<Step>, n: nat, g: nat)
    requires |links| == |ticks| + 1 && n <= |ticks|
  {
    exists i :: 0 <= i < n && Loses(c, pids, ticks[i], g)
                && forall j | i <= j < n :: Survives(c, pids, links[j], ticks[j], g)
  }

  lemma CutOffNext(c: H.Config, pids: Pids, links: seq<map<LinkKey, LinkState>>, ticks: seq<Step>, n: nat, g: nat)
    requires |links| == |ticks| + 1 && n < |ticks|
    ensures CutOff(c, pids, links, ticks, n + 1, g)
            <==> Survives(c, pids, links[n], ticks[n], g)
                 && (CutOff(c, pids, links, ticks, n, g) || Loses(c, pids, ticks[n], g))
  {
    hide Survives, Loses;
    if CutOff(c, pids, links, ticks, n + 1, g) {
      var i :| 0 <= i < n + 1 && Loses(c, pids, ticks[i], g)
               && forall j | i <= j < n + 1 :: Survives(c, pids, links[j], ticks[j], g);
      assert i < n ==> CutOff(c, pids, links, ticks, n, g);
    }
    if Survives(c, pids, links[n], ticks[n], g) && CutOff(c, pids, links, ticks, n, g) {
      var i :| 0 <= i < n && Loses(c, pids, ticks[i], g)
               && forall j | i <= j < n :: Survives(c, pids, links[j], ticks[j], g);
    }
  }

  ghost function CutAt(c: H.Config, pids: Pids, links: seq<map<LinkKey, LinkState>>, ticks: seq<Step>, n: nat): set<nat>
    requires |links| == |ticks| + 1 && n <= |ticks| && OneActive(c, pids, links[n])
  {
    set g | g in ActiveOf(c, pids, links[n]) && CutOff(c, pids, links, ticks, n, g)
  }

  lemma OneAlways(cfg: Config, c: H.Config, pids: Pids, links: seq<map<LinkKey, LinkState>>, ticks: seq<Step>,
                  states: seq<H.State>, n: nat)
    requires RunOf(cfg, c, pids, links, ticks, states) && n <= |ticks|
    ensures OneActive(c, pids, links[n])
  {
    hide TickedAll, SyncedAll, LinksOk, Listed, OneActive, ActiveOf, Managed, H.Bridged;
    assert n > 0 ==> RunStep(cfg, c, pids, links, ticks, states, n - 1);
  }

  /** A station that keeps its active link has one afterwards. */
  lemma SurvivesActive(cfg: Config, c: H.Config, pids: Pids, before: map<LinkKey, LinkState>, t: Step, g: nat)
    requires StepOf(cfg, c, pids, before, t) && Launched(cfg.nodes, pids) && Survives(c, pids, before, t, g)
    ensures g in ActiveOf(c, pids, t.after)
  {
    StepActive(cfg, c, pids, before, t);
    StepFamily(cfg, c, pids, before, t);
    hide H.StationOf, H.SatelliteOf, TickedAll, SyncedAll, LinksOk, Listed, HilLinks, ActiveKeys, Apart;
    var k :| k in HilLinks(c, pids, before) && k in ActiveKeys(before) - t.removed
             && H.StationOf(c, HilLinks(c, pids, before)[k]) == g;
    assert k in HilLinks(c, pids, t.after);
    assert HilLinks(c, pids, t.after)[k] == HilLinks(c, pids, before)[k];
  }

  lemma CutAtNext(cfg: Config, c: H.Config, pids: Pids, links: seq<map<LinkKey, LinkState>>, ticks: seq<Step>,
                  states: seq<H.State>, n: nat)
    requires RunOf(cfg, c, pids, links, ticks, states) && Launched(cfg.nodes, pids) && n < |ticks|
    requires RunStep(cfg, c, pids, links, ticks, states, n)
    requires OneActive(c, pids, links[n]) && OneActive(c, pids, links[n + 1])
    ensures CutAfter(c, pids, links[n], ticks[n], CutAt(c, pids, links, ticks, n))
            == CutAt(c, pids, links, ticks, n + 1)
  {
    hide StepOf, Managed, OneActive, ActiveOf, Survives, Loses, CutOff, CutAfter, Launched, H.Bridged;
    forall g ensures g in CutAfter(c, pids, links[n], ticks[n], CutAt(c, pids, links, ticks, n))
                     <==> g in CutAt(c, pids, links, ticks, n + 1) {
      CutsAfter(c, pids, links[n], ticks[n], CutAt(c, pids, links, ticks, n), g);
      CutOffNext(c, pids, links, ticks, n, g);
      if Survives(c, pids, links[n], ticks[n], g) {
        SurvivesActive(cfg, c, pids, links[n], ticks[n], g);
      }
    }
  }

  lemma {:induction false} CutsInRun(cfg: Config, c: H.Config, pids: Pids, links: seq<map<LinkKey, LinkState>>,
                                     ticks: seq<Step>, states: seq<H.State>, n: nat)
    requires H.Equipped(c) && Launched(cfg.nodes, pids) && RunOf(cfg, c, pids, links, ticks, states) && n <= |ticks|
    ensures OneActive(c, pids, links[n])
    ensures H.BridgedBut(c, states[n], ActiveOf(c, pids, links[n]), CutAt(c, pids, links, ticks, n))
  {
    hide StepOf, Managed, OneActive, ActiveOf, CutAfter, Launched, H.Bridged, H.BridgedBut, H.Equipped, Survives, Loses;
    OneAlways(cfg, c, pids, links, ticks, states, n);
    if n == 0 {
      H.NoneIsCutOff(c, states[0], ActiveOf(c, pids, links[0]));
      assert CutAt(c, pids, links, ticks, 0) == {};
    } else {
      CutsInRun(cfg, c, pids, links, ticks, states, n - 1);
      assert RunStep(cfg, c, pids, links, ticks, states, n - 1);
      StepLeaves(cfg, c, pids, links[n - 1], ticks[n - 1], states[n - 1], CutAt(c, pids, links, ticks, n - 1),
                 states[n]);
      CutAtNext(cfg, c, pids, links, ticks, states, n - 1);
    }
  }

  /** After every tick of every run, each station with an active link has the veth that leads to its satellite, and
      the bridge that joins it to the hardware exactly unless it is cut off; nothing else is there. */
  lemma EveryHandover(cfg: Config, c: H.Config, pids: Pids, links: seq<map<LinkKey, LinkState>>,
                      ticks: seq<Step>, states: seq<H.State>, n: nat)
    requires H.Equipped(c) && Launched(cfg.nodes, pids) && RunOf(cfg, c, pids, links, ticks, states) && n <= |ticks|
    ensures OneActive(c, pids, links[n])
    ensures H.BridgedBut(c, states[n], ActiveOf(c, pids, links[n]), CutAt(c, pids, links, ticks, n))
    ensures H.Bridged(c, states[n], ActiveOf(c, pids, links[n]))
            <==> forall g | g in ActiveOf(c, pids, links[n]) :: !CutOff(c, pids, links, ticks, n, g)
  {
    hide H.Bridged, H.BridgedBut, H.Equipped, Launched, RunStep, ActiveOf, CutOff;
    CutsInRun(cfg, c, pids, links, ticks, states, n);
    var cut := CutAt(c, pids, links, ticks, n);
    H.NoneCutOff(c, states[n], ActiveOf(c, pids, links[n]), cut);
    if g :| g in ActiveOf(c, pids, links[n]) && CutOff(c, pids, links, ticks, n, g) {
      assert g in cut;
    }
  }

  /** A start wires the active links. */
  lemma StartBridges(cfg: Config, c: H.Config, pids: Pids, links: map<LinkKey, LinkState>, order: seq<LinkKey>,
                     made: seq<H.HilLink>)
    requires H.Equipped(c) && Launched(cfg.nodes, pids) && LinksOk(cfg.nodes, links) && OneActive(c, pids, links)
    requires Listed(HilLinks(c, pids, links), ActiveKeys(links), order, made)
    ensures H.Known(c, made)
    ensures H.Bridged(c, H.AllSetUp(c, H.State(H.Kernel(map[], {}, map[]), {}), made), ActiveOf(c, pids, links))
  {
    var h, active := HilLinks(c, pids, links), ActiveKeys(links);
    LinksApart(c, pids, cfg.nodes, links);
    ListedLinks(c, h, active, order, made);
    H.WiredStart(c, made);
    assert {} + active == active;
    AddedJoin(c, h, {}, active, made);
    assert Serving(c, h, {}) == map[];
  }
}

/** What one tick makes of one link, as a function of the link and its report
    (satgonetem/services/mixins/topology_sync.py:162-242). */
module LinkSync {
  import opened Wrappers
  import opened Nodes
  import opened Links

  /** frozenset of the two end names. */
  type LinkKey = set<NodeRef>

  datatype Endpoint = Known(node: NodeRef) | Unsupported

  /** A link as the simulation manager reports it; an attribute may be missing. */
  datatype Report = Report(source: Option<Endpoint>, target: Option<Endpoint>, kind: LinkType,
                           isActive: Option<bool>, disabled: Option<bool>)

  datatype Config = Config(nodes: set<NodeRef>, useBudget: bool,
                           capacityOf: LinkType -> nat, fallbackOf: LinkType -> nat)

  function GetOr(o: Option<bool>, default: bool): bool {
    if o.Some? then o.value else default
  }

  /** _build_link_key: None for a report without ends or with ends of another kind. */
  function KeyOfReport(r: Report): Option<LinkKey> {
    match (r.source, r.target)
    case (Some(Known(s)), Some(Known(t))) => Some({s, t})
    case _ => None
  }

  function Lookup(links: map<LinkKey, LinkState>, k: LinkKey): Option<LinkState> {
    if k in links then Some(links[k]) else None
  }

  /** A new link is active unless its report says disabled or says nothing; after the first sync an active
      one is marked for addition. */
  function Created(cfg: Config, initialSync: bool, r: Report, m: Measure): Option<LinkState>
    requires KeyOfReport(r).Some?
  {
    var s, t := r.source.value.node, r.target.value.node;
    if s !in cfg.nodes || t !in cfg.nodes then None
    else
      var active := !GetOr(r.disabled, true);
      Some(NewLink(s, t, r.kind, cfg.useBudget, cfg.capacityOf(r.kind), active, m).(toAdd := initialSync && active))
  }

  function ReportedActive(r: Report): bool {
    GetOr(r.isActive, !GetOr(r.disabled, false))
  }

  /** A known link whose activity changed is marked for addition or for removal. */
  function Flipped(l: LinkState, r: Report): LinkState {
    var active := ReportedActive(r);
    if l.isActive != active then l.(isActive := active, toAdd := active, toRemove := !active) else l
  }

  /** A link after the reports of its key, in order: the first one creates it unless it is there, every other one
      may flip it. */
  function SyncedBy(cfg: Config, initialSync: bool, old': Option<LinkState>, reps: seq<Report>, m: Measure)
    : Option<LinkState>
    requires forall r | r in reps :: KeyOfReport(r).Some?
  {
    if reps == [] then old'
    else
      var n := |reps| - 1;
      assert reps[n] in reps;
      match SyncedBy(cfg, initialSync, old', reps[..n], m)
      case None => Created(cfg, initialSync, reps[n], m)
      case Some(l) => Some(Flipped(l, reps[n]))
  }

  /** A link after one sync: what its reports make of it, moved if it was there; or marked for removal when not
      reported. */
  function Synced(cfg: Config, initialSync: bool, old': Option<LinkState>, reps: seq<Report>, m: Measure)
    : Option<LinkState>
    requires forall r | r in reps :: KeyOfReport(r).Some?
  {
    if reps == [] then
      match old' case None => None case Some(l) => Some(l.(toRemove := true))
    else
      match SyncedBy(cfg, initialSync, old', reps, m)
      case None => None
      case Some(l) => Some(if old'.Some? then Moved(l, m) else l)
  }

  /** The reports of a key, in order; the same link may be reported more than once. */
  function ReportsFor(reports: seq<Report>, k: LinkKey): (reps: seq<Report>)
    ensures forall r | r in reps :: KeyOfReport(r) == Some(k)
  {
    if reports == [] then []
    else
      var n := |reports| - 1;
      ReportsFor(reports[..n], k) + if KeyOfReport(reports[n]) == Some(k) then [reports[n]] else []
  }

  // ---- At rest ----

  /** Between ticks: no mark for addition or removal is left, and a link has interfaces exactly when active. */
  predicate AtRest(l: LinkState) {
    !l.toAdd && !l.toRemove && (l.isActive <==> l.peers != [])
  }

  // ---- Several reports of one link ----

  /** A wired link that is reported inactive and, after that, active again within one sync. */
  predicate Quarrels(l: LinkState, reps: seq<Report>) {
    && l.isActive && reps != [] && ReportedActive(reps[|reps| - 1])
    && exists i :: 0 <= i < |reps| && !ReportedActive(reps[i])
  }

  /** A flipped link has the marks of its last flip. */
  predicate FlippedFrom(l: LinkState, l': LinkState) {
    l' == l.(isActive := l'.isActive, toAdd := l'.isActive, toRemove := !l'.isActive)
  }

  /** Reports that all say what the link is leave it alone; otherwise the last one decides its marks. */
  lemma {:induction false} ReportsFlip(cfg: Config, initialSync: bool, l: LinkState, reps: seq<Report>, m: Measure)
    requires forall r | r in reps :: KeyOfReport(r).Some?
    ensures var l' := SyncedBy(cfg, initialSync, Some(l), reps, m);
            && l'.Some?
            && (if forall i | 0 <= i < |reps| :: ReportedActive(reps[i]) == l.isActive then l'.value == l
                else FlippedFrom(l, l'.value))
            && (reps != [] ==> l'.value.isActive == ReportedActive(reps[|reps| - 1]))
  {
    if reps != [] {
      var n := |reps| - 1;
      assert forall r | r in reps[..n] :: r in reps;
      ReportsFlip(cfg, initialSync, l, reps[..n], m);
      assert forall i | 0 <= i < n :: reps[..n][i] == reps[i];
    }
  }

  /** Exactly when the reports of a link at rest leave it wired and marked for addition: it was active, one of
      them says it is not, and the last one says it is. */
  lemma DuplicatesExact(cfg: Config, l: LinkState, reps: seq<Report>, m: Measure)
    requires AtRest(l) && forall r | r in reps :: KeyOfReport(r).Some?
    ensures var l' := Synced(cfg, true, Some(l), reps, m);
            && l'.Some?
            && (l'.value.peers != [] && l'.value.toAdd && !l'.value.toRemove <==> Quarrels(l, reps))
  {
    ReportsFlip(cfg, true, l, reps, m);
  }

  /** What the reports of an unknown link make: its place in the world is that of its report, it has no
      interfaces, and it is marked for addition after the first sync if it is active. */
  predicate NewMarks(cfg: Config, initialSync: bool, k: LinkKey, l: LinkState, m: Measure) {
    && l.peers == [] && !l.toUpdate && l.distance == m.distance && l.delay == DelayOf(m.distance)
    && k == {l.source, l.target} && l.source in cfg.nodes && l.target in cfg.nodes
    && (l.toRemove ==> !l.isActive) && (initialSync ==> l.toAdd == l.isActive)
  }

  lemma {:induction false} ReportsCreate(cfg: Config, initialSync: bool, k: LinkKey, reps: seq<Report>, m: Measure)
    requires forall r | r in reps :: KeyOfReport(r) == Some(k) && r.source != r.target
    ensures var l' := SyncedBy(cfg, initialSync, None, reps, m);
            l'.Some? ==> NewMarks(cfg, initialSync, k, l'.value, m) && l'.value.source != l'.value.target
  {
    if reps != [] {
      var n := |reps| - 1;
      assert reps[n] in reps && forall r | r in reps[..n] :: r in reps;
      ReportsCreate(cfg, initialSync, k, reps[..n], m);
    }
  }

  /** A link that was measured in this sync does not move in it. */
  lemma {:induction false} NewStays(cfg: Config, initialSync: bool, k: LinkKey, reps: seq<Report>, m: Measure)
    requires forall r | r in reps :: KeyOfReport(r) == Some(k)
    ensures var l' := SyncedBy(cfg, initialSync, None, reps, m);
            l'.Some? ==> l'.value.distance == m.distance && l'.value.delay == DelayOf(m.distance)
                         && Moved(l'.value, m) == l'.value
  {
    if reps != [] {
      var n := |reps| - 1;
      assert reps[n] in reps && forall r | r in reps[..n] :: r in reps;
      NewStays(cfg, initialSync, k, reps[..n], m);
    }
  }

  /** What the sync may do to a link at rest, by what it becomes. */
  lemma SyncedCases(cfg: Config, k: LinkKey, old': Option<LinkState>, reps: seq<Report>, m: Measure)
    requires forall r | r in reps :: KeyOfReport(r) == Some(k) && r.source != r.target
    requires old'.Some? ==> AtRest(old'.value) && !Quarrels(old'.value, reps)
    ensures var new' := Synced(cfg, true, old', reps, m);
            && (old'.Some? ==> new'.Some? && new'.value.peers == old'.value.peers)
            && (old'.None? && new'.Some? ==> new'.value.peers == [] && !new'.value.toUpdate)
            && (new'.Some? && !new'.value.toRemove && new'.value.toAdd ==>
                  new'.value.isActive && new'.value.peers == [])
            && (new'.Some? && !new'.value.toRemove && !new'.value.toAdd ==>
                  (new'.value.isActive <==> new'.value.peers != []))
  {
    if old'.Some? {
      ReportsFlip(cfg, true, old'.value, reps, m);
    } else {
      ReportsCreate(cfg, true, k, reps, m);
    }
  }
}

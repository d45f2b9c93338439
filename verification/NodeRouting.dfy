/** One node under the static routing daemon: its table, the daemon's reuse state for it, its devices and
    its kernel, as values; and what every run of the daemon keeps. */
module NodeRouting {
  import opened Wrappers
  import opened RoutingEntries
  import opened RouteDiff

  /** A destination as the daemon sees it: id, name and loopback summarized to /15. */
  datatype Dest = Dest(id: nat, name: string, summary: string)

  datatype Source = Source(id: nat, name: string, summary: string)

  /** Next hop of one source towards every destination, by position. */
  type Signature = seq<Option<nat>>

  type Devices = map<nat, Interface>

  const ROUTE_PREFIX: nat := 15

  predicate DistinctDests(dsts: seq<Dest>) {
    forall i, j | 0 <= i < j < |dsts| :: dsts[i].id != dsts[j].id && dsts[i].summary != dsts[j].summary
  }

  /** Every next hop is a neighbour the node has a device to. */
  predicate Resolvable(sig: Signature, ifaces: Devices) {
    forall i | 0 <= i < |sig| :: sig[i].Some? ==> sig[i].value in ifaces
  }

  predicate NamedByPeer(ifaces: Devices) {
    forall p | p in ifaces :: ifaces[p].peer == p
  }

  function FreshEntry(src: Source, d: Dest, iface: Interface): RouteEntry {
    FromValidated(d.summary, iface, iface.peerIp, ROUTE_PREFIX, d.name, src.name, src.summary)
  }

  /** The entry a build from scratch makes for the i-th destination. */
  function FreshSlot(src: Source, d: Dest, hop: Option<nat>, ifaces: Devices): Option<RouteEntry>
    requires hop.Some? ==> hop.value in ifaces
  {
    match hop
    case None => None
    case Some(h) => Some(FreshEntry(src, d, ifaces[h]))
  }

  function FreshSlots(src: Source, dsts: seq<Dest>, sig: Signature, ifaces: Devices): (r: seq<Option<RouteEntry>>)
    requires |sig| == |dsts| && Resolvable(sig, ifaces)
    ensures |r| == |dsts|
    ensures forall i | 0 <= i < |dsts| :: r[i] == FreshSlot(src, dsts[i], sig[i], ifaces)
  {
    seq(|dsts|, i requires 0 <= i < |dsts| => FreshSlot(src, dsts[i], sig[i], ifaces))
  }

  /** The present entries, in order. */
  function Collect(slots: seq<Option<RouteEntry>>): seq<RouteEntry> {
    if slots == [] then []
    else
      var n := |slots| - 1;
      Collect(slots[..n]) + (if slots[n].Some? then [slots[n].value] else [])
  }

  /** The table a build from scratch gives. */
  function FreshTable(src: Source, dsts: seq<Dest>, sig: Signature, ifaces: Devices): seq<RouteEntry>
    requires |sig| == |dsts| && Resolvable(sig, ifaces)
  {
    Collect(FreshSlots(src, dsts, sig, ifaces))
  }

  function CachedSlots(dsts: seq<Dest>, cache: map<nat, RouteEntry>): (r: seq<Option<RouteEntry>>)
    ensures |r| == |dsts|
    ensures forall i | 0 <= i < |dsts| :: r[i] == if dsts[i].id in cache then Some(cache[dsts[i].id]) else None
  {
    seq(|dsts|, i requires 0 <= i < |dsts| => if dsts[i].id in cache then Some(cache[dsts[i].id]) else None)
  }

  /** The reuse state for one source: its last signature, its entries by destination id. */
  datatype Reuse = Reuse(sig: Signature, entries: map<nat, RouteEntry>)

  function FreshEntries(src: Source, dsts: seq<Dest>, sig: Signature, ifaces: Devices): map<nat, RouteEntry>
    requires |sig| == |dsts| && Resolvable(sig, ifaces)
  {
    if dsts == [] then map[]
    else
      var n := |dsts| - 1;
      var rest := FreshEntries(src, dsts[..n], sig[..n], ifaces);
      match sig[n]
      case None => rest
      case Some(h) => rest[dsts[n].id := FreshEntry(src, dsts[n], ifaces[h])]
  }

  /** What installing the routes of one source leaves: table, reuse state, and whether the previous
      table was made the same list. */
  function Install(src: Source, reuse: Option<Reuse>, dsts: seq<Dest>, sig: Signature, ifaces: Devices)
    : (seq<RouteEntry>, Reuse, bool)
    requires |sig| == |dsts| && Resolvable(sig, ifaces)
  {
    if reuse.Some? && sig == reuse.value.sig
    then (Collect(CachedSlots(dsts, reuse.value.entries)), reuse.value, true)
    else (FreshTable(src, dsts, sig, ifaces), Reuse(sig, FreshEntries(src, dsts, sig, ifaces)), false)
  }

  datatype NodeView = NodeView(table: seq<RouteEntry>, reuse: Option<Reuse>, ifaces: Devices, fib: Fib)

  function DeviceNames(peers: set<nat>): set<string> {
    set p | p in peers :: DeviceName(p)
  }

  /** update(): rebuild the table, send the difference. */
  function Updated(src: Source, v: NodeView, dsts: seq<Dest>, sig: Signature): NodeView
    requires |sig| == |dsts| && Resolvable(sig, v.ifaces)
  {
    var (table, reuse, same) := Install(src, v.reuse, dsts, sig, v.ifaces);
    var live := DeviceNames(v.ifaces.Keys);
    var prev := if same then table else v.table;
    var cmds := Emit(same, prev, table, Some(live));
    v.(table := table, reuse := Some(reuse), fib := Batch(v.fib, live, cmds).0)
  }

  /** init(): forget the reuse state, rebuild, forget the previous table, send the difference. */
  function Initialized(src: Source, v: NodeView, dsts: seq<Dest>, sig: Signature): NodeView
    requires |sig| == |dsts| && Resolvable(sig, v.ifaces)
  {
    var (table, reuse, _) := Install(src, None, dsts, sig, v.ifaces);
    var live := DeviceNames(v.ifaces.Keys);
    v.(table := table, reuse := Some(reuse), fib := Batch(v.fib, live, Emit(false, [], table, Some(live))).0)
  }

  function DeleteLines(table: seq<RouteEntry>): (r: seq<Command>)
    ensures |r| == |table| && forall i | 0 <= i < |table| :: r[i] == Del(PrefixOf(table[i]), HopOf(table[i]))
  {
    seq(|table|, i requires 0 <= i < |table| => Del(PrefixOf(table[i]), HopOf(table[i])))
  }

  /** remove(): delete every route of the table; a failing batch raises and leaves the tables alone. */
  function Removed(v: NodeView): (NodeView, bool) {
    var (fib, ok) := Batch(v.fib, DeviceNames(v.ifaces.Keys), DeleteLines(v.table));
    (v.(reuse := None, fib := fib, table := if ok then [] else v.table), ok)
  }

  /** A tick's link changes on one node: devices go, then others appear. */
  function LinksChanged(v: NodeView, gone: set<nat>, added: Devices): NodeView {
    v.(ifaces := (v.ifaces - gone) + added, fib := Purge(v.fib, DeviceNames(gone)))
  }

  // ---- Runs ----

  datatype Event =
    | Links(gone: set<nat>, added: Devices)
    | Update(dsts: seq<Dest>, sig: Signature)
    | Init(dsts: seq<Dest>, sig: Signature)
    | Remove

  /** The node with two history variables: peers whose device went since the kernel was last brought up
      to date, and the destinations of the last build. */
  datatype State = State(view: NodeView, pending: set<nat>, dsts: seq<Dest>)

  /** What the rest of the system supplies for each step. */
  ghost predicate Enabled(s: State, e: Event) {
    match e
    case Links(gone, added) =>
      // a removed device does not come back before the next build
      && gone <= s.view.ifaces.Keys && NamedByPeer(added)
      && added.Keys !! s.view.ifaces.Keys && added.Keys !! s.pending
    case Update(dsts, sig) =>
      && |sig| == |dsts| && DistinctDests(dsts) && Resolvable(sig, s.view.ifaces)
      // the addressable set only grows
      && (|dsts| == |s.dsts| ==> dsts == s.dsts)
    case Init(dsts, sig) =>
      && |sig| == |dsts| && DistinctDests(dsts) && Resolvable(sig, s.view.ifaces)
      && s.view.fib == map[]
    case Remove =>
      // the batch succeeds: no route of the table lost its device
      forall i | 0 <= i < |s.view.table| :: s.view.table[i].iface.peer !in s.pending
  }

  function Step(src: Source, s: State, e: Event): State
    requires Enabled(s, e)
  {
    match e
    case Links(gone, added) => State(LinksChanged(s.view, gone, added), s.pending + gone, s.dsts)
    case Update(dsts, sig) => State(Updated(src, s.view, dsts, sig), {}, dsts)
    case Init(dsts, sig) => State(Initialized(src, s.view, dsts, sig), {}, dsts)
    case Remove => State(Removed(s.view).0, {}, s.dsts)
  }

  ghost predicate Run(src: Source, states: seq<State>, events: seq<Event>) {
    && |states| == |events| + 1
    && forall i | 0 <= i < |events| ::
         Enabled(states[i], events[i]) && states[i + 1] == Step(src, states[i], events[i])
  }

  /** The reuse state describes the table: an entry per routed destination, built for that next hop. */
  ghost predicate Coherent(src: Source, reuse: Reuse, dsts: seq<Dest>, table: seq<RouteEntry>) {
    && |reuse.sig| == |dsts|
    && (forall k | k in reuse.entries :: exists i :: 0 <= i < |dsts| && dsts[i].id == k)
    && table == Collect(CachedSlots(dsts, reuse.entries))
    && forall i | 0 <= i < |dsts| ::
         && (dsts[i].id in reuse.entries <==> reuse.sig[i].Some?)
         && (reuse.sig[i].Some? ==>
               var e := reuse.entries[dsts[i].id];
               e.iface.peer == reuse.sig[i].value && e == FreshEntry(src, dsts[i], e.iface))
  }

  /** Every route leaves through a device that is still there, or that went since the last build. */
  ghost predicate DevicesKnown(s: State) {
    forall i | 0 <= i < |s.view.table| ::
      var f := s.view.table[i].iface;
      f.peer in s.pending || (f.peer in s.view.ifaces && s.view.ifaces[f.peer] == f)
  }

  ghost predicate Inv(src: Source, s: State) {
    && UniquePrefixes(s.view.table)
    && NamedByPeer(s.view.ifaces) && s.pending !! s.view.ifaces.Keys
    && DevicesKnown(s)
    && s.view.fib == Purge(TableMap(s.view.table), DeviceNames(s.pending))
    && DistinctDests(s.dsts)
    && (s.view.reuse.Some? ==> Coherent(src, s.view.reuse.value, s.dsts, s.view.table))
  }

  /** The kernel holds exactly the current table. */
  ghost predicate Installed(v: NodeView) {
    UniquePrefixes(v.table) && v.fib == TableMap(v.table)
  }

  // ---- Collect ----

  lemma {:induction false} CollectMembers(slots: seq<Option<RouteEntry>>, e: RouteEntry)
    ensures e in Collect(slots) <==> Some(e) in slots
  {
    if slots != [] {
      CollectMembers(slots[..|slots| - 1], e);
      assert slots == slots[..|slots| - 1] + [slots[|slots| - 1]];
    }
  }

  /** Slot i, when present, holds an entry for destination i. */
  ghost predicate SlotsFor(dsts: seq<Dest>, slots: seq<Option<RouteEntry>>) {
    && |slots| == |dsts|
    && forall i | 0 <= i < |dsts| ::
         slots[i].Some? ==> PrefixOf(slots[i].value) == Prefix(dsts[i].summary, ROUTE_PREFIX)
  }

  lemma {:induction false} CollectUnique(dsts: seq<Dest>, slots: seq<Option<RouteEntry>>)
    requires DistinctDests(dsts) && SlotsFor(dsts, slots)
    ensures UniquePrefixes(Collect(slots))
  {
    if slots != [] {
      var n := |slots| - 1;
      CollectUnique(dsts[..n], slots[..n]);
      var init := Collect(slots[..n]);
      forall k | 0 <= k < |init| && slots[n].Some? ensures PrefixOf(init[k]) != PrefixOf(slots[n].value) {
        CollectMembers(slots[..n], init[k]);
        var i :| 0 <= i < n && slots[i] == Some(init[k]);
      }
    }
  }

  lemma FreshSlotsFor(src: Source, dsts: seq<Dest>, sig: Signature, ifaces: Devices)
    requires |sig| == |dsts| && Resolvable(sig, ifaces)
    ensures SlotsFor(dsts, FreshSlots(src, dsts, sig, ifaces))
  {
  }

  lemma {:induction false} FreshEntriesKeys(src: Source, dsts: seq<Dest>, sig: Signature, ifaces: Devices, k: nat)
    requires |sig| == |dsts| && Resolvable(sig, ifaces) && k in FreshEntries(src, dsts, sig, ifaces)
    ensures exists i :: 0 <= i < |dsts| && dsts[i].id == k
  {
    var n := |dsts| - 1;
    if k != dsts[n].id {
      FreshEntriesKeys(src, dsts[..n], sig[..n], ifaces, k);
      var i :| 0 <= i < n && dsts[..n][i].id == k;
      assert dsts[i].id == k;
    }
  }

  lemma {:induction false} FreshEntryAt(src: Source, dsts: seq<Dest>, sig: Signature, ifaces: Devices, i: nat)
    requires |sig| == |dsts| && Resolvable(sig, ifaces) && DistinctDests(dsts) && i < |dsts|
    ensures var m := FreshEntries(src, dsts, sig, ifaces);
            && (dsts[i].id in m <==> sig[i].Some?)
            && (sig[i].Some? ==> m[dsts[i].id] == FreshEntry(src, dsts[i], ifaces[sig[i].value]))
  {
    var n := |dsts| - 1;
    if i < n {
      FreshEntryAt(src, dsts[..n], sig[..n], ifaces, i);
    } else if dsts[n].id in FreshEntries(src, dsts[..n], sig[..n], ifaces) {
      FreshEntriesKeys(src, dsts[..n], sig[..n], ifaces, dsts[n].id);
    }
  }

  lemma FreshEntriesAt(src: Source, dsts: seq<Dest>, sig: Signature, ifaces: Devices)
    requires |sig| == |dsts| && Resolvable(sig, ifaces) && DistinctDests(dsts)
    ensures var m := FreshEntries(src, dsts, sig, ifaces);
            && (forall k | k in m :: exists i :: 0 <= i < |dsts| && dsts[i].id == k)
            && forall i | 0 <= i < |dsts| ::
                 && (dsts[i].id in m <==> sig[i].Some?)
                 && (sig[i].Some? ==> m[dsts[i].id] == FreshEntry(src, dsts[i], ifaces[sig[i].value]))
  {
    var m := FreshEntries(src, dsts, sig, ifaces);
    forall k | k in m ensures exists i :: 0 <= i < |dsts| && dsts[i].id == k {
      FreshEntriesKeys(src, dsts, sig, ifaces, k);
    }
    forall i | 0 <= i < |dsts|
      ensures (dsts[i].id in m <==> sig[i].Some?)
              && (sig[i].Some? ==> m[dsts[i].id] == FreshEntry(src, dsts[i], ifaces[sig[i].value]))
    {
      FreshEntryAt(src, dsts, sig, ifaces, i);
    }
  }

  lemma FreshCoherent(src: Source, dsts: seq<Dest>, sig: Signature, ifaces: Devices)
    requires |sig| == |dsts| && Resolvable(sig, ifaces) && DistinctDests(dsts) && NamedByPeer(ifaces)
    ensures Coherent(src, Reuse(sig, FreshEntries(src, dsts, sig, ifaces)), dsts, FreshTable(src, dsts, sig, ifaces))
    ensures UniquePrefixes(FreshTable(src, dsts, sig, ifaces))
    ensures forall i | 0 <= i < |FreshTable(src, dsts, sig, ifaces)| ::
              var f := FreshTable(src, dsts, sig, ifaces)[i].iface;
              f.peer in ifaces && ifaces[f.peer] == f
  {
    FreshEntriesAt(src, dsts, sig, ifaces);
    var slots := FreshSlots(src, dsts, sig, ifaces);
    assert slots == CachedSlots(dsts, FreshEntries(src, dsts, sig, ifaces));
    CollectUnique(dsts, slots);
    var t := FreshTable(src, dsts, sig, ifaces);
    forall i | 0 <= i < |t| ensures t[i].iface.peer in ifaces && ifaces[t[i].iface.peer] == t[i].iface {
      CollectMembers(slots, t[i]);
      var j :| 0 <= j < |slots| && slots[j] == Some(t[i]);
    }
  }

  // ---- Reuse ----

  /** With the kernel's devices tracked and the destinations unchanged, the reuse state of an equal
      signature gives back exactly the slots of a build from scratch. */
  lemma ReusedSlots(src: Source, s: State, sig: Signature)
    requires Inv(src, s) && s.view.reuse.Some? && s.view.reuse.value.sig == sig
    requires Resolvable(sig, s.view.ifaces)
    ensures CachedSlots(s.dsts, s.view.reuse.value.entries) == FreshSlots(src, s.dsts, sig, s.view.ifaces)
  {
    var slots := CachedSlots(s.dsts, s.view.reuse.value.entries);
    forall i | 0 <= i < |slots| && slots[i].Some?
      ensures slots[i] == Some(FreshEntry(src, s.dsts[i], s.view.ifaces[sig[i].value]))
    {
      CollectMembers(slots, slots[i].value);
      var k :| 0 <= k < |s.view.table| && s.view.table[k] == slots[i].value;
    }
  }

  /** Both branches of the route cache give the table of a build from scratch, entry for entry and in
      the same order, and the short-circuit is taken only when that table is the one already there. */
  lemma InstallRefinesFresh(src: Source, s: State, dsts: seq<Dest>, sig: Signature)
    requires Inv(src, s) && Enabled(s, Update(dsts, sig))
    ensures var (table, reuse, same) := Install(src, s.view.reuse, dsts, sig, s.view.ifaces);
            && table == FreshTable(src, dsts, sig, s.view.ifaces)
            && (same ==> table == s.view.table)
            && Coherent(src, reuse, dsts, table)
  {
    if s.view.reuse.Some? && s.view.reuse.value.sig == sig {
      ReusedSlots(src, s, sig);
    }
    FreshCoherent(src, dsts, sig, s.view.ifaces);
  }

  // ---- Steps ----

  lemma DeviceNamesMember(peers: set<nat>, p: nat)
    ensures DeviceName(p) in DeviceNames(peers) <==> p in peers
  {
    if DeviceName(p) in DeviceNames(peers) {
      var q :| q in peers && DeviceName(q) == DeviceName(p);
      DeviceNameInjective(p, q);
    }
  }

  lemma DeviceNamesUnion(a: set<nat>, b: set<nat>)
    ensures DeviceNames(a + b) == DeviceNames(a) + DeviceNames(b)
  {
    forall d | d in DeviceNames(a) + DeviceNames(b) ensures d in DeviceNames(a + b) {
      var p :| p in a + b && DeviceName(p) == d;
    }
  }

  /** A table whose devices are all present, as the diff sees it. */
  lemma LiveTable(table: seq<RouteEntry>, ifaces: Devices)
    requires forall i | 0 <= i < |table| :: table[i].iface.peer in ifaces
    ensures RouteDiff.Devices(table) <= DeviceNames(ifaces.Keys)
  {
    forall d | d in RouteDiff.Devices(table) ensures d in DeviceNames(ifaces.Keys) {
      var i :| 0 <= i < |table| && HopOf(table[i]).dev == d;
      assert table[i].iface.peer in ifaces.Keys;
    }
  }

  lemma KnownDevices(s: State)
    requires DevicesKnown(s) && s.pending !! s.view.ifaces.Keys
    ensures RouteDiff.Devices(s.view.table) - DeviceNames(s.view.ifaces.Keys) <= DeviceNames(s.pending)
    ensures DeviceNames(s.pending) !! DeviceNames(s.view.ifaces.Keys)
  {
    var gone, live := DeviceNames(s.pending), DeviceNames(s.view.ifaces.Keys);
    forall d | d in RouteDiff.Devices(s.view.table) && d !in live ensures d in gone {
      var i :| 0 <= i < |s.view.table| && HopOf(s.view.table[i]).dev == d;
      var p := s.view.table[i].iface.peer;
      DeviceNamesMember(s.view.ifaces.Keys, p);
      DeviceNamesMember(s.pending, p);
    }
    forall d | d in gone ensures d !in live {
      var p :| p in s.pending && DeviceName(p) == d;
      DeviceNamesMember(s.view.ifaces.Keys, p);
    }
  }

  lemma PurgeNothing(fib: Fib, gone: set<string>)
    requires forall p | p in fib :: fib[p].dev !in gone
    ensures Purge(fib, gone) == fib
  {
  }

  lemma PurgeTwice(fib: Fib, a: set<string>, b: set<string>)
    ensures Purge(Purge(fib, a), b) == Purge(fib, a + b)
  {
  }

  /** An update leaves the kernel with the table of a build from scratch and keeps the invariant; no line
      of its batch fails. */
  lemma UpdateStep(src: Source, s: State, dsts: seq<Dest>, sig: Signature)
    requires Inv(src, s) && Enabled(s, Update(dsts, sig))
    ensures var s' := Step(src, s, Update(dsts, sig));
            && Inv(src, s') && Installed(s'.view)
            && s'.view.table == FreshTable(src, dsts, sig, s.view.ifaces)
    ensures var (table, _, same) := Install(src, s.view.reuse, dsts, sig, s.view.ifaces);
            var live := DeviceNames(s.view.ifaces.Keys);
            Batch(s.view.fib, live, Emit(same, if same then table else s.view.table, table, Some(live))).1
  {
    var (table, reuse, same) := Install(src, s.view.reuse, dsts, sig, s.view.ifaces);
    InstallRefinesFresh(src, s, dsts, sig);
    FreshCoherent(src, dsts, sig, s.view.ifaces);
    var gone, live := DeviceNames(s.pending), DeviceNames(s.view.ifaces.Keys);
    KnownDevices(s);
    LiveTable(table, s.view.ifaces);
    if same {
      forall p | p in TableMap(table) ensures TableMap(table)[p].dev !in gone {
        DeviceOf(table, p);
      }
      PurgeNothing(TableMap(table), gone);
    } else {
      DiffTheorem(s.view.table, table, gone, live);
    }
    PurgeNothing(TableMap(table), DeviceNames({}));
  }

  lemma InitStep(src: Source, s: State, dsts: seq<Dest>, sig: Signature)
    requires Inv(src, s) && Enabled(s, Init(dsts, sig))
    ensures var s' := Step(src, s, Init(dsts, sig));
            && Inv(src, s') && Installed(s'.view)
            && s'.view.table == FreshTable(src, dsts, sig, s.view.ifaces)
  {
    var table := FreshTable(src, dsts, sig, s.view.ifaces);
    FreshCoherent(src, dsts, sig, s.view.ifaces);
    LiveTable(table, s.view.ifaces);
    assert Purge(TableMap([]), {}) == map[];
    DiffTheorem([], table, {}, DeviceNames(s.view.ifaces.Keys));
    PurgeNothing(TableMap(table), DeviceNames({}));
  }

  lemma LinksStep(src: Source, s: State, gone: set<nat>, added: Devices)
    requires Inv(src, s) && Enabled(s, Links(gone, added))
    ensures Inv(src, Step(src, s, Links(gone, added)))
  {
    hide Coherent, DistinctDests, DeviceNames;
    PurgeTwice(TableMap(s.view.table), DeviceNames(s.pending), DeviceNames(gone));
    DeviceNamesUnion(s.pending, gone);
  }

  /** A batch that deletes every route the kernel holds empties it; a line fails when its route is absent. */
  lemma DeleteBatch(fib: Fib, live: set<string>, cmds: seq<Command>)
    requires DistinctTargets(cmds) && forall c | c in cmds :: c.Del?
    requires forall p | p in fib :: Del(p, fib[p]) in cmds
    ensures Batch(fib, live, cmds).0 == map[]
    ensures Batch(fib, live, cmds).1 <==> forall c | c in cmds :: c.prefix in fib
  {
    BatchAt(fib, live, cmds);
    var f := Batch(fib, live, cmds).0;
    forall c | c in cmds && c.prefix in fib ensures c == Del(c.prefix, fib[c.prefix]) {
      var i :| 0 <= i < |cmds| && cmds[i] == c;
      var j :| 0 <= j < |cmds| && cmds[j] == Del(c.prefix, fib[c.prefix]);
      assert i == j;
    }
    forall p ensures At(f, p) == None {
      if Targets(cmds, p) {
        var c :| c in cmds && c.prefix == p;
      }
    }
    MapsEqual(f, map[]);
  }

  lemma DeleteLinesCover(table: seq<RouteEntry>)
    requires UniquePrefixes(table)
    ensures DistinctTargets(DeleteLines(table)) && forall c | c in DeleteLines(table) :: c.Del?
    ensures forall p | p in TableMap(table) :: Del(p, TableMap(table)[p]) in DeleteLines(table)
    ensures forall c | c in DeleteLines(table) :: c.prefix in TableMap(table) && TableMap(table)[c.prefix] == c.hop
  {
    var cmds := DeleteLines(table);
    forall p | p in TableMap(table) ensures Del(p, TableMap(table)[p]) in cmds {
      var i :| 0 <= i < |table| && PrefixOf(table[i]) == p;
      assert cmds[i] in cmds;
    }
    forall c | c in cmds ensures c.Del? && c.prefix in TableMap(table) && TableMap(table)[c.prefix] == c.hop {
      var i :| 0 <= i < |cmds| && cmds[i] == c;
    }
  }

  /** Deleting every route of a table empties what the kernel kept of it; a line fails exactly when its
      route lost its device. */
  lemma DeleteAll(table: seq<RouteEntry>, gone: set<string>, live: set<string>)
    requires UniquePrefixes(table)
    ensures Batch(Purge(TableMap(table), gone), live, DeleteLines(table)).0 == map[]
    ensures Batch(Purge(TableMap(table), gone), live, DeleteLines(table)).1
            <==> forall d | d in RouteDiff.Devices(table) :: d !in gone
  {
    var fib, cmds := Purge(TableMap(table), gone), DeleteLines(table);
    DeleteLinesCover(table);
    DeleteBatch(fib, live, cmds);
    if forall c | c in cmds :: c.prefix in fib {
      forall i | 0 <= i < |table| ensures HopOf(table[i]).dev !in gone {
        assert cmds[i] in cmds;
      }
    } else {
      var c :| c in cmds && c.prefix !in fib;
      DeviceOf(table, c.prefix);
    }
  }

  /** remove() empties the kernel; it also empties the tables exactly when no route of the table lost its
      device since the last build, and raises otherwise. */
  lemma RemoveExact(src: Source, s: State)
    requires Inv(src, s)
    ensures Removed(s.view).0.fib == map[]
    ensures Removed(s.view).1 <==> forall i | 0 <= i < |s.view.table| :: s.view.table[i].iface.peer !in s.pending
  {
    var table := s.view.table;
    DeleteAll(table, DeviceNames(s.pending), DeviceNames(s.view.ifaces.Keys));
    forall i | 0 <= i < |table|
      ensures HopOf(table[i]).dev in RouteDiff.Devices(table)
      ensures HopOf(table[i]).dev in DeviceNames(s.pending) <==> table[i].iface.peer in s.pending
    {
      DeviceNamesMember(s.pending, table[i].iface.peer);
    }
  }

  lemma RemoveStep(src: Source, s: State)
    requires Inv(src, s) && Enabled(s, Remove)
    ensures var s' := Step(src, s, Remove);
            Inv(src, s') && Installed(s'.view) && s'.view.table == [] && s'.view.fib == map[]
  {
    RemoveExact(src, s);
    PurgeNothing(TableMap([]), DeviceNames({}));
  }

  // ---- What the daemon relies on ----

  lemma CollectInjective(dsts: seq<Dest>, a: seq<Option<RouteEntry>>, b: seq<Option<RouteEntry>>)
    requires DistinctDests(dsts) && SlotsFor(dsts, a) && SlotsFor(dsts, b)
    requires Collect(a) == Collect(b)
    ensures a == b
  {
    forall i | 0 <= i < |dsts| ensures a[i] == b[i] {
      SlotMatches(dsts, a, b, i);
      SlotMatches(dsts, b, a, i);
    }
  }

  lemma SlotMatches(dsts: seq<Dest>, a: seq<Option<RouteEntry>>, b: seq<Option<RouteEntry>>, i: nat)
    requires DistinctDests(dsts) && SlotsFor(dsts, a) && SlotsFor(dsts, b) && i < |dsts|
    requires Collect(a) == Collect(b)
    ensures a[i].Some? ==> b[i] == a[i]
  {
    if a[i].Some? {
      CollectMembers(a, a[i].value);
      CollectMembers(b, a[i].value);
      var j :| 0 <= j < |b| && b[j] == a[i];
      assert dsts[j].summary == dsts[i].summary;
    }
  }

  function CachedHop(reuse: Reuse, id: nat): Option<nat> {
    if id in reuse.entries then Some(reuse.entries[id].iface.peer) else None
  }

  /** Without the grow-only assumption, reusing on an equal signature gives the table of a build from
      scratch exactly when each destination's cached entry leaves through the vector's next hop for it. */
  lemma ReuseExact(src: Source, s: State, dsts: seq<Dest>, sig: Signature)
    requires Inv(src, s) && s.view.reuse.Some? && s.view.reuse.value.sig == sig
    requires |sig| == |dsts| && DistinctDests(dsts) && Resolvable(sig, s.view.ifaces)
    requires forall i, j | 0 <= i < |dsts| && 0 <= j < |s.dsts| :: dsts[i].id == s.dsts[j].id ==> dsts[i] == s.dsts[j]
    ensures Install(src, s.view.reuse, dsts, sig, s.view.ifaces).0 == FreshTable(src, dsts, sig, s.view.ifaces)
            <==> forall i | 0 <= i < |dsts| :: CachedHop(s.view.reuse.value, dsts[i].id) == sig[i]
  {
    var entries := s.view.reuse.value.entries;
    var a, b := CachedSlots(dsts, entries), FreshSlots(src, dsts, sig, s.view.ifaces);
    CachedSlotsFor(src, s, dsts);
    forall i | 0 <= i < |dsts|
      ensures a[i] == b[i] <==> CachedHop(s.view.reuse.value, dsts[i].id) == sig[i]
    {
      ReuseSlotExact(src, s, dsts, sig, i);
    }
    if Collect(a) == Collect(b) {
      FreshSlotsFor(src, dsts, sig, s.view.ifaces);
      CollectInjective(dsts, a, b);
    } else {
      assert a != b;
      assert exists i | 0 <= i < |dsts| :: a[i] != b[i];
    }
  }

  lemma ReuseSlotExact(src: Source, s: State, dsts: seq<Dest>, sig: Signature, i: nat)
    requires Inv(src, s) && s.view.reuse.Some?
    requires |sig| == |dsts| && Resolvable(sig, s.view.ifaces) && i < |dsts|
    requires forall i, j | 0 <= i < |dsts| && 0 <= j < |s.dsts| :: dsts[i].id == s.dsts[j].id ==> dsts[i] == s.dsts[j]
    ensures CachedSlots(dsts, s.view.reuse.value.entries)[i] == FreshSlots(src, dsts, sig, s.view.ifaces)[i]
            <==> CachedHop(s.view.reuse.value, dsts[i].id) == sig[i]
  {
    CachedSlotsFor(src, s, dsts);
    var entries := s.view.reuse.value.entries;
    if dsts[i].id in entries {
      var k :| 0 <= k < |s.view.table| && s.view.table[k] == entries[dsts[i].id];
    }
  }

  lemma CachedSlotsFor(src: Source, s: State, dsts: seq<Dest>)
    requires Inv(src, s) && s.view.reuse.Some?
    requires forall i, j | 0 <= i < |dsts| && 0 <= j < |s.dsts| :: dsts[i].id == s.dsts[j].id ==> dsts[i] == s.dsts[j]
    ensures var entries := s.view.reuse.value.entries;
            && SlotsFor(dsts, CachedSlots(dsts, entries))
            && forall i | 0 <= i < |dsts| && dsts[i].id in entries ::
                 && entries[dsts[i].id] == FreshEntry(src, dsts[i], entries[dsts[i].id].iface)
                 && entries[dsts[i].id] in s.view.table
  {
    var entries := s.view.reuse.value.entries;
    forall i | 0 <= i < |dsts| && dsts[i].id in entries
      ensures entries[dsts[i].id] == FreshEntry(src, dsts[i], entries[dsts[i].id].iface)
      ensures entries[dsts[i].id] in s.view.table
    {
      var j :| 0 <= j < |s.dsts| && s.dsts[j].id == dsts[i].id;
      CollectMembers(CachedSlots(s.dsts, entries), entries[dsts[i].id]);
      assert CachedSlots(s.dsts, entries)[j] == Some(entries[dsts[i].id]);
    }
  }

  /** Swapping one addressable satellite for another behind the same next hop breaks positional reuse: the
      daemon keeps the route to the old one and has none to the new one. */
  lemma SwappedDestinationIsMissed(src: Source, x: Dest, y: Dest, iface: Interface)
    returns (s: State, dsts: seq<Dest>, sig: Signature)
    requires x.id != y.id && x.summary != y.summary
    ensures Inv(src, s) && Installed(s.view) && s.dsts == [x] && dsts == [y]
    ensures |sig| == 1 && Resolvable(sig, s.view.ifaces)
    ensures Updated(src, s.view, dsts, sig).table != FreshTable(src, dsts, sig, s.view.ifaces)
  {
    dsts, sig := [y], [Some(iface.peer)];
    var e := FreshEntry(src, x, iface);
    var reuse := Reuse(sig, map[x.id := e]);
    s := State(NodeView([e], Some(reuse), map[iface.peer := iface], TableMap([e])), {}, [x]);
    OneEntry(src, x, iface);
    PurgeNothing(TableMap([e]), DeviceNames({}));
    ReuseExact(src, s, dsts, sig);
    assert CachedHop(reuse, dsts[0].id) != sig[0];
  }

  lemma OneEntry(src: Source, x: Dest, iface: Interface)
    ensures var e := FreshEntry(src, x, iface);
            Coherent(src, Reuse([Some(iface.peer)], map[x.id := e]), [x], [e])
  {
    var e := FreshEntry(src, x, iface);
    var slots := CachedSlots([x], map[x.id := e]);
    assert slots == [Some(e)];
    assert slots[..0] == [] && Collect(slots) == [e];
    assert [x][0] == x;
  }

  /** A device that went and came back between two builds: the route through it is unchanged, so no line
      is sent, and the kernel stays without it. */
  lemma RecreatedDeviceLosesRoute() returns (prev: seq<RouteEntry>, gone: set<string>, live: set<string>)
    ensures UniquePrefixes(prev) && RouteDiff.Devices(prev) <= live && RouteDiff.Devices(prev) <= gone
    ensures Batch(Purge(TableMap(prev), gone), live, Emit(false, prev, prev, Some(live))).0 != TableMap(prev)
  {
    var e := RouteEntry("128.4.0.0", 15, "10.0.0.1", Interface(7, 1, "10.0.0.1"), "Sat2", "Gnd0", "64.0.0.0");
    prev, gone, live := [e], {DeviceName(1)}, {DeviceName(1)};
    assert TableMap(prev)[PrefixOf(prev[0])].dev in gone;
    DiffExact(prev, prev, gone, live);
  }

  // ---- What is left when nothing was sent, or not all ----

  /** A build whose batch is not sent, because the topology is not active. */
  function BuiltOnly(src: Source, v: NodeView, dsts: seq<Dest>, sig: Signature): NodeView
    requires |sig| == |dsts| && Resolvable(sig, v.ifaces)
  {
    Updated(src, v, dsts, sig).(fib := v.fib)
  }

  /** From any node whose reuse state is empty, whatever its kernel holds: an update leaves the kernel with its
      table exactly when every prefix is mended by the difference to the table it had. */
  lemma UpdateFromAny(src: Source, v: NodeView, dsts: seq<Dest>, sig: Signature)
    requires |sig| == |dsts| && DistinctDests(dsts) && Resolvable(sig, v.ifaces) && NamedByPeer(v.ifaces)
    requires UniquePrefixes(v.table) && v.reuse.None?
    ensures UniquePrefixes(FreshTable(src, dsts, sig, v.ifaces))
    ensures Updated(src, v, dsts, sig).table == FreshTable(src, dsts, sig, v.ifaces)
    ensures var was, now := TableMap(v.table), TableMap(FreshTable(src, dsts, sig, v.ifaces));
            Updated(src, v, dsts, sig).fib == now
            <==> forall p :: Mends(At(v.fib, p), At(was, p), At(now, p), DeviceNames(v.ifaces.Keys))
  {
    FreshCoherent(src, dsts, sig, v.ifaces);
    LiveTable(FreshTable(src, dsts, sig, v.ifaces), v.ifaces);
    MendExact(v.fib, v.table, FreshTable(src, dsts, sig, v.ifaces), DeviceNames(v.ifaces.Keys));
  }

  lemma EmptyMends(was: Option<Hop>, now: Option<Hop>, live: set<string>)
    ensures Mends(None, was, now, live) <==> !(was.Some? && was == now)
  {
  }

  /** A removal that raises has emptied the kernel and kept the table. The next update brings the kernel back
      exactly when no route of the old table is in the new one: such a route is not sent. */
  lemma AfterFailedRemove(src: Source, s: State, dsts: seq<Dest>, sig: Signature)
    requires Inv(src, s) && !Removed(s.view).1
    requires |sig| == |dsts| && DistinctDests(dsts) && Resolvable(sig, s.view.ifaces)
    ensures var v := Removed(s.view).0;
            && v.fib == map[] && v.table == s.view.table && v.ifaces == s.view.ifaces
            && UniquePrefixes(FreshTable(src, dsts, sig, v.ifaces))
            && var was, now := TableMap(v.table), TableMap(FreshTable(src, dsts, sig, v.ifaces));
               Updated(src, v, dsts, sig).fib == now <==> forall p | p in was && p in now :: was[p] != now[p]
  {
    hide DevicesKnown, Coherent, FreshTable, Updated, Mends;
    RemoveExact(src, s);
    var v := Removed(s.view).0;
    UpdateFromAny(src, v, dsts, sig);
    var was, now := TableMap(v.table), TableMap(FreshTable(src, dsts, sig, v.ifaces));
    forall p ensures Mends(At(v.fib, p), At(was, p), At(now, p), DeviceNames(v.ifaces.Keys))
                     <==> !(p in was && p in now && was[p] == now[p])
    {
      EmptyMends(At(was, p), At(now, p), DeviceNames(v.ifaces.Keys));
    }
  }

  /** An init, which sends every route, always brings it back. */
  lemma InitAfterFailedRemove(src: Source, s: State, dsts: seq<Dest>, sig: Signature)
    requires Inv(src, s) && !Removed(s.view).1
    requires |sig| == |dsts| && DistinctDests(dsts) && Resolvable(sig, s.view.ifaces)
    ensures Installed(Initialized(src, Removed(s.view).0, dsts, sig))
  {
    hide DevicesKnown, Coherent, Mends;
    RemoveExact(src, s);
    var v := Removed(s.view).0.(table := []);
    UpdateFromAny(src, v, dsts, sig);
    var now := TableMap(FreshTable(src, dsts, sig, v.ifaces));
    forall p ensures Mends(At(v.fib, p), At(TableMap([]), p), At(now, p), DeviceNames(v.ifaces.Keys)) {
      EmptyMends(At(TableMap([]), p), At(now, p), DeviceNames(v.ifaces.Keys));
    }
  }

  lemma FreshLive(src: Source, dsts: seq<Dest>, sig: Signature, ifaces: Devices)
    requires |sig| == |dsts| && Resolvable(sig, ifaces) && DistinctDests(dsts) && NamedByPeer(ifaces)
    ensures RouteDiff.Devices(FreshTable(src, dsts, sig, ifaces)) <= DeviceNames(ifaces.Keys)
  {
    FreshCoherent(src, dsts, sig, ifaces);
    LiveTable(FreshTable(src, dsts, sig, ifaces), ifaces);
  }

  /** The tables of a build that is not sent and of the update after it, whichever branch it takes. */
  lemma BuiltTables(src: Source, s: State, unsent: seq<Dest>, unsentSig: Signature, dsts: seq<Dest>, sig: Signature)
    requires Inv(src, s) && Enabled(s, Update(unsent, unsentSig))
    requires |sig| == |dsts| && DistinctDests(dsts) && Resolvable(sig, s.view.ifaces)
    requires |dsts| == |unsent| ==> dsts == unsent
    ensures var v := BuiltOnly(src, s.view, unsent, unsentSig);
            var (table, _, same) := Install(src, v.reuse, dsts, sig, v.ifaces);
            && v.table == FreshTable(src, unsent, unsentSig, s.view.ifaces) && UniquePrefixes(v.table)
            && table == FreshTable(src, dsts, sig, s.view.ifaces) && UniquePrefixes(table)
            && (same ==> table == v.table) && RouteDiff.Devices(table) <= DeviceNames(v.ifaces.Keys)
  {
    hide Coherent, FreshTable, DevicesKnown;
    FreshLive(src, dsts, sig, s.view.ifaces);
    UpdateStep(src, s, unsent, unsentSig);
    InstallRefinesFresh(src, Step(src, s, Update(unsent, unsentSig)), dsts, sig);
    FreshCoherent(src, dsts, sig, s.view.ifaces);
  }

  /** An update that follows a build that was not sent leaves the kernel with its table exactly when every prefix
      is mended by the difference to the table that was built, whatever the kernel held. */
  lemma AfterBuiltOnly(src: Source, s: State, unsent: seq<Dest>, unsentSig: Signature, dsts: seq<Dest>, sig: Signature)
    requires Inv(src, s) && Enabled(s, Update(unsent, unsentSig))
    requires |sig| == |dsts| && DistinctDests(dsts) && Resolvable(sig, s.view.ifaces)
    requires |dsts| == |unsent| ==> dsts == unsent
    ensures UniquePrefixes(FreshTable(src, unsent, unsentSig, s.view.ifaces))
    ensures UniquePrefixes(FreshTable(src, dsts, sig, s.view.ifaces))
    ensures var v := BuiltOnly(src, s.view, unsent, unsentSig);
            var was := TableMap(FreshTable(src, unsent, unsentSig, s.view.ifaces));
            var now := TableMap(FreshTable(src, dsts, sig, s.view.ifaces));
            Updated(src, v, dsts, sig).fib == now
            <==> forall p :: Mends(At(s.view.fib, p), At(was, p), At(now, p), DeviceNames(s.view.ifaces.Keys))
  {
    hide Inv, FreshTable, Mends;
    var v := BuiltOnly(src, s.view, unsent, unsentSig);
    BuiltTables(src, s, unsent, unsentSig, dsts, sig);
    var live, table := DeviceNames(s.view.ifaces.Keys), FreshTable(src, dsts, sig, s.view.ifaces);
    hide Install, UniquePrefixes, At, DistinctDests, Resolvable, Batch;
    if Install(src, v.reuse, dsts, sig, v.ifaces).2 {
      UnsentExact(s.view.fib, table, live);
    } else {
      MendExact(s.view.fib, v.table, table, live);
    }
  }

  lemma UnsentExact(fib: Fib, table: seq<RouteEntry>, live: set<string>)
    requires UniquePrefixes(table)
    ensures fib == TableMap(table)
            <==> forall p :: Mends(At(fib, p), At(TableMap(table), p), At(TableMap(table), p), live)
  {
    if forall p :: Mends(At(fib, p), At(TableMap(table), p), At(TableMap(table), p), live) {
      MapsEqual(fib, TableMap(table));
    }
  }

  // ---- Every run ----

  /** A node before anything was installed on it. */
  ghost predicate Initial(s: State) {
    && s.view.table == [] && s.view.reuse == None && s.view.fib == map[] && s.pending == {} && s.dsts == []
    && NamedByPeer(s.view.ifaces)
  }

  lemma StepKeepsInv(src: Source, s: State, e: Event)
    requires Inv(src, s) && Enabled(s, e)
    ensures Inv(src, Step(src, s, e))
    ensures !e.Links? ==> Installed(Step(src, s, e).view)
    ensures e.Update? || e.Init? ==> Step(src, s, e).view.table == FreshTable(src, e.dsts, e.sig, s.view.ifaces)
  {
    match e
    case Links(gone, added) => LinksStep(src, s, gone, added);
    case Update(dsts, sig) => UpdateStep(src, s, dsts, sig);
    case Init(dsts, sig) => InitStep(src, s, dsts, sig);
    case Remove => RemoveStep(src, s);
  }

  lemma {:induction false} RunKeepsInv(src: Source, states: seq<State>, events: seq<Event>, i: nat)
    requires Run(src, states, events) && Initial(states[0]) && i <= |events|
    ensures Inv(src, states[i])
  {
    if i == 0 {
      assert Purge(TableMap([]), DeviceNames({})) == map[];
    } else {
      RunKeepsInv(src, states, events, i - 1);
      StepKeepsInv(src, states[i - 1], events[i - 1]);
    }
  }

  /** Over every run of init, update, remove and link changes, after each of the daemon's own steps the
      kernel holds exactly the current table, and after a build that table is the one a build from scratch
      gives; in between, the kernel holds the table without the routes of the devices removed since. */
  lemma EveryRun(src: Source, states: seq<State>, events: seq<Event>, i: nat)
    requires Run(src, states, events) && Initial(states[0]) && i < |events|
    ensures Inv(src, states[i + 1])
    ensures states[i + 1].view.fib == Purge(TableMap(states[i + 1].view.table), DeviceNames(states[i + 1].pending))
    ensures !events[i].Links? ==> Installed(states[i + 1].view)
    ensures events[i].Update? || events[i].Init? ==>
              states[i + 1].view.table == FreshTable(src, events[i].dsts, events[i].sig, states[i].view.ifaces)
  {
    RunKeepsInv(src, states, events, i);
    StepKeepsInv(src, states[i], events[i]);
  }
}

/** Routing entries (satgonetem/models/routing_entry.py) over interfaces as the routing daemon sees them. */
module RoutingEntries {
  import opened Wrappers
  import opened Text
  import opened Bits
  import opened IpUtils

  /** An interface object: its identity, the id after the dot in its name, and its peer's address. */
  datatype Interface = Interface(uid: nat, peer: nat, peerIp: string)

  /** The kernel device name: "eth" and what follows the dot in the interface's name. */
  function DeviceName(peer: nat): string {
    "eth" + Decimal(peer)
  }

  lemma DeviceNameInjective(p: nat, q: nat)
    requires DeviceName(p) == DeviceName(q)
    ensures p == q
  {
    assert DeviceName(p)[3..] == Decimal(p) && DeviceName(q)[3..] == Decimal(q);
    DecimalInjective(p, q);
  }

  datatype RouteEntry = RouteEntry(destination: string, prefix: nat, gateway: string, iface: Interface,
                                   targetNode: string, sourceNode: string, source: string)

  /** The validating constructor. */
  function New(destination: string, iface: Interface, gateway: string, prefix: int,
               targetNode: string, sourceNode: string, source: string): Result<RouteEntry>
  {
    if !(0 <= prefix <= 32) then Err(ValueError)
    else
      match Summarize(destination, prefix)
      case Err(e) => Err(e)
      case Ok(dest) =>
        if source == "" then Ok(RouteEntry(dest, prefix, gateway, iface, targetNode, sourceNode, source))
        else
          match Summarize(source, prefix)
          case Err(e) => Err(e)
          case Ok(src) => Ok(RouteEntry(dest, prefix, gateway, iface, targetNode, sourceNode, src))
  }

  /** The constructor of the hot path, which trusts its inputs. */
  function FromValidated(destination: string, iface: Interface, gateway: string, prefix: nat,
                         targetNode: string, sourceNode: string, source: string): RouteEntry
  {
    RouteEntry(destination, prefix, gateway, iface, targetNode, sourceNode, source)
  }

  /** A source may be left empty. */
  function SummarizedSource(source: string, prefix: int): Result<string> {
    if source == "" then Ok("") else Summarize(source, prefix)
  }

  /** On inputs that were summarized to the same prefix, both constructors build the same entry; so the
      networkx variant, which passes raw loopbacks, and the igraph variant, which passes summaries,
      install the same entry. */
  lemma ConstructorsAgree(dest: string, iface: Interface, gateway: string, prefix: nat,
                          target: string, srcName: string, source: string)
    requires Summarize(dest, prefix).Ok? && SummarizedSource(source, prefix).Ok?
    ensures var d, s := Summarize(dest, prefix).value, SummarizedSource(source, prefix).value;
            && New(d, iface, gateway, prefix, target, srcName, s)
               == Ok(FromValidated(d, iface, gateway, prefix, target, srcName, s))
            && New(dest, iface, gateway, prefix, target, srcName, source)
               == New(d, iface, gateway, prefix, target, srcName, s)
  {
    SummarizeTwice(dest, prefix, prefix);
    if source != "" {
      SummarizeTwice(source, prefix, prefix);
      EmptyIsNoAddress(prefix);
      SummaryIsText(source, prefix);
    }
  }

  lemma EmptyIsNoAddress(prefix: nat)
    ensures Summarize("", prefix).Err?
  {
  }

  lemma SummaryIsText(ip: string, prefix: nat)
    requires Summarize(ip, prefix).Ok?
    ensures Summarize(ip, prefix).value != ""
  {
    SummarizeTwice(ip, prefix, prefix);
    EmptyIsNoAddress(prefix);
  }
}

/** The kernel's routing table of one node and the batch that moves it (static_daemon.py:766-854). */
module RouteDiff {
  import opened Wrappers
  import opened RoutingEntries

  datatype Prefix = Prefix(addr: string, len: nat)

  datatype Hop = Hop(gateway: string, dev: string)

  type Fib = map<Prefix, Hop>

  datatype EntryKey = EntryKey(prefix: Prefix, hop: Hop)

  datatype Command = Del(prefix: Prefix, hop: Hop) | Replace(prefix: Prefix, hop: Hop)

  function PrefixOf(e: RouteEntry): Prefix { Prefix(e.destination, e.prefix) }

  function HopOf(e: RouteEntry): Hop { Hop(e.gateway, DeviceName(e.iface.peer)) }

  function KeyOf(e: RouteEntry): EntryKey { EntryKey(PrefixOf(e), HopOf(e)) }

  /** The keys of the dict {key(e): e for e in tbl}, in insertion order. */
  function DictKeys(tbl: seq<RouteEntry>): (ks: seq<EntryKey>)
    ensures forall k :: k in ks <==> exists i | 0 <= i < |tbl| :: KeyOf(tbl[i]) == k
    ensures forall i, j | 0 <= i < j < |ks| :: ks[i] != ks[j]
  {
    if tbl == [] then []
    else
      var n := |tbl| - 1;
      var ks := DictKeys(tbl[..n]);
      if KeyOf(tbl[n]) in ks then ks else ks + [KeyOf(tbl[n])]
  }

  function Prefixes(tbl: seq<RouteEntry>): set<Prefix> {
    set i | 0 <= i < |tbl| :: PrefixOf(tbl[i])
  }

  function Deletions(prev: seq<EntryKey>, curr: seq<EntryKey>, currPrefixes: set<Prefix>,
                     live: Option<set<string>>): seq<Command>
  {
    if prev == [] then []
    else
      var n := |prev| - 1;
      var k := prev[n];
      var rest := Deletions(prev[..n], curr, currPrefixes, live);
      if k !in curr && k.prefix !in currPrefixes && (live.None? || k.hop.dev in live.value)
      then rest + [Del(k.prefix, k.hop)] else rest
  }

  function Additions(prev: seq<EntryKey>, curr: seq<EntryKey>): seq<Command> {
    if curr == [] then []
    else
      var n := |curr| - 1;
      var rest := Additions(prev, curr[..n]);
      if curr[n] !in prev then rest + [Replace(curr[n].prefix, curr[n].hop)] else rest
  }

  /** The batch for a change from prev to curr; same says both names denote one list object. */
  function Emit(same: bool, prev: seq<RouteEntry>, curr: seq<RouteEntry>, live: Option<set<string>>)
    : seq<Command>
  {
    if same then []
    else Deletions(DictKeys(prev), DictKeys(curr), Prefixes(curr), live)
         + Additions(DictKeys(prev), DictKeys(curr))
  }

  // ---- The kernel ----

  /** One line of a batch: a delete needs the very route, a replace needs the device. */
  function Exec(fib: Fib, devs: set<string>, c: Command): (Fib, bool) {
    match c
    case Del(p, h) => if p in fib && fib[p] == h then (fib - {p}, true) else (fib, false)
    case Replace(p, h) => if h.dev in devs then (fib[p := h], true) else (fib, false)
  }

  /** A forced batch goes on after a failing line; it succeeds when every line did. */
  function Batch(fib: Fib, devs: set<string>, cmds: seq<Command>): (Fib, bool) {
    if cmds == [] then (fib, true)
    else
      var n := |cmds| - 1;
      var (f, ok) := Batch(fib, devs, cmds[..n]);
      var (f', ok') := Exec(f, devs, cmds[n]);
      (f', ok && ok')
  }

  /** Removing devices makes the kernel drop every route through them. */
  function Purge(fib: Fib, gone: set<string>): Fib {
    map p | p in fib && fib[p].dev !in gone :: fib[p]
  }

  // ---- Tables as maps ----

  predicate UniquePrefixes(tbl: seq<RouteEntry>) {
    forall i, j | 0 <= i < j < |tbl| :: PrefixOf(tbl[i]) != PrefixOf(tbl[j])
  }

  ghost function TableMap(tbl: seq<RouteEntry>): (m: Fib)
    requires UniquePrefixes(tbl)
    ensures m.Keys == Prefixes(tbl)
    ensures forall i | 0 <= i < |tbl| :: m[PrefixOf(tbl[i])] == HopOf(tbl[i])
  {
    map i | 0 <= i < |tbl| :: PrefixOf(tbl[i]) := HopOf(tbl[i])
  }

  ghost function Devices(tbl: seq<RouteEntry>): set<string> {
    set i | 0 <= i < |tbl| :: HopOf(tbl[i]).dev
  }

  // ---- The batch, command by command ----

  lemma {:induction false} InDeletions(prev: seq<EntryKey>, curr: seq<EntryKey>, ps: set<Prefix>,
                                       live: Option<set<string>>, c: Command)
    ensures c in Deletions(prev, curr, ps, live) <==>
            && c.Del? && EntryKey(c.prefix, c.hop) in prev
            && EntryKey(c.prefix, c.hop) !in curr && c.prefix !in ps
            && (live.None? || c.hop.dev in live.value)
  {
    if prev != [] {
      var n := |prev| - 1;
      InDeletions(prev[..n], curr, ps, live, c);
      assert prev == prev[..n] + [prev[n]];
    }
  }

  lemma {:induction false} InAdditions(prev: seq<EntryKey>, curr: seq<EntryKey>, c: Command)
    ensures c in Additions(prev, curr) <==>
            c.Replace? && EntryKey(c.prefix, c.hop) in curr && EntryKey(c.prefix, c.hop) !in prev
  {
    if curr != [] {
      var n := |curr| - 1;
      InAdditions(prev, curr[..n], c);
      assert curr == curr[..n] + [curr[n]];
    }
  }

  predicate DistinctTargets(cmds: seq<Command>) {
    forall i, j | 0 <= i < j < |cmds| :: cmds[i].prefix != cmds[j].prefix
  }

  predicate UniqueKeyPrefixes(ks: seq<EntryKey>) {
    forall i, j | 0 <= i < j < |ks| :: ks[i].prefix != ks[j].prefix
  }

  lemma KeysOfUnique(tbl: seq<RouteEntry>)
    requires UniquePrefixes(tbl)
    ensures UniqueKeyPrefixes(DictKeys(tbl))
  {
    var ks := DictKeys(tbl);
    forall i, j | 0 <= i < j < |ks| ensures ks[i].prefix != ks[j].prefix {
      assert ks[i] in ks && ks[j] in ks;
      var a :| 0 <= a < |tbl| && KeyOf(tbl[a]) == ks[i];
      var b :| 0 <= b < |tbl| && KeyOf(tbl[b]) == ks[j];
      assert a != b;
    }
  }

  lemma {:induction false} DeletionsDistinct(prev: seq<EntryKey>, curr: seq<EntryKey>, ps: set<Prefix>,
                                             live: Option<set<string>>)
    requires UniqueKeyPrefixes(prev)
    ensures DistinctTargets(Deletions(prev, curr, ps, live))
  {
    if prev != [] {
      var n := |prev| - 1;
      DeletionsDistinct(prev[..n], curr, ps, live);
      forall c { InDeletions(prev[..n], curr, ps, live, c); }
    }
  }

  lemma {:induction false} AdditionsDistinct(prev: seq<EntryKey>, curr: seq<EntryKey>)
    requires UniqueKeyPrefixes(curr)
    ensures DistinctTargets(Additions(prev, curr))
  {
    if curr != [] {
      var n := |curr| - 1;
      AdditionsDistinct(prev, curr[..n]);
      forall c { InAdditions(prev, curr[..n], c); }
    }
  }

  /** Every prefix occurs at most once in a batch, and a route in both tables not at all. */
  lemma BatchIsMinimal(prev: seq<RouteEntry>, curr: seq<RouteEntry>, live: Option<set<string>>)
    requires UniquePrefixes(prev) && UniquePrefixes(curr)
    ensures DistinctTargets(Emit(false, prev, curr, live))
    ensures forall c | c in Emit(false, prev, curr, live) ::
              !(EntryKey(c.prefix, c.hop) in DictKeys(prev) && EntryKey(c.prefix, c.hop) in DictKeys(curr))
  {
    var p, c := DictKeys(prev), DictKeys(curr);
    KeysOfUnique(prev);
    KeysOfUnique(curr);
    DeletionsDistinct(p, c, Prefixes(curr), live);
    AdditionsDistinct(p, c);
    var ds, rs := Deletions(p, c, Prefixes(curr), live), Additions(p, c);
    forall x | x in ds ensures x.prefix !in Prefixes(curr) && EntryKey(x.prefix, x.hop) !in c {
      InDeletions(p, c, Prefixes(curr), live, x);
    }
    forall x | x in rs ensures x.prefix in Prefixes(curr) && EntryKey(x.prefix, x.hop) !in p {
      InAdditions(p, c, x);
    }
    forall i, j | 0 <= i < |ds| && 0 <= j < |rs| ensures ds[i].prefix != rs[j].prefix {
      assert ds[i] in ds && rs[j] in rs;
    }
  }

  function At(fib: Fib, p: Prefix): Option<Hop> {
    if p in fib then Some(fib[p]) else None
  }

  ghost predicate Targets(cmds: seq<Command>, p: Prefix) {
    exists c :: c in cmds && c.prefix == p
  }

  /** In a batch of distinct targets every command acts as it would alone, and the rest is untouched. */
  lemma {:induction false} BatchAt(fib: Fib, devs: set<string>, cmds: seq<Command>)
    requires DistinctTargets(cmds)
    ensures forall c | c in cmds ::
              At(Batch(fib, devs, cmds).0, c.prefix) == At(Exec(fib, devs, c).0, c.prefix)
    ensures forall p | !Targets(cmds, p) :: At(Batch(fib, devs, cmds).0, p) == At(fib, p)
    ensures Batch(fib, devs, cmds).1 <==> forall c | c in cmds :: Exec(fib, devs, c).1
  {
    if cmds != [] {
      var n := |cmds| - 1;
      BatchAt(fib, devs, cmds[..n]);
      OneMoreTarget(cmds);
      var f, last := Batch(fib, devs, cmds[..n]).0, cmds[n];
      ExecAlone(f, fib, devs, last);
      hide Exec, Targets;
      forall c | c in cmds && c != last ensures c.prefix != last.prefix && c in cmds[..n] {
      }
    }
  }

  lemma OneMoreTarget(cmds: seq<Command>)
    requires cmds != [] && DistinctTargets(cmds)
    ensures var init, last := cmds[..|cmds| - 1], cmds[|cmds| - 1];
            && (forall c :: c in cmds <==> c in init || c == last) && !Targets(init, last.prefix)
            && (forall c | c in init :: c.prefix != last.prefix)
            && forall p :: Targets(cmds, p) <==> Targets(init, p) || p == last.prefix
  {
    var n := |cmds| - 1;
    assert cmds == cmds[..n] + [cmds[n]];
    assert cmds[n] in cmds;
  }

  /** A command looks at its own prefix only, and changes no other. */
  lemma ExecAlone(f: Fib, g: Fib, devs: set<string>, c: Command)
    requires At(f, c.prefix) == At(g, c.prefix)
    ensures At(Exec(f, devs, c).0, c.prefix) == At(Exec(g, devs, c).0, c.prefix)
    ensures Exec(f, devs, c).1 == Exec(g, devs, c).1
    ensures forall p | p != c.prefix :: At(Exec(f, devs, c).0, p) == At(f, p)
  {
  }

  // ---- The diff theorem ----

  lemma InBatch(prev: seq<RouteEntry>, curr: seq<RouteEntry>, live: set<string>, c: Command)
    ensures c in Emit(false, prev, curr, Some(live)) <==>
            var k := EntryKey(c.prefix, c.hop);
            if c.Del? then k in DictKeys(prev) && k !in DictKeys(curr) && c.prefix !in Prefixes(curr)
                           && c.hop.dev in live
            else k in DictKeys(curr) && k !in DictKeys(prev)
  {
    InDeletions(DictKeys(prev), DictKeys(curr), Prefixes(curr), Some(live), c);
    InAdditions(DictKeys(prev), DictKeys(curr), c);
  }

  lemma KeyInTable(tbl: seq<RouteEntry>, k: EntryKey)
    requires UniquePrefixes(tbl)
    ensures k in DictKeys(tbl) <==> k.prefix in TableMap(tbl) && TableMap(tbl)[k.prefix] == k.hop
  {
    if k.prefix in TableMap(tbl) && TableMap(tbl)[k.prefix] == k.hop {
      var i :| 0 <= i < |tbl| && PrefixOf(tbl[i]) == k.prefix;
      assert KeyOf(tbl[i]) == k;
    }
  }

  /** One prefix after the batch: what the current table says, unless the route is in both tables and
      was purged meanwhile. */
  lemma DiffAt(prev: seq<RouteEntry>, curr: seq<RouteEntry>, gone: set<string>, live: set<string>, p: Prefix)
    requires UniquePrefixes(prev) && UniquePrefixes(curr) && Devices(curr) <= live
    requires Devices(prev) - live <= gone
    ensures var f := Batch(Purge(TableMap(prev), gone), live, Emit(false, prev, curr, Some(live))).0;
            At(f, p) == if At(TableMap(prev), p) == At(TableMap(curr), p) then At(Purge(TableMap(prev), gone), p)
                        else At(TableMap(curr), p)
  {
    var fib, cmds := Purge(TableMap(prev), gone), Emit(false, prev, curr, Some(live));
    BatchIsMinimal(prev, curr, Some(live));
    BatchAt(fib, live, cmds);
    var old', new' := At(TableMap(prev), p), At(TableMap(curr), p);
    if old' == new' {
      Untouched(prev, curr, live, p);
    } else if new'.Some? {
      InBatch(prev, curr, live, Replace(p, new'.value));
      KeyInTable(curr, EntryKey(p, new'.value));
      KeyInTable(prev, EntryKey(p, new'.value));
      DeviceOf(curr, p);
      assert Replace(p, new'.value) in cmds;
    } else if old'.value.dev in live {
      InBatch(prev, curr, live, Del(p, old'.value));
      KeyInTable(prev, EntryKey(p, old'.value));
      KeyInTable(curr, EntryKey(p, old'.value));
      assert Del(p, old'.value) in cmds;
    } else {
      DeviceOf(prev, p);
      Untouched(prev, curr, live, p);
    }
  }

  lemma DeviceOf(tbl: seq<RouteEntry>, p: Prefix)
    requires UniquePrefixes(tbl) && p in TableMap(tbl)
    ensures TableMap(tbl)[p].dev in Devices(tbl)
  {
    var i :| 0 <= i < |tbl| && PrefixOf(tbl[i]) == p;
    assert HopOf(tbl[i]).dev in Devices(tbl);
  }

  lemma Untouched(prev: seq<RouteEntry>, curr: seq<RouteEntry>, live: set<string>, p: Prefix)
    requires UniquePrefixes(prev) && UniquePrefixes(curr)
    requires || At(TableMap(prev), p) == At(TableMap(curr), p)
             || (p !in TableMap(curr) && p in TableMap(prev) && TableMap(prev)[p].dev !in live)
    ensures !Targets(Emit(false, prev, curr, Some(live)), p)
  {
    forall c | c in Emit(false, prev, curr, Some(live)) ensures c.prefix != p {
      InBatch(prev, curr, live, c);
      KeyInTable(prev, EntryKey(c.prefix, c.hop));
      KeyInTable(curr, EntryKey(c.prefix, c.hop));
    }
  }

  /** A route of both tables survived: its device was not removed since the previous table was installed. */
  ghost predicate SharedRoutesSurvive(prev: seq<RouteEntry>, curr: seq<RouteEntry>, gone: set<string>)
    requires UniquePrefixes(prev) && UniquePrefixes(curr)
  {
    forall p | p in TableMap(prev) && p in TableMap(curr) && TableMap(prev)[p] == TableMap(curr)[p] ::
      TableMap(prev)[p].dev !in gone
  }

  lemma DiffAtEvery(prev: seq<RouteEntry>, curr: seq<RouteEntry>, gone: set<string>, live: set<string>, f: Fib)
    requires UniquePrefixes(prev) && UniquePrefixes(curr) && Devices(curr) <= live
    requires Devices(prev) - live <= gone
    requires f == Batch(Purge(TableMap(prev), gone), live, Emit(false, prev, curr, Some(live))).0
    ensures forall p :: At(f, p) == if At(TableMap(prev), p) == At(TableMap(curr), p)
                                    then At(Purge(TableMap(prev), gone), p) else At(TableMap(curr), p)
  {
    forall p ensures At(f, p) == if At(TableMap(prev), p) == At(TableMap(curr), p)
                                 then At(Purge(TableMap(prev), gone), p) else At(TableMap(curr), p)
    {
      DiffAt(prev, curr, gone, live, p);
    }
  }

  /** The batch turns what the kernel kept of the previous table into the current table exactly when no
      unchanged route lost its device meanwhile. */
  lemma DiffExact(prev: seq<RouteEntry>, curr: seq<RouteEntry>, gone: set<string>, live: set<string>)
    requires UniquePrefixes(prev) && UniquePrefixes(curr) && Devices(curr) <= live
    requires Devices(prev) - live <= gone
    ensures Batch(Purge(TableMap(prev), gone), live, Emit(false, prev, curr, Some(live))).0 == TableMap(curr)
            <==> SharedRoutesSurvive(prev, curr, gone)
  {
    var f := Batch(Purge(TableMap(prev), gone), live, Emit(false, prev, curr, Some(live))).0;
    var mp, mc := TableMap(prev), TableMap(curr);
    var fib := Purge(mp, gone);
    DiffAtEvery(prev, curr, gone, live, f);
    if SharedRoutesSurvive(prev, curr, gone) {
      forall p ensures At(f, p) == At(mc, p) {
        if At(mp, p) == At(mc, p) && p in mp {
          assert mp[p].dev !in gone;
        }
      }
      MapsEqual(f, mc);
    } else {
      var p :| p in mp && p in mc && mp[p] == mc[p] && mp[p].dev in gone;
      assert At(fib, p) == None;
      assert At(f, p) == None;
    }
  }

  /** Whether the batch brings one prefix to the current table, from whatever the kernel holds for it: an unchanged
      route is not sent, a dropped one is deleted only if it is held and its device is live, any other is sent. */
  predicate Mends(held: Option<Hop>, was: Option<Hop>, now: Option<Hop>, live: set<string>) {
    if was == now then held == now
    else if now.None? then held.None? || (held == was && was.value.dev in live)
    else true
  }

  lemma MendAt(fib: Fib, prev: seq<RouteEntry>, curr: seq<RouteEntry>, live: set<string>, p: Prefix)
    requires UniquePrefixes(prev) && UniquePrefixes(curr) && Devices(curr) <= live
    ensures At(Batch(fib, live, Emit(false, prev, curr, Some(live))).0, p) == At(TableMap(curr), p)
            <==> Mends(At(fib, p), At(TableMap(prev), p), At(TableMap(curr), p), live)
  {
    var cmds := Emit(false, prev, curr, Some(live));
    BatchIsMinimal(prev, curr, Some(live));
    BatchAt(fib, live, cmds);
    var was, now := At(TableMap(prev), p), At(TableMap(curr), p);
    if was == now {
      Untouched(prev, curr, live, p);
    } else if now.Some? {
      InBatch(prev, curr, live, Replace(p, now.value));
      KeyInTable(curr, EntryKey(p, now.value));
      KeyInTable(prev, EntryKey(p, now.value));
      DeviceOf(curr, p);
      assert Replace(p, now.value) in cmds;
    } else if was.value.dev in live {
      InBatch(prev, curr, live, Del(p, was.value));
      KeyInTable(prev, EntryKey(p, was.value));
      KeyInTable(curr, EntryKey(p, was.value));
      assert Del(p, was.value) in cmds;
    } else {
      Untouched(prev, curr, live, p);
    }
  }

  /** From any kernel: the batch of two tables leaves the current one exactly when every prefix is mended. */
  lemma MendExact(fib: Fib, prev: seq<RouteEntry>, curr: seq<RouteEntry>, live: set<string>)
    requires UniquePrefixes(prev) && UniquePrefixes(curr) && Devices(curr) <= live
    ensures Batch(fib, live, Emit(false, prev, curr, Some(live))).0 == TableMap(curr)
            <==> forall p :: Mends(At(fib, p), At(TableMap(prev), p), At(TableMap(curr), p), live)
  {
    var f := Batch(fib, live, Emit(false, prev, curr, Some(live))).0;
    forall p ensures At(f, p) == At(TableMap(curr), p)
                     <==> Mends(At(fib, p), At(TableMap(prev), p), At(TableMap(curr), p), live)
    {
      MendAt(fib, prev, curr, live, p);
    }
    if forall p :: Mends(At(fib, p), At(TableMap(prev), p), At(TableMap(curr), p), live) {
      MapsEqual(f, TableMap(curr));
    }
  }

  /** When no removed device of the previous table has come back, the kernel ends with the current table
      and no line of the batch fails. */
  lemma DiffTheorem(prev: seq<RouteEntry>, curr: seq<RouteEntry>, gone: set<string>, live: set<string>)
    requires UniquePrefixes(prev) && UniquePrefixes(curr) && Devices(curr) <= live
    requires Devices(prev) - live <= gone && Devices(prev) * gone !! live
    ensures Batch(Purge(TableMap(prev), gone), live, Emit(false, prev, curr, Some(live))) == (TableMap(curr), true)
  {
    forall p | p in TableMap(prev) && p in TableMap(curr) && TableMap(prev)[p] == TableMap(curr)[p]
      ensures TableMap(prev)[p].dev !in gone
    {
      DeviceOf(prev, p);
      DeviceOf(curr, p);
    }
    DiffExact(prev, curr, gone, live);
    NoLineFails(prev, curr, gone, live);
  }

  lemma MapsEqual(f: Fib, g: Fib)
    requires forall p :: At(f, p) == At(g, p)
    ensures f == g
  {
    assert forall p :: p in f <==> At(f, p).Some?;
    assert forall p :: p in g <==> At(g, p).Some?;
    assert forall p | p in f :: At(f, p) == Some(f[p]) && At(g, p) == Some(g[p]);
  }

  lemma NoLineFails(prev: seq<RouteEntry>, curr: seq<RouteEntry>, gone: set<string>, live: set<string>)
    requires UniquePrefixes(prev) && UniquePrefixes(curr) && Devices(curr) <= live
    requires Devices(prev) * gone !! live
    ensures Batch(Purge(TableMap(prev), gone), live, Emit(false, prev, curr, Some(live))).1
  {
    var fib, cmds := Purge(TableMap(prev), gone), Emit(false, prev, curr, Some(live));
    BatchIsMinimal(prev, curr, Some(live));
    BatchAt(fib, live, cmds);
    forall c | c in cmds ensures Exec(fib, live, c).1 {
      InBatch(prev, curr, live, c);
      KeyInTable(prev, EntryKey(c.prefix, c.hop));
      KeyInTable(curr, EntryKey(c.prefix, c.hop));
      if c.Replace? {
        DeviceOf(curr, c.prefix);
      } else {
        DeviceOf(prev, c.prefix);
      }
    }
  }
}
